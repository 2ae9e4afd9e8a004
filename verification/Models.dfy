/** The rows of the panel's tables and the values computed from them (internal/models). */
module Models {
  import opened GoStrings

  const TWO_TO_63: int := 0x8000_0000_0000_0000

  type int64 = x: int | -TWO_TO_63 <= x < TWO_TO_63

  /** Two's-complement wrap-around of a 64-bit sum or difference. */
  function Wrap64(x: int): int64 {
    (x + TWO_TO_63) % (2 * TWO_TO_63) - TWO_TO_63
  }

  datatype Core = Xray | SingBox | OtherCore(name: Str)

  /** A protocol name; every name but the six known ones is UnknownProtocol. */
  datatype Protocol = VLESS | VMess | Trojan | Shadowsocks | Hysteria2 | TUIC | UnknownProtocol(name: Str)
  {
    predicate Valid() {
      match this
      case VLESS | VMess | Trojan | Shadowsocks | Hysteria2 | TUIC => true
      case UnknownProtocol(_) => false
    }

    predicate SupportedBy(core: Core) {
      match this
      case Hysteria2 | TUIC => core == SingBox
      case VLESS | VMess | Trojan | Shadowsocks => true
      case UnknownProtocol(_) => false
    }
  }

  const DEFAULT_SS_METHOD: Str := "chacha20-ietf-poly1305"

  /** A status name; every name but the five known ones is OtherStatus. */
  datatype UserStatus = Active | Disabled | Limited | Expired | OnHold | OtherStatus(name: Str)

  /** A value of the free-form REALITY settings: only its being a string matters. */
  datatype Setting = Text(text: Str) | NotText

  datatype Node = Node(
    id: nat,
    name: Str,
    address: Str,
    core: Core,
    isActive: bool,
    deleted: bool)

  datatype Inbound = Inbound(
    id: nat,
    nodeId: nat,
    tag: Str,
    protocol: Protocol,
    listen: Str,
    port: int,
    network: Str,
    security: Str,
    sni: Str,
    host: Str,
    path: Str,
    flow: Str,
    fingerprint: Str,
    reality: Option<map<Str, Setting>>,
    isActive: bool,
    deleted: bool)

  datatype User = User(
    id: nat,
    username: Str,
    status: UserStatus,
    uuid: Str,
    trojanPassword: Str,
    ssPassword: Str,
    ssMethod: Str,
    subToken: Str,
    dataLimit: int64,
    usedUp: int64,
    usedDown: int64,
    dataStrategy: Str,
    lastResetAt: Option<int>,
    expireAt: Option<int>,
    note: Str,
    subLastAt: Option<int>,
    deleted: bool)
  {
    function UsedTotal(): int64 {
      Wrap64(usedUp + usedDown)
    }

    predicate IsExpired(now: int) {
      expireAt.Some? && now > expireAt.value
    }

    predicate IsLimited() {
      dataLimit > 0 && UsedTotal() >= dataLimit
    }

    /** Bytes left, or -1 for unlimited. */
    function RemainingData(): int64 {
      if dataLimit == 0 then -1
      else
        var r := Wrap64(dataLimit - UsedTotal());
        if r < 0 then 0 else r
    }

    function EffectiveStatus(now: int): UserStatus {
      if status == Disabled || status == OnHold then status
      else if IsExpired(now) then Expired
      else if IsLimited() then Limited
      else Active
    }

    predicate CanConnect(now: int) {
      EffectiveStatus(now) == Active
    }

    /** The counters are byte counts and their sum still fits in an int64. */
    predicate UsageFits() {
      usedUp >= 0 && usedDown >= 0 && usedUp + usedDown < TWO_TO_63
    }
  }

  /** Later is the same account after more traffic: nothing but the counters and the
      bookkeeping of fetches has changed. */
  ghost predicate Ages(earlier: User, later: User) {
    && earlier.status == later.status
    && earlier.dataLimit == later.dataLimit
    && earlier.expireAt == later.expireAt
    && earlier.usedUp <= later.usedUp
    && earlier.usedDown <= later.usedDown
  }

  /** The usage sum has wrapped since the cap stopped an account that could otherwise connect. */
  predicate CapWrapped(earlier: User, later: User) {
    earlier.status !in {Disabled, OnHold} && earlier.IsLimited() && !later.UsageFits()
  }

  /** Left alone, an account can only lose access: time and traffic never give it back, unless the
      usage sum wraps over the cap. */
  lemma ConnectabilityDecays(earlier: User, later: User, t0: int, t1: int)
    requires Ages(earlier, later) && t0 <= t1 && earlier.usedUp >= 0 && earlier.usedDown >= 0
    requires !CapWrapped(earlier, later)
    requires later.CanConnect(t1)
    ensures earlier.CanConnect(t0)
  {
    if later.UsageFits() {
      assert earlier.UsedTotal() <= later.UsedTotal();
    }
  }

  /** And then it does give access back. */
  lemma WrapReconnects(earlier: User, later: User)
    requires Ages(earlier, later) && earlier.usedUp >= 0 && earlier.usedDown >= 0
    requires CapWrapped(earlier, later)
    ensures var t := if later.expireAt.Some? then later.expireAt.value else 0;
            later.CanConnect(t) && !earlier.CanConnect(t)
  {
    var sum: int := later.usedUp + later.usedDown;
    assert later.UsedTotal() == sum - 2 * TWO_TO_63 < 0;
  }

  /** Time and traffic only end access exactly when the sum has not wrapped over the cap. */
  lemma ConnectabilityDecaysExactly(earlier: User, later: User)
    requires Ages(earlier, later) && earlier.usedUp >= 0 && earlier.usedDown >= 0
    ensures (forall t0, t1 :: t0 <= t1 && later.CanConnect(t1) ==> earlier.CanConnect(t0))
            <==> later.UsageFits() || !earlier.IsLimited() || earlier.status in {Disabled, OnHold}
  {
    if CapWrapped(earlier, later) {
      WrapReconnects(earlier, later);
    } else {
      forall t0, t1 | t0 <= t1 && later.CanConnect(t1) ensures earlier.CanConnect(t0) {
        ConnectabilityDecays(earlier, later, t0, t1);
      }
    }
  }

  /** For byte counters the cap is enforced exactly when there is none or the sum of the
      counters has not wrapped around. */
  lemma CapEnforcedExactly(u: User)
    requires u.usedUp >= 0 && u.usedDown >= 0
    ensures (u.IsLimited() <==> u.dataLimit > 0 && u.usedUp + u.usedDown >= u.dataLimit)
            <==> u.dataLimit <= 0 || u.UsageFits()
  {
    var sum: int := u.usedUp + u.usedDown;
    assert sum >= TWO_TO_63 ==> u.UsedTotal() == sum - 2 * TWO_TO_63 < 0;
  }

  /** The failing family is not empty: once the counters add up to 2^63 bytes a capped account
      connects again. */
  lemma OverflowGivesAccessBack(u: User, now: int)
    requires u.status == Active && u.expireAt.None? && u.dataLimit > 0
    requires u.usedUp == TWO_TO_63 - 1 && u.usedDown == 1
    ensures u.CanConnect(now)
    ensures u.(usedDown := 0).IsLimited()
  {
    assert u.UsedTotal() == -TWO_TO_63;
    assert u.(usedDown := 0).UsedTotal() == TWO_TO_63 - 1;
  }

  /** The remaining quota and the cap tell the same story: nothing left exactly when limited. */
  lemma RemainingAgreesWithCap(u: User)
    requires u.UsageFits() && u.dataLimit >= 0
    ensures u.RemainingData() == 0 <==> u.IsLimited()
    ensures u.dataLimit > 0 && !u.IsLimited() ==> u.RemainingData() == u.dataLimit - (u.usedUp + u.usedDown)
  {
  }

  /** Statuses that no reader of a subscription can tell apart. */
  predicate SameForReaders(a: UserStatus, b: UserStatus) {
    a == b || (a !in {Disabled, OnHold} && b !in {Disabled, OnHold})
  }

  lemma StatusesIndistinguishable(u: User, s: UserStatus, now: int)
    requires SameForReaders(u.status, s)
    ensures u.(status := s).EffectiveStatus(now) == u.EffectiveStatus(now)
  {
  }

  /** The status a reader is shown: disabled and on hold stay as stored, then the expiry counts, then
      the cap, and everything else is active. */
  lemma EffectiveStatusIs(u: User, now: int)
    requires u.UsageFits()
    ensures u.EffectiveStatus(now) ==
            if u.status == Disabled then Disabled
            else if u.status == OnHold then OnHold
            else if u.expireAt.Some? && now > u.expireAt.value then Expired
            else if u.dataLimit > 0 && u.usedUp + u.usedDown >= u.dataLimit then Limited
            else Active
    ensures u.CanConnect(now) <==>
              && u.status != Disabled && u.status != OnHold
              && (u.expireAt.Some? ==> now <= u.expireAt.value)
              && (u.dataLimit > 0 ==> u.usedUp + u.usedDown < u.dataLimit)
  {
  }

  /** What remains: -1 without a limit, else limit less usage, but not below 0. */
  lemma RemainingIs(u: User)
    requires u.UsageFits() && u.dataLimit >= 0
    ensures u.RemainingData() ==
            if u.dataLimit == 0 then -1
            else if u.usedUp + u.usedDown >= u.dataLimit then 0
            else u.dataLimit - (u.usedUp + u.usedDown)
  {
  }

  /** Which core serves which protocol. */
  predicate CoreServes(core: Core, protocol: Protocol) {
    || protocol in {VLESS, VMess, Trojan, Shadowsocks}
    || (protocol in {Hysteria2, TUIC} && core == SingBox)
  }

  lemma SupportedExactly(protocol: Protocol, core: Core)
    ensures protocol.SupportedBy(core) <==> CoreServes(core, protocol)
    ensures protocol.Valid() <==> protocol in {VLESS, VMess, Trojan, Shadowsocks, Hysteria2, TUIC}
  {
  }
}
