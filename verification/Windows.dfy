/** How many requests of one address the limiter admits in a window of time when its requests take
    two steps, so that a bucket can be spent from up to d after it was handed out, and several
    buckets of one address at once when d is longer than the ttl. */
module Windows {
  import opened GoStrings
  import opened TokenBucket
  import opened Budgets
  import opened Eviction

  /** The time es takes. */
  function Length(es: seq<Event>): real {
    if es == [] then 0.0 else Span(es[0]) + Length(es[1..])
  }

  function Span(e: Event): real {
    if e.Tick? then e.dt else 0.0
  }

  function Granted(ds: seq<Decision>, ip: Str): nat {
    if ds == [] then 0 else (if ds[0].ip == ip && ds[0].ok then 1 else 0) + Granted(ds[1..], ip)
  }

  /** The number of requests of ip admitted during es. */
  function GrantedDuring(cfg: Config, d: real, s: State, es: seq<Event>, ip: Str): nat
    requires Runs(cfg, d, s, es)
  {
    Granted(Trace(cfg, d, s, es), ip)
  }

  function GrantedAt(cfg: Config, d: real, s: State, e: Event, ip: Str): nat
    requires Enabled(d, s, e)
  {
    Granted(DecisionOf(cfg, d, s, e), ip)
  }

  lemma GrantedStep(cfg: Config, d: real, s: State, es: seq<Event>, ip: Str)
    requires es != [] && Runs(cfg, d, s, es)
    ensures GrantedDuring(cfg, d, s, es, ip) ==
            GrantedAt(cfg, d, s, es[0], ip) + GrantedDuring(cfg, d, Step(cfg, d, s, es[0]), es[1..], ip)
  {
    var ds, rest := DecisionOf(cfg, d, s, es[0]), Trace(cfg, d, Step(cfg, d, s, es[0]), es[1..]);
    if ds == [] {
      assert ds + rest == rest;
    } else {
      GrantedFirst(ds[0], rest, ip);
      GrantedFirst(ds[0], [], ip);
      assert ds == [ds[0]] && ds == [ds[0]] + [];
    }
  }

  lemma GrantedFirst(x: Decision, rest: seq<Decision>, ip: Str)
    ensures Granted([x] + rest, ip) == (if x.ip == ip && x.ok then 1 else 0) + Granted(rest, ip)
  {
    assert ([x] + rest)[1..] == rest;
  }

  /** What one event admits: only the spends of ip count. */
  lemma GrantedBy(cfg: Config, d: real, s: State, e: Event, ip: Str)
    requires Enabled(d, s, e)
    ensures GrantedAt(cfg, d, s, e, ip) ==
            if e.Spend? && s.flights[e.flight].ip == ip && Allow(cfg, s.cells[s.flights[e.flight].id].bucket, s.clock).1
            then 1 else 0
  {
    if e.Spend? {
      GrantedFirst(DecisionOf(cfg, d, s, e)[0], [], ip);
      assert DecisionOf(cfg, d, s, e) == [DecisionOf(cfg, d, s, e)[0]] + [];
    }
  }

  lemma {:induction false} LengthNonNegative(cfg: Config, d: real, s: State, es: seq<Event>)
    requires Runs(cfg, d, s, es)
    ensures Length(es) >= 0.0
    decreases |es|
  {
    if es != [] {
      LengthNonNegative(cfg, d, Step(cfg, d, s, es[0]), es[1..]);
    }
  }

  // ---- the buckets of one address ----

  /** A bucket of the address: when it was made and when it was last handed out. */
  datatype Life = Life(id: nat, born: real, seen: real)

  /** A bucket is made only after the one before it has been idle for longer than the ttl. */
  predicate Spaced(cfg: Config, lives: seq<Life>) {
    && (forall i :: 0 <= i < |lives| ==> lives[i].born <= lives[i].seen)
    && (forall i, j :: 0 <= i < j < |lives| ==> lives[i].id != lives[j].id && lives[i].seen + cfg.ttl < lives[j].born)
  }

  predicate Owned(s: State, ip: Str, lives: seq<Life>) {
    forall i :: 0 <= i < |lives| ==>
      lives[i].id in s.cells && s.cells[lives[i].id].owner == ip && lives[i].seen <= s.clock
  }

  predicate Holds(lives: seq<Life>, id: nat, fetched: real) {
    exists i :: 0 <= i < |lives| && lives[i].id == id && fetched <= lives[i].seen
  }

  /** Every request of ip that may still spend holds one of the buckets. */
  predicate Covered(d: real, s: State, ip: Str, lives: seq<Life>) {
    forall f :: f in s.flights && s.flights[f].ip == ip && s.clock - s.flights[f].fetched <= d ==>
      Holds(lives, s.flights[f].id, s.flights[f].fetched)
  }

  /** The last bucket is the one in the map; if there is none, it has been idle for long. */
  predicate Ends(cfg: Config, s: State, ip: Str, lives: seq<Life>) {
    if ip in s.clients
    then lives != [] && lives[|lives| - 1].id == s.clients[ip].id && lives[|lives| - 1].seen == s.clients[ip].lastSeen
    else lives != [] ==> lives[|lives| - 1].seen + cfg.ttl < s.clock
  }

  predicate Follows(cfg: Config, d: real, s: State, ip: Str, lives: seq<Life>) {
    Consistent(cfg, s) && Spaced(cfg, lives) && Owned(s, ip, lives) && Covered(d, s, ip, lives) && Ends(cfg, s, ip, lives)
  }

  /** Only buckets that may still be spent from, and the one in the map. */
  predicate Open(d: real, s: State, ip: Str, lives: seq<Life>) {
    forall i :: 0 <= i < |lives| ==> s.clock - lives[i].seen <= d || (i == |lives| - 1 && ip in s.clients)
  }

  predicate Tracks(cfg: Config, d: real, s: State, ip: Str, lives: seq<Life>) {
    Follows(cfg, d, s, ip, lives) && Open(d, s, ip, lives)
  }

  /** lives without the buckets that nobody can spend from any more. */
  function Pruned(d: real, now: real, keepLast: bool, lives: seq<Life>): seq<Life> {
    if lives == [] || now - lives[0].seen <= d || (keepLast && |lives| == 1) then lives
    else Pruned(d, now, keepLast, lives[1..])
  }

  lemma DropFirst(cfg: Config, d: real, s: State, ip: Str, lives: seq<Life>)
    requires Follows(cfg, d, s, ip, lives) && lives != [] && s.clock - lives[0].seen > d
    requires ip in s.clients ==> |lives| > 1
    ensures Follows(cfg, d, s, ip, lives[1..])
  {
    var rest := lives[1..];
    forall f | f in s.flights && s.flights[f].ip == ip && s.clock - s.flights[f].fetched <= d
      ensures Holds(rest, s.flights[f].id, s.flights[f].fetched)
    {
      var i :| 0 <= i < |lives| && lives[i].id == s.flights[f].id && s.flights[f].fetched <= lives[i].seen;
      assert rest[i - 1] == lives[i];
    }
  }

  lemma {:induction false} PrunedTracks(cfg: Config, d: real, s: State, ip: Str, lives: seq<Life>)
    requires cfg.Valid() && Follows(cfg, d, s, ip, lives)
    ensures Tracks(cfg, d, s, ip, Pruned(d, s.clock, ip in s.clients, lives))
  {
    if lives == [] || s.clock - lives[0].seen <= d || (ip in s.clients && |lives| == 1) {
      assert forall i :: 0 < i < |lives| ==> lives[0].seen + cfg.ttl < lives[i].born <= lives[i].seen;
    } else {
      DropFirst(cfg, d, s, ip, lives);
      PrunedTracks(cfg, d, s, ip, lives[1..]);
    }
  }

  /** The buckets after an event, before pruning. */
  function Lived(s: State, e: Event, ip: Str, lives: seq<Life>): seq<Life>
    requires ip in s.clients ==> lives != []
  {
    if e != Get(ip) then lives
    else if ip in s.clients then lives[|lives| - 1 := lives[|lives| - 1].(seen := s.clock)]
    else lives + [Life(s.nextCell, s.clock, s.clock)]
  }

  lemma SeenAgain(cfg: Config, d: real, s: State, ip: Str, lives: seq<Life>)
    requires cfg.Valid() && Follows(cfg, d, s, ip, lives) && ip in s.clients
    requires Consistent(cfg, Step(cfg, d, s, Get(ip)))
    ensures Follows(cfg, d, Step(cfg, d, s, Get(ip)), ip, Lived(s, Get(ip), ip, lives))
  {
    var s', lives', last := Step(cfg, d, s, Get(ip)), Lived(s, Get(ip), ip, lives), |lives| - 1;
    assert lives'[last].id == s.clients[ip].id && lives'[last].seen == s.clock;
    forall f | f in s'.flights && s'.flights[f].ip == ip && s'.clock - s'.flights[f].fetched <= d
      ensures Holds(lives', s'.flights[f].id, s'.flights[f].fetched)
    {
      if f != s.nextFlight {
        var i :| 0 <= i < |lives| && lives[i].id == s.flights[f].id && s.flights[f].fetched <= lives[i].seen;
        assert lives'[i].id == lives[i].id && lives[i].seen <= lives'[i].seen;
      }
    }
  }

  lemma BornNow(cfg: Config, d: real, s: State, ip: Str, lives: seq<Life>)
    requires cfg.Valid() && Follows(cfg, d, s, ip, lives) && ip !in s.clients
    requires Consistent(cfg, Step(cfg, d, s, Get(ip)))
    ensures Follows(cfg, d, Step(cfg, d, s, Get(ip)), ip, Lived(s, Get(ip), ip, lives))
  {
    var s', lives' := Step(cfg, d, s, Get(ip)), Lived(s, Get(ip), ip, lives);
    assert lives'[|lives|].id == s.nextCell;
    forall f | f in s'.flights && s'.flights[f].ip == ip && s'.clock - s'.flights[f].fetched <= d
      ensures Holds(lives', s'.flights[f].id, s'.flights[f].fetched)
    {
      if f != s.nextFlight {
        var i :| 0 <= i < |lives| && lives[i].id == s.flights[f].id && s.flights[f].fetched <= lives[i].seen;
        assert lives'[i] == lives[i];
      }
    }
    forall i | 0 <= i < |lives| ensures lives[i].seen + cfg.ttl < s.clock {
      assert i < |lives| - 1 ==> lives[i].seen + cfg.ttl < lives[|lives| - 1].born;
    }
  }

  lemma OtherFollows(cfg: Config, d: real, s: State, e: Event, ip: Str, lives: seq<Life>)
    requires cfg.Valid() && Follows(cfg, d, s, ip, lives) && Enabled(d, s, e) && e != Get(ip)
    requires Consistent(cfg, Step(cfg, d, s, e))
    ensures Follows(cfg, d, Step(cfg, d, s, e), ip, lives)
  {
    var s' := Step(cfg, d, s, e);
    forall f | f in s'.flights && s'.flights[f].ip == ip && s'.clock - s'.flights[f].fetched <= d
      ensures Holds(lives, s'.flights[f].id, s'.flights[f].fetched)
    {
      assert f in s.flights && s.flights[f] == s'.flights[f];
    }
  }

  /** The buckets of ip after an event. */
  lemma StepTracks(cfg: Config, d: real, s: State, e: Event, ip: Str, lives: seq<Life>) returns (lived: seq<Life>, lives': seq<Life>)
    requires cfg.Valid() && Tracks(cfg, d, s, ip, lives) && Enabled(d, s, e)
    ensures var s' := Step(cfg, d, s, e);
            && lived == Lived(s, e, ip, lives) && Follows(cfg, d, s', ip, lived)
            && lives' == Pruned(d, s'.clock, ip in s'.clients, lived) && Tracks(cfg, d, s', ip, lives')
  {
    StepConsistent(cfg, d, s, e);
    lived := Lived(s, e, ip, lives);
    if e != Get(ip) {
      OtherFollows(cfg, d, s, e, ip, lives);
    } else if ip in s.clients {
      SeenAgain(cfg, d, s, ip, lives);
    } else {
      BornNow(cfg, d, s, ip, lives);
    }
    var s' := Step(cfg, d, s, e);
    lives' := Pruned(d, s'.clock, ip in s'.clients, lived);
    PrunedTracks(cfg, d, s', ip, lived);
  }

  // ---- what the buckets hold ----

  function Fuel(cfg: Config, cells: map<nat, Cell>, now: real, lives: seq<Life>): real
    requires forall i :: 0 <= i < |lives| ==> lives[i].id in cells
  {
    if lives == [] then 0.0 else Avail(cfg, cells[lives[0].id].bucket, now) + Fuel(cfg, cells, now, lives[1..])
  }

  predicate SaneCells(cfg: Config, cells: map<nat, Cell>, now: real) {
    forall id :: id in cells ==> Sane(cfg, cells[id].bucket, now)
  }

  /** What k buckets take in in t. */
  function Inflow(cfg: Config, k: int, t: real): real {
    k as real * (cfg.rps * t)
  }

  lemma OneMoreInflow(cfg: Config, k: int, t: real)
    ensures Inflow(cfg, 1 + k, t) == cfg.rps * t + Inflow(cfg, k, t)
    ensures Inflow(cfg, 0, t) == 0.0
  {
    var r := cfg.rps * t;
    Distribute(r, 1.0, k as real);
    assert (1 + k) as real == 1.0 + k as real;
  }

  lemma MoreInflow(cfg: Config, k: int, n: int, t: real)
    requires cfg.Valid() && k <= n && t >= 0.0
    ensures Inflow(cfg, k, t) <= Inflow(cfg, n, t)
  {
    NonNegative(cfg.rps, t);
    Scale(cfg.rps * t, k as real, n as real);
  }

  lemma InflowAdds(cfg: Config, k: int, t: real, t': real)
    ensures Inflow(cfg, k, t + t') == Inflow(cfg, k, t) + Inflow(cfg, k, t')
  {
    Distribute(cfg.rps, t, t');
    Distribute(k as real, cfg.rps * t, cfg.rps * t');
  }

  lemma NoInflow(cfg: Config, k: int)
    ensures Inflow(cfg, k, 0.0) == 0.0
  {
    assert cfg.rps * 0.0 == 0.0;
  }

  lemma {:induction false} FuelRange(cfg: Config, cells: map<nat, Cell>, now: real, lives: seq<Life>)
    requires cfg.Valid() && SaneCells(cfg, cells, now)
    requires forall i :: 0 <= i < |lives| ==> lives[i].id in cells
    ensures 0.0 <= Fuel(cfg, cells, now, lives) <= Bursts(cfg, |lives|)
  {
    MoreBursts(cfg, 0, 0);
    if lives != [] {
      AvailRange(cfg, cells[lives[0].id].bucket, now);
      FuelRange(cfg, cells, now, lives[1..]);
      OneMoreBurst(cfg, |lives[1..]|);
    }
  }

  lemma {:induction false} FuelLater(cfg: Config, cells: map<nat, Cell>, now: real, dt: real, lives: seq<Life>)
    requires cfg.Valid() && SaneCells(cfg, cells, now) && dt >= 0.0
    requires forall i :: 0 <= i < |lives| ==> lives[i].id in cells
    ensures Fuel(cfg, cells, now + dt, lives) <= Fuel(cfg, cells, now, lives) + Inflow(cfg, |lives|, dt)
  {
    OneMoreInflow(cfg, |lives| - 1, dt);
    if lives == [] {
      OneMoreInflow(cfg, 0, dt);
    } else {
      TickTokens(cfg, cells[lives[0].id].bucket, now, dt);
      FuelLater(cfg, cells, now, dt, lives[1..]);
    }
  }

  lemma TickTokens(cfg: Config, b: Bucket, now: real, dt: real)
    requires cfg.Valid() && Sane(cfg, b, now) && dt >= 0.0
    ensures Avail(cfg, b, now + dt) <= Avail(cfg, b, now) + cfg.rps * dt
  {
    AvailLater(cfg, b, now, now + dt);
    assert (now + dt) - now == dt;
  }

  lemma {:induction false} SameFuel(cfg: Config, cells: map<nat, Cell>, cells': map<nat, Cell>, now: real, lives: seq<Life>,
                                    lives': seq<Life>)
    requires |lives| == |lives'|
    requires forall i :: 0 <= i < |lives| ==>
               && lives[i].id == lives'[i].id
               && lives[i].id in cells && lives[i].id in cells' && cells[lives[i].id] == cells'[lives[i].id]
    ensures Fuel(cfg, cells', now, lives') == Fuel(cfg, cells, now, lives)
  {
    if lives != [] {
      SameFuel(cfg, cells, cells', now, lives[1..], lives'[1..]);
    }
  }

  /** A spend takes what it is granted from one of the buckets. */
  lemma {:induction false} SpentFuel(cfg: Config, cells: map<nat, Cell>, now: real, lives: seq<Life>, i: nat)
    requires cfg.Valid() && SaneCells(cfg, cells, now) && i < |lives|
    requires forall k :: 0 <= k < |lives| ==> lives[k].id in cells
    requires forall k, l :: 0 <= k < l < |lives| ==> lives[k].id != lives[l].id
    ensures var id := lives[i].id;
            var (b, ok) := Allow(cfg, cells[id].bucket, now);
            Fuel(cfg, cells[id := cells[id].(bucket := b)], now, lives) + (if ok then 1.0 else 0.0) == Fuel(cfg, cells, now, lives)
  {
    var id := lives[i].id;
    var cells' := cells[id := cells[id].(bucket := Allow(cfg, cells[id].bucket, now).0)];
    if i == 0 {
      AllowSane(cfg, cells[id].bucket, now);
      SameFuel(cfg, cells, cells', now, lives[1..], lives[1..]);
    } else {
      SpentFuel(cfg, cells, now, lives[1..], i - 1);
    }
  }

  lemma {:induction false} PrunedFuel(cfg: Config, cells: map<nat, Cell>, d: real, now: real, keepLast: bool, lives: seq<Life>)
    requires cfg.Valid() && SaneCells(cfg, cells, now)
    requires forall i :: 0 <= i < |lives| ==> lives[i].id in cells
    ensures var kept := Pruned(d, now, keepLast, lives);
            && (forall i :: 0 <= i < |kept| ==> kept[i].id in cells)
            && Fuel(cfg, cells, now, kept) <= Fuel(cfg, cells, now, lives)
  {
    if lives == [] || now - lives[0].seen <= d || (keepLast && |lives| == 1) {
    } else {
      AvailRange(cfg, cells[lives[0].id].bucket, now);
      PrunedFuel(cfg, cells, d, now, keepLast, lives[1..]);
    }
  }

  lemma {:induction false} OneMoreFuel(cfg: Config, cells: map<nat, Cell>, now: real, lives: seq<Life>, l: Life)
    requires forall i :: 0 <= i < |lives| ==> lives[i].id in cells
    requires l.id in cells
    ensures Fuel(cfg, cells, now, lives + [l]) == Fuel(cfg, cells, now, lives) + Avail(cfg, cells[l.id].bucket, now)
  {
    if lives == [] {
      assert [] + [l] == [l] && [l][1..] == [];
    } else {
      OneMoreFuel(cfg, cells, now, lives[1..], l);
      assert (lives + [l])[1..] == lives[1..] + [l];
    }
  }

  // ---- how many buckets can be spent from at once ----

  /** The ttls that begin in d, at least one. */
  function Together(cfg: Config, d: real): int
    requires cfg.Valid()
  {
    if d <= cfg.ttl then 1 else -Periods(cfg, -d)
  }

  function Ttls(cfg: Config, k: int): real {
    k as real * cfg.ttl
  }

  lemma OneMoreTtl(cfg: Config, k: int)
    ensures Ttls(cfg, 1 + k) == cfg.ttl + Ttls(cfg, k)
    ensures Ttls(cfg, 0) == 0.0
  {
    Distribute(cfg.ttl, 1.0, k as real);
    assert (1 + k) as real == 1.0 + k as real;
  }

  lemma {:induction false} PeriodsShift(cfg: Config, x: real, k: nat)
    requires cfg.Valid()
    ensures Periods(cfg, x + Ttls(cfg, k)) == Periods(cfg, x) + k
    decreases k
  {
    OneMoreTtl(cfg, k - 1);
    if k > 0 {
      PeriodsShift(cfg, x, k - 1);
      DivideStep(x + Ttls(cfg, k - 1), cfg.ttl);
      assert x + Ttls(cfg, k) == x + Ttls(cfg, k - 1) + cfg.ttl;
    }
  }

  /** The first bucket was last seen k - 1 ttls before the last of k was made. */
  lemma {:induction false} Spread(cfg: Config, lives: seq<Life>)
    requires cfg.Valid() && Spaced(cfg, lives) && lives != []
    ensures lives[0].seen + Ttls(cfg, |lives| - 1) <= lives[|lives| - 1].seen
    ensures |lives| > 1 ==> lives[0].seen + Ttls(cfg, |lives| - 1) < lives[|lives| - 1].born
    decreases |lives|
  {
    OneMoreTtl(cfg, 0);
    if |lives| > 1 {
      Spread(cfg, lives[1..]);
      OneMoreTtl(cfg, |lives| - 2);
    }
  }

  lemma FitTogether(cfg: Config, d: real, k: nat)
    requires cfg.Valid() && k > 0 && Ttls(cfg, k) < d
    ensures k + 1 <= Together(cfg, d)
  {
    OneMoreTtl(cfg, k - 1);
    NonNegative(cfg.ttl, (k - 1) as real);
    PeriodsShift(cfg, -d, k);
    DivideBelow(-d + Ttls(cfg, k), cfg.ttl);
  }

  lemma DivideBelow(x: real, d: real)
    requires d > 0.0 && x < 0.0
    ensures (x / d).Floor <= -1
  {
    var q := x / d;
    assert d * q == x;
    if q >= 0.0 {
      NonNegative(d, q);
    }
  }

  lemma FewTogether(cfg: Config, d: real, s: State, ip: Str, lives: seq<Life>)
    requires cfg.Valid() && d >= 0.0 && Tracks(cfg, d, s, ip, lives)
    ensures |lives| <= Together(cfg, d)
  {
    AtLeastOne(cfg, d);
    if |lives| > 1 {
      Spread(cfg, lives);
      FitTogether(cfg, d, |lives| - 1);
    }
  }

  lemma AtLeastOne(cfg: Config, d: real)
    requires cfg.Valid()
    ensures Together(cfg, d) >= 1
  {
    if d > cfg.ttl {
      DivideBelow(-d, cfg.ttl);
    }
  }

  // ---- what an address can still be admitted ----

  /** The buckets ip can still get in t. */
  function NewBuckets(cfg: Config, s: State, ip: Str, t: real): int
    requires cfg.Valid()
  {
    if ip in s.clients then Periods(cfg, s.clock + t - s.clients[ip].lastSeen) else 1 + Periods(cfg, t)
  }

  /** What ip can still be admitted in t more time: what its buckets hold, what flows into as many as
      can be spent from at once, and the buckets it can still get. */
  function Allowance(cfg: Config, d: real, s: State, ip: Str, lives: seq<Life>, t: real): real
    requires cfg.Valid() && Owned(s, ip, lives)
  {
    Fuel(cfg, s.cells, s.clock, lives) + Inflow(cfg, Together(cfg, d), t) + Bursts(cfg, NewBuckets(cfg, s, ip, t))
  }

  lemma TickNewBuckets(cfg: Config, s: State, dt: real, ip: Str, t: real)
    requires cfg.Valid() && dt >= 0.0
    ensures Bursts(cfg, NewBuckets(cfg, s.(clock := s.clock + dt), ip, t)) <= Bursts(cfg, NewBuckets(cfg, s, ip, dt + t))
  {
    if ip in s.clients {
      assert s.clock + dt + t - s.clients[ip].lastSeen == s.clock + (dt + t) - s.clients[ip].lastSeen;
    } else {
      PeriodsMonotone(cfg, t, dt + t);
      MoreBursts(cfg, 1 + Periods(cfg, t), 1 + Periods(cfg, dt + t));
    }
  }

  lemma SeenNewBuckets(cfg: Config, d: real, s: State, ip: Str, t: real)
    requires cfg.Valid() && Consistent(cfg, s) && ip in s.clients
    ensures Bursts(cfg, NewBuckets(cfg, Step(cfg, d, s, Get(ip)), ip, t)) <= Bursts(cfg, NewBuckets(cfg, s, ip, t))
  {
    var seen := s.clients[ip].lastSeen;
    assert s.clock + t - s.clock == t;
    PeriodsMonotone(cfg, t, s.clock + t - seen);
    MoreBursts(cfg, Periods(cfg, t), Periods(cfg, s.clock + t - seen));
  }

  lemma BornNewBuckets(cfg: Config, d: real, s: State, ip: Str, t: real)
    requires cfg.Valid() && ip !in s.clients
    ensures Bursts(cfg, NewBuckets(cfg, Step(cfg, d, s, Get(ip)), ip, t)) + cfg.burst as real == Bursts(cfg, NewBuckets(cfg, s, ip, t))
  {
    assert s.clock + t - s.clock == t;
    OneMoreBurst(cfg, Periods(cfg, t));
  }

  /** A ttl of idleness pays for the bucket that replaces an evicted one. */
  lemma ReapNewBuckets(cfg: Config, d: real, s: State, ip: Str, t: real)
    requires cfg.Valid() && Consistent(cfg, s)
    ensures Bursts(cfg, NewBuckets(cfg, Step(cfg, d, s, ReaperTick), ip, t)) <= Bursts(cfg, NewBuckets(cfg, s, ip, t))
  {
    if ip in s.clients && s.clock - s.clients[ip].lastSeen > cfg.ttl {
      var later := s.clock + t - s.clients[ip].lastSeen;
      PeriodsStep(cfg, t, later);
      MoreBursts(cfg, 1 + Periods(cfg, t), Periods(cfg, later));
    }
  }

  /** What one event does to the fuel of the buckets, before pruning. */
  lemma LivedFuel(cfg: Config, d: real, s: State, e: Event, ip: Str, lives: seq<Life>)
    requires cfg.Valid() && Tracks(cfg, d, s, ip, lives) && Enabled(d, s, e)
    requires Follows(cfg, d, Step(cfg, d, s, e), ip, Lived(s, e, ip, lives))
    ensures var s' := Step(cfg, d, s, e);
            Fuel(cfg, s'.cells, s'.clock, Lived(s, e, ip, lives)) + GrantedAt(cfg, d, s, e, ip) as real
            <= Fuel(cfg, s.cells, s.clock, lives) + Inflow(cfg, |lives|, Span(e))
               + (if e == Get(ip) && ip !in s.clients then cfg.burst as real else 0.0)
  {
    GrantedBy(cfg, d, s, e, ip);
    NoInflow(cfg, |lives|);
    match e
    case Tick(dt) => FuelLater(cfg, s.cells, s.clock, dt, lives);
    case Get(ip') => GetFuel(cfg, d, s, ip', ip, lives);
    case Spend(f) => SpendFuel(cfg, d, s, f, ip, lives);
    case ReaperTick =>
  }

  lemma GetFuel(cfg: Config, d: real, s: State, ip': Str, ip: Str, lives: seq<Life>)
    requires cfg.Valid() && Tracks(cfg, d, s, ip, lives)
    requires Follows(cfg, d, Step(cfg, d, s, Get(ip')), ip, Lived(s, Get(ip'), ip, lives))
    ensures var s' := Step(cfg, d, s, Get(ip'));
            Fuel(cfg, s'.cells, s'.clock, Lived(s, Get(ip'), ip, lives))
            <= Fuel(cfg, s.cells, s.clock, lives) + (if ip' == ip && ip !in s.clients then cfg.burst as real else 0.0)
  {
    var s' := Step(cfg, d, s, Get(ip'));
    var lived := Lived(s, Get(ip'), ip, lives);
    SameFuel(cfg, s.cells, s'.cells, s.clock, lives, lives);
    if ip' == ip && ip !in s.clients {
      OneMoreFuel(cfg, s'.cells, s.clock, lives, Life(s.nextCell, s.clock, s.clock));
      AvailRange(cfg, Full(cfg, s.clock), s.clock);
    } else {
      SameFuel(cfg, s.cells, s'.cells, s.clock, lives, lived);
    }
  }

  lemma SpendFuel(cfg: Config, d: real, s: State, f: nat, ip: Str, lives: seq<Life>)
    requires cfg.Valid() && Tracks(cfg, d, s, ip, lives) && Enabled(d, s, Spend(f))
    requires Follows(cfg, d, Step(cfg, d, s, Spend(f)), ip, lives)
    ensures Fuel(cfg, Step(cfg, d, s, Spend(f)).cells, s.clock, lives)
            + (if s.flights[f].ip == ip && Allow(cfg, s.cells[s.flights[f].id].bucket, s.clock).1 then 1.0 else 0.0)
            == Fuel(cfg, s.cells, s.clock, lives)
  {
    var s' := Step(cfg, d, s, Spend(f));
    if s.flights[f].ip == ip {
      var i :| 0 <= i < |lives| && lives[i].id == s.flights[f].id && s.flights[f].fetched <= lives[i].seen;
      SpentFuel(cfg, s.cells, s.clock, lives, i);
    } else {
      SameFuel(cfg, s.cells, s'.cells, s.clock, lives, lives);
    }
  }

  lemma StepNewBuckets(cfg: Config, d: real, s: State, e: Event, ip: Str, t: real)
    requires cfg.Valid() && Consistent(cfg, s) && Enabled(d, s, e)
    ensures Bursts(cfg, NewBuckets(cfg, Step(cfg, d, s, e), ip, t))
            + (if e == Get(ip) && ip !in s.clients then cfg.burst as real else 0.0)
            <= Bursts(cfg, NewBuckets(cfg, s, ip, Span(e) + t))
  {
    match e
    case Tick(dt) => TickNewBuckets(cfg, s, dt, ip, t);
    case Get(ip') =>
      if ip' == ip && ip in s.clients {
        SeenNewBuckets(cfg, d, s, ip, t);
      } else if ip' == ip {
        BornNewBuckets(cfg, d, s, ip, t);
      }
    case Spend(_) =>
    case ReaperTick => ReapNewBuckets(cfg, d, s, ip, t);
  }

  lemma StepInflow(cfg: Config, d: real, k: nat, e: Event, t: real)
    requires cfg.Valid() && k <= Together(cfg, d) && (e.Tick? ==> e.dt >= 0.0)
    ensures Inflow(cfg, k, Span(e)) + Inflow(cfg, Together(cfg, d), t) <= Inflow(cfg, Together(cfg, d), Span(e) + t)
  {
    MoreInflow(cfg, k, Together(cfg, d), Span(e));
    InflowAdds(cfg, Together(cfg, d), Span(e), t);
  }

  /** No event raises what an address can still be admitted, and what is admitted is taken from it. */
  lemma StepAllowance(cfg: Config, d: real, s: State, e: Event, ip: Str, lives: seq<Life>, t: real, total: real)
    returns (lives': seq<Life>)
    requires total == Span(e) + t
    requires cfg.Valid() && d >= 0.0 && Tracks(cfg, d, s, ip, lives) && Enabled(d, s, e)
    ensures var s' := Step(cfg, d, s, e);
            && Tracks(cfg, d, s', ip, lives')
            && Allowance(cfg, d, s', ip, lives', t) + GrantedAt(cfg, d, s, e, ip) as real
               <= Allowance(cfg, d, s, ip, lives, total)
  {
    var lived;
    lived, lives' := StepTracks(cfg, d, s, e, ip, lives);
    var s' := Step(cfg, d, s, e);
    LivedFuel(cfg, d, s, e, ip, lives);
    PrunedFuel(cfg, s'.cells, d, s'.clock, ip in s'.clients, lived);
    StepNewBuckets(cfg, d, s, e, ip, t);
    FewTogether(cfg, d, s, ip, lives);
    StepInflow(cfg, d, |lives|, e, t);
  }

  lemma AllowanceNonNegative(cfg: Config, d: real, s: State, ip: Str, lives: seq<Life>)
    requires cfg.Valid() && Tracks(cfg, d, s, ip, lives)
    ensures Allowance(cfg, d, s, ip, lives, 0.0) >= 0.0
  {
    FuelRange(cfg, s.cells, s.clock, lives);
    NoInflow(cfg, Together(cfg, d));
    PeriodsMonotone(cfg, 0.0, 0.0);
    if ip in s.clients {
      var idle := s.clock + 0.0 - s.clients[ip].lastSeen;
      PeriodsMonotone(cfg, idle, idle);
    }
    MoreBursts(cfg, 0, NewBuckets(cfg, s, ip, 0.0));
  }

  lemma Budgeted(first: nat, rest: nat, after: real, before: real)
    requires rest as real <= after && after + first as real <= before
    ensures (first + rest) as real <= before
  {
  }

  lemma {:induction false} GrantedWithinAllowance(cfg: Config, d: real, s: State, es: seq<Event>, ip: Str, lives: seq<Life>)
    requires cfg.Valid() && d >= 0.0 && Tracks(cfg, d, s, ip, lives) && Runs(cfg, d, s, es)
    ensures GrantedDuring(cfg, d, s, es, ip) as real <= Allowance(cfg, d, s, ip, lives, Length(es))
    decreases |es|
  {
    if es == [] {
      AllowanceNonNegative(cfg, d, s, ip, lives);
    } else {
      var s' := Step(cfg, d, s, es[0]);
      var lives' := StepAllowance(cfg, d, s, es[0], ip, lives, Length(es[1..]), Length(es));
      GrantedWithinAllowance(cfg, d, s', es[1..], ip, lives');
      GrantedStep(cfg, d, s, es, ip);
      Budgeted(GrantedAt(cfg, d, s, es[0], ip), GrantedDuring(cfg, d, s', es[1..], ip),
               Allowance(cfg, d, s', ip, lives', Length(es[1..])), Allowance(cfg, d, s, ip, lives, Length(es)));
    }
  }

  // ---- any state of any run ----

  lemma {:induction false} RunTracks(cfg: Config, d: real, s: State, es: seq<Event>, ip: Str, lives: seq<Life>)
    returns (lives': seq<Life>)
    requires cfg.Valid() && Tracks(cfg, d, s, ip, lives) && Runs(cfg, d, s, es)
    ensures Tracks(cfg, d, Run(cfg, d, s, es), ip, lives')
    decreases |es|
  {
    lives' := lives;
    if es != [] {
      var lived, next := StepTracks(cfg, d, s, es[0], ip, lives);
      lives' := RunTracks(cfg, d, Step(cfg, d, s, es[0]), es[1..], ip, next);
    }
  }

  /** A burst, one more for every ttl in the window and the delay before it, and what flows into the
      buckets that can be spent from at once. */
  function LateBudget(cfg: Config, d: real, t: real): real
    requires cfg.Valid()
  {
    Bursts(cfg, 1 + Periods(cfg, t + d)) + Inflow(cfg, Together(cfg, d), t)
  }

  /** Nothing is in flight that may still spend. */
  predicate Quiet(d: real, s: State, ip: Str, lives: seq<Life>) {
    lives == [] || (|lives| == 1 && ip in s.clients && s.clock - s.clients[ip].lastSeen > d)
  }

  lemma QuietStays(cfg: Config, d: real, s: State, e: Event, ip: Str, lives: seq<Life>)
    requires cfg.Valid() && Tracks(cfg, d, s, ip, lives) && Enabled(d, s, e) && Quiet(d, s, ip, lives) && e != Get(ip)
    ensures var s' := Step(cfg, d, s, e);
            Quiet(d, s', ip, Pruned(d, s'.clock, ip in s'.clients, lives)) && GrantedAt(cfg, d, s, e, ip) == 0
  {
    GrantedBy(cfg, d, s, e, ip);
    assert e.Spend? && s.flights[e.flight].ip == ip ==> Holds(lives, s.flights[e.flight].id, s.flights[e.flight].fetched);
  }

  /** The budget of an address with nothing in flight. */
  function FreshLate(cfg: Config, d: real, t: real): real
    requires cfg.Valid()
  {
    Bursts(cfg, 1 + Periods(cfg, t)) + Inflow(cfg, Together(cfg, d), t)
  }

  lemma FreshLateGrows(cfg: Config, d: real, t: real, later: real)
    requires cfg.Valid() && t <= later
    ensures FreshLate(cfg, d, t) <= FreshLate(cfg, d, later)
  {
    PeriodsMonotone(cfg, t, later);
    MoreBursts(cfg, 1 + Periods(cfg, t), 1 + Periods(cfg, later));
    AtLeastOne(cfg, d);
    Scale(cfg.rps, t, later);
    Scale(Together(cfg, d) as real, cfg.rps * t, cfg.rps * later);
  }

  lemma FreshLateNonNegative(cfg: Config, d: real)
    requires cfg.Valid()
    ensures FreshLate(cfg, d, 0.0) >= 0.0
  {
    NoInflow(cfg, Together(cfg, d));
    PeriodsMonotone(cfg, 0.0, 0.0);
    MoreBursts(cfg, 0, 1 + Periods(cfg, 0.0));
  }

  lemma FreshAfterGet(cfg: Config, d: real, s: State, ip: Str, lives: seq<Life>, t: real)
    requires cfg.Valid() && Tracks(cfg, d, s, ip, lives) && |lives| == 1 && ip in s.clients && s.clients[ip].lastSeen == s.clock
    ensures Allowance(cfg, d, s, ip, lives, t) <= FreshLate(cfg, d, t)
  {
    FuelRange(cfg, s.cells, s.clock, lives);
    OneMoreBurst(cfg, 0);
    OneMoreBurst(cfg, Periods(cfg, t));
    MoreBursts(cfg, 0, 0);
    assert s.clock + t - s.clock == t;
  }

  lemma AskedAgain(cfg: Config, d: real, s: State, ip: Str, lives: seq<Life>)
    requires cfg.Valid() && d >= 0.0 && Tracks(cfg, d, s, ip, lives) && Quiet(d, s, ip, lives)
    ensures var s' := Step(cfg, d, s, Get(ip));
            var lives' := Pruned(d, s'.clock, true, Lived(s, Get(ip), ip, lives));
            |lives'| == 1 && s'.clients[ip].lastSeen == s'.clock
  {
    var lived := Lived(s, Get(ip), ip, lives);
    assert |lived| == 1 && lived[0].seen == s.clock;
  }

  /** Until it asks again, an address with nothing in flight is as good as unknown. */
  lemma {:induction false} QuietIsFresh(cfg: Config, d: real, s: State, es: seq<Event>, ip: Str, lives: seq<Life>)
    requires cfg.Valid() && d >= 0.0 && Tracks(cfg, d, s, ip, lives) && Runs(cfg, d, s, es) && Quiet(d, s, ip, lives)
    ensures GrantedDuring(cfg, d, s, es, ip) as real <= FreshLate(cfg, d, Length(es))
    decreases |es|
  {
    if es == [] {
      FreshLateNonNegative(cfg, d);
    } else {
      var e, s' := es[0], Step(cfg, d, s, es[0]);
      var lived, lives' := StepTracks(cfg, d, s, e, ip, lives);
      GrantedStep(cfg, d, s, es, ip);
      if e == Get(ip) {
        FirstAsk(cfg, d, s, es, ip, lives, lives');
      } else {
        QuietStays(cfg, d, s, e, ip, lives);
        QuietIsFresh(cfg, d, s', es[1..], ip, lives');
        FreshLateGrows(cfg, d, Length(es[1..]), Length(es));
      }
    }
  }

  lemma FirstAsk(cfg: Config, d: real, s: State, es: seq<Event>, ip: Str, lives: seq<Life>, lives': seq<Life>)
    requires cfg.Valid() && d >= 0.0 && Tracks(cfg, d, s, ip, lives) && Quiet(d, s, ip, lives)
    requires es != [] && es[0] == Get(ip) && Runs(cfg, d, s, es)
    requires var s' := Step(cfg, d, s, es[0]);
             Tracks(cfg, d, s', ip, lives') && lives' == Pruned(d, s'.clock, ip in s'.clients, Lived(s, es[0], ip, lives))
    ensures GrantedDuring(cfg, d, s, es, ip) as real <= FreshLate(cfg, d, Length(es))
  {
    var s' := Step(cfg, d, s, es[0]);
    GrantedStep(cfg, d, s, es, ip);
    GrantedBy(cfg, d, s, es[0], ip);
    AskedAgain(cfg, d, s, ip, lives);
    GrantedWithinAllowance(cfg, d, s', es[1..], ip, lives');
    FreshAfterGet(cfg, d, s', ip, lives', Length(es[1..]));
  }

  lemma FreshIsLate(cfg: Config, d: real, t: real)
    requires cfg.Valid() && d >= 0.0
    ensures FreshLate(cfg, d, t) <= LateBudget(cfg, d, t)
  {
    PeriodsMonotone(cfg, t, t + d);
    MoreBursts(cfg, 1 + Periods(cfg, t), 1 + Periods(cfg, t + d));
  }

  lemma BurstsAdd(cfg: Config, k: int, n: int)
    ensures Bursts(cfg, k) + Bursts(cfg, n) == Bursts(cfg, k + n)
  {
    Distribute(cfg.burst as real, k as real, n as real);
  }

  /** The buckets in flight and those to come all start within the window and the delay before it. */
  lemma BucketsInWindow(cfg: Config, d: real, s: State, ip: Str, lives: seq<Life>, t: real)
    requires cfg.Valid() && d >= 0.0 && t >= 0.0 && Tracks(cfg, d, s, ip, lives) && !Quiet(d, s, ip, lives)
    ensures |lives| + NewBuckets(cfg, s, ip, t) <= 1 + Periods(cfg, t + d)
  {
    var k := |lives|;
    Spread(cfg, lives);
    OneMoreTtl(cfg, k - 1);
    if ip in s.clients {
      var idle := s.clock + t - s.clients[ip].lastSeen;
      PeriodsShift(cfg, idle, k - 1);
      PeriodsMonotone(cfg, idle + Ttls(cfg, k - 1), t + d);
    } else {
      PeriodsShift(cfg, t, k);
      PeriodsMonotone(cfg, t + Ttls(cfg, k), t + d);
    }
  }

  lemma BusyIsLate(cfg: Config, d: real, s: State, ip: Str, lives: seq<Life>, t: real)
    requires cfg.Valid() && d >= 0.0 && t >= 0.0 && Tracks(cfg, d, s, ip, lives) && !Quiet(d, s, ip, lives)
    ensures Allowance(cfg, d, s, ip, lives, t) <= LateBudget(cfg, d, t)
  {
    FuelRange(cfg, s.cells, s.clock, lives);
    BucketsInWindow(cfg, d, s, ip, lives, t);
    BurstsAdd(cfg, |lives|, NewBuckets(cfg, s, ip, t));
    MoreBursts(cfg, |lives| + NewBuckets(cfg, s, ip, t), 1 + Periods(cfg, t + d));
  }

  lemma GrantedLate(cfg: Config, d: real, s: State, window: seq<Event>, ip: Str, lives: seq<Life>)
    requires cfg.Valid() && d >= 0.0 && Tracks(cfg, d, s, ip, lives) && Runs(cfg, d, s, window)
    ensures GrantedDuring(cfg, d, s, window, ip) as real <= LateBudget(cfg, d, Length(window))
  {
    LengthNonNegative(cfg, d, s, window);
    if Quiet(d, s, ip, lives) {
      QuietIsFresh(cfg, d, s, window, ip, lives);
      FreshIsLate(cfg, d, Length(window));
    } else {
      GrantedWithinAllowance(cfg, d, s, window, ip, lives);
      BusyIsLate(cfg, d, s, ip, lives, Length(window));
    }
  }

  /** In any window of any run, for any longest delay d of an Allow, an address is admitted at most
      a burst, one more for every whole ttl in the window and the delay, and the refill of as many
      buckets as can be spent from at once. */
  lemma SlowWindowBound(cfg: Config, d: real, start: real, before: seq<Event>, window: seq<Event>, ip: Str)
    requires cfg.Valid() && d >= 0.0
    requires Runs(cfg, d, Init(start), before) && Runs(cfg, d, Run(cfg, d, Init(start), before), window)
    ensures GrantedDuring(cfg, d, Run(cfg, d, Init(start), before), window, ip) as real
            <= LateBudget(cfg, d, Length(window))
  {
    var lives := RunTracks(cfg, d, Init(start), before, ip, []);
    GrantedLate(cfg, d, Run(cfg, d, Init(start), before), window, ip, lives);
  }

  /** When no request spends later than the ttl, that is the refill of one bucket. */
  lemma OneAtATime(cfg: Config, d: real, t: real)
    requires cfg.Valid() && d <= cfg.ttl
    ensures LateBudget(cfg, d, t) == Bursts(cfg, 1 + Periods(cfg, t + d)) + cfg.rps * t
  {
    OneMoreInflow(cfg, 0, t);
  }

  // ---- buckets that refill before they are evicted ----

  /** What a bucket that holds avail and is never evicted can admit in t more time. */
  function TokenBudget(cfg: Config, avail: real, t: real): real {
    avail + cfg.rps * t
  }

  lemma {:induction false} RunAgrees(cfg: Config, d: real, s: State, es: seq<Event>, ip: Str, b: Bucket)
    returns (b': Bucket)
    requires cfg.Valid() && Consistent(cfg, s) && Runs(cfg, d, s, es) && Agrees(cfg, d, s, ip, b)
    requires RefillsBeforeEviction(cfg, d)
    ensures Consistent(cfg, Run(cfg, d, s, es)) && Agrees(cfg, d, Run(cfg, d, s, es), ip, b')
    decreases |es|
  {
    b' := b;
    if es != [] {
      var b1 := StepAgrees(cfg, d, s, es[0], ip, b);
      b' := RunAgrees(cfg, d, Step(cfg, d, s, es[0]), es[1..], ip, b1);
    }
  }

  /** No event gives ip's own bucket more tokens than time does, and what is admitted is taken. */
  lemma StepTokens(cfg: Config, d: real, s: State, e: Event, ip: Str, b: Bucket) returns (b': Bucket)
    requires cfg.Valid() && Consistent(cfg, s) && Enabled(d, s, e) && Agrees(cfg, d, s, ip, b)
    requires RefillsBeforeEviction(cfg, d)
    ensures var s' := Step(cfg, d, s, e);
            && Consistent(cfg, s') && Agrees(cfg, d, s', ip, b')
            && Avail(cfg, b', s'.clock) + GrantedAt(cfg, d, s, e, ip) as real <= TokenBudget(cfg, Avail(cfg, b, s.clock), Span(e))
  {
    b' := StepAgrees(cfg, d, s, e, ip, b);
    GrantedBy(cfg, d, s, e, ip);
    if e.Tick? {
      TickBudget(cfg, b, s.clock, e.dt);
    } else if e.Spend? {
      TokensForNothing(cfg, b, s.clock);
      SpendTokens(cfg, d, s, e.flight, ip, b);
    } else {
      TokensForNothing(cfg, b, s.clock);
    }
  }

  lemma TickBudget(cfg: Config, b: Bucket, now: real, dt: real)
    requires cfg.Valid() && Sane(cfg, b, now) && dt >= 0.0
    ensures Avail(cfg, b, now + dt) <= TokenBudget(cfg, Avail(cfg, b, now), dt)
  {
    TickTokens(cfg, b, now, dt);
  }

  /** A spend takes what it is granted from the bucket of its own. */
  lemma SpendTokens(cfg: Config, d: real, s: State, f: nat, ip: Str, b: Bucket)
    requires cfg.Valid() && Consistent(cfg, s) && Enabled(d, s, Spend(f)) && Agrees(cfg, d, s, ip, b)
    ensures s.flights[f].ip == ip ==>
              && Allow(cfg, s.cells[s.flights[f].id].bucket, s.clock).1 == Allow(cfg, b, s.clock).1
              && Avail(cfg, Allow(cfg, b, s.clock).0, s.clock) + (if Allow(cfg, b, s.clock).1 then 1.0 else 0.0) == Avail(cfg, b, s.clock)
  {
    AllowSane(cfg, b, s.clock);
  }

  lemma TokensAddUp(cfg: Config, dt: real, t: real, before: real, after: real, first: nat, rest: nat)
    requires after + first as real <= TokenBudget(cfg, before, dt) && rest as real <= TokenBudget(cfg, after, t)
    ensures (first + rest) as real <= TokenBudget(cfg, before, dt + t)
  {
    Distribute(cfg.rps, dt, t);
  }

  lemma TokensForNothing(cfg: Config, b: Bucket, now: real)
    requires cfg.Valid() && Sane(cfg, b, now)
    ensures 0.0 <= TokenBudget(cfg, Avail(cfg, b, now), 0.0)
    ensures TokenBudget(cfg, Avail(cfg, b, now), 0.0) == Avail(cfg, b, now)
  {
    AvailRange(cfg, b, now);
    assert cfg.rps * 0.0 == 0.0;
  }

  lemma FullBudget(cfg: Config, b: Bucket, now: real, t: real)
    requires cfg.Valid() && Sane(cfg, b, now)
    ensures TokenBudget(cfg, Avail(cfg, b, now), t) <= TokenBudget(cfg, cfg.burst as real, t)
  {
    AvailRange(cfg, b, now);
  }

  lemma {:induction false} GrantedWithinTokens(cfg: Config, d: real, s: State, es: seq<Event>, ip: Str, b: Bucket)
    requires cfg.Valid() && Consistent(cfg, s) && Runs(cfg, d, s, es) && Agrees(cfg, d, s, ip, b)
    requires RefillsBeforeEviction(cfg, d)
    ensures GrantedDuring(cfg, d, s, es, ip) as real <= TokenBudget(cfg, Avail(cfg, b, s.clock), Length(es))
    decreases |es|
  {
    if es == [] {
      TokensForNothing(cfg, b, s.clock);
    } else {
      var b' := StepTokens(cfg, d, s, es[0], ip, b);
      var s' := Step(cfg, d, s, es[0]);
      GrantedWithinTokens(cfg, d, s', es[1..], ip, b');
      GrantedStep(cfg, d, s, es, ip);
      TokensAddUp(cfg, Span(es[0]), Length(es[1..]), Avail(cfg, b, s.clock), Avail(cfg, b', s'.clock),
                  GrantedAt(cfg, d, s, es[0], ip), GrantedDuring(cfg, d, s', es[1..], ip));
    }
  }

  /** When a drained bucket refills within the ttl less the delay, neither evictions nor slow
      requests cost anything: the bound is the bucket's own. */
  lemma TightSlowWindowBound(cfg: Config, d: real, start: real, before: seq<Event>, window: seq<Event>,
                             ip: Str)
    requires cfg.Valid() && RefillsBeforeEviction(cfg, d)
    requires Runs(cfg, d, Init(start), before) && Runs(cfg, d, Run(cfg, d, Init(start), before), window)
    ensures GrantedDuring(cfg, d, Run(cfg, d, Init(start), before), window, ip) as real
            <= TokenBudget(cfg, cfg.burst as real, Length(window))
  {
    var s := Run(cfg, d, Init(start), before);
    AgreesAtFirst(cfg, d, start, ip);
    var b := RunAgrees(cfg, d, Init(start), before, ip, Full(cfg, start));
    GrantedWithinTokens(cfg, d, s, window, ip, b);
    FullBudget(cfg, b, s.clock, Length(window));
  }

  lemma AgreesAtFirst(cfg: Config, d: real, start: real, ip: Str)
    requires cfg.Valid()
    ensures Consistent(cfg, Init(start)) && Agrees(cfg, d, Init(start), ip, Full(cfg, start))
  {
    AvailRange(cfg, Full(cfg, start), start);
  }
}
