/** The limiter with its two-step requests: get hands out the bucket under the lock, Allow spends
    from it after the unlock, and anything can happen in between. */
module Eviction {
  import opened GoStrings
  import opened TokenBucket
  import RateLimit

  datatype Slot = Slot(id: nat, lastSeen: real)

  /** A bucket in memory; owner is the address it was made for. */
  datatype Cell = Cell(owner: Str, bucket: Bucket)

  /** A request between its get and its Allow. */
  datatype Flight = Flight(ip: Str, id: nat, fetched: real)

  datatype State = State(
    clock: real,
    clients: map<Str, Slot>,
    cells: map<nat, Cell>,
    flights: map<nat, Flight>,
    nextCell: nat,
    nextFlight: nat)

  datatype Event = Tick(dt: real) | Get(ip: Str) | Spend(flight: nat) | ReaperTick

  datatype Decision = Decision(ip: Str, time: real, ok: bool)

  function Init(start: real): State {
    State(start, map[], map[], map[], 0, 0)
  }

  /** A request spends within d of its get. */
  predicate Enabled(d: real, s: State, e: Event) {
    match e
    case Tick(dt) => dt >= 0.0
    case Get(_) => true
    case Spend(f) => f in s.flights && s.flights[f].id in s.cells && s.clock - s.flights[f].fetched <= d
    case ReaperTick => true
  }

  function Step(cfg: Config, d: real, s: State, e: Event): State
    requires Enabled(d, s, e)
  {
    match e
    case Tick(dt) => s.(clock := s.clock + dt)
    case Get(ip) =>
      var isNew := ip !in s.clients;
      var id := if isNew then s.nextCell else s.clients[ip].id;
      s.(clients := s.clients[ip := Slot(id, s.clock)],
         cells := if isNew then s.cells[id := Cell(ip, Full(cfg, s.clock))] else s.cells,
         nextCell := if isNew then s.nextCell + 1 else s.nextCell,
         flights := s.flights[s.nextFlight := Flight(ip, id, s.clock)],
         nextFlight := s.nextFlight + 1)
    case Spend(f) =>
      var id := s.flights[f].id;
      s.(cells := s.cells[id := s.cells[id].(bucket := Allow(cfg, s.cells[id].bucket, s.clock).0)],
         flights := s.flights - {f})
    case ReaperTick =>
      s.(clients := map ip | ip in s.clients && s.clock - s.clients[ip].lastSeen <= cfg.ttl :: s.clients[ip])
  }

  function DecisionOf(cfg: Config, d: real, s: State, e: Event): seq<Decision>
    requires Enabled(d, s, e)
  {
    if e.Spend? then
      var f := s.flights[e.flight];
      [Decision(f.ip, s.clock, Allow(cfg, s.cells[f.id].bucket, s.clock).1)]
    else []
  }

  predicate Runs(cfg: Config, d: real, s: State, es: seq<Event>)
    decreases |es|
  {
    es == [] || (Enabled(d, s, es[0]) && Runs(cfg, d, Step(cfg, d, s, es[0]), es[1..]))
  }

  /** Every decision taken during es, in order. */
  function Trace(cfg: Config, d: real, s: State, es: seq<Event>): seq<Decision>
    requires Runs(cfg, d, s, es)
    decreases |es|
  {
    if es == [] then []
    else DecisionOf(cfg, d, s, es[0]) + Trace(cfg, d, Step(cfg, d, s, es[0]), es[1..])
  }

  function Oks(tr: seq<Decision>, ip: Str): seq<bool> {
    if tr == [] then [] else (if tr[0].ip == ip then [tr[0].ok] else []) + Oks(tr[1..], ip)
  }

  function Times(tr: seq<Decision>, ip: Str): seq<real> {
    if tr == [] then [] else (if tr[0].ip == ip then [tr[0].time] else []) + Times(tr[1..], ip)
  }

  // ---- the invariant of every run ----

  predicate Consistent(cfg: Config, s: State) {
    && (forall id :: id in s.cells ==> id < s.nextCell && Sane(cfg, s.cells[id].bucket, s.clock))
    && (forall ip :: ip in s.clients ==>
          s.clients[ip].id in s.cells && s.cells[s.clients[ip].id].owner == ip && s.clients[ip].lastSeen <= s.clock)
    && (forall f :: f in s.flights ==>
          && f < s.nextFlight
          && s.flights[f].id in s.cells && s.cells[s.flights[f].id].owner == s.flights[f].ip
          && s.flights[f].fetched <= s.clock)
  }

  lemma StepConsistent(cfg: Config, d: real, s: State, e: Event)
    requires cfg.Valid() && Consistent(cfg, s) && Enabled(d, s, e)
    ensures Consistent(cfg, Step(cfg, d, s, e))
  {
    if e.Spend? {
      AllowSane(cfg, s.cells[s.flights[e.flight].id].bucket, s.clock);
    }
  }

  lemma {:induction false} RunConsistent(cfg: Config, d: real, s: State, es: seq<Event>)
    requires cfg.Valid() && Consistent(cfg, s) && Runs(cfg, d, s, es)
    ensures Consistent(cfg, Run(cfg, d, s, es))
    decreases |es|
  {
    if es != [] {
      StepConsistent(cfg, d, s, es[0]);
      RunConsistent(cfg, d, Step(cfg, d, s, es[0]), es[1..]);
    }
  }

  /** Every bucket in the map or in flight exists, belongs to its address and is sane, in every run. */
  lemma ReachableConsistent(cfg: Config, d: real, start: real, es: seq<Event>)
    requires cfg.Valid() && Runs(cfg, d, Init(start), es)
    ensures Consistent(cfg, Run(cfg, d, Init(start), es))
  {
    RunConsistent(cfg, d, Init(start), es);
  }

  /** A request of ip that may still spend holds the bucket ip has now. */
  predicate FlightsCurrent(d: real, s: State, ip: Str) {
    forall f :: f in s.flights && s.flights[f].ip == ip && s.clock - s.flights[f].fetched <= d ==>
      ip in s.clients && s.flights[f].id == s.clients[ip].id && s.flights[f].fetched <= s.clients[ip].lastSeen
  }

  /** b, a bucket of ip's own that was never evicted, is as full as the one ip would be given. */
  predicate Agrees(cfg: Config, d: real, s: State, ip: Str, b: Bucket) {
    && Sane(cfg, b, s.clock)
    && FlightsCurrent(d, s, ip)
    && (ip in s.clients ==>
          && s.clients[ip].id in s.cells
          && Avail(cfg, s.cells[s.clients[ip].id].bucket, s.clock) == Avail(cfg, b, s.clock)
          && b.last <= s.clients[ip].lastSeen + d)
    && (ip !in s.clients ==> Avail(cfg, b, s.clock) == cfg.burst as real)
  }

  lemma TickAgrees(cfg: Config, d: real, s: State, dt: real, ip: Str, b: Bucket)
    requires cfg.Valid() && Consistent(cfg, s) && Agrees(cfg, d, s, ip, b) && dt >= 0.0
    ensures Agrees(cfg, d, s.(clock := s.clock + dt), ip, b)
  {
    AvailLater(cfg, b, s.clock, s.clock + dt);
    NonNegative(cfg.rps, s.clock + dt - s.clock);
    if ip in s.clients {
      AvailLater(cfg, s.cells[s.clients[ip].id].bucket, s.clock, s.clock + dt);
    }
  }

  lemma GetAgrees(cfg: Config, d: real, s: State, ip': Str, ip: Str, b: Bucket)
    requires cfg.Valid() && Consistent(cfg, s) && Agrees(cfg, d, s, ip, b) && d >= 0.0
    ensures Agrees(cfg, d, Step(cfg, d, s, Get(ip')), ip, b)
  {
    assert cfg.rps * 0.0 == 0.0;
  }

  lemma SpendAgrees(cfg: Config, d: real, s: State, f: nat, ip: Str, b: Bucket)
    requires cfg.Valid() && Consistent(cfg, s) && Agrees(cfg, d, s, ip, b)
    requires Enabled(d, s, Spend(f))
    ensures var s' := Step(cfg, d, s, Spend(f));
            if s.flights[f].ip == ip
            then Agrees(cfg, d, s', ip, Allow(cfg, b, s.clock).0)
                 && DecisionOf(cfg, d, s, Spend(f)) == [Decision(ip, s.clock, Allow(cfg, b, s.clock).1)]
            else Agrees(cfg, d, s', ip, b)
  {
    AllowSane(cfg, b, s.clock);
    AllowSane(cfg, s.cells[s.flights[f].id].bucket, s.clock);
  }

  /** Eviction forgets a bucket only when it has refilled. */
  lemma ReapAgrees(cfg: Config, d: real, s: State, ip: Str, b: Bucket)
    requires cfg.Valid() && Consistent(cfg, s) && Agrees(cfg, d, s, ip, b)
    requires RefillsBeforeEviction(cfg, d)
    ensures Agrees(cfg, d, Step(cfg, d, s, ReaperTick), ip, b)
  {
    if ip in s.clients && s.clock - s.clients[ip].lastSeen > cfg.ttl {
      FullAgain(cfg, b, s.clock, cfg.ttl - d);
    }
  }

  /** A drained bucket refills in what is left of the ttl after the slowest Allow. */
  predicate RefillsBeforeEviction(cfg: Config, d: real) {
    0.0 <= d <= cfg.ttl && cfg.burst as real <= cfg.rps * (cfg.ttl - d)
  }

  /** One event, seen by one address: its own spends are decided by its own bucket, and nothing
      else changes what that bucket holds. */
  lemma StepAgrees(cfg: Config, d: real, s: State, e: Event, ip: Str, b: Bucket) returns (b': Bucket)
    requires cfg.Valid() && Consistent(cfg, s) && Enabled(d, s, e) && Agrees(cfg, d, s, ip, b)
    requires RefillsBeforeEviction(cfg, d)
    ensures Consistent(cfg, Step(cfg, d, s, e)) && Agrees(cfg, d, Step(cfg, d, s, e), ip, b')
    ensures var ds := DecisionOf(cfg, d, s, e);
            var own := e.Spend? && s.flights[e.flight].ip == ip;
            && b' == (if own then Allow(cfg, b, s.clock).0 else b)
            && Oks(ds, ip) == (if own then [Allow(cfg, b, s.clock).1] else [])
            && Times(ds, ip) == (if own then [s.clock] else [])
  {
    StepConsistent(cfg, d, s, e);
    b' := b;
    match e
    case Tick(dt) => TickAgrees(cfg, d, s, dt, ip, b);
    case Get(ip') => GetAgrees(cfg, d, s, ip', ip, b);
    case Spend(f) =>
      SpendAgrees(cfg, d, s, f, ip, b);
      if s.flights[f].ip == ip {
        b' := Allow(cfg, b, s.clock).0;
      }
    case ReaperTick => ReapAgrees(cfg, d, s, ip, b);
  }

  lemma {:induction false} TraceAgrees(cfg: Config, d: real, s: State, es: seq<Event>, ip: Str, b: Bucket)
    requires cfg.Valid() && Consistent(cfg, s) && Runs(cfg, d, s, es) && Agrees(cfg, d, s, ip, b)
    requires RefillsBeforeEviction(cfg, d)
    ensures var tr := Trace(cfg, d, s, es);
            Oks(tr, ip) == Private(cfg, b, Times(tr, ip))
    decreases |es|
  {
    if es != [] {
      var b' := StepAgrees(cfg, d, s, es[0], ip, b);
      var s' := Step(cfg, d, s, es[0]);
      TraceAgrees(cfg, d, s', es[1..], ip, b');
      var rest := Trace(cfg, d, s', es[1..]);
      OksAppend(DecisionOf(cfg, d, s, es[0]), rest, ip);
      TimesAppend(DecisionOf(cfg, d, s, es[0]), rest, ip);
      PrivateCons(cfg, b, s.clock, Times(rest, ip));
      assert [] + Times(rest, ip) == Times(rest, ip) && [] + Oks(rest, ip) == Oks(rest, ip);
    }
  }

  lemma PrivateCons(cfg: Config, b: Bucket, t: real, times: seq<real>)
    ensures Private(cfg, b, [t] + times) == [Allow(cfg, b, t).1] + Private(cfg, Allow(cfg, b, t).0, times)
  {
    assert ([t] + times)[1..] == times;
  }

  lemma SpendOnTrace(x: Decision, tr: seq<Decision>, ip: Str)
    ensures Oks([x] + tr, ip) == (if x.ip == ip then [x.ok] else []) + Oks(tr, ip)
    ensures Times([x] + tr, ip) == (if x.ip == ip then [x.time] else []) + Times(tr, ip)
  {
    assert ([x] + tr)[1..] == tr;
  }

  /** No client can see the reaper: on every interleaving of requests of any addresses with
      reaper ticks, each address is decided as by a bucket of its own that is never evicted. */
  lemma ReaperInvisible(cfg: Config, d: real, start: real, es: seq<Event>, ip: Str)
    requires cfg.Valid() && RefillsBeforeEviction(cfg, d) && Runs(cfg, d, Init(start), es)
    ensures var tr := Trace(cfg, d, Init(start), es);
            Oks(tr, ip) == Private(cfg, Full(cfg, start), Times(tr, ip))
  {
    assert cfg.rps * 0.0 == 0.0;
    TraceAgrees(cfg, d, Init(start), es, ip, Full(cfg, start));
  }

  // ---- runs ----

  function Run(cfg: Config, d: real, s: State, es: seq<Event>): State
    requires Runs(cfg, d, s, es)
    decreases |es|
  {
    if es == [] then s else Run(cfg, d, Step(cfg, d, s, es[0]), es[1..])
  }

  lemma {:induction false} RunsAppend(cfg: Config, d: real, s: State, a: seq<Event>, b: seq<Event>)
    requires Runs(cfg, d, s, a) && Runs(cfg, d, Run(cfg, d, s, a), b)
    ensures Runs(cfg, d, s, a + b)
    ensures Run(cfg, d, s, a + b) == Run(cfg, d, Run(cfg, d, s, a), b)
    ensures Trace(cfg, d, s, a + b) == Trace(cfg, d, s, a) + Trace(cfg, d, Run(cfg, d, s, a), b)
    decreases |a|
  {
    if a == [] {
      assert a + b == b;
      assert [] + Trace(cfg, d, s, b) == Trace(cfg, d, s, b);
    } else {
      var s', rest := Step(cfg, d, s, a[0]), a[1..] + b;
      RunsAppend(cfg, d, s', a[1..], b);
      OneThen(cfg, d, s, a[0], rest);
      assert a + b == [a[0]] + rest;
      ConcatAssoc(DecisionOf(cfg, d, s, a[0]), Trace(cfg, d, s', a[1..]), Trace(cfg, d, Run(cfg, d, s', a[1..]), b));
    }
  }

  lemma {:induction false} OksAppend(a: seq<Decision>, b: seq<Decision>, ip: Str)
    ensures Oks(a + b, ip) == Oks(a, ip) + Oks(b, ip)
  {
    if a == [] {
      assert a + b == b;
    } else {
      var first := if a[0].ip == ip then [a[0].ok] else [];
      assert (a + b)[1..] == a[1..] + b;
      OksAppend(a[1..], b, ip);
      calc {
        Oks(a + b, ip);
        first + Oks(a[1..] + b, ip);
        first + (Oks(a[1..], ip) + Oks(b, ip));
        Oks(a, ip) + Oks(b, ip);
      }
    }
  }

  lemma {:induction false} TimesAppend(a: seq<Decision>, b: seq<Decision>, ip: Str)
    ensures Times(a + b, ip) == Times(a, ip) + Times(b, ip)
  {
    if a == [] {
      assert a + b == b;
    } else {
      var first := if a[0].ip == ip then [a[0].time] else [];
      assert (a + b)[1..] == a[1..] + b;
      TimesAppend(a[1..], b, ip);
      calc {
        Times(a + b, ip);
        first + Times(a[1..] + b, ip);
        first + (Times(a[1..], ip) + Times(b, ip));
        Times(a, ip) + Times(b, ip);
      }
    }
  }

  lemma OneThen(cfg: Config, d: real, s: State, e: Event, es: seq<Event>)
    requires Enabled(d, s, e) && Runs(cfg, d, Step(cfg, d, s, e), es)
    ensures Runs(cfg, d, s, [e] + es)
    ensures Run(cfg, d, s, [e] + es) == Run(cfg, d, Step(cfg, d, s, e), es)
    ensures Trace(cfg, d, s, [e] + es) == DecisionOf(cfg, d, s, e) + Trace(cfg, d, Step(cfg, d, s, e), es)
  {
    assert ([e] + es)[1..] == es;
  }

  /** An event that decides nothing leaves the trace as it is. */
  lemma QuietThen(cfg: Config, d: real, s: State, e: Event, es: seq<Event>)
    requires !e.Spend? && Enabled(d, s, e) && Runs(cfg, d, Step(cfg, d, s, e), es)
    ensures Runs(cfg, d, s, [e] + es)
    ensures Trace(cfg, d, s, [e] + es) == Trace(cfg, d, Step(cfg, d, s, e), es)
  {
    OneThen(cfg, d, s, e, es);
    assert [] + Trace(cfg, d, Step(cfg, d, s, e), es) == Trace(cfg, d, Step(cfg, d, s, e), es);
  }

  // ---- the two-step machine and the one-step table ----

  predicate Resolved(s: State) {
    forall ip :: ip in s.clients ==> s.clients[ip].id in s.cells
  }

  function TableOf(s: State): RateLimit.Table
    requires Resolved(s)
  {
    map ip | ip in s.clients :: RateLimit.Entry(s.cells[s.clients[ip].id].bucket, s.clients[ip].lastSeen)
  }

  lemma NewOnTable(s: State, s1: State, ip: Str, id: nat, c: Cell)
    requires Resolved(s) && id !in s.cells
    requires s1.clients == s.clients[ip := Slot(id, s.clock)] && s1.cells == s.cells[id := c]
    ensures Resolved(s1) && TableOf(s1) == TableOf(s)[ip := RateLimit.Entry(c.bucket, s.clock)]
  {
  }

  lemma KnownOnTable(s: State, s1: State, ip: Str)
    requires Resolved(s) && ip in s.clients
    requires s1.clients == s.clients[ip := Slot(s.clients[ip].id, s.clock)] && s1.cells == s.cells
    ensures Resolved(s1) && TableOf(s1) == TableOf(s)[ip := TableOf(s)[ip].(lastSeen := s.clock)]
  {
  }

  lemma GetOnTable(cfg: Config, d: real, s: State, ip: Str)
    requires Consistent(cfg, s)
    ensures var s1 := Step(cfg, d, s, Get(ip));
            Resolved(s1) && TableOf(s1) == RateLimit.GetEntry(cfg, TableOf(s), ip, s.clock)
  {
    var s1 := Step(cfg, d, s, Get(ip));
    if ip in s.clients {
      KnownOnTable(s, s1, ip);
    } else {
      NewOnTable(s, s1, ip, s.nextCell, Cell(ip, Full(cfg, s.clock)));
    }
  }

  lemma SpendOnTable(cfg: Config, d: real, s: State, f: nat)
    requires Consistent(cfg, s) && Enabled(d, s, Spend(f))
    requires s.flights[f].ip in s.clients && s.flights[f].id == s.clients[s.flights[f].ip].id
    ensures var s1 := Step(cfg, d, s, Spend(f));
            var ip := s.flights[f].ip;
            && Resolved(s1)
            && TableOf(s1) ==
               TableOf(s)[ip := TableOf(s)[ip].(bucket := Allow(cfg, TableOf(s)[ip].bucket, s.clock).0)]
  {
  }

  /** A get followed at once by its own Allow is one request of the table. */
  lemma GetThenSpendIsRequest(cfg: Config, d: real, s: State, ip: Str)
    requires cfg.Valid() && Consistent(cfg, s) && d >= 0.0
    ensures var s1 := Step(cfg, d, s, Get(ip));
            && Enabled(d, s1, Spend(s.nextFlight))
            && var s2 := Step(cfg, d, s1, Spend(s.nextFlight));
               && Resolved(s2)
               && TableOf(s2) == RateLimit.Request(cfg, TableOf(s), ip, s.clock).0
               && DecisionOf(cfg, d, s1, Spend(s.nextFlight)) ==
                  [Decision(ip, s.clock, RateLimit.Request(cfg, TableOf(s), ip, s.clock).1)]
  {
    var s1 := Step(cfg, d, s, Get(ip));
    StepConsistent(cfg, d, s, Get(ip));
    GetOnTable(cfg, d, s, ip);
    assert s.nextFlight in s1.flights && s1.flights[s.nextFlight] == Flight(ip, s1.clients[ip].id, s.clock);
    SpendOnTable(cfg, d, s1, s.nextFlight);
  }

  lemma ReaperTickIsReap(cfg: Config, d: real, s: State)
    requires Consistent(cfg, s)
    ensures TableOf(Step(cfg, d, s, ReaperTick)) == RateLimit.Reap(cfg, TableOf(s), s.clock)
  {
  }
}
