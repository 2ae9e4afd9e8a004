/** When a client can tell that idle buckets are evicted: exactly when a drained bucket may not have
    refilled by then, also if the reaper ticks only at its own times. */
module Visibility {
  import opened GoStrings
  import opened TokenBucket
  import opened Eviction

  // ---- the reaper's ticker ----

  /** The reaper ticks whenever it is due and at no other time; gap is the time to its next tick. */
  predicate OnSchedule(period: real, gap: real, es: seq<Event>)
    decreases |es|
  {
    if es == [] then true
    else
      match es[0]
      case Tick(dt) => dt <= gap && OnSchedule(period, gap - dt, es[1..])
      case ReaperTick => gap == 0.0 && OnSchedule(period, period, es[1..])
      case _ => OnSchedule(period, gap, es[1..])
  }

  function GapAfter(period: real, gap: real, es: seq<Event>): real
    decreases |es|
  {
    if es == [] then gap
    else
      match es[0]
      case Tick(dt) => GapAfter(period, gap - dt, es[1..])
      case ReaperTick => GapAfter(period, period, es[1..])
      case _ => GapAfter(period, gap, es[1..])
  }

  /** es is on schedule and takes s to s', with the given decisions on ip. */
  ghost predicate Plays(cfg: Config, d: real, period: real, s: State, gap: real, es: seq<Event>, s': State, gap': real,
                        ip: Str, oks: seq<bool>, times: seq<real>)
  {
    && OnSchedule(period, gap, es) && GapAfter(period, gap, es) == gap'
    && Runs(cfg, d, s, es) && Run(cfg, d, s, es) == s'
    && Oks(Trace(cfg, d, s, es), ip) == oks && Times(Trace(cfg, d, s, es), ip) == times
  }

  lemma {:induction false} ScheduleAppend(period: real, gap: real, a: seq<Event>, b: seq<Event>)
    requires OnSchedule(period, gap, a) && OnSchedule(period, GapAfter(period, gap, a), b)
    ensures OnSchedule(period, gap, a + b)
    ensures GapAfter(period, gap, a + b) == GapAfter(period, GapAfter(period, gap, a), b)
    decreases |a|
  {
    if a == [] {
      assert a + b == b;
    } else {
      assert (a + b)[1..] == a[1..] + b;
      match a[0]
      case Tick(dt) => ScheduleAppend(period, gap - dt, a[1..], b);
      case ReaperTick => ScheduleAppend(period, period, a[1..], b);
      case _ => ScheduleAppend(period, gap, a[1..], b);
    }
  }

  lemma PlaysAppend(cfg: Config, d: real, period: real, s: State, gap: real, a: seq<Event>, s1: State, gap1: real,
                    b: seq<Event>, s2: State, gap2: real, ip: Str,
                    oks1: seq<bool>, times1: seq<real>, oks2: seq<bool>, times2: seq<real>)
    requires Plays(cfg, d, period, s, gap, a, s1, gap1, ip, oks1, times1)
    requires Plays(cfg, d, period, s1, gap1, b, s2, gap2, ip, oks2, times2)
    ensures Plays(cfg, d, period, s, gap, a + b, s2, gap2, ip, oks1 + oks2, times1 + times2)
  {
    ScheduleAppend(period, gap, a, b);
    RunsAppend(cfg, d, s, a, b);
    OksAppend(Trace(cfg, d, s, a), Trace(cfg, d, s1, b), ip);
    TimesAppend(Trace(cfg, d, s, a), Trace(cfg, d, s1, b), ip);
  }

  // ---- waiting ----

  function Multiple(period: real, k: int): real {
    k as real * period
  }

  lemma OneMorePeriod(period: real, k: int)
    ensures Multiple(period, 1 + k) == period + Multiple(period, k)
    ensures Multiple(period, 0) == 0.0
  {
    Distribute(period, 1.0, k as real);
    assert (1 + k) as real == 1.0 + k as real;
  }

  /** x passes, with the reaper's ticks as they come due; n is enough periods. */
  function Wait(period: real, gap: real, x: real, n: nat): seq<Event>
    decreases n
  {
    if x < gap || n == 0 then [Tick(x)] else [Tick(gap)] + ([ReaperTick] + Wait(period, period, x - gap, n - 1))
  }

  /** The clients the reaper leaves. */
  predicate Fewer(s: State, s': State) {
    forall ip :: ip in s'.clients ==> ip in s.clients && s'.clients[ip] == s.clients[ip]
  }

  predicate Reaped(cfg: Config, s: State) {
    forall ip :: ip in s.clients ==> s.clock - s.clients[ip].lastSeen <= cfg.ttl
  }

  /** What waiting does: the clock moves on and clients disappear; if it ends with the next tick a
      whole period away, the reaper has just been there. */
  predicate Waited(cfg: Config, period: real, s: State, gap: real, x: real, s': State, gap': real) {
    && s' == s.(clock := s.clock + x, clients := s'.clients) && Fewer(s, s')
    && 0.0 < gap' <= period
    && (gap' == period && x >= gap ==> Reaped(cfg, s'))
  }

  lemma WaitABit(cfg: Config, d: real, period: real, s: State, gap: real, x: real, ip: Str)
    requires 0.0 < gap <= period && 0.0 <= x < gap
    ensures Plays(cfg, d, period, s, gap, [Tick(x)], s.(clock := s.clock + x), gap - x, ip, [], [])
    ensures Waited(cfg, period, s, gap, x, s.(clock := s.clock + x), gap - x)
  {
    assert [Tick(x)][1..] == [];
  }

  lemma WaitForTick(cfg: Config, d: real, period: real, s: State, gap: real, ip: Str) returns (s': State)
    requires cfg.Valid() && 0.0 < gap <= period
    ensures Plays(cfg, d, period, s, gap, [Tick(gap)] + [ReaperTick], s', period, ip, [], [])
    ensures Waited(cfg, period, s, gap, gap, s', period)
  {
    var s1 := Step(cfg, d, s, Tick(gap));
    s' := Step(cfg, d, s1, ReaperTick);
    assert [ReaperTick][1..] == [] && ([Tick(gap)] + [ReaperTick])[1..] == [ReaperTick];
    OneThen(cfg, d, s1, ReaperTick, []);
    OneThen(cfg, d, s, Tick(gap), [ReaperTick]);
    assert [ReaperTick] + [] == [ReaperTick];
  }

  /** Waiting works out, ends on schedule, and moves the next tick by whole periods. */
  lemma {:induction false} WaitPlays(cfg: Config, d: real, period: real, s: State, gap: real, x: real, n: nat, ip: Str)
    returns (s': State, gap': real, j: nat)
    requires cfg.Valid() && 0.0 < gap <= period && 0.0 <= x < gap + Multiple(period, n)
    ensures Plays(cfg, d, period, s, gap, Wait(period, gap, x, n), s', gap', ip, [], [])
    ensures Waited(cfg, period, s, gap, x, s', gap')
    ensures x + gap' == gap + Multiple(period, j)
    ensures x >= gap <==> j > 0
    decreases n
  {
    OneMorePeriod(period, n - 1);
    if x < gap {
      s', gap', j := s.(clock := s.clock + x), gap - x, 0;
      WaitABit(cfg, d, period, s, gap, x, ip);
      OneMorePeriod(period, 0);
    } else {
      assert n > 0;
      var s1 := WaitForTick(cfg, d, period, s, gap, ip);
      var i;
      s', gap', i := WaitPlays(cfg, d, period, s1, period, x - gap, n - 1, ip);
      j := 1 + i;
      OneMorePeriod(period, i);
      WaitJoins(cfg, d, period, s, gap, x, n, s1, s', gap', ip);
    }
  }

  lemma WaitJoins(cfg: Config, d: real, period: real, s: State, gap: real, x: real, n: nat, s1: State, s': State, gap': real,
                  ip: Str)
    requires cfg.Valid() && 0.0 < gap <= period && x >= gap && n > 0
    requires Plays(cfg, d, period, s, gap, [Tick(gap)] + [ReaperTick], s1, period, ip, [], [])
    requires Waited(cfg, period, s, gap, gap, s1, period)
    requires Plays(cfg, d, period, s1, period, Wait(period, period, x - gap, n - 1), s', gap', ip, [], [])
    requires Waited(cfg, period, s1, period, x - gap, s', gap')
    requires x - gap < period ==> gap' == period - (x - gap)
    ensures Plays(cfg, d, period, s, gap, Wait(period, gap, x, n), s', gap', ip, [], [])
    ensures Waited(cfg, period, s, gap, x, s', gap')
  {
    var rest := Wait(period, period, x - gap, n - 1);
    PlaysAppend(cfg, d, period, s, gap, [Tick(gap)] + [ReaperTick], s1, period, rest, s', gap', ip, [], [], [], []);
    assert [Tick(gap)] + [ReaperTick] + rest == [Tick(gap)] + ([ReaperTick] + rest);
    assert s1.clock + (x - gap) == s.clock + x;
    if gap' == period && x - gap < period {
      assert x == gap;
    }
  }

  lemma EnoughPeriods(period: real, x: real) returns (n: nat)
    requires period > 0.0 && x >= 0.0
    ensures x < Multiple(period, n)
  {
    var q := x / period;
    assert q * period == x;
    if q < 0.0 {
      Scale(period, q, 0.0);
    }
    n := q.Floor + 1;
    Below(period, q, n as real);
  }

  lemma Below(period: real, q: real, m: real)
    requires period > 0.0 && q < m
    ensures q * period < m * period
  {
  }

  /** Only one multiple of the period is that close to zero. */
  lemma OnePeriod(period: real, m: int)
    requires 0.0 < Multiple(period, m) <= period
    requires period > 0.0
    ensures Multiple(period, m) == period
  {
    OneMorePeriod(period, 0);
    if m >= 2 {
      Below(period, 1.0, m as real);
    } else if m <= 0 {
      Scale(period, m as real, 0.0);
      assert period * 0.0 == 0.0 && Multiple(period, m) == period * m as real;
    }
  }

  lemma MultiplesAdd(period: real, k: int, n: int)
    ensures Multiple(period, k) + Multiple(period, n) == Multiple(period, k + n)
  {
    Distribute(period, k as real, n as real);
  }

  // ---- rounds of requests ----

  function Gets(ip: Str, k: nat): seq<Event> {
    if k == 0 then [] else [Get(ip)] + Gets(ip, k - 1)
  }

  function Spends(first: nat, k: nat): seq<Event>
    decreases k
  {
    if k == 0 then [] else [Spend(first)] + Spends(first + 1, k - 1)
  }

  function Repeat(t: real, k: nat): seq<real> {
    if k == 0 then [] else [t] + Repeat(t, k - 1)
  }

  function After(cfg: Config, b: Bucket, times: seq<real>): Bucket
    decreases |times|
  {
    if times == [] then b else After(cfg, Allow(cfg, b, times[0]).0, times[1..])
  }

  lemma {:induction false} PrivateAppend(cfg: Config, b: Bucket, x: seq<real>, y: seq<real>)
    ensures Private(cfg, b, x + y) == Private(cfg, b, x) + Private(cfg, After(cfg, b, x), y)
    decreases |x|
  {
    if x == [] {
      assert x + y == y;
    } else {
      assert (x + y)[1..] == x[1..] + y;
      PrivateAppend(cfg, Allow(cfg, b, x[0]).0, x[1..], y);
    }
  }

  predicate AllAdmitted(oks: seq<bool>) {
    false !in oks
  }

  /** A bucket admits k requests at one time exactly when it holds k tokens. */
  lemma {:induction false} Drain(cfg: Config, b: Bucket, t: real, k: nat)
    requires cfg.Valid() && Sane(cfg, b, t)
    ensures AllAdmitted(Private(cfg, b, Repeat(t, k))) <==> k == 0 || Avail(cfg, b, t) >= k as real
    ensures AllAdmitted(Private(cfg, b, Repeat(t, k))) && k > 0 ==>
              After(cfg, b, Repeat(t, k)) == Bucket(Avail(cfg, b, t) - k as real, t)
    decreases k
  {
    if k > 0 {
      var b' := Allow(cfg, b, t).0;
      AllowSane(cfg, b, t);
      AvailRange(cfg, b, t);
      Drain(cfg, b', t, k - 1);
      PrivateCons(cfg, b, t, Repeat(t, k - 1));
    }
  }

  lemma {:induction false} GetsRun(cfg: Config, d: real, s: State, ip: Str, k: nat)
    ensures Runs(cfg, d, s, Gets(ip, k)) && Trace(cfg, d, s, Gets(ip, k)) == []
    decreases k
  {
    if k > 0 {
      GetsRun(cfg, d, Step(cfg, d, s, Get(ip)), ip, k - 1);
      assert Gets(ip, k)[1..] == Gets(ip, k - 1);
    }
  }

  function AddFlights(m: map<nat, Flight>, first: nat, k: nat, fl: Flight): map<nat, Flight>
    decreases k
  {
    if k == 0 then m else AddFlights(m[first := fl], first + 1, k - 1, fl)
  }

  lemma {:induction false} AddedFlights(m: map<nat, Flight>, first: nat, k: nat, fl: Flight)
    ensures var m' := AddFlights(m, first, k, fl);
            && (forall f :: first <= f < first + k ==> f in m' && m'[f] == fl)
            && (forall f :: f in m && f < first ==> f in m' && m'[f] == m[f])
    decreases k
  {
    if k > 0 {
      assert first in m[first := fl];
      AddedFlights(m[first := fl], first + 1, k - 1, fl);
    }
  }

  /** k more gets of a known address: k more flights on its bucket. */
  lemma {:induction false} GetsOfKnown(cfg: Config, d: real, s: State, ip: Str, k: nat)
    requires ip in s.clients && s.clients[ip].lastSeen == s.clock
    ensures Runs(cfg, d, s, Gets(ip, k))
    ensures Run(cfg, d, s, Gets(ip, k)) ==
            s.(flights := AddFlights(s.flights, s.nextFlight, k, Flight(ip, s.clients[ip].id, s.clock)),
               nextFlight := s.nextFlight + k)
    decreases k
  {
    if k > 0 {
      var s1 := Step(cfg, d, s, Get(ip));
      assert s1.clients == s.clients;
      GetsOfKnown(cfg, d, s1, ip, k - 1);
      assert Gets(ip, k)[1..] == Gets(ip, k - 1);
    }
  }

  /** k spends in a row on one bucket are decided as that bucket decides k requests at once. */
  lemma {:induction false} SpendsDecide(cfg: Config, d: real, s: State, ip: Str, id: nat, first: nat, k: nat)
    requires id in s.cells
    requires forall f :: first <= f < first + k ==>
               f in s.flights && s.flights[f].ip == ip && s.flights[f].id == id && s.clock - s.flights[f].fetched <= d
    ensures Runs(cfg, d, s, Spends(first, k))
    ensures var tr := Trace(cfg, d, s, Spends(first, k));
            && Oks(tr, ip) == Private(cfg, s.cells[id].bucket, Repeat(s.clock, k))
            && Times(tr, ip) == Repeat(s.clock, k)
    ensures var s' := Run(cfg, d, s, Spends(first, k));
            s'.clock == s.clock && s'.clients == s.clients && s'.nextFlight == s.nextFlight && s'.nextCell == s.nextCell
    decreases k
  {
    if k > 0 {
      var s1 := Step(cfg, d, s, Spend(first));
      SpendsDecide(cfg, d, s1, ip, id, first + 1, k - 1);
      assert Spends(first, k)[1..] == Spends(first + 1, k - 1);
      SpendOnTrace(DecisionOf(cfg, d, s, Spend(first))[0], Trace(cfg, d, s1, Spends(first + 1, k - 1)), ip);
      PrivateCons(cfg, s.cells[id].bucket, s.clock, Repeat(s.clock, k - 1));
    }
  }

  lemma GetsOfNew(cfg: Config, d: real, s: State, ip: Str, k: nat)
    requires ip !in s.clients && k > 0
    ensures Runs(cfg, d, s, Gets(ip, k)) && Trace(cfg, d, s, Gets(ip, k)) == []
    ensures var s' := Run(cfg, d, s, Gets(ip, k));
            && s'.clock == s.clock && s'.nextFlight == s.nextFlight + k && s'.nextCell == s.nextCell + 1
            && ip in s'.clients && s'.clients[ip] == Slot(s.nextCell, s.clock)
            && s.nextCell in s'.cells && s'.cells[s.nextCell] == Cell(ip, Full(cfg, s.clock))
            && (forall f :: s.nextFlight <= f < s.nextFlight + k ==>
                  f in s'.flights && s'.flights[f] == Flight(ip, s.nextCell, s.clock))
  {
    var s1 := Step(cfg, d, s, Get(ip));
    var fl := Flight(ip, s.nextCell, s.clock);
    GetsRun(cfg, d, s, ip, k);
    GetsOfKnown(cfg, d, s1, ip, k - 1);
    assert Gets(ip, k)[1..] == Gets(ip, k - 1);
    assert s.nextFlight in s1.flights;
    AddedFlights(s1.flights, s1.nextFlight, k - 1, fl);
  }


  lemma {:induction false} GetsOnSchedule(period: real, gap: real, ip: Str, k: nat)
    ensures OnSchedule(period, gap, Gets(ip, k)) && GapAfter(period, gap, Gets(ip, k)) == gap
    decreases k
  {
    if k > 0 {
      GetsOnSchedule(period, gap, ip, k - 1);
      assert Gets(ip, k)[1..] == Gets(ip, k - 1);
    }
  }

  lemma {:induction false} SpendsOnSchedule(period: real, gap: real, first: nat, k: nat)
    ensures OnSchedule(period, gap, Spends(first, k)) && GapAfter(period, gap, Spends(first, k)) == gap
    decreases k
  {
    if k > 0 {
      SpendsOnSchedule(period, gap, first + 1, k - 1);
      assert Spends(first, k)[1..] == Spends(first + 1, k - 1);
    }
  }

  /** A pause that outlasts the ttl and is still too short to refill the bucket. */
  lemma ShortPause(r: real, x: real, n: real) returns (w: real)
    requires r >= 0.0 && x >= 0.0 && n > r * x
    ensures w > x && r * w < n
  {
    if r == 0.0 {
      w := x + 1.0;
      assert r * w == 0.0 && r * x == 0.0;
    } else {
      var gap := n - r * x;
      var extra := gap / (2.0 * r);
      assert extra > 0.0;
      HalfOfGap(r, gap);
      w := x + extra;
      Distribute(r, x, extra);
    }
  }

  lemma HalfOfGap(r: real, gap: real)
    requires r > 0.0
    ensures r * (gap / (2.0 * r)) == gap / 2.0
  {
    var q := gap / (2.0 * r);
    assert q * (2.0 * r) == gap;
    assert 2.0 * (r * q) == q * (2.0 * r);
  }

  lemma WitnessPause(cfg: Config, d: real) returns (w: real)
    requires cfg.Valid() && 0.0 <= d <= cfg.ttl && cfg.burst as real > cfg.rps * (cfg.ttl - d)
    ensures w > cfg.ttl - d && cfg.rps * w < cfg.burst as real && cfg.burst > 0
  {
    NonNegative(cfg.rps, cfg.ttl - d);
    w := ShortPause(cfg.rps, cfg.ttl - d, cfg.burst as real);
  }

  /** A full bucket admits a round in full and is drained by it. */
  lemma FullRound(cfg: Config, now: real, t: real)
    requires cfg.Valid() && now <= t && cfg.burst > 0
    ensures AllAdmitted(Private(cfg, Full(cfg, now), Repeat(t, cfg.burst)))
    ensures After(cfg, Full(cfg, now), Repeat(t, cfg.burst)) == Bucket(0.0, t)
  {
    AvailRange(cfg, Full(cfg, now), t);
    Drain(cfg, Full(cfg, now), t, cfg.burst);
  }

  lemma DrainedRound(cfg: Config, t: real, w: real)
    requires cfg.Valid() && w > 0.0 && cfg.burst > 0 && cfg.rps * w < cfg.burst as real
    ensures !AllAdmitted(Private(cfg, Bucket(0.0, t), Repeat(t + w, cfg.burst)))
  {
    assert (t + w) - t == w;
    Drain(cfg, Bucket(0.0, t), t + w, cfg.burst);
  }

  lemma DrainedByFull(cfg: Config, start: real, t: real, later: seq<real>)
    requires cfg.Valid() && start <= t && cfg.burst > 0
    requires !AllAdmitted(Private(cfg, Bucket(0.0, t), later))
    ensures !AllAdmitted(Private(cfg, Full(cfg, start), Repeat(t, cfg.burst) + later))
  {
    FullRound(cfg, start, t);
    PrivateAppend(cfg, Full(cfg, start), Repeat(t, cfg.burst), later);
  }

  lemma NothingAdmitted(cfg: Config, b: Bucket, t: real)
    requires cfg.Valid() && cfg.burst == 0 && Sane(cfg, b, t)
    ensures Allow(cfg, b, t) == (b, false)
  {
    AvailRange(cfg, b, t);
  }

  /** A limiter without a burst admits nothing, evictions or not. */
  lemma {:induction false} NoBurstTrace(cfg: Config, d: real, s: State, es: seq<Event>, ip: Str, b: Bucket)
    requires cfg.Valid() && cfg.burst == 0 && Consistent(cfg, s) && Runs(cfg, d, s, es) && Sane(cfg, b, s.clock)
    ensures var tr := Trace(cfg, d, s, es);
            Oks(tr, ip) == Private(cfg, b, Times(tr, ip))
    decreases |es|
  {
    if es != [] {
      var s' := Step(cfg, d, s, es[0]);
      StepConsistent(cfg, d, s, es[0]);
      NoBurstTrace(cfg, d, s', es[1..], ip, b);
      var rest := Trace(cfg, d, s', es[1..]);
      NoBurstDecision(cfg, d, s, es[0], rest, ip, b);
    }
  }

  lemma NoBurstDecision(cfg: Config, d: real, s: State, e: Event, rest: seq<Decision>, ip: Str, b: Bucket)
    requires cfg.Valid() && cfg.burst == 0 && Consistent(cfg, s) && Enabled(d, s, e) && Sane(cfg, b, s.clock)
    requires Oks(rest, ip) == Private(cfg, b, Times(rest, ip))
    ensures var tr := DecisionOf(cfg, d, s, e) + rest;
            Oks(tr, ip) == Private(cfg, b, Times(tr, ip))
  {
    if e.Spend? {
      var f := s.flights[e.flight];
      NothingAdmitted(cfg, b, s.clock);
      NothingAdmitted(cfg, s.cells[f.id].bucket, s.clock);
      assert DecisionOf(cfg, d, s, e) == [Decision(f.ip, s.clock, false)];
      SpendOnTrace(Decision(f.ip, s.clock, false), rest, ip);
      PrivateCons(cfg, b, s.clock, Times(rest, ip));
      assert [] + Oks(rest, ip) == Oks(rest, ip) && [] + Times(rest, ip) == Times(rest, ip);
    } else {
      assert [] + rest == rest;
    }
  }

  /** When the reaper cannot be seen: nothing is ever admitted, or every request spends within the
      ttl and a drained bucket refills in what the slowest leaves of it. */
  predicate Invisible(cfg: Config, d: real) {
    cfg.burst == 0 || RefillsBeforeEviction(cfg, d)
  }


  lemma GetsPlay(cfg: Config, d: real, period: real, s: State, gap: real, ip: Str, k: nat)
    requires ip !in s.clients && k > 0
    ensures Runs(cfg, d, s, Gets(ip, k))
    ensures var s' := Run(cfg, d, s, Gets(ip, k));
            && Plays(cfg, d, period, s, gap, Gets(ip, k), s', gap, ip, [], [])
            && InFlight(cfg, s', ip, s.nextCell, s.nextFlight, k, s.clock) && s'.clock == s.clock
            && ip in s'.clients && s'.clients[ip].lastSeen == s.clock
            && s'.nextFlight == s.nextFlight + k && s'.nextCell == s.nextCell + 1
  {
    GetsOfNew(cfg, d, s, ip, k);
    GetsOnSchedule(period, gap, ip, k);
  }

  /** k requests of ip, numbered from first, are in flight since then on a bucket full at the time. */
  predicate InFlight(cfg: Config, s: State, ip: Str, id: nat, first: nat, k: nat, since: real) {
    && id in s.cells && s.cells[id] == Cell(ip, Full(cfg, since)) && id < s.nextCell
    && forall f :: first <= f < first + k ==> f in s.flights && s.flights[f] == Flight(ip, id, since) && f < s.nextFlight
  }

  lemma SpendsPlay(cfg: Config, d: real, period: real, s: State, gap: real, ip: Str, id: nat, first: nat, k: nat, since: real)
    requires InFlight(cfg, s, ip, id, first, k, since) && s.clock - since <= d
    ensures Runs(cfg, d, s, Spends(first, k))
    ensures var s' := Run(cfg, d, s, Spends(first, k));
            && Plays(cfg, d, period, s, gap, Spends(first, k), s', gap, ip,
                     Private(cfg, Full(cfg, since), Repeat(s.clock, k)), Repeat(s.clock, k))
            && s'.clock == s.clock && s'.clients == s.clients && s'.nextFlight == s.nextFlight && s'.nextCell == s.nextCell
  {
    SpendsDecide(cfg, d, s, ip, id, first, k);
    SpendsOnSchedule(period, gap, first, k);
  }

  /** k requests of an unknown address: all get the same new bucket, wait x, and then spend. */
  lemma RoundPlays(cfg: Config, d: real, period: real, s: State, gap: real, x: real, n: nat, ip: Str, k: nat)
    returns (es: seq<Event>, s': State, gap': real, j: nat)
    requires cfg.Valid() && 0.0 < gap <= period && 0.0 <= x <= d && x < Multiple(period, n)
    requires ip !in s.clients && k > 0
    ensures Plays(cfg, d, period, s, gap, es, s', gap', ip,
                  Private(cfg, Full(cfg, s.clock), Repeat(s.clock + x, k)), Repeat(s.clock + x, k))
    ensures s'.clock == s.clock + x && s'.nextFlight == s.nextFlight + k
    ensures ip in s'.clients ==> s'.clients[ip].lastSeen == s.clock
    ensures 0.0 < gap' <= period && x + gap' == gap + Multiple(period, j)
  {
    GetsPlay(cfg, d, period, s, gap, ip, k);
    var s1 := Run(cfg, d, s, Gets(ip, k));
    var s2;
    s2, gap', j := WaitPlays(cfg, d, period, s1, gap, x, n, ip);
    SpendsPlay(cfg, d, period, s2, gap', ip, s.nextCell, s.nextFlight, k, s.clock);
    s' := Run(cfg, d, s2, Spends(s.nextFlight, k));
    var wait, spends := Wait(period, gap, x, n), Spends(s.nextFlight, k);
    PlaysAfterNothing(cfg, d, period, s1, gap, wait, s2, gap', spends, s', gap', ip,
                      Private(cfg, Full(cfg, s.clock), Repeat(s.clock + x, k)), Repeat(s.clock + x, k));
    es := Gets(ip, k) + (wait + spends);
    PlaysAfterNothing(cfg, d, period, s, gap, Gets(ip, k), s1, gap, wait + spends, s', gap', ip,
                      Private(cfg, Full(cfg, s.clock), Repeat(s.clock + x, k)), Repeat(s.clock + x, k));
  }

  lemma PlaysAfterNothing(cfg: Config, d: real, period: real, s: State, gap: real, a: seq<Event>, s1: State, gap1: real,
                          b: seq<Event>, s2: State, gap2: real, ip: Str, oks: seq<bool>, times: seq<real>)
    requires Plays(cfg, d, period, s, gap, a, s1, gap1, ip, [], [])
    requires Plays(cfg, d, period, s1, gap1, b, s2, gap2, ip, oks, times)
    ensures Plays(cfg, d, period, s, gap, a + b, s2, gap2, ip, oks, times)
  {
    PlaysAppend(cfg, d, period, s, gap, a, s1, gap1, b, s2, gap2, ip, [], [], oks, times);
    assert [] + oks == oks && [] + times == times;
  }

  // ---- a drained bucket is replaced too early ----

  /** How long to wait first so that the reaper ticks at the end of y more. */
  lemma LeadTime(period: real, y: real) returns (x: real, k: nat)
    requires period > 0.0 && y >= 0.0
    ensures x >= 0.0 && x + y == Multiple(period, k)
  {
    k := EnoughPeriods(period, y);
    x := Multiple(period, k) - y;
  }

  lemma WholePeriods(period: real, k: nat, i: nat, j: nat, x: real, y: real, gap: real, gap': real)
    requires period > 0.0 && x + y == Multiple(period, k)
    requires x + gap == period + Multiple(period, i) && y + gap' == gap + Multiple(period, j)
    requires 0.0 < gap' <= period
    ensures gap' == period
  {
    MultiplesAdd(period, i, j);
    OneMorePeriod(period, i + j);
    var m := 1 + i + j - k;
    MultiplesAdd(period, m, k);
    OnePeriod(period, m);
  }

  /** After the pause the reaper has taken the bucket of ip. */
  lemma PauseReaps(cfg: Config, d: real, period: real, s2: State, g2: real, w: real, s3: State, g3: real, j: nat, ip: Str)
    requires cfg.Valid() && w > 0.0 && d + w > cfg.ttl && 0.0 < g2 <= period && g3 == period
    requires Waited(cfg, period, s2, g2, w, s3, g3) && w + g3 == g2 + Multiple(period, j) && (w >= g2 <==> j > 0)
    requires ip in s2.clients ==> s2.clients[ip].lastSeen == s2.clock - d
    ensures ip !in s3.clients
  {
    OneMorePeriod(period, 0);
    assert j > 0;
  }

  /** A first round, after a wait of x. */
  lemma FirstRound(cfg: Config, d: real, period: real, start: real, x: real, ip: Str)
    returns (es: seq<Event>, s: State, gap: real, i: nat)
    requires cfg.Valid() && period > 0.0 && 0.0 <= d && x >= 0.0 && cfg.burst > 0
    ensures var t, n := start + x + d, cfg.burst;
            Plays(cfg, d, period, Init(start), period, es, s, gap, ip, Private(cfg, Full(cfg, start + x), Repeat(t, n)), Repeat(t, n))
    ensures s.clock == start + x + d && (ip in s.clients ==> s.clients[ip].lastSeen == s.clock - d)
    ensures 0.0 < gap <= period && (x + d) + gap == period + Multiple(period, i)
  {
    var n := cfg.burst;
    var lead, s1, g1, j := Pause(cfg, d, period, Init(start), period, x, ip);
    var n1 := EnoughPeriods(period, d);
    var round, l;
    round, s, gap, l := RoundPlays(cfg, d, period, s1, g1, d, n1, ip, n);
    es, i := lead + round, j + l;
    MultiplesAdd(period, j, l);
    PlaysAfterNothing(cfg, d, period, Init(start), period, lead, s1, g1, round, s, gap, ip,
                      Private(cfg, Full(cfg, start + x), Repeat(start + x + d, n)), Repeat(start + x + d, n));
  }

  /** A second round, after a pause of w in which the reaper took the bucket. */
  lemma SecondRound(cfg: Config, d: real, period: real, s: State, gap: real, i: nat, k: nat, x: real, w: real, ip: Str)
    returns (es: seq<Event>, s': State, gap': real)
    requires cfg.Valid() && 0.0 <= d && w > 0.0 && d + w > cfg.ttl && cfg.burst > 0
    requires 0.0 < gap <= period && x + gap == period + Multiple(period, i) && x + w == Multiple(period, k)
    requires ip in s.clients ==> s.clients[ip].lastSeen == s.clock - d
    ensures var t, n := s.clock + w, cfg.burst;
            Plays(cfg, d, period, s, gap, es, s', gap', ip, Private(cfg, Full(cfg, t), Repeat(t, n)), Repeat(t, n))
  {
    var n := cfg.burst;
    var idle, s1, g1, j := Pause(cfg, d, period, s, gap, w, ip);
    WholePeriods(period, k, i, j, x, w, gap, g1);
    PauseReaps(cfg, d, period, s, gap, w, s1, g1, j, ip);
    var n1 := EnoughPeriods(period, 0.0);
    var round, l;
    round, s', gap', l := RoundPlays(cfg, d, period, s1, g1, 0.0, n1, ip, n);
    es := idle + round;
    var t := s.clock + w;
    assert t + 0.0 == t;
    PlaysAfterNothing(cfg, d, period, s, gap, idle, s1, g1, round, s', gap', ip,
                      Private(cfg, Full(cfg, t), Repeat(t, n)), Repeat(t, n));
  }

  lemma TwoRounds(cfg: Config, d: real, period: real, start: real, w: real, ip: Str) returns (es: seq<Event>, t0: real)
    requires cfg.Valid() && period > 0.0 && 0.0 <= d && w > 0.0 && d + w > cfg.ttl && cfg.burst > 0
    ensures start <= t0 && Runs(cfg, d, Init(start), es) && OnSchedule(period, period, es)
    ensures var tr, n := Trace(cfg, d, Init(start), es), cfg.burst;
            && Times(tr, ip) == Repeat(t0, n) + Repeat(t0 + w, n)
            && AllAdmitted(Oks(tr, ip))
  {
    var n := cfg.burst;
    var x, k := LeadTime(period, d + w);
    var es1, s1, g1, i := FirstRound(cfg, d, period, start, x, ip);
    var es2, s2, g2 := SecondRound(cfg, d, period, s1, g1, i, k, x + d, w, ip);
    t0 := start + x + d;
    es := es1 + es2;
    PlaysAppend(cfg, d, period, Init(start), period, es1, s1, g1, es2, s2, g2, ip,
                Private(cfg, Full(cfg, start + x), Repeat(t0, n)), Repeat(t0, n),
                Private(cfg, Full(cfg, t0 + w), Repeat(t0 + w, n)), Repeat(t0 + w, n));
    FullRound(cfg, start + x, t0);
    FullRound(cfg, t0 + w, t0 + w);
  }

  /** With less refill than that, two rounds tell the limiter from the bucket of its own. */
  lemma ReaperVisible(cfg: Config, d: real, period: real, start: real, ip: Str) returns (es: seq<Event>)
    requires cfg.Valid() && period > 0.0 && 0.0 <= d <= cfg.ttl && cfg.burst as real > cfg.rps * (cfg.ttl - d)
    ensures Runs(cfg, d, Init(start), es) && OnSchedule(period, period, es)
    ensures !AsPrivate(cfg, d, start, es, ip)
  {
    var w := WitnessPause(cfg, d);
    var t0;
    es, t0 := TwoRounds(cfg, d, period, start, w, ip);
    DrainedRound(cfg, t0, w);
    DrainedByFull(cfg, start, t0, Repeat(t0 + w, cfg.burst));
  }

  /** ip is decided as by a bucket of its own that is never evicted. */
  predicate AsPrivate(cfg: Config, d: real, start: real, es: seq<Event>, ip: Str)
    requires Runs(cfg, d, Init(start), es)
  {
    var tr := Trace(cfg, d, Init(start), es);
    Oks(tr, ip) == Private(cfg, Full(cfg, start), Times(tr, ip))
  }

  // ---- requests slower than the ttl ----

  /** One request on a new bucket and then the slow ones on the old. */
  lemma LateSpends(cfg: Config, d: real, period: real, s: State, gap: real, ip: Str, since: real)
    returns (es: seq<Event>, s': State)
    requires cfg.Valid() && d >= 0.0 && cfg.burst > 0 && ip !in s.clients && s.clock - since <= d
    requires InFlight(cfg, s, ip, 0, 0, cfg.burst, since) && s.nextFlight == cfg.burst && since <= s.clock
    ensures exists oks :: Plays(cfg, d, period, s, gap, es, s', gap, ip, oks, Repeat(s.clock, 1 + cfg.burst)) && AllAdmitted(oks)
  {
    var n, t := cfg.burst, s.clock;
    GetsPlay(cfg, d, period, s, gap, ip, 1);
    var s1 := Run(cfg, d, s, Gets(ip, 1));
    SpendsPlay(cfg, d, period, s1, gap, ip, s.nextCell, n, 1, t);
    var s2 := Run(cfg, d, s1, Spends(n, 1));
    StillInFlight(cfg, d, s, ip, since);
    SpendsPlay(cfg, d, period, s2, gap, ip, 0, 0, n, since);
    s' := Run(cfg, d, s2, Spends(0, n));
    es := Gets(ip, 1) + (Spends(n, 1) + Spends(0, n));
    var first, rest := Private(cfg, Full(cfg, t), Repeat(t, 1)), Private(cfg, Full(cfg, since), Repeat(t, n));
    PlaysAppend(cfg, d, period, s1, gap, Spends(n, 1), s2, gap, Spends(0, n), s', gap, ip, first, Repeat(t, 1), rest, Repeat(t, n));
    PlaysAfterNothing(cfg, d, period, s, gap, Gets(ip, 1), s1, gap, Spends(n, 1) + Spends(0, n), s', gap, ip,
                      first + rest, Repeat(t, 1) + Repeat(t, n));
    FullRound(cfg, since, t);
    AvailRange(cfg, Full(cfg, t), t);
    Drain(cfg, Full(cfg, t), t, 1);
    assert Repeat(t, 1) + Repeat(t, n) == Repeat(t, 1 + n);
    assert AllAdmitted(first + rest);
  }

  lemma StillInFlight(cfg: Config, d: real, s: State, ip: Str, since: real)
    requires d >= 0.0 && ip !in s.clients && InFlight(cfg, s, ip, 0, 0, cfg.burst, since) && s.nextFlight == cfg.burst
    requires Runs(cfg, d, s, Gets(ip, 1)) && Runs(cfg, d, Run(cfg, d, s, Gets(ip, 1)), Spends(cfg.burst, 1))
    ensures InFlight(cfg, Run(cfg, d, Run(cfg, d, s, Gets(ip, 1)), Spends(cfg.burst, 1)), ip, 0, 0, cfg.burst, since)
  {
    var n := cfg.burst;
    var s1 := Step(cfg, d, s, Get(ip));
    assert Gets(ip, 1) == [Get(ip)] && [Get(ip)][1..] == [];
    assert Run(cfg, d, s, Gets(ip, 1)) == s1;
    assert Spends(n, 1) == [Spend(n)] && [Spend(n)][1..] == [];
    assert Run(cfg, d, s1, Spends(n, 1)) == Step(cfg, d, s1, Spend(n));
  }

  lemma SlowRound(cfg: Config, d: real, period: real, start: real, ip: Str) returns (es: seq<Event>, t: real)
    requires cfg.Valid() && period > 0.0 && d > cfg.ttl && cfg.burst > 0
    ensures start <= t && Runs(cfg, d, Init(start), es) && OnSchedule(period, period, es)
    ensures var tr := Trace(cfg, d, Init(start), es);
            Times(tr, ip) == Repeat(t, 1 + cfg.burst) && AllAdmitted(Oks(tr, ip))
  {
    var n := cfg.burst;
    var x, k := LeadTime(period, d);
    var lead, s1, g1, i := Pause(cfg, d, period, Init(start), period, x, ip);
    GetsPlay(cfg, d, period, s1, g1, ip, n);
    var s2 := Run(cfg, d, s1, Gets(ip, n));
    var idle, s3, g3, j := Pause(cfg, d, period, s2, g1, d, ip);
    WholePeriods(period, k, i, j, x, d, g1, g3);
    PauseReaps(cfg, 0.0, period, s2, g1, d, s3, g3, j, ip);
    var late, s4 := LateSpends(cfg, d, period, s3, g3, ip, s2.clock);
    t := s3.clock;
    var oks :| Plays(cfg, d, period, s3, g3, late, s4, g3, ip, oks, Repeat(t, 1 + n)) && AllAdmitted(oks);
    PlaysAfterNothing(cfg, d, period, s2, g1, idle, s3, g3, late, s4, g3, ip, oks, Repeat(t, 1 + n));
    PlaysAfterNothing(cfg, d, period, s1, g1, Gets(ip, n), s2, g1, idle + late, s4, g3, ip, oks, Repeat(t, 1 + n));
    es := lead + (Gets(ip, n) + (idle + late));
    PlaysAfterNothing(cfg, d, period, Init(start), period, lead, s1, g1, Gets(ip, n) + (idle + late), s4, g3, ip, oks, Repeat(t, 1 + n));
  }

  /** A request that outlives its bucket's eviction makes the reaper visible at any refill rate. */
  lemma SlowReaperVisible(cfg: Config, d: real, period: real, start: real, ip: Str) returns (es: seq<Event>)
    requires cfg.Valid() && period > 0.0 && d > cfg.ttl && cfg.burst > 0
    ensures Runs(cfg, d, Init(start), es) && OnSchedule(period, period, es)
    ensures !AsPrivate(cfg, d, start, es, ip)
  {
    var t;
    es, t := SlowRound(cfg, d, period, start, ip);
    AvailRange(cfg, Full(cfg, start), t);
    Drain(cfg, Full(cfg, start), t, 1 + cfg.burst);
  }

  // ---- main results ----

  lemma InvisibleOn(cfg: Config, d: real, start: real, es: seq<Event>, ip: Str)
    requires cfg.Valid() && Invisible(cfg, d) && Runs(cfg, d, Init(start), es)
    ensures AsPrivate(cfg, d, start, es, ip)
  {
    if cfg.burst == 0 {
      NoBurstTrace(cfg, d, Init(start), es, ip, Full(cfg, start));
    } else {
      ReaperInvisible(cfg, d, start, es, ip);
    }
  }

  lemma VisibleOn(cfg: Config, d: real, period: real, start: real, ip: Str) returns (es: seq<Event>)
    requires cfg.Valid() && period > 0.0 && d >= 0.0 && !Invisible(cfg, d)
    ensures Runs(cfg, d, Init(start), es) && OnSchedule(period, period, es) && !AsPrivate(cfg, d, start, es, ip)
  {
    if d <= cfg.ttl {
      es := ReaperVisible(cfg, d, period, start, ip);
    } else {
      es := SlowReaperVisible(cfg, d, period, start, ip);
    }
  }

  /** The reaper is invisible on every run exactly then, whatever bound there is on the delay and
      whenever the reaper ticks. */
  lemma ReaperInvisibleExactly(cfg: Config, d: real, start: real, ip: Str)
    requires cfg.Valid() && 0.0 <= d
    ensures (forall es :: Runs(cfg, d, Init(start), es) ==> AsPrivate(cfg, d, start, es, ip)) <==> Invisible(cfg, d)
  {
    if Invisible(cfg, d) {
      forall es | Runs(cfg, d, Init(start), es) ensures AsPrivate(cfg, d, start, es, ip) {
        InvisibleOn(cfg, d, start, es, ip);
      }
    } else {
      var es := VisibleOn(cfg, d, 1.0, start, ip);
    }
  }

  /** And the condition is the same when the reaper ticks once a period and at no other time, for
      any period. */
  lemma ScheduleDoesNotHide(cfg: Config, d: real, period: real, start: real, ip: Str)
    requires cfg.Valid() && 0.0 <= d && period > 0.0
    ensures (forall es :: Runs(cfg, d, Init(start), es) && OnSchedule(period, period, es) ==> AsPrivate(cfg, d, start, es, ip))
            <==> Invisible(cfg, d)
  {
    if Invisible(cfg, d) {
      forall es | Runs(cfg, d, Init(start), es) && OnSchedule(period, period, es) ensures AsPrivate(cfg, d, start, es, ip) {
        InvisibleOn(cfg, d, start, es, ip);
      }
    } else {
      var es := VisibleOn(cfg, d, period, start, ip);
    }
  }

  lemma Pause(cfg: Config, d: real, period: real, s: State, gap: real, x: real, ip: Str)
    returns (es: seq<Event>, s': State, gap': real, j: nat)
    requires cfg.Valid() && 0.0 < gap <= period && x >= 0.0
    ensures Plays(cfg, d, period, s, gap, es, s', gap', ip, [], [])
    ensures Waited(cfg, period, s, gap, x, s', gap')
    ensures x + gap' == gap + Multiple(period, j)
    ensures x >= gap <==> j > 0
  {
    var n := EnoughPeriods(period, x);
    s', gap', j := WaitPlays(cfg, d, period, s, gap, x, n, ip);
    es := Wait(period, gap, x, n);
  }
}
