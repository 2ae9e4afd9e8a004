/** The limiter with a request as one step: it is the two-step machine when nothing delays an Allow,
    run for run, and so are the bounds on what an address is admitted in a window of time. */
module Admission {
  import opened GoStrings
  import opened TokenBucket
  import opened RateLimit
  import opened Budgets
  import Eviction
  import Windows

  datatype Event = Tick(dt: real) | Ask(ip: Str) | ReaperTick

  datatype State = State(clock: real, table: Table)

  function Step(cfg: Config, s: State, e: Event): State {
    match e
    case Tick(dt) => s.(clock := s.clock + dt)
    case Ask(ip) => s.(table := Request(cfg, s.table, ip, s.clock).0)
    case ReaperTick => s.(table := Reap(cfg, s.table, s.clock))
  }

  predicate Forward(es: seq<Event>) {
    forall e :: e in es && e.Tick? ==> e.dt >= 0.0
  }

  function Elapsed(e: Event): real {
    if e.Tick? then e.dt else 0.0
  }

  function Duration(es: seq<Event>): real {
    if es == [] then 0.0 else Elapsed(es[0]) + Duration(es[1..])
  }

  function Run(cfg: Config, s: State, es: seq<Event>): State
    decreases |es|
  {
    if es == [] then s else Run(cfg, Step(cfg, s, es[0]), es[1..])
  }

  /** 1 when e is a request of ip that is admitted. */
  function AdmittedAt(cfg: Config, s: State, e: Event, ip: Str): nat {
    if e == Ask(ip) && Request(cfg, s.table, ip, s.clock).1 then 1 else 0
  }

  /** The number of requests of ip admitted during es. */
  function Admitted(cfg: Config, s: State, es: seq<Event>, ip: Str): nat
    decreases |es|
  {
    if es == [] then 0
    else AdmittedAt(cfg, s, es[0], ip) + Admitted(cfg, Step(cfg, s, es[0]), es[1..], ip)
  }

  // ---- the simulation ----

  /** The two-step events of a run: a request is a get and at once its Allow. next is the number of
      the next request. */
  function TwoSteps(es: seq<Event>, next: nat): seq<Eviction.Event> {
    if es == [] then []
    else
      match es[0]
      case Tick(dt) => [Eviction.Tick(dt)] + TwoSteps(es[1..], next)
      case Ask(ip) => [Eviction.Get(ip)] + ([Eviction.Spend(next)] + TwoSteps(es[1..], next + 1))
      case ReaperTick => [Eviction.ReaperTick] + TwoSteps(es[1..], next)
  }

  /** The one-step state a two-step state stands for. */
  function Seen(s: Eviction.State): State
    requires Eviction.Resolved(s)
  {
    State(s.clock, Eviction.TableOf(s))
  }

  /** es2 from s does what es does to the state s stands for: it ends in the state that stands for
      the same, admits as many requests of ip and takes as long. */
  predicate Simulates(cfg: Config, s: Eviction.State, es2: seq<Eviction.Event>, es: seq<Event>, ip: Str)
    requires Eviction.Consistent(cfg, s)
  {
    && Eviction.Runs(cfg, 0.0, s, es2)
    && Eviction.Consistent(cfg, Eviction.Run(cfg, 0.0, s, es2))
    && Seen(Eviction.Run(cfg, 0.0, s, es2)) == Run(cfg, Seen(s), es)
    && Windows.GrantedDuring(cfg, 0.0, s, es2, ip) == Admitted(cfg, Seen(s), es, ip)
    && Windows.Length(es2) == Duration(es)
  }

  /** Ticks of the clock and of the reaper admit nothing and are the same in both. */
  lemma QuietSimulates(cfg: Config, s: Eviction.State, e2: Eviction.Event, e: Event, es2: seq<Eviction.Event>, es: seq<Event>,
                       ip: Str)
    requires cfg.Valid() && Eviction.Consistent(cfg, s) && !e2.Spend? && !e.Ask? && Eviction.Enabled(0.0, s, e2)
    requires Windows.Span(e2) == Elapsed(e)
    requires var s' := Eviction.Step(cfg, 0.0, s, e2);
             Eviction.Consistent(cfg, s') && Seen(s') == Step(cfg, Seen(s), e) && Simulates(cfg, s', es2, es, ip)
    ensures Simulates(cfg, s, [e2] + es2, [e] + es, ip)
  {
    QuietFirst(cfg, s, e2, es2, ip);
    OneThen(cfg, Seen(s), e, es, ip);
    LengthThen(e2, es2);
  }

  lemma QuietFirst(cfg: Config, s: Eviction.State, e2: Eviction.Event, es2: seq<Eviction.Event>, ip: Str)
    requires !e2.Spend? && Eviction.Enabled(0.0, s, e2)
    requires Eviction.Runs(cfg, 0.0, Eviction.Step(cfg, 0.0, s, e2), es2)
    ensures var s' := Eviction.Step(cfg, 0.0, s, e2);
            && Eviction.Runs(cfg, 0.0, s, [e2] + es2)
            && Eviction.Run(cfg, 0.0, s, [e2] + es2) == Eviction.Run(cfg, 0.0, s', es2)
            && Windows.GrantedDuring(cfg, 0.0, s, [e2] + es2, ip) == Windows.GrantedDuring(cfg, 0.0, s', es2, ip)
  {
    Eviction.QuietThen(cfg, 0.0, s, e2, es2);
    Eviction.OneThen(cfg, 0.0, s, e2, es2);
  }

  lemma LengthThen(e2: Eviction.Event, es2: seq<Eviction.Event>)
    ensures Windows.Length([e2] + es2) == Windows.Span(e2) + Windows.Length(es2)
  {
    assert ([e2] + es2)[1..] == es2;
  }

  lemma OneThen(cfg: Config, s: State, e: Event, es: seq<Event>, ip: Str)
    ensures Run(cfg, s, [e] + es) == Run(cfg, Step(cfg, s, e), es)
    ensures Admitted(cfg, s, [e] + es, ip) == AdmittedAt(cfg, s, e, ip) + Admitted(cfg, Step(cfg, s, e), es, ip)
    ensures Duration([e] + es) == Elapsed(e) + Duration(es)
  {
    assert ([e] + es)[1..] == es;
  }

  lemma TickSeen(cfg: Config, s: Eviction.State, dt: real)
    requires cfg.Valid() && Eviction.Consistent(cfg, s) && dt >= 0.0
    ensures var s' := Eviction.Step(cfg, 0.0, s, Eviction.Tick(dt));
            Eviction.Consistent(cfg, s') && Seen(s') == Step(cfg, Seen(s), Tick(dt)) && s'.nextFlight == s.nextFlight
  {
    Eviction.StepConsistent(cfg, 0.0, s, Eviction.Tick(dt));
    assert Eviction.TableOf(s.(clock := s.clock + dt)) == Eviction.TableOf(s);
  }

  lemma ReapSeen(cfg: Config, s: Eviction.State)
    requires cfg.Valid() && Eviction.Consistent(cfg, s)
    ensures var s' := Eviction.Step(cfg, 0.0, s, Eviction.ReaperTick);
            Eviction.Consistent(cfg, s') && Seen(s') == Step(cfg, Seen(s), ReaperTick) && s'.nextFlight == s.nextFlight
  {
    Eviction.StepConsistent(cfg, 0.0, s, Eviction.ReaperTick);
    Eviction.ReaperTickIsReap(cfg, 0.0, s);
  }

  lemma AskSeen(cfg: Config, s: Eviction.State, ip: Str)
    requires cfg.Valid() && Eviction.Consistent(cfg, s)
    ensures var s1 := Eviction.Step(cfg, 0.0, s, Eviction.Get(ip));
            && Eviction.Enabled(0.0, s1, Eviction.Spend(s.nextFlight))
            && var s2 := Eviction.Step(cfg, 0.0, s1, Eviction.Spend(s.nextFlight));
               && Eviction.Consistent(cfg, s2) && Seen(s2) == Step(cfg, Seen(s), Ask(ip)) && s2.nextFlight == s.nextFlight + 1
  {
    Eviction.GetThenSpendIsRequest(cfg, 0.0, s, ip);
    Eviction.StepConsistent(cfg, 0.0, s, Eviction.Get(ip));
    Eviction.StepConsistent(cfg, 0.0, Eviction.Step(cfg, 0.0, s, Eviction.Get(ip)), Eviction.Spend(s.nextFlight));
  }

  lemma AskSimulates(cfg: Config, s: Eviction.State, ip': Str, es2: seq<Eviction.Event>, es: seq<Event>, ip: Str)
    requires cfg.Valid() && Eviction.Consistent(cfg, s)
    requires var s1 := Eviction.Step(cfg, 0.0, s, Eviction.Get(ip'));
             && Eviction.Enabled(0.0, s1, Eviction.Spend(s.nextFlight))
             && var s2 := Eviction.Step(cfg, 0.0, s1, Eviction.Spend(s.nextFlight));
                Eviction.Consistent(cfg, s2) && Seen(s2) == Step(cfg, Seen(s), Ask(ip')) && Simulates(cfg, s2, es2, es, ip)
    ensures Simulates(cfg, s, [Eviction.Get(ip')] + ([Eviction.Spend(s.nextFlight)] + es2), [Ask(ip')] + es, ip)
  {
    var spend := Eviction.Spend(s.nextFlight);
    AskThen(cfg, s, ip', es2, ip);
    OneThen(cfg, Seen(s), Ask(ip'), es, ip);
    LengthOfAsk(Eviction.Get(ip'), spend, es2);
  }

  lemma LengthOfAsk(get: Eviction.Event, spend: Eviction.Event, es2: seq<Eviction.Event>)
    requires !get.Tick? && !spend.Tick?
    ensures Windows.Length([get] + ([spend] + es2)) == Windows.Length(es2)
  {
    LengthThen(spend, es2);
    LengthThen(get, [spend] + es2);
  }

  lemma AskThen(cfg: Config, s: Eviction.State, ip': Str, es2: seq<Eviction.Event>, ip: Str)
    requires cfg.Valid() && Eviction.Consistent(cfg, s)
    requires var s1 := Eviction.Step(cfg, 0.0, s, Eviction.Get(ip'));
             && Eviction.Enabled(0.0, s1, Eviction.Spend(s.nextFlight))
             && Eviction.Runs(cfg, 0.0, Eviction.Step(cfg, 0.0, s1, Eviction.Spend(s.nextFlight)), es2)
    ensures var s2 := Eviction.Step(cfg, 0.0, Eviction.Step(cfg, 0.0, s, Eviction.Get(ip')), Eviction.Spend(s.nextFlight));
            var all := [Eviction.Get(ip')] + ([Eviction.Spend(s.nextFlight)] + es2);
            && Eviction.Runs(cfg, 0.0, s, all) && Eviction.Run(cfg, 0.0, s, all) == Eviction.Run(cfg, 0.0, s2, es2)
            && Windows.GrantedDuring(cfg, 0.0, s, all, ip) ==
               AdmittedAt(cfg, Seen(s), Ask(ip'), ip) + Windows.GrantedDuring(cfg, 0.0, s2, es2, ip)
  {
    var s1 := Eviction.Step(cfg, 0.0, s, Eviction.Get(ip'));
    var spend := Eviction.Spend(s.nextFlight);
    Eviction.GetThenSpendIsRequest(cfg, 0.0, s, ip');
    Eviction.OneThen(cfg, 0.0, s1, spend, es2);
    Eviction.OneThen(cfg, 0.0, s, Eviction.Get(ip'), [spend] + es2);
    Eviction.QuietThen(cfg, 0.0, s, Eviction.Get(ip'), [spend] + es2);
    Windows.GrantedFirst(Eviction.DecisionOf(cfg, 0.0, s1, spend)[0],
                         Eviction.Trace(cfg, 0.0, Eviction.Step(cfg, 0.0, s1, spend), es2), ip);
  }

  lemma TwoStepsOf(e: Event, es: seq<Event>, next: nat)
    ensures TwoSteps([e] + es, next) ==
            match e
            case Tick(dt) => [Eviction.Tick(dt)] + TwoSteps(es, next)
            case Ask(ip) => [Eviction.Get(ip)] + ([Eviction.Spend(next)] + TwoSteps(es, next + 1))
            case ReaperTick => [Eviction.ReaperTick] + TwoSteps(es, next)
  {
    assert ([e] + es)[1..] == es;
  }

  /** The state after the two-step events of e. */
  function Stepped(cfg: Config, s: Eviction.State, e: Event): Eviction.State
    requires cfg.Valid() && Eviction.Consistent(cfg, s) && (e.Tick? ==> e.dt >= 0.0)
  {
    match e
    case Tick(dt) => Eviction.Step(cfg, 0.0, s, Eviction.Tick(dt))
    case Ask(ip) =>
      AskSeen(cfg, s, ip);
      Eviction.Step(cfg, 0.0, Eviction.Step(cfg, 0.0, s, Eviction.Get(ip)), Eviction.Spend(s.nextFlight))
    case ReaperTick => Eviction.Step(cfg, 0.0, s, Eviction.ReaperTick)
  }

  lemma StepSeen(cfg: Config, s: Eviction.State, e: Event)
    requires cfg.Valid() && Eviction.Consistent(cfg, s) && (e.Tick? ==> e.dt >= 0.0)
    ensures var s' := Stepped(cfg, s, e);
            && Eviction.Consistent(cfg, s') && Seen(s') == Step(cfg, Seen(s), e)
            && s'.nextFlight == s.nextFlight + (if e.Ask? then 1 else 0)
  {
    match e
    case Tick(dt) => TickSeen(cfg, s, dt);
    case Ask(ip) => AskSeen(cfg, s, ip);
    case ReaperTick => ReapSeen(cfg, s);
  }

  lemma FirstSimulates(cfg: Config, s: Eviction.State, e: Event, es: seq<Event>, ip: Str)
    requires cfg.Valid() && Eviction.Consistent(cfg, s) && (e.Tick? ==> e.dt >= 0.0)
    requires var s' := Stepped(cfg, s, e);
             && Eviction.Consistent(cfg, s') && Seen(s') == Step(cfg, Seen(s), e)
             && s'.nextFlight == s.nextFlight + (if e.Ask? then 1 else 0)
             && Simulates(cfg, s', TwoSteps(es, s'.nextFlight), es, ip)
    ensures Simulates(cfg, s, TwoSteps([e] + es, s.nextFlight), [e] + es, ip)
  {
    TwoStepsOf(e, es, s.nextFlight);
    var rest := TwoSteps(es, Stepped(cfg, s, e).nextFlight);
    match e
    case Tick(dt) => QuietSimulates(cfg, s, Eviction.Tick(dt), e, rest, es, ip);
    case Ask(ip') =>
      AskSeen(cfg, s, ip');
      AskSimulates(cfg, s, ip', rest, es, ip);
    case ReaperTick => QuietSimulates(cfg, s, Eviction.ReaperTick, e, rest, es, ip);
  }

  /** Every one-step run is a two-step run without delays. */
  lemma {:induction false} RunSimulates(cfg: Config, s: Eviction.State, es: seq<Event>, ip: Str)
    requires cfg.Valid() && Eviction.Consistent(cfg, s) && Forward(es)
    ensures Simulates(cfg, s, TwoSteps(es, s.nextFlight), es, ip)
    decreases |es|
  {
    if es != [] {
      assert es == [es[0]] + es[1..] && es[0] in es;
      StepSeen(cfg, s, es[0]);
      RunSimulates(cfg, Stepped(cfg, s, es[0]), es[1..], ip);
      FirstSimulates(cfg, s, es[0], es[1..], ip);
    }
  }

  // ---- the bounds ----

  /** The two-step runs behind a run and a window after it. */
  lemma WindowSimulates(cfg: Config, start: real, before: seq<Event>, window: seq<Event>, ip: Str)
    returns (before2: seq<Eviction.Event>, window2: seq<Eviction.Event>)
    requires cfg.Valid() && Forward(before) && Forward(window)
    ensures Eviction.Runs(cfg, 0.0, Eviction.Init(start), before2)
    ensures var s := Eviction.Run(cfg, 0.0, Eviction.Init(start), before2);
            && Eviction.Runs(cfg, 0.0, s, window2)
            && Windows.GrantedDuring(cfg, 0.0, s, window2, ip) ==
               Admitted(cfg, Run(cfg, State(start, map[]), before), window, ip)
            && Windows.Length(window2) == Duration(window)
  {
    var s0 := Eviction.Init(start);
    assert Seen(s0) == State(start, map[]);
    before2 := TwoSteps(before, 0);
    RunSimulates(cfg, s0, before, ip);
    var s := Eviction.Run(cfg, 0.0, s0, before2);
    window2 := TwoSteps(window, s.nextFlight);
    RunSimulates(cfg, s, window, ip);
  }

  /** In any window of any run an address is admitted at most a burst, the refill, and one more
      burst for every whole ttl in the window. */
  lemma WindowBound(cfg: Config, start: real, before: seq<Event>, window: seq<Event>, ip: Str)
    requires cfg.Valid() && Forward(before) && Forward(window)
    ensures Admitted(cfg, Run(cfg, State(start, map[]), before), window, ip) as real
            <= Bursts(cfg, 1 + Periods(cfg, Duration(window))) + cfg.rps * Duration(window)
  {
    var before2, window2 := WindowSimulates(cfg, start, before, window, ip);
    Windows.SlowWindowBound(cfg, 0.0, start, before2, window2, ip);
    Windows.OneAtATime(cfg, 0.0, Duration(window));
    assert Duration(window) + 0.0 == Duration(window);
  }

  /** When a bucket refills within the ttl, evictions cost nothing: the bound is the bucket's own. */
  lemma TightWindowBound(cfg: Config, start: real, before: seq<Event>, window: seq<Event>, ip: Str)
    requires cfg.Valid() && Forward(before) && Forward(window)
    requires cfg.burst as real <= cfg.rps * cfg.ttl
    ensures Admitted(cfg, Run(cfg, State(start, map[]), before), window, ip) as real
            <= Windows.TokenBudget(cfg, cfg.burst as real, Duration(window))
  {
    RefillsAtOnce(cfg);
    TightSimulated(cfg, start, before, window, ip);
  }

  lemma TightSimulated(cfg: Config, start: real, before: seq<Event>, window: seq<Event>, ip: Str)
    requires cfg.Valid() && Forward(before) && Forward(window) && Eviction.RefillsBeforeEviction(cfg, 0.0)
    ensures Admitted(cfg, Run(cfg, State(start, map[]), before), window, ip) as real
            <= Windows.TokenBudget(cfg, cfg.burst as real, Duration(window))
  {
    var before2, window2 := WindowSimulates(cfg, start, before, window, ip);
    Windows.TightSlowWindowBound(cfg, 0.0, start, before2, window2, ip);
  }

  lemma RefillsAtOnce(cfg: Config)
    requires cfg.Valid() && cfg.burst as real <= cfg.rps * cfg.ttl
    ensures Eviction.RefillsBeforeEviction(cfg, 0.0)
  {
    assert cfg.ttl - 0.0 == cfg.ttl;
  }
}
