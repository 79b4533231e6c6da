/** The circuit breaker as a protocol of atomic steps shared by any number of requests
    (src/microservice-essentials/reliability/circuit-breaker-request-hook.cpp:26-94). */
module CircuitBreaker {
  import opened Statuses
  import opened UInt32

  datatype CircuitBreakerStatus = CLOSED | OPEN

  type Counters = map<string, nat>

  function Count(c: Counters, name: string): nat {
    if name in c then c[name] else 0
  }

  function Incremented(c: Counters, name: string): Counters {
    c[name := Succ(Count(c, name))]
  }

  function Decremented(c: Counters, name: string): Counters {
    c[name := Pred(Count(c, name))]
  }

  function StatusOf(c: Counters, max: nat, name: string): CircuitBreakerStatus {
    if Count(c, name) > max then OPEN else CLOSED
  }

  // Each method runs under the strategy's lock; name is the context's "request" entry, or "UNKNOWN"
  class MaxPendingRequestsStrategy {
    const maxPending: nat
    var requestData: Counters

    constructor (maxPending: nat)
      requires maxPending < UINT32
      ensures this.maxPending == maxPending && requestData == map[]
    {
      this.maxPending, requestData := maxPending, map[];
    }

    method GetStatus(name: string) returns (status: CircuitBreakerStatus)
      ensures status == StatusOf(requestData, maxPending, name)
      ensures status == OPEN <==> name in requestData && requestData[name] > maxPending
    {
      if name in requestData {
        if requestData[name] > maxPending {
          return OPEN;
        }
      }
      return CLOSED;
    }

    method PreProcess(name: string)
      modifies this
      ensures requestData == Incremented(old(requestData), name)
      ensures var was := old(Count(requestData, name));
              was < 0x1_0000_0000 ==> Count(requestData, name) == (was + 1) % 0x1_0000_0000
      ensures forall n :: n != name ==> Count(requestData, n) == old(Count(requestData, n))
    {
      if name !in requestData {
        requestData := requestData[name := 0];
      }
      requestData := requestData[name := Succ(requestData[name])];
    }

    method PostProcess(name: string)
      modifies this
      ensures requestData == Decremented(old(requestData), name)
      ensures var was := old(Count(requestData, name));
              was < 0x1_0000_0000 ==> Count(requestData, name) == (was + 0xFFFF_FFFF) % 0x1_0000_0000
      ensures forall n :: n != name ==> Count(requestData, n) == old(Count(requestData, n))
    {
      if name !in requestData {
        requestData := requestData[name := 0];
      }
      requestData := requestData[name := Pred(requestData[name])];
    }
  }

  class CircuitBreakerRequestHook {
    const strategy: MaxPendingRequestsStrategy
    const errorStatus: Status

    constructor (strategy: MaxPendingRequestsStrategy, errorStatus: Status)
      ensures this.strategy == strategy && this.errorStatus == errorStatus
    {
      this.strategy, this.errorStatus := strategy, errorStatus;
    }

    /** Takes the transition system's steps of one request; without interference an admitted request stays counted
        and a refused one does not. */
    method PreProcess(name: string) returns (s: Status)
      requires forall n :: n in strategy.requestData ==> strategy.requestData[n] < UINT32
      modifies strategy
      ensures var alone := Alone(Config(strategy.maxPending, errorStatus), old(strategy.requestData), name);
              && strategy.requestData == alone.counters
              && s == if alone.reqs[0].phase.Admitted? then OK else errorStatus
      ensures var was, now := old(Count(strategy.requestData, name)), Count(strategy.requestData, name);
              if Succ(was) > strategy.maxPending then s == errorStatus && now == was
              else s == OK && now == Succ(was)
      ensures forall n :: n != name ==> Count(strategy.requestData, n) == old(Count(strategy.requestData, n))
    {
      strategy.PreProcess(name);
      var status := strategy.GetStatus(name);
      match status
      case CLOSED =>
        return OK;
      case OPEN =>
        strategy.PostProcess(name);
        return errorStatus;
    }

    method PostProcess(name: string, status: Status) returns (s: Status)
      modifies strategy
      ensures s == status
      ensures strategy.requestData == Decremented(old(strategy.requestData), name)
    {
      strategy.PostProcess(name);
      return status;
    }
  }

  // ---------------------------------------------------------------------
  // Many requests, interleaved between the locked steps

  /** Counted: pre_process has incremented. Refused: OPEN was read, not decremented yet. Admitted: CLOSED was
      read. Uncounted: refused and decremented, but with an error status that is OK, so that the function runs
      all the same. Done: over, and the counter is as before. Lost: over without the decrement, because the
      function returned the reserved code. Doubled: over and decremented twice. */
  datatype Phase = Counted | Refused | Admitted | Uncounted | Done | Lost | Doubled {
    predicate Over() { Done? || Lost? || Doubled? }
  }

  datatype Req = Req(name: string, phase: Phase)

  datatype Config = Config(max: nat, errorStatus: Status)

  datatype Sys = Sys(counters: Counters, reqs: seq<Req>)

  datatype Step = Arrive(name: string) | Read(id: nat) | GiveUp(id: nat) | Finish(id: nat, outcome: Outcome)

  const INIT := Sys(map[], [])

  predicate Enabled(s: Sys, step: Step) {
    match step
    case Arrive(_) => true
    case Read(id) => id < |s.reqs| && s.reqs[id].phase == Counted
    case GiveUp(id) => id < |s.reqs| && s.reqs[id].phase == Refused
    case Finish(id, _) => id < |s.reqs| && (s.reqs[id].phase == Admitted || s.reqs[id].phase == Uncounted)
  }

  function PhaseAfter(phase: Phase, outcome: Outcome): Phase {
    if ReachesPost(outcome) then (if phase.Admitted? then Done else Doubled)
    else (if phase.Admitted? then Lost else Done)
  }

  function Next(cfg: Config, s: Sys, step: Step): Sys
    requires Enabled(s, step)
  {
    match step
    case Arrive(name) =>
      Sys(Incremented(s.counters, name), s.reqs + [Req(name, Counted)])
    case Read(id) =>
      var open := StatusOf(s.counters, cfg.max, s.reqs[id].name).OPEN?;
      s.(reqs := s.reqs[id := s.reqs[id].(phase := if open then Refused else Admitted)])
    case GiveUp(id) =>
      Sys(Decremented(s.counters, s.reqs[id].name),
          s.reqs[id := s.reqs[id].(phase := if cfg.errorStatus.IsOk() then Uncounted else Done)])
    case Finish(id, outcome) =>
      Sys(if ReachesPost(outcome) then Decremented(s.counters, s.reqs[id].name) else s.counters,
          s.reqs[id := s.reqs[id].(phase := PhaseAfter(s.reqs[id].phase, outcome))])
  }

  /** What each step does to its request and to the counter of its name. The decrement after the function is
      left out exactly when that returned the reserved code. */
  lemma StepMeans(cfg: Config, s: Sys, step: Step)
    requires Enabled(s, step)
    ensures var t := Next(cfg, s, step);
            match step
            case Arrive(name) =>
              t.reqs == s.reqs + [Req(name, Counted)] && t.counters == s.counters[name := Succ(Count(s.counters, name))]
            case Read(id) =>
              var name := s.reqs[id].name;
              var open := name in s.counters && s.counters[name] > cfg.max;
              t.counters == s.counters && t.reqs == s.reqs[id := Req(name, if open then Refused else Admitted)]
            case GiveUp(id) =>
              var name := s.reqs[id].name;
              && t.counters == s.counters[name := Pred(Count(s.counters, name))]
              && t.reqs == s.reqs[id := Req(name, if cfg.errorStatus.code == Ok then Uncounted else Done)]
            case Finish(id, o) =>
              var Req(name, phase) := s.reqs[id];
              if o.Returned? && o.status.code == Invalid then
                t.counters == s.counters && t.reqs == s.reqs[id := Req(name, if phase == Admitted then Lost else Done)]
              else
                && t.counters == s.counters[name := Pred(Count(s.counters, name))]
                && t.reqs == s.reqs[id := Req(name, if phase == Admitted then Done else Doubled)]
  {
  }

  predicate IsRun(cfg: Config, steps: seq<Step>)
    decreases |steps|, 0
  {
    steps == [] ||
    (IsRun(cfg, steps[..|steps| - 1]) && Enabled(After(cfg, steps[..|steps| - 1]), steps[|steps| - 1]))
  }

  function After(cfg: Config, steps: seq<Step>): Sys
    requires IsRun(cfg, steps)
    decreases |steps|, 1
  {
    if steps == [] then INIT else Next(cfg, After(cfg, steps[..|steps| - 1]), steps[|steps| - 1])
  }

  /** The steps of one request that nobody interferes with, up to the answer of pre_process. */
  function Alone(cfg: Config, c: Counters, name: string): (s: Sys)
    ensures |s.reqs| == 1
  {
    var read := Next(cfg, Next(cfg, Sys(c, []), Arrive(name)), Read(0));
    if read.reqs[0].phase == Refused then Next(cfg, read, GiveUp(0)) else read
  }

  // ---------------------------------------------------------------------
  // Counting the requests of one name

  datatype Measure = Net | InFlight | Executing | Losses | Doubles

  function Share(m: Measure, p: Phase): int {
    match m
    case Net => if p.Counted? || p.Refused? || p.Admitted? || p.Lost? then 1 else if p.Doubled? then -1 else 0
    case InFlight => if p.Counted? || p.Refused? || p.Admitted? then 1 else 0
    case Executing => if p.Admitted? || p.Uncounted? then 1 else 0
    case Losses => if p.Lost? then 1 else 0
    case Doubles => if p.Doubled? then 1 else 0
  }

  function Sum(m: Measure, reqs: seq<Req>, name: string): int {
    if reqs == [] then 0
    else Sum(m, reqs[..|reqs| - 1], name)
         + (if reqs[|reqs| - 1].name == name then Share(m, reqs[|reqs| - 1].phase) else 0)
  }

  lemma {:induction false} SumUpdate(m: Measure, reqs: seq<Req>, i: nat, p: Phase, name: string)
    requires i < |reqs|
    ensures Sum(m, reqs[i := reqs[i].(phase := p)], name)
            == Sum(m, reqs, name) + (if reqs[i].name == name then Share(m, p) - Share(m, reqs[i].phase) else 0)
  {
    var n := |reqs| - 1;
    var changed := reqs[i := reqs[i].(phase := p)];
    if i < n {
      assert changed[..n] == reqs[..n][i := reqs[i].(phase := p)];
      SumUpdate(m, reqs[..n], i, p, name);
    } else {
      assert changed[..n] == reqs[..n];
    }
  }

  lemma SumAppend(m: Measure, reqs: seq<Req>, r: Req, name: string)
    ensures Sum(m, reqs + [r], name) == Sum(m, reqs, name) + (if r.name == name then Share(m, r.phase) else 0)
  {
    assert (reqs + [r])[..|reqs|] == reqs;
  }

  /** How one step changes a sum: only the stepping request's name, by its change of share. */
  lemma StepChangesSum(cfg: Config, s: Sys, step: Step, m: Measure, name: string)
    requires Enabled(s, step)
    ensures var t := Next(cfg, s, step);
            Sum(m, t.reqs, name) - Sum(m, s.reqs, name)
            == if step.Arrive? then (if step.name == name then Share(m, Counted) else 0)
               else if s.reqs[step.id].name == name
                    then Share(m, t.reqs[step.id].phase) - Share(m, s.reqs[step.id].phase)
               else 0
  {
    if step.Arrive? {
      SumAppend(m, s.reqs, Req(step.name, Counted), name);
    } else {
      SumUpdate(m, s.reqs, step.id, Next(cfg, s, step).reqs[step.id].phase, name);
    }
  }

  lemma {:induction false} NetSplits(reqs: seq<Req>, name: string)
    ensures Sum(Net, reqs, name) == Sum(InFlight, reqs, name) + Sum(Losses, reqs, name) - Sum(Doubles, reqs, name)
    ensures Sum(InFlight, reqs, name) >= 0 && Sum(Losses, reqs, name) >= 0 && Sum(Doubles, reqs, name) >= 0
  {
    if reqs != [] {
      NetSplits(reqs[..|reqs| - 1], name);
    }
  }

  ghost predicate CountsNet(s: Sys, name: string) {
    Count(s.counters, name) == Wrapped(Sum(Net, s.reqs, name))
  }

  lemma StepKeepsCount(cfg: Config, s: Sys, step: Step, name: string)
    requires Enabled(s, step) && CountsNet(s, name)
    ensures CountsNet(Next(cfg, s, step), name)
  {
    StepChangesSum(cfg, s, step, Net, name);
    WrapAround(Sum(Net, s.reqs, name));
  }

  lemma {:induction false} RunsCountNet(cfg: Config, steps: seq<Step>, name: string)
    requires IsRun(cfg, steps)
    ensures CountsNet(After(cfg, steps), name)
  {
    if steps != [] {
      RunsCountNet(cfg, steps[..|steps| - 1], name);
      StepKeepsCount(cfg, After(cfg, steps[..|steps| - 1]), steps[|steps| - 1], name);
    }
  }

  /** In every reachable state of every interleaving, each counter is, modulo 2^32, the number of requests of
      its name in flight, plus the counts lost, minus the double decrements. */
  lemma {:induction false} CounterIsNetSum(cfg: Config, steps: seq<Step>, name: string)
    requires IsRun(cfg, steps)
    ensures var s := After(cfg, steps);
            && Count(s.counters, name) == Wrapped(Sum(Net, s.reqs, name))
            && Sum(Net, s.reqs, name)
               == Sum(InFlight, s.reqs, name) + Sum(Losses, s.reqs, name) - Sum(Doubles, s.reqs, name)
  {
    RunsCountNet(cfg, steps, name);
    NetSplits(After(cfg, steps).reqs, name);
  }

  /** A step of a request leaves the counters of all other names alone. */
  lemma OtherNamesUntouched(cfg: Config, s: Sys, step: Step, name: string)
    requires Enabled(s, step)
    requires name != if step.Arrive? then step.name else s.reqs[step.id].name
    ensures Count(Next(cfg, s, step).counters, name) == Count(s.counters, name)
    ensures StatusOf(Next(cfg, s, step).counters, cfg.max, name) == StatusOf(s.counters, cfg.max, name)
  {
  }

  // ---------------------------------------------------------------------
  // Configurations that decrement at most once

  /** A refused request does not run, or the maximum is so large that nothing is ever refused. */
  predicate Guarded(cfg: Config) {
    !cfg.errorStatus.IsOk() || cfg.max == UINT32 - 1
  }

  ghost predicate Orderly(cfg: Config, s: Sys) {
    && (forall r :: r in s.reqs ==> !r.phase.Uncounted? && !r.phase.Doubled?)
    && (forall k :: k in s.counters ==> s.counters[k] < UINT32)
    && (cfg.errorStatus.IsOk() ==> forall r :: r in s.reqs ==> !r.phase.Refused?)
  }

  lemma StepKeepsOrder(cfg: Config, s: Sys, step: Step)
    requires Guarded(cfg) && Enabled(s, step) && Orderly(cfg, s)
    ensures Orderly(cfg, Next(cfg, s, step))
  {
    if !step.Arrive? {
      assert s.reqs[step.id] in s.reqs;
    }
  }

  lemma {:induction false} RunsAreOrderly(cfg: Config, steps: seq<Step>)
    requires IsRun(cfg, steps) && Guarded(cfg)
    ensures Orderly(cfg, After(cfg, steps))
  {
    if steps != [] {
      RunsAreOrderly(cfg, steps[..|steps| - 1]);
      StepKeepsOrder(cfg, After(cfg, steps[..|steps| - 1]), steps[|steps| - 1]);
    }
  }

  // no request of the name runs uncounted or has been decremented twice
  predicate Clean(reqs: seq<Req>, name: string) {
    forall r :: r in reqs && r.name == name ==> !r.phase.Uncounted? && !r.phase.Doubled?
  }

  lemma {:induction false} NothingDoubled(reqs: seq<Req>, name: string)
    requires Clean(reqs, name)
    ensures Sum(Doubles, reqs, name) == 0
    ensures 0 <= Sum(Executing, reqs, name) <= Sum(InFlight, reqs, name)
  {
    if reqs != [] {
      NothingDoubled(reqs[..|reqs| - 1], name);
      assert reqs[|reqs| - 1] in reqs;
    }
  }

  lemma {:induction false} GuardedNeverDoubles(cfg: Config, steps: seq<Step>, name: string)
    requires IsRun(cfg, steps) && Guarded(cfg)
    ensures Sum(Doubles, After(cfg, steps).reqs, name) == 0
  {
    RunsAreOrderly(cfg, steps);
    NothingDoubled(After(cfg, steps).reqs, name);
  }

  /** Then the counter is the number of requests in flight plus the counts lost. */
  lemma {:induction false} CounterIsInFlightAndLost(cfg: Config, steps: seq<Step>, name: string)
    requires IsRun(cfg, steps) && Guarded(cfg)
    ensures var s := After(cfg, steps);
            Count(s.counters, name) == Wrapped(Sum(InFlight, s.reqs, name) + Sum(Losses, s.reqs, name))
  {
    RunsCountNet(cfg, steps, name);
    GuardedNeverDoubles(cfg, steps, name);
    CountsInFlightAndLost(After(cfg, steps), name);
  }

  lemma CountsInFlightAndLost(s: Sys, name: string)
    requires CountsNet(s, name) && Sum(Doubles, s.reqs, name) == 0
    ensures Count(s.counters, name) == Wrapped(Sum(InFlight, s.reqs, name) + Sum(Losses, s.reqs, name))
  {
    NetSplits(s.reqs, name);
    assert Sum(Net, s.reqs, name) == Sum(InFlight, s.reqs, name) + Sum(Losses, s.reqs, name);
  }

  lemma CounterWithoutWrapAround(s: Sys, name: string)
    requires CountsNet(s, name) && Sum(Net, s.reqs, name) < UINT32 && Clean(s.reqs, name)
    ensures Count(s.counters, name) == Sum(InFlight, s.reqs, name) + Sum(Losses, s.reqs, name)
  {
    NetSplits(s.reqs, name);
    NothingDoubled(s.reqs, name);
  }

  lemma ReadsOpenIff(cfg: Config, s: Sys, id: nat)
    requires Enabled(s, Read(id))
    ensures Next(cfg, s, Read(id)).reqs[id].phase.Refused? <==> Count(s.counters, s.reqs[id].name) > cfg.max
  {
  }

  /** In every state of every run, a request is refused exactly when the net count of its name, itself included,
      exceeds max modulo 2^32. */
  lemma {:induction false} RefusedIff(cfg: Config, steps: seq<Step>, id: nat)
    requires IsRun(cfg, steps) && Enabled(After(cfg, steps), Read(id))
    ensures var s := After(cfg, steps);
            Next(cfg, s, Read(id)).reqs[id].phase.Refused? <==> Wrapped(Sum(Net, s.reqs, s.reqs[id].name)) > cfg.max
  {
    ReadsOpenIff(cfg, After(cfg, steps), id);
    RunsCountNet(cfg, steps, After(cfg, steps).reqs[id].name);
  }

  /** If nothing is decremented twice and 32 bits suffice: exactly when more than max of its name are in
      flight or lost. */
  lemma {:induction false} RefusedIffTooManyInFlight(cfg: Config, steps: seq<Step>, id: nat)
    requires IsRun(cfg, steps) && Guarded(cfg) && Enabled(After(cfg, steps), Read(id))
    requires Sum(Net, After(cfg, steps).reqs, After(cfg, steps).reqs[id].name) < UINT32
    ensures var s := After(cfg, steps);
            var name := s.reqs[id].name;
            Next(cfg, s, Read(id)).reqs[id].phase.Refused?
            <==> Sum(InFlight, s.reqs, name) + Sum(Losses, s.reqs, name) > cfg.max
  {
    var s := After(cfg, steps);
    ReadsOpenIff(cfg, s, id);
    RunsCountNet(cfg, steps, s.reqs[id].name);
    RunsAreOrderly(cfg, steps);
    CounterWithoutWrapAround(s, s.reqs[id].name);
  }

  lemma {:induction false} NothingInFlight(reqs: seq<Req>, name: string)
    requires forall r :: r in reqs ==> r.phase.Over()
    ensures Sum(InFlight, reqs, name) == 0
  {
    if reqs != [] {
      NothingInFlight(reqs[..|reqs| - 1], name);
    }
  }

  // what finished requests have left behind in the counter
  function LeftOver(reqs: seq<Req>, name: string): int {
    Sum(Losses, reqs, name) - Sum(Doubles, reqs, name)
  }

  lemma AtRest(cfg: Config, s: Sys, name: string)
    requires CountsNet(s, name) && (forall r :: r in s.reqs ==> r.phase.Over())
    ensures Count(s.counters, name) == Wrapped(LeftOver(s.reqs, name))
    ensures StatusOf(s.counters, cfg.max, name) == CLOSED <==> Wrapped(LeftOver(s.reqs, name)) <= cfg.max
  {
    NetSplits(s.reqs, name);
    NothingInFlight(s.reqs, name);
    assert Sum(Net, s.reqs, name) == LeftOver(s.reqs, name);
  }

  /** When all requests are over, in any configuration, the counter holds the counts lost minus the double
      decrements, and the status is CLOSED iff that does not exceed max. */
  lemma {:induction false} QuiescentIsClosedIff(cfg: Config, steps: seq<Step>, name: string)
    requires IsRun(cfg, steps) && (forall r :: r in After(cfg, steps).reqs ==> r.phase.Over())
    ensures var s := After(cfg, steps);
            && Count(s.counters, name) == Wrapped(LeftOver(s.reqs, name))
            && (StatusOf(s.counters, cfg.max, name) == CLOSED <==> Wrapped(LeftOver(s.reqs, name)) <= cfg.max)
  {
    RunsCountNet(cfg, steps, name);
    AtRest(cfg, After(cfg, steps), name);
  }

  lemma AtRestWithoutDoubles(cfg: Config, s: Sys, name: string)
    requires CountsNet(s, name) && (forall r :: r in s.reqs ==> r.phase.Over()) && Sum(Doubles, s.reqs, name) == 0
    ensures Count(s.counters, name) == Wrapped(Sum(Losses, s.reqs, name))
    ensures StatusOf(s.counters, cfg.max, name) == CLOSED <==> Wrapped(Sum(Losses, s.reqs, name)) <= cfg.max
  {
    AtRest(cfg, s, name);
    assert LeftOver(s.reqs, name) == Sum(Losses, s.reqs, name);
  }

  /** Without double decrements only the lost counts are left; without these too the counter is back at zero. */
  lemma {:induction false} GuardedQuiescentIsClosedIff(cfg: Config, steps: seq<Step>, name: string)
    requires IsRun(cfg, steps) && Guarded(cfg) && (forall r :: r in After(cfg, steps).reqs ==> r.phase.Over())
    ensures var s := After(cfg, steps);
            && Count(s.counters, name) == Wrapped(Sum(Losses, s.reqs, name))
            && (StatusOf(s.counters, cfg.max, name) == CLOSED <==> Wrapped(Sum(Losses, s.reqs, name)) <= cfg.max)
  {
    RunsCountNet(cfg, steps, name);
    GuardedNeverDoubles(cfg, steps, name);
    AtRestWithoutDoubles(cfg, After(cfg, steps), name);
  }

  // ---------------------------------------------------------------------
  // Counts can be lost

  const RESERVED := Returned(Status(Invalid, ""))

  ghost predicate OnlyLost(s: Sys, name: string, k: nat) {
    && |s.reqs| == k && (forall i :: 0 <= i < k ==> s.reqs[i] == Req(name, Lost))
    && Sum(InFlight, s.reqs, name) == 0 && Sum(Losses, s.reqs, name) == k && Count(s.counters, name) == k
  }

  /** That many counts can be lost one after the other, with at most one request in flight at any time: then all
      requests are over, and the counter is not back at zero. */
  lemma {:induction false} ReservedCodesAreNotCountedDown(cfg: Config, name: string, k: nat) returns (steps: seq<Step>)
    requires k <= cfg.max && k < UINT32
    ensures IsRun(cfg, steps) && OnlyLost(After(cfg, steps), name, k)
  {
    if k == 0 {
      steps := [];
    } else {
      var before := ReservedCodesAreNotCountedDown(cfg, name, k - 1);
      LoseOne(cfg, After(cfg, before), name, k - 1);
      steps := ThreeMore(cfg, before, Arrive(name), Read(k - 1), Finish(k - 1, RESERVED));
    }
  }

  lemma LoseOne(cfg: Config, s: Sys, name: string, id: nat)
    requires OnlyLost(s, name, id) && id < cfg.max && id + 1 < UINT32
    ensures var s1 := Next(cfg, s, Arrive(name));
            && Enabled(s1, Read(id))
            && var s2 := Next(cfg, s1, Read(id));
            && Enabled(s2, Finish(id, RESERVED)) && OnlyLost(Next(cfg, s2, Finish(id, RESERVED)), name, id + 1)
  {
    SumAppend(InFlight, s.reqs, Req(name, Lost), name);
    SumAppend(Losses, s.reqs, Req(name, Lost), name);
    assert Next(cfg, Next(cfg, Next(cfg, s, Arrive(name)), Read(id)), Finish(id, RESERVED)).reqs
        == s.reqs + [Req(name, Lost)];
  }

  // ---------------------------------------------------------------------
  // What the configuration decides

  function Arrivals(n: nat, name: string): (steps: seq<Step>)
    ensures |steps| == n && (forall i :: 0 <= i < n ==> steps[i] == Arrive(name))
  {
    seq(n, i => Arrive(name))
  }

  lemma {:induction false} ArrivalsRun(cfg: Config, n: nat, name: string)
    ensures IsRun(cfg, Arrivals(n, name))
    ensures var s := After(cfg, Arrivals(n, name));
            |s.reqs| == n && forall i :: 0 <= i < n ==> s.reqs[i] == Req(name, Counted)
  {
    if n > 0 {
      ArrivalsRun(cfg, n - 1, name);
      assert Arrivals(n, name)[..n - 1] == Arrivals(n - 1, name);
    }
  }

  lemma {:induction false} AllCounted(reqs: seq<Req>, name: string)
    requires forall i :: 0 <= i < |reqs| ==> reqs[i] == Req(name, Counted)
    ensures Sum(InFlight, reqs, name) == Sum(Net, reqs, name) == |reqs|
    ensures Sum(Losses, reqs, name) == Sum(Doubles, reqs, name) == Sum(Executing, reqs, name) == 0
  {
    if reqs != [] {
      AllCounted(reqs[..|reqs| - 1], name);
    }
  }

  lemma ManyArrive(cfg: Config, n: nat, name: string)
    ensures IsRun(cfg, Arrivals(n, name))
    ensures var s := After(cfg, Arrivals(n, name));
            && |s.reqs| == n && (forall i :: 0 <= i < n ==> s.reqs[i] == Req(name, Counted))
            && Count(s.counters, name) == Wrapped(n)
  {
    ArrivalsRun(cfg, n, name);
    RunsCountNet(cfg, Arrivals(n, name), name);
    AllCounted(After(cfg, Arrivals(n, name)).reqs, name);
  }

  lemma {:induction false} OneMore(cfg: Config, steps: seq<Step>, step: Step)
    requires IsRun(cfg, steps) && Enabled(After(cfg, steps), step)
    ensures IsRun(cfg, steps + [step])
    ensures After(cfg, steps + [step]) == Next(cfg, After(cfg, steps), step)
  {
    assert (steps + [step])[..|steps|] == steps;
  }

  lemma {:induction false} ThreeMore(cfg: Config, steps: seq<Step>, a: Step, b: Step, c: Step)
    returns (longer: seq<Step>)
    requires IsRun(cfg, steps)
    requires Enabled(After(cfg, steps), a)
    requires Enabled(Next(cfg, After(cfg, steps), a), b)
    requires Enabled(Next(cfg, Next(cfg, After(cfg, steps), a), b), c)
    ensures IsRun(cfg, longer)
    ensures After(cfg, longer) == Next(cfg, Next(cfg, Next(cfg, After(cfg, steps), a), b), c)
  {
    OneMore(cfg, steps, a);
    OneMore(cfg, steps + [a], b);
    OneMore(cfg, steps + [a] + [b], c);
    longer := steps + [a] + [b] + [c];
  }

  ghost predicate CountsInFlight(s: Sys, name: string) {
    Count(s.counters, name) == Wrapped(Sum(InFlight, s.reqs, name))
  }

  /** On every run a counter is the number of requests in flight exactly when no count was lost, up to 2^32. */
  ghost predicate OnlyLossesMiscount(cfg: Config) {
    forall steps, name :: IsRun(cfg, steps) ==>
      (CountsInFlight(After(cfg, steps), name) <==> Wrapped(Sum(Losses, After(cfg, steps).reqs, name)) == 0)
  }

  // refused and counted down, and running all the same
  lemma RefusedRunsAnyway(cfg: Config, s: Sys, name: string)
    requires cfg.errorStatus.IsOk() && s.reqs != [] && s.reqs[0] == Req(name, Counted)
    requires cfg.max < Count(s.counters, name)
    ensures Enabled(s, Read(0))
    ensures var s1 := Next(cfg, s, Read(0));
            && s1.reqs == s.reqs[0 := Req(name, Refused)] && Enabled(s1, GiveUp(0))
            && Next(cfg, s1, GiveUp(0)).reqs == s.reqs[0 := Req(name, Uncounted)]
  {
  }

  // and counted down again
  lemma UncountedIsDoubled(cfg: Config, s: Sys, name: string)
    requires s.reqs != [] && s.reqs[0] == Req(name, Uncounted)
    ensures Enabled(s, Finish(0, Returned(OK)))
    ensures Next(cfg, s, Finish(0, Returned(OK))).reqs == s.reqs[0 := Req(name, Doubled)]
  {
  }

  // n requests, all but the first one of which have only been counted
  predicate FirstIs(reqs: seq<Req>, name: string, n: nat, first: Phase) {
    |reqs| == n > 0 && reqs[0] == Req(name, first) && forall i :: 0 < i < n ==> reqs[i] == Req(name, Counted)
  }

  /** The first of max + 1 requests is refused and runs all the same. */
  lemma RefuseFirst(cfg: Config, name: string) returns (steps: seq<Step>)
    requires cfg.max < UINT32 - 1 && cfg.errorStatus.IsOk()
    ensures IsRun(cfg, steps)
    ensures FirstIs(After(cfg, steps).reqs, name, cfg.max + 1, Uncounted)
  {
    var arrived := Arrivals(cfg.max + 1, name);
    ManyArrive(cfg, cfg.max + 1, name);
    RefusedRunsAnyway(cfg, After(cfg, arrived), name);
    OneMore(cfg, arrived, Read(0));
    OneMore(cfg, arrived + [Read(0)], GiveUp(0));
    steps := arrived + [Read(0)] + [GiveUp(0)];
  }

  lemma {:induction false} SumsAfterFirst(m: Measure, reqs: seq<Req>, name: string, n: nat, first: Phase)
    requires FirstIs(reqs, name, n, first)
    ensures Sum(m, reqs, name) == (if m.Net? || m.InFlight? then n - 1 else 0) + Share(m, first)
  {
    var all := reqs[0 := Req(name, Counted)];
    AllCounted(all, name);
    SumUpdate(m, all, 0, first, name);
    assert reqs == all[0 := all[0].(phase := first)];
  }

  /** With an error status that is OK a refused request is counted down twice. */
  lemma RefusedAndOkCountsDownTwice(cfg: Config, name: string) returns (steps: seq<Step>)
    requires cfg.max < UINT32 - 1 && cfg.errorStatus.IsOk()
    ensures IsRun(cfg, steps)
    ensures var s := After(cfg, steps);
            && Sum(InFlight, s.reqs, name) == cfg.max && Sum(Losses, s.reqs, name) == 0
            && Sum(Doubles, s.reqs, name) == 1
  {
    var before := RefuseFirst(cfg, name);
    UncountedIsDoubled(cfg, After(cfg, before), name);
    OneMore(cfg, before, Finish(0, Returned(OK)));
    steps := before + [Finish(0, Returned(OK))];
    SumsAfterFirst(InFlight, After(cfg, steps).reqs, name, cfg.max + 1, Doubled);
    SumsAfterFirst(Losses, After(cfg, steps).reqs, name, cfg.max + 1, Doubled);
    SumsAfterFirst(Doubles, After(cfg, steps).reqs, name, cfg.max + 1, Doubled);
  }

  /** A run counts rightly iff losses and double decrements cancel out. */
  lemma {:induction false} CountsRightlyIff(cfg: Config, steps: seq<Step>, name: string)
    requires IsRun(cfg, steps)
    ensures var s := After(cfg, steps);
            CountsInFlight(s, name) <==> Wrapped(Sum(Losses, s.reqs, name) - Sum(Doubles, s.reqs, name)) == 0
  {
    RunsCountNet(cfg, steps, name);
    CountsRightlyStateIff(After(cfg, steps), name);
  }

  lemma CountsRightlyStateIff(s: Sys, name: string)
    requires CountsNet(s, name)
    ensures CountsInFlight(s, name) <==> Wrapped(Sum(Losses, s.reqs, name) - Sum(Doubles, s.reqs, name)) == 0
  {
    var flying, rest := Sum(InFlight, s.reqs, name), Sum(Losses, s.reqs, name) - Sum(Doubles, s.reqs, name);
    NetSplits(s.reqs, name);
    assert Sum(Net, s.reqs, name) == flying + rest;
    UnnoticedIff(flying, rest);
  }

  /** Over all runs, whatever the wrapped functions return: lost counts are the only cause of a wrong counter
      exactly when the configured error status is not OK, or the maximum is the largest number. */
  lemma ConservesIff(cfg: Config)
    requires cfg.max < UINT32
    ensures OnlyLossesMiscount(cfg) <==> Guarded(cfg)
  {
    if Guarded(cfg) {
      forall steps, name | IsRun(cfg, steps)
        ensures CountsInFlight(After(cfg, steps), name) <==> Wrapped(Sum(Losses, After(cfg, steps).reqs, name)) == 0
      {
        CountsRightlyIff(cfg, steps, name);
        GuardedNeverDoubles(cfg, steps, name);
      }
    } else {
      var steps := RefusedAndOkCountsDownTwice(cfg, "request");
      CountsRightlyIff(cfg, steps, "request");
    }
  }

  lemma {:induction false} ReadersRefused(cfg: Config, n: nat, name: string, k: nat) returns (steps: seq<Step>)
    requires cfg.max < n < UINT32 && k <= n
    ensures IsRun(cfg, steps)
    ensures var s := After(cfg, steps);
            && |s.reqs| == n && Count(s.counters, name) == n
            && (forall i :: 0 <= i < n ==> s.reqs[i] == Req(name, if i < k then Refused else Counted))
  {
    if k == 0 {
      ManyArrive(cfg, n, name);
      steps := Arrivals(n, name);
    } else {
      var before := ReadersRefused(cfg, n, name, k - 1);
      OneMore(cfg, before, Read(k - 1));
      steps := before + [Read(k - 1)];
    }
  }

  /** Refusal is not a sign that max requests are running: max + 1 requests that arrive together can all be
      refused while none runs. */
  lemma AllCanBeRefused(cfg: Config, name: string) returns (steps: seq<Step>)
    requires cfg.max < UINT32 - 1
    ensures IsRun(cfg, steps)
    ensures |After(cfg, steps).reqs| == cfg.max + 1
    ensures forall r :: r in After(cfg, steps).reqs ==> r.phase.Refused?
  {
    steps := ReadersRefused(cfg, cfg.max + 1, name, cfg.max + 1);
  }
}
