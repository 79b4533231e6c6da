/** What the circuit breaker guarantees as long as no more than so many requests of a name are in flight or lost,
    and for exactly which numbers it does
    (src/microservice-essentials/reliability/circuit-breaker-request-hook.cpp:26-94). */
module BreakerLimits {
  import opened Statuses
  import opened UInt32
  import opened CircuitBreaker

  // at every moment of the run the net count of the name is at most bound
  ghost predicate Fits(cfg: Config, steps: seq<Step>, name: string, bound: nat)
    requires IsRun(cfg, steps)
  {
    Sum(Net, After(cfg, steps).reqs, name) <= bound
    && (steps != [] ==> Fits(cfg, steps[..|steps| - 1], name, bound))
  }

  /** Nothing is decremented twice and 32 bits suffice, or nothing is ever refused. */
  predicate Reliable(cfg: Config, bound: nat) {
    (Guarded(cfg) && bound < UINT32) || bound <= cfg.max
  }

  // ---------------------------------------------------------------------
  // Within the limits

  predicate NoneRefused(reqs: seq<Req>, name: string) {
    forall r :: r in reqs && r.name == name ==> !r.phase.Refused? && !r.phase.Uncounted? && !r.phase.Doubled?
  }

  // a name that never has more than max requests is never refused
  lemma StepRefusesNone(cfg: Config, s: Sys, step: Step, name: string)
    requires Enabled(s, step) && NoneRefused(s.reqs, name)
    requires CountsNet(s, name) && Sum(Net, s.reqs, name) <= cfg.max < UINT32
    ensures NoneRefused(Next(cfg, s, step).reqs, name)
  {
    if !step.Arrive? {
      assert s.reqs[step.id] in s.reqs;
      CounterWithoutWrapAround(s, name);
      NetSplits(s.reqs, name);
      NothingDoubled(s.reqs, name);
    }
  }

  lemma {:induction false} FewAreNotRefused(cfg: Config, steps: seq<Step>, name: string, bound: nat)
    requires IsRun(cfg, steps) && Fits(cfg, steps, name, bound) && bound <= cfg.max < UINT32
    ensures NoneRefused(After(cfg, steps).reqs, name)
  {
    if steps != [] {
      var prefix := steps[..|steps| - 1];
      FewAreNotRefused(cfg, prefix, name, bound);
      RunsCountNet(cfg, prefix, name);
      StepRefusesNone(cfg, After(cfg, prefix), steps[|steps| - 1], name);
    }
  }

  lemma {:induction false} ReliableIsClean(cfg: Config, steps: seq<Step>, name: string, bound: nat)
    requires IsRun(cfg, steps) && Fits(cfg, steps, name, bound) && Reliable(cfg, bound) && cfg.max < UINT32
    ensures Clean(After(cfg, steps).reqs, name) && Sum(Net, After(cfg, steps).reqs, name) < UINT32
  {
    if bound <= cfg.max {
      FewAreNotRefused(cfg, steps, name, bound);
    } else {
      RunsAreOrderly(cfg, steps);
    }
  }

  /** Then the counter is exactly the number of requests in flight plus the counts lost. */
  lemma {:induction false} ReliableCounter(cfg: Config, steps: seq<Step>, name: string, bound: nat)
    requires IsRun(cfg, steps) && Fits(cfg, steps, name, bound) && Reliable(cfg, bound) && cfg.max < UINT32
    ensures var s := After(cfg, steps);
            Count(s.counters, name) == Sum(InFlight, s.reqs, name) + Sum(Losses, s.reqs, name)
  {
    ReliableIsClean(cfg, steps, name, bound);
    RunsCountNet(cfg, steps, name);
    CounterWithoutWrapAround(After(cfg, steps), name);
  }

  // a request that has only been counted is in flight but not running
  lemma {:induction false} CountedDoesNotRun(reqs: seq<Req>, id: nat, name: string)
    requires Clean(reqs, name) && id < |reqs| && reqs[id] == Req(name, Counted)
    ensures Sum(Executing, reqs, name) + 1 <= Sum(InFlight, reqs, name)
  {
    var prefix, last := reqs[..|reqs| - 1], reqs[|reqs| - 1];
    assert last in reqs;
    if id < |prefix| {
      CountedDoesNotRun(prefix, id, name);
    } else {
      NothingDoubled(prefix, name);
    }
  }

  ghost predicate WithinMax(cfg: Config, s: Sys, name: string) {
    Sum(Executing, s.reqs, name) + Sum(Losses, s.reqs, name) <= cfg.max
  }

  lemma StepKeepsMax(cfg: Config, s: Sys, step: Step, name: string)
    requires Enabled(s, step) && Clean(s.reqs, name) && Clean(Next(cfg, s, step).reqs, name)
    requires CountsNet(s, name) && Sum(Net, s.reqs, name) < UINT32
    requires WithinMax(cfg, s, name)
    ensures WithinMax(cfg, Next(cfg, s, step), name)
  {
    StepChangesSum(cfg, s, step, Executing, name);
    StepChangesSum(cfg, s, step, Losses, name);
    if step.Read? && s.reqs[step.id].name == name {
      CountedDoesNotRun(s.reqs, step.id, name);
      CounterWithoutWrapAround(s, name);
    } else if !step.Arrive? {
      assert s.reqs[step.id] in s.reqs;
      assert Next(cfg, s, step).reqs[step.id] in Next(cfg, s, step).reqs;
    }
  }

  /** Safety: under every interleaving at most max requests of one name are running or have lost their count. */
  lemma {:induction false} AtMostMaxRunning(cfg: Config, steps: seq<Step>, name: string, bound: nat)
    requires IsRun(cfg, steps) && Fits(cfg, steps, name, bound) && Reliable(cfg, bound) && cfg.max < UINT32
    ensures Sum(Executing, After(cfg, steps).reqs, name) + Sum(Losses, After(cfg, steps).reqs, name) <= cfg.max
  {
    if steps != [] {
      var prefix := steps[..|steps| - 1];
      AtMostMaxRunning(cfg, prefix, name, bound);
      RunsCountNet(cfg, prefix, name);
      ReliableIsClean(cfg, prefix, name, bound);
      ReliableIsClean(cfg, steps, name, bound);
      StepKeepsMax(cfg, After(cfg, prefix), steps[|steps| - 1], name);
    }
  }

  lemma {:induction false} HoldersAreCounted(reqs: seq<Req>, id: nat, name: string)
    requires id < |reqs| && reqs[id].name == name
    requires reqs[id].phase.Counted? || reqs[id].phase.Refused? || reqs[id].phase.Admitted?
    ensures Sum(InFlight, reqs, name) >= 1
  {
    if id < |reqs| - 1 {
      HoldersAreCounted(reqs[..|reqs| - 1], id, name);
    } else {
      NetSplits(reqs[..|reqs| - 1], name);
    }
  }

  /** The step counts down its request's counter. */
  predicate Decrements(s: Sys, step: Step) {
    Enabled(s, step) && (step.GiveUp? || (step.Finish? && ReachesPost(step.outcome)))
  }

  /** No decrement meets a counter of zero. */
  lemma {:induction false} NoUnderflow(cfg: Config, steps: seq<Step>, step: Step, bound: nat)
    requires IsRun(cfg, steps) && Decrements(After(cfg, steps), step) && Reliable(cfg, bound) && cfg.max < UINT32
    requires Fits(cfg, steps, After(cfg, steps).reqs[step.id].name, bound)
    ensures Count(After(cfg, steps).counters, After(cfg, steps).reqs[step.id].name) > 0
  {
    var s := After(cfg, steps);
    var name := s.reqs[step.id].name;
    ReliableIsClean(cfg, steps, name, bound);
    ReliableCounter(cfg, steps, name, bound);
    assert s.reqs[step.id] in s.reqs;
    HoldersAreCounted(s.reqs, step.id, name);
    NetSplits(s.reqs, name);
  }

  lemma StepKeepsLosses(cfg: Config, s: Sys, step: Step, name: string)
    requires Enabled(s, step)
    ensures Sum(Losses, s.reqs, name) <= Sum(Losses, Next(cfg, s, step).reqs, name)
  {
    StepChangesSum(cfg, s, step, Losses, name);
  }

  /** A lost count stays lost. */
  lemma {:induction false} LossesOnlyGrow(cfg: Config, steps: seq<Step>, k: nat, name: string)
    requires IsRun(cfg, steps) && k <= |steps|
    ensures IsRun(cfg, steps[..k])
    ensures Sum(Losses, After(cfg, steps[..k]).reqs, name) <= Sum(Losses, After(cfg, steps).reqs, name)
  {
    if k < |steps| {
      var prefix := steps[..|steps| - 1];
      LossesOnlyGrow(cfg, prefix, k, name);
      assert prefix[..k] == steps[..k];
      StepKeepsLosses(cfg, After(cfg, prefix), steps[|steps| - 1], name);
    } else {
      assert steps[..k] == steps;
    }
  }

  lemma {:induction false} RefusedOnceLost(cfg: Config, steps: seq<Step>, id: nat, name: string, bound: nat)
    requires IsRun(cfg, steps) && Fits(cfg, steps, name, bound) && Reliable(cfg, bound) && cfg.max < UINT32
    requires Enabled(After(cfg, steps), Read(id)) && After(cfg, steps).reqs[id].name == name
    requires Sum(Losses, After(cfg, steps).reqs, name) >= cfg.max
    ensures Next(cfg, After(cfg, steps), Read(id)).reqs[id].phase == Refused
  {
    ReliableCounter(cfg, steps, name, bound);
    HoldersAreCounted(After(cfg, steps).reqs, id, name);
    ReadsOpenIff(cfg, After(cfg, steps), id);
  }

  /** Once max counts of a name are lost, however the run goes on, every later request of that name is refused. */
  lemma {:induction false} RefusesForever(cfg: Config, steps: seq<Step>, k: nat, id: nat, name: string, bound: nat)
    requires IsRun(cfg, steps) && Fits(cfg, steps, name, bound) && Reliable(cfg, bound) && cfg.max < UINT32
    requires k <= |steps| && IsRun(cfg, steps[..k]) && Sum(Losses, After(cfg, steps[..k]).reqs, name) >= cfg.max
    requires Enabled(After(cfg, steps), Read(id)) && After(cfg, steps).reqs[id].name == name
    ensures Next(cfg, After(cfg, steps), Read(id)).reqs[id].phase == Refused
  {
    LossesOnlyGrow(cfg, steps, k, name);
    RefusedOnceLost(cfg, steps, id, name, bound);
  }

  // ---------------------------------------------------------------------
  // Beyond them: runs that stay within a bound

  lemma {:induction false} NetAtMostAll(reqs: seq<Req>, name: string)
    ensures Sum(Net, reqs, name) <= |reqs|
  {
    if reqs != [] {
      NetAtMostAll(reqs[..|reqs| - 1], name);
    }
  }

  lemma {:induction false} FewRequestsFit(cfg: Config, steps: seq<Step>, name: string, bound: nat)
    requires IsRun(cfg, steps) && |After(cfg, steps).reqs| <= bound
    ensures Fits(cfg, steps, name, bound)
  {
    NetAtMostAll(After(cfg, steps).reqs, name);
    if steps != [] {
      FewRequestsFit(cfg, steps[..|steps| - 1], name, bound);
    }
  }

  lemma {:induction false} OneMoreFits(cfg: Config, steps: seq<Step>, step: Step, name: string, bound: nat)
    requires IsRun(cfg, steps) && Fits(cfg, steps, name, bound) && Enabled(After(cfg, steps), step)
    requires Sum(Net, Next(cfg, After(cfg, steps), step).reqs, name) <= bound
    ensures IsRun(cfg, steps + [step]) && Fits(cfg, steps + [step], name, bound)
    ensures After(cfg, steps + [step]) == Next(cfg, After(cfg, steps), step)
  {
    OneMore(cfg, steps, step);
    assert (steps + [step])[..|steps|] == steps;
  }

  // ---------------------------------------------------------------------
  // More than max run

  /** Never more than max requests of a name run, on any run within the bound. */
  ghost predicate Safe(cfg: Config, bound: nat) {
    forall steps, name :: IsRun(cfg, steps) && Fits(cfg, steps, name, bound) ==>
      Sum(Executing, After(cfg, steps).reqs, name) <= cfg.max
  }

  ghost predicate OneTooMany(cfg: Config, s: Sys, name: string, k: nat) {
    && |s.reqs| == cfg.max + 1 && Count(s.counters, name) == cfg.max && Sum(Executing, s.reqs, name) == k + 1
    && (forall i :: k < i < |s.reqs| ==> s.reqs[i] == Req(name, Counted))
  }

  lemma AdmitNext(cfg: Config, s: Sys, name: string, k: nat)
    requires 0 < k <= cfg.max && OneTooMany(cfg, s, name, k - 1)
    ensures Enabled(s, Read(k)) && OneTooMany(cfg, Next(cfg, s, Read(k)), name, k)
  {
    StepChangesSum(cfg, s, Read(k), Executing, name);
  }

  /** The first of max + 1 requests runs uncounted, the next k are admitted. */
  lemma {:induction false} FirstUncounted(cfg: Config, name: string, k: nat) returns (steps: seq<Step>)
    requires cfg.max < UINT32 - 1 && cfg.errorStatus.IsOk() && k <= cfg.max
    ensures IsRun(cfg, steps) && OneTooMany(cfg, After(cfg, steps), name, k)
  {
    if k == 0 {
      steps := RefuseFirst(cfg, name);
      SumsAfterFirst(Net, After(cfg, steps).reqs, name, cfg.max + 1, Uncounted);
      SumsAfterFirst(Executing, After(cfg, steps).reqs, name, cfg.max + 1, Uncounted);
      RunsCountNet(cfg, steps, name);
    } else {
      var before := FirstUncounted(cfg, name, k - 1);
      AdmitNext(cfg, After(cfg, before), name, k);
      OneMore(cfg, before, Read(k));
      steps := before + [Read(k)];
    }
  }

  ghost predicate FirstRunning(s: Sys, name: string, k: nat) {
    && |s.reqs| == UINT32 && Count(s.counters, name) == 0 && Sum(Executing, s.reqs, name) == k
    && (forall i :: 0 <= i < UINT32 ==> s.reqs[i] == Req(name, if i < k then Admitted else Counted))
  }

  /** When 32 bits do not suffice the counter is back at zero: 2^32 requests can all run at once. */
  lemma {:induction false} WrapAroundAdmitsAll(cfg: Config, name: string, k: nat) returns (steps: seq<Step>)
    requires k <= UINT32
    ensures IsRun(cfg, steps) && FirstRunning(After(cfg, steps), name, k)
  {
    if k == 0 {
      ManyArrive(cfg, UINT32, name);
      steps := Arrivals(UINT32, name);
      AllCounted(After(cfg, steps).reqs, name);
    } else {
      var before := WrapAroundAdmitsAll(cfg, name, k - 1);
      OneMore(cfg, before, Read(k - 1));
      StepChangesSum(cfg, After(cfg, before), Read(k - 1), Executing, name);
      steps := before + [Read(k - 1)];
    }
  }

  /** The bound is sharp: it holds exactly within the limits. */
  lemma SafeIff(cfg: Config, bound: nat)
    requires cfg.max < UINT32
    ensures Safe(cfg, bound) <==> Reliable(cfg, bound)
  {
    if Reliable(cfg, bound) {
      forall steps, name | IsRun(cfg, steps) && Fits(cfg, steps, name, bound)
        ensures Sum(Executing, After(cfg, steps).reqs, name) <= cfg.max
      {
        AtMostMaxRunning(cfg, steps, name, bound);
        NetSplits(After(cfg, steps).reqs, name);
      }
    } else {
      var steps;
      if bound < UINT32 {
        steps := FirstUncounted(cfg, "request", cfg.max);
      } else {
        steps := WrapAroundAdmitsAll(cfg, "request", UINT32);
      }
      FewRequestsFit(cfg, steps, "request", bound);
      assert Sum(Executing, After(cfg, steps).reqs, "request") > cfg.max;
    }
  }

  // ---------------------------------------------------------------------
  // A decrement meets zero

  /** No decrement meets a counter of zero, on any run within the bound. */
  ghost predicate NeverUnderflows(cfg: Config, bound: nat) {
    forall steps, step :: IsRun(cfg, steps) && Decrements(After(cfg, steps), step)
                          && Fits(cfg, steps, After(cfg, steps).reqs[step.id].name, bound)
      ==> Count(After(cfg, steps).counters, After(cfg, steps).reqs[step.id].name) > 0
  }

  ghost predicate GivenUp(cfg: Config, s: Sys, name: string, k: nat) {
    && |s.reqs| == cfg.max + 1 && Count(s.counters, name) == cfg.max + 1 - k
    && (forall i :: 0 <= i < |s.reqs| ==> s.reqs[i] == Req(name, if i < k then Uncounted else Refused))
  }

  /** max + 1 requests are all refused and k of them already run all the same. */
  lemma {:induction false} RefusedRunUncounted(cfg: Config, name: string, k: nat) returns (steps: seq<Step>)
    requires cfg.max < UINT32 - 1 && cfg.errorStatus.IsOk() && k <= cfg.max + 1
    ensures IsRun(cfg, steps) && GivenUp(cfg, After(cfg, steps), name, k)
  {
    if k == 0 {
      steps := ReadersRefused(cfg, cfg.max + 1, name, cfg.max + 1);
    } else {
      var before := RefusedRunUncounted(cfg, name, k - 1);
      OneMore(cfg, before, GiveUp(k - 1));
      steps := before + [GiveUp(k - 1)];
    }
  }

  /** That holds exactly within the same limits. */
  lemma NoUnderflowIff(cfg: Config, bound: nat)
    requires cfg.max < UINT32
    ensures NeverUnderflows(cfg, bound) <==> Reliable(cfg, bound)
  {
    if Reliable(cfg, bound) {
      forall steps, step | IsRun(cfg, steps) && Decrements(After(cfg, steps), step)
                           && Fits(cfg, steps, After(cfg, steps).reqs[step.id].name, bound)
        ensures Count(After(cfg, steps).counters, After(cfg, steps).reqs[step.id].name) > 0
      {
        NoUnderflow(cfg, steps, step, bound);
      }
    } else {
      var steps;
      if bound < UINT32 {
        steps := RefusedRunUncounted(cfg, "request", cfg.max + 1);
      } else {
        steps := WrapAroundAdmitsAll(cfg, "request", 1);
      }
      FewRequestsFit(cfg, steps, "request", bound);
      assert Decrements(After(cfg, steps), Finish(0, Returned(OK)));
    }
  }

  // ---------------------------------------------------------------------
  // A request is admitted although max counts are lost

  /** Once max counts are lost all later requests of the name are refused, on any run within the bound. */
  ghost predicate LossesBlock(cfg: Config, bound: nat) {
    forall steps, id: nat :: IsRun(cfg, steps) && Enabled(After(cfg, steps), Read(id))
                        && Fits(cfg, steps, After(cfg, steps).reqs[id].name, bound)
                        && Sum(Losses, After(cfg, steps).reqs, After(cfg, steps).reqs[id].name) >= cfg.max
      ==> Next(cfg, After(cfg, steps), Read(id)).reqs[id].phase == Refused
  }

  // n more requests arrive
  ghost predicate Joined(s: Sys, t: Sys, name: string, n: nat) {
    && |t.reqs| == |s.reqs| + n && (forall i :: |s.reqs| <= i < |t.reqs| ==> t.reqs[i] == Req(name, Counted))
    && Sum(Net, t.reqs, name) == Sum(Net, s.reqs, name) + n && Sum(Losses, t.reqs, name) == Sum(Losses, s.reqs, name)
  }

  lemma {:induction false} MoreArrive(cfg: Config, before: seq<Step>, name: string, n: nat) returns (steps: seq<Step>)
    requires IsRun(cfg, before)
    ensures IsRun(cfg, steps) && Joined(After(cfg, before), After(cfg, steps), name, n)
  {
    if n == 0 {
      steps := before;
    } else {
      var earlier := MoreArrive(cfg, before, name, n - 1);
      OneMore(cfg, earlier, Arrive(name));
      StepChangesSum(cfg, After(cfg, earlier), Arrive(name), Net, name);
      StepChangesSum(cfg, After(cfg, earlier), Arrive(name), Losses, name);
      steps := earlier + [Arrive(name)];
    }
  }

  /** max counts are lost and so many more requests arrive that the counter is back at zero. */
  lemma LostAndWrapped(cfg: Config, name: string) returns (steps: seq<Step>)
    requires cfg.max < UINT32
    ensures IsRun(cfg, steps) && |After(cfg, steps).reqs| == UINT32
    ensures Enabled(After(cfg, steps), Read(cfg.max)) && After(cfg, steps).reqs[cfg.max].name == name
    ensures Sum(Losses, After(cfg, steps).reqs, name) == cfg.max && Count(After(cfg, steps).counters, name) == 0
  {
    var lost := ReservedCodesAreNotCountedDown(cfg, name, cfg.max);
    AllLost(After(cfg, lost).reqs, name);
    steps := MoreArrive(cfg, lost, name, UINT32 - cfg.max);
    RunsCountNet(cfg, steps, name);
  }

  lemma {:induction false} AllLost(reqs: seq<Req>, name: string)
    requires forall i :: 0 <= i < |reqs| ==> reqs[i] == Req(name, Lost)
    ensures Sum(Doubles, reqs, name) == 0 && Sum(Net, reqs, name) == |reqs|
  {
    if reqs != [] {
      AllLost(reqs[..|reqs| - 1], name);
    }
  }

  // n lost requests and a last one in the given phase
  ghost predicate LostThen(s: Sys, name: string, n: nat, last: Phase) {
    && |s.reqs| == n + 1 && s.reqs[n] == Req(name, last)
    && Sum(Net, s.reqs, name) == n + Share(Net, last) && Sum(Losses, s.reqs, name) == n + Share(Losses, last)
  }

  lemma OneArrives(cfg: Config, s: Sys, name: string, n: nat)
    requires OnlyLost(s, name, n) && n < UINT32 - 1
    ensures LostThen(Next(cfg, s, Arrive(name)), name, n, Counted)
    ensures Count(Next(cfg, s, Arrive(name)).counters, name) == n + 1
  {
    AllLost(s.reqs, name);
    SumAppend(Net, s.reqs, Req(name, Counted), name);
    SumAppend(Losses, s.reqs, Req(name, Counted), name);
  }

  lemma LastMoves(cfg: Config, s: Sys, name: string, n: nat, last: Phase, step: Step)
    requires LostThen(s, name, n, last) && !step.Arrive? && step.id == n && Enabled(s, step)
    ensures Next(cfg, s, step).reqs != [] && LostThen(Next(cfg, s, step), name, n, Next(cfg, s, step).reqs[n].phase)
  {
    StepChangesSum(cfg, s, step, Net, name);
    StepChangesSum(cfg, s, step, Losses, name);
  }

  lemma LastIsRefused(cfg: Config, s: Sys, name: string)
    requires LostThen(s, name, cfg.max, Counted) && Count(s.counters, name) == cfg.max + 1
    ensures Enabled(s, Read(cfg.max))
    ensures var t := Next(cfg, s, Read(cfg.max));
            LostThen(t, name, cfg.max, Refused) && Count(t.counters, name) == cfg.max + 1
  {
    LastMoves(cfg, s, name, cfg.max, Counted, Read(cfg.max));
  }

  lemma LastGivesUp(cfg: Config, s: Sys, name: string)
    requires LostThen(s, name, cfg.max, Refused) && Count(s.counters, name) == cfg.max + 1 && cfg.errorStatus.IsOk()
    ensures Enabled(s, GiveUp(cfg.max))
    ensures var t := Next(cfg, s, GiveUp(cfg.max));
            LostThen(t, name, cfg.max, Uncounted) && Count(t.counters, name) == cfg.max
  {
    LastMoves(cfg, s, name, cfg.max, Refused, GiveUp(cfg.max));
  }

  lemma LostAndRefused(cfg: Config, name: string) returns (steps: seq<Step>)
    requires cfg.max < UINT32 - 1
    ensures IsRun(cfg, steps) && Fits(cfg, steps, name, cfg.max + 1)
    ensures LostThen(After(cfg, steps), name, cfg.max, Refused)
    ensures Count(After(cfg, steps).counters, name) == cfg.max + 1
  {
    var lost := ReservedCodesAreNotCountedDown(cfg, name, cfg.max);
    FewRequestsFit(cfg, lost, name, cfg.max + 1);
    OneArrives(cfg, After(cfg, lost), name, cfg.max);
    OneMoreFits(cfg, lost, Arrive(name), name, cfg.max + 1);
    var arrived := lost + [Arrive(name)];
    LastIsRefused(cfg, After(cfg, arrived), name);
    OneMoreFits(cfg, arrived, Read(cfg.max), name, cfg.max + 1);
    steps := arrived + [Read(cfg.max)];
  }

  /** After max losses one more request is refused and runs all the same. */
  lemma LostAndUncounted(cfg: Config, name: string) returns (steps: seq<Step>)
    requires cfg.errorStatus.IsOk() && cfg.max < UINT32 - 1
    ensures IsRun(cfg, steps) && Fits(cfg, steps, name, cfg.max + 1)
    ensures LostThen(After(cfg, steps), name, cfg.max, Uncounted) && Count(After(cfg, steps).counters, name) == cfg.max
  {
    var refused := LostAndRefused(cfg, name);
    LastGivesUp(cfg, After(cfg, refused), name);
    OneMoreFits(cfg, refused, GiveUp(cfg.max), name, cfg.max + 1);
    steps := refused + [GiveUp(cfg.max)];
  }

  // and then is decremented twice, so that the next request to arrive brings the counter to max only
  lemma OneMoreArrives(cfg: Config, s: Sys, name: string)
    requires LostThen(s, name, cfg.max, Doubled) && Count(s.counters, name) == Pred(cfg.max) && cfg.max < UINT32
    ensures var t := Next(cfg, s, Arrive(name));
            && Enabled(t, Read(cfg.max + 1)) && t.reqs[cfg.max + 1].name == name
            && Sum(Net, t.reqs, name) == cfg.max && Sum(Losses, t.reqs, name) == cfg.max
            && Count(t.counters, name) == cfg.max
  {
    SumAppend(Net, s.reqs, Req(name, Counted), name);
    SumAppend(Losses, s.reqs, Req(name, Counted), name);
  }

  lemma LostAndDoubled(cfg: Config, name: string) returns (steps: seq<Step>)
    requires cfg.errorStatus.IsOk() && cfg.max < UINT32 - 1
    ensures IsRun(cfg, steps) && Fits(cfg, steps, name, cfg.max + 1)
    ensures Enabled(After(cfg, steps), Read(cfg.max + 1)) && After(cfg, steps).reqs[cfg.max + 1].name == name
    ensures Sum(Losses, After(cfg, steps).reqs, name) == cfg.max && Count(After(cfg, steps).counters, name) == cfg.max
  {
    var running := LostAndUncounted(cfg, name);
    var last := Finish(cfg.max, Returned(OK));
    LastMoves(cfg, After(cfg, running), name, cfg.max, Uncounted, last);
    OneMoreFits(cfg, running, last, name, cfg.max + 1);
    OneMoreArrives(cfg, After(cfg, running + [last]), name);
    OneMoreFits(cfg, running + [last], Arrive(name), name, cfg.max + 1);
    steps := running + [last] + [Arrive(name)];
  }

  lemma {:induction false} FitsMore(cfg: Config, steps: seq<Step>, name: string, few: nat, bound: nat)
    requires IsRun(cfg, steps) && Fits(cfg, steps, name, few) && few <= bound
    ensures Fits(cfg, steps, name, bound)
  {
    if steps != [] {
      FitsMore(cfg, steps[..|steps| - 1], name, few, bound);
    }
  }

  lemma {:induction false} BeyondLimitsAdmits(cfg: Config, bound: nat)
    requires cfg.max < UINT32 && !Reliable(cfg, bound)
    ensures !LossesBlock(cfg, bound)
  {
    var id := cfg.max + 1;
    var steps;
    if bound < UINT32 {
      steps := LostAndDoubled(cfg, "request");
      FitsMore(cfg, steps, "request", cfg.max + 1, bound);
    } else {
      id := cfg.max;
      steps := LostAndWrapped(cfg, "request");
      FewRequestsFit(cfg, steps, "request", bound);
    }
    ReadsOpenIff(cfg, After(cfg, steps), id);
    assert Next(cfg, After(cfg, steps), Read(id)).reqs[id].phase != Refused;
  }

  /** And that too holds exactly within the same limits. */
  lemma RefusesForeverIff(cfg: Config, bound: nat)
    requires cfg.max < UINT32
    ensures LossesBlock(cfg, bound) <==> Reliable(cfg, bound)
  {
    if Reliable(cfg, bound) {
      forall steps, id: nat | IsRun(cfg, steps) && Enabled(After(cfg, steps), Read(id))
                              && Fits(cfg, steps, After(cfg, steps).reqs[id].name, bound)
                              && Sum(Losses, After(cfg, steps).reqs, After(cfg, steps).reqs[id].name) >= cfg.max
        ensures Next(cfg, After(cfg, steps), Read(id)).reqs[id].phase == Refused
      {
        RefusedOnceLost(cfg, steps, id, After(cfg, steps).reqs[id].name, bound);
      }
    } else {
      BeyondLimitsAdmits(cfg, bound);
    }
  }
}
