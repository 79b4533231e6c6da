/** Retrying with back-off
    (src/microservice-essentials/reliability/retry-request-hook.cpp). Durations are reals; the clock is a
    field that the wrapped function and the sleeps advance. */
module Retry {
  import opened Statuses
  import opened UInt32

  function Max(a: real, b: real): real { if a < b then b else a }

  // ---------------------------------------------------------------------
  // Back-off strategies

  function Power(base: real, n: nat): real {
    if n == 0 then 1.0 else base * Power(base, n - 1)
  }

  datatype Strategy =
    | Linear(maxRetries: nat, interval: real)
    | Exponential(maxRetries: nat, first: real, base: real)
    | Jitter(inner: Strategy, sigma: real)

  function Innermost(s: Strategy): (r: Strategy)
    ensures !r.Jitter?
  {
    if s.Jitter? then Innermost(s.inner) else s
  }

  function MaxRetries(s: Strategy): nat { Innermost(s).maxRetries }

  /** When retry k is due, counted from the start of the request. */
  function Due(s: Strategy, k: nat): real {
    match Innermost(s)
    case Linear(_, interval) => interval * (k as real)
    case Exponential(_, first, base) => GeometricSum(first, base, k)
    case Jitter(_, _) => 0.0
  }

  /** The limit and the due times of each strategy; a decorator keeps those of the strategy it decorates. */
  lemma {:induction false} StrategyMeans(s: Strategy, k: nat)
    ensures s.Linear? ==> MaxRetries(s) == s.maxRetries && Due(s, k) == s.interval * (k as real)
    ensures s.Exponential? ==>
              MaxRetries(s) == s.maxRetries && (s.base - 1.0) * Due(s, k) == s.first * (Power(s.base, k) - 1.0)
    ensures s.Jitter? ==> MaxRetries(s) == MaxRetries(s.inner) && Due(s, k) == Due(s.inner, k)
  {
    if s.Exponential? {
      GeometricClosedForm(s.first, s.base, k);
    }
  }

  function GeometricSum(first: real, base: real, k: nat): real {
    if k == 0 then 0.0 else GeometricSum(first, base, k - 1) + first * Power(base, k - 1)
  }

  /** The sum the exponential strategy accumulates, in closed form. */
  lemma {:induction false} GeometricClosedForm(first: real, base: real, k: nat)
    ensures (base - 1.0) * GeometricSum(first, base, k) == first * (Power(base, k) - 1.0)
  {
    if k > 0 {
      GeometricClosedForm(first, base, k - 1);
      var sum, p := GeometricSum(first, base, k - 1), Power(base, k - 1);
      GeometricStep(first, base, sum, p);
      assert GeometricSum(first, base, k) == sum + first * p;
      assert Power(base, k) == base * p;
    }
  }

  lemma GeometricStep(first: real, base: real, sum: real, p: real)
    requires (base - 1.0) * sum == first * (p - 1.0)
    ensures (base - 1.0) * (sum + first * p) == first * (base * p - 1.0)
  {
    var x := first * p;
    assert first * (p - 1.0) == x - first;
    assert (base - 1.0) * (sum + x) == (base - 1.0) * sum + (base - 1.0) * x;
    assert first * (base * p) == base * x;
    assert first * (base * p - 1.0) == base * x - first;
  }

  function UntilNextRetry(count: nat, maxRetries: nat, elapsed: real, due: real): Option<real> {
    if count > maxRetries then None
    else if elapsed > due then Some(0.0)
    else Some(due - elapsed)
  }

  // the exponential strategy's loop
  method AccumulatedDue(first: real, base: real, count: nat) returns (due: real)
    ensures due == GeometricSum(first, base, count)
  {
    due := 0.0;
    for i := 0 to count
      invariant due == GeometricSum(first, base, i)
    {
      var factor := Pow(base, i);
      due := due + first * factor;
    }
  }

  method Pow(base: real, n: nat) returns (r: real)
    ensures r == Power(base, n)
  {
    r := 1.0;
    for i := 0 to n
      invariant r == Power(base, i)
    {
      r := base * r;
    }
  }

  /** draws: what the random generator yields, for each decorator from the outside in. A decorator only
      replaces the waiting time; whether to retry is decided by the innermost strategy. */
  method GetDurationUntilNextRetry(s: Strategy, count: nat, elapsed: real, draws: seq<real>)
    returns (wait: Option<real>)
    requires |draws| >= Decorators(s)
    decreases s
    ensures wait.Some? <==> count <= MaxRetries(s)
    ensures !s.Jitter? ==> (wait.Some? <==> count <= s.maxRetries)
    ensures wait.Some? ==> wait.value == if s.Jitter? then draws[0] else Max(0.0, Due(s, count) - elapsed)
  {
    match s
    case Linear(maxRetries, interval) =>
      assert Innermost(s) == s && Due(s, count) == interval * (count as real);
      return UntilNextRetry(count, maxRetries, elapsed, interval * (count as real));
    case Exponential(maxRetries, first, base) =>
      var due := AccumulatedDue(first, base, count);
      assert Innermost(s) == s && Due(s, count) == due;
      return UntilNextRetry(count, maxRetries, elapsed, due);
    case Jitter(inner, _) =>
      var duration := GetDurationUntilNextRetry(inner, count, elapsed, draws[1..]);
      if duration.None? {
        return None;
      }
      return Some(draws[0]);
  }

  function Decorators(s: Strategy): nat {
    if s.Jitter? then 1 + Decorators(s.inner) else 0
  }

  // ---------------------------------------------------------------------
  // The hook

  /** One call of the wrapped function: how it ends and how long it takes. */
  datatype Attempt = Attempt(outcome: Outcome, duration: real)

  datatype Config = Config(strategy: Strategy, retryCodes: set<StatusCode>)

  /** The attempt is followed by another one if retries are left. */
  predicate Retryable(codes: set<StatusCode>, o: Outcome) {
    ReachesPost(o) && o.Returned? && o.status.code in codes
  }

  /** How the request ends when this is the outcome of its last attempt. */
  function Final(codes: set<StatusCode>, o: Outcome): Outcome {
    if o.Threw? then (if Invalid in codes then Threw(BAD_CODE) else o) else Logged(o.status)
  }

  /** A request between two attempts: the hook's uint32_t counter, and the calls of the function so far. */
  datatype Progress = Running(counter: nat, calls: nat) | Over(calls: nat)

  /** One attempt, and whether another one follows. */
  function Attempted(cfg: Config, f: nat -> Attempt, p: Progress): Progress {
    if p.Over? then p
    else if Retryable(cfg.retryCodes, f(p.calls).outcome) && Succ(p.counter) <= MaxRetries(cfg.strategy)
    then Running(Succ(p.counter), p.calls + 1)
    else Over(p.calls + 1)
  }

  function After(cfg: Config, f: nat -> Attempt, p: Progress, n: nat): Progress
    decreases n
  {
    if n == 0 then p else After(cfg, f, Attempted(cfg, f, p), n - 1)
  }

  lemma {:induction false} OverIsFinal(cfg: Config, f: nat -> Attempt, p: Progress, n: nat)
    requires p.Over?
    ensures After(cfg, f, p, n) == p
    decreases n
  {
    if n > 0 {
      OverIsFinal(cfg, f, p, n - 1);
    }
  }

  lemma {:induction false} OneMoreAttempt(cfg: Config, f: nat -> Attempt, p: Progress, n: nat, end: nat)
    requires p.Running? && After(cfg, f, p, n) == Over(end)
    ensures n > 0
    ensures if Retryable(cfg.retryCodes, f(p.calls).outcome) && Succ(p.counter) <= MaxRetries(cfg.strategy) then
              After(cfg, f, Running(Succ(p.counter), p.calls + 1), n - 1) == Over(end)
            else end == p.calls + 1
  {
    OverIsFinal(cfg, f, Over(p.calls + 1), n - 1);
  }

  lemma {:induction false} EndsAtLimit(cfg: Config, f: nat -> Attempt, p: Progress)
    requires p.Running? && p.counter <= MaxRetries(cfg.strategy) < UINT32 - 1
    ensures After(cfg, f, p, MaxRetries(cfg.strategy) - p.counter + 1).Over?
    decreases MaxRetries(cfg.strategy) - p.counter
  {
    var next := Attempted(cfg, f, p);
    if next.Running? {
      EndsAtLimit(cfg, f, next);
    } else {
      OverIsFinal(cfg, f, next, MaxRetries(cfg.strategy) - p.counter);
    }
  }

  lemma {:induction false} EndsAtFinalAttempt(cfg: Config, f: nat -> Attempt, p: Progress, i: nat)
    requires p.Running? && p.calls <= i && !Retryable(cfg.retryCodes, f(i).outcome)
    ensures After(cfg, f, p, i - p.calls + 1).Over?
    decreases i - p.calls
  {
    var next := Attempted(cfg, f, p);
    if next.Running? {
      EndsAtFinalAttempt(cfg, f, next, i);
    } else {
      OverIsFinal(cfg, f, next, i - p.calls);
    }
  }

  lemma {:induction false} NeverEnds(cfg: Config, f: nat -> Attempt, p: Progress, n: nat)
    requires p.Running? && p.counter < UINT32 && MaxRetries(cfg.strategy) == UINT32 - 1
    requires forall i :: i >= p.calls ==> Retryable(cfg.retryCodes, f(i).outcome)
    ensures After(cfg, f, p, n).Running?
    decreases n
  {
    if n > 0 {
      NeverEnds(cfg, f, Attempted(cfg, f, p), n - 1);
    }
  }

  ghost predicate Ends(cfg: Config, f: nat -> Attempt, p: Progress) {
    exists n :: After(cfg, f, p, n).Over?
  }

  /** A request ends, after some number of attempts, iff the retry limit is not the largest 32-bit number or some
      attempt must not be repeated: with that limit the counter wraps around and never exceeds it. */
  lemma EndsIff(cfg: Config, f: nat -> Attempt, from: nat)
    requires MaxRetries(cfg.strategy) < UINT32
    ensures Ends(cfg, f, Running(0, from))
            <==> MaxRetries(cfg.strategy) < UINT32 - 1
                 || exists i :: i >= from && (f(i).outcome.Threw? || f(i).outcome.status.code == Invalid
                                              || f(i).outcome.status.code !in cfg.retryCodes)
  {
    if MaxRetries(cfg.strategy) < UINT32 - 1 {
      EndsAtLimit(cfg, f, Running(0, from));
    } else if i: nat :| i >= from && !Retryable(cfg.retryCodes, f(i).outcome) {
      EndsAtFinalAttempt(cfg, f, Running(0, from), i);
    } else {
      forall n: nat ensures After(cfg, f, Running(0, from), n).Running? {
        NeverEnds(cfg, f, Running(0, from), n);
      }
    }
  }

  /** If every attempt is to be repeated, the request is still running after any number of them iff the limit is
      that number. */
  lemma RunsForeverIff(cfg: Config, f: nat -> Attempt, from: nat)
    requires MaxRetries(cfg.strategy) < UINT32
    requires forall i :: i >= from ==> f(i).outcome.Returned? && f(i).outcome.status.code in cfg.retryCodes
                                       && f(i).outcome.status.code != Invalid
    ensures (forall n: nat :: After(cfg, f, Running(0, from), n).Running?) <==> MaxRetries(cfg.strategy) == UINT32 - 1
  {
    EndsIff(cfg, f, from);
    if MaxRetries(cfg.strategy) < UINT32 - 1 {
      var n: nat :| After(cfg, f, Running(0, from), n).Over?;
      assert !After(cfg, f, Running(0, from), n).Running?;
    } else {
      forall n: nat ensures After(cfg, f, Running(0, from), n).Running? {
        NeverEnds(cfg, f, Running(0, from), n);
      }
    }
  }

  /** The calls stop exactly at the first attempt that must not be repeated, or when the retries are used up. */
  lemma {:induction false} CallsStopAtFirstFinalAttempt(cfg: Config, f: nat -> Attempt, p: Progress, n: nat)
    requires p.Running? && p.counter <= MaxRetries(cfg.strategy) < UINT32 && After(cfg, f, p, n).Over?
    ensures var last := After(cfg, f, p, n).calls - 1;
            var left := MaxRetries(cfg.strategy) - p.counter;
            && p.calls <= last < p.calls + n
            && (forall i :: p.calls <= i < last ==>
                  && f(i).outcome.Returned?
                  && f(i).outcome.status.code in cfg.retryCodes && f(i).outcome.status.code != Invalid)
            && (MaxRetries(cfg.strategy) < UINT32 - 1 ==> last - p.calls <= left)
            && (f(last).outcome.Threw? || f(last).outcome.status.code == Invalid
                || f(last).outcome.status.code !in cfg.retryCodes
                || (MaxRetries(cfg.strategy) < UINT32 - 1 && last - p.calls == left))
    decreases n
  {
    var next := Attempted(cfg, f, p);
    if next.Running? {
      CallsStopAtFirstFinalAttempt(cfg, f, next, n - 1);
    } else {
      OverIsFinal(cfg, f, next, n - 1);
    }
  }

  // when attempt k of a request starts, counted from the request's own start, without jitter
  function StartOf(s: Strategy, f: nat -> Attempt, first: nat, k: nat): real {
    if k == 0 then 0.0
    else Max(StartOf(s, f, first, k - 1) + f(first + k - 1).duration, DueAt(s, k))
  }

  /** When attempt k is due: the first one at once, each other one at the counter's value. */
  function DueAt(s: Strategy, k: nat): real {
    if k == 0 then 0.0 else Due(s, Wrapped(k))
  }

  // the outermost decorator's draw
  function Drawn(draws: seq<real>): real {
    if draws == [] then 0.0 else draws[0]
  }

  /** When attempt k > 0 starts, given when the one before it ended. */
  function NextStart(s: Strategy, requestStart: real, k: nat, ended: real, draws: seq<real>): real {
    if s.Jitter? then ended + Max(0.0, Drawn(draws)) else Max(ended, requestStart + Due(s, Wrapped(k)))
  }

  /** The attempts of a request that start at these times, and when the next one starts. */
  datatype Timeline = Timeline(s: Strategy, f: nat -> Attempt, draws: nat -> seq<real>, first: nat, begin: real) {
    function Next(starts: seq<real>): real {
      var n := |starts|;
      if n == 0 then begin
      else NextStart(s, begin, n, starts[n - 1] + f(first + n - 1).duration, draws(first + n))
    }

    predicate Fits(starts: seq<real>) {
      starts == [] || (Fits(starts[..|starts| - 1]) && starts[|starts| - 1] == Next(starts[..|starts| - 1]))
    }

    lemma Extend(starts: seq<real>)
      requires Fits(starts)
      ensures Fits(starts + [Next(starts)])
    {
      assert (starts + [Next(starts)])[..|starts|] == starts;
    }

    // sleeping as long as the strategy asks leads there
    lemma WaitLeadsToNext(starts: seq<real>, ended: real, wait: real)
      requires starts != [] && ended == starts[|starts| - 1] + f(first + |starts| - 1).duration
      requires wait == if s.Jitter? then Drawn(draws(first + |starts|))
                       else Max(0.0, Due(s, Wrapped(|starts|)) - (ended - begin))
      ensures ended + Max(0.0, wait) == Next(starts)
    {
    }

    lemma {:induction false} At(starts: seq<real>, k: nat)
      requires Fits(starts) && k < |starts|
      ensures starts[k] == Next(starts[..k])
    {
      var prefix := starts[..|starts| - 1];
      if k < |prefix| {
        At(prefix, k);
        assert prefix[..k] == starts[..k];
      }
    }

    lemma {:induction false} InClosedForm(starts: seq<real>, k: nat)
      requires Fits(starts) && !s.Jitter? && k < |starts|
      ensures starts[k] == begin + StartOf(s, f, first, k)
    {
      At(starts, k);
      if k > 0 {
        InClosedForm(starts, k - 1);
      }
    }

    /** A retry starts when it is due, or once the attempt before it has ended if that is later; with jitter it starts
        the drawn time after that end. */
    lemma StartsWhenDue(starts: seq<real>, k: nat)
      requires Fits(starts) && 0 < k < |starts|
      ensures var ended, due := starts[k - 1] + f(first + k - 1).duration, begin + Due(s, Wrapped(k));
              var draw := Drawn(draws(first + k));
              starts[k] == if s.Jitter? then (if draw > 0.0 then ended + draw else ended)
                           else if ended < due then due
                           else ended
    {
      At(starts, k);
      assert starts[..k][k - 1] == starts[k - 1];
    }
  }

  class RetryRequestHook {
    const cfg: Config
    const func: nat -> Attempt        // what the i-th call of the wrapped function does
    const draws: nat -> seq<real>     // what the random generator yields before the i-th call
    var calls: nat                    // calls of the function so far
    var retryCounter: nat
    var requestStart: real
    var clock: real
    ghost var starts: seq<real>       // clock at the start of each attempt of the current request

    ghost predicate Valid() {
      && MaxRetries(cfg.strategy) < UINT32
      && (forall i :: |draws(i)| >= Decorators(cfg.strategy))
    }

    constructor (cfg: Config, func: nat -> Attempt, draws: nat -> seq<real>, now: real)
      requires MaxRetries(cfg.strategy) < UINT32
      requires forall i :: |draws(i)| >= Decorators(cfg.strategy)
      ensures this.cfg == cfg && this.func == func && this.draws == draws && calls == 0
      ensures Valid()
    {
      this.cfg, this.func, this.draws := cfg, func, draws;
      calls, retryCounter, requestStart, clock, starts := 0, 0, now, now, [];
    }

    // t is the timeline of the current request
    ghost predicate Keeps(t: Timeline)
      reads this
    {
      t == Timeline(cfg.strategy, func, draws, t.first, requestStart) && t.Fits(starts)
    }

    /** How one request goes, if it ends at all. Calls: every attempt but the last returned a code to be retried, and
        the last one did not or the retries are used up. Outcome: the last attempt's own, unless the reserved code is
        involved. Times: see Timeline.StartsWhenDue. */
    method Process() returns (outcome: Outcome)
      requires Valid() && Ends(cfg, func, Running(0, calls))
      modifies this
      ensures calls == old(calls) + |starts| > old(calls)
      ensures forall i :: old(calls) <= i < calls - 1 ==>
                && func(i).outcome.Returned?
                && func(i).outcome.status.code in cfg.retryCodes && func(i).outcome.status.code != Invalid
      ensures var last := func(calls - 1).outcome;
              || last.Threw? || last.status.code == Invalid || last.status.code !in cfg.retryCodes
              || |starts| == MaxRetries(cfg.strategy) + 1
      ensures MaxRetries(cfg.strategy) < UINT32 - 1 ==> |starts| <= MaxRetries(cfg.strategy) + 1
      ensures var last := func(calls - 1).outcome;
              outcome == if last.Returned? then (if last.status.code == Invalid then Threw(BAD_CODE) else last)
                         else if Invalid in cfg.retryCodes then Threw(BAD_CODE) else last
      ensures Timeline(cfg.strategy, func, draws, old(calls), old(clock)).Fits(starts)
    {
      ghost var n: nat :| After(cfg, func, Running(0, calls), n).Over?;
      ghost var t := Timeline(cfg.strategy, func, draws, calls, clock);
      requestStart := clock;
      retryCounter := 0;
      starts := [];
      CallsStopAtFirstFinalAttempt(cfg, func, Running(0, calls), n);
      outcome := BaseProcess(t, n, After(cfg, func, Running(0, calls), n).calls);
    }

    // RequestHook::Process around the stored function; the request is over after n more attempts at most, the last
    // one of which is number end - 1
    method BaseProcess(ghost t: Timeline, ghost n: nat, ghost end: nat) returns (outcome: Outcome)
      requires Valid() && After(cfg, func, Running(retryCounter, calls), n) == Over(end)
      requires retryCounter == Wrapped(|starts|) && |starts| == calls - t.first
      requires Keeps(t) && clock == t.Next(starts)
      modifies this
      ensures requestStart == old(requestStart) && Keeps(t)
      ensures |starts| == calls - t.first && calls == end > old(calls)
      ensures outcome == Final(cfg.retryCodes, func(end - 1).outcome)
      decreases n, 1
    {
      t.Extend(starts);
      starts := starts + [clock];
      var attempt := func(calls);
      calls := calls + 1;
      clock := clock + attempt.duration;
      var o := attempt.outcome;
      if o.Threw? {
        var q := PostProcess(EXCEPTION_MARKER, t, o, n, end);
        if q.Returned? && q.status.code == Invalid {
          return o;
        }
        return q;
      }
      if o.status.code == Invalid {
        OneMoreAttempt(cfg, func, Running(retryCounter, calls - 1), n, end);
        return Threw(BAD_CODE);
      }
      var q := PostProcess(o.status, t, o, n, end);
      if q.Threw? {
        return q;
      }
      return Logged(q.status);
    }

    // counts one more retry and asks the strategy for the time until it
    method CountRetry(ghost t: Timeline) returns (wait: Option<real>)
      requires Valid() && calls > 0 && retryCounter == Wrapped(|starts| - 1) && |starts| == calls - t.first > 0
      requires Keeps(t) && clock == starts[|starts| - 1] + func(calls - 1).duration
      modifies `retryCounter
      ensures retryCounter == Succ(old(retryCounter)) == Wrapped(|starts|)
      ensures wait.Some? <==> retryCounter <= MaxRetries(cfg.strategy)
      ensures wait.Some? ==> clock + Max(0.0, wait.value) == t.Next(starts)
    {
      WrapAround(|starts| - 1);
      retryCounter := Succ(retryCounter);
      wait := GetDurationUntilNextRetry(cfg.strategy, retryCounter, clock - requestStart, draws(calls));
      if wait.Some? {
        t.WaitLeadsToNext(starts, clock, wait.value);
      }
    }

    method PostProcess(status: Status, ghost t: Timeline, ghost o: Outcome, ghost n: nat, ghost end: nat)
      returns (q: Outcome)
      requires Valid() && ReachesPost(o) && calls > 0
      requires After(cfg, func, Running(retryCounter, calls - 1), n) == Over(end)
      requires retryCounter == Wrapped(|starts| - 1) && |starts| == calls - t.first > 0
      requires Keeps(t) && clock == starts[|starts| - 1] + func(calls - 1).duration
      requires o == func(calls - 1).outcome && status == if o.Threw? then EXCEPTION_MARKER else o.status
      modifies this
      ensures requestStart == old(requestStart) && Keeps(t)
      ensures |starts| == calls - t.first && calls == end >= old(calls) && (o.Threw? ==> calls == old(calls))
      ensures q == (if o.Threw? && Invalid !in cfg.retryCodes then Returned(EXCEPTION_MARKER)
                    else Final(cfg.retryCodes, func(end - 1).outcome))
      decreases n, 0
    {
      OneMoreAttempt(cfg, func, Running(retryCounter, calls - 1), n, end);
      if status.code !in cfg.retryCodes {
        return Returned(status);
      }
      var wait := CountRetry(t);
      if wait.None? || status.code == Invalid {
        // both log messages name the code, and naming Invalid throws
        return Logged(status);
      }
      clock := clock + Max(0.0, wait.value);
      q := BaseProcess(t, n - 1, end);
    }
  }

  // ---------------------------------------------------------------------

  function Total(f: nat -> Attempt, from: nat, end: nat): real
    requires from <= end
    decreases end
  {
    if from == end then 0.0 else Total(f, from, end - 1) + f(end - 1).duration
  }

  /** Closed form of the schedule: attempt k starts at the latest of DueAt(j) plus the time that attempts
      j to k-1 take, over all j up to k. */
  lemma {:induction false} ScheduleClosedForm(s: Strategy, f: nat -> Attempt, first: nat, k: nat)
    ensures forall j: nat :: j <= k ==> DueAt(s, j) + Total(f, first + j, first + k) <= StartOf(s, f, first, k)
    ensures exists j: nat :: j <= k && DueAt(s, j) + Total(f, first + j, first + k) == StartOf(s, f, first, k)
  {
    if k == 0 {
      assert DueAt(s, 0) + Total(f, first + 0, first + 0) == StartOf(s, f, first, 0);
    } else {
      ScheduleClosedForm(s, f, first, k - 1);
      forall j: nat | j <= k
        ensures DueAt(s, j) + Total(f, first + j, first + k) <= StartOf(s, f, first, k)
      {
        if j < k {
          assert DueAt(s, j) + Total(f, first + j, first + (k - 1)) <= StartOf(s, f, first, k - 1);
        }
      }
      var i: nat :| i <= k - 1 && DueAt(s, i) + Total(f, first + i, first + (k - 1)) == StartOf(s, f, first, k - 1);
      if StartOf(s, f, first, k) == DueAt(s, k) {
        assert DueAt(s, k) + Total(f, first + k, first + k) == StartOf(s, f, first, k);
      } else {
        assert DueAt(s, i) + Total(f, first + i, first + k) == StartOf(s, f, first, k);
      }
    }
  }
}
