/** Nested request hooks: RequestHook::Process and RequestProcessor::Process
    (src/microservice-essentials/request/request-hook.cpp:14-69, request-processor.cpp:13-50). */
module Pipeline {
  import opened Statuses
  import opened Exceptions

  /** A hook that keeps RequestHook::Process. W is all that hooks and functions can read and change: the
      context, the state of the hooks, the outside world. */
  datatype Hook<!W> = Hook(id: nat, pre: W -> (Outcome, W), post: (W, Status) -> (Outcome, W))

  datatype AnyHook<!W> = Base(hook: Hook<W>) | Handling(mappers: seq<Mapper>)

  /** The wrapper closures: the function itself, or a hook around another wrapper. */
  datatype Func<!W> = Body(run: W -> (Outcome, W)) | Wrapped(outer: AnyHook<W>, inner: Func<W>)

  datatype Event = PreOf(id: nat) | BodyRun | PostOf(id: nat)

  datatype Result<W> = Result(outcome: Outcome, world: W, trace: seq<Event>)

  /** What calling a wrapper does. */
  function Call<W>(f: Func<W>, w: W): Result<W>
    decreases f
  {
    match f
    case Body(run) =>
      var (o, w1) := run(w);
      Result(o, w1, [BodyRun])
    case Wrapped(Handling(mappers), inner) =>
      var r := Call(inner, w);
      if r.outcome.Threw? then r.(outcome := Handled(mappers, r.outcome.exn)) else r
    case Wrapped(Base(h), inner) =>
      var (p, w1) := h.pre(w);
      if p.Threw? then Result(p, w1, [PreOf(h.id)])
      else if !p.status.IsOk() then Result(Logged(p.status), w1, [PreOf(h.id)])
      else
        var r := Call(inner, w1);
        var (o, w2) := LeaveHook(h, r.outcome, r.world);
        Result(o, w2, [PreOf(h.id)] + (r.trace + if ReachesPost(r.outcome) then [PostOf(h.id)] else []))
  }

  /** What Process does after the function: post_process, if it gets there. */
  function LeaveHook<W>(h: Hook<W>, o: Outcome, w: W): (Outcome, W) {
    if ReachesPost(o) then
      var (q, w1) := h.post(w, if o.Threw? then EXCEPTION_MARKER else o.status);
      (AfterPost(o, q), w1)
    else (Threw(BAD_CODE), w)
  }

  /** How Process ends once post_process has ended with q after the function ended with o. */
  function AfterPost(o: Outcome, q: Outcome): Outcome {
    if q.Threw? then q
    else if o.Threw? then (if q.status.code == Invalid then o else q)
    else Logged(q.status)
  }

  /** What becomes of a call that a hook does not let in. */
  lemma HookRefuses<W>(h: Hook<W>, inner: Func<W>, w: W)
    requires h.pre(w).0.Threw? || h.pre(w).0.status.code != Ok
    ensures var (p, w1) := h.pre(w);
            Call(Wrapped(Base(h), inner), w)
            == Result(if p.Returned? && p.status.code == Invalid then Threw(BAD_CODE) else p, w1, [PreOf(h.id)])
  {
  }

  /** What becomes of one that it lets in. Unless the inner call returns the reserved code, post_process decides: its
      status or exception comes out, whatever the inner call ended with. Only if it answers with the reserved code
      an exception of the inner call goes on, and an ordinary return ends in an exception. */
  lemma PostDecides<W>(h: Hook<W>, inner: Func<W>, w: W)
    requires h.pre(w).0.Returned? && h.pre(w).0.status.code == Ok
    ensures var i, r := Call(inner, h.pre(w).1), Call(Wrapped(Base(h), inner), w);
            if i.outcome.Returned? && i.outcome.status.code == Invalid then
              r == Result(Threw(BAD_CODE), i.world, [PreOf(h.id)] + i.trace)
            else
              var (q, w2) := h.post(i.world, if i.outcome.Threw? then Status(Invalid, "exception during request")
                                             else i.outcome.status);
              && r.world == w2
              && r.trace == [PreOf(h.id)] + i.trace + [PostOf(h.id)]
              && r.outcome == if q.Threw? || q.status.code != Invalid then q
                              else if i.outcome.Threw? then i.outcome
                              else Threw(BAD_CODE)
  {
    var i := Call(inner, h.pre(w).1);
    assert [PreOf(h.id)] + (i.trace + []) == [PreOf(h.id)] + i.trace;
    assert [PreOf(h.id)] + (i.trace + [PostOf(h.id)]) == [PreOf(h.id)] + i.trace + [PostOf(h.id)];
  }

  /** A handling hook only touches exceptions: the first mapper that takes one decides, if there is one. */
  lemma HandlingDecides<W>(mappers: seq<Mapper>, inner: Func<W>, w: W)
    ensures var i, r := Call(inner, w), Call(Wrapped(Handling(mappers), inner), w);
            && r.world == i.world && r.trace == i.trace
            && (i.outcome.Returned? ==> r.outcome == i.outcome)
            && (i.outcome.Threw? && (forall k :: 0 <= k < |mappers| ==> Map(mappers[k], i.outcome.exn).None?) ==>
                  r.outcome == i.outcome)
            && (i.outcome.Threw? ==> forall k :: IsFirstMatch(mappers, k, i.outcome.exn) ==>
                  r.outcome == Returned(Answer(Map(mappers[k], i.outcome.exn).value, i.outcome.exn)))
  {
    if Call(inner, w).outcome.Threw? {
      HandledByFirstMatch(mappers, Call(inner, w).outcome.exn);
    }
  }

  /** One request being processed: the world it acts on and what has happened. */
  class Execution<W> {
    var world: W
    var trace: seq<Event>

    constructor (world: W)
      ensures this.world == world && trace == []
    {
      this.world, trace := world, [];
    }

    method Invoke(f: Func<W>) returns (outcome: Outcome)
      modifies this
      decreases f, 1
      ensures var r := Call(f, old(world));
              outcome == r.outcome && world == r.world && trace == old(trace) + r.trace
    {
      match f
      case Body(run) =>
        var (o, w) := run(world);
        world := w;
        trace := trace + [BodyRun];
        outcome := o;
      case Wrapped(Handling(mappers), inner) =>
        outcome := ProcessHandling(mappers, inner);
      case Wrapped(Base(h), inner) =>
        outcome := Process(h, inner);
    }

    method Process(h: Hook<W>, inner: Func<W>) returns (outcome: Outcome)
      modifies this
      decreases inner, 2
      ensures var r := Call(Wrapped(Base(h), inner), old(world));
              outcome == r.outcome && world == r.world && trace == old(trace) + r.trace
    {
      var (p, w1) := h.pre(world);
      world, trace := w1, trace + [PreOf(h.id)];
      if p.Threw? {
        return p;
      }
      if !p.status.IsOk() {
        return Logged(p.status);
      }
      ghost var before := trace;
      var o := Invoke(inner);
      ghost var inside := Call(inner, w1);
      assert trace == before + inside.trace == old(trace) + ([PreOf(h.id)] + inside.trace);
      if o.Threw? {
        var (q, w2) := h.post(world, EXCEPTION_MARKER);
        world, trace := w2, trace + [PostOf(h.id)];
        assert trace == old(trace) + ([PreOf(h.id)] + (inside.trace + [PostOf(h.id)]));
        if q.Returned? && q.status.code == Invalid {
          return o;
        }
        return q;
      }
      if o.status.code == Invalid {
        assert trace == old(trace) + ([PreOf(h.id)] + (inside.trace + []));
        return Threw(BAD_CODE);
      }
      var (q, w2) := h.post(world, o.status);
      world, trace := w2, trace + [PostOf(h.id)];
      assert trace == old(trace) + ([PreOf(h.id)] + (inside.trace + [PostOf(h.id)]));
      if q.Threw? {
        return q;
      }
      return Logged(q.status);
    }

    // ExceptionHandlingRequestHook::Process
    method ProcessHandling(mappers: seq<Mapper>, inner: Func<W>) returns (outcome: Outcome)
      modifies this
      decreases inner, 2
      ensures var r := Call(Wrapped(Handling(mappers), inner), old(world));
              outcome == r.outcome && world == r.world && trace == old(trace) + r.trace
    {
      outcome := Invoke(inner);
      if outcome.Threw? {
        for i := 0 to |mappers|
          invariant Handled(mappers, outcome.exn) == Handled(mappers[i..], outcome.exn)
        {
          var definition := Map(mappers[i], outcome.exn);
          if definition.Some? {
            if !definition.value.logged && !definition.value.forwardDetails {
              return Returned(definition.value.status);
            }
            var details := ExceptionDetails(outcome.exn);
            if definition.value.forwardDetails {
              var status := definition.value.status;
              if status.details == "" {
                status := status.(details := details);
              } else {
                status := status.(details := status.details + ": " + details);
              }
              return Returned(status);
            }
            return Returned(definition.value.status);
          }
        }
      }
    }
  }

  // ---------------------------------------------------------------------
  // Building the stack

  function Nest<W>(hooks: seq<AnyHook<W>>, f: Func<W>): Func<W> {
    if hooks == [] then f else Wrapped(hooks[0], Nest(hooks[1..], f))
  }

  datatype Registration<!W> = WithHook(hook: AnyHook<W>) | BeginWithHook(hook: AnyHook<W>)

  function Register<W>(hooks: seq<AnyHook<W>>, r: Registration<W>): seq<AnyHook<W>> {
    match r
    case WithHook(h) => hooks + [h]
    case BeginWithHook(h) => [h] + hooks
  }

  function RegisterAll<W>(hooks: seq<AnyHook<W>>, rs: seq<Registration<W>>): seq<AnyHook<W>>
    decreases |rs|
  {
    if rs == [] then hooks else RegisterAll(Register(hooks, rs[0]), rs[1..])
  }

  class RequestProcessor<W> {
    const requestName: string
    // puts a new context, which holds the request's name, below the processor's own
    const enter: (string, W) -> W
    var hooks: seq<AnyHook<W>>

    // the global hooks are added first, one With each
    constructor (requestName: string, enter: (string, W) -> W, globals: seq<AnyHook<W>>)
      ensures this.requestName == requestName && this.enter == enter && hooks == globals
    {
      this.requestName, this.enter, hooks := requestName, enter, [];
      new;
      for i := 0 to |globals|
        invariant hooks == globals[..i]
      {
        With(globals[i]);
      }
    }

    method With(h: AnyHook<W>)
      modifies this
      ensures hooks == Register(old(hooks), WithHook(h))
    {
      hooks := hooks + [h];
    }

    method BeginWith(h: AnyHook<W>)
      modifies this
      ensures hooks == Register(old(hooks), BeginWithHook(h))
    {
      hooks := [h] + hooks;
    }

    method Process(run: W -> (Outcome, W), world: W) returns (outcome: Outcome, execution: Execution<W>)
      ensures var r := Call(Nest(hooks, Body(run)), enter(requestName, world));
              outcome == r.outcome && execution.world == r.world && execution.trace == r.trace
    {
      var wrapper := Body(run);
      var i := |hooks|;
      while i > 0
        invariant 0 <= i <= |hooks|
        invariant wrapper == Nest(hooks[i..], Body(run))
      {
        i := i - 1;
        wrapper := Wrapped(hooks[i], wrapper);
      }
      execution := new Execution(enter(requestName, world));
      outcome := execution.Invoke(wrapper);
    }
  }

  function Begins<W>(rs: seq<Registration<W>>): seq<AnyHook<W>> {
    if rs == [] then []
    else if rs[0].BeginWithHook? then Begins(rs[1..]) + [rs[0].hook]
    else Begins(rs[1..])
  }

  function Withs<W>(rs: seq<Registration<W>>): seq<AnyHook<W>> {
    if rs == [] then []
    else if rs[0].WithHook? then [rs[0].hook] + Withs(rs[1..])
    else Withs(rs[1..])
  }

  /** However With and BeginWith are mixed: the BeginWith hooks, last one outermost, then the global ones,
      then the With hooks in the order of their registration. */
  lemma {:induction false} StackOrder<W>(hooks: seq<AnyHook<W>>, rs: seq<Registration<W>>)
    ensures RegisterAll(hooks, rs) == Begins(rs) + hooks + Withs(rs)
    decreases |rs|
  {
    if rs != [] {
      StackOrder(Register(hooks, rs[0]), rs[1..]);
    }
  }

  // ---------------------------------------------------------------------
  // Order of the calls

  function Bases<W>(hs: seq<Hook<W>>): seq<AnyHook<W>> {
    if hs == [] then [] else [Base(hs[0])] + Bases(hs[1..])
  }

  /** Number of leading hooks whose pre_process returns OK, and the world they leave. */
  function Entered<W>(hs: seq<Hook<W>>, w: W): (r: (nat, W))
    ensures r.0 <= |hs|
  {
    if hs == [] then (0, w)
    else
      var (p, w1) := hs[0].pre(w);
      if p.Returned? && p.status.IsOk() then
        var (n, w2) := Entered(hs[1..], w1);
        (n + 1, w2)
      else (0, w)
  }

  function Pres<W>(hs: seq<Hook<W>>): seq<Event> {
    if hs == [] then [] else [PreOf(hs[0].id)] + Pres(hs[1..])
  }

  function Posts<W>(hs: seq<Hook<W>>): seq<Event> {
    if hs == [] then [] else Posts(hs[1..]) + [PostOf(hs[0].id)]
  }

  // every pre_process returned OK, and the function then returned the reserved code
  predicate BodyReturnsInvalid<W>(hs: seq<Hook<W>>, run: W -> (Outcome, W), w: W) {
    var (n, w1) := Entered(hs, w);
    n == |hs| && !ReachesPost(run(w1).0)
  }

  // the trace of a stack, given how far it is entered
  function StackTrace<W>(hs: seq<Hook<W>>, n: nat, lastPost: bool): seq<Event>
    requires n <= |hs|
  {
    Pres(hs[..n])
    + (if n < |hs| then [PreOf(hs[n].id)] else [BodyRun])
    + Posts(if n > 0 && !lastPost then hs[..n - 1] else hs[..n])
  }

  lemma StackTraceOfRest<W>(hs: seq<Hook<W>>, n: nat, lastPost: bool)
    requires 0 < n <= |hs| && (n == 1 ==> lastPost)
    ensures StackTrace(hs, n, lastPost) == [PreOf(hs[0].id)] + StackTrace(hs[1..], n - 1, lastPost) + [PostOf(hs[0].id)]
  {
    assert hs[..n] == [hs[0]] + hs[1..][..n - 1];
    if n > 1 {
      assert hs[..n - 1] == [hs[0]] + hs[1..][..n - 2];
    }
  }

  // the outermost hook lets the call in ...
  lemma {:induction false} CallEnters<W>(hs: seq<Hook<W>>, run: W -> (Outcome, W), w: W)
    requires hs != [] && hs[0].pre(w).0.Returned? && hs[0].pre(w).0.status.IsOk()
    ensures var r := Call(Nest(Bases(hs[1..]), Body(run)), hs[0].pre(w).1);
            var (o, w2) := LeaveHook(hs[0], r.outcome, r.world);
            Call(Nest(Bases(hs), Body(run)), w)
            == Result(o, w2, [PreOf(hs[0].id)] + (r.trace + if ReachesPost(r.outcome) then [PostOf(hs[0].id)] else []))
  {
    assert Bases(hs)[1..] == Bases(hs[1..]);
  }

  // ... or not
  lemma {:induction false} CallStops<W>(hs: seq<Hook<W>>, run: W -> (Outcome, W), w: W)
    requires hs != [] && !(hs[0].pre(w).0.Returned? && hs[0].pre(w).0.status.IsOk())
    ensures var (p, w1) := hs[0].pre(w);
            Call(Nest(Bases(hs), Body(run)), w)
            == Result(if p.Threw? then p else Logged(p.status), w1, [PreOf(hs[0].id)])
  {
    assert Bases(hs)[1..] == Bases(hs[1..]);
  }

  /** The trace of any stack of hooks, whatever they and the function return or throw: pre_process calls in
      order up to the first that does not return OK; the function iff all of them do; then one post_process
      call, in reverse order, for each hook entered - but for the innermost if the function returns Invalid. */
  lemma {:induction false} TraceOfStack<W>(hs: seq<Hook<W>>, run: W -> (Outcome, W), w: W)
    ensures var r := Call(Nest(Bases(hs), Body(run)), w);
            && (hs != [] ==> ReachesPost(r.outcome))
            && r.trace == StackTrace(hs, Entered(hs, w).0, !BodyReturnsInvalid(hs, run, w))
  {
    if hs != [] {
      var (p, w1) := hs[0].pre(w);
      if p.Returned? && p.status.IsOk() {
        TraceOfStack(hs[1..], run, w1);
        CallEnters(hs, run, w);
        TraceOfRest(hs, Entered(hs, w).0, !BodyReturnsInvalid(hs, run, w));
      } else {
        CallStops(hs, run, w);
      }
    }
  }

  // the same one hook further in; only the innermost of the hooks entered can lack its post_process
  lemma TraceOfRest<W>(hs: seq<Hook<W>>, n: nat, lastPost: bool)
    requires 0 < n <= |hs|
    ensures StackTrace(hs, n, lastPost)
            == [PreOf(hs[0].id)]
               + (StackTrace(hs[1..], n - 1, lastPost) + if n > 1 || lastPost then [PostOf(hs[0].id)] else [])
  {
    if n > 1 || lastPost {
      StackTraceOfRest(hs, n, lastPost);
    } else {
      assert hs[..1] == [hs[0]] && Pres(hs[..1]) == [PreOf(hs[0].id)];
    }
  }

  /** Well bracketed: each pre_process that returned OK is matched, in reverse order, by one post_process. */
  ghost predicate Bracketed<W>(hs: seq<Hook<W>>, n: nat, trace: seq<Event>)
    requires n <= |hs|
  {
    exists middle :: |middle| == 1 && trace == Pres(hs[..n]) + middle + Posts(hs[..n])
  }

  /** The calls are well bracketed unless the function inside at least one hook returns the reserved code. */
  lemma BracketedIff<W>(hs: seq<Hook<W>>, run: W -> (Outcome, W), w: W)
    ensures Bracketed(hs, Entered(hs, w).0, Call(Nest(Bases(hs), Body(run)), w).trace)
            <==> !(hs != [] && BodyReturnsInvalid(hs, run, w))
  {
    TraceOfStack(hs, run, w);
    var n := Entered(hs, w).0;
    var trace := Call(Nest(Bases(hs), Body(run)), w).trace;
    LengthsOf(hs[..n]);
    if hs != [] && BodyReturnsInvalid(hs, run, w) {
      LengthsOf(hs[..n - 1]);
      assert |trace| == 2 * n;
    } else {
      var middle := if n < |hs| then [PreOf(hs[n].id)] else [BodyRun];
      assert trace == Pres(hs[..n]) + middle + Posts(hs[..n]);
    }
  }

  lemma {:induction false} LengthsOf<W>(hs: seq<Hook<W>>)
    ensures |Pres(hs)| == |Posts(hs)| == |hs|
    ensures BodyRun !in Pres(hs) && BodyRun !in Posts(hs)
  {
    if hs != [] {
      LengthsOf(hs[1..]);
    }
  }

  /** The function runs exactly when every pre_process returns OK. */
  lemma BodyRunsIff<W>(hs: seq<Hook<W>>, run: W -> (Outcome, W), w: W)
    ensures BodyRun in Call(Nest(Bases(hs), Body(run)), w).trace <==> Entered(hs, w).0 == |hs|
  {
    TraceOfStack(hs, run, w);
    var n := Entered(hs, w).0;
    LengthsOf(hs[..n]);
    if n > 0 {
      LengthsOf(hs[..n - 1]);
    }
  }

  // ---------------------------------------------------------------------
  // Outcome of a stack, as two phases: going in, then coming out

  /** Number of leading hooks that let the call in, and the world they leave; handling hooks always do. */
  function Passed<W>(hs: seq<AnyHook<W>>, w: W): (r: (nat, W))
    ensures r.0 <= |hs| && (r.0 < |hs| ==> hs[r.0].Base?)
  {
    if hs == [] then (0, w)
    else
      match hs[0]
      case Handling(_) =>
        var (n, w2) := Passed(hs[1..], w);
        (n + 1, w2)
      case Base(h) =>
        var (p, w1) := h.pre(w);
        if p.Returned? && p.status.IsOk() then
          var (n, w2) := Passed(hs[1..], w1);
          (n + 1, w2)
        else (0, w)
  }

  /** What stands at the innermost point reached: the function's result, or that of the pre_process that did
      not return OK. */
  function Core<W>(hs: seq<AnyHook<W>>, run: W -> (Outcome, W), w: W): (Outcome, W) {
    var (n, w1) := Passed(hs, w);
    if n == |hs| then run(w1)
    else
      var (p, w2) := hs[n].hook.pre(w1);
      (if p.Threw? then p else Logged(p.status), w2)
  }

  /** What a hook that let the call in makes of its outcome. */
  function Leave<W>(h: AnyHook<W>, o: Outcome, w: W): (Outcome, W) {
    match h
    case Base(hook) => LeaveHook(hook, o, w)
    case Handling(mappers) => (if o.Threw? then Handled(mappers, o.exn) else o, w)
  }

  /** What the hooks passed make of it on the way out, the innermost first. */
  function Unwind<W>(passed: seq<AnyHook<W>>, o: Outcome, w: W): (Outcome, W)
    decreases |passed|
  {
    if passed == [] then (o, w)
    else
      var (o1, w1) := Leave(passed[|passed| - 1], o, w);
      Unwind(passed[..|passed| - 1], o1, w1)
  }

  lemma {:induction false} OutermostLeavesLast<W>(h: AnyHook<W>, inner: seq<AnyHook<W>>, o: Outcome, w: W)
    ensures Unwind([h] + inner, o, w) == (var (o1, w1) := Unwind(inner, o, w); Leave(h, o1, w1))
    decreases |inner|
  {
    var all, n := [h] + inner, |inner|;
    if inner == [] {
      assert all[..0] == [];
    } else {
      var (o1, w1) := Leave(inner[n - 1], o, w);
      assert all[..n] == [h] + inner[..n - 1];
      OutermostLeavesLast(h, inner[..n - 1], o1, w1);
    }
  }

  // the world that the outermost hook leaves to the rest of the stack
  function Inside<W>(h: AnyHook<W>, w: W): W {
    if h.Base? then h.hook.pre(w).1 else w
  }

  lemma {:induction false} RestIsPassed<W>(hs: seq<AnyHook<W>>, run: W -> (Outcome, W), w: W)
    requires hs != [] && Passed(hs, w).0 > 0
    ensures Passed(hs[1..], Inside(hs[0], w)) == (Passed(hs, w).0 - 1, Passed(hs, w).1)
    ensures Core(hs[1..], run, Inside(hs[0], w)) == Core(hs, run, w)
  {
    var n := Passed(hs, w).0;
    assert Passed(hs[1..], Inside(hs[0], w)) == (n - 1, Passed(hs, w).1);
    if n < |hs| {
      assert hs[1..][n - 1] == hs[n];
    }
  }

  lemma {:induction false} OutermostCall<W>(hs: seq<AnyHook<W>>, run: W -> (Outcome, W), w: W)
    requires hs != [] && Passed(hs, w).0 > 0
    ensures var inner, r := Call(Nest(hs[1..], Body(run)), Inside(hs[0], w)), Call(Nest(hs, Body(run)), w);
            (r.outcome, r.world) == Leave(hs[0], inner.outcome, inner.world)
  {
    var rest := Nest(hs[1..], Body(run));
    assert Nest(hs, Body(run)) == Wrapped(hs[0], rest);
    match hs[0]
    case Handling(_) =>
      assert Inside(hs[0], w) == w;
    case Base(h) =>
      assert h.pre(w).0.Returned? && h.pre(w).0.status.IsOk() && Inside(hs[0], w) == h.pre(w).1;
  }

  lemma {:induction false} NoneIsPassed<W>(hs: seq<AnyHook<W>>, run: W -> (Outcome, W), w: W)
    requires Passed(hs, w).0 == 0
    ensures var r := Call(Nest(hs, Body(run)), w);
            (r.outcome, r.world) == Core(hs, run, w)
  {
    if hs == [] {
      var (o, w1) := run(w);
      assert Nest(hs, Body(run)) == Body(run) && Call(Body(run), w) == Result(o, w1, [BodyRun]);
      assert Core(hs, run, w) == (o, w1);
    } else {
      assert Nest(hs, Body(run)) == Wrapped(hs[0], Nest(hs[1..], Body(run)));
      assert hs[0].Base? && Passed(hs, w) == (0, w);
      var (p, w2) := hs[0].hook.pre(w);
      assert !(p.Returned? && p.status.IsOk());
      assert Core(hs, run, w) == (if p.Threw? then p else Logged(p.status), w2);
    }
  }

  /** Nested calls of Process end as the two phases say, with the same outcome and the same world, whatever hooks
      the stack mixes. */
  lemma {:induction false} StackIsTwoPhase<W>(hs: seq<AnyHook<W>>, run: W -> (Outcome, W), w: W)
    ensures var r := Call(Nest(hs, Body(run)), w);
            (r.outcome, r.world) == Unwind(hs[..Passed(hs, w).0], Core(hs, run, w).0, Core(hs, run, w).1)
    decreases |hs|
  {
    if hs != [] && Passed(hs, w).0 > 0 {
      var n := Passed(hs, w).0;
      var (o, v) := Core(hs, run, w);
      RestIsPassed(hs, run, w);
      OutermostCall(hs, run, w);
      StackIsTwoPhase(hs[1..], run, Inside(hs[0], w));
      assert hs[..n] == [hs[0]] + hs[1..][..n - 1];
      OutermostLeavesLast(hs[0], hs[1..][..n - 1], o, v);
    } else {
      NoneIsPassed(hs, run, w);
      assert hs[..0] == [];
    }
  }

  // ---------------------------------------------------------------------
  // Exceptions

  /** post_process answers the exception marker with the reserved code, as the default one does. */
  ghost predicate KeepsMarker<W(!new)>(h: Hook<W>) {
    forall w :: var q := h.post(w, EXCEPTION_MARKER).0; q.Returned? && q.status.code == Invalid
  }

  /** An exception crosses any stack of such hooks unchanged. */
  lemma {:induction false} ExceptionCrosses<W(!new)>(hs: seq<Hook<W>>, f: Func<W>, w: W)
    requires forall h :: h in hs ==> KeepsMarker(h)
    requires Entered(hs, w).0 == |hs| && Call(f, Entered(hs, w).1).outcome.Threw?
    ensures Call(Nest(Bases(hs), f), w).outcome == Call(f, Entered(hs, w).1).outcome
  {
    if hs != [] {
      assert KeepsMarker(hs[0]);
      assert Bases(hs)[1..] == Bases(hs[1..]);
      ExceptionCrosses(hs[1..], f, hs[0].pre(w).1);
    }
  }

  /** An exception-handling hook around a stack of other hooks. */
  function Incoming<W>(mappers: seq<Mapper>, hs: seq<Hook<W>>, f: Func<W>): Func<W> {
    Wrapped(Handling(mappers), Nest(Bases(hs), f))
  }

  lemma HandledAroundHooks<W(!new)>(mappers: seq<Mapper>, hs: seq<Hook<W>>, f: Func<W>, w: W)
    requires forall h :: h in hs ==> KeepsMarker(h)
    requires Entered(hs, w).0 == |hs| && Call(f, Entered(hs, w).1).outcome.Threw?
    ensures Call(Incoming(mappers, hs, f), w).outcome
            == Handled(mappers, Call(f, Entered(hs, w).1).outcome.exn)
  {
    ExceptionCrosses(hs, f, w);
  }

  /** Up to the nearest exception-handling hook, where the first matching mapper decides. */
  lemma FirstMapperDecides<W(!new)>(mappers: seq<Mapper>, hs: seq<Hook<W>>, f: Func<W>, w: W)
    requires forall h :: h in hs ==> KeepsMarker(h)
    requires Entered(hs, w).0 == |hs| && Call(f, Entered(hs, w).1).outcome.Threw?
    ensures var e := Call(f, Entered(hs, w).1).outcome.exn;
            var o := Call(Incoming(mappers, hs, f), w).outcome;
            && (o == Threw(e) <==> forall i :: 0 <= i < |mappers| ==> Map(mappers[i], e).None?)
            && (forall i :: IsFirstMatch(mappers, i, e) ==> o == Returned(Answer(Map(mappers[i], e).value, e)))
  {
    HandledAroundHooks(mappers, hs, f, w);
    HandledByFirstMatch(mappers, Call(f, Entered(hs, w).1).outcome.exn);
  }

  /** The hook with the default mappers never lets an exception out. */
  lemma DefaultHandlingIsTotal<W>(inner: Func<W>, w: W)
    ensures Call(Wrapped(Handling(DEFAULT_MAPPERS), inner), w).outcome.Returned?
  {
    var r := Call(inner, w);
    if r.outcome.Threw? {
      DefaultAnswers(r.outcome.exn);
    }
  }

  // ---------------------------------------------------------------------
  // Error forwarding

  function ForwardingHook<W>(id: nat, mapping: map<StatusCode, Status>, request: W -> string): Hook<W> {
    Hook(id, (w: W) => (Returned(OK), w), (w: W, s: Status) => (Forward(mapping, request(w), s), w))
  }

  function Issued<W>(
      id: nat, mapping: map<StatusCode, Status>, request: W -> string, callee: W -> (Outcome, W)): Func<W>
  {
    Wrapped(Base(ForwardingHook(id, mapping, request)), Body(callee))
  }

  lemma IssuedOutcome<W>(
      id: nat, mapping: map<StatusCode, Status>, request: W -> string, callee: W -> (Outcome, W), v: W)
    requires callee(v).0.Returned? && callee(v).0.status.code != Invalid
    ensures var s, o := callee(v).0.status, Call(Issued(id, mapping, request, callee), v).outcome;
            if s.code in mapping then
              && o.Threw? && o.exn.forwarded == Some(mapping[s.code])
              && o.exn.what == request(callee(v).1) + " received " + Name(s.code)
                               + (if s.details == "" then "" else "(" + s.details + ")")
            else o == Returned(s)
  {
  }

  lemma ForwardedAroundHooks<W(!new)>(hs: seq<Hook<W>>, f: Func<W>, w: W)
    requires forall h :: h in hs ==> KeepsMarker(h)
    requires Entered(hs, w).0 == |hs| && Call(f, Entered(hs, w).1).outcome.Threw?
    requires Call(f, Entered(hs, w).1).outcome.exn.forwarded.Some?
    ensures Call(Incoming(DEFAULT_MAPPERS, hs, f), w).outcome
            == Returned(Call(f, Entered(hs, w).1).outcome.exn.forwarded.value)
  {
    HandledAroundHooks(DEFAULT_MAPPERS, hs, f, w);
    DefaultAnswers(Call(f, Entered(hs, w).1).outcome.exn);
  }

  /** A callee status in the forwarding map comes out of the incoming request as exactly the status it is
      mapped to, through any hooks in between; any other ordinary status goes back to the handler unchanged. */
  lemma CalleeStatusIsForwarded<W(!new)>(
      id: nat, mapping: map<StatusCode, Status>, request: W -> string, callee: W -> (Outcome, W),
      hs: seq<Hook<W>>, w: W, s: Status, f: Func<W>)
    requires f == Issued(id, mapping, request, callee)
    requires forall h :: h in hs ==> KeepsMarker(h)
    requires Entered(hs, w).0 == |hs|
    requires callee(Entered(hs, w).1).0 == Returned(s) && s.code != Invalid
    ensures s.code in mapping ==> Call(Incoming(DEFAULT_MAPPERS, hs, f), w).outcome == Returned(mapping[s.code])
    ensures s.code !in mapping ==> Call(f, Entered(hs, w).1).outcome == Returned(s)
  {
    var v := Entered(hs, w).1;
    var o := Call(f, v).outcome;
    assert if s.code in mapping then o.Threw? && o.exn.forwarded == Some(mapping[s.code]) else o == Returned(s) by {
      IssuedOutcome(id, mapping, request, callee, v);
    }
    if s.code in mapping {
      ForwardedAroundHooks(hs, f, w);
    }
  }

  /** A callee's exception leaves the forwarding hook unchanged exactly when the reserved code is not mapped. */
  lemma CalleeExceptionPassesIff<W>(
      id: nat, mapping: map<StatusCode, Status>, request: W -> string, callee: W -> (Outcome, W), w: W)
    requires callee(w).0.Threw? && callee(w).0.exn != BAD_CODE
    ensures Call(Issued(id, mapping, request, callee), w).outcome == callee(w).0
            <==> Invalid !in mapping
  {
  }
}
