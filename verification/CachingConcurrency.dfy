/** Any number of requests through hooks that share one cache, interleaved between the cache's locked operations
    (src/microservice-essentials/performance/caching-request-hook.cpp:109-222). */
module CachingConcurrency {
  import opened Statuses
  import opened LruCache
  import opened CachingHook

  /** How far a request is: nothing looked up yet; an expired element found, not removed yet; about to call the
      function; the function has ended and its result is about to be inserted; over. */
  datatype Phase = Arrived | Expired | Missing | Storing(outcome: Outcome) | Ended(outcome: Outcome)

  // each request has a hook of its own, with that hook's parameters, and an object of its own
  datatype Call<!V> = Call(cfg: Config<V>, request: Request<V>, obj: V, phase: Phase)

  datatype Sys<!V> = Sys(cache: Backing<V>, calls: seq<Call<V>>)

  datatype Step<!V> =
    | Arrive(cfg: Config<V>, request: Request<V>, obj: V)
    | Look(id: nat)
    | Drop(id: nat)
    | Run(id: nat)
    | Store(id: nat)

  predicate Enabled<V>(s: Sys<V>, step: Step<V>) {
    match step
    case Arrive(_, _, _) => true
    case Look(id) => id < |s.calls| && s.calls[id].phase.Arrived?
    case Drop(id) => id < |s.calls| && s.calls[id].phase.Expired?
    case Run(id) => id < |s.calls| && s.calls[id].phase.Missing?
    case Store(id) => id < |s.calls| && s.calls[id].phase.Storing? && s.calls[id].phase.outcome.Returned?
  }

  function AfterLook<V>(b: Backing<V>, c: Call<V>): Call<V> {
    var e := Found(b, c.request.key);
    if !e.IsValid() then c.(phase := Missing)
    else if Hit(c.cfg, b, c.request) then c.(obj := e.data.value, phase := Ended(Returned(e.status)))
    else c.(phase := Expired)
  }

  function AfterRun<V>(c: Call<V>): Call<V> {
    var (o, obj) := c.request.func(c.obj);
    c.(obj := obj, phase := if Stored(c.cfg, o) then Storing(o) else Ended(o))
  }

  function ToStore<V>(c: Call<V>): Element<V>
    requires c.phase.Storing? && c.phase.outcome.Returned?
  {
    Element(c.cfg.writer(c.obj), c.phase.outcome.status, c.request.storedAt)
  }

  function Next<V>(s: Sys<V>, step: Step<V>): Sys<V>
    requires Enabled(s, step) && (s.cache.LruBacked? ==> s.cache.cap >= 1)
  {
    match step
    case Arrive(cfg, r, obj) =>
      s.(calls := s.calls + [Call(cfg, r, obj, Arrived)])
    case Look(id) =>
      Sys(Looked(s.cache, s.calls[id].request.key), s.calls[id := AfterLook(s.cache, s.calls[id])])
    case Drop(id) =>
      Sys(Removed(s.cache, s.calls[id].request.key), s.calls[id := s.calls[id].(phase := Missing)])
    case Run(id) =>
      s.(calls := s.calls[id := AfterRun(s.calls[id])])
    case Store(id) =>
      var c := s.calls[id];
      Sys(Inserted(s.cache, c.request.key, ToStore(c)), s.calls[id := c.(phase := Ended(c.phase.outcome))])
  }

  // ---------------------------------------------------------------------
  // Every request ends with the result of its key

  /** A request that has called the function or found its result has the result of its key. */
  ghost predicate Faithful<V(!new)>(result: Key -> (Outcome, V), c: Call<V>) {
    && StoresObject(c.cfg) && KeyDetermined(result, c.request)
    && (c.phase.Storing? || c.phase.Ended? ==> (c.phase.outcome, c.obj) == result(c.request.key))
  }

  ghost predicate Good<V(!new)>(result: Key -> (Outcome, V), s: Sys<V>) {
    && Ready(s.cache) && Truthful(result, s.cache)
    && (forall i :: 0 <= i < |s.calls| ==> Faithful(result, s.calls[i]))
  }

  /** An arriving request stores the object itself, and its function's result depends on the key only. */
  ghost predicate Admissible<V(!new)>(result: Key -> (Outcome, V), step: Step<V>) {
    step.Arrive? ==> StoresObject(step.cfg) && KeyDetermined(result, step.request)
  }

  lemma LookingKeepsReady<V>(b: Backing<V>, k: Key)
    requires Ready(b)
    ensures Ready(Looked(b, k)) && Ready(Removed(b, k))
  {
    if b.LruBacked? {
      GetKeepsSafe(b.lru, b.cap, k);
      RemoveKeepsSafe(b.lru, b.cap, k);
    }
  }

  lemma InsertingKeepsReady<V>(b: Backing<V>, k: Key, e: Element<V>)
    requires Ready(b)
    ensures Ready(Inserted(b, k, e))
  {
    if b.LruBacked? {
      InsertKeepsSafe(b.lru, b.cap, k, e);
    }
  }

  lemma CacheStaysGood<V(!new)>(result: Key -> (Outcome, V), s: Sys<V>, step: Step<V>)
    requires Enabled(s, step) && Good(result, s)
    ensures Ready(Next(s, step).cache) && Truthful(result, Next(s, step).cache)
  {
    if step.Look? || step.Drop? {
      LookingKeepsReady(s.cache, s.calls[step.id].request.key);
      RemovingKeepsTruth(result, s.cache, s.calls[step.id].request.key);
    } else if step.Store? {
      var c := s.calls[step.id];
      assert Faithful(result, c);
      InsertingKeepsReady(s.cache, c.request.key, ToStore(c));
      InsertingKeepsTruth(result, s.cache, c.request.key, ToStore(c));
    }
  }

  lemma CallStaysFaithful<V(!new)>(
      result: Key -> (Outcome, V), s: Sys<V>, step: Step<V>, i: nat)
    requires Enabled(s, step) && Good(result, s) && i < |Next(s, step).calls|
    requires Admissible(result, step)
    ensures Faithful(result, Next(s, step).calls[i])
  {
    if i < |s.calls| {
      assert Faithful(result, s.calls[i]);
    }
  }

  /** Every step keeps the cache usable and true, and every request faithful. */
  lemma StepStaysGood<V(!new)>(result: Key -> (Outcome, V), s: Sys<V>, step: Step<V>)
    requires Enabled(s, step) && Good(result, s)
    requires Admissible(result, step)
    ensures Good(result, Next(s, step))
  {
    CacheStaysGood(result, s, step);
    forall i | 0 <= i < |Next(s, step).calls|
      ensures Faithful(result, Next(s, step).calls[i])
    {
      CallStaysFaithful(result, s, step, i);
    }
  }

  /** t is reached from s by the steps. */
  ghost predicate Reaches<V(!new)>(s: Sys<V>, steps: seq<Step<V>>, t: Sys<V>)
    decreases |steps|
  {
    if steps == [] then s == t
    else
      && Enabled(s, steps[0]) && (s.cache.LruBacked? ==> s.cache.cap >= 1)
      && Reaches(Next(s, steps[0]), steps[1..], t)
  }

  lemma {:induction false} RunsStayGood<V(!new)>(
      result: Key -> (Outcome, V), s: Sys<V>, steps: seq<Step<V>>, t: Sys<V>)
    requires Good(result, s) && Reaches(s, steps, t)
    requires forall step :: step in steps ==> Admissible(result, step)
    ensures Good(result, t)
    decreases |steps|
  {
    if steps != [] {
      assert steps[0] in steps;
      StepStaysGood(result, s, steps[0]);
      RunsStayGood(result, Next(s, steps[0]), steps[1..], t);
    }
  }

  /** Any number of requests, each with its own maximum age and cacheable codes, interleaved in any way over either
      cache: each one that is over has ended as if its function had been called directly, and has left its object as
      that would. */
  lemma SharedCacheIsTransparent<V(!new)>(
      result: Key -> (Outcome, V), b: Backing<V>, steps: seq<Step<V>>, t: Sys<V>, i: nat)
    requires Ready(b) && Truthful(result, b) && Reaches(Sys(b, []), steps, t)
    requires forall step :: step in steps ==> Admissible(result, step)
    requires i < |t.calls| && t.calls[i].phase.Ended?
    ensures forall v :: (t.calls[i].phase.outcome, t.calls[i].obj) == t.calls[i].request.func(v)
    ensures Ready(t.cache) && Truthful(result, t.cache)
  {
    RunsStayGood(result, Sys(b, []), steps, t);
    assert Faithful(result, t.calls[i]);
  }

  // ---------------------------------------------------------------------
  // Without interference

  // the steps of a request that nobody interferes with, from the call of the function on ...
  function CallSteps<V>(cfg: Config<V>, r: Request<V>, obj: V): seq<Step<V>> {
    [Run(0)] + (if Stored(cfg, r.func(obj).0) then [Store(0)] else [])
  }

  // ... from the lookup on ...
  function MoreSteps<V>(cfg: Config<V>, b: Backing<V>, r: Request<V>, obj: V): seq<Step<V>> {
    if Hit(cfg, b, r) then []
    else if Found(b, r.key).IsValid() then [Drop(0)] + CallSteps(cfg, r, obj)
    else CallSteps(cfg, r, obj)
  }

  // ... and from its beginning
  function AloneSteps<V>(cfg: Config<V>, b: Backing<V>, r: Request<V>, obj: V): seq<Step<V>> {
    [Arrive(cfg, r, obj)] + ([Look(0)] + MoreSteps(cfg, b, r, obj))
  }

  // the sequential hook's result, as a state of the system
  function Outcomes<V>(cfg: Config<V>, b: Backing<V>, r: Request<V>, obj: V): Sys<V>
    requires Ready(b)
  {
    var p := Process(cfg, World(b, obj), r);
    Sys(p.world.cache, [Call(cfg, r, p.world.obj, Ended(p.outcome))])
  }

  lemma OneMore<V(!new)>(s: Sys<V>, step: Step<V>, steps: seq<Step<V>>, t: Sys<V>)
    requires Enabled(s, step) && (s.cache.LruBacked? ==> s.cache.cap >= 1)
    requires Reaches(Next(s, step), steps, t)
    ensures Reaches(s, [step] + steps, t)
  {
    assert ([step] + steps)[1..] == steps;
  }

  lemma CallAlone<V(!new)>(cfg: Config<V>, b: Backing<V>, r: Request<V>, obj: V)
    requires Ready(b) && Ready(Missed(b, r.key)) && !Hit(cfg, b, r)
    ensures Reaches(Sys(Missed(b, r.key), [Call(cfg, r, obj, Missing)]),
                    CallSteps(cfg, r, obj), Outcomes(cfg, b, r, obj))
  {
    var s := Sys(Missed(b, r.key), [Call(cfg, r, obj, Missing)]);
    var ran, t := Next(s, Run(0)), Outcomes(cfg, b, r, obj);
    if Stored(cfg, r.func(obj).0) {
      assert Next(ran, Store(0)) == t;
      OneMore(ran, Store(0), [], t);
      OneMore(s, Run(0), [Store(0)], t);
    } else {
      assert ran == t;
      OneMore(s, Run(0), [], t);
    }
  }

  lemma LookedAlone<V(!new)>(cfg: Config<V>, b: Backing<V>, r: Request<V>, obj: V)
    requires Ready(b)
    ensures Reaches(Sys(Looked(b, r.key), [AfterLook(b, Call(cfg, r, obj, Arrived))]),
                    MoreSteps(cfg, b, r, obj), Outcomes(cfg, b, r, obj))
  {
    if !Hit(cfg, b, r) {
      MissedStaysReady(b, r.key);
      CallAlone(cfg, b, r, obj);
      if Found(b, r.key).IsValid() {
        var expired := Sys(Looked(b, r.key), [Call(cfg, r, obj, Expired)]);
        assert Next(expired, Drop(0)) == Sys(Missed(b, r.key), [Call(cfg, r, obj, Missing)]);
        OneMore(expired, Drop(0), CallSteps(cfg, r, obj), Outcomes(cfg, b, r, obj));
      }
    }
  }

  /** Taken alone, the steps are the sequential hook. */
  lemma AloneIsProcess<V(!new)>(cfg: Config<V>, b: Backing<V>, r: Request<V>, obj: V)
    requires Ready(b)
    ensures Reaches(Sys(b, []), AloneSteps(cfg, b, r, obj), Outcomes(cfg, b, r, obj))
  {
    var arrived := Sys(b, [Call(cfg, r, obj, Arrived)]);
    var rest, t := MoreSteps(cfg, b, r, obj), Outcomes(cfg, b, r, obj);
    LookedAlone(cfg, b, r, obj);
    assert Next(arrived, Look(0)) == Sys(Looked(b, r.key), [AfterLook(b, Call(cfg, r, obj, Arrived))]);
    OneMore(arrived, Look(0), rest, t);
    assert Next(Sys(b, []), Arrive(cfg, r, obj)) == arrived;
    OneMore(Sys(b, []), Arrive(cfg, r, obj), [Look(0)] + rest, t);
  }
}
