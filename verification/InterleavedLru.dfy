/** When interleaved requests keep a shared LRU cache an exact least-recently-used cache. */
module InterleavedLru {
  import opened Statuses
  import LruCache
  import opened ExactLru
  import opened CachingHook
  import opened CachingRuns
  import opened CachingConcurrency

  ghost predicate ExactIn<V>(s: Sys<V>) {
    s.cache.LruBacked? && s.cache.cap >= 1 && Exact(s.cache.lru, s.cache.cap)
  }

  /** If the step inserts, then a key that is absent or the one about to be evicted. */
  predicate BenignStep<V>(s: Sys<V>, step: Step<V>)
    requires Enabled(s, step) && s.cache.LruBacked?
  {
    step.Store? ==>
      var c := s.calls[step.id];
      Benign(s.cache.lru, s.cache.cap, LruCache.OpInsert(c.request.key, ToStore(c)))
  }

  /** One step of any of the requests keeps the cache exact exactly when it is benign. */
  lemma StepStaysExactIff<V>(s: Sys<V>, step: Step<V>)
    requires Enabled(s, step) && ExactIn(s)
    ensures ExactIn(Next(s, step)) <==> BenignStep(s, step)
  {
    var l, cap := s.cache.lru, s.cache.cap;
    match step
    case Arrive(_, _, _) =>
    case Look(id) => GetRefinesRecency(l, cap, s.calls[id].request.key);
    case Drop(id) => RemoveStaysExact(l, cap, s.calls[id].request.key);
    case Run(id) =>
    case Store(id) => InsertStaysExactIff(l, cap, s.calls[id].request.key, ToStore(s.calls[id]));
  }

  ghost predicate ExactThroughout<V(!new)>(s: Sys<V>, steps: seq<Step<V>>, t: Sys<V>)
    requires Reaches(s, steps, t)
    decreases |steps|
  {
    ExactIn(s) && (steps != [] ==> ExactThroughout(Next(s, steps[0]), steps[1..], t))
  }

  ghost predicate BenignThroughout<V(!new)>(s: Sys<V>, steps: seq<Step<V>>, t: Sys<V>)
    requires Reaches(s, steps, t)
    decreases |steps|
  {
    steps != [] ==>
      s.cache.LruBacked? && BenignStep(s, steps[0]) && BenignThroughout(Next(s, steps[0]), steps[1..], t)
  }

  /** The cache is exact in every state of an interleaved run exactly when every insertion of the run is benign. */
  lemma {:induction false} RunStaysExactIff<V(!new)>(s: Sys<V>, steps: seq<Step<V>>, t: Sys<V>)
    requires ExactIn(s) && Reaches(s, steps, t)
    ensures ExactThroughout(s, steps, t) <==> BenignThroughout(s, steps, t)
    decreases |steps|
  {
    if steps != [] {
      StepStaysExactIff(s, steps[0]);
      if BenignStep(s, steps[0]) {
        RunStaysExactIff(Next(s, steps[0]), steps[1..], t);
      }
    }
  }

  // ---------------------------------------------------------------------
  // Requests that keep apart

  // between a lookup that served nothing and the end of the request
  predicate Busy<V>(c: Call<V>) {
    c.phase.Expired? || c.phase.Missing? || c.phase.Storing?
  }

  /** No lookup happens while another request for the same key is busy. */
  predicate Polite<V>(s: Sys<V>, step: Step<V>)
    requires Enabled(s, step)
  {
    step.Look? ==>
      forall j :: 0 <= j < |s.calls| && j != step.id && Busy(s.calls[j]) ==>
        s.calls[j].request.key != s.calls[step.id].request.key
  }

  // the key is absent from when the request has removed or missed it until its own insertion
  ghost predicate Owns<V(!new)>(b: Backing<V>, c: Call<V>)
    requires b.LruBacked?
  {
    WritesValues(c.cfg) && (c.phase.Missing? || c.phase.Storing? ==> c.request.key !in b.lru.table)
  }

  ghost predicate KeysDiffer<V>(calls: seq<Call<V>>) {
    forall i, j :: 0 <= i < j < |calls| && Busy(calls[i]) && Busy(calls[j]) ==>
      calls[i].request.key != calls[j].request.key
  }

  /** The cache is exact, busy requests have different keys, and none of these is resident from when its request
      has found it missing until that request inserts it. */
  ghost predicate Apart<V(!new)>(s: Sys<V>) {
    && Sound(s.cache)
    && KeysDiffer(s.calls)
    && (forall i :: 0 <= i < |s.calls| ==> Owns(s.cache, s.calls[i]))
  }

  // what one step does to the resident keys
  lemma CacheAfterStep<V(!new)>(s: Sys<V>, step: Step<V>)
    requires Enabled(s, step) && Apart(s)
    ensures Sound(Next(s, step).cache) && Next(s, step).cache.cap == s.cache.cap
    ensures var was, now := s.cache.lru.table, Next(s, step).cache.lru.table;
            && (step.Store? ==> now.Keys <= was.Keys + {s.calls[step.id].request.key})
            && (!step.Store? ==> now.Keys <= was.Keys)
            && (step.Drop? ==> s.calls[step.id].request.key !in now)
  {
    var l, cap := s.cache.lru, s.cache.cap;
    match step
    case Arrive(_, _, _) =>
    case Look(id) => GetRefinesRecency(l, cap, s.calls[id].request.key);
    case Drop(id) => RemoveStaysExact(l, cap, s.calls[id].request.key);
    case Run(id) =>
    case Store(id) =>
      var c := s.calls[id];
      assert Owns(s.cache, c);
      StoreRefinesRecency(cap, l, c.request.key, ToStore(c));
      StoreAddsNoEmptyValue(cap, l, c.request.key, ToStore(c));
      LruCache.InsertKeepsSafe(l, cap, c.request.key, ToStore(c));
  }

  lemma BusyKeysDiffer<V>(calls: seq<Call<V>>, i: nat, j: nat)
    requires KeysDiffer(calls) && i < |calls| && j < |calls| && i != j && Busy(calls[i]) && Busy(calls[j])
    ensures calls[i].request.key != calls[j].request.key
  {
  }

  lemma KeysStayDifferent<V>(s: Sys<V>, step: Step<V>)
    requires Enabled(s, step) && (s.cache.LruBacked? ==> s.cache.cap >= 1)
    requires KeysDiffer(s.calls) && Polite(s, step)
    ensures KeysDiffer(Next(s, step).calls)
  {
  }

  lemma {:induction false} CallStaysOwner<V(!new)>(s: Sys<V>, step: Step<V>, i: nat)
    requires Enabled(s, step) && Apart(s) && i < |Next(s, step).calls|
    requires step.Arrive? ==> WritesValues(step.cfg)
    ensures Next(s, step).cache.LruBacked? && Owns(Next(s, step).cache, Next(s, step).calls[i])
  {
    CacheAfterStep(s, step);
    if i < |s.calls| {
      assert Owns(s.cache, s.calls[i]);
      if step.Store? && i != step.id && Busy(s.calls[i]) {
        BusyKeysDiffer(s.calls, i, step.id);
      }
    }
  }

  lemma StepStaysApart<V(!new)>(s: Sys<V>, step: Step<V>)
    requires Enabled(s, step) && Apart(s) && Polite(s, step)
    requires step.Arrive? ==> WritesValues(step.cfg)
    ensures Apart(Next(s, step)) && BenignStep(s, step)
  {
    CacheAfterStep(s, step);
    KeysStayDifferent(s, step);
    forall i | 0 <= i < |Next(s, step).calls|
      ensures Owns(Next(s, step).cache, Next(s, step).calls[i])
    {
      CallStaysOwner(s, step, i);
    }
    if step.Store? {
      assert Owns(s.cache, s.calls[step.id]);
    }
  }

  ghost predicate PoliteThroughout<V(!new)>(s: Sys<V>, steps: seq<Step<V>>, t: Sys<V>)
    requires Reaches(s, steps, t)
    decreases |steps|
  {
    steps != [] ==> Polite(s, steps[0]) && PoliteThroughout(Next(s, steps[0]), steps[1..], t)
  }

  /** If no lookup overlaps with a busy request for its key, every interleaved run keeps the cache exact. */
  lemma {:induction false} PoliteRunsAreExact<V(!new)>(s: Sys<V>, steps: seq<Step<V>>, t: Sys<V>)
    requires Apart(s) && Reaches(s, steps, t) && PoliteThroughout(s, steps, t)
    requires forall step :: step in steps && step.Arrive? ==> WritesValues(step.cfg)
    ensures Apart(t) && ExactThroughout(s, steps, t)
    decreases |steps|
  {
    if steps != [] {
      assert steps[0] in steps;
      StepStaysApart(s, steps[0]);
      PoliteRunsAreExact(Next(s, steps[0]), steps[1..], t);
    }
  }

  // ---------------------------------------------------------------------
  // Overlapping misses

  function Holding<V>(cap: nat, calls: seq<Call<V>>): Sys<V> { Sys(LruBacked(cap, LruCache.Empty()), calls) }

  // both requests arrive and look before either calls its function
  lemma BothMiss<V(!new)>(cfg: Config<V>, cap: nat, r: Request<V>, a: V, b: V, rest: seq<Step<V>>, t: Sys<V>)
    requires cap >= 1 && Reaches(Holding(cap, [Call(cfg, r, a, Missing), Call(cfg, r, b, Missing)]), rest, t)
    ensures Reaches(Holding(cap, []), [Arrive(cfg, r, a)] + ([Arrive(cfg, r, b)] + ([Look(0)] + ([Look(1)] + rest))), t)
  {
    var s1 := Holding(cap, [Call(cfg, r, a, Arrived)]);
    var s2 := Holding(cap, [Call(cfg, r, a, Arrived), Call(cfg, r, b, Arrived)]);
    var s3 := Holding(cap, [Call(cfg, r, a, Missing), Call(cfg, r, b, Arrived)]);
    assert Next(s3, Look(1)) == Holding(cap, [Call(cfg, r, a, Missing), Call(cfg, r, b, Missing)]);
    OneMore(s3, Look(1), rest, t);
    assert Next(s2, Look(0)) == s3;
    OneMore(s2, Look(0), [Look(1)] + rest, t);
    assert Next(s1, Arrive(cfg, r, b)) == s2;
    OneMore(s1, Arrive(cfg, r, b), [Look(0)] + ([Look(1)] + rest), t);
    assert Next(Holding(cap, []), Arrive(cfg, r, a)) == s1;
    OneMore(Holding(cap, []), Arrive(cfg, r, a), [Arrive(cfg, r, b)] + ([Look(0)] + ([Look(1)] + rest)), t);
  }

  // then both call their functions and insert
  lemma BothStore<V(!new)>(cfg: Config<V>, cap: nat, r: Request<V>, a: V, b: V) returns (t: Sys<V>)
    requires cap >= 1 && Stored(cfg, r.func(a).0) && Stored(cfg, r.func(b).0)
    ensures Reaches(Holding(cap, [Call(cfg, r, a, Missing), Call(cfg, r, b, Missing)]),
                    [Run(0)] + ([Run(1)] + ([Store(0)] + ([Store(1)] + []))), t)
    ensures t.cache.LruBacked? && t.cache.cap == cap && (Exact(t.cache.lru, cap) <==> cap == 1)
  {
    var s0 := Holding(cap, [Call(cfg, r, a, Missing), Call(cfg, r, b, Missing)]);
    var s1 := Next(s0, Run(0));
    var s2 := Next(s1, Run(1));
    var s3 := Next(s2, Store(0));
    t := Next(s3, Store(1));
    OneMore(s3, Store(1), [], t);
    OneMore(s2, Store(0), [Store(1)] + [], t);
    OneMore(s1, Run(1), [Store(0)] + ([Store(1)] + []), t);
    OneMore(s0, Run(0), [Run(1)] + ([Store(0)] + ([Store(1)] + [])), t);
    StepStaysExactIff(s2, Store(0));
    StepStaysExactIff(s3, Store(1));
  }

  /** Two requests for one key that both look before either inserts leave a stale node, unless the cache has room
      for one element only. */
  lemma OverlappingMissesAreNotExact<V(!new)>(cfg: Config<V>, cap: nat, r: Request<V>, a: V, b: V) returns (t: Sys<V>)
    requires cap >= 1 && r.func(a).0.Returned? && r.func(a).0.status.code in cfg.cacheable
    requires r.func(b).0.Returned? && r.func(b).0.status.code in cfg.cacheable
    ensures Reaches(Holding(cap, []), [Arrive(cfg, r, a), Arrive(cfg, r, b), Look(0), Look(1),
                                       Run(0), Run(1), Store(0), Store(1)], t)
    ensures t.cache.LruBacked? && t.cache.cap == cap && (Exact(t.cache.lru, cap) <==> cap == 1)
  {
    t := BothStore(cfg, cap, r, a, b);
    var rest: seq<Step<V>> := [Run(0)] + ([Run(1)] + ([Store(0)] + ([Store(1)] + [])));
    BothMiss(cfg, cap, r, a, b, rest, t);
    assert [Arrive(cfg, r, a)] + ([Arrive(cfg, r, b)] + ([Look(0)] + ([Look(1)] + rest)))
        == [Arrive(cfg, r, a), Arrive(cfg, r, b), Look(0), Look(1), Run(0), Run(1), Store(0), Store(1)];
  }
}
