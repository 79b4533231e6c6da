/** What sequences of requests through the caching hook do to the cache behind it. */
module CachingRuns {
  import opened Statuses
  import opened LruCache
  import opened ExactLru
  import opened CachingHook

  // ---------------------------------------------------------------------
  // The hook and the LRU decorator

  /** A request reaches Insert with its key resident exactly when an empty value is stored under it. */
  lemma ResidentAtInsertIff<V>(cfg: Config<V>, cap: nat, s: State<V>, r: Request<V>)
    requires Safe(s, cap) && !Hit(cfg, LruBacked(cap, s), r)
    ensures r.key in Missed(LruBacked(cap, s), r.key).lru.table
            <==> r.key in s.table && s.table[r.key].data.value.data.None?
  {
  }

  ghost predicate NoEmptyValue<V>(s: State<V>) {
    forall k :: k in s.table && s.table[k].IsValid() ==> s.table[k].data.value.data.Some?
  }

  ghost predicate WritesValues<V(!new)>(cfg: Config<V>) {
    forall v :: cfg.writer(v).Some?
  }

  // one key moved to, or put at, the front of at most cap keys
  function Front(keys: seq<Key>, cap: nat, k: Key): seq<Key> {
    Take([k] + Without(keys, k), cap)
  }

  function Take<T>(list: seq<T>, n: nat): (r: seq<T>)
    ensures r == if |list| <= n then list else list[..n]
  {
    if list == [] || n == 0 then [] else [list[0]] + Take(list[1..], n - 1)
  }

  lemma MissRefinesRecency<V>(cfg: Config<V>, cap: nat, s: State<V>, r: Request<V>)
    requires Exact(s, cap) && NoEmptyValue(s) && !Hit(cfg, LruBacked(cap, s), r)
    ensures var t := Missed(LruBacked(cap, s), r.key).lru;
            && Exact(t, cap) && NoEmptyValue(t) && r.key !in t.table
            && Labels(t.lru) == Without(Labels(s.lru), r.key)
            && (r.key in s.table ==> |t.lru| == |s.lru| - 1)
  {
    var k := r.key;
    ExactLabels(s, cap);
    ListedIffResident(s, cap, k);
    WithoutMembers(Labels(s.lru), k);
    if k in s.table {
      var u := AfterGet(s, k);
      GetRefinesRecency(s, cap, k);
      RemoveRefinesRecency(u, cap, k);
      assert Without([k] + Without(Labels(s.lru), k), k) == Without(Labels(s.lru), k);
    }
  }

  lemma StoreRefinesRecency<V>(cap: nat, s: State<V>, k: Key, e: Element<V>)
    requires cap >= 1 && Exact(s, cap) && k !in s.table
    ensures Exact(AfterInsert(s, cap, k, e), cap)
    ensures Labels(AfterInsert(s, cap, k, e).lru) == Take([k] + Labels(s.lru), cap)
  {
    InsertRefinesRecency(s, cap, k, e);
  }

  lemma StoreAddsNoEmptyValue<V>(cap: nat, s: State<V>, k: Key, e: Element<V>)
    requires cap >= 1 && Safe(s, cap) && NoEmptyValue(s) && e.IsValid()
    ensures NoEmptyValue(AfterInsert(s, cap, k, e))
  {
    InsertKeepsSafe(s, cap, k, e);
  }

  // an exact LRU cache in which no element is empty
  ghost predicate Sound<V>(b: Backing<V>) {
    b.LruBacked? && b.cap >= 1 && Exact(b.lru, b.cap) && NoEmptyValue(b.lru)
  }

  function Keys<V>(b: Backing<V>): seq<Key>
    requires b.LruBacked?
  {
    Labels(b.lru.lru)
  }

  /** One request on an exact LRU cache: it never re-inserts a resident key, the cache stays exact, and
      a request whose result is stored or served moves its key to the front. */
  lemma ProcessOnExactLru<V(!new)>(cfg: Config<V>, w: World<V>, r: Request<V>)
    requires WritesValues(cfg) && Sound(w.cache)
    ensures var result := Process(cfg, w, r);
            && Sound(result.world.cache) && result.world.cache.cap == w.cache.cap
            && (result.executed ==> r.key !in Missed(w.cache, r.key).lru.table)
            && Keys(result.world.cache)
               == (if result.executed && !(result.outcome.Returned? && result.outcome.status.code in cfg.cacheable)
                   then Without(Keys(w.cache), r.key)
                   else Front(Keys(w.cache), w.cache.cap, r.key))
  {
    var s, cap, k := w.cache.lru, w.cache.cap, r.key;
    if Hit(cfg, w.cache, r) {
      GetRefinesRecency(s, cap, k);
      assert k in Labels(s.lru) by {
        ListedIffResident(s, cap, k);
      }
    } else {
      MissRefinesRecency(cfg, cap, s, r);
      var t := Missed(w.cache, k).lru;
      var (o, value) := r.func(w.obj);
      if Stored(cfg, o) {
        StoreRefinesRecency(cap, t, k, Element(cfg.writer(value), o.status, r.storedAt));
        StoreAddsNoEmptyValue(cap, t, k, Element(cfg.writer(value), o.status, r.storedAt));
      }
    }
  }

  /** Every sequential run through the hook keeps the LRU cache exact. */
  lemma {:induction false} HookRunsAreExact<V(!new)>(cfg: Config<V>, w: World<V>, rs: seq<Request<V>>)
    requires WritesValues(cfg) && Sound(w.cache)
    ensures Sound(After(cfg, w, rs).cache) && After(cfg, w, rs).cache.cap == w.cache.cap
  {
    if rs != [] {
      HookRunsAreExact(cfg, w, rs[..|rs| - 1]);
      ProcessOnExactLru(cfg, After(cfg, w, rs[..|rs| - 1]), rs[|rs| - 1]);
    }
  }

  // ---------------------------------------------------------------------
  // Stack inclusion

  /** Position (from 1) of the last request for k; 0 when there is none. */
  function LastRequest<V>(rs: seq<Request<V>>, k: Key): (t: nat)
    ensures t <= |rs|
    ensures t > 0 ==> rs[t - 1].key == k
    ensures forall i :: t <= i < |rs| ==> rs[i].key != k
  {
    if rs == [] then 0
    else if rs[|rs| - 1].key == k then |rs|
    else LastRequest(rs[..|rs| - 1], k)
  }

  function RequestTimes<V>(rs: seq<Request<V>>): Key -> nat {
    k => LastRequest(rs, k)
  }

  /** The keys requested, moved to the front at each request. */
  function Recent<V>(rs: seq<Request<V>>): seq<Key> {
    if rs == [] then [] else
      var earlier := Recent(rs[..|rs| - 1]);
      [rs[|rs| - 1].key] + Without(earlier, rs[|rs| - 1].key)
  }

  // the keys of a list, but for the one just requested, keep their order
  lemma NewestInFront<V>(rs: seq<Request<V>>, tail: seq<Key>)
    requires rs != [] && rs[|rs| - 1].key !in tail && Descending(RequestTimes(rs[..|rs| - 1]), tail)
    ensures Descending(RequestTimes(rs), [rs[|rs| - 1].key] + tail)
  {
    forall i | 0 <= i < |tail|
      ensures LastRequest(rs, tail[i]) == LastRequest(rs[..|rs| - 1], tail[i]) < |rs|
    {
      assert tail[i] in tail;
    }
  }

  /** It holds each requested key once, ordered by last request. */
  lemma {:induction false} RecentIsByLastRequest<V>(rs: seq<Request<V>>)
    ensures Distinct(Recent(rs)) && Descending(RequestTimes(rs), Recent(rs))
    ensures forall k :: k in Recent(rs) <==> LastRequest(rs, k) > 0
  {
    if rs != [] {
      var prefix, last := rs[..|rs| - 1], rs[|rs| - 1].key;
      RecentIsByLastRequest(prefix);
      WithoutMembers(Recent(prefix), last);
      DescendingWithout(RequestTimes(prefix), Recent(prefix), last);
      NewestInFront(rs, Without(Recent(prefix), last));
    }
  }

  /** At most cap keys, ordered by last request, that were all requested later than any requested key that is not
      among them; and as many as that allows. */
  ghost predicate MostRecentlyRequested<V>(rs: seq<Request<V>>, keys: seq<Key>, cap: nat) {
    && |keys| <= cap && Descending(RequestTimes(rs), keys)
    && (forall k :: k in keys ==> LastRequest(rs, k) > 0)
    && (forall k :: k !in keys && LastRequest(rs, k) > 0 ==>
          |keys| == cap && forall j :: j in keys ==> LastRequest(rs, j) > LastRequest(rs, k))
  }

  lemma {:induction false} Taken(list: seq<Key>, n: nat, i: nat)
    requires i < |list| && i < n
    ensures list[i] in Take(list, n)
  {
    assert Take(list, n)[i] == list[i];
  }

  lemma {:induction false} TakenAreLater<V>(rs: seq<Request<V>>, cap: nat, p: nat, q: nat)
    requires p < cap <= q < |Recent(rs)|
    ensures LastRequest(rs, Take(Recent(rs), cap)[p]) > LastRequest(rs, Recent(rs)[q])
  {
    RecentIsByLastRequest(rs);
    assert RequestTimes(rs)(Recent(rs)[p]) > RequestTimes(rs)(Recent(rs)[q]);
  }

  lemma {:induction false} LeftOutIsEarlier<V>(rs: seq<Request<V>>, cap: nat, k: Key)
    requires k in Recent(rs) && k !in Take(Recent(rs), cap)
    ensures |Take(Recent(rs), cap)| == cap
    ensures forall j :: j in Take(Recent(rs), cap) ==> LastRequest(rs, j) > LastRequest(rs, k)
  {
    var keys := Take(Recent(rs), cap);
    var q :| 0 <= q < |Recent(rs)| && Recent(rs)[q] == k;
    if q < cap {
      Taken(Recent(rs), cap, q);
    } else {
      forall j | j in keys
        ensures LastRequest(rs, j) > LastRequest(rs, k)
      {
        var p :| 0 <= p < |keys| && keys[p] == j;
        TakenAreLater(rs, cap, p, q);
      }
    }
  }

  lemma {:induction false} TakeIsOrdered<V>(rs: seq<Request<V>>, cap: nat)
    ensures Descending(RequestTimes(rs), Take(Recent(rs), cap))
    ensures forall k :: k in Take(Recent(rs), cap) ==> LastRequest(rs, k) > 0
  {
    RecentIsByLastRequest(rs);
  }

  lemma {:induction false} TakeIsMostRecent<V>(rs: seq<Request<V>>, cap: nat)
    ensures MostRecentlyRequested(rs, Take(Recent(rs), cap), cap)
  {
    var keys := Take(Recent(rs), cap);
    TakeIsOrdered(rs, cap);
    forall k | k !in keys && LastRequest(rs, k) > 0
      ensures |keys| == cap && forall j :: j in keys ==> LastRequest(rs, j) > LastRequest(rs, k)
    {
      RecentIsByLastRequest(rs);
      LeftOutIsEarlier(rs, cap, k);
    }
  }

  lemma {:induction false} TakeWithout<T>(list: seq<T>, x: T, n: nat)
    requires n >= 1
    ensures Take(Without(Take(list, n), x), n - 1) == Take(Without(list, x), n - 1)
  {
    if list != [] && list[0] != x && n > 1 {
      TakeWithout(list[1..], x, n - 1);
    }
  }

  lemma {:induction false} SameFront<T>(x: T, a: seq<T>, b: seq<T>, n: nat)
    requires n >= 1 && Take(a, n - 1) == Take(b, n - 1)
    ensures Take([x] + a, n) == Take([x] + b, n)
  {
    assert ([x] + a)[1..] == a && ([x] + b)[1..] == b;
  }

  lemma {:induction false} FrontOfTake(keys: seq<Key>, cap: nat, k: Key)
    requires cap >= 1
    ensures Front(Take(keys, cap), cap, k) == Front(keys, cap, k)
  {
    TakeWithout(keys, k, cap);
    SameFront(k, Without(Take(keys, cap), k), Without(keys, k), cap);
  }

  ghost predicate AlwaysStored<V(!new)>(cfg: Config<V>, r: Request<V>) {
    forall v :: r.func(v).0.Returned? && r.func(v).0.status.code in cfg.cacheable
  }

  function Start<V>(cap: nat, v: V): (w: World<V>)
    requires cap >= 1
    ensures Ready(w.cache) && Sound(w.cache)
  {
    World(LruBacked(cap, Empty()), v)
  }

  /** When every result is cacheable, the recency list is the front of the list of recent keys ... */
  lemma {:induction false} ListIsRecentKeys<V(!new)>(cfg: Config<V>, cap: nat, v: V, rs: seq<Request<V>>)
    requires cap >= 1 && WritesValues(cfg)
    requires forall r :: r in rs ==> AlwaysStored(cfg, r)
    ensures Sound(After(cfg, Start(cap, v), rs).cache) && After(cfg, Start(cap, v), rs).cache.cap == cap
    ensures Keys(After(cfg, Start(cap, v), rs).cache) == Take(Recent(rs), cap)
  {
    HookRunsAreExact(cfg, Start(cap, v), rs);
    if rs != [] {
      var prefix, r := rs[..|rs| - 1], rs[|rs| - 1];
      ListIsRecentKeys(cfg, cap, v, prefix);
      assert r in rs && AlwaysStored(cfg, r);
      HookRunsAreExact(cfg, Start(cap, v), prefix);
      ProcessOnExactLru(cfg, After(cfg, Start(cap, v), prefix), r);
      FrontOfTake(Recent(prefix), cap, r.key);
    }
  }

  /** ... that is, the keys whose last requests are the latest cap ones, in that order. */
  lemma ListIsMostRecentlyRequested<V(!new)>(cfg: Config<V>, cap: nat, v: V, rs: seq<Request<V>>)
    requires cap >= 1 && WritesValues(cfg)
    requires forall r :: r in rs ==> AlwaysStored(cfg, r)
    ensures var b := After(cfg, Start(cap, v), rs).cache;
            b.LruBacked? && MostRecentlyRequested(rs, Keys(b), cap)
  {
    ListIsRecentKeys(cfg, cap, v, rs);
    TakeIsMostRecent(rs, cap);
  }

  lemma HitIffListed<V>(cfg: Config<V>, b: Backing<V>, r: Request<V>)
    requires Sound(b) && cfg.maxAge.Never?
    ensures Hit(cfg, b, r) <==> r.key in Keys(b)
  {
    ListedIffResident(b.lru, b.cap, r.key);
  }

  lemma TakeIsMonotonic<T>(list: seq<T>, m: nat, n: nat)
    requires m <= n
    ensures Take(list, m) <= Take(list, n)
    ensures forall x :: x in Take(list, m) ==> x in Take(list, n)
  {
  }

  lemma PrefixesAreIncluded<V>(cfg: Config<V>, a: Backing<V>, b: Backing<V>, keys: seq<Key>, r: Request<V>)
    requires Sound(a) && Sound(b) && a.cap <= b.cap
    requires Keys(a) == Take(keys, a.cap) && Keys(b) == Take(keys, b.cap)
    ensures Keys(a) <= Keys(b)
    ensures cfg.maxAge.Never? && Hit(cfg, a, r) ==> Hit(cfg, b, r)
  {
    TakeIsMonotonic(keys, a.cap, b.cap);
    if cfg.maxAge.Never? {
      HitIffListed(cfg, a, r);
      HitIffListed(cfg, b, r);
    }
  }

  /** The smaller of two LRU caches fed the same requests holds a prefix of what the larger holds; when
      nothing expires, a hit in the smaller is a hit in the larger. */
  lemma StackInclusion<V(!new)>(
      cfg: Config<V>, small: nat, large: nat, v: V, rs: seq<Request<V>>, next: Request<V>)
    requires 1 <= small <= large && WritesValues(cfg)
    requires forall r :: r in rs ==> AlwaysStored(cfg, r)
    ensures var a, b := After(cfg, Start(small, v), rs).cache, After(cfg, Start(large, v), rs).cache;
            && a.LruBacked? && b.LruBacked?
            && Keys(a) <= Keys(b)
            && (cfg.maxAge.Never? && Hit(cfg, a, next) ==> Hit(cfg, b, next))
  {
    ListIsRecentKeys(cfg, small, v, rs);
    ListIsRecentKeys(cfg, large, v, rs);
    var a, b := After(cfg, Start(small, v), rs).cache, After(cfg, Start(large, v), rs).cache;
    PrefixesAreIncluded(cfg, a, b, Recent(rs), next);
  }

  // ---------------------------------------------------------------------
  // Freshness and saved work

  ghost predicate Chronological<V>(rs: seq<Request<V>>) {
    && (forall i :: 0 <= i < |rs| ==> rs[i].checkedAt <= rs[i].storedAt)
    && (forall i, j :: 0 <= i < j < |rs| ==> rs[i].storedAt <= rs[j].checkedAt)
  }

  // the element that a request leaves as the latest stored one for k
  function LatestAfter<V>(cfg: Config<V>, latest: Option<Element<V>>, r: Request<V>, one: Result<V>, k: Key)
    : Option<Element<V>>
  {
    if r.key == k && one.executed && one.outcome.Returned? && one.outcome.status.code in cfg.cacheable then
      Some(Element(cfg.writer(one.world.obj), one.outcome.status, r.storedAt))
    else latest
  }

  /** The element stored by the last request for k that executed with a cacheable result. */
  function Latest<V>(cfg: Config<V>, w: World<V>, rs: seq<Request<V>>, k: Key): Option<Element<V>>
    requires Ready(w.cache)
  {
    if rs == [] then None
    else
      var prefix, r := rs[..|rs| - 1], rs[|rs| - 1];
      LatestAfter(cfg, Latest(cfg, w, prefix, k), r, Process(cfg, After(cfg, w, prefix), r), k)
  }

  lemma EarlierRequests<V>(rs: seq<Request<V>>, r: Request<V>)
    requires Chronological(rs + [r])
    ensures Chronological(rs)
    ensures rs != [] ==> rs[|rs| - 1].checkedAt <= rs[|rs| - 1].storedAt <= r.checkedAt
  {
    var all := rs + [r];
    assert all[|rs|] == r && forall i :: 0 <= i < |rs| ==> all[i] == rs[i];
  }

  /** What a map may hold for k: the latest stored element, or nothing once that one has been seen expired. */
  predicate Holds<V(==)>(cfg: Config<V>, b: Backing<V>, latest: Option<Element<V>>, k: Key, checked: real, now: real) {
    && b.MapBacked?
    && (k in b.data ==> b.data[k].IsValid() && latest == Some(b.data[k]))
    && (latest.Some? ==> latest.value.insertionTime <= now)
    && (latest.Some? && k !in b.data ==> !cfg.maxAge.Never? && checked - latest.value.insertionTime > cfg.maxAge.age)
  }

  lemma ProcessKeepsLatest<V(!new)>(
      cfg: Config<V>, w: World<V>, latest: Option<Element<V>>, r: Request<V>, k: Key, checked: real, now: real)
    requires WritesValues(cfg) && Holds(cfg, w.cache, latest, k, checked, now)
    requires latest.Some? ==> checked <= r.checkedAt && now <= r.checkedAt
    requires r.checkedAt <= r.storedAt
    ensures var one := Process(cfg, w, r);
            Holds(cfg, one.world.cache, LatestAfter(cfg, latest, r, one, k), k, r.checkedAt, r.storedAt)
  {
  }

  lemma {:induction false} MapHoldsLatest<V(!new)>(cfg: Config<V>, v: V, rs: seq<Request<V>>, k: Key)
    requires WritesValues(cfg) && Chronological(rs)
    ensures var w := World(MapBacked(map[]), v);
            if rs == [] then Holds(cfg, w.cache, None, k, 0.0, 0.0)
            else Holds(cfg, After(cfg, w, rs).cache, Latest(cfg, w, rs, k), k,
                       rs[|rs| - 1].checkedAt, rs[|rs| - 1].storedAt)
  {
    if rs != [] {
      var w, prefix, r := World(MapBacked(map[]), v), rs[..|rs| - 1], rs[|rs| - 1];
      assert rs == prefix + [r];
      EarlierRequests(prefix, r);
      MapHoldsLatest(cfg, v, prefix, k);
      var checked := if prefix == [] then 0.0 else prefix[|prefix| - 1].checkedAt;
      var now := if prefix == [] then 0.0 else prefix[|prefix| - 1].storedAt;
      ProcessKeepsLatest(cfg, After(cfg, w, prefix), Latest(cfg, w, prefix, k), r, k, checked, now);
    }
  }

  /** Over the plain map, the next request is answered from the cache exactly when the latest stored result for its
      key is at most max_age old, and then with that result; otherwise the function runs. */
  lemma ServedIffLatestIsFresh<V(!new)>(cfg: Config<V>, v: V, rs: seq<Request<V>>, r: Request<V>)
    requires WritesValues(cfg) && Chronological(rs + [r])
    ensures var w := World(MapBacked(map[]), v);
            var latest := Latest(cfg, w, rs, r.key);
            var one := Process(cfg, After(cfg, w, rs), r);
            && (!one.executed <==>
                  latest.Some? && (cfg.maxAge.Never? || r.checkedAt - latest.value.insertionTime <= cfg.maxAge.age))
            && (!one.executed ==>
                  one.outcome == Returned(latest.value.status) && Some(one.world.obj) == latest.value.data)
  {
    EarlierRequests(rs, r);
    MapHoldsLatest(cfg, v, rs, r.key);
  }

  // what a cache holds for k, if anything, is the latest stored element
  ghost predicate HoldsNoOther<V>(b: Backing<V>, latest: Option<Element<V>>, k: Key) {
    Found(b, k).IsValid() ==> latest == Some(Found(b, k))
  }

  lemma ProcessHoldsNoOther<V(!new)>(cfg: Config<V>, w: World<V>, latest: Option<Element<V>>, r: Request<V>, k: Key)
    requires Ready(w.cache) && HoldsNoOther(w.cache, latest, k)
    ensures var one := Process(cfg, w, r);
            HoldsNoOther(one.world.cache, LatestAfter(cfg, latest, r, one, k), k)
  {
    if k == r.key {
      ServesOrCalls(cfg, w, r);
    } else {
      OthersStayOrGo(cfg, w, r, k);
    }
  }

  /** After any sequential run over either cache, what is held for a key is the element last stored for it, insertion
      time included. */
  lemma {:induction false} HeldIsLatest<V(!new)>(cfg: Config<V>, w: World<V>, rs: seq<Request<V>>, k: Key)
    requires Ready(w.cache) && !Found(w.cache, k).IsValid()
    ensures HoldsNoOther(After(cfg, w, rs).cache, Latest(cfg, w, rs, k), k)
  {
    if rs != [] {
      var prefix := rs[..|rs| - 1];
      HeldIsLatest(cfg, w, prefix, k);
      ProcessHoldsNoOther(cfg, After(cfg, w, prefix), Latest(cfg, w, prefix, k), rs[|rs| - 1], k);
    }
  }

  lemma FoundIffListed<V>(b: Backing<V>, k: Key)
    requires Sound(b)
    ensures Found(b, k).IsValid() <==> k in Keys(b)
  {
    ListedIffResident(b.lru, b.cap, k);
  }

  /** Over an LRU cache, exactly when moreover the key has not been evicted; again with that result. */
  lemma ServedIffListedAndFresh<V(!new)>(cfg: Config<V>, cap: nat, v: V, rs: seq<Request<V>>, r: Request<V>)
    requires cap >= 1 && WritesValues(cfg)
    ensures var w := After(cfg, Start(cap, v), rs);
            var latest := Latest(cfg, Start(cap, v), rs, r.key);
            var one := Process(cfg, w, r);
            && w.cache.LruBacked?
            && (r.key in Keys(w.cache) ==> latest.Some?)
            && (!one.executed <==>
                  r.key in Keys(w.cache)
                  && (cfg.maxAge.Never? || r.checkedAt - latest.value.insertionTime <= cfg.maxAge.age))
            && (!one.executed ==>
                  one.outcome == Returned(latest.value.status) && Some(one.world.obj) == latest.value.data)
  {
    HookRunsAreExact(cfg, Start(cap, v), rs);
    HeldIsLatest(cfg, Start(cap, v), rs, r.key);
    var w := After(cfg, Start(cap, v), rs);
    FoundIffListed(w.cache, r.key);
    ServesOrCalls(cfg, w, r);
  }
}
