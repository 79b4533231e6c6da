/** The caching request hook over either cache
    (src/microservice-essentials/performance/caching-request-hook.cpp:109-135). */
module CachingHook {
  import opened Statuses
  import opened LruCache

  // Contents of the configured cache; Disabled is an LRU decorator without a backing cache
  datatype Backing<V> = MapBacked(data: map<Key, Element<V>>) | LruBacked(cap: nat, lru: State<V>) | Disabled

  ghost predicate Ready<V>(b: Backing<V>) {
    b.LruBacked? ==> b.cap >= 1 && Safe(b.lru, b.cap)
  }

  function Found<V>(b: Backing<V>, k: Key): Element<V> {
    match b
    case MapBacked(data) => if k in data then data[k] else InvalidElement()
    case LruBacked(_, s) => Lookup(s, k)
    case Disabled => InvalidElement()
  }

  function Looked<V>(b: Backing<V>, k: Key): Backing<V> {
    if b.LruBacked? then b.(lru := AfterGet(b.lru, k)) else b
  }

  function Removed<V>(b: Backing<V>, k: Key): Backing<V> {
    match b
    case MapBacked(data) => MapBacked(data - {k})
    case LruBacked(cap, s) => LruBacked(cap, AfterRemove(s, k))
    case Disabled => Disabled
  }

  function Inserted<V>(b: Backing<V>, k: Key, e: Element<V>): Backing<V>
    requires b.LruBacked? ==> b.cap >= 1
  {
    match b
    case MapBacked(data) => MapBacked(data[k := e])
    case LruBacked(cap, s) => LruBacked(cap, AfterInsert(s, cap, k, e))
    case Disabled => Disabled
  }

  // ---------------------------------------------------------------------

  datatype MaxAge = Never | Within(age: real)

  // writer turns the object into the data to be cached
  datatype Config<!V> = Config(maxAge: MaxAge, cacheable: set<StatusCode>, writer: V -> Option<V>)

  predicate Fresh(maxAge: MaxAge, age: real) {
    maxAge.Never? || age <= maxAge.age
  }

  /** One request: its key, the wrapped function acting on the cached object, and the two clock readings. */
  datatype Request<!V> = Request(key: Key, func: V -> (Outcome, V), checkedAt: real, storedAt: real)

  datatype World<V> = World(cache: Backing<V>, obj: V)

  datatype Result<V> = Result(world: World<V>, outcome: Outcome, executed: bool)

  predicate Hit<V>(cfg: Config<V>, b: Backing<V>, r: Request<V>) {
    var e := Found(b, r.key);
    e.IsValid() && Fresh(cfg.maxAge, r.checkedAt - e.insertionTime)
  }

  predicate Stored<V>(cfg: Config<V>, o: Outcome) {
    o.Returned? && o.status.code in cfg.cacheable
  }

  /** The cache at the moment the wrapped function is called. */
  function Missed<V>(b: Backing<V>, k: Key): Backing<V> {
    if Found(b, k).IsValid() then Removed(Looked(b, k), k) else Looked(b, k)
  }

  function Process<V>(cfg: Config<V>, w: World<V>, r: Request<V>): Result<V>
    requires w.cache.LruBacked? ==> w.cache.cap >= 1
  {
    var e := Found(w.cache, r.key);
    if Hit(cfg, w.cache, r) then
      Result(World(Looked(w.cache, r.key), e.data.value), Returned(e.status), false)
    else
      var cache := Missed(w.cache, r.key);
      var (o, obj) := r.func(w.obj);
      if Stored(cfg, o) then
        var stored := Element(cfg.writer(obj), o.status, r.storedAt);
        Result(World(Inserted(cache, r.key, stored), obj), o, true)
      else
        Result(World(cache, obj), o, true)
  }

  lemma CacheChangesOneKey<V>(b: Backing<V>, k: Key, j: Key)
    requires Ready(b)
    ensures Found(Looked(b, k), j) == Found(b, j)
    ensures j != k ==> Found(Removed(b, k), j) == Found(b, j)
    ensures !Found(Removed(b, k), k).IsValid()
  {
    if b.LruBacked? {
      GetChangesNoElement(b.lru, k, j);
      RemoveDropsOneElement(b.lru, b.cap, k, j);
      RemoveDropsOneElement(b.lru, b.cap, k, k);
    }
  }

  lemma InsertedIsFound<V>(b: Backing<V>, k: Key, e: Element<V>, j: Key)
    requires Ready(b)
    ensures !b.Disabled? ==> Found(Inserted(b, k, e), k) == e
    ensures b.Disabled? ==> !Found(Inserted(b, k, e), k).IsValid()
    ensures j != k ==> Found(Inserted(b, k, e), j) == Found(b, j) || !Found(Inserted(b, k, e), j).IsValid()
  {
    if b.LruBacked? {
      InsertAddsElement(b.lru, b.cap, k, e, j);
    }
  }

  lemma MissedStaysReady<V>(b: Backing<V>, k: Key)
    requires Ready(b)
    ensures Ready(Looked(b, k)) && Ready(Missed(b, k))
  {
    if b.LruBacked? {
      GetKeepsSafe(b.lru, b.cap, k);
      RemoveKeepsSafe(AfterGet(b.lru, k), b.cap, k);
    }
  }

  lemma MissedHasNothing<V>(b: Backing<V>, k: Key, j: Key)
    requires Ready(b)
    ensures !Found(Missed(b, k), k).IsValid()
    ensures j != k ==> Found(Missed(b, k), j) == Found(b, j)
  {
    MissedStaysReady(b, k);
    CacheChangesOneKey(b, k, k);
    CacheChangesOneKey(b, k, j);
    CacheChangesOneKey(Looked(b, k), k, j);
  }

  /** A usable element that is at most max_age old is served, and stays as it is. Otherwise the function runs, and
      afterwards the cache holds its result if that is a cacheable status, and nothing usable if not. */
  lemma ServesOrCalls<V>(cfg: Config<V>, w: World<V>, r: Request<V>)
    requires Ready(w.cache)
    ensures var e, one := Found(w.cache, r.key), Process(cfg, w, r);
            var now := Found(one.world.cache, r.key);
            if e.data.Some? && (cfg.maxAge.Never? || r.checkedAt - e.insertionTime <= cfg.maxAge.age) then
              !one.executed && one.outcome == Returned(e.status) && Some(one.world.obj) == e.data && now == e
            else
              && one.executed && (one.outcome, one.world.obj) == r.func(w.obj)
              && if one.outcome.Returned? && one.outcome.status.code in cfg.cacheable && !w.cache.Disabled? then
                   now == Element(cfg.writer(one.world.obj), one.outcome.status, r.storedAt)
                 else !now.IsValid()
  {
    CacheChangesOneKey(w.cache, r.key, r.key);
    MissedHasNothing(w.cache, r.key, r.key);
    MissedStaysReady(w.cache, r.key);
    var (o, obj) := r.func(w.obj);
    if o.Returned? {
      InsertedIsFound(Missed(w.cache, r.key), r.key, Element(cfg.writer(obj), o.status, r.storedAt), r.key);
    }
  }

  /** Elements of other keys stay as they are or, in an LRU cache, go. */
  lemma OthersStayOrGo<V>(cfg: Config<V>, w: World<V>, r: Request<V>, j: Key)
    requires Ready(w.cache) && j != r.key
    ensures var now := Found(Process(cfg, w, r).world.cache, j);
            now == Found(w.cache, j) || (w.cache.LruBacked? && !now.IsValid())
  {
    CacheChangesOneKey(w.cache, r.key, j);
    MissedHasNothing(w.cache, r.key, j);
    MissedStaysReady(w.cache, r.key);
    var (o, obj) := r.func(w.obj);
    if o.Returned? {
      InsertedIsFound(Missed(w.cache, r.key), r.key, Element(cfg.writer(obj), o.status, r.storedAt), j);
    }
  }

  lemma ProcessKeepsReady<V>(cfg: Config<V>, w: World<V>, r: Request<V>)
    requires Ready(w.cache)
    ensures Ready(Process(cfg, w, r).world.cache)
  {
    if w.cache.LruBacked? {
      var s, cap := w.cache.lru, w.cache.cap;
      GetKeepsSafe(s, cap, r.key);
      RemoveKeepsSafe(AfterGet(s, r.key), cap, r.key);
      var (o, obj) := r.func(w.obj);
      if Stored(cfg, o) {
        InsertKeepsSafe(Missed(w.cache, r.key).lru, cap, r.key, Element(cfg.writer(obj), o.status, r.storedAt));
      }
    }
  }

  /** The state after a sequence of requests handled one after the other. */
  function After<V>(cfg: Config<V>, w: World<V>, rs: seq<Request<V>>): (t: World<V>)
    requires Ready(w.cache)
    ensures Ready(t.cache)
  {
    if rs == [] then w
    else
      var before := After(cfg, w, rs[..|rs| - 1]);
      ProcessKeepsReady(cfg, before, rs[|rs| - 1]);
      Process(cfg, before, rs[|rs| - 1]).world
  }

  // ---------------------------------------------------------------------
  // The hook itself

  datatype AnyCache<V> = Plain(map_: UnorderedMapCache<V>) | Lru(lru: LRUCache<V>)

  class CachingRequestHook<V> {
    const cache: AnyCache<V>
    const cfg: Config<V>
    var obj: V   // the object that reader and writer refer to

    ghost function Footprint(): set<object> {
      match cache
      case Plain(m) => {m}
      case Lru(l) => {l} + (if l.realCache == null then {} else {l.realCache as object})
    }

    ghost predicate Valid()
      reads this, Footprint()
    {
      this !in Footprint() && (cache.Lru? ==> cache.lru.Valid())
    }

    ghost function Contents(): Backing<V>
      requires Valid()
      reads this, Footprint()
    {
      match cache
      case Plain(m) => MapBacked(m.data)
      case Lru(l) => if l.realCache == null then Disabled else LruBacked(l.maxSize, l.Model())
    }

    constructor (cache: AnyCache<V>, cfg: Config<V>, obj: V)
      requires cache.Lru? ==> cache.lru.Valid()
      ensures this.cache == cache && this.cfg == cfg && this.obj == obj
      ensures Valid()
    {
      this.cache, this.cfg, this.obj := cache, cfg, obj;
    }

    method CacheGet(key: Key) returns (e: Element<V>)
      requires Valid()
      modifies Footprint()
      ensures Valid()
      ensures e == Found(old(Contents()), key) && Contents() == Looked(old(Contents()), key)
    {
      match cache
      case Plain(m) => e := m.Get(key);
      case Lru(l) => e := l.Get(key);
    }

    method CacheRemove(key: Key)
      requires Valid()
      modifies Footprint()
      ensures Valid()
      ensures Contents() == Removed(old(Contents()), key)
    {
      match cache
      case Plain(m) => m.Remove(key);
      case Lru(l) => l.Remove(key);
    }

    method CacheInsert(key: Key, e: Element<V>)
      requires Valid()
      modifies Footprint()
      ensures Valid()
      ensures Contents() == Inserted(old(Contents()), key, e)
    {
      match cache
      case Plain(m) => m.Insert(key, e);
      case Lru(l) => l.Insert(key, e);
    }

    method Handle(r: Request<V>) returns (outcome: Outcome)
      requires Valid()
      modifies this, Footprint()
      ensures Valid()
      ensures var result := Process(cfg, World(old(Contents()), old(obj)), r);
              outcome == result.outcome && World(Contents(), obj) == result.world
      ensures var e, now := Found(old(Contents()), r.key), Found(Contents(), r.key);
              if e.data.Some? && (cfg.maxAge.Never? || r.checkedAt - e.insertionTime <= cfg.maxAge.age) then
                outcome == Returned(e.status) && Some(obj) == e.data && now == e
              else
                && (outcome, obj) == r.func(old(obj))
                && if outcome.Returned? && outcome.status.code in cfg.cacheable && !Contents().Disabled? then
                     now == Element(cfg.writer(obj), outcome.status, r.storedAt)
                   else !now.IsValid()
    {
      ServesOrCalls(cfg, World(Contents(), obj), r);
      var element := CacheGet(r.key);
      if element.IsValid() {
        if Fresh(cfg.maxAge, r.checkedAt - element.insertionTime) {
          obj := element.data.value;
          return Returned(element.status);
        } else {
          CacheRemove(r.key);
        }
      }
      var (o, after) := r.func(obj);
      obj := after;
      if Stored(cfg, o) {
        CacheInsert(r.key, Element(cfg.writer(obj), o.status, r.storedAt));
      }
      return o;
    }
  }

  // ---------------------------------------------------------------------
  // Transparency

  // the writer of WithCachedObject stores a copy of the object
  ghost predicate StoresObject<V(!new)>(cfg: Config<V>) {
    forall v :: cfg.writer(v) == Some(v)
  }

  ghost predicate KeyDetermined<V(!new)>(result: Key -> (Outcome, V), r: Request<V>) {
    forall v :: r.func(v) == result(r.key)
  }

  /** Every usable element is the result the function gives for its key. */
  ghost predicate Truthful<V>(result: Key -> (Outcome, V), b: Backing<V>) {
    forall k :: Found(b, k).IsValid() ==>
                  && result(k).0 == Returned(Found(b, k).status)
                  && Found(b, k).data == Some(result(k).1)
  }

  lemma RemovingKeepsTruth<V>(result: Key -> (Outcome, V), b: Backing<V>, k: Key)
    requires Ready(b) && Truthful(result, b)
    ensures Truthful(result, Looked(b, k)) && Truthful(result, Removed(b, k))
  {
    forall j
      ensures Found(Looked(b, k), j) == Found(b, j)
      ensures Found(Removed(b, k), j) == Found(b, j) || !Found(Removed(b, k), j).IsValid()
    {
    }
  }

  lemma InsertingKeepsTruth<V>(result: Key -> (Outcome, V), b: Backing<V>, k: Key, e: Element<V>)
    requires Ready(b) && Truthful(result, b)
    requires e.IsValid() && result(k) == (Returned(e.status), e.data.value)
    ensures Truthful(result, Inserted(b, k, e))
  {
    if b.LruBacked? {
      InsertKeepsSafe(b.lru, b.cap, k, e);
    }
    forall j
      ensures j != k ==> Found(Inserted(b, k, e), j) == Found(b, j) || !Found(Inserted(b, k, e), j).IsValid()
    {
    }
  }

  /** One request through the hook ends like calling the function, and leaves the same object. */
  lemma ProcessIsTransparent<V(!new)>(cfg: Config<V>, result: Key -> (Outcome, V), w: World<V>, r: Request<V>)
    requires StoresObject(cfg) && KeyDetermined(result, r)
    requires Ready(w.cache) && Truthful(result, w.cache)
    ensures Process(cfg, w, r).outcome == result(r.key).0
    ensures Process(cfg, w, r).world.obj == result(r.key).1
    ensures Truthful(result, Process(cfg, w, r).world.cache)
  {
    var b := w.cache;
    RemovingKeepsTruth(result, b, r.key);
    if !Hit(cfg, b, r) {
      assert Ready(Looked(b, r.key)) by {
        if b.LruBacked? {
          GetKeepsSafe(b.lru, b.cap, r.key);
        }
      }
      RemovingKeepsTruth(result, Looked(b, r.key), r.key);
      assert Ready(Missed(b, r.key)) by {
        if b.LruBacked? {
          RemoveKeepsSafe(AfterGet(b.lru, r.key), b.cap, r.key);
        }
      }
      var (o, obj) := r.func(w.obj);
      if Stored(cfg, o) {
        InsertingKeepsTruth(result, Missed(b, r.key), r.key, Element(cfg.writer(obj), o.status, r.storedAt));
      }
    }
  }

  /** Any sequence of requests, any maximum age, any set of cacheable codes, either cache: request i
      ends as if the function had been called directly, and leaves the object it would leave. */
  lemma {:induction false} CacheIsTransparent<V(!new)>(
      cfg: Config<V>, result: Key -> (Outcome, V), w: World<V>, rs: seq<Request<V>>)
    requires StoresObject(cfg) && Ready(w.cache) && Truthful(result, w.cache)
    requires forall r :: r in rs ==> KeyDetermined(result, r)
    ensures Truthful(result, After(cfg, w, rs).cache)
    ensures forall i :: 0 <= i < |rs| ==>
              var one := Process(cfg, After(cfg, w, rs[..i]), rs[i]);
              (one.outcome, one.world.obj) == rs[i].func(w.obj)
  {
    if rs != [] {
      var n := |rs| - 1;
      CacheIsTransparent(cfg, result, w, rs[..n]);
      ProcessIsTransparent(cfg, result, After(cfg, w, rs[..n]), rs[n]);
      forall i | 0 <= i < |rs|
        ensures var one := Process(cfg, After(cfg, w, rs[..i]), rs[i]);
                (one.outcome, one.world.obj) == rs[i].func(w.obj)
      {
        if i < n {
          assert rs[..n][..i] == rs[..i];
        }
      }
    }
  }
}
