/** Cache elements, the map-backed cache and the LRU decorator
    (src/microservice-essentials/performance/caching-request-hook.cpp:137-222). */
module LruCache {
  import opened Statuses

  type Key = string

  // std::any data: None is an empty any
  datatype Element<+D> = Element(data: Option<D>, status: Status, insertionTime: real) {
    predicate IsValid() { data.Some? }
  }

  const MIN_TIME: real := -9223372036854775808.0

  function InvalidElement<D>(): Element<D> {
    Element(None, Status(Unknown, "invalid cached element"), MIN_TIME)
  }

  class UnorderedMapCache<D> {
    var data: map<Key, Element<D>>

    constructor ()
      ensures data == map[]
    {
      data := map[];
    }

    method Insert(key: Key, element: Element<D>)
      modifies this
      ensures data == old(data)[key := element]
    {
      data := data[key := element];
    }

    method Get(key: Key) returns (element: Element<D>)
      ensures element == if key in data then data[key] else InvalidElement()
    {
      if key in data {
        return data[key];
      }
      return InvalidElement();
    }

    method Remove(key: Key)
      modifies this
      ensures data == old(data) - {key}
    {
      data := data - {key};
    }
  }

  // ---------------------------------------------------------------------
  // The recency list. A list node keeps its identity while it moves, so an
  // iterator into the list is the node itself; an iterator is live while its
  // node is in the list.

  datatype Node = Node(id: nat, key: Key)
  datatype LruData<+V> = LruData(handle: Node, data: Option<V>)

  function Without<T(==)>(list: seq<T>, x: T): (r: seq<T>)
    ensures x in list ==> |r| == |list| - 1
    ensures x !in list ==> r == list
  {
    if list == [] then [] else if list[0] == x then list[1..] else [list[0]] + Without(list[1..], x)
  }

  predicate Distinct<T(==)>(list: seq<T>) {
    forall i, j :: 0 <= i < j < |list| ==> list[i] != list[j]
  }

  lemma {:induction false} WithoutMembers<T>(list: seq<T>, x: T)
    requires Distinct(list)
    ensures Distinct(Without(list, x))
    ensures forall y :: y in Without(list, x) <==> y in list && y != x
  {
    if list != [] {
      assert list == [list[0]] + list[1..];
      WithoutMembers(list[1..], x);
      if list[0] == x {
        assert x !in list[1..];
      } else {
        assert list[0] !in Without(list[1..], x);
      }
    }
  }

  lemma {:induction false} WithoutSplits<T>(list: seq<T>, x: T) returns (p: nat)
    requires x in list
    ensures p < |list| && list[p] == x && Without(list, x) == list[..p] + list[p + 1..]
  {
    if list[0] == x {
      p := 0;
    } else {
      var q := WithoutSplits(list[1..], x);
      p := q + 1;
      assert list[..p] == [list[0]] + list[1..][..q] && list[p + 1..] == list[1..][q + 1..];
    }
  }

  /** The frontmost node labelled k. */
  function First(list: seq<Node>, k: Key): (r: Option<Node>)
    ensures r.Some? ==> r.value in list && r.value.key == k
    ensures r.None? ==> forall n :: n in list ==> n.key != k
  {
    if list == [] then None else if list[0].key == k then Some(list[0]) else First(list[1..], k)
  }

  lemma {:induction false} FirstAfterPop(list: seq<Node>, k: Key)
    requires list != [] && list[|list| - 1].key != k
    ensures First(list[..|list| - 1], k) == First(list, k)
  {
    if |list| > 1 && list[0].key != k {
      assert list[1..][..|list| - 2] == list[..|list| - 1][1..];
      FirstAfterPop(list[1..], k);
    }
  }

  lemma {:induction false} FirstAfterErase(list: seq<Node>, n: Node, k: Key)
    requires n.key != k
    ensures First(Without(list, n), k) == First(list, k)
  {
    if list != [] && list[0] != n && list[0].key != k {
      assert Without(list, n)[1..] == Without(list[1..], n);
      FirstAfterErase(list[1..], n, k);
    }
  }

  // ---------------------------------------------------------------------
  // State of an LRU cache and what each locked operation does to it.

  datatype State<V> = State(lru: seq<Node>, table: map<Key, Element<LruData<V>>>, nextId: nat)

  function Empty<V>(): State<V> { State([], map[], 0) }

  function Handle<V>(s: State<V>, k: Key): Node
    requires k in s.table && s.table[k].IsValid()
  {
    s.table[k].data.value.handle
  }

  /** Every table entry refers to a live node, labelled with the entry's key and frontmost with that
      label; nodes are pairwise different and at most cap of them exist. */
  ghost predicate Safe<V>(s: State<V>, cap: nat) {
    && Distinct(s.lru)
    && (forall n :: n in s.lru ==> n.id < s.nextId)
    && (forall k :: k in s.table ==> s.table[k].IsValid() && First(s.lru, k) == Some(Handle(s, k)))
    && |s.lru| <= cap
  }

  /** Dropping the back node and the entry it names, whichever node that entry refers to. */
  function Pop<V>(s: State<V>): State<V>
    requires s.lru != []
  {
    var last := |s.lru| - 1;
    s.(lru := s.lru[..last], table := s.table - {s.lru[last].key})
  }

  /** Dropping back nodes, and the entries they name, until there is room for one more. */
  function Evict<V>(s: State<V>, cap: nat): State<V>
    requires cap >= 1
    decreases |s.lru|
  {
    if |s.lru| >= cap then Evict(Pop(s), cap) else s
  }

  function AfterInsert<V>(s: State<V>, cap: nat, k: Key, e: Element<V>): State<V>
    requires cap >= 1
  {
    var t := Evict(s, cap);
    var n := Node(t.nextId, k);
    State([n] + t.lru, t.table[k := Element(Some(LruData(n, e.data)), e.status, e.insertionTime)], t.nextId + 1)
  }

  function AfterGet<V>(s: State<V>, k: Key): State<V> {
    if k in s.table && s.table[k].IsValid() then
      s.(lru := [Handle(s, k)] + Without(s.lru, Handle(s, k)))
    else s
  }

  function Lookup<V>(s: State<V>, k: Key): Element<V> {
    if k in s.table && s.table[k].IsValid() then
      Element(s.table[k].data.value.data, s.table[k].status, s.table[k].insertionTime)
    else InvalidElement()
  }

  function AfterRemove<V>(s: State<V>, k: Key): State<V> {
    if k in s.table && s.table[k].IsValid() then
      s.(lru := Without(s.lru, Handle(s, k)), table := s.table - {k})
    else s
  }

  lemma PopKeepsSafe<V>(s: State<V>, cap: nat)
    requires cap >= 1 && Safe(s, cap) && s.lru != []
    ensures Safe(Pop(s), cap)
  {
    var t := Pop(s);
    forall k | k in t.table
      ensures First(t.lru, k) == Some(Handle(t, k))
    {
      FirstAfterPop(s.lru, k);
    }
  }

  /** At most one node has to go. */
  lemma EvictMakesRoom<V>(s: State<V>, cap: nat)
    requires cap >= 1 && Safe(s, cap)
    ensures Evict(s, cap) == if |s.lru| == cap then Pop(s) else s
    ensures Safe(Evict(s, cap), cap) && |Evict(s, cap).lru| < cap
  {
    if |s.lru| == cap {
      PopKeepsSafe(s, cap);
      assert |Pop(s).lru| < cap;
    }
  }

  lemma EvictDropsOne<V>(s: State<V>, cap: nat)
    requires cap >= 1 && Safe(s, cap)
    ensures var u := Evict(s, cap);
            && u.lru == (if |s.lru| == cap then s.lru[..cap - 1] else s.lru)
            && (forall j :: j in s.table ==> (j !in u.table <==> |s.lru| == cap && s.lru[cap - 1].key == j))
            && (forall j :: j in u.table ==> j in s.table && u.table[j] == s.table[j])
  {
    EvictMakesRoom(s, cap);
  }

  lemma PushKeepsSafe<V>(s: State<V>, t: State<V>, cap: nat, k: Key, e: Element<LruData<V>>)
    requires Safe(s, cap) && |s.lru| < cap && e.IsValid() && e.data.value.handle == Node(s.nextId, k)
    requires t == State([Node(s.nextId, k)] + s.lru, s.table[k := e], s.nextId + 1)
    ensures Safe(t, cap)
  {
    assert t.lru[1..] == s.lru;
    forall j | j in t.table
      ensures t.table[j].IsValid() && First(t.lru, j) == Some(Handle(t, j))
    {
    }
  }

  /** Any insert, of a resident key or not, is handle-safe and evicts at most one node. */
  lemma InsertKeepsSafe<V>(s: State<V>, cap: nat, k: Key, e: Element<V>)
    requires cap >= 1 && Safe(s, cap)
    ensures var t := AfterInsert(s, cap, k, e);
            && Safe(t, cap)
            && t.lru != [] && t.lru[0].key == k && Lookup(t, k) == e
            && t.lru[1..] == (if |s.lru| == cap then s.lru[..cap - 1] else s.lru)
            && (forall j :: j in s.table && j != k ==>
                  (j !in t.table <==> |s.lru| == cap && s.lru[cap - 1].key == j))
            && (forall j :: j in t.table && j != k ==> j in s.table && t.table[j] == s.table[j])
  {
    EvictMakesRoom(s, cap);
    EvictDropsOne(s, cap);
    var u := Evict(s, cap);
    var n := Node(u.nextId, k);
    PushKeepsSafe(u, AfterInsert(s, cap, k, e), cap, k, Element(Some(LruData(n, e.data)), e.status, e.insertionTime));
    assert ([n] + u.lru)[1..] == u.lru;
  }

  /** An insert puts a new node in front; a full list loses its back node and the entry of that node's key. */
  lemma InsertReplacesLast<V>(s: State<V>, cap: nat, k: Key, e: Element<V>)
    requires cap >= 1 && Safe(s, cap)
    ensures var node := Node(s.nextId, k);
            var stored := Element(Some(LruData(node, e.data)), e.status, e.insertionTime);
            AfterInsert(s, cap, k, e)
            == if |s.lru| < cap then State([node] + s.lru, s.table[k := stored], s.nextId + 1)
               else State([node] + s.lru[..cap - 1], (s.table - {s.lru[cap - 1].key})[k := stored], s.nextId + 1)
  {
    EvictMakesRoom(s, cap);
  }

  lemma GetKeepsSafe<V>(s: State<V>, cap: nat, k: Key)
    requires Safe(s, cap)
    ensures Safe(AfterGet(s, k), cap)
  {
    if k in s.table {
      var h := Handle(s, k);
      WithoutMembers(s.lru, h);
      var t := AfterGet(s, k);
      assert t.lru[1..] == Without(s.lru, h);
      forall j | j in t.table
        ensures First(t.lru, j) == Some(Handle(t, j))
      {
        if j != k {
          FirstAfterErase(s.lru, h, j);
        }
      }
    }
  }

  lemma RemoveKeepsSafe<V>(s: State<V>, cap: nat, k: Key)
    requires Safe(s, cap)
    ensures Safe(AfterRemove(s, k), cap)
  {
    if k in s.table {
      var h := Handle(s, k);
      WithoutMembers(s.lru, h);
      forall j | j in s.table && j != k
        ensures First(Without(s.lru, h), j) == Some(Handle(s, j))
      {
        FirstAfterErase(s.lru, h, j);
      }
    }
  }

  /** A lookup moves a node and changes no element ... */
  lemma GetChangesNoElement<V>(s: State<V>, k: Key, j: Key)
    ensures AfterGet(s, k).table == s.table
    ensures Lookup(AfterGet(s, k), j) == Lookup(s, j)
  {
  }

  /** ... a removal drops one element and changes no other ... */
  lemma RemoveDropsOneElement<V>(s: State<V>, cap: nat, k: Key, j: Key)
    requires Safe(s, cap)
    ensures AfterRemove(s, k).table == s.table - {k}
    ensures Lookup(AfterRemove(s, k), j) == if j == k then InvalidElement() else Lookup(s, j)
  {
  }

  /** ... and an insertion adds the element as it was given. */
  lemma InsertAddsElement<V>(s: State<V>, cap: nat, k: Key, e: Element<V>, j: Key)
    requires cap >= 1 && Safe(s, cap)
    ensures var t := AfterInsert(s, cap, k, e);
            && k in t.table && Lookup(t, k) == e
            && (j in t.table && j != k ==> j in s.table && Lookup(t, j) == Lookup(s, j))
  {
    InsertKeepsSafe(s, cap, k, e);
  }

  // ---------------------------------------------------------------------
  // Runs

  datatype Op<+V> = OpInsert(key: Key, element: Element<V>) | OpGet(key: Key) | OpRemove(key: Key)

  function Step<V>(s: State<V>, cap: nat, op: Op<V>): State<V>
    requires cap >= 1
  {
    match op
    case OpInsert(k, e) => AfterInsert(s, cap, k, e)
    case OpGet(k) => AfterGet(s, k)
    case OpRemove(k) => AfterRemove(s, k)
  }

  function Run<V>(cap: nat, ops: seq<Op<V>>): State<V>
    requires cap >= 1
  {
    if ops == [] then Empty() else Step(Run(cap, ops[..|ops| - 1]), cap, ops[|ops| - 1])
  }

  lemma {:induction false} LabelsBound(list: seq<Node>, keys: set<Key>)
    requires forall k :: k in keys ==> exists n :: n in list && n.key == k
    ensures |keys| <= |list|
  {
    if list == [] {
      assert keys == {};
    } else {
      var rest := keys - {list[0].key};
      forall k | k in rest
        ensures exists n :: n in list[1..] && n.key == k
      {
        var n :| n in list && n.key == k;
        assert n in list[1..];
      }
      LabelsBound(list[1..], rest);
      assert |keys| <= |rest| + 1 by {
        if list[0].key in keys {
          assert keys == rest + {list[0].key};
        } else {
          assert keys == rest;
        }
      }
    }
  }

  /** Handle safety over every run, re-inserts included. */
  lemma {:induction false} RunIsSafe<V>(cap: nat, ops: seq<Op<V>>)
    requires cap >= 1
    ensures Safe(Run(cap, ops), cap)
    ensures |Run(cap, ops).table| <= |Run(cap, ops).lru| <= cap
  {
    if ops != [] {
      var s := Run(cap, ops[..|ops| - 1]);
      RunIsSafe(cap, ops[..|ops| - 1]);
      match ops[|ops| - 1]
      case OpInsert(k, e) => InsertKeepsSafe(s, cap, k, e);
      case OpGet(k) => GetKeepsSafe(s, cap, k);
      case OpRemove(k) => RemoveKeepsSafe(s, cap, k);
    }
    var s := Run(cap, ops);
    forall k | k in s.table.Keys
      ensures exists n :: n in s.lru && n.key == k
    {
      assert Handle(s, k) in s.lru;
    }
    LabelsBound(s.lru, s.table.Keys);
    assert |s.table| == |s.table.Keys|;
  }

  /** The element last inserted under k and not removed since. */
  function LastInserted<V>(ops: seq<Op<V>>, k: Key): Option<Element<V>> {
    if ops == [] then None
    else
      match ops[|ops| - 1]
      case OpInsert(j, e) => if j == k then Some(e) else LastInserted(ops[..|ops| - 1], k)
      case OpGet(_) => LastInserted(ops[..|ops| - 1], k)
      case OpRemove(j) => if j == k then None else LastInserted(ops[..|ops| - 1], k)
  }

  lemma StepHoldsLastInserted<V>(s: State<V>, cap: nat, last: Option<Element<V>>, op: Op<V>, k: Key)
    requires cap >= 1 && Safe(s, cap) && (k in s.table ==> last == Some(Lookup(s, k)))
    ensures var t := Step(s, cap, op);
            k in t.table ==>
              Some(Lookup(t, k)) == if op.OpInsert? && op.key == k then Some(op.element)
                                    else if op.OpRemove? && op.key == k then None else last
  {
    match op
    case OpInsert(j, e) => InsertAddsElement(s, cap, j, e, k);
    case OpGet(j) => GetChangesNoElement(s, j, k);
    case OpRemove(j) => RemoveDropsOneElement(s, cap, j, k);
  }

  /** In every run, what is resident under a key is the element last inserted there, unchanged. */
  lemma {:induction false} RunHoldsLastInserted<V>(cap: nat, ops: seq<Op<V>>, k: Key)
    requires cap >= 1
    ensures k in Run(cap, ops).table ==> LastInserted(ops, k) == Some(Lookup(Run(cap, ops), k))
  {
    if ops != [] {
      var prefix := ops[..|ops| - 1];
      RunIsSafe(cap, prefix);
      RunHoldsLastInserted(cap, prefix, k);
      StepHoldsLastInserted(Run(cap, prefix), cap, LastInserted(prefix, k), ops[|ops| - 1], k);
    }
  }

  // ---------------------------------------------------------------------

  class LRUCache<V> {
    const realCache: UnorderedMapCache?<LruData<V>>
    const maxSize: nat
    var lru: seq<Node>
    var nextId: nat

    ghost function Model(): State<V>
      requires realCache != null
      reads this, realCache
    {
      State(lru, realCache.data, nextId)
    }

    ghost predicate Valid()
      reads this, realCache
    {
      realCache != null ==> maxSize >= 1 && Safe(Model(), maxSize)
    }

    /** The backing cache is owned by this object alone and starts empty. */
    constructor (realCache: UnorderedMapCache?<LruData<V>>, maxSize: nat)
      requires realCache != null ==> maxSize >= 1 && realCache.data == map[]
      ensures this.realCache == realCache && this.maxSize == maxSize
      ensures Valid() && (realCache != null ==> Model() == Empty())
    {
      this.realCache, this.maxSize := realCache, maxSize;
      lru, nextId := [], 0;
    }

    // std::list::splice of one node; undefined on an iterator whose node is gone
    method SpliceToFront(n: Node)
      requires n in lru
      modifies this`lru
      ensures lru == [n] + Without(old(lru), n)
    {
      lru := [n] + Without(lru, n);
    }

    // std::list::erase; undefined on an iterator whose node is gone
    method EraseNode(n: Node)
      requires n in lru
      modifies this`lru
      ensures lru == Without(old(lru), n)
    {
      lru := Without(lru, n);
    }

    method Insert(key: Key, element: Element<V>)
      requires Valid()
      modifies this, realCache
      ensures Valid()
      ensures realCache != null ==> Model() == AfterInsert(old(Model()), maxSize, key, element)
      ensures realCache == null ==> lru == old(lru) && nextId == old(nextId)
    {
      if realCache == null {
        return;
      }
      ghost var s := Model();
      while |lru| >= maxSize
        invariant nextId == s.nextId
        invariant Evict(Model(), maxSize) == Evict(s, maxSize)
        decreases |lru|
      {
        ghost var before := Model();
        realCache.Remove(lru[|lru| - 1].key);
        lru := lru[..|lru| - 1];
        assert Model() == Pop(before);
      }
      var node := Node(nextId, key);
      nextId := nextId + 1;
      lru := [node] + lru;
      realCache.Insert(key, Element(Some(LruData(node, element.data)), element.status, element.insertionTime));
      InsertKeepsSafe(s, maxSize, key, element);
    }

    method Get(key: Key) returns (element: Element<V>)
      requires Valid()
      modifies this, realCache
      ensures Valid()
      ensures realCache != null ==> Model() == AfterGet(old(Model()), key) && element == Lookup(old(Model()), key)
      ensures realCache != null ==>
                && realCache.data == old(realCache.data)
                && if key in realCache.data then
                     var d := realCache.data[key];
                     && d.IsValid() && element == Element(d.data.value.data, d.status, d.insertionTime)
                     && lru == [d.data.value.handle] + Without(old(lru), d.data.value.handle)
                   else !element.IsValid() && lru == old(lru)
      ensures realCache == null ==> lru == old(lru) && nextId == old(nextId) && element == InvalidElement()
    {
      if realCache == null {
        return InvalidElement();
      }
      GetKeepsSafe(Model(), maxSize, key);
      var found := realCache.Get(key);
      if !found.IsValid() {
        return InvalidElement();
      }
      SpliceToFront(found.data.value.handle);
      return Element(found.data.value.data, found.status, found.insertionTime);
    }

    method Remove(key: Key)
      requires Valid()
      modifies this, realCache
      ensures Valid()
      ensures realCache != null ==> Model() == AfterRemove(old(Model()), key)
      ensures realCache != null ==>
                && realCache.data == old(realCache.data) - {key}
                && if key in old(realCache.data) then
                     var d := old(realCache.data)[key];
                     d.IsValid() && lru == Without(old(lru), d.data.value.handle)
                   else lru == old(lru)
      ensures realCache == null ==> lru == old(lru) && nextId == old(nextId)
    {
      if realCache == null {
        return;
      }
      RemoveKeepsSafe(Model(), maxSize, key);
      var found := realCache.Get(key);
      if !found.IsValid() {
        return;
      }
      EraseNode(found.data.value.handle);
      realCache.Remove(key);
    }
  }
}
