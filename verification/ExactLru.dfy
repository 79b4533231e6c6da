/** When the LRU decorator is an exact least-recently-used cache, and what goes wrong when it is not. */
module ExactLru {
  import opened Statuses
  import opened LruCache

  function Labels(list: seq<Node>): (keys: seq<Key>)
    ensures |keys| == |list|
    ensures forall i :: 0 <= i < |list| ==> keys[i] == list[i].key
  {
    if list == [] then [] else [list[0].key] + Labels(list[1..])
  }

  /** Handle-safe, and every node is the one its label's entry refers to. */
  ghost predicate Exact<V>(s: State<V>, cap: nat) {
    && Safe(s, cap)
    && (forall n :: n in s.lru ==> n.key in s.table && Handle(s, n.key) == n)
  }

  /** An insert that leaves no stale node behind: the key is absent, or is the one about to be evicted. */
  predicate Benign<V>(s: State<V>, cap: nat, op: Op<V>) {
    op.OpInsert? ==>
      || op.key !in s.table
      || (0 < |s.lru| == cap && s.lru[cap - 1].key == op.key)
  }

  /** The textbook cache: a list of keys, most recently used first. */
  function Recency<V>(keys: seq<Key>, cap: nat, op: Op<V>): seq<Key> {
    match op
    case OpInsert(k, _) => [k] + (if 0 < |keys| == cap then keys[..cap - 1] else keys)
    case OpGet(k) => if k in keys then [k] + Without(keys, k) else keys
    case OpRemove(k) => Without(keys, k)
  }

  lemma {:induction false} LabelsOfErased(list: seq<Node>, k: Key)
    requires First(list, k).Some?
    ensures Labels(Without(list, First(list, k).value)) == Without(Labels(list), k)
  {
    assert Labels(list)[1..] == Labels(list[1..]);
    if list[0].key != k {
      LabelsOfErased(list[1..], k);
    }
  }

  /** The list holds each resident key once, and no other key. */
  lemma ExactLabels<V>(s: State<V>, cap: nat)
    requires Exact(s, cap)
    ensures Distinct(Labels(s.lru))
  {
    forall i, j | 0 <= i < j < |s.lru|
      ensures Labels(s.lru)[i] != Labels(s.lru)[j]
    {
      assert s.lru[i] in s.lru && s.lru[j] in s.lru;
    }
  }

  lemma ListedIffResident<V>(s: State<V>, cap: nat, k: Key)
    requires Exact(s, cap)
    ensures k in s.table <==> k in Labels(s.lru)
  {
    if k in s.table {
      var i :| 0 <= i < |s.lru| && s.lru[i] == Handle(s, k);
      assert Labels(s.lru)[i] == k;
    }
    if k in Labels(s.lru) {
      var i :| 0 <= i < |s.lru| && Labels(s.lru)[i] == k;
      assert s.lru[i] in s.lru;
    }
  }

  lemma InsertRefinesRecency<V>(s: State<V>, cap: nat, k: Key, e: Element<V>)
    requires cap >= 1 && Exact(s, cap) && Benign(s, cap, OpInsert(k, e))
    ensures Exact(AfterInsert(s, cap, k, e), cap)
    ensures Labels(AfterInsert(s, cap, k, e).lru) == Recency(Labels(s.lru), cap, OpInsert(k, e))
  {
    var t := AfterInsert(s, cap, k, e);
    InsertKeepsSafe(s, cap, k, e);
    KeptStaysExact(s, cap, k, e);
    assert t.lru == [t.lru[0]] + t.lru[1..];
    assert First(t.lru, k) == Some(t.lru[0]);
  }

  lemma KeptStaysExact<V>(s: State<V>, cap: nat, k: Key, e: Element<V>)
    requires cap >= 1 && Exact(s, cap) && Benign(s, cap, OpInsert(k, e)) && Safe(AfterInsert(s, cap, k, e), cap)
    ensures var t := AfterInsert(s, cap, k, e);
            forall n :: n in (if |s.lru| == cap then s.lru[..cap - 1] else s.lru) ==>
              n.key in t.table && Handle(t, n.key) == n
  {
    InsertKeepsSafe(s, cap, k, e);
    var t := AfterInsert(s, cap, k, e);
    forall n | n in (if |s.lru| == cap then s.lru[..cap - 1] else s.lru)
      ensures n.key in t.table && Handle(t, n.key) == n
    {
      assert n in s.lru;
      if |s.lru| == cap {
        assert s.lru[cap - 1] in s.lru && n != s.lru[cap - 1];
      }
    }
  }

  lemma GetRefinesRecency<V>(s: State<V>, cap: nat, k: Key)
    requires Exact(s, cap)
    ensures Exact(AfterGet(s, k), cap)
    ensures Labels(AfterGet(s, k).lru) == if k in s.table then [k] + Without(Labels(s.lru), k) else Labels(s.lru)
  {
    GetKeepsSafe(s, cap, k);
    if k in s.table {
      LabelsOfErased(s.lru, k);
      WithoutMembers(s.lru, Handle(s, k));
    }
  }

  lemma OthersHaveOtherLabels<V>(s: State<V>, cap: nat, k: Key, n: Node)
    requires Exact(s, cap) && k in s.table && n in Without(s.lru, Handle(s, k))
    ensures n in s.lru && n.key != k
  {
    WithoutMembers(s.lru, Handle(s, k));
  }

  lemma RemoveStaysExact<V>(s: State<V>, cap: nat, k: Key)
    requires Exact(s, cap)
    ensures Exact(AfterRemove(s, k), cap)
  {
    RemoveKeepsSafe(s, cap, k);
    if k in s.table {
      forall n | n in Without(s.lru, Handle(s, k))
        ensures n in s.lru && n.key != k
      {
        OthersHaveOtherLabels(s, cap, k, n);
      }
    }
  }

  lemma RemoveRefinesRecency<V>(s: State<V>, cap: nat, k: Key)
    requires Exact(s, cap)
    ensures Exact(AfterRemove(s, k), cap)
    ensures k in s.table ==> Labels(AfterRemove(s, k).lru) == Without(Labels(s.lru), k)
    ensures k !in s.table ==> AfterRemove(s, k) == s
  {
    RemoveStaysExact(s, cap, k);
    if k in s.table {
      LabelsOfErased(s.lru, k);
    }
  }

  /** One operation on an exact cache: it stays exact, and does what the textbook list does. */
  lemma StepRefinesRecency<V>(s: State<V>, cap: nat, op: Op<V>)
    requires cap >= 1 && Exact(s, cap) && Benign(s, cap, op)
    ensures Exact(Step(s, cap, op), cap)
    ensures Labels(Step(s, cap, op).lru) == Recency(Labels(s.lru), cap, op)
  {
    ListedIffResident(s, cap, op.key);
    match op
    case OpInsert(k, e) => InsertRefinesRecency(s, cap, k, e);
    case OpGet(k) => GetRefinesRecency(s, cap, k);
    case OpRemove(k) => RemoveRefinesRecency(s, cap, k);
  }

  /** Benign inserts are the only ones that keep the cache exact. */
  lemma InsertStaysExactIff<V>(s: State<V>, cap: nat, k: Key, e: Element<V>)
    requires cap >= 1 && Exact(s, cap)
    ensures Exact(AfterInsert(s, cap, k, e), cap) <==> Benign(s, cap, OpInsert(k, e))
  {
    if Benign(s, cap, OpInsert(k, e)) {
      StepRefinesRecency(s, cap, OpInsert(k, e));
    } else {
      ReinsertIsNotExact(s, cap, k, e);
    }
  }

  lemma TwoNodesOfOneKey<V>(s: State<V>, cap: nat, i: nat, j: nat)
    requires i < j < |s.lru| && s.lru[i].key == s.lru[j].key
    ensures !Exact(s, cap)
  {
    assert s.lru[i] in s.lru && s.lru[j] in s.lru;
  }

  // where the node of a re-inserted key is that no eviction removes
  lemma KeptNode<V>(s: State<V>, cap: nat, k: Key) returns (i: nat)
    requires Exact(s, cap) && k in s.table && !(0 < |s.lru| == cap && s.lru[cap - 1].key == k)
    ensures i < |s.lru| && s.lru[i].key == k && (|s.lru| == cap ==> i < cap - 1)
  {
    i :| 0 <= i < |s.lru| && s.lru[i] == Handle(s, k);
  }

  lemma ReinsertIsNotExact<V>(s: State<V>, cap: nat, k: Key, e: Element<V>)
    requires cap >= 1 && Exact(s, cap) && !Benign(s, cap, OpInsert(k, e))
    ensures !Exact(AfterInsert(s, cap, k, e), cap)
  {
    var i := KeptNode(s, cap, k);
    EvictDropsOne(s, cap);
    TwoNodesOfOneKey(AfterInsert(s, cap, k, e), cap, 0, i + 1);
  }

  // ---------------------------------------------------------------------
  // The victim is the least recently used key

  /** The last operation of the run inserts k or finds it. */
  predicate UsesAtEnd<V>(cap: nat, ops: seq<Op<V>>, k: Key)
    requires cap >= 1 && ops != []
  {
    match ops[|ops| - 1]
    case OpInsert(j, _) => j == k
    case OpGet(j) => j == k && k in Run(cap, ops[..|ops| - 1]).table
    case OpRemove(_) => false
  }

  /** Position (from 1) of the last operation that inserted k or found it; 0 when there is none. */
  function LastUse<V>(cap: nat, ops: seq<Op<V>>, k: Key): (t: nat)
    requires cap >= 1
    ensures t <= |ops|
  {
    if ops == [] then 0
    else if UsesAtEnd(cap, ops, k) then |ops|
    else LastUse(cap, ops[..|ops| - 1], k)
  }

  ghost predicate Benigns<V>(cap: nat, ops: seq<Op<V>>)
    requires cap >= 1
  {
    forall i :: 0 <= i < |ops| ==> Benign(Run(cap, ops[..i]), cap, ops[i])
  }

  predicate Descending(time: Key -> nat, keys: seq<Key>) {
    forall i, j :: 0 <= i < j < |keys| ==> time(keys[i]) > time(keys[j])
  }

  // index in a list of the i-th element that is left when the one at p is taken out
  function Skipping(p: nat, i: nat): nat { if i < p then i else i + 1 }

  lemma SkipAt(keys: seq<Key>, p: nat, i: nat)
    requires p < |keys| && i < |keys| - 1
    ensures (keys[..p] + keys[p + 1..])[i] == keys[Skipping(p, i)]
  {
  }

  lemma DescendingSkips(time: Key -> nat, keys: seq<Key>, p: nat)
    requires Descending(time, keys) && p < |keys|
    ensures Descending(time, keys[..p] + keys[p + 1..])
  {
    var rest := keys[..p] + keys[p + 1..];
    forall i, j | 0 <= i < j < |rest|
      ensures time(rest[i]) > time(rest[j])
    {
      SkipAt(keys, p, i);
      SkipAt(keys, p, j);
    }
  }

  lemma DescendingWithout(time: Key -> nat, keys: seq<Key>, k: Key)
    requires Descending(time, keys)
    ensures Descending(time, Without(keys, k))
  {
    if k in keys {
      var p := WithoutSplits(keys, k);
      DescendingSkips(time, keys, p);
    }
  }

  function UseTimes<V>(cap: nat, ops: seq<Op<V>>): Key -> nat
    requires cap >= 1
  {
    k => LastUse(cap, ops, k)
  }

  ghost predicate NewestFirst<V>(cap: nat, ops: seq<Op<V>>, keys: seq<Key>)
    requires cap >= 1
  {
    Descending(UseTimes(cap, ops), keys)
  }

  lemma BenignPrefix<V>(cap: nat, ops: seq<Op<V>>)
    requires cap >= 1 && ops != [] && Benigns(cap, ops)
    ensures Benigns(cap, ops[..|ops| - 1])
  {
    var prefix := ops[..|ops| - 1];
    forall i | 0 <= i < |prefix|
      ensures Benign(Run(cap, prefix[..i]), cap, prefix[i])
    {
      assert prefix[..i] == ops[..i];
    }
  }

  /** A list in the old order, with the key just used put in front, is in the new order. */
  lemma UsedKeyInFront<V>(cap: nat, ops: seq<Op<V>>, tail: seq<Key>)
    requires cap >= 1 && ops != [] && NewestFirst(cap, ops[..|ops| - 1], tail)
    requires ops[|ops| - 1].key !in tail || !UsesAtEnd(cap, ops, ops[|ops| - 1].key)
    ensures NewestFirst(cap, ops, tail)
    ensures UsesAtEnd(cap, ops, ops[|ops| - 1].key) ==> NewestFirst(cap, ops, [ops[|ops| - 1].key] + tail)
  {
    forall i | 0 <= i < |tail|
      ensures LastUse(cap, ops, tail[i]) == LastUse(cap, ops[..|ops| - 1], tail[i]) < |ops|
    {
      assert tail[i] in tail;
    }
  }

  /** What the textbook list does keeps it ordered by last use. */
  lemma RecencyStaysOrdered<V>(cap: nat, ops: seq<Op<V>>, before: seq<Key>)
    requires cap >= 1 && ops != [] && Distinct(before)
    requires ops[|ops| - 1].OpInsert? ==>
               ops[|ops| - 1].key !in before || (0 < |before| == cap && before[cap - 1] == ops[|ops| - 1].key)
    requires ops[|ops| - 1].OpGet? ==>
               (ops[|ops| - 1].key in before <==> ops[|ops| - 1].key in Run(cap, ops[..|ops| - 1]).table)
    requires NewestFirst(cap, ops[..|ops| - 1], before)
    ensures NewestFirst(cap, ops, Recency(before, cap, ops[|ops| - 1]))
  {
    var n := |ops| - 1;
    var prefix, k := ops[..n], ops[n].key;
    match ops[n]
    case OpInsert(_, _) =>
      var kept := if 0 < |before| == cap then before[..cap - 1] else before;
      assert k !in kept;
      UsedKeyInFront(cap, ops, kept);
    case OpGet(_) =>
      DescendingWithout(UseTimes(cap, prefix), before, k);
      WithoutMembers(before, k);
      UsedKeyInFront(cap, ops, Without(before, k));
    case OpRemove(_) =>
      DescendingWithout(UseTimes(cap, prefix), before, k);
      WithoutMembers(before, k);
      UsedKeyInFront(cap, ops, Without(before, k));
  }

  /** Every run of benign operations: exact at the end, and ordered by last use. */
  lemma {:induction false} RunIsLeastRecentlyUsed<V>(cap: nat, ops: seq<Op<V>>)
    requires cap >= 1 && Benigns(cap, ops)
    ensures Exact(Run(cap, ops), cap)
    ensures NewestFirst(cap, ops, Labels(Run(cap, ops).lru))
  {
    if ops != [] {
      var n := |ops| - 1;
      BenignPrefix(cap, ops);
      RunIsLeastRecentlyUsed(cap, ops[..n]);
      var s := Run(cap, ops[..n]);
      ExactLabels(s, cap);
      ListedIffResident(s, cap, ops[n].key);
      assert Benign(s, cap, ops[n]);
      StepRefinesRecency(s, cap, ops[n]);
      RecencyStaysOrdered(cap, ops, Labels(s.lru));
    }
  }

  lemma InsertEvictsLast<V>(s: State<V>, cap: nat, k: Key, e: Element<V>)
    requires cap >= 1 && Exact(s, cap) && k !in s.table && |s.lru| == cap
    ensures s.lru[cap - 1].key in s.table
    ensures AfterInsert(s, cap, k, e).table.Keys == s.table.Keys - {s.lru[cap - 1].key} + {k}
  {
    InsertKeepsSafe(s, cap, k, e);
    assert s.lru[cap - 1] in s.lru;
  }

  lemma LastIsSmallest(time: Key -> nat, keys: seq<Key>, j: Key)
    requires Descending(time, keys) && j in keys && j != keys[|keys| - 1]
    ensures time(keys[|keys| - 1]) < time(j)
  {
  }

  lemma LastIsOldest<V>(time: Key -> nat, s: State<V>, cap: nat, j: Key)
    requires Exact(s, cap) && Descending(time, Labels(s.lru))
    requires s.lru != [] && j in s.table && j != s.lru[|s.lru| - 1].key
    ensures time(s.lru[|s.lru| - 1].key) < time(j)
  {
    var keys, last := Labels(s.lru), |s.lru| - 1;
    assert keys[last] == s.lru[last].key;
    assert j in keys by {
      ListedIffResident(s, cap, j);
    }
    LastIsSmallest(time, keys, j);
  }

  /** On a full cache after any benign run, inserting an absent key evicts exactly one key, the least
      recently used one. */
  lemma VictimIsLeastRecentlyUsed<V>(cap: nat, ops: seq<Op<V>>, k: Key, e: Element<V>) returns (victim: Key)
    requires cap >= 1 && Benigns(cap, ops)
    requires k !in Run(cap, ops).table && |Run(cap, ops).lru| == cap
    ensures victim in Run(cap, ops).table
    ensures Run(cap, ops + [OpInsert(k, e)]).table.Keys == Run(cap, ops).table.Keys - {victim} + {k}
    ensures forall j :: j in Run(cap, ops).table && j != victim ==>
              LastUse(cap, ops, victim) < LastUse(cap, ops, j)
  {
    var s := Run(cap, ops);
    victim := s.lru[cap - 1].key;
    assert Run(cap, ops + [OpInsert(k, e)]) == AfterInsert(s, cap, k, e) by {
      assert (ops + [OpInsert(k, e)])[..|ops|] == ops;
    }
    RunIsLeastRecentlyUsed(cap, ops);
    InsertEvictsLast(s, cap, k, e);
    forall j | j in s.table && j != victim
      ensures LastUse(cap, ops, victim) < LastUse(cap, ops, j)
    {
      LastIsOldest(UseTimes(cap, ops), s, cap, j);
    }
  }

  /** Re-inserting a resident key breaks this: with room for two, "a" is evicted right after being
      inserted twice, although only two keys were ever used and "b" is the other one. */
  lemma ReinsertEvictsEarly(e: Element<int>)
    ensures Run(2, [OpInsert("a", e), OpInsert("a", e), OpInsert("b", e)]).table.Keys == {"b"}
  {
    var ops := [OpInsert("a", e), OpInsert("a", e), OpInsert("b", e)];
    assert ops[..2] == [OpInsert("a", e), OpInsert("a", e)];
    assert ops[..2][..1] == [OpInsert("a", e)];
    assert ops[..2][..1][..0] == [];
    var s0 := Empty<int>();
    InsertKeepsSafe(s0, 2, "a", e);
    var s1 := AfterInsert(s0, 2, "a", e);
    var s2 := AfterInsert(s1, 2, "a", e);
    InsertKeepsSafe(s1, 2, "a", e);
    assert s2.lru == [Node(1, "a"), Node(0, "a")];
    EvictMakesRoom(s2, 2);
    assert Run(2, ops[..2][..1][..0]) == s0;
    assert Run(2, ops[..2][..1]) == s1;
    assert Run(2, ops[..2]) == s2;
    assert Run(2, ops) == AfterInsert(s2, 2, "b", e);
  }
}
