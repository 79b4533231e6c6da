/** The parent relation among contexts, and what constructions and assignments do to it
    (src/microservice-essentials/context.cpp:50-109, 207-235). */
module ParentGraph {
  import opened Statuses

  // every context with its parent
  type Graph<N(==)> = map<N, Option<N>>

  function Put<N(==)>(rank: map<N, nat>, n: N, r: nat): map<N, nat> { rank[n := r] }

  /** All parents are contexts of the graph, and ranks fall from child to parent. */
  ghost predicate Ranked<N>(g: Graph<N>, rank: map<N, nat>) {
    && g.Keys <= rank.Keys
    && (forall n :: n in g && g[n].Some? ==> g[n].value in g && rank[g[n].value] < rank[n])
  }

  ghost predicate Acyclic<N(!new)>(g: Graph<N>) {
    exists rank :: Ranked(g, rank)
  }

  /** Parent, grandparent and so on. */
  ghost function Ancestors<N>(g: Graph<N>, rank: map<N, nat>, n: N): (r: seq<N>)
    requires Ranked(g, rank) && n in g
    ensures forall a :: a in r ==> a in g && rank[a] < rank[n]
    decreases rank[n]
  {
    if g[n].None? then [] else [g[n].value] + Ancestors(g, rank, g[n].value)
  }

  /** The ranks serve termination only. */
  lemma {:induction false} AncestorsIgnoreRank<N>(g: Graph<N>, r1: map<N, nat>, r2: map<N, nat>, n: N)
    requires Ranked(g, r1) && Ranked(g, r2) && n in g
    ensures Ancestors(g, r1, n) == Ancestors(g, r2, n)
    decreases r1[n]
  {
    if g[n].Some? {
      AncestorsIgnoreRank(g, r1, r2, g[n].value);
    }
  }

  /** Giving x another parent creates no cycle if x is not that parent nor an ancestor of it. */
  ghost function Reranked<N>(g: Graph<N>, rank: map<N, nat>, x: N, p: N): (r: map<N, nat>)
    requires Ranked(g, rank) && x in g && p in g && x != p && x !in Ancestors(g, rank, p)
    ensures Ranked(g[x := Some(p)], r)
  {
    map n | n in g :: if n == x || x in Ancestors(g, rank, n) then rank[n] + rank[p] + 1 else rank[n]
  }

  /** Assigning to x what y has. The second component tells whether std::logic_error is thrown. */
  ghost function Assigned<N>(g: Graph<N>, rank: map<N, nat>, global: N, x: N, y: N): (r: (Graph<N>, bool))
    requires Ranked(g, rank) && x in g && y in g
  {
    if x == y then (g, false)
    else if x == global then (g[x := None], false)
    else if g[y] == Some(x) then (g, false)
    else if x in Ancestors(g, rank, y) then (g, true)
    else (g[x := g[y]], false)
  }

  ghost function RankAfter<N>(g: Graph<N>, rank: map<N, nat>, global: N, x: N, y: N): (r: map<N, nat>)
    requires Ranked(g, rank) && x in g && y in g
    ensures Ranked(Assigned(g, rank, global, x, y).0, r)
  {
    if x == y || x == global || g[y].None? || g[y] == Some(x) || x in Ancestors(g, rank, y) then rank
    else Reranked(g, rank, x, g[y].value)
  }

  lemma {:induction false} AncestorsElsewhere<N>(
      g: Graph<N>, r1: map<N, nat>, x: N, p: Option<N>, r2: map<N, nat>, n: N)
    requires Ranked(g, r1) && Ranked(g[x := p], r2) && n in g && n != x && x !in Ancestors(g, r1, n)
    ensures Ancestors(g[x := p], r2, n) == Ancestors(g, r1, n)
    decreases r1[n]
  {
    if g[n].Some? {
      AncestorsElsewhere(g, r1, x, p, r2, g[n].value);
    }
  }

  /** After an assignment that takes place, x has exactly the ancestors of y. */
  lemma AssignedAncestors<N>(g: Graph<N>, rank: map<N, nat>, global: N, x: N, y: N)
    requires Ranked(g, rank) && x in g && y in g && x != y && x != global && g[y] != Some(x)
    requires x !in Ancestors(g, rank, y)
    ensures var t := Assigned(g, rank, global, x, y).0;
            && t == g[x := g[y]]
            && Ancestors(t, RankAfter(g, rank, global, x, y), x) == Ancestors(g, rank, y)
  {
    var r := RankAfter(g, rank, global, x, y);
    assert Ranked(g[x := g[y]], r);
    if g[y].Some? {
      AncestorsElsewhere(g, rank, x, g[y], r, g[y].value);
    }
  }

  // ---------------------------------------------------------------------
  // Runs

  datatype Op<N> = Construct(x: N, parent: N) | CopyConstruct(x: N, y: N) | Assign(x: N, y: N)

  predicate Enabled<N(==)>(g: Graph<N>, op: Op<N>) {
    match op
    case Construct(x, p) => x !in g && p in g
    case CopyConstruct(x, y) => x !in g && y in g
    case Assign(x, y) => x in g && y in g
  }

  ghost function Next<N>(g: Graph<N>, rank: map<N, nat>, global: N, op: Op<N>): Graph<N>
    requires Ranked(g, rank) && global in g && Enabled(g, op)
  {
    match op
    case Construct(x, p) => g[x := Some(p)]
    case CopyConstruct(x, y) => Assigned(g[x := None], Put(rank, x, 0), global, x, y).0
    case Assign(x, y) => Assigned(g, rank, global, x, y).0
  }

  /** A run starts with the global context and a thread's context below it. */
  ghost predicate Reaches<N(!new)>(global: N, threadLocal: N, ops: seq<Op<N>>, g: Graph<N>)
    decreases |ops|
  {
    if ops == [] then
      global != threadLocal && g == map[global := None, threadLocal := Some(global)]
    else
      var n := |ops| - 1;
      exists before: Graph<N>, rank: map<N, nat> ::
        && Reaches(global, threadLocal, ops[..n], before)
        && Ranked(before, rank) && global in before && Enabled(before, ops[n])
        && g == Next(before, rank, global, ops[n])
  }

  lemma AssignedIgnoresRank<N>(g: Graph<N>, r1: map<N, nat>, r2: map<N, nat>, global: N, x: N, y: N)
    requires Ranked(g, r1) && Ranked(g, r2) && x in g && y in g
    ensures Assigned(g, r1, global, x, y) == Assigned(g, r2, global, x, y)
  {
    AncestorsIgnoreRank(g, r1, r2, y);
  }

  lemma NextIgnoresRank<N>(g: Graph<N>, r1: map<N, nat>, r2: map<N, nat>, global: N, op: Op<N>)
    requires Ranked(g, r1) && Ranked(g, r2) && global in g && Enabled(g, op)
    ensures Next(g, r1, global, op) == Next(g, r2, global, op)
  {
    match op
    case Construct(x, p) =>
    case CopyConstruct(x, y) =>
      AssignedIgnoresRank(g[x := None], Put(r1, x, 0), Put(r2, x, 0), global, x, y);
    case Assign(x, y) =>
      AssignedIgnoresRank(g, r1, r2, global, x, y);
  }

  /** The graph a run leads to depends on its operations alone, not on the ranks chosen on the way. */
  lemma {:induction false} RunsAreDeterministic<N(!new)>(
      global: N, threadLocal: N, ops: seq<Op<N>>, g: Graph<N>, h: Graph<N>)
    requires Reaches(global, threadLocal, ops, g) && Reaches(global, threadLocal, ops, h)
    ensures g == h
    decreases |ops|
  {
    if ops != [] {
      var n := |ops| - 1;
      var g0: Graph<N>, r1: map<N, nat> :|
        && Reaches(global, threadLocal, ops[..n], g0)
        && Ranked(g0, r1) && global in g0 && Enabled(g0, ops[n]) && g == Next(g0, r1, global, ops[n]);
      var h0: Graph<N>, r2: map<N, nat> :|
        && Reaches(global, threadLocal, ops[..n], h0)
        && Ranked(h0, r2) && global in h0 && Enabled(h0, ops[n]) && h == Next(h0, r2, global, ops[n]);
      RunsAreDeterministic(global, threadLocal, ops[..n], g0, h0);
      NextIgnoresRank(g0, r1, r2, global, ops[n]);
    }
  }

  lemma NextKeepsForest<N(!new)>(g: Graph<N>, rank: map<N, nat>, global: N, op: Op<N>)
    requires Ranked(g, rank) && global in g && g[global].None? && Enabled(g, op)
    ensures Acyclic(Next(g, rank, global, op))
    ensures var t := Next(g, rank, global, op); global in t && t[global].None?
    ensures op.CopyConstruct? ==> !Assigned(g[op.x := None], Put(rank, op.x, 0), global, op.x, op.y).1
  {
    match op
    case Construct(x, p) =>
      assert Ranked(g[x := Some(p)], Put(rank, x, rank[p] + 1));
    case CopyConstruct(x, y) =>
      assert Ranked(Next(g, rank, global, op), RankAfter(g[x := None], Put(rank, x, 0), global, x, y));
      OnlyParentsAreAncestors(g[x := None], Put(rank, x, 0), y, x);
    case Assign(x, y) =>
      assert Ranked(Next(g, rank, global, op), RankAfter(g, rank, global, x, y));
  }

  lemma {:induction false} OnlyParentsAreAncestors<N>(g: Graph<N>, rank: map<N, nat>, n: N, x: N)
    requires Ranked(g, rank) && n in g
    requires forall m :: m in g ==> g[m] != Some(x)
    ensures x !in Ancestors(g, rank, n)
    decreases rank[n]
  {
    if g[n].Some? {
      OnlyParentsAreAncestors(g, rank, g[n].value, x);
    }
  }

  // a copy of y that was not there before has the parent of y, and making it does not throw
  lemma FreshCopy<N>(g: Graph<N>, rank: map<N, nat>, y: N, x: N, global: N)
    requires Ranked(g, rank) && x !in g && y in g && global in g
    ensures Ranked(g[x := None], Put(rank, x, 0))
    ensures Assigned(g[x := None], Put(rank, x, 0), global, x, y) == (g[x := g[y]], false)
  {
    OnlyParentsAreAncestors(g[x := None], Put(rank, x, 0), y, x);
    assert g[x := None][x := g[y]] == g[x := g[y]];
  }

  /** Whatever is constructed, copied, moved and assigned, throwing or not: the parent relation stays
      acyclic and the global context parentless. */
  lemma {:induction false} RunsStayAcyclic<N(!new)>(global: N, threadLocal: N, ops: seq<Op<N>>, g: Graph<N>)
    requires Reaches(global, threadLocal, ops, g)
    ensures Acyclic(g) && global in g && g[global].None?
    decreases |ops|
  {
    if ops == [] {
      assert Ranked(g, map[global := 0, threadLocal := 1]);
    } else {
      var n := |ops| - 1;
      var before: Graph<N>, rank: map<N, nat> :|
        && Reaches(global, threadLocal, ops[..n], before)
        && Ranked(before, rank) && global in before && Enabled(before, ops[n])
        && g == Next(before, rank, global, ops[n]);
      RunsStayAcyclic(global, threadLocal, ops[..n], before);
      NextKeepsForest(before, rank, global, ops[n]);
    }
  }

  // ---------------------------------------------------------------------

  // the global context is the only one without a parent
  ghost predicate OnlyGlobalIsParentless<N(!new)>(g: Graph<N>, global: N) {
    forall n :: n in g && n != global ==> g[n].Some?
  }

  /** That is so until the global context is copied into another one, which then has no parent either. */
  lemma OnlyGlobalStaysParentlessIff<N(!new)>(g: Graph<N>, rank: map<N, nat>, global: N, op: Op<N>)
    requires Ranked(g, rank) && global in g && g[global].None? && Enabled(g, op)
    requires OnlyGlobalIsParentless(g, global)
    ensures OnlyGlobalIsParentless(Next(g, rank, global, op), global)
            <==> !(!op.Construct? && op.x != global && op.y == global)
  {
    if !op.Construct? && op.x != global && op.y == global {
      assert Next(g, rank, global, op)[op.x].None?;
    } else if op.CopyConstruct? {
      OnlyParentsAreAncestors(g[op.x := None], Put(rank, op.x, 0), op.y, op.x);
    }
  }

  /** A handler makes its own context the thread's context. With a context constructed below p this throws
      exactly when the thread's context is an ancestor of p, rather than p itself. */
  lemma HandlerThrowsIff<N>(g: Graph<N>, rank: map<N, nat>, global: N, threadLocal: N, context: N, p: N)
    requires Ranked(g, rank) && threadLocal in g && threadLocal != global && context !in g && p in g
    ensures Assigned(g[context := Some(p)], Put(rank, context, rank[p] + 1), global, threadLocal, context).1
            <==> threadLocal in Ancestors(g, rank, p)
  {
    var h, hr := g[context := Some(p)], Put(rank, context, rank[p] + 1);
    AncestorsBelow(g, rank, h, hr, p);
    var above := Ancestors(h, hr, p);
    assert Ancestors(h, hr, context) == [p] + above;
    assert threadLocal in [p] + above <==> threadLocal == p || threadLocal in above;
    assert threadLocal == p ==> threadLocal !in above;
  }

  lemma BelowThreadThrows<N>(g: Graph<N>, rank: map<N, nat>, global: N, threadLocal: N, c: N, context: N)
    requires Ranked(g, rank) && threadLocal in g && threadLocal != global && context !in g
    requires c in g && g[c] == Some(threadLocal)
    ensures Assigned(g[context := Some(c)], Put(rank, context, rank[c] + 1), global, threadLocal, context).1
  {
    HandlerThrowsIff(g, rank, global, threadLocal, context, c);
    assert Ancestors(g, rank, c) == [threadLocal] + Ancestors(g, rank, threadLocal);
  }

  function OneBelow<N>(global: N, threadLocal: N, c: N): Graph<N> {
    map[global := None, threadLocal := Some(global)][c := Some(threadLocal)]
  }

  lemma OneBelowIsReached<N(!new)>(global: N, threadLocal: N, c: N)
    requires global != threadLocal && c !in {global, threadLocal}
    ensures Reaches(global, threadLocal, [Construct(c, threadLocal)], OneBelow(global, threadLocal, c))
  {
    var ops := [Construct(c, threadLocal)];
    var g: Graph<N> := map[global := None, threadLocal := Some(global)];
    var rank: map<N, nat> := map[global := 0, threadLocal := 1];
    assert Ranked(g, rank);
    assert ops[..0] == [];
    assert OneBelow(global, threadLocal, c) == Next(g, rank, global, ops[0]);
  }

  /** That state is reachable: once a context c is constructed below the thread's context, a handler whose own
      context is constructed below c throws. */
  lemma HandlerBelowThreadThrows<N(!new)>(global: N, threadLocal: N, c: N, context: N, rank: map<N, nat>)
    requires global != threadLocal && c !in {global, threadLocal} && context !in {global, threadLocal, c}
    requires Ranked(OneBelow(global, threadLocal, c), rank)
    ensures var g := OneBelow(global, threadLocal, c);
            && Reaches(global, threadLocal, [Construct(c, threadLocal)], g)
            && Assigned(g[context := Some(c)], Put(rank, context, rank[c] + 1), global, threadLocal, context).1
  {
    OneBelowIsReached(global, threadLocal, c);
    BelowThreadThrows(OneBelow(global, threadLocal, c), rank, global, threadLocal, c, context);
  }

  lemma {:induction false} AncestorsBelow<N>(g: Graph<N>, r1: map<N, nat>, h: Graph<N>, r2: map<N, nat>, n: N)
    requires Ranked(g, r1) && Ranked(h, r2) && n in g
    requires forall m :: m in g ==> m in h && h[m] == g[m]
    ensures Ancestors(g, r1, n) == Ancestors(h, r2, n)
    decreases r1[n]
  {
    if g[n].Some? {
      AncestorsBelow(g, r1, h, r2, g[n].value);
    }
  }
}
