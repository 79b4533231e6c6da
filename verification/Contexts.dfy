/** The Context class: metadata and a pointer to a parent (src/microservice-essentials/context.cpp). */
module Contexts {
  import opened Statuses
  import opened ParentGraph
  import opened Metadata

  ghost function ParentOf(c: Context): Option<Context>
    reads c`parent
  {
    if c.parent == null then None else Some(c.parent)
  }

  /** The parent relation among the contexts that exist. */
  ghost function Parents(all: set<Context>): Graph<Context>
    reads all`parent
  {
    map c | c in all :: ParentOf(c)
  }

  lemma OneMoreContext(all: set<Context>, c: Context, g: Graph<Context>)
    requires Parents(all) == g
    ensures Parents(all + {c}) == g[c := ParentOf(c)]
  {
  }

  ghost function Held(cs: seq<Context>): seq<Multimap>
    reads cs
  {
    if cs == [] then [] else [cs[0].metadata] + Held(cs[1..])
  }

  /** Metadata of the ancestors of a context, nearest first. */
  ghost function Above(all: set<Context>, rank: map<Context, nat>, c: Context): seq<Multimap>
    requires Ranked(Parents(all), rank) && c in all
    reads all
  {
    var cs := Ancestors(Parents(all), rank, c);
    assert forall a :: a in cs ==> a in Parents(all) && a in all;
    Held(cs)
  }

  /** Metadata of a context and its ancestors, nearest first. */
  ghost function Chain(all: set<Context>, rank: map<Context, nat>, c: Context): seq<Multimap>
    requires Ranked(Parents(all), rank) && c in all
    reads all
  {
    [c.metadata] + Above(all, rank, c)
  }

  /** The metadata of contexts, and of a list of them, as values. */
  ghost function Data(all: set<Context>): map<Context, Multimap>
    reads all`metadata
  {
    map c | c in all :: c.metadata
  }

  function HeldBy<N>(data: map<N, Multimap>, ns: seq<N>): seq<Multimap>
    requires forall n :: n in ns ==> n in data
  {
    if ns == [] then [] else [data[ns[0]]] + HeldBy(data, ns[1..])
  }

  lemma {:induction false} HeldIsHeldBy(all: set<Context>, cs: seq<Context>)
    requires forall c :: c in cs ==> c in all
    ensures Held(cs) == HeldBy<Context>(Data(all), cs)
  {
    if cs != [] {
      HeldIsHeldBy(all, cs[1..]);
    }
  }

  /** A chain of contexts holds the values of the context and its ancestors. */
  lemma ChainIsHeldBy(all: set<Context>, rank: map<Context, nat>, c: Context)
    requires Ranked(Parents(all), rank) && c in all
    ensures var above := Ancestors<Context>(Parents(all), rank, c);
            && (forall a :: a in above ==> a in Data(all))
            && Chain(all, rank, c) == [Data(all)[c]] + HeldBy<Context>(Data(all), above)
  {
    HeldIsHeldBy(all, Ancestors<Context>(Parents(all), rank, c));
  }

  lemma {:induction false} HeldByOthers<N>(data: map<N, Multimap>, ns: seq<N>, x: N, m: Multimap)
    requires x !in ns && forall n :: n in ns ==> n in data
    ensures HeldBy(data[x := m], ns) == HeldBy(data, ns)
  {
    if ns != [] {
      assert ns[0] in ns;
      HeldByOthers(data, ns[1..], x, m);
    }
  }

  /** After an assignment that takes place, looking a key up in x yields what it yielded in y. */
  lemma {:induction false} AssignedLooksUpTheSame<N>(
      g: Graph<N>, rank: map<N, nat>, global: N, data: map<N, Multimap>, x: N, y: N, k: string)
    requires Ranked(g, rank) && g.Keys <= data.Keys && x in g && y in g
    requires x != y && x != global && g[y] != Some(x) && x !in Ancestors(g, rank, y)
    ensures var r, now := RankAfter(g, rank, global, x, y), data[x := data[y]];
            var above := Ancestors(Assigned(g, rank, global, x, y).0, r, x);
            && (forall n :: n in above ==> n in now)
            && Nearest([now[x]] + HeldBy(now, above), k)
               == Nearest([data[y]] + HeldBy(data, Ancestors(g, rank, y)), k)
  {
    AssignedAncestors(g, rank, global, x, y);
    HeldByOthers(data, Ancestors(g, rank, y), x, data[y]);
  }

  lemma ChainOfParent(all: set<Context>, rank: map<Context, nat>, c: Context)
    requires Ranked(Parents(all), rank) && c in all
    ensures c.parent == null ==> Chain(all, rank, c) == [c.metadata]
    ensures c.parent != null ==> c.parent in all && rank[c.parent] < rank[c]
    ensures c.parent != null ==> Chain(all, rank, c) == [c.metadata] + Chain(all, rank, c.parent)
  {
    if c.parent != null {
      var p: Context := c.parent;
      assert Parents(all)[c] == Some(p);
      var rest := Ancestors(Parents(all), rank, p);
      assert Ancestors(Parents(all), rank, c) == [p] + rest;
      assert ([p] + rest)[1..] == rest;
    }
  }

  // all: the contexts alive, which outlive their children; rank: a witness that their parents form no cycle
  class Context {
    var metadata: Multimap
    var parent: Context?

    constructor Global()
      ensures metadata == map[] && parent == null
    {
      metadata, parent := map[], null;
    }

    /** parent is the thread's own context when the caller names none. */
    constructor (metadata: Multimap, parent: Context, ghost all: set<Context>, ghost rank: map<Context, nat>)
      requires parent in all && Ranked(Parents(all), rank)
      ensures this.metadata == metadata && this.parent == parent
      ensures Parents(all + {this}) == old(Parents(all))[this := Some(parent)]
      ensures Ranked(Parents(all + {this}), Put(rank, this, rank[parent] + 1))
    {
      this.metadata, this.parent := metadata, parent;
    }

    constructor Copy(other: Context, global: Context, ghost all: set<Context>, ghost rank: map<Context, nat>)
      requires other in all && global in all && Ranked(Parents(all), rank)
      ensures metadata == other.metadata && parent == other.parent
      ensures Parents(all + {this}) == old(Parents(all))[this := old(Parents(all))[other]]
    {
      metadata, parent := map[], null;
      new;
      ghost var now: set<Context>, before: Graph<Context> := all + {this}, old(Parents(all));
      ghost var r: map<Context, nat> := Put<Context>(rank, this, 0);
      FreshCopy<Context>(before, rank, other, this, global);
      OneMoreContext(all, this, before);
      var threw := Assign(other, global, now, r);
      assert ParentOf(this) == Parents(now)[this] == Parents(now)[other] == ParentOf(other);
    }

    /** Copy assignment. The metadata is copied even when the assignment then throws. */
    method Assign(other: Context, global: Context, ghost all: set<Context>, ghost rank: map<Context, nat>)
      returns (threw: bool)
      requires {this, other, global} <= all && Ranked(Parents(all), rank)
      modifies this
      ensures metadata == old(other.metadata)
      ensures Parents(all) == Assigned(old(Parents(all)), rank, global, this, other).0
      ensures threw == Assigned(old(Parents(all)), rank, global, this, other).1
      ensures this != other ==>
                && (threw <==> this != global && old(other.parent) != this
                               && this in Ancestors(old(Parents(all)), rank, other))
                && parent == (if this == global then null
                              else if threw || old(other.parent) == this then old(parent)
                              else old(other.parent))
      ensures this == other ==> !threw && parent == old(parent)
    {
      ghost var g := Parents(all);
      if this == other {
        assert Assigned<Context>(g, rank, global, this, other) == (g, false);
        return false;
      }
      metadata := other.metadata;
      assert Parents(all) == g;
      threw := InitParent(other, global, all, rank);
    }

    /** Move assignment; leftover is whatever the moved-from metadata holds afterwards. */
    method MoveAssign(
        other: Context, leftover: Multimap, global: Context, ghost all: set<Context>, ghost rank: map<Context, nat>)
      returns (threw: bool)
      requires {this, other, global} <= all && Ranked(Parents(all), rank)
      modifies this, other
      ensures metadata == old(other.metadata)
      ensures other != this ==> other.metadata == leftover
      ensures Parents(all) == Assigned(old(Parents(all)), rank, global, this, other).0
      ensures threw == Assigned(old(Parents(all)), rank, global, this, other).1
      ensures this != other ==>
                && (threw <==> this != global && old(other.parent) != this
                               && this in Ancestors(old(Parents(all)), rank, other))
                && parent == (if this == global then null
                              else if threw || old(other.parent) == this then old(parent)
                              else old(other.parent))
      ensures this == other ==> !threw && parent == old(parent)
    {
      ghost var g := Parents(all);
      if this == other {
        assert Assigned<Context>(g, rank, global, this, other) == (g, false);
        return false;
      }
      metadata := other.metadata;
      other.metadata := leftover;
      assert Parents(all) == g;
      threw := InitParent(other, global, all, rank);
    }

    method InitParent(other: Context, global: Context, ghost all: set<Context>, ghost rank: map<Context, nat>)
      returns (threw: bool)
      requires this != other && {this, other, global} <= all && Ranked(Parents(all), rank)
      modifies this`parent
      ensures Parents(all) == Assigned(old(Parents(all)), rank, global, this, other).0
      ensures threw == Assigned(old(Parents(all)), rank, global, this, other).1
      ensures (threw <==> this != global && old(other.parent) != this
                          && this in Ancestors(old(Parents(all)), rank, other))
      ensures parent == (if this == global then null
                        else if threw || old(other.parent) == this then old(parent)
                        else old(other.parent))
    {
      ghost var g, after := Parents(all), Assigned<Context>(Parents(all), rank, global, this, other);
      if this == global {
        parent := null;
        assert Parents(all) == g[this := None] == after.0;
      } else if other.parent != this {
        assert g[other] != Some(this);
        var parents := other.GetAllParents(all, rank);
        if this in parents {
          assert after == (g, true);
          return true;
        }
        assert after == (g[this := g[other]], false);
        parent := other.parent;
        assert Parents(all) == g[this := g[other]];
      }
      return false;
    }

    method GetAllParents(ghost all: set<Context>, ghost rank: map<Context, nat>) returns (parents: set<Context>)
      requires this in all && Ranked(Parents(all), rank)
      ensures forall c :: c in parents <==> c in Ancestors(Parents(all), rank, this)
      decreases rank[this]
    {
      parents := {};
      if parent != null {
        assert Parents(all)[this] == Some(parent);
        var above := parent.GetAllParents(all, rank);
        parents := {parent} + above;
      }
    }

    method Insert(key: string, value: string)
      modifies this`metadata
      ensures metadata == WithEntry(old(metadata), key, value)
      ensures metadata == old(metadata)[key := (if key in old(metadata) then old(metadata)[key] else []) + [value]]
    {
      metadata := metadata[key := (if key in metadata then metadata[key] else []) + [value]];
    }

    method Erase(key: string) returns (count: nat)
      modifies this`metadata
      ensures metadata == WithoutKey(old(metadata), key) && count == |Values(old(metadata), key)|
      ensures metadata == old(metadata) - {key}
      ensures count == if key in old(metadata) then |old(metadata)[key]| else 0
    {
      count := if key in metadata then |metadata[key]| else 0;
      metadata := metadata - {key};
    }

    method Clear()
      modifies this`metadata
      ensures metadata == map[]
    {
      metadata := map[];
    }

    /** None stands for the std::out_of_range exception. */
    method At(key: string, ghost all: set<Context>, ghost rank: map<Context, nat>) returns (value: Option<string>)
      requires this in all && Ranked(Parents(all), rank)
      ensures value == Nearest(Chain(all, rank, this), key)
      decreases rank[this]
    {
      if key in metadata {
        return Some(metadata[key][0]);
      }
      ChainOfParent(all, rank, this);
      if parent != null {
        value := parent.At(key, all, rank);
        return value;
      }
      return None;
    }

    method AtOr(key: string, default: string, ghost all: set<Context>, ghost rank: map<Context, nat>)
      returns (value: string)
      requires this in all && Ranked(Parents(all), rank)
      ensures Nearest(Chain(all, rank, this), key).Some? ==> value == Nearest(Chain(all, rank, this), key).value
      ensures Nearest(Chain(all, rank, this), key).None? ==> value == default
      decreases rank[this]
    {
      if key in metadata {
        return metadata[key][0];
      }
      ChainOfParent(all, rank, this);
      if parent != null {
        value := parent.AtOr(key, default, all, rank);
        return value;
      }
      return default;
    }

    method Contains(key: string, ghost all: set<Context>, ghost rank: map<Context, nat>) returns (found: bool)
      requires this in all && Ranked(Parents(all), rank)
      ensures found <==> key in Flatten(Chain(all, rank, this))
      decreases rank[this]
    {
      if key in metadata {
        return true;
      }
      ChainOfParent(all, rank, this);
      if parent != null {
        found := parent.Contains(key, all, rank);
        return found;
      }
      return false;
    }

    method GetAllMetadata(ghost all: set<Context>, ghost rank: map<Context, nat>) returns (result: Multimap)
      requires this in all && Ranked(Parents(all), rank)
      ensures result == Flatten(Chain(all, rank, this))
      decreases rank[this]
    {
      result := metadata;
      ChainOfParent(all, rank, this);
      if parent == null {
        FlattenFront(metadata, []);
        MergeNothing(metadata);
        assert [metadata] == [metadata] + [];
      } else {
        FlattenFront(metadata, Chain(all, rank, parent));
        var above := parent.GetAllMetadata(all, rank);
        result := Merge(result, above);
      }
    }

    /** One entry for each time a key that is present is asked for; its value is what At returns. */
    method GetFilteredMetadata(keys: seq<string>, ghost all: set<Context>, ghost rank: map<Context, nat>)
      returns (result: Multimap)
      requires this in all && Ranked(Parents(all), rank)
      ensures forall k :: |Values(result, k)|
                          == if Nearest(Chain(all, rank, this), k).Some? then multiset(keys)[k] else 0
      ensures forall k, v :: v in Values(result, k) ==> Some(v) == Nearest(Chain(all, rank, this), k)
    {
      var everything := GetAllMetadata(all, rank);
      result := map[];
      for i := 0 to |keys|
        invariant result == Filtered(everything, keys[..i])
      {
        assert keys[..i + 1][..i] == keys[..i];
        if keys[i] in everything {
          result := WithEntry(result, keys[i], everything[keys[i]][0]);
        }
      }
      assert keys[..|keys|] == keys;
      ghost var chain := Chain(all, rank, this);
      FilteredAlongChain(chain, everything, keys);
    }
  }

  lemma FilteredAlongChain(chain: seq<Multimap>, everything: Multimap, keys: seq<string>)
    requires everything == Flatten(chain)
    ensures forall k :: |Values(Filtered(everything, keys), k)|
                        == if Nearest(chain, k).Some? then multiset(keys)[k] else 0
    ensures forall k, v :: v in Values(Filtered(everything, keys), k) ==> Some(v) == Nearest(chain, k)
  {
    var result := Filtered(everything, keys);
    forall k
      ensures |Values(result, k)| == if Nearest(chain, k).Some? then multiset(keys)[k] else 0
      ensures forall v :: v in Values(result, k) ==> Some(v) == Nearest(chain, k)
    {
      LookupAgreesWithFlattening(chain, k);
      FilteredValues(everything, keys, k);
    }
  }
}
