/** Multimaps of metadata and lookup along a chain of them
    (src/microservice-essentials/context.cpp:124-205). */
module Metadata {
  import opened Statuses

  // std::multimap: the values of a key in insertion order; find yields the first of them
  type Multimap = m: map<string, seq<string>> | forall k :: k in m ==> m[k] != [] witness map[]

  function Values(m: Multimap, k: string): seq<string> {
    if k in m then m[k] else []
  }

  function Find(m: Multimap, k: string): Option<string> {
    if k in m then Some(m[k][0]) else None
  }

  function WithEntry(m: Multimap, k: string, v: string): Multimap {
    m[k := Values(m, k) + [v]]
  }

  function WithoutKey(m: Multimap, k: string): Multimap {
    m - {k}
  }

  // std::multimap::merge puts the other map's entries behind the present ones
  function Merge(m: Multimap, other: Multimap): (r: Multimap)
    ensures forall k :: Values(r, k) == Values(m, k) + Values(other, k)
  {
    map k | k in m.Keys + other.Keys :: Values(m, k) + Values(other, k)
  }

  /** All metadata of a chain, the nearest context first. */
  function Flatten(chain: seq<Multimap>): Multimap {
    if chain == [] then map[] else Merge(chain[0], Flatten(chain[1..]))
  }

  /** What At finds: the first value in the nearest context that has the key. */
  function Nearest(chain: seq<Multimap>, k: string): Option<string> {
    if chain == [] then None
    else if k in chain[0] then Find(chain[0], k)
    else Nearest(chain[1..], k)
  }

  /** Sum, over the chain, of the entries under k that have value v. */
  function Occurrences(chain: seq<Multimap>, k: string, v: string): nat {
    if chain == [] then 0 else multiset(Values(chain[0], k))[v] + Occurrences(chain[1..], k, v)
  }

  /** Flattening is the multiset sum of the chain. */
  lemma {:induction false} FlattenIsSum(chain: seq<Multimap>, k: string, v: string)
    ensures multiset(Values(Flatten(chain), k))[v] == Occurrences(chain, k, v)
  {
    if chain != [] {
      FlattenIsSum(chain[1..], k, v);
    }
  }

  lemma FlattenFront(m: Multimap, rest: seq<Multimap>)
    ensures Flatten([m] + rest) == Merge(m, Flatten(rest))
  {
    assert ([m] + rest)[1..] == rest;
  }

  lemma MergeNothing(m: Multimap)
    ensures Merge(m, map[]) == m
  {
    var one := Merge(m, map[]);
    assert one.Keys == m.Keys;
    forall k | k in m
      ensures one[k] == m[k]
    {
      assert Values(one, k) == Values(m, k);
    }
  }

  /** Looking a key up along the chain is looking it up in the flattened metadata. */
  lemma {:induction false} LookupAgreesWithFlattening(chain: seq<Multimap>, k: string)
    ensures Find(Flatten(chain), k) == Nearest(chain, k)
  {
    if chain != [] {
      LookupAgreesWithFlattening(chain[1..], k);
      assert Values(Flatten(chain), k) == Values(chain[0], k) + Values(Flatten(chain[1..]), k);
    }
  }

  /** The nearest context that has the key decides, by the first of its values; i is its position, or the end when
      none has. */
  lemma {:induction false} NearestDecides(chain: seq<Multimap>, k: string) returns (i: nat)
    ensures i <= |chain| && forall j :: 0 <= j < i ==> k !in chain[j]
    ensures if i < |chain| then k in chain[i] && Nearest(chain, k) == Some(chain[i][k][0]) else Nearest(chain, k).None?
  {
    if chain == [] || k in chain[0] {
      i := 0;
    } else {
      var n := NearestDecides(chain[1..], k);
      i := n + 1;
    }
  }

  // what GetFilteredMetadata has collected after looking at the keys
  function Filtered(all: Multimap, keys: seq<string>): Multimap {
    if keys == [] then map[]
    else
      var m, key := Filtered(all, keys[..|keys| - 1]), keys[|keys| - 1];
      if key in all then WithEntry(m, key, all[key][0]) else m
  }

  /** One entry for each time a key that is present is asked for; its value is the one that is found. */
  lemma {:induction false} FilteredValues(all: Multimap, keys: seq<string>, k: string)
    ensures |Values(Filtered(all, keys), k)| == if k in all then multiset(keys)[k] else 0
    ensures forall v :: v in Values(Filtered(all, keys), k) ==> Some(v) == Find(all, k)
  {
    if keys != [] {
      var prefix, key := keys[..|keys| - 1], keys[|keys| - 1];
      FilteredValues(all, prefix, k);
      assert keys == prefix + [key];
    }
  }
}
