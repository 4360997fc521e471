/**
 Reference definitions for the indexing and grouping helpers of package `fn`
 (slice/slice.go: AsMap, AsMap2, GroupToMap, GroupToMap2, GroupToMap3).

 Like module `SliceSpec`, every definition peels off the last element, which
 is the one the source's loop inserts last. The lemmas relate each nested
 definition to the one a level below it, applied to the items that share the
 outer key, and the one-level definitions to `SliceSpec.Select`.
 */
module MapSpec {
  import opened SliceSpec

  // ---------------------------------------------------------------------------
  // Key selectors, as values
  // ---------------------------------------------------------------------------

  /** "The key of this item is `k`". */
  function KeyIs<K(==), V>(key: V -> K, k: K): V -> bool {
    x => key(x) == k
  }

  /** "The first of the two keys of this item is `k1`". */
  function FirstOf2Is<K1(==), K2, V>(key: V -> (K1, K2), k1: K1): V -> bool {
    x => key(x).0 == k1
  }

  /** The first of the two keys of an item. */
  function FirstOf2<K1, K2, V>(key: V -> (K1, K2)): V -> K1 {
    x => key(x).0
  }

  /** The second of the two keys of an item. */
  function SecondOf2<K1, K2, V>(key: V -> (K1, K2)): V -> K2 {
    x => key(x).1
  }

  /** "The first of the three keys of this item is `k1`". */
  function FirstOf3Is<K1(==), K2, K3, V>(key: V -> (K1, K2, K3), k1: K1): V -> bool {
    x => key(x).0 == k1
  }

  /** The first of the three keys of an item. */
  function FirstOf3<K1, K2, K3, V>(key: V -> (K1, K2, K3)): V -> K1 {
    x => key(x).0
  }

  /** The second and third of the three keys of an item. */
  function RestOf3<K1, K2, K3, V>(key: V -> (K1, K2, K3)): V -> (K2, K3) {
    x => (key(x).1, key(x).2)
  }

  // ---------------------------------------------------------------------------
  // AsMap, AsMap2
  // ---------------------------------------------------------------------------

  /**
   Every item stored under its key; a later item replaces an earlier one.
   Every item's key is present, and each stored item sits under its own key.
   */
  function IndexBy<K(==), V>(s: seq<V>, key: V -> K): (r: map<K, V>)
    ensures forall i :: 0 <= i < |s| ==> key(s[i]) in r
    ensures forall k :: k in r ==> key(r[k]) == k
  {
    if s == [] then map[]
    else IndexBy(s[..|s| - 1], key)[key(s[|s| - 1]) := s[|s| - 1]]
  }

  /** The keys are exactly the keys of the items. */
  lemma {:induction false} IndexByKeys<K, V>(s: seq<V>, key: V -> K)
    ensures IndexBy(s, key).Keys == set i | 0 <= i < |s| :: key(s[i])
  {
    if s != [] {
      var init := s[..|s| - 1];
      IndexByKeys(init, key);
      assert (set i | 0 <= i < |s| :: key(s[i]))
          == (set i | 0 <= i < |init| :: key(init[i])) + {key(s[|s| - 1])};
    }
  }

  /** The item stored under a key is the last item with that key. */
  lemma {:induction false} IndexByLastWins<K, V>(s: seq<V>, key: V -> K, i: nat)
    requires i < |s|
    requires forall j :: i < j < |s| ==> key(s[j]) != key(s[i])
    ensures key(s[i]) in IndexBy(s, key) && IndexBy(s, key)[key(s[i])] == s[i]
  {
    if i < |s| - 1 {
      IndexByLastWins(s[..|s| - 1], key, i);
    }
  }

  /**
   Items stored under their first key, then under their second; a later item
   replaces an earlier one. Every item's pair of keys is present, and every
   stored item sits under its own pair of keys.
   */
  function IndexBy2<K1(==), K2(==), V>(s: seq<V>, key: V -> (K1, K2)): (r: map<K1, map<K2, V>>)
    ensures forall i :: 0 <= i < |s| ==> key(s[i]).0 in r && key(s[i]).1 in r[key(s[i]).0]
    ensures forall k1, k2 :: k1 in r && k2 in r[k1] ==> key(r[k1][k2]) == (k1, k2)
  {
    if s == [] then map[]
    else
      var m := IndexBy2(s[..|s| - 1], key);
      var x := s[|s| - 1];
      var inner := if key(x).0 in m then m[key(x).0] else map[];
      m[key(x).0 := inner[key(x).1 := x]]
  }

  /**
   An outer key is present exactly when some item has it, and the inner map
   under it indexes, by their second key, the items whose first key it is.
   */
  lemma {:induction false} IndexBy2Nested<K1, K2, V>(s: seq<V>, key: V -> (K1, K2), k1: K1)
    ensures k1 in IndexBy2(s, key) <==> Select(s, FirstOf2Is(key, k1)) != []
    ensures k1 in IndexBy2(s, key) ==>
      IndexBy2(s, key)[k1] == IndexBy(Select(s, FirstOf2Is(key, k1)), SecondOf2(key))
  {
    if s != [] {
      var init, x := s[..|s| - 1], s[|s| - 1];
      IndexBy2Nested(init, key, k1);
      var kept := Select(init, FirstOf2Is(key, k1));
      if key(x).0 == k1 {
        assert (kept + [x])[..|kept + [x]| - 1] == kept;
      }
    }
  }

  // ---------------------------------------------------------------------------
  // GroupToMap, GroupToMap2, GroupToMap3
  // ---------------------------------------------------------------------------

  /**
   Every item appended to the group of its key, in input order. Every item
   is in the group of its key, no group is empty, and every item of a group
   has that group's key.
   */
  function GroupBy<K(==), V>(s: seq<V>, key: V -> K): (r: map<K, seq<V>>)
    ensures forall i :: 0 <= i < |s| ==> key(s[i]) in r && s[i] in r[key(s[i])]
    ensures forall k :: k in r ==> r[k] != []
    ensures forall k, i :: k in r && 0 <= i < |r[k]| ==> key(r[k][i]) == k
  {
    if s == [] then map[]
    else
      var m := GroupBy(s[..|s| - 1], key);
      var x := s[|s| - 1];
      m[key(x) := (if key(x) in m then m[key(x)] else []) + [x]]
  }

  /**
   A key has a group exactly when some item has that key, and the group is
   the items with that key in input order.
   */
  lemma {:induction false} GroupByGroups<K, V>(s: seq<V>, key: V -> K, k: K)
    ensures k in GroupBy(s, key) <==> Select(s, KeyIs(key, k)) != []
    ensures k in GroupBy(s, key) ==> GroupBy(s, key)[k] == Select(s, KeyIs(key, k))
  {
    if s != [] {
      GroupByGroups(s[..|s| - 1], key, k);
    }
  }

  /** Length of the group under `k`, zero when there is none. */
  function GroupLength<K(==), V>(m: map<K, seq<V>>, k: K): nat {
    if k in m then |m[k]| else 0
  }

  /** Sum of the group lengths under the keys `ks`. */
  function TotalLength<K(==), V>(m: map<K, seq<V>>, ks: seq<K>): nat {
    if ks == [] then 0 else GroupLength(m, ks[0]) + TotalLength(m, ks[1..])
  }

  /** Replacing one group changes the total by the change in that group's length. */
  lemma {:induction false} TotalLengthUpdate<K, V>(m: map<K, seq<V>>, ks: seq<K>, k: K, g: seq<V>)
    requires Distinct(ks)
    ensures TotalLength(m[k := g], ks)
         == TotalLength(m, ks) + (if k in ks then |g| - GroupLength(m, k) else 0)
  {
    if ks != [] {
      assert Distinct(ks[1..]);
      TotalLengthUpdate(m, ks[1..], k, g);
      assert ks == [ks[0]] + ks[1..];
      if ks[0] == k {
        assert k !in ks[1..];
      }
    }
  }

  /** No groups, no length. */
  lemma {:induction false} TotalLengthEmpty<K, V>(ks: seq<K>)
    ensures TotalLength<K, V>(map[], ks) == 0
  {
    if ks != [] {
      TotalLengthEmpty<K, V>(ks[1..]);
    }
  }

  /**
   Grouping places every item exactly once: over any duplicate-free list of
   keys that covers the keys of all items, the group lengths add up to the
   number of items.
   */
  lemma {:induction false} GroupBySizes<K, V>(s: seq<V>, key: V -> K, ks: seq<K>)
    requires Distinct(ks)
    requires forall i :: 0 <= i < |s| ==> key(s[i]) in ks
    ensures TotalLength(GroupBy(s, key), ks) == |s|
  {
    if s == [] {
      TotalLengthEmpty<K, V>(ks);
    } else {
      var init, x := s[..|s| - 1], s[|s| - 1];
      assert key(x) in ks;
      GroupBySizes(init, key, ks);
      var m := GroupBy(init, key);
      TotalLengthUpdate(m, ks, key(x), (if key(x) in m then m[key(x)] else []) + [x]);
    }
  }

  /**
   Items grouped by their first key, then appended to the group of their
   second key. Every item is in the group of its pair of keys.
   */
  function GroupBy2<K1(==), K2(==), V>(s: seq<V>, key: V -> (K1, K2)): (r: map<K1, map<K2, seq<V>>>)
    ensures forall i :: 0 <= i < |s| ==>
      var (k1, k2) := key(s[i]);
      k1 in r && k2 in r[k1] && s[i] in r[k1][k2]
  {
    if s == [] then map[]
    else
      var m := GroupBy2(s[..|s| - 1], key);
      var x := s[|s| - 1];
      var inner := if key(x).0 in m then m[key(x).0] else map[];
      var group := if key(x).1 in inner then inner[key(x).1] else [];
      m[key(x).0 := inner[key(x).1 := group + [x]]]
  }

  /**
   An outer key is present exactly when some item has it, and under it the
   items with that first key are grouped by their second key.
   */
  lemma {:induction false} GroupBy2Nested<K1, K2, V>(s: seq<V>, key: V -> (K1, K2), k1: K1)
    ensures k1 in GroupBy2(s, key) <==> Select(s, FirstOf2Is(key, k1)) != []
    ensures k1 in GroupBy2(s, key) ==>
      GroupBy2(s, key)[k1] == GroupBy(Select(s, FirstOf2Is(key, k1)), SecondOf2(key))
  {
    if s != [] {
      var init, x := s[..|s| - 1], s[|s| - 1];
      GroupBy2Nested(init, key, k1);
      var kept := Select(init, FirstOf2Is(key, k1));
      if key(x).0 == k1 {
        assert (kept + [x])[..|kept + [x]| - 1] == kept;
      }
    }
  }

  /** Sum, over the outer keys `ks1`, of the group lengths over `ks2` in the inner map under each. */
  function TotalLength2<K1(==), K2(==), V>(m: map<K1, map<K2, seq<V>>>, ks1: seq<K1>, ks2: seq<K2>): nat {
    if ks1 == [] then 0
    else (if ks1[0] in m then TotalLength(m[ks1[0]], ks2) else 0) + TotalLength2(m, ks1[1..], ks2)
  }

  /** Inner totals that match the group lengths of a one-level grouping key by key add up to its total. */
  lemma {:induction false} TotalLength2OfGroups<K1, K2, V>(
    m: map<K1, map<K2, seq<V>>>, g: map<K1, seq<V>>, ks1: seq<K1>, ks2: seq<K2>)
    requires forall k :: k in ks1 ==> (if k in m then TotalLength(m[k], ks2) else 0) == GroupLength(g, k)
    ensures TotalLength2(m, ks1, ks2) == TotalLength(g, ks1)
  {
    if ks1 != [] {
      TotalLength2OfGroups(m, g, ks1[1..], ks2);
    }
  }

  /**
   Two-level grouping places every item exactly once: over duplicate-free
   key lists covering the items' keys, the group lengths add up to the
   number of items.
   */
  lemma GroupBy2Sizes<K1, K2, V>(s: seq<V>, key: V -> (K1, K2), ks1: seq<K1>, ks2: seq<K2>)
    requires Distinct(ks1) && Distinct(ks2)
    requires forall i :: 0 <= i < |s| ==> key(s[i]).0 in ks1 && key(s[i]).1 in ks2
    ensures TotalLength2(GroupBy2(s, key), ks1, ks2) == |s|
  {
    var m, g := GroupBy2(s, key), GroupBy(s, FirstOf2(key));
    forall k | k in ks1
      ensures (if k in m then TotalLength(m[k], ks2) else 0) == GroupLength(g, k)
    {
      var part := Select(s, FirstOf2Is(key, k));
      SelectSame(s, FirstOf2Is(key, k), KeyIs(FirstOf2(key), k));
      GroupBy2Nested(s, key, k);
      GroupByGroups(s, FirstOf2(key), k);
      if k in m {
        forall i | 0 <= i < |part|
          ensures SecondOf2(key)(part[i]) in ks2
        {
          SelectMembership(s, FirstOf2Is(key, k), part[i]);
        }
        GroupBySizes(part, SecondOf2(key), ks2);
      }
    }
    TotalLength2OfGroups(m, g, ks1, ks2);
    GroupBySizes(s, FirstOf2(key), ks1);
  }

  /**
   Items grouped by their first key, then their second, then appended to the
   group of their third. Every item's triple of keys leads to a group.
   */
  function GroupBy3<K1(==), K2(==), K3(==), V>(s: seq<V>, key: V -> (K1, K2, K3))
    : (r: map<K1, map<K2, map<K3, seq<V>>>>)
    ensures forall i :: 0 <= i < |s| ==>
      var (k1, k2, k3) := key(s[i]);
      k1 in r && k2 in r[k1] && k3 in r[k1][k2]
  {
    if s == [] then map[]
    else
      var m := GroupBy3(s[..|s| - 1], key);
      var x := s[|s| - 1];
      var middle := if key(x).0 in m then m[key(x).0] else map[];
      var inner := if key(x).1 in middle then middle[key(x).1] else map[];
      var group := if key(x).2 in inner then inner[key(x).2] else [];
      m[key(x).0 := middle[key(x).1 := inner[key(x).2 := group + [x]]]]
  }

  /**
   An outer key is present exactly when some item has it, and under it the
   items with that first key are grouped two-level by their other two keys.
   */
  lemma {:induction false} GroupBy3Nested<K1, K2, K3, V>(s: seq<V>, key: V -> (K1, K2, K3), k1: K1)
    ensures k1 in GroupBy3(s, key) <==> Select(s, FirstOf3Is(key, k1)) != []
    ensures k1 in GroupBy3(s, key) ==>
      GroupBy3(s, key)[k1] == GroupBy2(Select(s, FirstOf3Is(key, k1)), RestOf3(key))
  {
    if s != [] {
      var init, x := s[..|s| - 1], s[|s| - 1];
      GroupBy3Nested(init, key, k1);
      var kept := Select(init, FirstOf3Is(key, k1));
      if key(x).0 == k1 {
        assert Select(s, FirstOf3Is(key, k1)) == kept + [x];
        assert (kept + [x])[..|kept + [x]| - 1] == kept;
        assert RestOf3(key)(x) == (key(x).1, key(x).2);
      } else {
        assert Select(s, FirstOf3Is(key, k1)) == kept;
      }
    }
  }

  /** Sum, over the outer keys `ks1`, of the two-level totals over `ks2` and `ks3` under each. */
  function TotalLength3<K1(==), K2(==), K3(==), V>(
    m: map<K1, map<K2, map<K3, seq<V>>>>, ks1: seq<K1>, ks2: seq<K2>, ks3: seq<K3>): nat
  {
    if ks1 == [] then 0
    else (if ks1[0] in m then TotalLength2(m[ks1[0]], ks2, ks3) else 0) + TotalLength3(m, ks1[1..], ks2, ks3)
  }

  /** Two-level totals that match the group lengths of a one-level grouping key by key add up to its total. */
  lemma {:induction false} TotalLength3OfGroups<K1, K2, K3, V>(
    m: map<K1, map<K2, map<K3, seq<V>>>>, g: map<K1, seq<V>>, ks1: seq<K1>, ks2: seq<K2>, ks3: seq<K3>)
    requires forall k :: k in ks1 ==> (if k in m then TotalLength2(m[k], ks2, ks3) else 0) == GroupLength(g, k)
    ensures TotalLength3(m, ks1, ks2, ks3) == TotalLength(g, ks1)
  {
    if ks1 != [] {
      TotalLength3OfGroups(m, g, ks1[1..], ks2, ks3);
    }
  }

  /**
   Three-level grouping places every item exactly once: over duplicate-free
   key lists covering the items' keys, the group lengths add up to the
   number of items.
   */
  lemma GroupBy3Sizes<K1, K2, K3, V>(
    s: seq<V>, key: V -> (K1, K2, K3), ks1: seq<K1>, ks2: seq<K2>, ks3: seq<K3>)
    requires Distinct(ks1) && Distinct(ks2) && Distinct(ks3)
    requires forall i :: 0 <= i < |s| ==> key(s[i]).0 in ks1 && key(s[i]).1 in ks2 && key(s[i]).2 in ks3
    ensures TotalLength3(GroupBy3(s, key), ks1, ks2, ks3) == |s|
  {
    var m, g := GroupBy3(s, key), GroupBy(s, FirstOf3(key));
    forall k | k in ks1
      ensures (if k in m then TotalLength2(m[k], ks2, ks3) else 0) == GroupLength(g, k)
    {
      var part := Select(s, FirstOf3Is(key, k));
      SelectSame(s, FirstOf3Is(key, k), KeyIs(FirstOf3(key), k));
      GroupBy3Nested(s, key, k);
      GroupByGroups(s, FirstOf3(key), k);
      if k in m {
        forall i | 0 <= i < |part|
          ensures RestOf3(key)(part[i]).0 in ks2 && RestOf3(key)(part[i]).1 in ks3
        {
          SelectMembership(s, FirstOf3Is(key, k), part[i]);
        }
        GroupBy2Sizes(part, RestOf3(key), ks2, ks3);
      }
    }
    TotalLength3OfGroups(m, g, ks1, ks2, ks3);
    GroupBySizes(s, FirstOf3(key), ks1);
  }
}
