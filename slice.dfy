/**
 The helpers of package `fn` (slice/slice.go), one method per Go function,
 each with the loop the source has. A Go slice is a `seq`; a Go map used as a
 set (`map[T]struct{}`) is a `set`; other Go maps are `map`s. Every method is
 proved against a definition of module `SliceSpec` or `MapSpec`, or states
 what it computes outright.
 */
module Slice {
  import opened SliceSpec
  import opened MapSpec

  /** Applies `transform` to every element, writing into a result of the same length. */
  method Transform<S, T(0)>(li: seq<S>, transform: S -> T) returns (res: seq<T>)
    ensures |res| == |li|
    ensures forall i :: 0 <= i < |li| ==> res[i] == transform(li[i])
  {
    var buf := new T[|li|];
    for i := 0 to |li|
      invariant forall j :: 0 <= j < i ==> buf[j] == transform(li[j])
    {
      buf[i] := transform(li[i]);
    }
    res := buf[..];
  }

  /**
   Unique as written: `tmpMap` is consulted but never filled in, so every
   element is kept and the input comes back unchanged.
   */
  method Unique<V(==)>(list: seq<V>) returns (result: seq<V>)
    ensures result == list
  {
    result := [];
    var tmpMap: map<V, int> := map[];
    for i := 0 to |list|
      invariant result == list[..i]
    {
      var v := list[i];
      if v !in tmpMap {
        result := result + [v];
      }
    }
  }

  /** Unique keeps repeated elements: `[1, 1]` comes back with its repeat. */
  method UniqueKeepsRepeats() returns (r: seq<int>)
    ensures r == [1, 1] && !Distinct(r)
  {
    r := Unique([1, 1]);
    assert r[0] == r[1];
  }

  /** Unique as evidently intended: each value is recorded the first time it is seen. */
  method UniqueFixed<V(==)>(list: seq<V>) returns (result: seq<V>)
    ensures result == Dedup(list)
    ensures Distinct(result)
    ensures forall x :: x in result <==> x in list
  {
    result := [];
    var tmpMap: map<V, int> := map[];
    for i := 0 to |list|
      invariant tmpMap.Keys == set j | 0 <= j < i :: list[j]
      invariant result == Dedup(list[..i])
    {
      var v := list[i];
      assert list[..i + 1][..i] == list[..i];
      if v !in tmpMap {
        result := result + [v];
        tmpMap := tmpMap[v := 1];
      }
    }
    assert list[..|list|] == list;
    DedupDistinct(list);
    forall x {
      DedupMembership(list, x);
    }
  }

  /** Every item stored under the key `keyFunc` gives it; the last item with a key wins. */
  method AsMap<K(==), V>(slice: seq<V>, keyFunc: V -> K) returns (result: map<K, V>)
    ensures result == IndexBy(slice, keyFunc)
  {
    result := map[];
    for i := 0 to |slice|
      invariant result == IndexBy(slice[..i], keyFunc)
    {
      var item := slice[i];
      assert slice[..i + 1][..i] == slice[..i];
      var key := keyFunc(item);
      result := result[key := item];
    }
    assert slice[..|slice|] == slice;
  }

  /** Two-level AsMap: the inner map under `k1` is created on first use. */
  method AsMap2<K1(==), K2(==), V>(slice: seq<V>, keyFunc: V -> (K1, K2)) returns (result: map<K1, map<K2, V>>)
    ensures result == IndexBy2(slice, keyFunc)
  {
    result := map[];
    for i := 0 to |slice|
      invariant result == IndexBy2(slice[..i], keyFunc)
    {
      var item := slice[i];
      assert slice[..i + 1][..i] == slice[..i];
      var (k1, k2) := keyFunc(item);
      ghost var before := result;
      ghost var oldInner := if k1 in before then before[k1] else map[];
      if k1 !in result {
        result := result[k1 := map[]];
      }
      assert result[k1] == oldInner;
      result := result[k1 := result[k1][k2 := item]];
      assert result == before[k1 := oldInner[k2 := item]];
    }
    assert slice[..|slice|] == slice;
  }

  /** Early-exit scan for an element equal to `target`. */
  method Contains<T(==)>(slice: seq<T>, target: T) returns (found: bool)
    ensures found <==> target in slice
  {
    for i := 0 to |slice|
      invariant target !in slice[..i]
    {
      assert slice[..i + 1] == slice[..i] + [slice[i]];
      if slice[i] == target {
        return true;
      }
    }
    assert slice[..|slice|] == slice;
    return false;
  }

  /** Early-exit scan for an element satisfying `matches` (the source's `match`). */
  method ContainsFunc<T>(slice: seq<T>, matches: T -> bool) returns (found: bool)
    ensures found <==> exists i :: 0 <= i < |slice| && matches(slice[i])
  {
    for i := 0 to |slice|
      invariant forall j :: 0 <= j < i ==> !matches(slice[j])
    {
      if matches(slice[i]) {
        return true;
      }
    }
    return false;
  }

  /**
   ContainsAll as written: an empty `child` is always contained; otherwise a
   `child` longer than `parent` is rejected outright, even when its extra
   length comes from repeats; otherwise every element of `child` must occur
   in `parent`.
   */
  method ContainsAll<T(==)>(parent: seq<T>, child: seq<T>) returns (r: bool)
    ensures |child| == 0 ==> r
    ensures 0 < |child| && |parent| < |child| ==> !r
    ensures 0 < |child| <= |parent| ==> (r <==> forall x :: x in child ==> x in parent)
  {
    if |child| == 0 {
      return true;
    }
    if |parent| < |child| {
      return false;
    }
    var parentMap := ParentSet(parent);
    r := AllIn(child, parentMap);
  }

  /** The set of elements of `parent`, built as the source fills `parentMap`. */
  method ParentSet<T(==)>(parent: seq<T>) returns (parentMap: set<T>)
    ensures forall x :: x in parentMap <==> x in parent
  {
    parentMap := {};
    for i := 0 to |parent|
      invariant forall x :: x in parentMap <==> x in parent[..i]
    {
      assert parent[..i + 1] == parent[..i] + [parent[i]];
      parentMap := parentMap + {parent[i]};
    }
    assert parent[..|parent|] == parent;
  }

  /** Early-exit check that every element of `child` is in `members`. */
  method AllIn<T(==)>(child: seq<T>, members: set<T>) returns (r: bool)
    ensures r <==> forall x :: x in child ==> x in members
  {
    for i := 0 to |child|
      invariant forall j :: 0 <= j < i ==> child[j] in members
    {
      if child[i] !in members {
        return false;
      }
    }
    return true;
  }

  /** ContainsAll rejects `child = [1, 1]` although its only element occurs in `parent = [1]`. */
  method ContainsAllRejectsRepeats() returns (r: bool)
    ensures !r
    ensures forall x :: x in [1, 1] ==> x in [1]
  {
    r := ContainsAll([1], [1, 1]);
  }

  /** ContainsAll as evidently intended: without the length shortcut. */
  method ContainsAllFixed<T(==)>(parent: seq<T>, child: seq<T>) returns (r: bool)
    ensures r <==> forall x :: x in child ==> x in parent
  {
    if |child| == 0 {
      return true;
    }
    var parentMap := ParentSet(parent);
    r := AllIn(child, parentMap);
  }

  /**
   Collects the elements of `b` that occur in `a`; each found element is
   deleted from `elementMap` so that it is not collected twice.
   */
  method Intersection<T(==)>(a: seq<T>, b: seq<T>) returns (intersection: seq<T>)
    ensures intersection == Common(a, b)
  {
    var elementMap := ParentSet(a);
    intersection := [];
    for i := 0 to |b|
      invariant intersection == Common(a, b[..i])
      invariant forall x :: x in elementMap <==> x in a && x !in intersection
    {
      var v := b[i];
      assert b[..i + 1][..i] == b[..i];
      if v in elementMap {
        intersection := intersection + [v];
        elementMap := elementMap - {v};
      }
    }
    assert b[..|b|] == b;
  }

  /** Keeps the elements that satisfy `filterFunc`, in order. */
  method Filter<T>(slice: seq<T>, filterFunc: T -> bool) returns (result: seq<T>)
    ensures result == Select(slice, filterFunc)
  {
    result := [];
    for i := 0 to |slice|
      invariant result == Select(slice[..i], filterFunc)
    {
      var item := slice[i];
      assert slice[..i + 1][..i] == slice[..i];
      if filterFunc(item) {
        result := result + [item];
      }
    }
    assert slice[..|slice|] == slice;
  }

  /**
   The first element satisfying `matchFunc`, with `found` set; otherwise
   `zero` (Go's zero value of the element type) and `found` unset.
   */
  method Find<T>(slice: seq<T>, matchFunc: T -> bool, zero: T) returns (res: T, found: bool)
    ensures found ==> exists i :: 0 <= i < |slice| && slice[i] == res && matchFunc(res)
                                  && forall j :: 0 <= j < i ==> !matchFunc(slice[j])
    ensures !found ==> res == zero && forall i :: 0 <= i < |slice| ==> !matchFunc(slice[i])
    ensures found <==> Select(slice, matchFunc) != []
    ensures found ==> res == Select(slice, matchFunc)[0]
  {
    for i := 0 to |slice|
      invariant forall j :: 0 <= j < i ==> !matchFunc(slice[j])
    {
      var item := slice[i];
      if matchFunc(item) {
        SelectFirst(slice, matchFunc, i);
        return item, true;
      }
    }
    SelectEmpty(slice, matchFunc);
    return zero, false;
  }

  /** All elements satisfying `matchFunc`, in order, and whether there is any. */
  method FindAll<T>(slice: seq<T>, matchFunc: T -> bool) returns (result: seq<T>, found: bool)
    ensures result == Select(slice, matchFunc)
    ensures found <==> result != []
  {
    result := [];
    for i := 0 to |slice|
      invariant result == Select(slice[..i], matchFunc)
    {
      var item := slice[i];
      assert slice[..i + 1][..i] == slice[..i];
      if matchFunc(item) {
        result := result + [item];
      }
    }
    assert slice[..|slice|] == slice;
    found := |result| > 0;
  }

  /** Appends every item to the group of its key. */
  method GroupToMap<K(==), V>(list: seq<V>, keyFunc: V -> K) returns (groupMap: map<K, seq<V>>)
    ensures groupMap == GroupBy(list, keyFunc)
  {
    groupMap := map[];
    for i := 0 to |list|
      invariant groupMap == GroupBy(list[..i], keyFunc)
    {
      var item := list[i];
      assert list[..i + 1][..i] == list[..i];
      var key := keyFunc(item);
      var group := if key in groupMap then groupMap[key] else [];
      groupMap := groupMap[key := group + [item]];
    }
    assert list[..|list|] == list;
  }

  /** Two-level grouping: the inner map under `k1` is created on first use. */
  method GroupToMap2<K1(==), K2(==), V>(list: seq<V>, keyFunc: V -> (K1, K2))
    returns (groupMap: map<K1, map<K2, seq<V>>>)
    ensures groupMap == GroupBy2(list, keyFunc)
  {
    groupMap := map[];
    for i := 0 to |list|
      invariant groupMap == GroupBy2(list[..i], keyFunc)
    {
      var item := list[i];
      assert list[..i + 1][..i] == list[..i];
      var (k1, k2) := keyFunc(item);
      ghost var before := groupMap;
      ghost var oldInner := if k1 in before then before[k1] else map[];
      if k1 !in groupMap {
        groupMap := groupMap[k1 := map[]];
      }
      assert groupMap[k1] == oldInner;
      var group := if k2 in groupMap[k1] then groupMap[k1][k2] else [];
      groupMap := groupMap[k1 := groupMap[k1][k2 := group + [item]]];
      assert groupMap == before[k1 := oldInner[k2 := group + [item]]];
    }
    assert list[..|list|] == list;
  }

  /** Three-level grouping: the maps under `k1` and under `k1`, `k2` are created on first use. */
  method GroupToMap3<K1(==), K2(==), K3(==), V>(list: seq<V>, keyFunc: V -> (K1, K2, K3))
    returns (groupMap: map<K1, map<K2, map<K3, seq<V>>>>)
    ensures groupMap == GroupBy3(list, keyFunc)
  {
    groupMap := map[];
    for i := 0 to |list|
      invariant groupMap == GroupBy3(list[..i], keyFunc)
    {
      var item := list[i];
      assert list[..i + 1][..i] == list[..i];
      var (k1, k2, k3) := keyFunc(item);
      ghost var before := groupMap;
      ghost var oldMiddle := if k1 in before then before[k1] else map[];
      ghost var oldInner := if k2 in oldMiddle then oldMiddle[k2] else map[];
      if k1 !in groupMap {
        groupMap := groupMap[k1 := map[]];
      }
      assert groupMap[k1] == oldMiddle;
      if k2 !in groupMap[k1] {
        groupMap := groupMap[k1 := groupMap[k1][k2 := map[]]];
      }
      var middle := groupMap[k1];
      var inner := middle[k2];
      var group := if k3 in inner then inner[k3] else [];
      assert middle[k2 := inner[k3 := group + [item]]] == oldMiddle[k2 := inner[k3 := group + [item]]];
      groupMap := groupMap[k1 := middle[k2 := inner[k3 := group + [item]]]];
      assert groupMap == before[k1 := oldMiddle[k2 := oldInner[k3 := group + [item]]]];
    }
    assert list[..|list|] == list;
  }

  /**
   Appends each element of `elem` that does not occur in the ORIGINAL `list`;
   the growing result is not consulted.
   */
  method AddIfNotExist<T(==)>(list: seq<T>, elem: seq<T>) returns (res: seq<T>)
    ensures res == Added(list, elem)
  {
    res := list;
    if |elem| == 0 {
      return;
    }
    for i := 0 to |elem|
      invariant res == list + Select(elem[..i], Absent(list))
    {
      var item := elem[i];
      assert elem[..i + 1][..i] == elem[..i];
      var present := Contains(list, item);
      if !present {
        res := res + [item];
      }
    }
    assert elem[..|elem|] == elem;
  }
}
