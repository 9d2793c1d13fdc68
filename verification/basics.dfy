// Small shared vocabulary: optional values, lookup by id, and order-preserving removal.
module Basics {

  datatype Option<+T> = None | Some(value: T)

  ghost predicate NoDuplicates<T>(xs: seq<T>) {
    forall i, j :: 0 <= i < j < |xs| ==> xs[i] != xs[j]
  }

  // The position of the first occurrence of id, as std::find_if reports it.
  function IndexOf<T(==)>(ids: seq<T>, id: T): (r: Option<nat>)
    ensures r.Some? ==> r.value < |ids| && ids[r.value] == id
    ensures r.None? <==> id !in ids
  {
    if ids == [] then None
    else if ids[0] == id then Some(0)
    else match IndexOf(ids[1..], id)
      case None => None
      case Some(i) => Some(i + 1)
  }

  function Repeat<T>(n: nat, x: T): (xs: seq<T>)
    ensures |xs| == n && forall k :: 0 <= k < n ==> xs[k] == x
  {
    seq(n, _ => x)
  }

  lemma IndexOfUnique<T>(ids: seq<T>, i: nat)
    requires NoDuplicates(ids) && i < |ids|
    ensures IndexOf(ids, ids[i]) == Some(i)
  {
    var r := IndexOf(ids, ids[i]);
    assert r.Some? && ids[r.value] == ids[i];
  }

  // What std::erase leaves behind.
  function Without<T(==)>(xs: seq<T>, x: T): (r: seq<T>)
    ensures multiset(r) == multiset(xs)[x := 0]
    ensures |r| <= |xs|
    ensures |r| == |xs| <==> x !in xs
    ensures x !in xs ==> r == xs
  {
    if xs == [] then []
    else
      var rest := Without(xs[1..], x);
      assert xs == [xs[0]] + xs[1..];
      if xs[0] == x then rest else [xs[0]] + rest
  }

  lemma {:induction false} NoDuplicatesMultiset<T(!new)>(xs: seq<T>)
    ensures NoDuplicates(xs) <==> forall x :: multiset(xs)[x] <= 1
  {
    if xs == [] {
    } else {
      var last := xs[|xs| - 1];
      var init := xs[..|xs| - 1];
      assert xs == init + [last];
      NoDuplicatesMultiset(init);
      if NoDuplicates(xs) {
        forall i, j | 0 <= i < j < |init| ensures init[i] != init[j] { assert init[i] == xs[i] && init[j] == xs[j]; }
        assert last !in init;
      } else if NoDuplicates(init) {
        forall i, j | 0 <= i < j < |init| ensures xs[i] != xs[j] { assert init[i] != init[j]; }
        var i, j :| 0 <= i < j < |xs| && xs[i] == xs[j];
        assert init[i] == last && last in multiset(init);
        assert multiset(xs)[last] >= 2;
      } else {
        var x :| multiset(init)[x] > 1;
        assert multiset(xs)[x] > 1;
      }
    }
  }

  lemma SameMembers<T(!new)>(xs: seq<T>, ys: seq<T>)
    requires multiset(xs) <= multiset(ys)
    ensures forall x :: x in xs ==> x in ys
  {
    forall x | x in xs ensures x in ys {
      assert x in multiset(xs);
      assert x in multiset(ys);
    }
  }

  lemma SameCountsSameLength<T>(xs: seq<T>, ys: seq<T>)
    requires multiset(xs) == multiset(ys)
    ensures |xs| == |ys|
  {
    assert |multiset(xs)| == |xs|;
    assert |multiset(ys)| == |ys|;
  }
}
