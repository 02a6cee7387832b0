/** Sequence helpers shared by the list comprehensions and append loops of
    the plugin: keep-and-project (`[f(x) for x in s if keep(x)]`) and the
    enumeration of a set in some order. */
module Seqs {

  /** `[f(x) for x in s if keep(x)]`, built from the left as the
      `append` loops of the source build it. */
  function MapFilter<T, U>(s: seq<T>, keep: T -> bool, f: T -> U): seq<U>
  {
    if s == [] then []
    else MapFilter(s[..|s| - 1], keep, f) + (if keep(s[|s| - 1]) then [f(s[|s| - 1])] else [])
  }

  /** The indices of `s` whose element is kept, in increasing order. */
  function Picked<T>(s: seq<T>, keep: T -> bool): seq<nat>
  {
    if s == [] then []
    else Picked(s[..|s| - 1], keep) + (if keep(s[|s| - 1]) then [|s| - 1] else [])
  }

  predicate Increasing(p: seq<nat>)
  {
    forall a, b :: 0 <= a < b < |p| ==> p[a] < p[b]
  }

  /** The picked indices are increasing, in range, and pick kept elements. */
  lemma {:induction false} PickedSound<T>(s: seq<T>, keep: T -> bool)
    ensures Increasing(Picked(s, keep))
    ensures forall k :: 0 <= k < |Picked(s, keep)| ==>
      Picked(s, keep)[k] < |s| && keep(s[Picked(s, keep)[k]])
  {
    if s != [] {
      var init := s[..|s| - 1];
      PickedSound(init, keep);
      var p0 := Picked(init, keep);
      var p := Picked(s, keep);
      forall k | 0 <= k < |p0|
        ensures p[k] == p0[k] && p[k] < |s| - 1 && keep(s[p[k]])
      {
        assert s[p0[k]] == init[p0[k]];
      }
    }
  }

  /** Every index whose element is kept is picked. */
  lemma {:induction false} PickedComplete<T>(s: seq<T>, keep: T -> bool)
    ensures forall i :: 0 <= i < |s| && keep(s[i]) ==> i in Picked(s, keep)
  {
    if s != [] {
      var init := s[..|s| - 1];
      PickedComplete(init, keep);
      forall i | 0 <= i < |s| && keep(s[i])
        ensures i in Picked(s, keep)
      {
        if i < |s| - 1 {
          assert s[i] == init[i];
        }
      }
    }
  }

  /** MapFilter keeps exactly the elements satisfying `keep`, projected by
      `f`, in their original order. */
  lemma {:induction false} MapFilterExact<T, U>(s: seq<T>, keep: T -> bool, f: T -> U)
    ensures |MapFilter(s, keep, f)| == |Picked(s, keep)|
    ensures Increasing(Picked(s, keep))
    ensures forall k :: 0 <= k < |Picked(s, keep)| ==>
      Picked(s, keep)[k] < |s| && keep(s[Picked(s, keep)[k]]) &&
      MapFilter(s, keep, f)[k] == f(s[Picked(s, keep)[k]])
    ensures forall i :: 0 <= i < |s| && keep(s[i]) ==> i in Picked(s, keep)
  {
    PickedSound(s, keep);
    PickedComplete(s, keep);
    if s != [] {
      var init := s[..|s| - 1];
      MapFilterExact(init, keep, f);
      var p0 := Picked(init, keep);
      var p := Picked(s, keep);
      var m := MapFilter(s, keep, f);
      forall k | 0 <= k < |p|
        ensures m[k] == f(s[p[k]])
      {
        if k < |p0| {
          assert p[k] == p0[k];
          assert s[p0[k]] == init[p0[k]];
        }
      }
    }
  }

  /** `order` lists every element of `s` exactly once. */
  ghost predicate IsEnumeration(order: seq<int>, s: set<int>)
  {
    (forall a, b :: 0 <= a < b < |order| ==> order[a] != order[b]) &&
    (forall x :: x in order <==> x in s)
  }

  /** An enumeration has one entry per element: a set of candidates gives
      exactly that many requests. */
  lemma {:induction false} EnumerationSize(order: seq<int>, s: set<int>)
    requires IsEnumeration(order, s)
    ensures |order| == |s|
  {
    if order != [] {
      var init := order[..|order| - 1];
      var last := order[|order| - 1];
      forall x
        ensures x in init <==> x in s - {last}
      {
        if x in init {
          var a :| 0 <= a < |init| && init[a] == x;
          assert order[a] == x;
        }
        if x in s - {last} {
          assert x in order;
          var a :| 0 <= a < |order| && order[a] == x;
          assert a < |order| - 1;
          assert init[a] == x;
        }
      }
      assert last in s;
      EnumerationSize(init, s - {last});
    } else {
      assert forall x :: x !in s;
      assert s == {};
    }
  }

  /** Listing one more element extends an enumeration. */
  lemma EnumerationStep(order: seq<int>, s: set<int>, x: int)
    requires IsEnumeration(order, s) && x !in s
    ensures IsEnumeration(order + [x], s + {x})
  {
    var o := order + [x];
    forall a, b | 0 <= a < b < |o|
      ensures o[a] != o[b]
    {
      if b == |order| {
        assert o[a] == order[a] && order[a] in s;
      } else {
        assert o[a] == order[a] && o[b] == order[b];
      }
    }
  }

  /** A non-empty set has an element to pick. */
  lemma {:induction false} NonEmptyHasElement(s: set<int>)
    requires s != {}
    ensures exists x :: x in s
  {
    if forall x :: x !in s {
      assert false;
    }
  }

  /** Some element of a non-empty set; which one is left unspecified, as
      the iteration order of a host-language set is. */
  method PickOne(s: set<int>) returns (x: int)
    requires s != {}
    ensures x in s
  {
    NonEmptyHasElement(s);
    x :| x in s;
  }
}
