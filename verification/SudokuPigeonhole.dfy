/** Pigeonhole facts about finite sets, shared by every deduction below. */
module Pigeonhole {
  /** Some member of a set that is not empty. */
  lemma Member<T>(s: set<T>) returns (x: T)
    requires s != {}
    ensures x in s
  {
    x :| x in s;
  }

  lemma EqualBySize<T>(a: set<T>, b: set<T>)
    requires a <= b && |b| <= |a|
    ensures a == b
  {
    assert b == a + (b - a);
    assert |b| == |a| + |b - a|;
    assert |b - a| == 0;
  }

  lemma SubsetSize<T>(a: set<T>, b: set<T>)
    requires a <= b
    ensures |a| <= |b|
  {
    assert b == a + (b - a);
  }

  ghost predicate Injective(keys: set<int>, f: int -> int) {
    forall x, y :: x in keys && y in keys && x != y ==> f(x) != f(y)
  }

  ghost function Image(keys: set<int>, f: int -> int): set<int> {
    set x | x in keys :: f(x)
  }

  /** An injective function on a finite set has an image of the same size. */
  lemma {:induction false} ImageSize(keys: set<int>, f: int -> int)
    requires Injective(keys, f)
    ensures |Image(keys, f)| == |keys|
    decreases |keys|
  {
    if keys == {} {
      assert Image(keys, f) == {};
    } else {
      var k := Member(keys);
      var rest := keys - {k};
      ImageSize(rest, f);
      assert Image(keys, f) == Image(rest, f) + {f(k)};
      assert f(k) !in Image(rest, f);
    }
  }

  /** n distinct things confined to n places fill every place. */
  lemma FillsEveryPlace(keys: set<int>, f: int -> int, places: set<int>)
    requires Injective(keys, f) && |places| <= |keys|
    requires forall x :: x in keys ==> f(x) in places
    ensures Image(keys, f) == places
  {
    ImageSize(keys, f);
    EqualBySize(Image(keys, f), places);
  }

  /** A sequence of distinct members of a set is no longer than the set. */
  lemma DistinctLength<T>(s: seq<T>, all: set<T>)
    requires forall i, j :: 0 <= i < j < |s| ==> s[i] != s[j]
    requires forall i :: 0 <= i < |s| ==> s[i] in all
    ensures |s| <= |all|
    ensures |set x | x in s| == |s|
  {
    var members := set x | x in s;
    DistinctSize(s);
    SubsetSize(members, all);
  }

  lemma {:induction false} DistinctSize<T>(s: seq<T>)
    requires forall i, j :: 0 <= i < j < |s| ==> s[i] != s[j]
    ensures |set x | x in s| == |s|
  {
    if |s| > 0 {
      var rest := s[..|s| - 1];
      DistinctSize(rest);
      assert (set x | x in s) == (set x | x in rest) + {s[|s| - 1]};
      assert s[|s| - 1] !in rest;
    } else {
      assert (set x | x in s) == {};
    }
  }
}
