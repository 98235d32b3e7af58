// Sequence helpers shared by the modules: duplicate-free lists and filtering
// (Array.prototype.filter, Python list comprehensions with a condition).

module Seqs {

  /** The elements satisfying p, in order. */
  function Filter<T>(xs: seq<T>, p: T -> bool): (r: seq<T>)
    ensures |r| <= |xs|
    decreases |xs|
  {
    if xs == [] then []
    else
      var n := |xs| - 1;
      Filter(xs[..n], p) + (if p(xs[n]) then [xs[n]] else [])
  }

  /** Filter keeps exactly the elements satisfying p, and all of them if every one does. */
  lemma {:induction false} FilterSpec<T>(xs: seq<T>, p: T -> bool)
    ensures forall x :: x in Filter(xs, p) <==> x in xs && p(x)
    ensures (forall i :: 0 <= i < |xs| ==> p(xs[i])) ==> Filter(xs, p) == xs
    decreases |xs|
  {
    if xs != [] {
      var n := |xs| - 1;
      FilterSpec(xs[..n], p);
      assert xs == xs[..n] + [xs[n]];
    }
  }

  /**
   * When flags[k] tells whether xs[k] satisfies p, Filter keeps exactly the flagged
   * positions' elements.
   */
  lemma FilterFlags<T>(xs: seq<T>, p: T -> bool, flags: seq<bool>)
    requires |flags| == |xs| && forall k :: 0 <= k < |xs| ==> (p(xs[k]) <==> flags[k])
    ensures forall x :: x in Filter(xs, p) ==> exists k :: 0 <= k < |xs| && xs[k] == x && flags[k]
    ensures forall k :: 0 <= k < |xs| && flags[k] ==> xs[k] in Filter(xs, p)
  {
    FilterSpec(xs, p);
    forall x | x in Filter(xs, p) ensures exists k :: 0 <= k < |xs| && xs[k] == x && flags[k] {
      FilterMember(xs, p, x);
      var k :| 0 <= k < |xs| && xs[k] == x;
      assert flags[k];
    }
  }

  /** An element Filter keeps comes from the list and satisfies p. */
  lemma FilterMember<T>(xs: seq<T>, p: T -> bool, x: T)
    requires x in Filter(xs, p)
    ensures x in xs && p(x)
  {
    FilterSpec(xs, p);
  }

  /** No element occurs twice. */
  predicate Distinct(s: seq<string>) {
    forall i, j :: 0 <= i < j < |s| ==> s[i] != s[j]
  }

  /** Two duplicate-free lists with no common element concatenate to a duplicate-free list. */
  lemma DistinctConcat(a: seq<string>, b: seq<string>)
    requires Distinct(a) && Distinct(b)
    requires forall x :: x in a ==> x !in b
    ensures Distinct(a + b)
  {
    var c := a + b;
    forall i, j | 0 <= i < j < |c| ensures c[i] != c[j] {
      if i < |a| && j >= |a| {
        assert c[i] == a[i] && a[i] in a;
        assert c[j] == b[j - |a|];
      }
    }
  }

  /** The tail of a duplicate-free list is duplicate-free and lacks the head. */
  lemma DistinctTail(s: seq<string>)
    requires Distinct(s) && s != []
    ensures Distinct(s[1..]) && s[0] !in s[1..]
  {
  }

  /** A duplicate-free list has as many elements as its set. */
  lemma {:induction false} DistinctCard(s: seq<string>)
    requires Distinct(s)
    ensures |set x | x in s| == |s|
  {
    if s != [] {
      var t := s[1..];
      DistinctTail(s);
      DistinctCard(t);
      assert (set x | x in s) == (set x | x in t) + {s[0]};
    }
  }

  /** Filtering a duplicate-free list leaves it duplicate-free. */
  lemma {:induction false} FilterDistinct(xs: seq<string>, p: string -> bool)
    requires Distinct(xs)
    ensures Distinct(Filter(xs, p))
    decreases |xs|
  {
    if xs != [] {
      var n := |xs| - 1;
      assert Distinct(xs[..n]);
      FilterDistinct(xs[..n], p);
      FilterSpec(xs[..n], p);
      assert xs[n] !in xs[..n];
    }
  }
}
