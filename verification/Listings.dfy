/**
 The increasing listing of a finite set of integers, which is how sets of numbers
 are compared with the sorted slices of the program.
 */
module Listings {
  import opened RangeSets

  ghost function Pick<T>(s: set<T>): (x: T)
    requires s != {}
    ensures x in s
  {
    var x :| x in s;
    x
  }

  lemma {:induction false} GreatestExists(s: set<int>, v: int) returns (m: int)
    requires v in s
    ensures m in s && forall x :: x in s ==> x <= m
    decreases |s|
  {
    if w :| w in s && w > v {
      var n := GreatestExists(s - {v}, w);
      m := n;
      assert forall x :: x in s ==> x == v || x in s - {v};
    } else {
      m := v;
    }
  }

  /** The elements of a set in increasing order. */
  ghost function SortedInts(s: set<int>): (r: seq<int>)
    ensures Listing(r, s)
    decreases |s|
  {
    if s == {} then []
    else
      var v := Pick(s);
      var m := Greatest(s, v);
      var front := SortedInts(s - {m});
      ListingSnoc(front, s - {m}, m);
      assert s - {m} + {m} == s;
      front + [m]
  }

  ghost function Greatest(s: set<int>, v: int): (m: int)
    requires v in s
    ensures m in s && forall x :: x in s ==> x <= m
  {
    assert exists n :: n in s && forall x :: x in s ==> x <= n by { var n := GreatestExists(s, v); }
    var m :| m in s && forall x :: x in s ==> x <= m;
    m
  }
}
