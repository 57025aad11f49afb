/** Sets of integers kept as sorted, disjoint, non-adjacent inclusive ranges. */
module RangeSets {

  datatype Rang = Rang(lo: int, hi: int)

  predicate Between(lo: int, v: int, hi: int)
  {
    lo <= v <= hi
  }

  function Interval(lo: int, hi: int): set<int>
  {
    set v | lo <= v <= hi && Between(lo, v, hi)
  }

  /** The integers a list of ranges stands for. */
  function Members(rs: seq<Rang>): set<int>
  {
    if rs == [] then {} else Members(rs[..|rs| - 1]) + Interval(rs[|rs| - 1].lo, rs[|rs| - 1].hi)
  }

  ghost predicate Canonical(rs: seq<Rang>)
  {
    && (forall i :: 0 <= i < |rs| ==> rs[i].lo <= rs[i].hi)
    && (forall i, j :: 0 <= i < j < |rs| ==> rs[i].hi + 1 < rs[j].lo)
  }

  /** Every range of `a` ends well before every range of `b` begins. */
  ghost predicate Apart(a: seq<Rang>, b: seq<Rang>)
  {
    forall i, j :: 0 <= i < |a| && 0 <= j < |b| ==> a[i].hi + 1 < b[j].lo
  }

  ghost predicate StrictlySorted(s: seq<int>)
  {
    forall i, j :: 0 <= i < j < |s| ==> s[i] < s[j]
  }

  /** `s` lists the elements of `of` in increasing order. */
  ghost predicate Listing(s: seq<int>, of: set<int>)
  {
    StrictlySorted(s) && forall v :: v in s <==> v in of
  }

  lemma MembersNone()
    ensures Members([]) == {}
  {
  }

  lemma MembersSnoc(rs: seq<Rang>, r: Rang)
    ensures Members(rs + [r]) == Members(rs) + Interval(r.lo, r.hi)
  {
    assert (rs + [r])[..|rs|] == rs;
  }

  lemma {:induction false} MembersConcat(a: seq<Rang>, b: seq<Rang>)
    ensures Members(a + b) == Members(a) + Members(b)
  {
    if b == [] {
      assert a + b == a;
    } else {
      var front := b[..|b| - 1];
      assert (a + b)[..|a + b| - 1] == a + front;
      MembersConcat(a, front);
    }
  }

  lemma {:induction false} MemberAt(rs: seq<Rang>, v: int) returns (i: nat)
    requires v in Members(rs)
    ensures i < |rs| && rs[i].lo <= v <= rs[i].hi
  {
    i := |rs| - 1;
    if !(rs[i].lo <= v <= rs[i].hi) {
      i := MemberAt(rs[..i], v);
    }
  }

  lemma {:induction false} AtMember(rs: seq<Rang>, v: int, i: nat)
    requires i < |rs| && rs[i].lo <= v <= rs[i].hi
    ensures v in Members(rs)
  {
    if i < |rs| - 1 {
      AtMember(rs[..|rs| - 1], v, i);
    }
  }

  lemma CanonicalSnoc(rs: seq<Rang>, r: Rang)
    requires Canonical(rs) && r.lo <= r.hi && Apart(rs, [r])
    ensures Canonical(rs + [r])
  {
    var s := rs + [r];
    forall i, j | 0 <= i < j < |s| ensures s[i].hi + 1 < s[j].lo {
      if j == |rs| {
        assert rs[i].hi + 1 < [r][0].lo;
      }
    }
  }

  /** Two canonical lists of ranges with the same members are the same list. */
  lemma {:induction false} CanonicalUnique(a: seq<Rang>, b: seq<Rang>)
    requires Canonical(a) && Canonical(b) && Members(a) == Members(b)
    ensures a == b
  {
    hide Canonical, Members, Interval;
    NonEmpty(a);
    NonEmpty(b);
    if a != [] && b != [] {
      var m, n := |a| - 1, |b| - 1;
      LastRange(a, b);
      LastRange(b, a);
      assert a == a[..m] + [a[m]] && b == b[..n] + [b[n]] && a[m] == b[n];
      FrontMembers(a);
      FrontMembers(b);
      CanonicalUnique(a[..m], b[..n]);
    }
  }

  lemma NonEmpty(a: seq<Rang>)
    requires Canonical(a)
    ensures Members(a) == {} <==> a == []
  {
    if a != [] {
      AtMember(a, a[0].lo, 0);
    }
  }

  /** A member lies in the last range, or well before it. */
  lemma LastOrBefore(a: seq<Rang>, v: int)
    requires Canonical(a) && v in Members(a)
    ensures a != [] && v <= a[|a| - 1].hi && (a[|a| - 1].lo <= v || v + 1 < a[|a| - 1].lo)
  {
    var i := MemberAt(a, v);
    assert i == |a| - 1 || a[i].hi + 1 < a[|a| - 1].lo;
  }

  lemma LastMembers(a: seq<Rang>, v: int)
    requires Canonical(a) && a != [] && a[|a| - 1].lo <= v <= a[|a| - 1].hi
    ensures v in Members(a)
  {
    AtMember(a, v, |a| - 1);
  }

  /** The last range of `a` lies within the last range of `b`. */
  lemma LastRange(a: seq<Rang>, b: seq<Rang>)
    requires Canonical(a) && Canonical(b) && Members(a) == Members(b) && a != [] && b != []
    ensures b[|b| - 1].lo <= a[|a| - 1].lo && a[|a| - 1].hi <= b[|b| - 1].hi
  {
    var x, y := a[|a| - 1], b[|b| - 1];
    LastMembers(a, x.hi);
    LastOrBefore(b, x.hi);
    LastMembers(b, y.hi);
    LastOrBefore(a, y.hi);
    if x.lo < y.lo {
      LastMembers(a, y.lo - 1);
      LastOrBefore(b, y.lo - 1);
    }
  }

  lemma FrontMembers(a: seq<Rang>)
    requires Canonical(a) && a != []
    ensures Canonical(a[..|a| - 1])
    ensures Members(a[..|a| - 1]) == Members(a) - Interval(a[|a| - 1].lo, a[|a| - 1].hi)
  {
    var front := a[..|a| - 1];
    forall v | v in Members(front) ensures v !in Interval(a[|a| - 1].lo, a[|a| - 1].hi) {
      var i := MemberAt(front, v);
      assert front[i] == a[i];
    }
  }

  lemma {:induction false} ListingUnique(s: seq<int>, t: seq<int>, of: set<int>)
    requires Listing(s, of) && Listing(t, of)
    ensures s == t
  {
    SameEnd(s, t, of);
    if s != [] {
      hide StrictlySorted;
      var m, n := |s| - 1, |t| - 1;
      FrontListing(s, of);
      FrontListing(t, of);
      ListingUnique(s[..m], t[..n], of - {s[m]});
      assert s == s[..m] + [s[m]] && t == t[..n] + [t[n]];
    }
  }

  lemma SameEnd(s: seq<int>, t: seq<int>, of: set<int>)
    requires Listing(s, of) && Listing(t, of)
    ensures s == [] <==> t == []
    ensures s != [] ==> s[|s| - 1] == t[|t| - 1]
  {
    if t != [] { assert t[|t| - 1] in t && t[|t| - 1] in of; }
    if s != [] { assert s[|s| - 1] in s && s[|s| - 1] in of; }
    if s != [] && t != [] {
      LastIsGreatest(s, of, t[|t| - 1]);
      LastIsGreatest(t, of, s[|s| - 1]);
    }
  }

  lemma LastIsGreatest(s: seq<int>, of: set<int>, v: int)
    requires Listing(s, of) && s != []
    ensures v in of ==> v <= s[|s| - 1]
  {
    if v in of {
      assert v in s;
    }
  }

  lemma FrontListing(s: seq<int>, of: set<int>)
    requires Listing(s, of) && s != []
    ensures Listing(s[..|s| - 1], of - {s[|s| - 1]})
  {
    var front := s[..|s| - 1];
    assert s == front + [s[|s| - 1]];
    forall v ensures v in front <==> v in of - {s[|s| - 1]} {
      assert v in s <==> v in front || v == s[|s| - 1];
    }
  }

  class RangeSet {
    var ranges: seq<Rang>
    var padding: int

    ghost predicate Valid()
      reads this
    {
      Canonical(ranges)
    }

    ghost function Elements(): set<int>
      reads this
    {
      Members(ranges)
    }

    constructor (padding: int)
      ensures Valid() && Elements() == {} && this.padding == padding
    {
      ranges, this.padding := [], padding;
    }

    method IsEmpty() returns (b: bool)
      requires Valid()
      ensures b <==> Elements() == {}
    {
      b := |ranges| == 0;
      if !b {
        AtMember(ranges, ranges[0].lo, 0);
      }
    }

    /** Binary search for the first range that ends at or after `v`. */
    method Contains(v: int) returns (b: bool)
      requires Valid()
      ensures b <==> v in Elements()
    {
      var i, j := 0, |ranges|;
      while i < j
        invariant 0 <= i <= j <= |ranges|
        invariant forall k :: 0 <= k < i ==> ranges[k].hi < v
        invariant forall k :: j <= k < |ranges| ==> ranges[k].hi >= v
      {
        var h := i + (j - i) / 2;
        if ranges[h].hi >= v {
          j := h;
        } else {
          i := h + 1;
        }
      }
      b := i < |ranges| && ranges[i].lo <= v;
      if b {
        AtMember(ranges, v, i);
      } else {
        forall k | 0 <= k < |ranges| ensures !(ranges[k].lo <= v <= ranges[k].hi) {
          assert k <= i || ranges[i].hi + 1 < ranges[k].lo;
        }
        NotMember(ranges, v);
      }
    }

    /** Inserts [lo, hi], merging it with every range it overlaps or touches. */
    method Add(lo: int, hi: int)
      requires Valid()
      modifies this`ranges
      ensures Valid()
      ensures Elements() == old(Elements()) + Interval(lo, hi)
    {
      if lo > hi {
        return;
      }
      hide Adding, Members, Canonical, Interval;
      var rs := ranges;
      var newR := Rang(lo, hi);
      var merged: seq<Rang> := [];
      var inserted := false;
      AddStart(rs, newR);
      for i := 0 to |rs|
        invariant Adding(rs, i, lo, hi, merged, newR, inserted)
      {
        var r := rs[i];
        if r.hi < newR.lo - 1 {
          AddBefore(rs, i, lo, hi, merged, newR, inserted);
          merged := merged + [r];
        } else if r.lo > newR.hi + 1 {
          AddAfter(rs, i, lo, hi, merged, newR, inserted);
          if !inserted {
            merged := merged + [newR];
            inserted := true;
          }
          merged := merged + [r];
        } else {
          AddMerge(rs, i, lo, hi, merged, newR, inserted);
          newR := Hull(newR, r);
        }
      }
      AddEnd(rs, lo, hi, merged, newR, inserted);
      if !inserted {
        merged := merged + [newR];
      }
      ranges := merged;
    }

    /** Removes [lo, hi], splitting the ranges it cuts. */
    method Remove(lo: int, hi: int)
      requires Valid()
      modifies this`ranges
      ensures Valid()
      ensures Elements() == old(Elements()) - Interval(lo, hi)
    {
      if lo > hi || |ranges| == 0 {
        return;
      }
      hide Removing, Members, Canonical, Interval, CutBefore, CutAfter;
      var rs := ranges;
      var result: seq<Rang> := [];
      RemoveStart(rs, lo, hi);
      for i := 0 to |rs|
        invariant Removing(rs, i, lo, hi, result)
      {
        var r := rs[i];
        if r.hi < lo || r.lo > hi {
          RemoveKeep(rs, i, lo, hi, result);
          result := result + [r];
        } else {
          RemoveCut(rs, i, lo, hi, result);
          result := AppendCut(result, r, lo, hi);
        }
      }
      RemoveEnd(rs, lo, hi, result);
      ranges := result;
    }

    /** Appends what [lo, hi] leaves of a range that it meets. */
    static method AppendCut(result: seq<Rang>, r: Rang, lo: int, hi: int) returns (more: seq<Rang>)
      ensures more == result + CutBefore(r, lo) + CutAfter(r, hi)
    {
      more := result;
      if r.lo < lo {
        more := more + [Rang(r.lo, lo - 1)];
      }
      if r.hi > hi {
        more := more + [Rang(hi + 1, r.hi)];
      }
    }

    /** All elements in increasing order. */
    method Expand() returns (s: seq<int>)
      requires Valid()
      ensures Listing(s, Elements())
    {
      s := [];
      for i := 0 to |ranges|
        invariant Listing(s, Members(ranges[..i]))
      {
        var r := ranges[i];
        ghost var before := Members(ranges[..i]);
        BelowNext(ranges, i);
        var v := r.lo;
        while v <= r.hi
          invariant r.lo <= v <= r.hi + 1
          invariant Listing(s, before + Interval(r.lo, v - 1))
        {
          ListingSnoc(s, before + Interval(r.lo, v - 1), v);
          assert before + Interval(r.lo, v) == before + Interval(r.lo, v - 1) + {v};
          s := s + [v];
          v := v + 1;
        }
        assert ranges[..i + 1] == ranges[..i] + [r];
        MembersSnoc(ranges[..i], r);
      }
      assert ranges[..|ranges|] == ranges;
    }

    method Copy() returns (c: RangeSet)
      requires Valid()
      ensures fresh(c) && c.Valid() && c.Elements() == Elements() && c.padding == padding
    {
      c := new RangeSet(padding);
      c.ranges := ranges;
    }

    method Union(other: RangeSet) returns (result: RangeSet)
      requires Valid() && other.Valid()
      ensures fresh(result) && result.Valid() && result.padding == padding
      ensures result.Elements() == Elements() + other.Elements()
    {
      result := Copy();
      for i := 0 to |other.ranges|
        invariant result.Valid() && result.padding == padding
        invariant result.Elements() == Elements() + Members(other.ranges[..i])
      {
        assert other.ranges[..i + 1] == other.ranges[..i] + [other.ranges[i]];
        MembersSnoc(other.ranges[..i], other.ranges[i]);
        result.Add(other.ranges[i].lo, other.ranges[i].hi);
      }
      assert other.ranges[..|other.ranges|] == other.ranges;
    }

    method Difference(other: RangeSet) returns (result: RangeSet)
      requires Valid() && other.Valid()
      ensures fresh(result) && result.Valid() && result.padding == padding
      ensures result.Elements() == Elements() - other.Elements()
    {
      result := Copy();
      for i := 0 to |other.ranges|
        invariant result.Valid() && result.padding == padding
        invariant result.Elements() == Elements() - Members(other.ranges[..i])
      {
        assert other.ranges[..i + 1] == other.ranges[..i] + [other.ranges[i]];
        MembersSnoc(other.ranges[..i], other.ranges[i]);
        result.Remove(other.ranges[i].lo, other.ranges[i].hi);
      }
      assert other.ranges[..|other.ranges|] == other.ranges;
    }

    method Intersection(other: RangeSet) returns (result: RangeSet)
      requires Valid() && other.Valid()
      ensures fresh(result) && result.Valid() && result.padding == padding
      ensures result.Elements() == Elements() * other.Elements()
    {
      hide Members, Canonical, Interval;
      MembersNone();
      result := new RangeSet(padding);
      for i := 0 to |ranges|
        invariant result.Valid() && result.padding == padding
        invariant fresh(result)
        invariant result.Elements() == Members(ranges[..i]) * other.Elements()
      {
        var a := ranges[i];
        for j := 0 to |other.ranges|
          invariant result.Valid() && result.padding == padding
          invariant fresh(result)
          invariant result.Elements() == Members(ranges[..i]) * other.Elements()
                                         + Interval(a.lo, a.hi) * Members(other.ranges[..j])
        {
          var b := other.ranges[j];
          MembersStep(other.ranges, j);
          var lo := if b.lo > a.lo then b.lo else a.lo;
          var hi := if b.hi < a.hi then b.hi else a.hi;
          IntervalMeet(a, b, lo, hi);
          MeetStep(Members(ranges[..i]) * other.Elements(), Interval(a.lo, a.hi), Members(other.ranges[..j]), Interval(b.lo, b.hi));
          if lo <= hi {
            result.Add(lo, hi);
          }
        }
        assert other.ranges[..|other.ranges|] == other.ranges;
        MembersStep(ranges, i);
        MeetStep({}, other.Elements(), Members(ranges[..i]), Interval(a.lo, a.hi));
      }
      assert ranges[..|ranges|] == ranges;
    }

    method SymmetricDifference(other: RangeSet) returns (result: RangeSet)
      requires Valid() && other.Valid()
      ensures fresh(result) && result.Valid() && result.padding == padding
      ensures result.Elements() == (Elements() - other.Elements()) + (other.Elements() - Elements())
    {
      var union := Union(other);
      var inter := Intersection(other);
      result := union.Difference(inter);
    }

    method IsSubset(other: RangeSet) returns (b: bool)
      requires Valid() && other.Valid()
      ensures b <==> Elements() <= other.Elements()
    {
      var diff := Difference(other);
      ghost var a, b' := Elements(), other.Elements();
      assert a <= b' <==> a - b' == {} by {
        if a - b' == {} {
          forall v | v in a ensures v in b' { assert v !in a - b'; }
        }
      }
      b := diff.IsEmpty();
    }

    method IsSuperset(other: RangeSet) returns (b: bool)
      requires Valid() && other.Valid()
      ensures b <==> other.Elements() <= Elements()
    {
      b := other.IsSubset(this);
    }

    /** Range by range comparison decides equality of the sets. */
    method Equal(other: RangeSet) returns (b: bool)
      requires Valid() && other.Valid()
      ensures b <==> Elements() == other.Elements()
    {
      if Elements() == other.Elements() {
        CanonicalUnique(ranges, other.ranges);
      }
      if |ranges| != |other.ranges| {
        return false;
      }
      for i := 0 to |ranges|
        invariant forall k :: 0 <= k < i ==> ranges[k] == other.ranges[k]
      {
        if ranges[i] != other.ranges[i] {
          return false;
        }
      }
      assert ranges == other.ranges;
      return true;
    }
  }

  lemma {:induction false} NotMember(rs: seq<Rang>, v: int)
    requires forall k :: 0 <= k < |rs| ==> !(rs[k].lo <= v <= rs[k].hi)
    ensures v !in Members(rs)
  {
    if rs != [] {
      NotMember(rs[..|rs| - 1], v);
    }
  }

  /** Looking at the next range of a canonical list. */
  lemma ApartStep(a: seq<Rang>, rs: seq<Rang>, i: nat)
    requires Canonical(rs) && i < |rs| && Apart(a, rs[i..])
    ensures Apart(a, [rs[i]]) && Apart(a, rs[i + 1..]) && Apart([rs[i]], rs[i + 1..]) && rs[i].lo <= rs[i].hi
  {
    var rest := rs[i..];
    assert rest[0] == rs[i];
    var rest' := rs[i + 1..];
    forall x, y | 0 <= x < |a| && 0 <= y < |rest'| ensures a[x].hi + 1 < rest'[y].lo {
      assert rest[y + 1] == rest'[y];
    }
  }

  lemma MembersStep(rs: seq<Rang>, i: nat)
    requires i < |rs|
    ensures Members(rs[..i + 1]) == Members(rs[..i]) + Interval(rs[i].lo, rs[i].hi)
  {
    assert rs[..i + 1] == rs[..i] + [rs[i]];
    MembersSnoc(rs[..i], rs[i]);
  }

  lemma ApartPair(a: Rang, b: Rang)
    ensures Apart([a], [b]) <==> a.hi + 1 < b.lo
  {
    assert Apart([a], [b]) ==> [a][0].hi + 1 < [b][0].lo;
  }

  lemma ApartConcat(a: seq<Rang>, b: seq<Rang>, c: seq<Rang>)
    requires Apart(a, c) && Apart(b, c)
    ensures Apart(a + b, c)
  {
  }

  lemma ApartThrough(a: Rang, b: Rang, c: seq<Rang>)
    requires Apart([a], [b]) && b.lo <= b.hi && Apart([b], c)
    ensures Apart([a], c)
  {
    ApartPair(a, b);
    forall j | 0 <= j < |c| ensures a.hi + 1 < c[j].lo {
      assert [b][0].hi + 1 < c[j].lo;
    }
  }

  lemma ApartHull(a: seq<Rang>, x: Rang, r: Rang)
    requires Apart(a, [r])
    ensures Apart(a, [x]) ==> Apart(a, [Hull(x, r)])
  {
    forall i | 0 <= i < |a| && Apart(a, [x]) ensures a[i].hi + 1 < x.lo && a[i].hi + 1 < r.lo {
      assert a[i].hi + 1 < [r][0].lo && a[i].hi + 1 < [x][0].lo;
    }
  }

  lemma MergeAppend(a: seq<Rang>, r: Rang, rs: seq<Rang>, i: nat)
    requires i < |rs| && r == rs[i] && r.lo <= r.hi && Canonical(a)
    requires Apart(a, [r]) && Apart(a, rs[i + 1..]) && Apart([r], rs[i + 1..])
    ensures Canonical(a + [r]) && Apart(a + [r], rs[i + 1..])
    ensures Members(a + [r]) == Members(a) + Interval(r.lo, r.hi)
  {
    CanonicalSnoc(a, r);
    MembersSnoc(a, r);
    ApartConcat(a, [r], rs[i + 1..]);
  }

  // ---------------------------------------------------------------- the merge loop of Add

  /** What holds of the merge loop before it looks at range `i`. */
  ghost predicate Adding(rs: seq<Rang>, i: nat, lo: int, hi: int, merged: seq<Rang>, newR: Rang, inserted: bool)
    requires i <= |rs|
  {
    && Canonical(rs) && Canonical(merged) && newR.lo <= newR.hi
    && Apart(merged, rs[i..])
    && (if inserted then Apart([newR], rs[i..]) else Apart(merged, [newR]))
    && Members(merged) + (if inserted then {} else Interval(newR.lo, newR.hi)) == Members(rs[..i]) + Interval(lo, hi)
  }

  lemma AddStart(rs: seq<Rang>, newR: Rang)
    requires Canonical(rs) && newR.lo <= newR.hi
    ensures Adding(rs, 0, newR.lo, newR.hi, [], newR, false)
  {
  }

  lemma AddBefore(rs: seq<Rang>, i: nat, lo: int, hi: int, merged: seq<Rang>, newR: Rang, inserted: bool)
    requires i < |rs| && Adding(rs, i, lo, hi, merged, newR, inserted) && rs[i].hi < newR.lo - 1
    ensures Adding(rs, i + 1, lo, hi, merged + [rs[i]], newR, inserted)
  {
    hide Members, Canonical, Apart, Interval;
    ApartStep(merged, rs, i);
    MembersStep(rs, i);
    MergeAppend(merged, rs[i], rs, i);
    ApartPair(rs[i], newR);
    if inserted {
      ApartStep([newR], rs, i);
    } else {
      ApartConcat(merged, [rs[i]], [newR]);
    }
  }

  lemma AddAfter(rs: seq<Rang>, i: nat, lo: int, hi: int, merged: seq<Rang>, newR: Rang, inserted: bool)
    requires i < |rs| && Adding(rs, i, lo, hi, merged, newR, inserted) && rs[i].lo > newR.hi + 1
    ensures Adding(rs, i + 1, lo, hi, (if inserted then merged else merged + [newR]) + [rs[i]], newR, true)
  {
    hide Members, Canonical, Apart, Interval;
    var r := rs[i];
    ApartStep(merged, rs, i);
    MembersStep(rs, i);
    ApartPair(newR, r);
    ApartThrough(newR, r, rs[i + 1..]);
    if inserted {
      MergeAppend(merged, r, rs, i);
    } else {
      CanonicalSnoc(merged, newR);
      MembersSnoc(merged, newR);
      ApartConcat(merged, [newR], [r]);
      ApartConcat(merged, [newR], rs[i + 1..]);
      MergeAppend(merged + [newR], r, rs, i);
    }
  }

  function Hull(a: Rang, b: Rang): Rang
  {
    Rang(if b.lo < a.lo then b.lo else a.lo, if b.hi > a.hi then b.hi else a.hi)
  }

  lemma AddMerge(rs: seq<Rang>, i: nat, lo: int, hi: int, merged: seq<Rang>, newR: Rang, inserted: bool)
    requires i < |rs| && Adding(rs, i, lo, hi, merged, newR, inserted)
    requires rs[i].hi >= newR.lo - 1 && rs[i].lo <= newR.hi + 1
    ensures !inserted && Adding(rs, i + 1, lo, hi, merged, Hull(newR, rs[i]), false)
  {
    hide Members, Canonical, Apart, Interval;
    ApartStep(merged, rs, i);
    MembersStep(rs, i);
    IntervalHull(newR, rs[i]);
    ApartHull(merged, newR, rs[i]);
    if inserted {
      ApartStep([newR], rs, i);
      ApartPair(newR, rs[i]);
    }
  }

  lemma AddEnd(rs: seq<Rang>, lo: int, hi: int, merged: seq<Rang>, newR: Rang, inserted: bool)
    requires Adding(rs, |rs|, lo, hi, merged, newR, inserted)
    ensures Canonical(if inserted then merged else merged + [newR])
    ensures Members(if inserted then merged else merged + [newR]) == Members(rs) + Interval(lo, hi)
  {
    assert rs[..|rs|] == rs;
    if !inserted {
      CanonicalSnoc(merged, newR);
      MembersSnoc(merged, newR);
    }
  }

  // ---------------------------------------------------------------- the cut loop of Remove

  /** What is left of a range before and after [lo, hi]. */
  function CutBefore(r: Rang, lo: int): seq<Rang>
  {
    if r.lo < lo then [Rang(r.lo, lo - 1)] else []
  }

  function CutAfter(r: Rang, hi: int): seq<Rang>
  {
    if r.hi > hi then [Rang(hi + 1, r.hi)] else []
  }

  ghost predicate Removing(rs: seq<Rang>, i: nat, lo: int, hi: int, result: seq<Rang>)
    requires i <= |rs|
  {
    && Canonical(rs) && Canonical(result) && Apart(result, rs[i..])
    && Members(result) == Members(rs[..i]) - Interval(lo, hi)
  }

  lemma RemoveStart(rs: seq<Rang>, lo: int, hi: int)
    requires Canonical(rs)
    ensures Removing(rs, 0, lo, hi, [])
  {
  }

  lemma CutIs(r: Rang, lo: int, hi: int)
    requires lo <= hi && r.lo <= r.hi && r.hi >= lo && r.lo <= hi
    ensures var parts := CutBefore(r, lo) + CutAfter(r, hi);
            && Canonical(parts)
            && Members(parts) == Interval(r.lo, r.hi) - Interval(lo, hi)
            && forall k :: 0 <= k < |parts| ==> r.lo <= parts[k].lo && parts[k].hi <= r.hi
  {
    hide Members;
    MembersNone();
    MembersOne(Rang(r.lo, lo - 1));
    MembersOne(Rang(hi + 1, r.hi));
    MembersConcat(CutBefore(r, lo), CutAfter(r, hi));
  }

  lemma MembersOne(r: Rang)
    ensures Members([r]) == Interval(r.lo, r.hi)
  {
    assert [r][..0] == [];
  }

  lemma ApartWithin(a: seq<Rang>, parts: seq<Rang>, r: Rang, rest: seq<Rang>)
    requires forall k :: 0 <= k < |parts| ==> r.lo <= parts[k].lo && parts[k].hi <= r.hi
    requires Apart(a, [r]) && Apart([r], rest)
    ensures Apart(a, parts) && Apart(parts, rest)
  {
    forall i, k | 0 <= i < |a| && 0 <= k < |parts| ensures a[i].hi + 1 < parts[k].lo {
      assert a[i].hi + 1 < [r][0].lo;
    }
    forall k, j | 0 <= k < |parts| && 0 <= j < |rest| ensures parts[k].hi + 1 < rest[j].lo {
      assert [r][0].hi + 1 < rest[j].lo;
    }
  }

  lemma CanonicalConcat(a: seq<Rang>, b: seq<Rang>)
    requires Canonical(a) && Canonical(b) && Apart(a, b)
    ensures Canonical(a + b)
  {
  }

  /** A range that [lo, hi] misses is kept whole. */
  lemma RemoveKeep(rs: seq<Rang>, i: nat, lo: int, hi: int, result: seq<Rang>)
    requires i < |rs| && Removing(rs, i, lo, hi, result)
    requires rs[i].hi < lo || rs[i].lo > hi
    ensures Removing(rs, i + 1, lo, hi, result + [rs[i]])
  {
    hide Members, Canonical, Apart;
    ApartStep(result, rs, i);
    MembersStep(rs, i);
    MergeAppend(result, rs[i], rs, i);
  }

  /** Of a range that [lo, hi] meets, what lies outside is kept. */
  lemma RemoveCut(rs: seq<Rang>, i: nat, lo: int, hi: int, result: seq<Rang>)
    requires i < |rs| && lo <= hi && Removing(rs, i, lo, hi, result)
    requires rs[i].hi >= lo && rs[i].lo <= hi
    ensures Removing(rs, i + 1, lo, hi, result + CutBefore(rs[i], lo) + CutAfter(rs[i], hi))
  {
    hide Members, Canonical, Apart, CutBefore, CutAfter;
    var r := rs[i];
    ApartStep(result, rs, i);
    MembersStep(rs, i);
    var parts := CutBefore(r, lo) + CutAfter(r, hi);
    CutIs(r, lo, hi);
    ApartWithin(result, parts, r, rs[i + 1..]);
    CanonicalConcat(result, parts);
    MembersConcat(result, parts);
    ApartConcat(result, parts, rs[i + 1..]);
    assert result + parts == result + CutBefore(r, lo) + CutAfter(r, hi);
  }

  lemma RemoveEnd(rs: seq<Rang>, lo: int, hi: int, result: seq<Rang>)
    requires Removing(rs, |rs|, lo, hi, result)
    ensures Canonical(result) && Members(result) == Members(rs) - Interval(lo, hi)
  {
    assert rs[..|rs|] == rs;
  }

  /** Two ranges that overlap or touch have their hull as union. */
  lemma IntervalHull(a: Rang, b: Rang)
    requires a.lo <= a.hi && b.lo <= b.hi && b.hi >= a.lo - 1 && b.lo <= a.hi + 1
    ensures Interval(a.lo, a.hi) + Interval(b.lo, b.hi) == Interval(Hull(a, b).lo, Hull(a, b).hi)
  {
  }

  lemma IntervalMeet(a: Rang, b: Rang, lo: int, hi: int)
    requires lo == (if b.lo > a.lo then b.lo else a.lo) && hi == (if b.hi < a.hi then b.hi else a.hi)
    ensures Interval(a.lo, a.hi) * Interval(b.lo, b.hi) == Interval(lo, hi)
    ensures lo > hi ==> Interval(lo, hi) == {}
  {
  }

  lemma MeetStep(base: set<int>, x: set<int>, y: set<int>, z: set<int>)
    ensures base + x * (y + z) == base + x * y + x * z
    ensures base + (y + z) * x == base + y * x + z * x
  {
  }

  lemma BelowNext(rs: seq<Rang>, i: nat)
    requires Canonical(rs) && i < |rs|
    ensures forall v :: v in Members(rs[..i]) ==> v < rs[i].lo
  {
    forall v | v in Members(rs[..i]) ensures v < rs[i].lo {
      var k := MemberAt(rs[..i], v);
      assert rs[..i][k] == rs[k];
    }
  }

  lemma ListingSnoc(s: seq<int>, of: set<int>, v: int)
    requires Listing(s, of) && forall x :: x in of ==> x < v
    ensures Listing(s + [v], of + {v})
  {
    forall i | 0 <= i < |s| ensures s[i] < v {
      assert s[i] in s && s[i] in of;
    }
  }
}
