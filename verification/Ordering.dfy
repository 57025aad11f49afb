/**
 Byte-wise order on strings, and the sorted listings that the `sort` package
 produces.

 `SortBy` is proved to sort for every weak order, as `sort.Slice` needs; which of
 several equivalent elements comes first is left open.
 */
module Ordering {

  /** `a` comes strictly before `b`, comparing byte by byte. */
  predicate Less(a: string, b: string)
  {
    if b == "" then false
    else if a == "" then true
    else if a[0] != b[0] then a[0] < b[0]
    else Less(a[1..], b[1..])
  }

  /** The first byte that differs decides, and a text comes before its continuations. */
  lemma {:induction false} LessIs(common: string, a: char, b: char, x: string, y: string)
    ensures Less(common + [a] + x, common + [b] + y) <==> a < b || (a == b && Less(x, y))
    ensures Less(common, common + [a] + x) && !Less(common + [a] + x, common)
  {
    if common == "" {
      assert (common + [a] + x)[1..] == x && (common + [b] + y)[1..] == y;
    } else {
      var rest := common[1..];
      assert (common + [a] + x)[1..] == rest + [a] + x && (common + [b] + y)[1..] == rest + [b] + y;
      LessIs(rest, a, b, x, y);
    }
  }

  lemma {:induction false} LessIrreflexive(a: string)
    ensures !Less(a, a)
  {
    if a != "" {
      LessIrreflexive(a[1..]);
    }
  }

  lemma {:induction false} LessTransitive(a: string, b: string, c: string)
    requires Less(a, b) && Less(b, c)
    ensures Less(a, c)
  {
    if a != "" && a[0] == b[0] && b[0] == c[0] {
      LessTransitive(a[1..], b[1..], c[1..]);
    }
  }

  lemma {:induction false} LessTotal(a: string, b: string)
    ensures Less(a, b) || a == b || Less(b, a)
  {
    if a != "" && b != "" && a[0] == b[0] {
      LessTotal(a[1..], b[1..]);
      assert a == [a[0]] + a[1..] && b == [b[0]] + b[1..];
    }
  }

  // ---------------------------------------------------------------- sorted listings

  ghost predicate StrictOrder<T(!new)>(less: (T, T) -> bool)
  {
    && (forall a :: !less(a, a))
    && (forall a, b, c :: less(a, b) && less(b, c) ==> less(a, c))
    && (forall a, b :: less(a, b) || a == b || less(b, a))
  }

  /** Some elements may be equivalent: the order `sort.Slice` needs. */
  ghost predicate WeakOrder<T(!new)>(less: (T, T) -> bool)
  {
    && (forall a, b, c :: less(a, b) && !less(c, b) ==> less(a, c))
    && (forall a, b :: less(a, b) ==> !less(b, a))
  }

  lemma StrictIsWeak<T(!new)>(less: (T, T) -> bool)
    requires StrictOrder(less)
    ensures WeakOrder(less)
  {
    forall a, b, c | less(a, b) && !less(c, b) ensures less(a, c) {
      assert less(b, c) || b == c;
    }
    forall a, b | less(a, b) ensures !less(b, a) {
      assert less(b, a) ==> less(a, a);
    }
  }

  lemma LessIsStrictOrder()
    ensures StrictOrder(Less)
  {
    forall a { LessIrreflexive(a); }
    forall a, b, c | Less(a, b) && Less(b, c) ensures Less(a, c) { LessTransitive(a, b, c); }
    forall a, b ensures Less(a, b) || a == b || Less(b, a) { LessTotal(a, b); }
  }

  ghost predicate Sorted<T>(less: (T, T) -> bool, s: seq<T>)
  {
    forall i, j :: 0 <= i < j < |s| ==> !less(s[j], s[i])
  }

  ghost predicate Distinct<T>(s: seq<T>)
  {
    forall i, j :: 0 <= i < j < |s| ==> s[i] != s[j]
  }

  lemma TailMultiset<T>(s: seq<T>)
    requires s != []
    ensures multiset(s[1..]) == multiset(s) - multiset{s[0]}
  {
    assert s == [s[0]] + s[1..];
  }

  lemma HeadIsLeast<T(!new)>(less: (T, T) -> bool, s: seq<T>, x: T)
    requires StrictOrder(less) && Sorted(less, s) && x in multiset(s)
    ensures s != [] && !less(x, s[0])
  {
    var j :| 0 <= j < |s| && s[j] == x;
  }

  /** Two sorted listings of the same elements are the same listing. */
  lemma {:induction false} SortedUnique<T(!new)>(less: (T, T) -> bool, s: seq<T>, t: seq<T>)
    requires StrictOrder(less)
    requires Sorted(less, s) && Sorted(less, t) && multiset(s) == multiset(t)
    ensures s == t
  {
    hide StrictOrder, Sorted;
    assert |multiset(s)| == |s| && |multiset(t)| == |t|;
    if s == [] {
      assert t == [];
    } else {
      SameHead(less, s, t);
      SameTail(s, t);
      SortedTail(less, s);
      SortedTail(less, t);
      SortedUnique(less, s[1..], t[1..]);
      assert s == [s[0]] + s[1..] && t == [t[0]] + t[1..];
    }
  }

  lemma SameHead<T(!new)>(less: (T, T) -> bool, s: seq<T>, t: seq<T>)
    requires StrictOrder(less) && s != [] && t != []
    requires Sorted(less, s) && Sorted(less, t) && multiset(s) == multiset(t)
    ensures s[0] == t[0]
  {
    assert s[0] in multiset(s) && t[0] in multiset(t);
    HeadIsLeast(less, t, s[0]);
    HeadIsLeast(less, s, t[0]);
  }

  lemma SameTail<T>(s: seq<T>, t: seq<T>)
    requires s != [] && t != [] && s[0] == t[0] && multiset(s) == multiset(t)
    ensures multiset(s[1..]) == multiset(t[1..])
  {
    TailMultiset(s);
    TailMultiset(t);
  }

  lemma SortedTail<T>(less: (T, T) -> bool, s: seq<T>)
    requires Sorted(less, s) && s != []
    ensures Sorted(less, s[1..])
  {
  }

  lemma {:induction false} DistinctOnce<T>(s: seq<T>)
    requires Distinct(s)
    ensures forall x :: x in s ==> multiset(s)[x] == 1
  {
    if s != [] {
      var last := |s| - 1;
      assert s == s[..last] + [s[last]];
      DistinctOnce(s[..last]);
      assert s[last] !in s[..last];
      assert multiset(s)[s[last]] == multiset(s[..last])[s[last]] + 1;
    }
  }

  lemma RepeatedTwice<T>(s: seq<T>, i: nat, j: nat)
    requires i < j < |s| && s[i] == s[j]
    ensures multiset(s)[s[i]] >= 2
  {
    assert s == s[..j] + [s[j]] + s[j + 1..];
    assert s[i] in s[..j];
  }

  /** Rearranging a listing without repetitions keeps it so, and keeps its elements. */
  lemma DistinctRearranged<T>(s: seq<T>, t: seq<T>)
    requires Distinct(s) && multiset(s) == multiset(t)
    ensures Distinct(t) && |t| == |s| && forall x :: x in t <==> x in s
  {
    DistinctOnce(s);
    assert |multiset(s)| == |s| && |multiset(t)| == |t|;
    forall x ensures x in t <==> x in s {
      assert x in t <==> x in multiset(t);
      assert x in s <==> x in multiset(s);
    }
    forall i, j | 0 <= i < j < |t| ensures t[i] != t[j] {
      assert t[i] in s && multiset(t)[t[i]] == 1;
      if t[i] == t[j] {
        RepeatedTwice(t, i, j);
      }
    }
  }

  lemma {:induction false} DistinctSize<T>(s: seq<T>, t: set<T>)
    requires Distinct(s) && forall x :: x in s <==> x in t
    ensures |t| == |s|
  {
    if s == [] {
      assert t == {};
    } else {
      var last := |s| - 1;
      assert s == s[..last] + [s[last]];
      DistinctSize(s[..last], t - {s[last]});
    }
  }

  lemma SubsetSize<T>(a: set<T>, b: set<T>)
    requires a <= b
    ensures |a| <= |b|
  {
    assert b == a + (b - a);
  }

  /** `sort.Slice`: a rearrangement of `s` in which nothing comes after something greater. */
  method SortBy<T(!new)>(less: (T, T) -> bool, s: seq<T>) returns (sorted: seq<T>)
    requires WeakOrder(less)
    ensures Sorted(less, sorted) && multiset(sorted) == multiset(s)
  {
    sorted := [];
    for i := 0 to |s|
      invariant Sorted(less, sorted) && multiset(sorted) == multiset(s[..i])
    {
      assert s[..i + 1] == s[..i] + [s[i]];
      sorted := InsertBy(less, sorted, s[i]);
    }
    assert s[..|s|] == s;
  }

  method InsertBy<T(!new)>(less: (T, T) -> bool, s: seq<T>, x: T) returns (r: seq<T>)
    requires WeakOrder(less)
    requires Sorted(less, s)
    ensures Sorted(less, r) && multiset(r) == multiset(s) + multiset{x}
  {
    var j := |s|;
    while j > 0 && less(x, s[j - 1])
      invariant 0 <= j <= |s|
      invariant forall k :: j <= k < |s| ==> less(x, s[k])
    {
      j := j - 1;
    }
    assert s[..j] + s[j..] == s;
    forall k | 0 <= k < j ensures !less(x, s[k]) {
      assert k == j - 1 || !less(s[j - 1], s[k]);
    }
    SpliceSorted(less, s[..j], x, s[j..]);
    r := s[..j] + [x] + s[j..];
  }

  lemma SpliceSorted<T>(less: (T, T) -> bool, a: seq<T>, x: T, b: seq<T>)
    requires Sorted(less, a + b)
    requires forall k :: 0 <= k < |a| ==> !less(x, a[k])
    requires forall k :: 0 <= k < |b| ==> !less(b[k], x)
    ensures Sorted(less, a + [x] + b)
    ensures multiset(a + [x] + b) == multiset(a + b) + multiset{x}
  {
    var s, r := a + b, a + [x] + b;
    forall i, j | 0 <= i < j < |r| ensures !less(r[j], r[i]) {
      assert i < |a| ==> r[i] == s[i];
      assert i > |a| ==> r[i] == s[i - 1];
      assert j < |a| ==> r[j] == s[j];
      assert j > |a| ==> r[j] == s[j - 1];
    }
  }

  /** The elements of a set in whatever order a map yields its keys. */
  method ListOf<T(==)>(s: set<T>) returns (list: seq<T>)
    ensures Distinct(list) && forall x :: x in list <==> x in s
  {
    list := [];
    var todo := s;
    while todo != {}
      invariant todo <= s
      invariant Distinct(list) && forall x :: x in list <==> x in s - todo
    {
      var x :| x in todo;
      assert x !in list;
      list := list + [x];
      todo := todo - {x};
    }
  }

  /** The keys of a map, sorted. */
  method SortedKeys(keys: set<string>) returns (sorted: seq<string>)
    ensures Sorted(Less, sorted) && Distinct(sorted) && forall k :: k in sorted <==> k in keys
  {
    var listed := ListOf(keys);
    LessIsStrictOrder();
    StrictIsWeak(Less);
    sorted := SortBy(Less, listed);
    DistinctRearranged(listed, sorted);
  }
}
