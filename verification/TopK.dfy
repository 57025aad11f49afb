/** A bounded min-heap that keeps the greatest items of a stream. */
module TopKs {
  import opened Ordering

  // ---------------------------------------------------------------- heaps

  function Parent(j: nat): (p: nat)
    ensures if j == 0 then p == 0 else j == 2 * p + 1 || j == 2 * p + 2
  {
    if j == 0 then 0 else (j - 1) / 2
  }

  /** No item is less than its parent, except possibly where the parent or the item is at `hole`. */
  ghost predicate HeapBut<T>(less: (T, T) -> bool, s: seq<T>, up: int, down: int)
  {
    forall j :: 0 < j < |s| && j != up && Parent(j) != down ==> !less(s[j], s[Parent(j)])
  }

  ghost predicate Heap<T>(less: (T, T) -> bool, s: seq<T>)
  {
    forall j :: 0 < j < |s| ==> !less(s[j], s[Parent(j)])
  }

  /** Items below position `i` are not less than the item above it. */
  ghost predicate Bridged<T>(less: (T, T) -> bool, s: seq<T>, i: nat)
    requires i < |s|
  {
    forall c :: 0 < c < |s| && Parent(c) == i ==> !less(s[c], s[Parent(i)])
  }

  lemma NotAbove<T(!new)>(less: (T, T) -> bool, a: T, b: T, c: T)
    requires WeakOrder(less) && !less(b, a) && !less(c, b)
    ensures !less(c, a)
  {
  }

  /** The root is a least item. */
  lemma {:induction false} RootIsLeast<T(!new)>(less: (T, T) -> bool, s: seq<T>, j: nat)
    requires WeakOrder(less) && Heap(less, s) && j < |s|
    ensures !less(s[j], s[0])
    decreases j
  {
    if j > 0 {
      RootIsLeast(less, s, Parent(j));
      NotAbove(less, s[0], s[Parent(j)], s[j]);
    }
  }

  function Swapped<T>(s: seq<T>, i: nat, j: nat): (r: seq<T>)
    requires i < |s| && j < |s|
    ensures |r| == |s| && multiset(r) == multiset(s)
    ensures r[i] == s[j] && r[j] == s[i] && forall k :: 0 <= k < |s| && k != i && k != j ==> r[k] == s[k]
  {
    var r := s[i := s[j]][j := s[i]];
    assert multiset(r) == multiset(s);
    r
  }

  /** Moves an item up past every parent it is less than. */
  method SiftUp<T(!new)>(less: (T, T) -> bool, s: seq<T>, at: nat) returns (r: seq<T>)
    requires WeakOrder(less) && at < |s|
    requires HeapBut(less, s, at, -1) && (at > 0 ==> Bridged(less, s, at))
    ensures Heap(less, r) && multiset(r) == multiset(s)
  {
    hide Bridged, WeakOrder;
    r := s;
    var j: nat := at;
    while true
      invariant j < |r| && multiset(r) == multiset(s) && |r| == |s|
      invariant HeapBut(less, r, j, -1) && (j > 0 ==> Bridged(less, r, j))
      decreases j
    {
      var i := Parent(j);
      if i == j || !less(r[j], r[i]) {
        break;
      }
      UpStep(less, r, j);
      r := Swapped(r, i, j);
      j := i;
    }
  }

  lemma UpStep<T(!new)>(less: (T, T) -> bool, s: seq<T>, j: nat)
    requires WeakOrder(less) && 0 < j < |s|
    requires HeapBut(less, s, j, -1) && Bridged(less, s, j) && less(s[j], s[Parent(j)])
    ensures var r := Swapped(s, Parent(j), j);
            HeapBut(less, r, Parent(j), -1) && (Parent(j) > 0 ==> Bridged(less, r, Parent(j)))
  {
    var i := Parent(j);
    var r := Swapped(s, i, j);
    forall c | 0 < c < |r| && c != i ensures !less(r[c], r[Parent(c)]) {
      if c != j && Parent(c) == i {
        NotAbove(less, s[j], s[i], s[c]);
      }
    }
    if i > 0 {
      forall c | 0 < c < |r| && Parent(c) == i ensures !less(r[c], r[Parent(i)]) {
        if c != j {
          NotAbove(less, s[Parent(i)], s[i], s[c]);
        }
      }
    }
  }

  /** Moves an item down past the lesser child while that child is less. */
  method SiftDown<T(!new)>(less: (T, T) -> bool, s: seq<T>, at: nat) returns (r: seq<T>, moved: bool)
    requires WeakOrder(less) && at < |s|
    requires HeapBut(less, s, -1, at) && (at > 0 ==> Bridged(less, s, at))
    ensures multiset(r) == multiset(s)
    ensures Heap(less, r)
  {
    hide HeapBut, Heap, Bridged, WeakOrder;
    r := s;
    var i: nat := at;
    while true
      invariant i < |r| && multiset(r) == multiset(s) && |r| == |s|
      invariant HeapBut(less, r, -1, i) && (i > 0 ==> Bridged(less, r, i))
      decreases |r| - i
    {
      if 2 * i + 1 >= |r| {
        NoChildren(less, r, i);
        break;
      }
      var j := ChooseChild(less, r, i);
      if !less(r[j], r[i]) {
        DownEnds(less, r, i, j);
        break;
      }
      DownStep(less, r, i, j);
      r := Swapped(r, i, j);
      i := j;
    }
    moved := i > at;
  }

  ghost predicate LesserChild<T>(less: (T, T) -> bool, s: seq<T>, i: nat, j: nat)
  {
    0 < j < |s| && Parent(j) == i && forall c :: 0 < c < |s| && Parent(c) == i ==> !less(s[c], s[j])
  }

  method ChooseChild<T(!new)>(less: (T, T) -> bool, s: seq<T>, i: nat) returns (j: nat)
    requires WeakOrder(less) && 2 * i + 1 < |s|
    ensures LesserChild(less, s, i, j)
  {
    j := 2 * i + 1;
    if j + 1 < |s| && less(s[j + 1], s[j]) {
      j := j + 1;
    }
    assert forall c :: 0 < c < |s| && Parent(c) == i ==> c == 2 * i + 1 || c == 2 * i + 2;
  }

  lemma NoChildren<T(!new)>(less: (T, T) -> bool, s: seq<T>, i: nat)
    requires HeapBut(less, s, -1, i) && 2 * i + 1 >= |s|
    ensures Heap(less, s)
  {
  }

  lemma DownEnds<T(!new)>(less: (T, T) -> bool, s: seq<T>, i: nat, j: nat)
    requires WeakOrder(less) && i < |s| && HeapBut(less, s, -1, i)
    requires LesserChild(less, s, i, j) && !less(s[j], s[i])
    ensures Heap(less, s)
  {
    forall c | 0 < c < |s| ensures !less(s[c], s[Parent(c)]) {
      if Parent(c) == i {
        NotAbove(less, s[i], s[j], s[c]);
      }
    }
  }

  lemma DownStep<T(!new)>(less: (T, T) -> bool, s: seq<T>, i: nat, j: nat)
    requires WeakOrder(less) && i < |s| && HeapBut(less, s, -1, i) && (i > 0 ==> Bridged(less, s, i))
    requires LesserChild(less, s, i, j) && less(s[j], s[i])
    ensures var r := Swapped(s, i, j); HeapBut(less, r, -1, j) && Bridged(less, r, j)
  {
    var r := Swapped(s, i, j);
    forall c | 0 < c < |r| && Parent(c) != j ensures !less(r[c], r[Parent(c)]) {
    }
    forall c | 0 < c < |r| && Parent(c) == j ensures !less(r[c], r[Parent(j)]) {
    }
  }

  // ---------------------------------------------------------------- what is kept

  /** `kept` and `dropped` share out the stream, and nothing dropped is greater than anything kept. */
  ghost predicate Splits<T(!new)>(less: (T, T) -> bool, k: nat, stream: seq<T>, kept: multiset<T>, dropped: multiset<T>)
  {
    && multiset(stream) == kept + dropped
    && |kept| == (if |stream| < k then |stream| else k)
    && forall x, d :: x in kept && d in dropped ==> !less(x, d)
  }

  lemma SplitKeep<T(!new)>(less: (T, T) -> bool, k: nat, stream: seq<T>, item: T, kept: multiset<T>, dropped: multiset<T>)
    requires Splits(less, k, stream, kept, dropped) && |kept| < k
    ensures dropped == multiset{}
    ensures Splits(less, k, stream + [item], kept + multiset{item}, dropped)
  {
    assert |multiset(stream)| == |stream| == |kept| + |dropped|;
  }

  lemma SplitReplace<T(!new)>(less: (T, T) -> bool, k: nat, stream: seq<T>, item: T,
                              kept: multiset<T>, least: T, dropped: multiset<T>)
    requires WeakOrder(less) && Splits(less, k, stream, kept, dropped) && |kept| >= k
    requires least in kept && (forall x :: x in kept ==> !less(x, least)) && less(least, item)
    ensures Splits(less, k, stream + [item], kept - multiset{least} + multiset{item}, dropped + multiset{least})
  {
    var kept', dropped' := kept - multiset{least} + multiset{item}, dropped + multiset{least};
    assert kept + dropped + multiset{item} == kept' + dropped';
    assert |multiset(stream)| == |stream| == |kept| + |dropped|;
    forall x, d | x in kept' && d in dropped' ensures !less(x, d) {
      if x == item && d in dropped {
        assert !less(least, d);
      }
    }
  }

  lemma SplitDrop<T(!new)>(less: (T, T) -> bool, k: nat, stream: seq<T>, item: T,
                           kept: multiset<T>, least: T, dropped: multiset<T>)
    requires WeakOrder(less) && Splits(less, k, stream, kept, dropped) && |kept| >= k
    requires least in kept && (forall x :: x in kept ==> !less(x, least)) && !less(least, item)
    ensures Splits(less, k, stream + [item], kept, dropped + multiset{item})
  {
    assert |multiset(stream)| == |stream| == |kept| + |dropped|;
    forall x | x in kept ensures !less(x, item) {
      NotAbove(less, item, least, x);
    }
  }

  // ---------------------------------------------------------------- results

  ghost predicate Descending<T>(less: (T, T) -> bool, s: seq<T>)
  {
    forall i, j :: 0 <= i < j < |s| ==> !less(s[i], s[j])
  }

  /** The first `i` items are in place: no later item is greater than any of them. */
  ghost predicate DescendingTo<T>(less: (T, T) -> bool, s: seq<T>, i: nat)
  {
    forall a, b :: 0 <= a < i && a < b < |s| ==> !less(s[a], s[b])
  }

  ghost predicate GreatestOf<T>(less: (T, T) -> bool, s: seq<T>, i: nat, j: nat)
  {
    forall b :: i < b < j && b < |s| && i < |s| ==> !less(s[i], s[b])
  }

  lemma ExchangeStep<T(!new)>(less: (T, T) -> bool, s: seq<T>, i: nat, j: nat)
    requires WeakOrder(less) && i < j < |s| && less(s[i], s[j])
    requires DescendingTo(less, s, i) && GreatestOf(less, s, i, j)
    ensures DescendingTo(less, Swapped(s, i, j), i) && GreatestOf(less, Swapped(s, i, j), i, j + 1)
  {
  }

  /** The result is, up to ties, what sorting the whole stream and cutting it off would give. */
  ghost predicate IsTop<T(!new)>(less: (T, T) -> bool, k: nat, stream: seq<T>, out: seq<T>)
  {
    && |out| == (if |stream| < k then |stream| else k)
    && forall all :: multiset(all) == multiset(stream) && Descending(less, all) ==> Ties(less, out, all)
  }

  ghost predicate Ties<T>(less: (T, T) -> bool, out: seq<T>, all: seq<T>)
  {
    |out| <= |all| && forall i :: 0 <= i < |out| ==> !less(out[i], all[i]) && !less(all[i], out[i])
  }

  /** How many items are greater than `x`. */
  function Above<T>(less: (T, T) -> bool, s: seq<T>, x: T): (n: nat)
    ensures n <= |s|
  {
    if s == [] then 0
    else Above(less, s[..|s| - 1], x) + if less(x, s[|s| - 1]) then 1 else 0
  }

  lemma {:induction false} AboveConcat<T>(less: (T, T) -> bool, a: seq<T>, b: seq<T>, x: T)
    ensures Above(less, a + b, x) == Above(less, a, x) + Above(less, b, x)
  {
    if b == [] {
      assert a + b == a;
    } else {
      assert (a + b)[..|a + b| - 1] == a + b[..|b| - 1];
      AboveConcat(less, a, b[..|b| - 1], x);
    }
  }

  lemma {:induction false} AboveAll<T>(less: (T, T) -> bool, s: seq<T>, x: T)
    requires forall i :: 0 <= i < |s| ==> less(x, s[i])
    ensures Above(less, s, x) == |s|
  {
    if s != [] {
      AboveAll(less, s[..|s| - 1], x);
    }
  }

  lemma {:induction false} AboveNone<T>(less: (T, T) -> bool, s: seq<T>, x: T)
    requires forall i :: 0 <= i < |s| ==> !less(x, s[i])
    ensures Above(less, s, x) == 0
  {
    if s != [] {
      AboveNone(less, s[..|s| - 1], x);
    }
  }

  lemma AboveOne<T>(less: (T, T) -> bool, y: T, x: T)
    ensures Above(less, [y], x) == if less(x, y) then 1 else 0
  {
    assert [y][..0] == [];
  }

  lemma AboveMiddle<T>(less: (T, T) -> bool, a: seq<T>, y: T, b: seq<T>, x: T)
    ensures Above(less, a + [y] + b, x) == Above(less, a + b, x) + if less(x, y) then 1 else 0
  {
    hide Above;
    AboveConcat(less, a + [y], b, x);
    AboveConcat(less, a, [y], x);
    AboveConcat(less, a, b, x);
    AboveOne(less, y, x);
  }

  /** Taking one item out changes the count by that item alone. */
  lemma AboveWithout<T>(less: (T, T) -> bool, s: seq<T>, j: nat, x: T)
    requires j < |s|
    ensures Above(less, s, x) == Above(less, s[..j] + s[j + 1..], x) + if less(x, s[j]) then 1 else 0
  {
    hide Above;
    var a, b := s[..j], s[j + 1..];
    Sliced(s, j, a, b);
    AboveMiddle(less, a, s[j], b, x);
  }

  lemma Sliced<T>(s: seq<T>, j: nat, a: seq<T>, b: seq<T>)
    requires j < |s| && a == s[..j] && b == s[j + 1..]
    ensures a + [s[j]] + b == s
  {
  }

  lemma MultisetWithout<T>(s: seq<T>, j: nat)
    requires j < |s|
    ensures multiset(s[..j] + s[j + 1..]) == multiset(s) - multiset{s[j]}
  {
    assert s == s[..j] + [s[j]] + s[j + 1..];
  }

  lemma {:induction false} AboveRearranged<T>(less: (T, T) -> bool, s: seq<T>, t: seq<T>, x: T)
    requires multiset(s) == multiset(t)
    ensures Above(less, s, x) == Above(less, t, x)
    decreases |s|
  {
    hide Above;
    assert |multiset(s)| == |s| && |multiset(t)| == |t|;
    if s == [] {
      assert t == s;
    } else {
      var last := |s| - 1;
      assert s[last] in multiset(t);
      var j :| 0 <= j < |t| && t[j] == s[last];
      assert s[..last] + s[last + 1..] == s[..last];
      MultisetWithout(s, last);
      MultisetWithout(t, j);
      AboveRearranged(less, s[..last], t[..j] + t[j + 1..], x);
      AboveWithout(less, s, last, x);
      AboveWithout(less, t, j, x);
    }
  }

  lemma {:induction false} ListMultiset<T>(m: multiset<T>) returns (s: seq<T>)
    ensures multiset(s) == m
    decreases |m|
  {
    if m == multiset{} {
      s := [];
    } else {
      var x :| x in m;
      var rest := ListMultiset(m - multiset{x});
      s := rest + [x];
    }
  }

  /** In a descending list, the items greater than the one at `i` stand before it. */
  lemma AboveInDescending<T>(less: (T, T) -> bool, s: seq<T>, i: nat)
    requires Descending(less, s) && i < |s|
    requires forall x :: !less(x, x)
    ensures Above(less, s, s[i]) <= i
  {
    assert s == s[..i] + s[i..];
    AboveConcat(less, s[..i], s[i..], s[i]);
    AboveNone(less, s[i..], s[i]);
  }

  /** If the item at `i` of a descending list beats `x`, so do all items before it. */
  lemma AboveThrough<T(!new)>(less: (T, T) -> bool, s: seq<T>, i: nat, x: T)
    requires WeakOrder(less) && Descending(less, s) && i < |s| && less(x, s[i])
    ensures Above(less, s, x) >= i + 1
  {
    assert s == s[..i + 1] + s[i + 1..];
    AboveConcat(less, s[..i + 1], s[i + 1..], x);
    AboveAll(less, s[..i + 1], x);
  }

  lemma KeptIsTop<T(!new)>(less: (T, T) -> bool, k: nat, stream: seq<T>, out: seq<T>, dropped: multiset<T>)
    requires WeakOrder(less) && Descending(less, out) && Splits(less, k, stream, multiset(out), dropped)
    ensures IsTop(less, k, stream, out)
  {
    var rest := ListMultiset(dropped);
    assert |multiset(out)| == |out| && |multiset(stream)| == |stream|;
    forall all | multiset(all) == multiset(stream) && Descending(less, all) ensures Ties(less, out, all) {
      assert |multiset(all)| == |all| && multiset(out + rest) == multiset(all);
      assert |multiset(out + rest)| == |out + rest|;
      forall i | 0 <= i < |out| ensures !less(out[i], all[i]) && !less(all[i], out[i]) {
        TieAt(less, out, rest, all, i);
      }
    }
  }

  lemma TieAt<T(!new)>(less: (T, T) -> bool, out: seq<T>, rest: seq<T>, all: seq<T>, i: nat)
    requires WeakOrder(less) && Descending(less, out) && Descending(less, all)
    requires multiset(out + rest) == multiset(all) && i < |out| && i < |all|
    requires forall x, d :: x in multiset(out) && d in multiset(rest) ==> !less(x, d)
    ensures !less(out[i], all[i]) && !less(all[i], out[i])
  {
    assert forall x :: !less(x, x);
    if less(out[i], all[i]) {
      AboveThrough(less, all, i, out[i]);
      AboveRearranged(less, out + rest, all, out[i]);
      AboveConcat(less, out, rest, out[i]);
      AboveInDescending(less, out, i);
      forall j | 0 <= j < |rest| ensures !less(out[i], rest[j]) {
        assert out[i] in multiset(out) && rest[j] in multiset(rest);
      }
      AboveNone(less, rest, out[i]);
      assert false;
    }
    if less(all[i], out[i]) {
      AboveThrough(less, out, i, all[i]);
      AboveRearranged(less, out + rest, all, all[i]);
      AboveConcat(less, out, rest, all[i]);
      AboveInDescending(less, all, i);
      assert false;
    }
  }

  // ---------------------------------------------------------------- the reducer

  class TopK<T(!new)> {
    const k: int
    const less: (T, T) -> bool
    var items: seq<T>
    ghost var stream: seq<T>
    ghost var dropped: multiset<T>

    ghost predicate Valid()
      reads this
    {
      WeakOrder(less) && Heap(less, items) && Splits(less, Capacity(), stream, multiset(items), dropped)
    }

    /** How many items are kept; nothing when `k` is not positive. */
    function Capacity(): nat
    {
      if k > 0 then k else 0
    }

    constructor (k: int, less: (T, T) -> bool)
      requires WeakOrder(less)
      ensures Valid() && stream == [] && this.k == k && this.less == less
    {
      this.k, this.less := k, less;
      items, stream, dropped := [], [], multiset{};
    }

    /**
     Takes one item of the stream in. With a `k` that is not positive there is no
     least item to compare with, and the source's index into the empty heap panics.
     */
    method Push(item: T) returns (panicked: bool)
      requires Valid()
      modifies this
      ensures Valid()
      ensures panicked <==> k <= 0
      ensures if panicked then stream == old(stream) && items == old(items) else stream == old(stream) + [item]
    {
      hide HeapBut, WeakOrder;
      KeptSize(less, Capacity(), stream, items, dropped);
      panicked := false;
      if |items| < k {
        hide Splits;
        SplitKeep(less, k, stream, item, multiset(items), dropped);
        assert multiset(items + [item]) == multiset(items) + multiset{item};
        AppendedLeaf(less, items, item);
        stream := stream + [item];
        items := SiftUp(less, items + [item], |items|);
        return;
      }
      if |items| == 0 {
        return true;
      }
      hide Splits, Heap;
      PushFull(item);
    }

    /** Takes an item in when as many are kept as may be: the least one goes, be it the new one. */
    method PushFull(item: T)
      requires Valid() && k > 0 && |items| >= k
      modifies this
      ensures Valid() && stream == old(stream) + [item]
    {
      hide HeapBut, Splits, WeakOrder;
      assert |multiset(items)| == |items|;
      RootOfAll(less, items);
      stream := stream + [item];
      if less(items[0], item) {
        SplitReplace(less, k, old(stream), item, multiset(items), items[0], dropped);
        dropped := dropped + multiset{items[0]};
        var r := items[0 := item];
        assert multiset(r) == multiset(items) - multiset{items[0]} + multiset{item};
        ReplacedRoot(less, items, item);
        items := Fix(less, r, 0);
      } else {
        SplitDrop(less, k, old(stream), item, multiset(items), items[0], dropped);
        dropped := dropped + multiset{item};
      }
    }

    /** The kept items, greatest first. */
    method Results() returns (out: seq<T>)
      requires Valid()
      ensures multiset(out) == multiset(items) && Descending(less, out)
      ensures IsTop(less, Capacity(), stream, out)
      ensures forall i, j :: 0 <= i < j < |out| ==> !less(out[i], out[j])
      ensures |out| == if k <= 0 then 0 else if |stream| < k then |stream| else k
      ensures multiset(stream) == multiset(out) + dropped && forall x, d :: x in out && d in dropped ==> !less(x, d)
    {
      hide Splits, Heap, WeakOrder, IsTop;
      out := items;
      var n := |out|;
      for i := 0 to n
        invariant |out| == n && multiset(out) == multiset(items)
        invariant DescendingTo(less, out, i)
      {
        for j := i + 1 to n
          invariant |out| == n && multiset(out) == multiset(items)
          invariant DescendingTo(less, out, i) && GreatestOf(less, out, i, j)
        {
          if less(out[i], out[j]) {
            ExchangeStep(less, out, i, j);
            out := Swapped(out, i, j);
          }
        }
      }
      KeptIsTop(less, Capacity(), stream, out, dropped);
      SplitIs(less, Capacity(), stream, out, dropped);
    }
  }

  lemma SplitIs<T(!new)>(less: (T, T) -> bool, capacity: nat, stream: seq<T>, items: seq<T>, dropped: multiset<T>)
    requires Splits(less, capacity, stream, multiset(items), dropped)
    ensures |items| == (if |stream| < capacity then |stream| else capacity) && multiset(stream) == multiset(items) + dropped
    ensures forall x, d :: x in items && d in dropped ==> !less(x, d)
  {
    assert |multiset(items)| == |items|;
    forall x, d | x in items && d in dropped ensures !less(x, d) {
      assert x in multiset(items);
    }
  }

  lemma KeptSize<T(!new)>(less: (T, T) -> bool, capacity: nat, stream: seq<T>, items: seq<T>, dropped: multiset<T>)
    requires Splits(less, capacity, stream, multiset(items), dropped)
    ensures |items| <= capacity
  {
    assert |multiset(items)| == |items|;
  }

  lemma AppendedLeaf<T(!new)>(less: (T, T) -> bool, s: seq<T>, x: T)
    requires Heap(less, s)
    ensures HeapBut(less, s + [x], |s|, -1) && (|s| > 0 ==> Bridged(less, s + [x], |s|))
  {
  }

  lemma RootOfAll<T(!new)>(less: (T, T) -> bool, s: seq<T>)
    requires WeakOrder(less) && Heap(less, s) && s != []
    ensures s[0] in multiset(s) && forall x :: x in multiset(s) ==> !less(x, s[0])
  {
    forall x | x in multiset(s) ensures !less(x, s[0]) {
      var j :| 0 <= j < |s| && s[j] == x;
      RootIsLeast(less, s, j);
    }
  }

  /** container/heap.Fix: restores the heap after the item at `at` was replaced. */
  method Fix<T(!new)>(less: (T, T) -> bool, s: seq<T>, at: nat) returns (r: seq<T>)
    requires WeakOrder(less) && at < |s| && HeapBut(less, s, -1, at) && (at > 0 ==> Bridged(less, s, at))
    ensures Heap(less, r) && multiset(r) == multiset(s)
  {
    var moved: bool;
    r, moved := SiftDown(less, s, at);
    if !moved {
      assert |multiset(r)| == |r| && |multiset(s)| == |s|;
      HeapBridges(less, r, at);
      r := SiftUp(less, r, at);
    }
  }

  lemma HeapBridges<T(!new)>(less: (T, T) -> bool, s: seq<T>, i: nat)
    requires WeakOrder(less) && Heap(less, s) && i < |s|
    ensures HeapBut(less, s, i, -1) && (i > 0 ==> Bridged(less, s, i))
  {
    forall c | 0 < c < |s| && Parent(c) == i && i > 0 ensures !less(s[c], s[Parent(i)]) {
      NotAbove(less, s[Parent(i)], s[i], s[c]);
    }
  }

  lemma ReplacedRoot<T(!new)>(less: (T, T) -> bool, s: seq<T>, x: T)
    requires WeakOrder(less) && Heap(less, s) && s != []
    ensures HeapBut(less, s[0 := x], -1, 0)
  {
  }
}
