/** The Cartesian product behind patterns such as rack[1-2]node[1-3]. */
module Cartesian {
  import opened Wrappers
  import opened Arithmetic

  datatype Segment = Literal(text: string) | Bracket(values: seq<string>)

  datatype LimitError = LimitExceeded

  /** The number of combinations. */
  function Count(segs: seq<Segment>): nat
  {
    if segs == [] then 1
    else match segs[0]
      case Literal(_) => Count(segs[1..])
      case Bracket(values) => |values| * Count(segs[1..])
  }

  // ---------------------------------------------------------------- the product, defined without indices

  function Prefixed(head: string, tails: seq<string>): (r: seq<string>)
    ensures |r| == |tails| && forall i :: 0 <= i < |tails| ==> r[i] == head + tails[i]
  {
    seq(|tails|, i requires 0 <= i < |tails| => head + tails[i])
  }

  function Spread(heads: seq<string>, tails: seq<string>): (r: seq<string>)
    ensures |r| == |heads| * |tails|
  {
    if heads == [] then [] else Prefixed(heads[0], tails) + Spread(heads[1..], tails)
  }

  /** All combinations, the choice in an earlier bracket changing more slowly. */
  function Product(segs: seq<Segment>): (r: seq<string>)
    ensures |r| == Count(segs)
  {
    if segs == [] then [""]
    else match segs[0]
      case Literal(text) => Prefixed(text, Product(segs[1..]))
      case Bracket(values) => Spread(values, Product(segs[1..]))
  }

  lemma {:induction false} SpreadAt(heads: seq<string>, tails: seq<string>, i: nat)
    requires i < |heads| * |tails|
    ensures |tails| > 0 && i / |tails| < |heads|
    ensures Spread(heads, tails)[i] == heads[i / |tails|] + tails[i % |tails|]
  {
    var n, c := |heads|, |tails|;
    PositiveFactors(n, c);
    DivBelow(i, n, c);
    if i < c {
      DivModUnique(i, c, 0, i);
    } else {
      DivShift(i - c, 1, c);
      assert (n - 1) * c == n * c - c;
      SpreadAt(heads[1..], tails, i - c);
    }
  }

  // ---------------------------------------------------------------- choices

  /** One index per bracket. */
  ghost predicate IsChoice(segs: seq<Segment>, c: seq<nat>)
  {
    if segs == [] then c == []
    else match segs[0]
      case Literal(_) => IsChoice(segs[1..], c)
      case Bracket(values) => c != [] && c[0] < |values| && IsChoice(segs[1..], c[1..])
  }

  /** The name a choice spells. */
  ghost function Render(segs: seq<Segment>, c: seq<nat>): string
    requires IsChoice(segs, c)
  {
    if segs == [] then ""
    else match segs[0]
      case Literal(text) => text + Render(segs[1..], c)
      case Bracket(values) => values[c[0]] + Render(segs[1..], c[1..])
  }

  /** The choice at an index, by the stride of each bracket. */
  ghost function Choice(segs: seq<Segment>, i: nat): seq<nat>
    requires Count(segs) > 0
  {
    if segs == [] then []
    else match segs[0]
      case Literal(_) => Choice(segs[1..], i)
      case Bracket(values) =>
        PositiveFactors(|values|, Count(segs[1..]));
        [(i / Count(segs[1..])) % |values|] + Choice(segs[1..], i)
  }

  lemma PositiveFactors(n: nat, c: nat)
    requires n * c > 0
    ensures n > 0 && c > 0
  {
    assert n == 0 ==> n * c == 0;
    assert c == 0 ==> n * c == 0;
  }

  /** The index of a choice in mixed radix. */
  ghost function Rank(segs: seq<Segment>, c: seq<nat>): nat
    requires IsChoice(segs, c)
  {
    if segs == [] then 0
    else match segs[0]
      case Literal(_) => Rank(segs[1..], c)
      case Bracket(values) => c[0] * Count(segs[1..]) + Rank(segs[1..], c[1..])
  }

  /** A whole number of cycles later the choice is the same. */
  lemma {:induction false} ChoiceShift(segs: seq<Segment>, i: nat, q: nat)
    requires Count(segs) > 0
    ensures i + q * Count(segs) >= 0 && Choice(segs, i + q * Count(segs)) == Choice(segs, i)
  {
    MulMonotone(Count(segs), 0, q);
    assert Count(segs) * q == q * Count(segs);
    if segs != [] {
      var rest := segs[1..];
      if segs[0].Literal? {
        ChoiceShift(rest, i, q);
      } else {
        var n, c := |segs[0].values|, Count(rest);
        PositiveFactors(n, c);
        assert q * (n * c) == (q * n) * c;
        MulMonotone(n, 0, q);
        assert n * q == q * n;
        DivShift(i, q * n, c);
        DivShift(i / c, q, n);
        ChoiceShift(rest, i, q * n);
      }
    }
  }

  /** Every index below the count is the rank of its choice. */
  lemma {:induction false} RankOfChoice(segs: seq<Segment>, i: nat)
    requires i < Count(segs)
    ensures IsChoice(segs, Choice(segs, i)) && Rank(segs, Choice(segs, i)) == i
  {
    if segs != [] {
      var rest := segs[1..];
      if segs[0].Literal? {
        RankOfChoice(rest, i);
      } else {
        var n, c := |segs[0].values|, Count(rest);
        PositiveFactors(n, c);
        DivBelow(i, n, c);
        DivModUnique(i / c, n, 0, i / c);
        RankOfChoice(rest, i % c);
        ChoiceShift(rest, i % c, i / c);
        var choice := Choice(segs, i);
        assert choice[1..] == Choice(rest, i) == Choice(rest, i % c);
      }
    }
  }

  /** Every choice has a rank below the count, and is the choice at that rank. */
  lemma {:induction false} ChoiceOfRank(segs: seq<Segment>, choice: seq<nat>)
    requires IsChoice(segs, choice)
    ensures Rank(segs, choice) < Count(segs) && Choice(segs, Rank(segs, choice)) == choice
  {
    if segs != [] {
      var rest := segs[1..];
      if segs[0].Literal? {
        ChoiceOfRank(rest, choice);
      } else {
        var n, c := |segs[0].values|, Count(rest);
        ChoiceOfRank(rest, choice[1..]);
        var x, r := choice[0], Rank(rest, choice[1..]);
        DigitBelow(x, r, c, n);
        DigitSplit(x, r, c);
        DivModUnique(x, n, 0, x);
        ChoiceShift(rest, r, x);
        assert [x] + choice[1..] == choice;
      }
    }
  }

  ghost predicate LexLess(a: seq<nat>, b: seq<nat>)
  {
    && a != [] && b != []
    && (a[0] < b[0] || (a[0] == b[0] && LexLess(a[1..], b[1..])))
  }

  /** Indices and choices are in one-to-one, order-preserving correspondence. */
  lemma {:induction false} ChoicesInOrder(segs: seq<Segment>, a: seq<nat>, b: seq<nat>)
    requires IsChoice(segs, a) && IsChoice(segs, b)
    ensures Rank(segs, a) < Rank(segs, b) <==> LexLess(a, b)
  {
    if segs != [] {
      var rest := segs[1..];
      if segs[0].Literal? {
        ChoicesInOrder(rest, a, b);
      } else {
        ChoicesInOrder(rest, a[1..], b[1..]);
        ChoiceOfRank(rest, a[1..]);
        ChoiceOfRank(rest, b[1..]);
        DigitOrder(a[0], Rank(rest, a[1..]), b[0], Rank(rest, b[1..]), Count(rest));
      }
    }
  }

  /** The product lists, at each index, the name its choice spells. */
  lemma {:induction false} ProductAt(segs: seq<Segment>, i: nat)
    requires i < Count(segs)
    ensures IsChoice(segs, Choice(segs, i)) && Product(segs)[i] == Render(segs, Choice(segs, i))
  {
    RankOfChoice(segs, i);
    if segs != [] {
      var rest := segs[1..];
      if segs[0].Literal? {
        ProductAt(rest, i);
      } else {
        var n, c := |segs[0].values|, Count(rest);
        PositiveFactors(n, c);
        DivBelow(i, n, c);
        DivModUnique(i / c, n, 0, i / c);
        SpreadAt(segs[0].values, Product(rest), i);
        ProductAt(rest, i % c);
        ChoiceShift(rest, i % c, i / c);
        var choice := Choice(segs, i);
        assert choice[1..] == Choice(rest, i % c);
      }
    }
  }

  // ---------------------------------------------------------------- the expander

  /** How many segments come before the first bracket without values. */
  function UpToEmpty(segs: seq<Segment>): (n: nat)
    ensures n <= |segs|
  {
    if segs == [] || (segs[0].Bracket? && segs[0].values == []) then 0 else 1 + UpToEmpty(segs[1..])
  }

  /** Strings for all combinations, unless there are more than the limit. */
  ghost function Expanded(segs: seq<Segment>, maxExpand: int): Result<seq<string>, LimitError>
  {
    if maxExpand > 0 && Count(segs[..UpToEmpty(segs)]) > maxExpand then Err(LimitExceeded) else Ok(Product(segs))
  }

  lemma MulAssoc(n: int, x: int, y: int)
    ensures n * (x * y) == (n * x) * y
  {
  }

  lemma {:induction false} CountConcat(a: seq<Segment>, b: seq<Segment>)
    ensures Count(a + b) == Count(a) * Count(b)
  {
    if a == [] {
      assert a + b == b;
    } else {
      assert (a + b)[1..] == a[1..] + b;
      CountConcat(a[1..], b);
      if a[0].Bracket? {
        MulAssoc(|a[0].values|, Count(a[1..]), Count(b));
      }
    }
  }

  lemma CountSnoc(a: seq<Segment>, s: Segment)
    ensures Count(a + [s]) == Count(a) * if s.Bracket? then |s.values| else 1
  {
    CountConcat(a, [s]);
    assert [s][1..] == [];
  }

  lemma {:induction false} UpToEmptyIs(segs: seq<Segment>, i: nat)
    requires i <= |segs|
    requires forall j :: 0 <= j < i ==> !(segs[j].Bracket? && segs[j].values == [])
    ensures UpToEmpty(segs) >= i
    ensures i < |segs| && segs[i].Bracket? && segs[i].values == [] ==> UpToEmpty(segs) == i
    ensures i == |segs| ==> segs[..UpToEmpty(segs)] == segs
  {
    if i > 0 {
      UpToEmptyIs(segs[1..], i - 1);
    }
  }

  /** More factors never make a non-empty product smaller. */
  lemma {:induction false} CountGrows(segs: seq<Segment>, i: nat)
    requires i <= UpToEmpty(segs)
    ensures Count(segs[..i]) <= Count(segs[..UpToEmpty(segs)]) && Count(segs[..i]) > 0
    decreases i
  {
    var n := UpToEmpty(segs);
    var a, b := segs[..i], segs[i..n];
    assert segs[..n] == a + b;
    CountConcat(a, b);
    NoEmptyBefore(segs);
    assert forall j :: 0 <= j < |a| ==> a[j] == segs[j];
    assert forall j :: 0 <= j < |b| ==> b[j] == segs[i + j];
    hide Count, UpToEmpty;
    CountPositive(a);
    CountPositive(b);
    MulMonotone(Count(a), 1, Count(b));
  }

  lemma {:induction false} NoEmptyBefore(segs: seq<Segment>)
    ensures forall j :: 0 <= j < UpToEmpty(segs) ==> !(segs[j].Bracket? && segs[j].values == [])
  {
    if segs != [] {
      NoEmptyBefore(segs[1..]);
      forall j | 0 <= j < UpToEmpty(segs) ensures !(segs[j].Bracket? && segs[j].values == []) {
        if j > 0 {
          assert segs[j] == segs[1..][j - 1];
        }
      }
    }
  }

  lemma {:induction false} CountPositive(segs: seq<Segment>)
    requires forall j :: 0 <= j < |segs| ==> !(segs[j].Bracket? && segs[j].values == [])
    ensures Count(segs) > 0
  {
    if segs != [] {
      CountPositive(segs[1..]);
      if segs[0].Bracket? {
        MulMonotone(Count(segs[1..]), 1, |segs[0].values|);
        assert Count(segs[1..]) * |segs[0].values| == |segs[0].values| * Count(segs[1..]);
      }
    }
  }

  lemma {:induction false} EmptyProduct(segs: seq<Segment>, i: nat)
    requires i < |segs| && segs[i].Bracket? && segs[i].values == []
    ensures Product(segs) == []
  {
    assert segs == segs[..i] + ([segs[i]] + segs[i + 1..]);
    CountConcat(segs[..i], [segs[i]] + segs[i + 1..]);
    assert Count([segs[i]] + segs[i + 1..]) == 0;
  }

  /** The limit test of the loop: division instead of multiplication. */
  lemma DivTest(total: nat, n: nat, max: nat)
    requires n > 0
    ensures total > max / n <==> total * n > max
  {
    var q, r := max / n, max % n;
    assert max == n * q + r;
    if total > q {
      MulMonotone(n, q + 1, total);
      assert n * (q + 1) == n * q + n && n * total == total * n;
    } else {
      MulMonotone(n, total, q);
      assert n * total == total * n;
    }
  }

  /** The number of combinations, found without ever passing the limit. */
  method CheckedTotal(segs: seq<Segment>, maxExpand: int) returns (r: Result<nat, LimitError>)
    ensures r.Err? <==> maxExpand > 0 && Count(segs[..UpToEmpty(segs)]) > maxExpand
    ensures r.Ok? ==> r.value == Count(segs)
  {
    hide Count, UpToEmpty, Product;
    var totalCount: nat := 1;
    CountNone(segs);
    for i := 0 to |segs|
      invariant forall j :: 0 <= j < i ==> !(segs[j].Bracket? && segs[j].values == [])
      invariant totalCount == Count(segs[..i])
      invariant maxExpand > 0 ==> totalCount <= maxExpand
    {
      UpToEmptyIs(segs, i);
      assert segs[..i + 1] == segs[..i] + [segs[i]];
      CountSnoc(segs[..i], segs[i]);
      if segs[i].Bracket? {
        var n := |segs[i].values|;
        if n == 0 {
          EmptyProduct(segs, i);
          return Ok(0);
        }
        UpToEmptyIs(segs, i + 1);
        CountGrows(segs, i + 1);
        if maxExpand > 0 {
          DivTest(totalCount, n, maxExpand);
          if totalCount > maxExpand / n {
            return Err(LimitExceeded);
          }
        }
        totalCount := totalCount * n;
      }
    }
    UpToEmptyIs(segs, |segs|);
    assert segs[..|segs|] == segs;
    r := Ok(totalCount);
  }

  lemma CountNone(segs: seq<Segment>)
    ensures Count(segs[..0]) == 1
  {
  }

  /** Strides: for each segment, the number of combinations of the segments after it. */
  method Strides(segs: seq<Segment>) returns (strides: array<nat>)
    ensures fresh(strides) && strides.Length == |segs|
    ensures forall k :: 0 <= k < |segs| && segs[k].Bracket? ==> strides[k] == Count(segs[k + 1..])
  {
    strides := new nat[|segs|](_ => 0);
    var stride := 1;
    var k := |segs|;
    while k > 0
      invariant 0 <= k <= |segs|
      invariant stride == Count(segs[k..])
      invariant forall j :: k <= j < |segs| && segs[j].Bracket? ==> strides[j] == Count(segs[j + 1..])
    {
      k := k - 1;
      assert segs[k..][0] == segs[k] && segs[k..][1..] == segs[k + 1..];
      if segs[k].Bracket? {
        strides[k] := stride;
        stride := |segs[k].values| * stride;
      }
    }
  }

  /** One name, each bracket read at its stride. */
  method NameAt(segs: seq<Segment>, strides: array<nat>, i: nat) returns (b: string)
    requires i < Count(segs) && strides.Length == |segs|
    requires forall k :: 0 <= k < |segs| && segs[k].Bracket? ==> strides[k] == Count(segs[k + 1..])
    ensures b == Product(segs)[i]
  {
    hide Count, Product, Choice, Render, IsChoice;
    ProductAt(segs, i);
    b := "";
    ghost var whole := Render(segs, Choice(segs, i));
    assert segs[0..] == segs;
    for k := 0 to |segs|
      invariant Count(segs[k..]) > 0 && IsChoice(segs[k..], Choice(segs[k..], i))
      invariant b + Render(segs[k..], Choice(segs[k..], i)) == whole
    {
      RenderStep(segs, k, i);
      if segs[k].Literal? {
        b := b + segs[k].text;
      } else {
        var idx := (i / strides[k]) % |segs[k].values|;
        b := b + segs[k].values[idx];
      }
    }
    RenderEnd(segs, i);
  }

  /** Reading one more segment of a name, at the stride of the segments after it. */
  lemma RenderStep(segs: seq<Segment>, k: nat, i: nat)
    requires k < |segs| && Count(segs[k..]) > 0 && IsChoice(segs[k..], Choice(segs[k..], i))
    ensures Count(segs[k + 1..]) > 0 && IsChoice(segs[k + 1..], Choice(segs[k + 1..], i))
    ensures segs[k].Bracket? ==> |segs[k].values| > 0
    ensures Render(segs[k..], Choice(segs[k..], i)) ==
            (if segs[k].Literal? then segs[k].text
             else segs[k].values[(i / Count(segs[k + 1..])) % |segs[k].values|])
            + Render(segs[k + 1..], Choice(segs[k + 1..], i))
  {
    var here, rest := segs[k..], segs[k + 1..];
    assert here[0] == segs[k] && here[1..] == rest;
    if segs[k].Bracket? {
      PositiveFactors(|segs[k].values|, Count(rest));
      assert Choice(here, i)[1..] == Choice(rest, i);
    }
  }

  lemma RenderEnd(segs: seq<Segment>, i: nat)
    requires Count(segs[|segs|..]) > 0 && IsChoice(segs[|segs|..], Choice(segs[|segs|..], i))
    ensures Render(segs[|segs|..], Choice(segs[|segs|..], i)) == ""
  {
  }

  /** All combinations in order, or an error when there are more than `maxExpand` of them. */
  method CartesianExpand(segs: seq<Segment>, maxExpand: int) returns (r: Result<seq<string>, LimitError>)
    ensures r == Expanded(segs, maxExpand)
  {
    hide Count, UpToEmpty, Product;
    if segs == [] {
      NoSegments();
      UpToEmptyIs(segs, 0);
      if maxExpand > 0 {
        assert segs[..UpToEmpty(segs)] == [];
      }
      return Ok([""]);
    }
    var total := CheckedTotal(segs, maxExpand);
    if total.Err? {
      return Err(LimitExceeded);
    }
    var strides := Strides(segs);
    var results := new string[total.value](_ => "");
    for i := 0 to total.value
      modifies results
      invariant forall k :: 0 <= k < |segs| && segs[k].Bracket? ==> strides[k] == Count(segs[k + 1..])
      invariant forall j :: 0 <= j < i ==> results[j] == Product(segs)[j]
    {
      var name := NameAt(segs, strides, i);
      results[i] := name;
    }
    assert results[..] == Product(segs);
    return Ok(results[..]);
  }

  lemma NoSegments()
    ensures Product([]) == [""] && Count([]) == 1
  {
  }

  /** With no empty bracket and a positive limit, the expander fails exactly when there are too many names. */
  lemma ExpandFailsExactly(segs: seq<Segment>, maxExpand: int)
    requires forall j :: 0 <= j < |segs| ==> !(segs[j].Bracket? && segs[j].values == [])
    requires maxExpand > 0
    ensures Expanded(segs, maxExpand).Err? <==> Count(segs) > maxExpand
  {
    UpToEmptyIs(segs, |segs|);
  }
}
