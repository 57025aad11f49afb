/** Names on which the matcher and expansion disagree, and a pattern it gets right by luck. */
module MatchExamples {
  import opened Wrappers
  import opened Text
  import opened RangeSets
  import Brackets
  import opened BracketFold
  import opened Patterns
  import opened Matching

  // ---------------------------------------------------------------- patterns with one range in each bracket

  /** The numbers from `lo` to `hi`, without padding. */
  function Range(lo: nat, hi: nat): Brackets.Bracket
  {
    Brackets.Bracket(Brackets.Steps(lo, hi, 1), 0)
  }

  function OneBracket(key: string, lo: nat, hi: nat, tail: string): string
  {
    key + ['['] + (FormatRange(Rang(lo, hi), 0) + [']'] + tail)
  }

  lemma RangeParses(lo: nat, hi: nat)
    requires lo <= hi
    ensures Brackets.ParseBracket(FormatRange(Rang(lo, hi), 0)) == Ok(Range(lo, hi))
    ensures '[' !in FormatRange(Rang(lo, hi), 0) && ']' !in FormatRange(Rang(lo, hi), 0)
  {
    hide Brackets.ParsePart, Brackets.ParseBracket, Format;
    ParseRangeText(Rang(lo, hi), 0);
    ParseOnePart(FormatRange(Rang(lo, hi), 0), Brackets.Span(lo, hi, 1, 0));
    FormatText(lo, 0);
    FormatText(hi, 0);
    NoChar(Format(lo, 0), '[');
    NoChar(Format(hi, 0), '[');
    NoChar(Format(lo, 0), ']');
    NoChar(Format(hi, 0), ']');
  }

  lemma OneBracketParts(key: string, lo: nat, hi: nat, tail: string)
    requires '[' !in key && lo <= hi
    ensures var p := OneBracket(key, lo, hi, tail);
            HasBracket(p) && Lit(p) == key && Rest(p) == tail && First(p) == Ok(Range(lo, hi))
  {
    hide Brackets.ParseBracket, IndexOf, FormatRange;
    var text, p := FormatRange(Rang(lo, hi), 0), OneBracket(key, lo, hi, tail);
    RangeParses(lo, hi);
    IndexAfter(key, '[', text + [']'] + tail);
    var inner := p[|key|..];
    assert inner == (['['] + text) + [']'] + tail;
    IndexAfter(['['] + text, ']', tail);
    assert p[..|key|] == key && p[|key| + 1..|key| + 1 + |text|] == text && p[|key| + 2 + |text|..] == tail;
  }

  /** A number prints as in plain decimal, is accepted so, and also with a zero in front. */
  lemma InRange(lo: nat, hi: nat, v: nat)
    requires lo <= v <= hi
    ensures Prints(Range(lo, hi), Itoa(v)) && Accepts(Range(lo, hi), Itoa(v))
    ensures Accepts(Range(lo, hi), "0" + Itoa(v)) && !Prints(Range(lo, hi), "0" + Itoa(v))
  {
    ItoaVal(v);
    PlainDecimal(v);
    hide Format, Itoa;
    ZeroInFront(Range(lo, hi), Itoa(v));
  }

  lemma PlainDecimal(v: nat)
    ensures Format(v, 0) == Itoa(v)
  {
    assert Zeros(0) == "";
  }

  lemma PrintedInRange(lo: nat, hi: nat, num: string) returns (v: nat)
    requires Prints(Range(lo, hi), num)
    ensures lo <= v <= hi && num == Itoa(v)
  {
    hide Format, Itoa;
    var w :| w in Range(lo, hi).values && num == Format(w, 0);
    v := w;
    PlainDecimal(v);
  }

  lemma OneBracketSpelled(key: string, lo: nat, hi: nat, tail: string, num: string)
    requires '[' !in key && '[' !in tail && lo <= hi
    ensures var p := OneBracket(key, lo, hi, tail);
            WellFormed(p) && SpellOut(p, [num]) == key + num + tail
            && (AllPrinted(p, [num]) <==> Prints(Range(lo, hi), num))
  {
    hide IndexOf, Next, First, Prints, OneBracket;
    OneBracketParts(key, lo, hi, tail);
    assert [num][1..] == [];
  }

  // ---------------------------------------------------------------- names that the matcher gets wrong

  /** A tail that repeats the number is found inside it. */
  lemma RepeatedNumber(key: string, lo: nat, hi: nat, v: nat)
    requires '[' !in key && lo <= v <= hi
    ensures InExpansion(OneBracket(key, lo, hi, Itoa(v)), key + Itoa(v) + Itoa(v))
    ensures MatchFrom(OneBracket(key, lo, hi, Itoa(v)), key + Itoa(v) + Itoa(v)) == Ok(false)
  {
    hide IndexOf, Next, First, Prints, MatchFrom, SpellOut, InExpansion, AllPrinted, WellFormed, OneBracket, Range, Itoa;
    var num := Itoa(v);
    var p, h := OneBracket(key, lo, hi, num), key + num + num;
    NoChar(num, '[');
    InRange(lo, hi, v);
    OneBracketSpelled(key, lo, hi, num, num);
    ExpansionIf(p, [num]);
    OneBracketParts(key, lo, hi, num);
    MatchBracket(p, h);
    var h1 := h[|key|..];
    assert h1 == num + num && num <= h1;
    assert Lit(num) == num;
    assert h1[..0] == "";
  }

  /** A zero in front of the number makes another name. */
  lemma ZeroAccepted(key: string, lo: nat, hi: nat, v: nat)
    requires '[' !in key && lo <= v <= hi
    ensures MatchFrom(OneBracket(key, lo, hi, ""), key + ("0" + Itoa(v))) == Ok(true)
    ensures !InExpansion(OneBracket(key, lo, hi, ""), key + ("0" + Itoa(v)))
  {
    hide IndexOf, Next, First, Prints, Accepts, MatchFrom, SpellOut, InExpansion, AllPrinted, WellFormed, OneBracket, Itoa;
    var p, num := OneBracket(key, lo, hi, ""), "0" + Itoa(v);
    var h := key + num;
    InRange(lo, hi, v);
    OneBracketParts(key, lo, hi, "");
    MatchBracket(p, h);
    assert h[|key|..] == num;
    OneBracketSpelled(key, lo, hi, "", num);
    if InExpansion(p, h) {
      var nums := ExpansionOnlyIf(p, h);
      OnlyNumber(p, nums);
      OneBracketSpelled(key, lo, hi, "", nums[0]);
      SameNumberBehind(key, nums[0], num);
    }
  }

  lemma SameNumberBehind(key: string, a: string, b: string)
    ensures key + a + "" == key + b ==> a == b
  {
    assert (key + a + "")[|key|..] == a && (key + b)[|key|..] == b;
  }

  lemma OnlyNumber(p: string, nums: seq<string>)
    requires HasBracket(p) && Rest(p) == "" && WellFormed(p) && AllPrinted(p, nums)
    ensures nums == [nums[0]]
  {
    hide First, Next, Prints;
  }

  lemma SmallNumbers()
    ensures Itoa(1) == "1" && Itoa(2) == "2" && Itoa(3) == "3" && Itoa(5) == "5" && Itoa(6) == "6" && Itoa(10) == "10"
  {
    assert Itoa(10) == Itoa(1) + [DigitChar(0)];
  }

  lemma RangeText(lo: nat, hi: nat)
    ensures FormatRange(Rang(lo, hi), 0) == if lo == hi then Itoa(lo) else Itoa(lo) + "-" + Itoa(hi)
  {
    PlainDecimal(lo);
    PlainDecimal(hi);
  }

  /** The pattern n[1-2]2 expands to n22 and rejects it. */
  lemma RejectsExpanded()
    ensures InExpansion("n[1-2]2", "n22") && MatchFrom("n[1-2]2", "n22") == Ok(false)
  {
    hide MatchFrom, InExpansion, Itoa, FormatRange;
    RepeatedNumber("n", 1, 2, 2);
    SmallNumbers();
    RangeText(1, 2);
    assert OneBracket("n", 1, 2, "2") == "n[1-2]2" && "n" + "2" + "2" == "n22";
  }

  /** The pattern n[1-3] accepts n01, which it does not expand to. */
  lemma AcceptsUnexpanded()
    ensures MatchFrom("n[1-3]", "n01") == Ok(true) && !InExpansion("n[1-3]", "n01")
  {
    hide MatchFrom, InExpansion, Itoa, FormatRange;
    ZeroAccepted("n", 1, 3, 1);
    SmallNumbers();
    RangeText(1, 3);
    assert OneBracket("n", 1, 3, "") == "n[1-3]" && "n" + ("0" + "1") == "n01";
  }

  // ---------------------------------------------------------------- digits between brackets

  /** [1-10]0[5]: in 1005 the ten is read as one, its zero as the separator, and the other zero as a leading one. */
  function TwoBrackets(): string
  {
    OneBracket("", 1, 10, OneBracket("0", 5, 5, ""))
  }

  lemma TwoBracketParts()
    ensures var p, q := TwoBrackets(), OneBracket("0", 5, 5, "");
            && HasBracket(p) && Lit(p) == "" && Rest(p) == q && First(p) == Ok(Range(1, 10))
            && HasBracket(q) && Lit(q) == "0" && Rest(q) == "" && First(q) == Ok(Range(5, 5)) && q != ""
            && WellFormed(p) && WellFormed(q) && !HasBracket("")
  {
    hide IndexOf, Next, First, OneBracket;
    OneBracketParts("", 1, 10, OneBracket("0", 5, 5, ""));
    OneBracketParts("0", 5, 5, "");
    NoBracketLeft();
  }

  lemma NoBracketLeft()
    ensures !HasBracket("")
  {
  }

  /** The zero is found right after one digit that is none. */
  lemma ZeroBehind(c: char)
    requires c != '0'
    ensures Found([c], "0")
    ensures forall t :: Find([c] + ("0" + t), "0") == 1
  {
    forall t ensures Find([c] + ("0" + t), "0") == 1 {
      var s := [c] + ("0" + t);
      assert s[0] == c && s[1..] == "0" + t && "0" <= s[1..];
      assert Find(s[1..], "0") == 0;
    }
    assert "0" + "" == "0";
  }

  lemma OneFigure(v: nat)
    requires 1 <= v <= 9
    ensures |Itoa(v)| == 1 && Itoa(v)[0] != '0'
  {
    ItoaVal(v);
  }

  lemma BehindBoth(a: string, b: string)
    ensures "" + (a + ("0" + (b + ""))) == a + "0" + b
  {
  }

  /** Reading one number of the first bracket, and what follows the zero for the second. */
  lemma ReadTwo(c: char, rest: string)
    requires c != '0' && Accepts(Range(1, 10), [c]) && Accepts(Range(5, 5), rest)
    ensures MatchFrom(TwoBrackets(), [c] + ("0" + rest)) == Ok(true)
  {
    hide IndexOf, Next, First, OneBracket, TwoBrackets, MatchFrom, Accepts, Find;
    TwoBracketParts();
    var q, h := OneBracket("0", 5, 5, ""), [c] + ("0" + rest);
    MatchBracket(TwoBrackets(), h);
    ZeroBehind(c);
    assert h[0..] == h && h[..1] == [c] && h[1..] == "0" + rest;
    MatchBracket(q, "0" + rest);
    assert ("0" + rest)[1..] == rest && "0" <= "0" + rest;
  }

  lemma TwoSpelled(name: string) returns (v: nat)
    requires InExpansion(TwoBrackets(), name)
    ensures 1 <= v <= 10 && name == Itoa(v) + "0" + Itoa(5)
  {
    hide IndexOf, Next, First, OneBracket, TwoBrackets, Prints, InExpansion, Itoa, Range;
    TwoBracketParts();
    var q := OneBracket("0", 5, 5, "");
    var nums := ExpansionOnlyIf(TwoBrackets(), name);
    SpellStep(TwoBrackets(), nums);
    SpellStep(q, nums[1..]);
    v := PrintedInRange(1, 10, nums[0]);
    var w := PrintedInRange(5, 5, nums[1]);
    BehindBoth(nums[0], nums[1]);
  }

  lemma AcceptsByLuck(name: string)
    requires InExpansion(TwoBrackets(), name)
    ensures MatchFrom(TwoBrackets(), name) == Ok(true)
  {
    hide MatchFrom, InExpansion, TwoBrackets, Itoa, Accepts, Range;
    var v := TwoSpelled(name);
    InRange(5, 5, 5);
    SmallNumbers();
    if v < 10 {
      InRange(1, 10, v);
      OneFigure(v);
      assert Itoa(v) == [Itoa(v)[0]];
      ReadTwo(Itoa(v)[0], "5");
      assert Itoa(v) + "0" + "5" == Itoa(v) + ("0" + "5");
    } else {
      InRange(1, 10, 1);
      assert "1" == ['1'] && "0" + "5" == "05";
      ReadTwo('1', "05");
      assert "10" + "0" + "5" == ['1'] + ("0" + "05");
    }
  }

  /**
   That every value is found whole is enough, but not needed, where brackets are
   separated by digits alone: [1-10]0[5] accepts all its names, 1005 among them,
   although the zero is found inside the ten.
   */
  lemma FitsNotNeeded()
    ensures TwoBrackets() == "[1-10]0[5]" && WellFormed("[1-10]0[5]")
    ensures NoEmptyBracket("[1-10]0[5]") && !Fits("[1-10]0[5]")
    ensures forall name :: InExpansion("[1-10]0[5]", name) ==> MatchFrom("[1-10]0[5]", name) == Ok(true)
  {
    hide IndexOf, Next, First, OneBracket, TwoBrackets, MatchFrom, InExpansion, Find, Itoa;
    TwoBracketParts();
    TwoBracketText();
    var p := TwoBrackets();
    assert 1 in Range(1, 10).values && 5 in Range(5, 5).values && 10 in Range(1, 10).values;
    SmallNumbers();
    PlainDecimal(10);
    ZeroInside();
    assert !FitsHere(p, 10);
    forall name | InExpansion(p, name) ensures MatchFrom(p, name) == Ok(true) {
      AcceptsByLuck(name);
    }
  }

  lemma ZeroInside()
    ensures !Found("10", "0")
  {
    ZeroBehind('1');
    assert "10" + "0" == ['1'] + ("0" + "0");
  }

  lemma TwoBracketText()
    ensures TwoBrackets() == "[1-10]0[5]"
  {
    hide Itoa, FormatRange;
    SmallNumbers();
    RangeText(1, 10);
    RangeText(5, 5);
  }
}
