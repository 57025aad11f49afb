/** Folding a range set into bracket text, and reading that text back. */
module BracketFold {
  import opened Wrappers
  import opened Arithmetic
  import opened Text
  import opened RangeSets
  import opened Listings
  import opened Brackets

  // ---------------------------------------------------------------- the folded text

  function FormatRange(r: Rang, padding: int): string
  {
    if r.lo == r.hi then Format(r.lo, padding) else Format(r.lo, padding) + "-" + Format(r.hi, padding)
  }

  function RangeTexts(rs: seq<Rang>, padding: int): (texts: seq<string>)
    ensures |texts| == |rs|
  {
    if rs == [] then [] else RangeTexts(rs[..|rs| - 1], padding) + [FormatRange(rs[|rs| - 1], padding)]
  }

  /** Every value is the one before plus `step`. */
  ghost predicate Progression(values: seq<int>, step: int)
  {
    forall i, j :: 0 <= i && j == i + 1 && j < |values| ==> values[j] - values[i] == step
  }

  /** The common step of a listing: 1 for fewer than two values, 0 if there is none. */
  ghost predicate IsStep(values: seq<int>, step: int)
  {
    if |values| < 2 then step == 1
    else (step > 0 && Progression(values, step)) || (step == 0 && forall s :: s > 0 ==> !Progression(values, s))
  }

  method DetectStep(values: seq<int>) returns (step: int)
    ensures IsStep(values, step)
  {
    if |values| < 2 {
      return 1;
    }
    step := values[1] - values[0];
    assert forall s :: Progression(values, s) ==> s == step;
    if step <= 0 {
      return 0;
    }
    for i := 2 to |values|
      invariant forall a, b :: 0 <= a && b == a + 1 && b < i ==> values[b] - values[a] == step
    {
      if values[i] - values[i - 1] != step {
        ghost var a := i - 1;
        assert values[i] - values[a] != step;
        return 0;
      }
    }
  }

  lemma StepUnique(values: seq<int>, s: int, t: int)
    requires IsStep(values, s) && IsStep(values, t)
    ensures s == t
  {
    if |values| >= 2 {
      assert Progression(values, s) ==> values[1] - values[0] == s;
      assert Progression(values, t) ==> values[1] - values[0] == t;
    }
  }

  /** The folded text of a set of ranges: one value, a stepped span, or a list of ranges. */
  ghost predicate IsFolded(text: string, rs: seq<Rang>, padding: int)
  {
    var values := SortedInts(Members(rs));
    if rs == [] then text == ""
    else if |values| == 1 then text == Format(values[0], padding)
    else exists step :: IsStep(values, step) && text == FoldedWith(values, rs, padding, step)
  }

  ghost function FoldedWith(values: seq<int>, rs: seq<Rang>, padding: int, step: int): string
  {
    if step > 1 && values != []
    then Format(values[0], padding) + "-" + Format(values[|values| - 1], padding) + "/" + Format(step, 0)
    else Join(RangeTexts(rs, padding), ',')
  }

  /** The compact text of a range set. */
  method Fold(rs: RangeSet) returns (text: string)
    requires rs.Valid()
    ensures IsFolded(text, rs.ranges, rs.padding)
  {
    hide Members, Canonical, Format, Join, RangeTexts, IsStep;
    if |rs.ranges| == 0 {
      return "";
    }
    var values := rs.Expand();
    ListingUnique(values, SortedInts(Members(rs.ranges)), Members(rs.ranges));
    NonEmptyListing(rs.ranges, values);
    if |values| == 1 {
      return Format(values[0], rs.padding);
    }
    var step := DetectStep(values);
    if step > 0 {
      if step == 1 {
        text := FoldRanges(rs);
        return;
      }
      return Format(values[0], rs.padding) + "-" + Format(values[|values| - 1], rs.padding) + "/" + Format(step, 0);
    }
    text := FoldRanges(rs);
  }

  lemma NonEmptyListing(rs: seq<Rang>, values: seq<int>)
    requires Canonical(rs) && rs != [] && Listing(values, Members(rs))
    ensures values != []
  {
    AtMember(rs, rs[0].lo, 0);
    assert rs[0].lo in values;
  }

  /** The ranges of a set, without looking for a step. */
  method FoldRanges(rs: RangeSet) returns (text: string)
    ensures text == Join(RangeTexts(rs.ranges, rs.padding), ',')
  {
    var parts := [];
    for i := 0 to |rs.ranges|
      invariant parts == RangeTexts(rs.ranges[..i], rs.padding)
    {
      var r := rs.ranges[i];
      assert rs.ranges[..i + 1][..i] == rs.ranges[..i];
      if r.lo == r.hi {
        parts := parts + [Format(r.lo, rs.padding)];
      } else {
        parts := parts + [Format(r.lo, rs.padding) + "-" + Format(r.hi, rs.padding)];
      }
    }
    assert rs.ranges[..|rs.ranges|] == rs.ranges;
    text := Join(parts, ',');
  }

  // ---------------------------------------------------------------- reading numbers back

  /** The padding the parser sees on a number printed at width `padding`. */
  function PadSeen(v: nat, padding: int): int
  {
    if |Itoa(v)| < padding then padding else 0
  }

  lemma NoChar(s: string, c: char)
    requires AllDigits(s) && !IsDigit(c)
    ensures c !in s
  {
  }

  lemma PadOfNumber(v: nat, padding: int)
    ensures DetectPadding(Format(v, padding)) == PadSeen(v, padding)
  {
    ItoaVal(v);
    FormatIs(v, padding);
  }

  lemma FormatText(v: nat, padding: int)
    ensures AllDigits(Format(v, padding)) && Format(v, padding) != "" && Atoi(Format(v, padding)) == Some(v)
    ensures '-' !in Format(v, padding) && '/' !in Format(v, padding) && ',' !in Format(v, padding)
  {
    FormatIs(v, padding);
    NoChar(Format(v, padding), '-');
    NoChar(Format(v, padding), '/');
    NoChar(Format(v, padding), ',');
  }

  lemma ParseNumber(v: nat, padding: int)
    ensures ParsePart(Format(v, padding)) == Ok(Span(v, v, 1, PadSeen(v, padding)))
  {
    var s := Format(v, padding);
    FormatText(v, padding);
    PadOfNumber(v, padding);
    hide Format, Atoi, IndexOf, TrimSpace, DetectPadding, PadSeen;
    NotSpace(s);
    TrimNothing(s);
    assert IndexOf(s, '/') < 0 && IndexOf(s, '-') < 0 by {
      IndexAbsent(s, '/');
      IndexAbsent(s, '-');
    }
  }

  lemma IndexAbsent(s: string, c: char)
    requires c !in s
    ensures IndexOf(s, c) == -1
  {
  }

  lemma NotSpace(s: string)
    requires s != "" && IsDigit(s[0]) && IsDigit(s[|s| - 1])
    ensures !IsSpace(s[0]) && !IsSpace(s[|s| - 1])
  {
  }

  lemma ParseRange(lo: nat, hi: nat, padding: int)
    requires lo <= hi
    ensures ParsePart(Format(lo, padding) + "-" + Format(hi, padding)) == Ok(Span(lo, hi, 1, PadSeen(lo, padding)))
  {
    var a, b := Format(lo, padding), Format(hi, padding);
    var s := a + "-" + b;
    FormatText(lo, padding);
    FormatText(hi, padding);
    PadOfNumber(lo, padding);
    hide Format, Atoi, IndexOf, TrimSpace, DetectPadding, PadSeen;
    assert s[0] == a[0] && s[|s| - 1] == b[|b| - 1];
    NotSpace(s);
    TrimNothing(s);
    IndexAbsent(s, '/');
    IndexAfter(a, '-', b);
    assert s[..|a|] == a && s[|a| + 1..] == b;
  }

  lemma ParseStepped(lo: nat, hi: nat, step: nat, padding: int)
    requires lo <= hi && step > 0
    ensures ParsePart(Format(lo, padding) + "-" + Format(hi, padding) + "/" + Format(step, 0)) ==
            Ok(Span(lo, hi, step, PadSeen(lo, padding)))
  {
    var a, b, c := Format(lo, padding), Format(hi, padding), Format(step, 0);
    var body := a + "-" + b;
    var s := body + "/" + c;
    FormatText(lo, padding);
    FormatText(hi, padding);
    FormatText(step, 0);
    PadOfNumber(lo, padding);
    hide Format, Atoi, IndexOf, TrimSpace, DetectPadding, PadSeen;
    assert s[0] == a[0] && s[|s| - 1] == c[|c| - 1];
    NotSpace(s);
    TrimNothing(s);
    IndexAfter(body, '/', c);
    assert s[..|body|] == body && s[|body| + 1..] == c;
    IndexAfter(a, '-', b);
    assert body[..|a|] == a && body[|a| + 1..] == b;
  }

  // ---------------------------------------------------------------- reading lists of ranges back

  ghost predicate NonNegative(rs: seq<Rang>)
  {
    forall i :: 0 <= i < |rs| ==> rs[i].lo >= 0
  }

  lemma CanonicalNonNegative(rs: seq<Rang>)
    requires Canonical(rs) && rs != [] && rs[0].lo >= 0
    ensures NonNegative(rs)
    ensures forall v :: v in Members(rs) ==> v >= rs[0].lo
  {
    forall v | v in Members(rs) ensures v >= rs[0].lo {
      var i := MemberAt(rs, v);
    }
  }

  lemma ParseRangeText(r: Rang, padding: int)
    requires 0 <= r.lo <= r.hi
    ensures ParsePart(FormatRange(r, padding)) == Ok(Span(r.lo, r.hi, 1, PadSeen(r.lo, padding)))
    ensures FormatRange(r, padding) != "" && ',' !in FormatRange(r, padding)
  {
    FormatText(r.lo, padding);
    FormatText(r.hi, padding);
    if r.lo == r.hi {
      ParseNumber(r.lo, padding);
    } else {
      ParseRange(r.lo, r.hi, padding);
    }
  }

  lemma {:induction false} ParseRangeTexts(rs: seq<Rang>, padding: int)
    requires Canonical(rs) && NonNegative(rs)
    ensures ParseParts(RangeTexts(rs, padding)) == Ok(Bracket(Members(rs), LeadPad(rs, padding)))
  {
    if rs == [] {
      NothingParsed(padding);
    } else {
      hide Canonical, RangeTexts, Members, ParseParts, LeadPad;
      var front, r := rs[..|rs| - 1], rs[|rs| - 1];
      assert rs == front + [r];
      CanonicalFront(rs);
      ParseRangeTexts(front, padding);
      ParseOneMore(front, r, padding);
    }
  }

  /** The padding shown by the first range. */
  function LeadPad(rs: seq<Rang>, padding: int): int
    requires NonNegative(rs)
  {
    if rs == [] then 0 else PadSeen(rs[0].lo, padding)
  }

  lemma ParseOneMore(front: seq<Rang>, r: Rang, padding: int)
    requires NonNegative(front + [r]) && NonNegative(front) && r.lo <= r.hi && (front + [r])[0].lo <= r.lo
    requires ParseParts(RangeTexts(front, padding)) == Ok(Bracket(Members(front), LeadPad(front, padding)))
    ensures ParseParts(RangeTexts(front + [r], padding)) ==
            Ok(Bracket(Members(front + [r]), LeadPad(front + [r], padding)))
  {
    hide ParsePart, FormatRange, PadSeen, Steps, RangeTexts, Members, ParseParts, Max, Interval;
    assert (front + [r])[|front|] == r;
    ParseRangeText(r, padding);
    RangeTextsSnoc(front, r, padding);
    ParsePartsSnoc(RangeTexts(front, padding), FormatRange(r, padding));
    StepsByOne(r.lo, r.hi);
    MembersSnoc(front, r);
    var least := (front + [r])[0].lo;
    PadNonNegative(least, padding);
    LeastPads(least, r.lo, padding);
    MaxZero(PadSeen(least, padding));
  }

  lemma NothingParsed(padding: int)
    ensures ParseParts(RangeTexts([], padding)) == Ok(Bracket(Members([]), 0))
  {
    assert Members([]) == {};
  }

  lemma MaxZero(a: nat)
    ensures Max(0, a) == a
  {
  }

  lemma RangeTextsSnoc(front: seq<Rang>, r: Rang, padding: int)
    ensures RangeTexts(front + [r], padding) == RangeTexts(front, padding) + [FormatRange(r, padding)]
  {
  }

  lemma ParsePartsSnoc(front: seq<string>, text: string)
    requires ParseParts(front).Ok? && ParsePart(text).Ok?
    requires ParsePart(text).value.Span? ==> ParsePart(text).value.step > 0
    ensures var b, p := ParseParts(front).value, ParsePart(text).value;
            ParseParts(front + [text]) == Ok(Bracket(b.values + PartValues(p), Max(b.padding, PartPad(p))))
  {
    hide ParsePart, PartValues, PartPad, Max;
    assert (front + [text])[..|front|] == front;
  }

  /** The least value shows the padding if any value does. */
  lemma LeastPads(least: nat, v: nat, padding: int)
    requires least <= v
    ensures Max(PadSeen(least, padding), PadSeen(v, padding)) == PadSeen(least, padding)
  {
    ItoaLonger(least, v);
  }

  lemma {:induction false} RangeTextsClean(rs: seq<Rang>, padding: int)
    requires Canonical(rs) && NonNegative(rs)
    ensures forall i :: 0 <= i < |rs| ==> RangeTexts(rs, padding)[i] != "" && ',' !in RangeTexts(rs, padding)[i]
  {
    if rs != [] {
      hide FormatRange;
      RangeTextsClean(rs[..|rs| - 1], padding);
      ParseRangeText(rs[|rs| - 1], padding);
    }
  }

  lemma CanonicalFront(rs: seq<Rang>)
    requires Canonical(rs) && rs != []
    ensures Canonical(rs[..|rs| - 1]) && rs[|rs| - 1].lo <= rs[|rs| - 1].hi && rs[0].lo <= rs[|rs| - 1].lo
  {
  }

  lemma {:induction false} JoinNotEmpty(parts: seq<string>, sep: char)
    requires parts != [] && parts[0] != ""
    ensures Join(parts, sep) != ""
  {
  }

  lemma ParseJoined(rs: seq<Rang>, padding: int)
    requires Canonical(rs) && rs != [] && rs[0].lo >= 0
    ensures ParseBracket(Join(RangeTexts(rs, padding), ',')) == Ok(Bracket(Members(rs), PadSeen(rs[0].lo, padding)))
  {
    CanonicalNonNegative(rs);
    ParseRangeTexts(rs, padding);
    RangeTextsClean(rs, padding);
    SplitJoin(RangeTexts(rs, padding), ',');
    JoinNotEmpty(RangeTexts(rs, padding), ',');
  }

  lemma ParseOnePart(text: string, p: Part)
    requires text != "" && ',' !in text && ParsePart(text) == Ok(p) && p.Span? && p.step > 0 && p.pad >= 0
    ensures ParseBracket(text) == Ok(Bracket(PartValues(p), p.pad))
  {
    assert Join([text], ',') == text;
    SplitJoin([text], ',');
    assert [text][..0] == [];
    assert ParseParts([]) == Ok(Bracket({}, 0));
    assert {} + PartValues(p) == PartValues(p);
  }

  // ---------------------------------------------------------------- reading stepped spans back

  lemma {:induction false} ProgressionAt(values: seq<int>, step: int, i: nat)
    requires Progression(values, step) && i < |values|
    ensures values[i] == values[0] + i * step
  {
    if i > 0 {
      var j := i - 1;
      ProgressionAt(values, step, j);
      assert values[i] - values[j] == step;
      assert (j + 1) * step == j * step + step;
    }
  }

  /** The values of an increasing progression are the stepped span from its first to its last value. */
  lemma ProgressionIsSteps(values: seq<int>, of: set<int>, step: int)
    requires Listing(values, of) && |values| >= 1 && step > 0 && Progression(values, step)
    ensures of == Steps(values[0], values[|values| - 1], step)
  {
    hide Listing, Progression, Steps;
    forall v | v in of ensures v in Steps(values[0], values[|values| - 1], step) {
      ListedIsStep(values, of, step, v);
    }
    forall v | v in Steps(values[0], values[|values| - 1], step) ensures v in of {
      StepIsListed(values, of, step, v);
    }
  }

  lemma ListedIsStep(values: seq<int>, of: set<int>, step: int, v: int)
    requires Listing(values, of) && values != [] && step > 0 && Progression(values, step) && v in of
    ensures v in Steps(values[0], values[|values| - 1], step)
  {
    assert v in values;
    var i :| 0 <= i < |values| && values[i] == v;
    ProgressionAt(values, step, i);
    DivModUnique(v - values[0], step, i, 0);
    assert values[0] <= v <= values[|values| - 1];
  }

  lemma StepIsListed(values: seq<int>, of: set<int>, step: int, v: int)
    requires Listing(values, of) && values != [] && step > 0 && Progression(values, step)
    requires v in Steps(values[0], values[|values| - 1], step)
    ensures v in of
  {
    var q := (v - values[0]) / step;
    assert v - values[0] == q * step;
    ProgressionAt(values, step, |values| - 1);
    StepBound(q, |values| - 1, step);
    ProgressionAt(values, step, q);
    assert values[q] == v && values[q] in values;
  }

  // ---------------------------------------------------------------- the round trip

  /** Printing at the padding seen on the least value is printing at the padding asked for. */
  lemma FormatSame(v: nat, least: nat, padding: int)
    requires least <= v
    ensures Format(v, PadSeen(least, padding)) == Format(v, padding)
  {
    ItoaLonger(least, v);
  }

  /** What reading a folded text gives back. */
  ghost predicate ReadsBack(text: string, rs: seq<Rang>, padding: int)
  {
    var r := ParseBracket(text);
    && r.Ok?
    && r.value.values == Members(rs)
    && forall v :: v in Members(rs) ==> Format(v, r.value.padding) == Format(v, padding)
  }

  /**
   Parsing the folded text of a non-empty canonical range set of non-negative
   integers gives the same integers, and a padding under which each of them is
   printed as it was under the original padding.
   */
  lemma BracketRoundTrip(text: string, rs: seq<Rang>, padding: int)
    requires Canonical(rs) && rs != [] && rs[0].lo >= 0 && IsFolded(text, rs, padding)
    ensures ReadsBack(text, rs, padding)
  {
    CanonicalNonNegative(rs);
    AtMember(rs, rs[0].lo, 0);
    var values := SortedInts(Members(rs));
    assert rs[0].lo in values;
    FirstIsLeast(values, Members(rs), rs[0].lo);
    FoldedParse(text, rs, padding, values);
    forall v | v in Members(rs) ensures Format(v, PadSeen(rs[0].lo, padding)) == Format(v, padding) {
      FormatSame(v, rs[0].lo, padding);
    }
  }

  lemma FirstIsLeast(values: seq<int>, of: set<int>, least: int)
    requires Listing(values, of) && least in of && forall v :: v in of ==> least <= v
    ensures values != [] && values[0] == least
    ensures forall i :: 0 <= i < |values| ==> values[i] >= least
  {
    assert least in values;
    var i :| 0 <= i < |values| && values[i] == least;
    assert values[0] in of;
    forall i | 0 <= i < |values| ensures values[i] >= least {
      assert values[i] in of;
    }
  }

  lemma FoldedParse(text: string, rs: seq<Rang>, padding: int, values: seq<int>)
    requires Canonical(rs) && rs != [] && rs[0].lo >= 0 && IsFolded(text, rs, padding)
    requires values == SortedInts(Members(rs)) && values != [] && values[0] == rs[0].lo
    requires forall i :: 0 <= i < |values| ==> values[i] >= rs[0].lo
    ensures ParseBracket(text) == Ok(Bracket(Members(rs), PadSeen(rs[0].lo, padding)))
  {
    hide Members, Canonical, Format, PadSeen, Steps, ParsePart, RangeTexts;
    if |values| == 1 {
      ParseNumber(values[0], padding);
      FormatText(values[0], padding);
      PadNonNegative(values[0], padding);
      ParseOnePart(text, Span(values[0], values[0], 1, PadSeen(values[0], padding)));
      StepsOne(values[0]);
      OneValue(values, Members(rs));
    } else {
      var step :| IsStep(values, step) && text == FoldedWith(values, rs, padding, step);
      if step > 1 {
        var lo, hi := values[0], values[|values| - 1];
        ParseStepped(lo, hi, step, padding);
        FormatText(lo, padding);
        FormatText(hi, padding);
        FormatText(step, 0);
        PadNonNegative(lo, padding);
        ParseOnePart(text, Span(lo, hi, step, PadSeen(lo, padding)));
        ProgressionIsSteps(values, Members(rs), step);
      } else {
        ParseJoined(rs, padding);
      }
    }
  }

  lemma PadNonNegative(v: nat, padding: int)
    ensures PadSeen(v, padding) >= 0
  {
  }

  lemma OneValue(values: seq<int>, of: set<int>)
    requires Listing(values, of) && |values| == 1
    ensures of == Interval(values[0], values[0])
  {
    forall v | v in of ensures v == values[0] {
      assert v in values;
    }
    assert values[0] in values && values[0] in of;
  }

  // ---------------------------------------------------------------- expanding to strings

  function FormatAll(values: seq<int>, padding: int): (texts: seq<string>)
    ensures |texts| == |values| && forall i :: 0 <= i < |values| ==> texts[i] == Format(values[i], padding)
  {
    seq(|values|, i requires 0 <= i < |values| => Format(values[i], padding))
  }

  /** All integers of the set as text, at the padding of the set. */
  method ExpandStrings(rs: RangeSet) returns (texts: seq<string>)
    requires rs.Valid()
    ensures texts == FormatAll(SortedInts(rs.Elements()), rs.padding)
  {
    hide Format, Listing, RangeSet.Valid, Members;
    var ints := rs.Expand();
    ListingUnique(ints, SortedInts(rs.Elements()), rs.Elements());
    texts := [];
    for i := 0 to |ints|
      invariant texts == FormatAll(ints[..i], rs.padding)
    {
      texts := texts + [Format(ints[i], rs.padding)];
    }
    assert ints[..|ints|] == ints;
  }

  /** The parser run on the folder's output prints what the set itself prints. */
  lemma FoldedTextExpands(text: string, rs: seq<Rang>, padding: int)
    requires Canonical(rs) && rs != [] && rs[0].lo >= 0 && IsFolded(text, rs, padding)
    ensures ParseBracket(text).Ok?
    ensures var b := ParseBracket(text).value;
            FormatAll(SortedInts(b.values), b.padding) == FormatAll(SortedInts(Members(rs)), padding)
  {
    BracketRoundTrip(text, rs, padding);
    var b := ParseBracket(text).value;
    var values := SortedInts(Members(rs));
    forall i | 0 <= i < |values| ensures Format(values[i], b.padding) == Format(values[i], padding) {
      assert values[i] in Members(rs);
    }
  }

  // ---------------------------------------------------------------- exactly when the stepped form is used

  /** Two or more values, each `step` after the one before. */
  ghost predicate Spaced(values: seq<int>, step: int)
  {
    |values| >= 2 && forall i, j :: 0 <= i && j == i + 1 && j < |values| ==> values[j] == values[i] + step
  }

  /** A single number stands for itself, and a longer range for its ends with a dash between them. */
  lemma {:induction false} RangeTextIs(rs: seq<Rang>, padding: int, i: nat)
    requires i < |rs|
    ensures rs[i].lo == rs[i].hi ==> RangeTexts(rs, padding)[i] == Format(rs[i].lo, padding)
    ensures rs[i].lo != rs[i].hi ==>
              RangeTexts(rs, padding)[i] == Format(rs[i].lo, padding) + "-" + Format(rs[i].hi, padding)
  {
    hide Format;
    if i < |rs| - 1 {
      RangeTextIs(rs[..|rs| - 1], padding, i);
    }
  }

  lemma {:induction false} JoinNoSlash(parts: seq<string>)
    requires forall i :: 0 <= i < |parts| ==> '/' !in parts[i]
    ensures '/' !in Join(parts, ',')
  {
    if |parts| > 1 {
      JoinNoSlash(parts[1..]);
    }
  }

  lemma RangesNoSlash(rs: seq<Rang>, padding: int)
    requires Canonical(rs) && NonNegative(rs)
    ensures '/' !in Join(RangeTexts(rs, padding), ',')
  {
    hide Format, RangeTexts, Join, Canonical;
    forall i | 0 <= i < |rs| ensures '/' !in RangeTexts(rs, padding)[i] {
      RangeTextIs(rs, padding, i);
      RangeEnds(rs, i);
      FormatText(rs[i].lo, padding);
      FormatText(rs[i].hi, padding);
    }
    JoinNoSlash(RangeTexts(rs, padding));
  }

  lemma RangeEnds(rs: seq<Rang>, i: nat)
    requires Canonical(rs) && i < |rs|
    ensures rs[i].lo <= rs[i].hi
  {
  }

  lemma SpacedIsStep(values: seq<int>, s: int, step: int)
    requires s > 0 && Spaced(values, s) && IsStep(values, step)
    ensures s == step
  {
    assert Progression(values, s);
    StepUnique(values, s, step);
  }

  /**
   The text has a step exactly when there are two or more values with equal gaps of more
   than one, and then it is their first, their last and the gap. Otherwise it lists the
   ranges.
   */
  lemma SteppedExactly(text: string, rs: seq<Rang>, padding: int, values: seq<int>)
    requires Canonical(rs) && rs != [] && NonNegative(rs) && Listing(values, Members(rs)) && IsFolded(text, rs, padding)
    ensures '/' in text <==> exists step :: step > 1 && Spaced(values, step)
    ensures forall step :: step > 1 && Spaced(values, step) ==>
              text == Format(values[0], padding) + "-" + Format(values[|values| - 1], padding) + "/" + Format(step, 0)
    ensures '/' !in text ==> text == Join(RangeTexts(rs, padding), ',')
  {
    hide Members, Canonical, Format, Join, RangeTexts, IsStep, Spaced, NonNegative;
    ListingUnique(values, SortedInts(Members(rs)), Members(rs));
    NonEmptyListing(rs, values);
    RangesNoSlash(rs, padding);
    if |values| == 1 {
      ValueNonNegative(rs, values, 0);
      FormatText(values[0], padding);
      LoneValue(rs, values, padding);
      NotSpaced(values);
    } else {
      var step :| IsStep(values, step) && text == FoldedWith(values, rs, padding, step);
      forall s | s > 1 && Spaced(values, s) ensures s == step {
        SpacedIsStep(values, s, step);
      }
      if step > 1 {
        IsSpaced(values, step);
        assert text[|Format(values[0], padding) + "-" + Format(values[|values| - 1], padding)|] == '/';
      }
    }
  }

  lemma NotSpaced(values: seq<int>)
    requires |values| < 2
    ensures forall step :: !Spaced(values, step)
  {
  }

  lemma IsSpaced(values: seq<int>, step: int)
    requires |values| >= 2 && IsStep(values, step) && step > 0
    ensures Spaced(values, step)
  {
  }

  lemma ValueNonNegative(rs: seq<Rang>, values: seq<int>, i: nat)
    requires Canonical(rs) && NonNegative(rs) && rs != [] && Listing(values, Members(rs)) && i < |values|
    ensures values[i] >= 0
  {
    hide Canonical, Members;
    CanonicalNonNegative(rs);
    assert values[i] in values;
  }

  /** A single value is a single range of one number. */
  lemma LoneValue(rs: seq<Rang>, values: seq<int>, padding: int)
    requires Canonical(rs) && rs != [] && Listing(values, Members(rs)) && |values| == 1
    ensures Join(RangeTexts(rs, padding), ',') == Format(values[0], padding)
  {
    AtMember(rs, rs[0].lo, 0);
    AtMember(rs, rs[0].hi, 0);
    var last := |rs| - 1;
    AtMember(rs, rs[last].lo, last);
    assert rs[0].lo in values && rs[0].hi in values && rs[last].lo in values;
    assert |rs| == 1 && rs[0].lo == rs[0].hi == values[0];
    RangeTextIs(rs, padding, 0);
    assert RangeTexts(rs, padding) == [Format(values[0], padding)];
  }
}
