/** What the text between brackets means, part by part. */
module BracketText {
  import opened Wrappers
  import opened Text
  import Brackets

  // ---------------------------------------------------------------- numbers

  /** A number is one or more digits, with a sign in front or not. */
  lemma NumberIs(digits: string)
    requires AllDigits(digits) && digits != ""
    ensures var v: int := DigitsVal(digits);
            && Atoi(digits) == Some(v) && Atoi("+" + digits) == Some(v) && Atoi("-" + digits) == Some(-v)
  {
    AtoiDigits(digits);
    assert ("+" + digits)[1..] == digits && ("-" + digits)[1..] == digits;
  }

  /** Nothing else is a number. */
  lemma NotANumber(text: string)
    requires Atoi(text).Some?
    ensures exists digits :: AllDigits(digits) && digits != ""
                             && (text == digits || text == "+" + digits || text == "-" + digits)
  {
    var digits := Unsigned(text);
    assert AllDigits(digits) && digits != "";
    assert |digits| < |text| ==> text == [text[0]] + digits;
  }

  /** A negative number keeps its sign in front of the zeros, and its width counts the sign. */
  lemma NegativeIs(v: int, width: int)
    requires v < 0
    ensures var s := Format(v, width);
            && |s| == (if width <= 1 + |Itoa(-v)| then 1 + |Itoa(-v)| else width)
            && s[0] == '-' && AllDigits(s[1..]) && Atoi(s) == Some(v)
  {
    hide Format, Itoa, Zeros, DigitsVal, Atoi;
    var digits := Zeros(Missing(width - 1, |Itoa(-v)|)) + Itoa(-v);
    SignInFront(v, width);
    ItoaVal(-v);
    ZerosVal(Missing(width - 1, |Itoa(-v)|), Itoa(-v));
    NumberIs(digits);
    SignOff(digits);
  }

  lemma SignInFront(v: int, width: int)
    requires v < 0
    ensures Format(v, width) == "-" + (Zeros(Missing(width - 1, |Itoa(-v)|)) + Itoa(-v))
  {
    hide Itoa, Zeros;
    var zeros, digits := Zeros(Missing(width - 1, |Itoa(-v)|)), Itoa(-v);
    assert "-" + zeros + digits == "-" + (zeros + digits);
  }

  lemma SignOff(digits: string)
    ensures ("-" + digits)[1..] == digits && ("-" + digits)[0] == '-' && |"-" + digits| == 1 + |digits|
  {
  }

  /** Padding is asked for by a leading zero in front of more digits. */
  lemma PaddingIs(text: string)
    ensures text != "" ==> Brackets.DetectPadding("0" + text) == 1 + |text|
    ensures (text == "" || text == "0" || text[0] != '0') ==> Brackets.DetectPadding(text) == 0
  {
  }

  // ---------------------------------------------------------------- one part

  /** Spaces around a part, or nothing but spaces. */
  lemma PartTrimmed(a: string, part: string, b: string)
    requires AllSpaces(a) && AllSpaces(b)
    ensures Brackets.ParsePart(a + part + b) == Brackets.ParsePart(part)
    ensures Brackets.ParsePart(a) == Ok(Brackets.Blank)
  {
    hide TrimSpace, IndexOf, Brackets.ParseSpan, Brackets.ParseValue;
    TrimAgain(a, part, b);
    assert a + "" + "" == a;
    TrimsAround(a, "", "");
  }

  /** A value alone; what follows a slash makes no difference to it. */
  lemma ValueIs(text: string, more: string)
    requires '-' !in text && '/' !in text && text != "" && Trimmed(text) && Trimmed(text + "/" + more)
    ensures var r := if Atoi(text).None? then Err(Brackets.BadValue)
                     else Ok(Brackets.Span(Atoi(text).value, Atoi(text).value, 1, Brackets.DetectPadding(text)));
            Brackets.ParsePart(text) == r && Brackets.ParsePart(text + "/" + more) == r
  {
    hide Atoi, TrimSpace, Brackets.DetectPadding, IndexOf;
    TrimNothing(text);
    TrimNothing(text + "/" + more);
    IndexAfter(text, '/', more);
    assert text + ['/'] + more == text + "/" + more && (text + "/" + more)[..|text|] == text;
  }

  /** A range without a step, and its errors in the order in which they are found. */
  lemma RangeIs(lo: string, hi: string)
    requires '-' !in lo && '/' !in lo && '/' !in hi && Trimmed(lo + "-" + hi)
    ensures Brackets.ParsePart(lo + "-" + hi) ==
            if Atoi(lo).None? then Err(Brackets.BadStart)
            else if Atoi(hi).None? then Err(Brackets.BadEnd)
            else if Atoi(lo).value > Atoi(hi).value then Err(Brackets.StartAfterEnd)
            else Ok(Brackets.Span(Atoi(lo).value, Atoi(hi).value, 1, Brackets.DetectPadding(lo)))
  {
    hide Atoi, TrimSpace, Brackets.DetectPadding, IndexOf;
    var part := lo + "-" + hi;
    TrimNothing(part);
    assert '/' !in part;
    IndexAfter(lo, '-', hi);
    assert lo + ['-'] + hi == part && part[..|lo|] == lo && part[|lo| + 1..] == hi;
  }

  /** A range with a step. */
  lemma SteppedIs(lo: string, hi: string, step: string)
    requires '-' !in lo && '/' !in lo && '/' !in hi && step != "" && Trimmed(lo + "-" + hi + "/" + step)
    ensures Brackets.ParsePart(lo + "-" + hi + "/" + step) ==
            if Atoi(lo).None? then Err(Brackets.BadStart)
            else if Atoi(hi).None? then Err(Brackets.BadEnd)
            else if Atoi(lo).value > Atoi(hi).value then Err(Brackets.StartAfterEnd)
            else if Atoi(step).None? then Err(Brackets.BadStep)
            else if Atoi(step).value <= 0 then Err(Brackets.StepNotPositive)
            else Ok(Brackets.Span(Atoi(lo).value, Atoi(hi).value, Atoi(step).value, Brackets.DetectPadding(lo)))
  {
    hide Atoi, TrimSpace, Brackets.DetectPadding, IndexOf;
    var body := lo + "-" + hi;
    var part := body + "/" + step;
    TrimNothing(part);
    assert '/' !in body;
    IndexAfter(body, '/', step);
    assert body + ['/'] + step == part && part[..|body|] == body && part[|body| + 1..] == step;
    IndexAfter(lo, '-', hi);
    assert lo + ['-'] + hi == body && body[..|lo|] == lo && body[|lo| + 1..] == hi;
  }

  // ---------------------------------------------------------------- all parts

  /** The part stands for the value. */
  ghost predicate Holds(part: Result<Brackets.Part, Brackets.BracketError>, v: int)
  {
    part.Ok? && part.value.Span? && part.value.step > 0
    && part.value.lo <= v <= part.value.hi && (v - part.value.lo) % part.value.step == 0
  }

  ghost predicate Widest(parts: seq<string>, padding: int)
  {
    && (forall i :: 0 <= i < |parts| && Brackets.ParsePart(parts[i]).Ok? && Brackets.ParsePart(parts[i]).value.Span? ==>
          Brackets.ParsePart(parts[i]).value.pad <= padding)
    && (padding == 0 || exists i :: 0 <= i < |parts| && Brackets.ParsePart(parts[i]).Ok?
                                    && Brackets.ParsePart(parts[i]).value.Span?
                                    && Brackets.ParsePart(parts[i]).value.pad == padding)
  }

  ghost predicate SomeHolds(parts: seq<string>, v: int)
  {
    exists i :: 0 <= i < |parts| && Holds(Brackets.ParsePart(parts[i]), v)
  }

  lemma HoldsIs(raw: string, v: int)
    requires Brackets.ParsePart(raw).Ok?
    ensures Brackets.ParsePart(raw).value.Span? ==> Brackets.ParsePart(raw).value.step > 0
    ensures v in Brackets.PartValues(Brackets.ParsePart(raw).value) <==> Holds(Brackets.ParsePart(raw), v)
  {
    hide Brackets.ParsePart;
    Brackets.ParsedStep(raw);
  }

  lemma PadIs(raw: string)
    ensures Brackets.ParsePart(raw).Ok? && Brackets.ParsePart(raw).value.Span? ==> Brackets.ParsePart(raw).value.pad >= 0
  {
    hide IndexOf, TrimSpace, Atoi;
  }

  /** The parts together hold what any of them holds, at the widest padding of all. */
  lemma {:induction false} PartsTogether(parts: seq<string>)
    requires forall i :: 0 <= i < |parts| ==> Brackets.ParsePart(parts[i]).Ok?
    ensures Brackets.ParseParts(parts).Ok?
    ensures forall v :: v in Brackets.ParseParts(parts).value.values <==> SomeHolds(parts, v)
    ensures Brackets.ParseParts(parts).value.padding >= 0 && Widest(parts, Brackets.ParseParts(parts).value.padding)
  {
    hide Brackets.ParsePart, Brackets.PartValues, Holds;
    if parts != [] {
      var front, last := parts[..|parts| - 1], parts[|parts| - 1];
      PartsTogether(front);
      PadIs(last);
      var r := Brackets.ParseParts(parts).value;
      forall v ensures v in r.values <==> SomeHolds(parts, v) {
        HoldsIs(last, v);
        SomeHoldsSnoc(front, last, v);
        assert parts == front + [last];
      }
      WidestSnoc(front, last, Brackets.ParseParts(front).value.padding, r.padding);
      assert parts == front + [last];
    }
  }

  lemma SomeHoldsSnoc(front: seq<string>, last: string, v: int)
    ensures SomeHolds(front + [last], v) <==> SomeHolds(front, v) || Holds(Brackets.ParsePart(last), v)
  {
    hide Brackets.ParsePart, Holds;
    var parts := front + [last];
    assert parts[|front|] == last;
    if i :| 0 <= i < |front| && Holds(Brackets.ParsePart(front[i]), v) {
      assert parts[i] == front[i];
    }
    if i :| 0 <= i < |parts| && Holds(Brackets.ParsePart(parts[i]), v) {
      assert i < |front| ==> parts[i] == front[i];
    }
  }

  lemma WidestSnoc(front: seq<string>, last: string, before: int, after: int)
    requires Widest(front, before) && before >= 0 && Brackets.ParsePart(last).Ok?
    requires Brackets.ParsePart(last).value.Span? ==> Brackets.ParsePart(last).value.pad >= 0
    requires after == Brackets.Max(before, Brackets.PartPad(Brackets.ParsePart(last).value))
    ensures Widest(front + [last], after)
  {
    hide Brackets.ParsePart;
    var parts := front + [last];
    assert parts[|front|] == last;
    if after != 0 && after == before {
      var i :| 0 <= i < |front| && Brackets.ParsePart(front[i]).Ok? && Brackets.ParsePart(front[i]).value.Span?
               && Brackets.ParsePart(front[i]).value.pad == before;
      assert parts[i] == front[i];
    }
  }

  ghost predicate FirstFaulty(parts: seq<string>, i: nat)
    requires i < |parts|
  {
    Brackets.ParsePart(parts[i]).Err? && forall j :: 0 <= j < i ==> Brackets.ParsePart(parts[j]).Ok?
  }

  /**
   A bracket whose parts between the commas are all good stands for the numbers that any
   of them stands for, at the widest padding; the first faulty part decides the error.
   */
  lemma BracketIs(parts: seq<string>)
    requires parts != [] && Join(parts, ',') != "" && forall i :: 0 <= i < |parts| ==> ',' !in parts[i]
    ensures var r := Brackets.ParseBracket(Join(parts, ','));
            && ((forall i :: 0 <= i < |parts| ==> Brackets.ParsePart(parts[i]).Ok?) ==>
                  && r.Ok? && (forall v :: v in r.value.values <==> SomeHolds(parts, v))
                  && Widest(parts, r.value.padding))
            && (forall i :: 0 <= i < |parts| && FirstFaulty(parts, i) ==> r == Err(Brackets.ParsePart(parts[i]).error))
  {
    hide Brackets.ParsePart, Brackets.ParseParts, Widest, SomeHolds, Join, Split;
    SplitJoin(parts, ',');
    if forall i :: 0 <= i < |parts| ==> Brackets.ParsePart(parts[i]).Ok? {
      PartsTogether(parts);
    }
    forall i | 0 <= i < |parts| && FirstFaulty(parts, i)
      ensures Brackets.ParseBracket(Join(parts, ',')) == Err(Brackets.ParsePart(parts[i]).error)
    {
      PartsTogether(parts[..i]);
      Brackets.PartsFail(parts, i);
    }
  }

  /** Nothing between the brackets is an error. */
  lemma NothingInBracket()
    ensures Brackets.ParseBracket("") == Err(Brackets.EmptyBracket)
  {
  }
}
