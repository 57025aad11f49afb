/**
 The text between brackets: parsing "1-3,7,09-21/3" into integers and a padding
 width, part by part, with an error for each kind of faulty part.
 */
module Brackets {
  import opened Wrappers
  import opened Arithmetic
  import opened Text
  import opened RangeSets

  datatype BracketError =
    | EmptyBracket
    | BadStart
    | BadEnd
    | StartAfterEnd
    | BadStep
    | StepNotPositive
    | BadValue

  /** One comma-separated part: nothing, or lo, lo + step, ... up to hi. */
  datatype Part = Blank | Span(lo: int, hi: int, step: int, pad: int)

  datatype Bracket = Bracket(values: set<int>, padding: int)

  // ---------------------------------------------------------------- what the text means

  /** "03" has padding 2, "3" none. */
  function DetectPadding(s: string): int
  {
    if |s| > 1 && s[0] == '0' then |s| else 0
  }

  function ParsePart(raw: string): Result<Part, BracketError>
  {
    var part := TrimSpace(raw);
    if part == "" then Ok(Blank)
    else
      var slash := IndexOf(part, '/');
      var stepText := if slash >= 0 then part[slash + 1..] else "";
      var body := if slash >= 0 then part[..slash] else part;
      var dash := IndexOf(body, '-');
      if dash >= 0 then ParseSpan(body[..dash], body[dash + 1..], stepText) else ParseValue(body)
  }

  function ParseSpan(loText: string, hiText: string, stepText: string): Result<Part, BracketError>
  {
    var lo, hi := Atoi(loText), Atoi(hiText);
    if lo.None? then Err(BadStart)
    else if hi.None? then Err(BadEnd)
    else if lo.value > hi.value then Err(StartAfterEnd)
    else if stepText == "" then Ok(Span(lo.value, hi.value, 1, DetectPadding(loText)))
    else
      var step := Atoi(stepText);
      if step.None? then Err(BadStep)
      else if step.value <= 0 then Err(StepNotPositive)
      else Ok(Span(lo.value, hi.value, step.value, DetectPadding(loText)))
  }

  function ParseValue(text: string): Result<Part, BracketError>
  {
    var v := Atoi(text);
    if v.None? then Err(BadValue) else Ok(Span(v.value, v.value, 1, DetectPadding(text)))
  }

  function Steps(lo: int, hi: int, step: int): set<int>
    requires step > 0
  {
    set v | v in Interval(lo, hi) && (v - lo) % step == 0
  }

  function PartValues(p: Part): set<int>
    requires p.Span? ==> p.step > 0
  {
    if p.Blank? then {} else Steps(p.lo, p.hi, p.step)
  }

  function PartPad(p: Part): int
  {
    if p.Blank? then 0 else p.pad
  }

  function Max(a: int, b: int): int
  {
    if a < b then b else a
  }

  lemma ParsedStep(raw: string)
    ensures ParsePart(raw).Ok? && ParsePart(raw).value.Span? ==>
              ParsePart(raw).value.step > 0 && ParsePart(raw).value.lo <= ParsePart(raw).value.hi
  {
    hide TrimSpace, IndexOf, Atoi, DetectPadding, ParseSpan, ParseValue;
    var part := TrimSpace(raw);
    var slash := IndexOf(part, '/');
    var body := if slash >= 0 then part[..slash] else part;
    var dash := IndexOf(body, '-');
    if dash >= 0 {
      SpanStep(body[..dash], body[dash + 1..], if slash >= 0 then part[slash + 1..] else "");
    } else {
      ValueStep(body);
    }
  }

  lemma SpanStep(loText: string, hiText: string, stepText: string)
    ensures var r := ParseSpan(loText, hiText, stepText);
            r.Ok? ==> r.value.Span? && r.value.step > 0 && r.value.lo <= r.value.hi
  {
    hide Atoi, DetectPadding;
  }

  lemma ValueStep(text: string)
    ensures var r := ParseValue(text); r.Ok? ==> r.value.Span? && r.value.step > 0 && r.value.lo <= r.value.hi
  {
    hide Atoi, DetectPadding;
  }

  /** The values of all parts together, and the widest padding; the first faulty part decides the error. */
  function ParseParts(parts: seq<string>): Result<Bracket, BracketError>
  {
    if parts == [] then Ok(Bracket({}, 0))
    else
      var before := ParseParts(parts[..|parts| - 1]);
      if before.Err? then before
      else
        var part := ParsePart(parts[|parts| - 1]);
        if part.Err? then Err(part.error)
        else
          ParsedStep(parts[|parts| - 1]);
          Ok(Bracket(before.value.values + PartValues(part.value), Max(before.value.padding, PartPad(part.value))))
  }

  function ParseBracket(expr: string): Result<Bracket, BracketError>
  {
    if expr == "" then Err(EmptyBracket) else ParseParts(Split(expr, ','))
  }

  // ---------------------------------------------------------------- the parser

  /** Parses bracket content into sorted integers and a padding width. */
  method ParseBracketExpr(expr: string) returns (r: Result<(seq<int>, int), BracketError>)
    ensures r.Err? <==> ParseBracket(expr).Err?
    ensures r.Err? ==> r.error == ParseBracket(expr).error
    ensures r.Ok? ==> Listing(r.value.0, ParseBracket(expr).value.values)
                      && r.value.1 == ParseBracket(expr).value.padding
  {
    if expr == "" {
      return Err(EmptyBracket);
    }
    hide ParsePart, PartValues, PartPad;
    var padding := 0;
    var rs := new RangeSet(0);
    var parts := Split(expr, ',');
    for i := 0 to |parts|
      invariant rs.Valid() && fresh(rs) && padding >= 0
      invariant ParseParts(parts[..i]) == Ok(Bracket(rs.Elements(), padding))
    {
      ParsedStep(parts[i]);
      PartsStep(parts, i);
      var r := AddPart(rs, parts[i], padding);
      if r.Err? {
        PartsFail(parts, i);
        return Err(r.error);
      }
      padding := r.value;
    }
    assert parts[..|parts|] == parts;
    var ints := rs.Expand();
    return Ok((ints, padding));
  }

  /** `rs` gained the values of the part, or the part is faulty and its error is reported. */
  ghost predicate Added(part: Result<Part, BracketError>, before: set<int>, after: set<int>, widest: int,
                        r: Result<int, BracketError>)
  {
    if part.Err? then r == Err(part.error)
    else
      && (part.value.Span? ==> part.value.step > 0)
      && r == Ok(Max(widest, PartPad(part.value)))
      && after == before + PartValues(part.value)
  }

  /** Adds the values of one part and returns the widest padding so far. */
  method AddPart(rs: RangeSet, raw: string, widest: int) returns (r: Result<int, BracketError>)
    requires rs.Valid() && widest >= 0
    modifies rs`ranges
    ensures rs.Valid() && Added(ParsePart(raw), old(rs.Elements()), rs.Elements(), widest, r)
  {
    hide ParseSpan, ParseValue, Members, Canonical, TrimSpace;
    var part := TrimSpace(raw);
    if part == "" {
      return Ok(widest);
    }
    var stepText := "";
    var slash := IndexOf(part, '/');
    if slash >= 0 {
      stepText := part[slash + 1..];
      part := part[..slash];
    }
    var dash := IndexOf(part, '-');
    if dash >= 0 {
      r := AddSpan(rs, part[..dash], part[dash + 1..], stepText, widest);
    } else {
      r := AddValue(rs, part, widest);
    }
  }

  method AddSpan(rs: RangeSet, loText: string, hiText: string, stepText: string, widest: int)
    returns (r: Result<int, BracketError>)
    requires rs.Valid()
    modifies rs`ranges
    ensures rs.Valid() && Added(ParseSpan(loText, hiText, stepText), old(rs.Elements()), rs.Elements(), widest, r)
  {
    hide Members, Canonical, Atoi, Steps;
    var padding := widest;
    var pad := DetectPadding(loText);
    if pad > padding {
      padding := pad;
    }
    var lo, hi := Atoi(loText), Atoi(hiText);
    if lo.None? {
      return Err(BadStart);
    }
    if hi.None? {
      return Err(BadEnd);
    }
    if lo.value > hi.value {
      return Err(StartAfterEnd);
    }
    var step := 1;
    if stepText != "" {
      var parsed := Atoi(stepText);
      if parsed.None? {
        return Err(BadStep);
      }
      step := parsed.value;
      if step <= 0 {
        return Err(StepNotPositive);
      }
    }
    AddSteps(rs, lo.value, hi.value, step);
    return Ok(padding);
  }

  method AddValue(rs: RangeSet, text: string, widest: int) returns (r: Result<int, BracketError>)
    requires rs.Valid()
    modifies rs`ranges
    ensures rs.Valid() && Added(ParseValue(text), old(rs.Elements()), rs.Elements(), widest, r)
  {
    hide Members, Canonical, Atoi;
    var padding := widest;
    var pad := DetectPadding(text);
    if pad > padding {
      padding := pad;
    }
    var v := Atoi(text);
    if v.None? {
      return Err(BadValue);
    }
    StepsOne(v.value);
    rs.Add(v.value, v.value);
    return Ok(padding);
  }

  /** Adds lo, lo + step, ... up to hi. */
  method AddSteps(rs: RangeSet, lo: int, hi: int, step: int)
    requires rs.Valid() && lo <= hi && step > 0
    modifies rs`ranges
    ensures rs.Valid() && rs.Elements() == old(rs.Elements()) + Steps(lo, hi, step)
  {
    if step == 1 {
      StepsByOne(lo, hi);
      rs.Add(lo, hi);
    } else {
      var v := lo;
      StepsNone(lo, step);
      while v <= hi
        invariant lo <= v && (v - lo) % step == 0
        invariant rs.Valid() && rs.Elements() == old(rs.Elements()) + Steps(lo, Min(hi, v - 1), step)
        decreases hi - v
      {
        StepsNext(lo, hi, v, step);
        rs.Add(v, v);
        v := v + step;
      }
    }
  }

  lemma PartsStep(parts: seq<string>, i: nat)
    requires i < |parts| && ParseParts(parts[..i]).Ok?
    ensures ParsePart(parts[i]).Ok? ==>
              && (ParsePart(parts[i]).value.Span? ==> ParsePart(parts[i]).value.step > 0)
              && ParseParts(parts[..i + 1]) ==
                 Ok(Bracket(ParseParts(parts[..i]).value.values + PartValues(ParsePart(parts[i]).value),
                            Max(ParseParts(parts[..i]).value.padding, PartPad(ParsePart(parts[i]).value))))
  {
    ParsedStep(parts[i]);
    assert parts[..i + 1][..i] == parts[..i];
  }

  lemma {:induction false} PartsFail(parts: seq<string>, i: nat)
    requires i < |parts| && ParseParts(parts[..i]).Ok? && ParsePart(parts[i]).Err?
    ensures ParseParts(parts) == Err(ParsePart(parts[i]).error)
    decreases |parts|
  {
    if i < |parts| - 1 {
      var front := parts[..|parts| - 1];
      assert front[..i] == parts[..i];
      PartsFail(front, i);
    }
  }

  lemma StepsOne(v: int)
    ensures Steps(v, v, 1) == Interval(v, v)
  {
  }

  lemma StepsByOne(lo: int, hi: int)
    ensures Steps(lo, hi, 1) == Interval(lo, hi)
  {
  }

  lemma StepsNone(lo: int, step: int)
    requires step > 0
    ensures Steps(lo, lo - 1, step) == {} && (lo - lo) % step == 0
  {
  }

  lemma StepsNext(lo: int, hi: int, v: int, step: int)
    requires step > 0 && lo <= v <= hi && (v - lo) % step == 0
    ensures (v + step - lo) % step == 0
    ensures Steps(lo, Min(hi, v + step - 1), step) == Steps(lo, Min(hi, v - 1), step) + Interval(v, v)
  {
    var old', new' := Steps(lo, Min(hi, v - 1), step), Steps(lo, Min(hi, v + step - 1), step);
    ModShift(v - lo, 0, step);
    forall x ensures x in new' <==> x in old' || x in Interval(v, v) {
      if v < x < v + step {
        ModShift(v - lo, x - v, step);
      }
    }
  }
}
