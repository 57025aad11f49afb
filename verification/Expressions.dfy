/** What the operators between terms do. */
module Expressions {
  // The laws of union, difference, intersection and symmetric difference, on the text
  // of a pattern: any expression, an operator, and one more term.

  import opened Wrappers
  import opened Ordering
  import opened Text
  import opened Patterns
  import opened FoldRoundTrip

  // ---------------------------------------------------------------- scanning without positions

  /** The scanner with the operand read so far and the text still to come. */
  function Reads(cur: string, rest: string, depth: nat): (r: Result<Tokens, PatternError>)
    ensures r.Ok? ==> |r.value.terms| == |r.value.ops| + 1
    decreases |rest|
  {
    if rest == "" then
      if depth != 0 then Err(UnclosedBracket)
      else if TrimSpace(cur) == "" then Err(TrailingOperator)
      else Ok(Tokens([TrimSpace(cur)], []))
    else
      var c, more := rest[0], rest[1..];
      if c == '[' then Reads(cur + [c], more, depth + 1)
      else if c == ']' then
        if depth == 0 then Err(UnmatchedBracket) else Reads(cur + [c], more, depth - 1)
      else if IsOperator(c) && depth == 0 then
        if TrimSpace(cur) == "" then Err(EmptyOperand) else After([TrimSpace(cur)], [c], Reads("", more, 0))
      else Reads(cur + [c], more, depth)
  }

  lemma {:induction false} ScanReads(expr: string, i: nat, start: nat, depth: nat)
    requires start <= i <= |expr|
    ensures Scan(expr, i, start, depth) == Reads(expr[start..i], expr[i..], depth)
    decreases |expr| - i
  {
    hide TrimSpace;
    if i < |expr| {
      assert expr[start..i + 1] == expr[start..i] + [expr[i]];
      assert expr[i..][0] == expr[i] && expr[i..][1..] == expr[i + 1..];
      assert expr[i + 1..i + 1] == "";
      if expr[i] == '[' {
        ScanReads(expr, i + 1, start, depth + 1);
      } else if expr[i] == ']' {
        if depth > 0 {
          ScanReads(expr, i + 1, start, depth - 1);
        }
      } else if IsOperator(expr[i]) && depth == 0 {
        ScanReads(expr, i + 1, i + 1, 0);
      } else {
        ScanReads(expr, i + 1, start, depth);
      }
    } else {
      assert expr[start..i] == expr[start..];
    }
  }

  /** Spaces in front of the operand make no difference. */
  lemma {:induction false} ReadsSpaced(a: string, cur: string, rest: string, depth: nat)
    requires AllSpaces(a)
    ensures Reads(a + cur, rest, depth) == Reads(cur, rest, depth)
    decreases |rest|
  {
    hide TrimSpace;
    assert a + cur + "" == a + cur;
    TrimAgain(a, cur, "");
    if rest != "" {
      var c, more := rest[0], rest[1..];
      assert (a + cur) + [c] == a + (cur + [c]);
      if c == '[' {
        ReadsSpaced(a, cur + [c], more, depth + 1);
      } else if c == ']' {
        if depth > 0 {
          ReadsSpaced(a, cur + [c], more, depth - 1);
        }
      } else if !(IsOperator(c) && depth == 0) {
        ReadsSpaced(a, cur + [c], more, depth);
      }
    }
  }

  /** Spaces at the end make no difference. */
  lemma {:induction false} ReadsSpaces(cur: string, rest: string, b: string, depth: nat)
    requires AllSpaces(b)
    ensures Reads(cur, rest + b, depth) == Reads(cur, rest, depth)
    decreases |rest| + |b|
  {
    hide TrimSpace;
    if rest == "" {
      assert rest + b == b;
      if b != "" {
        assert "" + cur + [b[0]] == cur + [b[0]];
        TrimAgain("", cur, [b[0]]);
        ReadsSpaces(cur + [b[0]], "", b[1..], depth);
        assert "" + b[1..] == b[1..];
        assert !IsOperator(b[0]);
      }
    } else {
      var c, more := rest[0], rest[1..];
      assert (rest + b)[0] == c && (rest + b)[1..] == more + b;
      if c == '[' {
        ReadsSpaces(cur + [c], more, b, depth + 1);
      } else if c == ']' {
        if depth > 0 {
          ReadsSpaces(cur + [c], more, b, depth - 1);
        }
      } else if IsOperator(c) && depth == 0 {
        ReadsSpaces("", more, b, 0);
      } else {
        ReadsSpaces(cur + [c], more, b, depth);
      }
    }
  }

  /** Trimming the whole text first makes no difference. */
  lemma ReadsTrimmed(text: string)
    ensures Reads("", TrimSpace(text), 0) == Reads("", text, 0)
  {
    var a, b := TrimSplits(text);
    var s := TrimSpace(text);
    ReadsSpaces("", a + s, b, 0);
    ReadsFront(a, s);
  }

  lemma ReadsFront(a: string, s: string)
    requires AllSpaces(a)
    ensures Reads("", a + s, 0) == Reads("", s, 0)
  {
    ReadsOver("", a, s);
    assert a + "" == a && "" + a == a;
    ReadsSpaced(a, "", s, 0);
  }

  lemma {:induction false} ReadsOver(cur: string, a: string, s: string)
    requires AllSpaces(a)
    ensures Reads(cur, a + s, 0) == Reads(cur + a, s, 0)
    decreases |a|
  {
    hide TrimSpace;
    if a == "" {
      assert a + s == s && cur + a == cur;
    } else {
      var c := a[0];
      assert (a + s)[0] == c && (a + s)[1..] == a[1..] + s;
      assert c != '[' && c != ']' && !IsOperator(c);
      ReadsOver(cur + [c], a[1..], s);
      assert cur + [c] + a[1..] == cur + a;
    }
  }

  // ---------------------------------------------------------------- one more term

  /** No operator and no unbalanced bracket outside brackets: the text is one operand. */
  ghost predicate OneOperand(t: string)
  {
    Calm(t, 0, 0)
  }

  /** Reading through an operand comes back out of its brackets. */
  lemma {:induction false} ReadsCalm(cur: string, t: string, i: nat, d: nat)
    requires i <= |t| && Calm(t, i, d)
    ensures Reads(cur, t[i..], d) == Reads(cur + t[i..], "", 0)
    decreases |t| - i
  {
    hide TrimSpace;
    if i < |t| {
      var c := t[i];
      assert t[i..][0] == c && t[i..][1..] == t[i + 1..];
      assert cur + [c] + t[i + 1..] == cur + t[i..];
      if c == '[' {
        ReadsCalm(cur + [c], t, i + 1, d + 1);
      } else if c == ']' {
        ReadsCalm(cur + [c], t, i + 1, d - 1);
      } else {
        ReadsCalm(cur + [c], t, i + 1, d);
      }
    } else {
      assert t[i..] == "" && cur + "" == cur;
    }
  }

  /** Inside brackets an operand leaves the brackets open. */
  lemma {:induction false} ReadsOpen(cur: string, t: string, i: nat, d: nat, depth: nat)
    requires i <= |t| && Calm(t, i, d) && depth > 0
    ensures Reads(cur, t[i..], d + depth) == Err(UnclosedBracket)
    decreases |t| - i
  {
    hide TrimSpace;
    if i < |t| {
      var c := t[i];
      assert t[i..][0] == c && t[i..][1..] == t[i + 1..];
      if c == '[' {
        ReadsOpen(cur + [c], t, i + 1, d + 1, depth);
      } else if c == ']' {
        ReadsOpen(cur + [c], t, i + 1, d - 1, depth);
      } else {
        ReadsOpen(cur + [c], t, i + 1, d, depth);
      }
    }
  }

  lemma ReadsTerm(t: string)
    requires OneOperand(t)
    ensures Reads("", t, 0) == if TrimSpace(t) == "" then Err(TrailingOperator) else Ok(Tokens([TrimSpace(t)], []))
  {
    ReadsCalm("", t, 0, 0);
    assert t[0..] == t && "" + t == t;
  }

  /** The tokens of an expression, an operator and one more operand. */
  lemma {:induction false} ReadsMore(cur: string, e: string, op: char, t: string, depth: nat)
    requires IsOperator(op) && OneOperand(t)
    ensures var r, more := Reads(cur, e, depth), Reads(cur, e + [op] + t, depth);
            && (more.Ok? <==> r.Ok? && TrimSpace(t) != "")
            && (more.Ok? ==> more.value == Tokens(r.value.terms + [TrimSpace(t)], r.value.ops + [op]))
    decreases |e|
  {
    hide TrimSpace;
    var all := e + [op] + t;
    if e == "" {
      assert all[0] == op && all[1..] == t;
      if depth == 0 {
        ReadsTerm(t);
      } else {
        assert t[0..] == t;
        ReadsOpen(cur + [op], t, 0, 0, depth);
      }
    } else {
      var c, rest := e[0], e[1..];
      assert all[0] == c && all[1..] == rest + [op] + t;
      if c == '[' {
        ReadsMore(cur + [c], rest, op, t, depth + 1);
      } else if c == ']' {
        if depth > 0 {
          ReadsMore(cur + [c], rest, op, t, depth - 1);
        }
      } else if IsOperator(c) && depth == 0 {
        ReadsMore("", rest, op, t, 0);
        AppendAfter([TrimSpace(cur)], [c], Reads("", rest, 0), TrimSpace(t), op);
      } else {
        ReadsMore(cur + [c], rest, op, t, depth);
      }
    }
  }

  lemma AppendAfter(terms: seq<string>, ops: seq<char>, r: Result<Tokens, PatternError>, t: string, op: char)
    ensures r.Ok? ==>
              After(terms, ops, Ok(Tokens(r.value.terms + [t], r.value.ops + [op]))) ==
              Ok(Tokens(After(terms, ops, r).value.terms + [t], After(terms, ops, r).value.ops + [op]))
  {
    if r.Ok? {
      assert terms + (r.value.terms + [t]) == terms + r.value.terms + [t];
      assert ops + (r.value.ops + [op]) == ops + r.value.ops + [op];
    }
  }

  // ---------------------------------------------------------------- the laws of the operators

  /** What a name needs to be denoted by two operands with an operator between them. */
  ghost predicate Combines(op: char, left: bool, right: bool, both: bool)
  {
    && (op == ',' ==> (both <==> left || right))
    && (op == '!' ==> (both <==> left && !right))
    && (op == '&' ==> (both <==> left && right))
    && (op == '^' ==> (both <==> left != right))
  }

  lemma MeaningReads(pattern: string, resolver: Resolver, maxExpand: int)
    ensures var tokens := Reads("", pattern, 0);
            && (tokens.Err? ==> Meaning(pattern, resolver, maxExpand).Err?)
            && (tokens.Ok? ==> Meaning(pattern, resolver, maxExpand) ==
                               Evaluate(tokens.value, resolver, maxExpand, |tokens.value.ops|))
  {
    hide Evaluate;
    ReadsTrimmed(pattern);
    var expr := TrimSpace(pattern);
    ScanReads(expr, 0, 0, 0);
    assert expr[0..0] == "" && expr[0..] == expr;
    if expr == "" {
      NothingRead();
    }
  }

  lemma NothingRead()
    ensures Reads("", "", 0).Err?
  {
  }

  lemma {:induction false} EvaluateFront(t: Tokens, x: string, op: char, resolver: Resolver, maxExpand: int, n: nat)
    requires |t.terms| == |t.ops| + 1 && n <= |t.ops|
    ensures Evaluate(Tokens(t.terms + [x], t.ops + [op]), resolver, maxExpand, n) == Evaluate(t, resolver, maxExpand, n)
  {
    hide TermSet;
    var more := Tokens(t.terms + [x], t.ops + [op]);
    assert more.terms[n] == t.terms[n];
    if n > 0 {
      assert more.ops[n - 1] == t.ops[n - 1];
      EvaluateFront(t, x, op, resolver, maxExpand, n - 1);
    }
  }

  lemma EvaluateOne(x: string, resolver: Resolver, maxExpand: int)
    ensures Evaluate(Tokens([x], []), resolver, maxExpand, 0) == TermSet(x, resolver, maxExpand)
  {
  }

  /**
   An expression, an operator and one more operand stand for something exactly when both
   sides do, and then for the union, the difference, the common names or the names on
   one side only.
   */
  lemma OperatorLaw(e: string, op: char, t: string, resolver: Resolver, maxExpand: int)
    requires IsOperator(op) && OneOperand(t)
    ensures var x, y := Meaning(e, resolver, maxExpand), Meaning(t, resolver, maxExpand);
            var z := Meaning(e + [op] + t, resolver, maxExpand);
            && (z.Ok? <==> x.Ok? && y.Ok?)
            && (z.Ok? ==> forall name :: Combines(op, name in x.value, name in y.value, name in z.value))
  {
    hide Meaning, Evaluate, TermSet, TrimSpace;
    MeaningReads(e, resolver, maxExpand);
    MeaningReads(t, resolver, maxExpand);
    MeaningReads(e + [op] + t, resolver, maxExpand);
    ReadsTerm(t);
    ReadsMore("", e, op, t, 0);
    EvaluateOne(TrimSpace(t), resolver, maxExpand);
    var r := Reads("", e, 0);
    if r.Ok? && TrimSpace(t) != "" {
      EvaluateFront(r.value, TrimSpace(t), op, resolver, maxExpand, |r.value.ops|);
      LastOperator(r.value, TrimSpace(t), op, resolver, maxExpand);
    }
  }

  lemma LastOperator(t: Tokens, x: string, op: char, resolver: Resolver, maxExpand: int)
    requires |t.terms| == |t.ops| + 1 && IsOperator(op)
    ensures var n := |t.ops|;
            var more := Tokens(t.terms + [x], t.ops + [op]);
            var left := Evaluate(more, resolver, maxExpand, n);
            var right := TermSet(x, resolver, maxExpand);
            var both := Evaluate(more, resolver, maxExpand, n + 1);
            && (both.Ok? <==> left.Ok? && right.Ok?)
            && (both.Ok? ==> forall name :: Combines(op, name in left.value, name in right.value, name in both.value))
  {
    hide TermSet;
    var n := |t.ops|;
    assert (t.terms + [x])[n + 1] == x && (t.ops + [op])[n] == op;
  }

  /** The same for what is denoted: nothing is added to the laws but the test of the size. */
  lemma DenotesOperator(e: string, op: char, t: string, resolver: Resolver, maxExpand: int) returns (names: set<string>)
    requires IsOperator(op) && OneOperand(t)
    requires Denotes(e, resolver, maxExpand).Ok? && Denotes(t, resolver, maxExpand).Ok?
    ensures forall name :: Combines(op, name in Denotes(e, resolver, maxExpand).value,
                                    name in Denotes(t, resolver, maxExpand).value, name in names)
    ensures Denotes(e + [op] + t, resolver, maxExpand) == if |names| > maxExpand then Err(TooManyNodes) else Ok(names)
  {
    hide Meaning;
    OperatorLaw(e, op, t, resolver, maxExpand);
    names := Meaning(e + [op] + t, resolver, maxExpand).value;
  }

  // ---------------------------------------------------------------- single operands

  /** An operand alone stands for the names of the trimmed term. */
  lemma OperandMeans(t: string, resolver: Resolver, maxExpand: int)
    requires OneOperand(t) && TrimSpace(t) != ""
    ensures Meaning(t, resolver, maxExpand) == TermSet(TrimSpace(t), resolver, maxExpand)
  {
    hide TermSet, Evaluate, Meaning;
    MeaningReads(t, resolver, maxExpand);
    ReadsTerm(t);
    EvaluateOne(TrimSpace(t), resolver, maxExpand);
  }

  /** A group reference: what stands in front of the first colon, if there is one, is the source. */
  lemma GroupMeans(source: string, group: string, members: map<(string, string), seq<string>>, maxExpand: int)
    requires ':' !in source
    ensures TermSet("@" + source + ":" + group, NoResolver, maxExpand) == Err(NoGroupResolver)
    ensures var r := TermSet("@" + source + ":" + group, Groups(members), maxExpand);
            if (source, group) in members
            then r.Ok? && forall name :: name in r.value <==> name in members[(source, group)]
            else r == Err(UnknownGroup)
  {
    var ref := source + [':'] + group;
    assert ("@" + source + ":" + group)[1..] == ref;
    IndexAfter(source, ':', group);
    assert ref[..|source|] == source && ref[|source| + 1..] == group;
  }

  lemma PlainGroupMeans(group: string, members: map<(string, string), seq<string>>, maxExpand: int)
    requires ':' !in group
    ensures TermSet("@" + group, NoResolver, maxExpand) == Err(NoGroupResolver)
    ensures var r := TermSet("@" + group, Groups(members), maxExpand);
            if ("", group) in members then r.Ok? && forall name :: name in r.value <==> name in members[("", group)]
            else r == Err(UnknownGroup)
  {
    assert ("@" + group)[1..] == group;
  }

  // ---------------------------------------------------------------- what is wrong with an expression

  /** After a good expression the scanner goes on with the last operand. */
  lemma {:induction false} ReadsOn(cur: string, e: string, depth: nat, x: string) returns (last: string)
    requires Reads(cur, e, depth).Ok?
    ensures TrimSpace(last) != ""
    ensures Reads(last, x, 0).Err? ==> Reads(cur, e + x, depth) == Reads(last, x, 0)
    decreases |e|
  {
    hide TrimSpace;
    if e == "" {
      last := cur;
      assert e + x == x;
    } else {
      var c, rest := e[0], e[1..];
      assert (e + x)[0] == c && (e + x)[1..] == rest + x;
      if c == '[' {
        last := ReadsOn(cur + [c], rest, depth + 1, x);
      } else if c == ']' {
        last := ReadsOn(cur + [c], rest, depth - 1, x);
      } else if IsOperator(c) && depth == 0 {
        last := ReadsOn("", rest, 0, x);
      } else {
        last := ReadsOn(cur + [c], rest, depth, x);
      }
    }
  }

  lemma MeaningFails(pattern: string, error: PatternError, resolver: Resolver, maxExpand: int)
    requires Reads("", pattern, 0) == Err(error) && TrimSpace(pattern) != ""
    ensures Meaning(pattern, resolver, maxExpand) == Err(error)
  {
    hide Evaluate;
    ReadsTrimmed(pattern);
    var expr := TrimSpace(pattern);
    ScanReads(expr, 0, 0, 0);
    assert expr[0..0] == "" && expr[0..] == expr;
  }

  lemma NotBlank(e: string, c: char, x: string)
    requires !IsSpace(c)
    ensures TrimSpace(e + [c] + x) != ""
  {
    hide TrimSpace;
    var s := e + [c] + x;
    var a, b := TrimSplits(s);
    assert s[|e|] == c;
    SpacesOnly(a, b, |e|);
  }

  lemma SpacesOnly(a: string, b: string, i: nat)
    requires AllSpaces(a) && AllSpaces(b)
    ensures a + "" + b == a + b && (i < |a + b| ==> IsSpace((a + b)[i]))
  {
  }

  lemma {:induction false} ReadsBlank(cur: string, blank: string)
    requires AllSpaces(blank) && AllSpaces(cur)
    ensures Reads(cur, blank, 0) == Err(TrailingOperator)
    ensures forall op, rest :: IsOperator(op) ==> Reads(cur, blank + ([op] + rest), 0) == Err(EmptyOperand)
    decreases |blank|
  {
    hide TrimSpace;
    AllTrimmed(cur);
    if blank != "" {
      var c := blank[0];
      assert c != '[' && c != ']' && !IsOperator(c);
      ReadsBlank(cur + [c], blank[1..]);
    }
    forall op, rest | IsOperator(op) ensures Reads(cur, blank + ([op] + rest), 0) == Err(EmptyOperand) {
      var s := blank + ([op] + rest);
      if blank == "" {
        assert s[0] == op;
      } else {
        assert s[0] == blank[0] && s[1..] == blank[1..] + ([op] + rest);
      }
    }
  }

  lemma AllTrimmed(s: string)
    requires AllSpaces(s)
    ensures TrimSpace(s) == ""
  {
    assert s + "" + "" == s;
    TrimsAround(s, "", "");
  }

  /** An operator with nothing behind it, or nothing but spaces. */
  lemma OperatorTrails(e: string, op: char, blank: string, resolver: Resolver, maxExpand: int)
    requires Reads("", e, 0).Ok? && IsOperator(op) && AllSpaces(blank)
    ensures Meaning(e + [op] + blank, resolver, maxExpand) == Err(TrailingOperator)
  {
    hide Meaning, TrimSpace;
    var x := [op] + blank;
    ReadsBlank("", blank);
    var last := ReadsOn("", e, 0, x);
    assert x[0] == op && x[1..] == blank && e + x == e + [op] + blank;
    NotBlank(e, op, blank);
    MeaningFails(e + x, TrailingOperator, resolver, maxExpand);
  }

  /** Nothing between two operators. */
  lemma OperandMissing(e: string, op: char, blank: string, op2: char, rest: string, resolver: Resolver, maxExpand: int)
    requires Reads("", e, 0).Ok? && IsOperator(op) && IsOperator(op2) && AllSpaces(blank)
    ensures Meaning(e + [op] + (blank + ([op2] + rest)), resolver, maxExpand) == Err(EmptyOperand)
  {
    hide Meaning, TrimSpace;
    var more := blank + ([op2] + rest);
    var x := [op] + more;
    ReadsBlank("", blank);
    var last := ReadsOn("", e, 0, x);
    assert x[0] == op && x[1..] == more && e + x == e + [op] + more;
    NotBlank(e, op, more);
    MeaningFails(e + x, EmptyOperand, resolver, maxExpand);
  }

  /** A closing bracket that was not opened. */
  lemma BracketUnmatched(e: string, rest: string, resolver: Resolver, maxExpand: int)
    requires Reads("", e, 0).Ok?
    ensures Meaning(e + "]" + rest, resolver, maxExpand) == Err(UnmatchedBracket)
  {
    hide Meaning, TrimSpace;
    var x := "]" + rest;
    var last := ReadsOn("", e, 0, x);
    assert x[0] == ']' && e + x == e + "]" + rest;
    NotBlank(e, ']', rest);
    MeaningFails(e + x, UnmatchedBracket, resolver, maxExpand);
  }

  /** An opening bracket that is not closed. */
  lemma BracketUnclosed(e: string, t: string, resolver: Resolver, maxExpand: int)
    requires Reads("", e, 0).Ok? && OneOperand(t)
    ensures Meaning(e + "[" + t, resolver, maxExpand) == Err(UnclosedBracket)
  {
    hide Meaning, TrimSpace;
    var x := "[" + t;
    var last := ReadsOn("", e, 0, x);
    assert x[0] == '[' && x[1..] == t && e + x == e + "[" + t;
    assert t[0..] == t;
    ReadsOpen(last + ['['], t, 0, 0, 1);
    NotBlank(e, '[', t);
    MeaningFails(e + x, UnclosedBracket, resolver, maxExpand);
  }

  /** Nothing but spaces. */
  lemma NothingMeant(blank: string, resolver: Resolver, maxExpand: int)
    requires AllSpaces(blank)
    ensures Denotes(blank, resolver, maxExpand) == Err(EmptyPattern)
  {
    AllTrimmed(blank);
  }
}
