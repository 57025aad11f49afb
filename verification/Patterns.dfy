/** Nodeset patterns, and what a pattern denotes. */
module Patterns {
  import opened Wrappers
  import opened Ordering
  import opened Text
  import opened RangeSets
  import opened Listings
  import Brackets
  import opened BracketFold
  import opened Cartesian

  datatype PatternError =
    | EmptyPattern
    | UnclosedBracket
    | UnmatchedBracket
    | EmptyOperand
    | TrailingOperator
    | BadBracket(cause: Brackets.BracketError)
    | TooManyNodes
    | NoGroupResolver
    | UnknownGroup

  /** Who knows the members of a group, by source and group name. */
  datatype Resolver = NoResolver | Groups(members: map<(string, string), seq<string>>)

  // ---------------------------------------------------------------- segments of a term

  /** The segments up to and including the first bracket of a term, and where that bracket ends. */
  datatype Head = Head(segments: seq<Segment>, next: nat)

  ghost function FirstBracket(term: string): (r: Result<Head, PatternError>)
    requires IndexOf(term, '[') >= 0
    ensures r.Ok? ==> 0 < r.value.next <= |term|
  {
    var b := IndexOf(term, '[');
    var e := IndexOf(term[b..], ']');
    if e < 0 then Err(UnclosedBracket)
    else
      var values := Brackets.ParseBracket(term[b + 1..b + e]);
      if values.Err? then Err(BadBracket(values.error))
      else Ok(Head(Before(term, b) + [BracketOf(values.value)], b + e + 1))
  }

  function Before(term: string, b: nat): seq<Segment>
    requires b <= |term|
  {
    if b > 0 then [Literal(term[..b])] else []
  }

  ghost function BracketOf(b: Brackets.Bracket): Segment
  {
    Bracket(FormatAll(SortedInts(b.values), b.padding))
  }

  /** Literals and expanded brackets of a term, left to right; the first faulty bracket decides the error. */
  ghost function Segments(term: string): Result<seq<Segment>, PatternError>
    decreases |term|
  {
    if IndexOf(term, '[') < 0 then Ok(if term == "" then [] else [Literal(term)])
    else
      var head := FirstBracket(term);
      if head.Err? then Err(head.error)
      else Prepend(head.value.segments, Segments(term[head.value.next..]))
  }

  function Prepend(before: seq<Segment>, rest: Result<seq<Segment>, PatternError>): Result<seq<Segment>, PatternError>
  {
    if rest.Err? then rest else Ok(before + rest.value)
  }

  lemma PrependTwice(a: seq<Segment>, b: seq<Segment>, rest: Result<seq<Segment>, PatternError>)
    ensures Prepend(a, Prepend(b, rest)) == Prepend(a + b, rest)
  {
    if rest.Ok? {
      assert a + (b + rest.value) == a + b + rest.value;
    }
  }

  lemma PrependNone(rest: Result<seq<Segment>, PatternError>)
    ensures Prepend([], rest) == rest
  {
    assert rest.Ok? ==> [] + rest.value == rest.value;
  }

  method SplitBrackets(term: string) returns (r: Result<seq<Segment>, PatternError>)
    ensures r == Segments(term)
  {
    hide FirstBracket;
    var segments: seq<Segment> := [];
    var i := 0;
    assert term[0..] == term;
    PrependNone(Segments(term));
    while i < |term|
      invariant 0 <= i <= |term|
      invariant Segments(term) == Prepend(segments, Segments(term[i..]))
    {
      var b := IndexOf(term[i..], '[');
      if b < 0 {
        return Ok(segments + [Literal(term[i..])]);
      }
      var head := ReadBracket(term[i..], b);
      if head.Err? {
        return Err(head.error);
      }
      assert term[i..][head.value.next..] == term[i + head.value.next..];
      PrependTwice(segments, head.value.segments, Segments(term[i + head.value.next..]));
      segments := segments + head.value.segments;
      i := i + head.value.next;
    }
    assert term[i..] == "";
    assert segments + [] == segments;
    return Ok(segments);
  }

  /** The literal before the bracket at `b`, if any, and the bracket. */
  method ReadBracket(term: string, b: nat) returns (r: Result<Head, PatternError>)
    requires b == IndexOf(term, '[')
    ensures r == FirstBracket(term)
  {
    hide Brackets.ParseBracket;
    var segments: seq<Segment> := [];
    if b > 0 {
      segments := [Literal(term[..b])];
    }
    var e := IndexOf(term[b..], ']');
    if e < 0 {
      return Err(UnclosedBracket);
    }
    var content := term[b + 1..b + e];
    var parsed := Brackets.ParseBracketExpr(content);
    if parsed.Err? {
      return Err(BadBracket(parsed.error));
    }
    var strs := FormatEach(parsed.value.0, parsed.value.1);
    ghost var value := Brackets.ParseBracket(content).value;
    ListingUnique(parsed.value.0, SortedInts(value.values), value.values);
    return Ok(Head(segments + [Bracket(strs)], b + e + 1));
  }

  method FormatEach(values: seq<int>, padding: int) returns (strs: seq<string>)
    ensures strs == FormatAll(values, padding)
  {
    strs := [];
    for j := 0 to |values|
      invariant strs == FormatAll(values[..j], padding)
    {
      var s := if padding > 0 then Format(values[j], padding) else Format(values[j], 0);
      PlainFormat(values[j], padding);
      strs := strs + [s];
    }
    assert values[..|values|] == values;
  }

  lemma PlainFormat(v: int, padding: int)
    ensures padding <= 0 ==> Format(v, padding) == Format(v, 0)
  {
  }

  // ---------------------------------------------------------------- terms

  function GroupMembers(ref: string, resolver: Resolver): Result<seq<string>, PatternError>
  {
    if resolver.NoResolver? then Err(NoGroupResolver)
    else
      var colon := IndexOf(ref, ':');
      var key := if colon >= 0 then (ref[..colon], ref[colon + 1..]) else ("", ref);
      if key in resolver.members then Ok(resolver.members[key]) else Err(UnknownGroup)
  }

  /** The names a term stands for, in order. */
  ghost function TermNames(term: string, resolver: Resolver, maxExpand: int): Result<seq<string>, PatternError>
  {
    if term != "" && term[0] == '@' then GroupMembers(term[1..], resolver)
    else
      var segments := Segments(term);
      if segments.Err? then Err(segments.error)
      else if |segments.value| == 1 && segments.value[0].Literal? then Ok([term])
      else
        var names := Expanded(segments.value, maxExpand);
        if names.Err? then Err(TooManyNodes) else Ok(names.value)
  }

  method ExpandTerm(term: string, resolver: Resolver, maxExpand: int) returns (r: Result<seq<string>, PatternError>)
    ensures r == TermNames(term, resolver, maxExpand)
  {
    hide Segments, Expanded;
    if |term| > 0 && term[0] == '@' {
      return GroupMembers(term[1..], resolver);
    }
    var segments := SplitBrackets(term);
    if segments.Err? {
      return Err(segments.error);
    }
    if |segments.value| == 1 && segments.value[0].Literal? {
      return Ok([term]);
    }
    var names := CartesianExpand(segments.value, maxExpand);
    r := if names.Err? then Err(TooManyNodes) else Ok(names.value);
  }

  ghost function Elements(s: seq<string>): set<string>
  {
    set x | x in s
  }

  ghost function TermSet(term: string, resolver: Resolver, maxExpand: int): Result<set<string>, PatternError>
  {
    var names := TermNames(term, resolver, maxExpand);
    if names.Err? then Err(names.error) else Ok(Elements(names.value))
  }

  // ---------------------------------------------------------------- operators between terms

  datatype Tokens = Tokens(terms: seq<string>, ops: seq<char>)

  predicate IsOperator(c: char)
  {
    c == ',' || c == '!' || c == '&' || c == '^'
  }

  /** Scans `expr` from `i`, inside the operand that began at `start`, at bracket depth `depth`. */
  function Scan(expr: string, i: nat, start: nat, depth: nat): (r: Result<Tokens, PatternError>)
    requires start <= i <= |expr|
    ensures r.Ok? ==> |r.value.terms| == |r.value.ops| + 1
    decreases |expr| - i
  {
    if i == |expr| then
      if depth != 0 then Err(UnclosedBracket)
      else if TrimSpace(expr[start..]) == "" then Err(TrailingOperator)
      else Ok(Tokens([TrimSpace(expr[start..])], []))
    else if expr[i] == '[' then Scan(expr, i + 1, start, depth + 1)
    else if expr[i] == ']' then
      if depth == 0 then Err(UnmatchedBracket) else Scan(expr, i + 1, start, depth - 1)
    else if IsOperator(expr[i]) && depth == 0 then
      var term := TrimSpace(expr[start..i]);
      if term == "" then Err(EmptyOperand)
      else After([term], [expr[i]], Scan(expr, i + 1, i + 1, 0))
    else Scan(expr, i + 1, start, depth)
  }

  function After(terms: seq<string>, ops: seq<char>, rest: Result<Tokens, PatternError>): Result<Tokens, PatternError>
  {
    if rest.Err? then rest else Ok(Tokens(terms + rest.value.terms, ops + rest.value.ops))
  }

  lemma AfterTwice(a: seq<string>, o: seq<char>, b: seq<string>, p: seq<char>, rest: Result<Tokens, PatternError>)
    ensures After(a, o, After(b, p, rest)) == After(a + b, o + p, rest)
  {
    if rest.Ok? {
      assert a + (b + rest.value.terms) == a + b + rest.value.terms;
      assert o + (p + rest.value.ops) == o + p + rest.value.ops;
    }
  }

  lemma AfterNone(rest: Result<Tokens, PatternError>)
    ensures After([], [], rest) == rest
  {
    if rest.Ok? {
      assert [] + rest.value.terms == rest.value.terms && [] + rest.value.ops == rest.value.ops;
    }
  }

  method Tokenize(expr: string) returns (r: Result<Tokens, PatternError>)
    ensures r == Scan(expr, 0, 0, 0)
  {
    var depth, start := 0, 0;
    var terms: seq<string>, ops: seq<char> := [], [];
    AfterNone(Scan(expr, 0, 0, 0));
    for i := 0 to |expr|
      invariant depth >= 0 && 0 <= start <= i
      invariant Scan(expr, 0, 0, 0) == After(terms, ops, Scan(expr, i, start, depth))
    {
      if expr[i] == '[' {
        depth := depth + 1;
      } else if expr[i] == ']' {
        depth := depth - 1;
        if depth < 0 {
          return Err(UnmatchedBracket);
        }
      } else if IsOperator(expr[i]) {
        if depth == 0 {
          var term := TrimSpace(expr[start..i]);
          if term == "" {
            return Err(EmptyOperand);
          }
          AfterTwice(terms, ops, [term], [expr[i]], Scan(expr, i + 1, i + 1, 0));
          terms := terms + [term];
          ops := ops + [expr[i]];
          start := i + 1;
        }
      }
    }
    if depth != 0 {
      return Err(UnclosedBracket);
    }
    var term := TrimSpace(expr[start..]);
    if term == "" {
      return Err(TrailingOperator);
    }
    assert ops + [] == ops;
    terms := terms + [term];
    return Ok(Tokens(terms, ops));
  }

  function ApplyOp(op: char, a: set<string>, b: set<string>): set<string>
  {
    if op == ',' then a + b
    else if op == '!' then a - b
    else if op == '&' then a * b
    else if op == '^' then (a - b) + (b - a)
    else a
  }

  /** The set after the first `n` operators, applied left to right. */
  ghost function Evaluate(t: Tokens, resolver: Resolver, maxExpand: int, n: nat): Result<set<string>, PatternError>
    requires |t.terms| == |t.ops| + 1 && n <= |t.ops|
  {
    if n == 0 then TermSet(t.terms[0], resolver, maxExpand)
    else
      var left := Evaluate(t, resolver, maxExpand, n - 1);
      if left.Err? then left
      else
        var right := TermSet(t.terms[n], resolver, maxExpand);
        if right.Err? then right else Ok(ApplyOp(t.ops[n - 1], left.value, right.value))
  }

  /** The set of names a pattern stands for, however many they are. */
  ghost function Meaning(pattern: string, resolver: Resolver, maxExpand: int): Result<set<string>, PatternError>
  {
    var expr := TrimSpace(pattern);
    if expr == "" then Err(EmptyPattern)
    else
      var tokens := Scan(expr, 0, 0, 0);
      if tokens.Err? then Err(tokens.error)
      else Evaluate(tokens.value, resolver, maxExpand, |tokens.value.ops|)
  }

  /** The set of names a pattern denotes, if it is not too large. */
  ghost function Denotes(pattern: string, resolver: Resolver, maxExpand: int): Result<set<string>, PatternError>
  {
    var r := Meaning(pattern, resolver, maxExpand);
    if r.Ok? && |r.value| > maxExpand then Err(TooManyNodes) else r
  }

  lemma {:induction false} EvaluateStuck(t: Tokens, resolver: Resolver, maxExpand: int, n: nat, m: nat)
    requires |t.terms| == |t.ops| + 1 && n <= m <= |t.ops|
    requires Evaluate(t, resolver, maxExpand, n).Err?
    ensures Evaluate(t, resolver, maxExpand, m) == Evaluate(t, resolver, maxExpand, n)
  {
    if n < m {
      EvaluateStuck(t, resolver, maxExpand, n, m - 1);
    }
  }

  method ParseExpr(pattern: string, resolver: Resolver, maxExpand: int) returns (r: Result<set<string>, PatternError>)
    ensures r == Denotes(pattern, resolver, maxExpand)
  {
    hide Scan, TermNames;
    var expr := TrimSpace(pattern);
    if expr == "" {
      return Err(EmptyPattern);
    }
    var tokens := Tokenize(expr);
    if tokens.Err? {
      return Err(tokens.error);
    }
    ghost var t := tokens.value;
    var terms, ops := tokens.value.terms, tokens.value.ops;
    var first := ExpandTerm(terms[0], resolver, maxExpand);
    if first.Err? {
      EvaluateStuck(t, resolver, maxExpand, 0, |ops|);
      return Err(first.error);
    }
    var resultSet := set x | x in first.value;
    for i := 0 to |ops|
      invariant Evaluate(t, resolver, maxExpand, i) == Ok(resultSet)
    {
      var rhs := ExpandTerm(terms[i + 1], resolver, maxExpand);
      if rhs.Err? {
        EvaluateStuck(t, resolver, maxExpand, i + 1, |ops|);
        return Err(rhs.error);
      }
      var rhsSet := set x | x in rhs.value;
      match ops[i] {
        case ',' => resultSet := resultSet + rhsSet;
        case '!' => resultSet := resultSet - rhsSet;
        case '&' => resultSet := resultSet * rhsSet;
        case '^' => resultSet := (resultSet - rhsSet) + (rhsSet - resultSet);
        case _ =>
      }
    }
    if |resultSet| > maxExpand {
      return Err(TooManyNodes);
    }
    return Ok(resultSet);
  }

  /** The names of a pattern in sorted order. */
  method Expand(pattern: string, resolver: Resolver, maxExpand: int) returns (r: Result<seq<string>, PatternError>)
    ensures r.Err? <==> Denotes(pattern, resolver, maxExpand).Err?
    ensures r.Err? ==> r.error == Denotes(pattern, resolver, maxExpand).error
    ensures r.Ok? ==> Sorted(Less, r.value) && Distinct(r.value)
                      && Elements(r.value) == Denotes(pattern, resolver, maxExpand).value
  {
    hide Denotes, Sorted, Distinct;
    var nodes := ParseExpr(pattern, resolver, maxExpand);
    if nodes.Err? {
      return Err(nodes.error);
    }
    var sorted := SortedKeys(nodes.value);
    return Ok(sorted);
  }
}
