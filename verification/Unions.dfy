/** Comma-separated patterns: the fast matcher against what the pattern denotes. */
module Unions {
  // The fast matcher splits at every comma. That agrees with the pattern's meaning
  // exactly when no comma lies inside a bracket.

  import opened Wrappers
  import opened Text
  import opened Cartesian
  import opened Patterns
  import opened FoldRoundTrip
  import opened Matching

  // ---------------------------------------------------------------- terms of a union

  /** No character outside the brackets is an operator. */
  ghost predicate PlainLiterals(t: string)
    decreases |t|
  {
    if !HasBracket(t) then NoOperator(t) else NoOperator(Lit(t)) && PlainLiterals(Rest(t))
  }

  ghost predicate NoOperator(s: string)
  {
    forall i :: 0 <= i < |s| ==> !IsOperator(s[i])
  }

  /** A term as it stands between the commas of a union: trimmed, no group, well-formed brackets. */
  ghost predicate IsTerm(t: string)
  {
    TermShape(t) && t[0] != '@' && WellFormed(t) && PlainLiterals(t)
  }

  ghost predicate AreTerms(terms: seq<string>)
  {
    terms != [] && forall i :: 0 <= i < |terms| ==> IsTerm(terms[i])
  }

  /** Some term expands to the name. */
  ghost predicate InSomeExpansion(terms: seq<string>, name: string)
  {
    exists i :: 0 <= i < |terms| && InExpansion(terms[i], name)
  }

  // ---------------------------------------------------------------- what a union denotes

  lemma TermSetIs(t: string, resolver: Resolver, maxExpand: int, name: string)
    requires IsTerm(t) && TermSet(t, resolver, maxExpand).Ok?
    ensures name in TermSet(t, resolver, maxExpand).value <==> InExpansion(t, name)
  {
    hide Segments, Product, WellFormed, PlainLiterals;
    SegmentsWellFormed(t);
    var segs := Segments(t).value;
    if |segs| == 1 && segs[0].Literal? {
      OneLiteral(t);
      PlainExpansion(t, name);
    }
  }

  /** A term with a single literal segment has no bracket. */
  lemma OneLiteral(t: string)
    requires Segments(t).Ok? && |Segments(t).value| == 1 && Segments(t).value[0].Literal?
    ensures !HasBracket(t)
  {
    if HasBracket(t) {
      SegmentsWellFormed(t);
      SegmentsParts(t);
    }
  }

  lemma {:induction false} EvaluateIs(terms: seq<string>, resolver: Resolver, maxExpand: int, n: nat, name: string)
    requires AreTerms(terms) && n < |terms|
    requires Evaluate(Tokens(terms, Commas(|terms| - 1)), resolver, maxExpand, n).Ok?
    ensures name in Evaluate(Tokens(terms, Commas(|terms| - 1)), resolver, maxExpand, n).value <==>
            InSomeExpansion(terms[..n + 1], name)
  {
    hide IsTerm, TermSet, InExpansion;
    assert IsTerm(terms[n]);
    TermSetIs(terms[n], resolver, maxExpand, name);
    if n > 0 {
      EvaluateIs(terms, resolver, maxExpand, n - 1, name);
    }
    OneMoreTerm(terms, n, name);
  }

  lemma OneMoreTerm(terms: seq<string>, n: nat, name: string)
    requires n < |terms|
    ensures InSomeExpansion(terms[..n + 1], name) <==> InSomeExpansion(terms[..n], name) || InExpansion(terms[n], name)
  {
    hide InExpansion;
    var more := terms[..n + 1];
    assert more[n] == terms[n];
    if i :| 0 <= i < |terms[..n]| && InExpansion(terms[..n][i], name) {
      assert more[i] == terms[..n][i];
    }
    if i :| 0 <= i < |more| && InExpansion(more[i], name) {
      assert i < n ==> more[i] == terms[..n][i];
    }
  }

  /** A union that is within the limits denotes the names its terms expand to. */
  lemma UnionDenotes(terms: seq<string>, resolver: Resolver, maxExpand: int, name: string)
    requires AreTerms(terms) && Denotes(Join(terms, ','), resolver, maxExpand).Ok?
    ensures name in Denotes(Join(terms, ','), resolver, maxExpand).value <==> InSomeExpansion(terms, name)
  {
    hide Evaluate, WellFormed, PlainLiterals;
    var text, n := Join(terms, ','), |terms| - 1;
    assert forall i :: 0 <= i < |terms| ==> IsTerm(terms[i]) && TermShape(terms[i]);
    JoinEnds(terms);
    TrimNothing(text);
    assert "" + text == text;
    ScanJoin("", terms);
    EvaluateIs(terms, resolver, maxExpand, n, name);
    assert terms[..n + 1] == terms;
  }

  // ---------------------------------------------------------------- unions without commas in brackets

  lemma {:induction false} WellFormedAnswers(p: string, h: string)
    requires WellFormed(p)
    ensures MatchFrom(p, h).Ok?
    decreases |p|
  {
    hide Accepts, Find, IndexOf, Next, First;
    if HasBracket(p) && Lit(p) <= h && Rest(p) != "" {
      var h1 := h[|Lit(p)|..];
      var at := Find(h1, Lit(Rest(p)));
      if at >= 0 {
        WellFormedAnswers(Rest(p), h1[at..]);
      }
    }
  }

  ghost predicate SomeAccepts(terms: seq<string>, h: string)
  {
    exists i :: 0 <= i < |terms| && MatchFrom(terms[i], h) == Ok(true)
  }

  /** Tried in order, well-formed terms give true exactly when one of them accepts. */
  lemma {:induction false} PartsAnswer(terms: seq<string>, h: string)
    requires forall i :: 0 <= i < |terms| ==> IsTerm(terms[i])
    ensures MatchParts(terms, h) == Ok(SomeAccepts(terms, h))
  {
    hide MatchFrom, IsTerm;
    if terms != [] {
      var t, rest := terms[0], terms[1..];
      assert forall i :: 0 <= i < |rest| ==> rest[i] == terms[i + 1];
      PartsAnswer(rest, h);
      TermTrimmed(t);
      WellFormedAnswers(t, h);
      if SomeAccepts(rest, h) {
        var i :| 0 <= i < |rest| && MatchFrom(rest[i], h) == Ok(true);
        assert MatchFrom(terms[i + 1], h) == Ok(true);
      }
      if SomeAccepts(terms, h) {
        var i :| 0 <= i < |terms| && MatchFrom(terms[i], h) == Ok(true);
        assert i > 0 ==> rest[i - 1] == terms[i];
      }
    }
  }

  lemma TermTrimmed(t: string)
    requires IsTerm(t)
    ensures TrimSpace(t) == t && t != "" && WellFormed(t)
  {
    TrimNothing(t);
  }

  ghost predicate NoCommas(terms: seq<string>)
  {
    forall i :: 0 <= i < |terms| ==> ',' !in terms[i]
  }

  /** On a union without commas in brackets the fast matcher answers whether some term accepts. */
  lemma UnionAnswer(terms: seq<string>, h: string)
    requires AreTerms(terms) && NoCommas(terms)
    ensures MatchParts(Split(Join(terms, ','), ','), h) == Ok(SomeAccepts(terms, h))
  {
    hide IsTerm;
    SplitJoin(terms, ',');
    PartsAnswer(terms, h);
  }

  ghost predicate AllFit(terms: seq<string>)
    requires AreTerms(terms)
  {
    forall i :: 0 <= i < |terms| ==> Fits(terms[i])
  }

  ghost predicate NoneEmpty(terms: seq<string>)
    requires AreTerms(terms)
  {
    forall i :: 0 <= i < |terms| ==> NoEmptyBracket(terms[i])
  }

  /** The name spells a term, and with its unpadded numbers stripped of zeros it is denoted. */
  ghost predicate StripsInto(terms: seq<string>, name: string)
    requires AreTerms(terms)
  {
    exists i, nums :: 0 <= i < |terms| && AllAccepted(terms[i], nums) && name == SpellOut(terms[i], nums)
                      && InSomeExpansion(terms, SpellOut(terms[i], StripAll(terms[i], nums)))
  }

  /**
   Agreement on one name: the matcher answers, it answers true to every denoted name,
   and only to names that a term expands to once leading zeros are stripped.
   */
  ghost predicate Agrees(terms: seq<string>, name: string)
    requires AreTerms(terms)
  {
    var r := MatchParts(Split(Join(terms, ','), ','), name);
    && r.Ok?
    && (InSomeExpansion(terms, name) ==> r.value)
    && (r.value ==> StripsInto(terms, name))
  }

  /** Without commas in brackets the fast matcher agrees with expansion on every name. */
  lemma UnionAgrees(terms: seq<string>, name: string)
    requires AreTerms(terms) && AllFit(terms) && NoCommas(terms)
    ensures Agrees(terms, name)
  {
    hide IsTerm, Fits, NoEmptyBracket, InExpansion, MatchFrom, SpellOut, StripAll, AllAccepted, MatchParts, Split, Join;
    UnionAnswer(terms, name);
    if InSomeExpansion(terms, name) {
      var i :| 0 <= i < |terms| && InExpansion(terms[i], name);
      TermTrimmed(terms[i]);
      MatchAcceptsExpansion(terms[i], name);
    }
    if SomeAccepts(terms, name) {
      var i :| 0 <= i < |terms| && MatchFrom(terms[i], name) == Ok(true);
      TermTrimmed(terms[i]);
      var nums := MatchedIsExpansion(terms[i], name);
      assert InSomeExpansion(terms, SpellOut(terms[i], StripAll(terms[i], nums)));
    }
  }

  /** The matcher against the set a union without commas in brackets denotes. */
  lemma UnionMatches(terms: seq<string>, resolver: Resolver, maxExpand: int, name: string)
    requires AreTerms(terms) && AllFit(terms) && NoCommas(terms)
    requires Denotes(Join(terms, ','), resolver, maxExpand).Ok?
    ensures name in Denotes(Join(terms, ','), resolver, maxExpand).value ==>
              MatchParts(Split(Join(terms, ','), ','), name) == Ok(true)
    ensures MatchParts(Split(Join(terms, ','), ','), name) == Ok(true) ==>
              exists i, nums :: 0 <= i < |terms| && AllAccepted(terms[i], nums) && name == SpellOut(terms[i], nums)
                                && SpellOut(terms[i], StripAll(terms[i], nums))
                                   in Denotes(Join(terms, ','), resolver, maxExpand).value
  {
    hide IsTerm, Denotes, MatchParts, Join, Split, InSomeExpansion, AllFit, SpellOut, StripAll, AllAccepted;
    UnionAgrees(terms, name);
    UnionDenotes(terms, resolver, maxExpand, name);
    forall i | 0 <= i < |terms| ensures WellFormed(terms[i]) {
      TermTrimmed(terms[i]);
    }
    if MatchParts(Split(Join(terms, ','), ','), name) == Ok(true) {
      var i, nums :| 0 <= i < |terms| && AllAccepted(terms[i], nums) && name == SpellOut(terms[i], nums)
                     && InSomeExpansion(terms, SpellOut(terms[i], StripAll(terms[i], nums)));
      UnionDenotes(terms, resolver, maxExpand, SpellOut(terms[i], StripAll(terms[i], nums)));
    }
  }

  // ---------------------------------------------------------------- a comma inside a bracket

  /** Position `k` lies behind the opening of a bracket and not behind its closing. */
  ghost predicate InBracket(t: string, k: nat)
    decreases |t|
  {
    HasBracket(t) &&
    if k < Next(t) then IndexOf(t, '[') < k else InBracket(Rest(t), k - Next(t))
  }

  /** The first comma of a term lies inside a bracket. */
  lemma {:induction false} CommaInside(t: string)
    requires PlainLiterals(t) && ',' in t
    ensures InBracket(t, IndexOf(t, ','))
    decreases |t|
  {
    hide IndexOf, Next;
    var c := IndexOf(t, ',');
    if HasBracket(t) {
      CommaBehind(t);
      if c >= Next(t) {
        CommaInRest(t);
        CommaInside(Rest(t));
      }
    }
  }

  lemma CommaBehind(t: string)
    requires HasBracket(t) && NoOperator(Lit(t)) && ',' in t
    ensures IndexOf(t, '[') < IndexOf(t, ',')
  {
    hide IndexOf;
    assert t[IndexOf(t, ',')] == ',';
    BeforeFirst(t, ',', IndexOf(t, '['));
  }

  lemma CommaInRest(t: string)
    requires HasBracket(t) && Next(t) <= IndexOf(t, ',')
    ensures IndexOf(Rest(t), ',') == IndexOf(t, ',') - Next(t)
  {
    hide IndexOf, Next;
    var c, n := IndexOf(t, ','), Next(t);
    BeforeFirst(t, ',', c);
    NotBefore(Rest(t), ',', c - n);
    IndexOfIs(Rest(t), ',', c - n);
  }

  lemma NotBefore(s: string, c: char, n: nat)
    requires n <= |s| && forall k :: 0 <= k < n ==> s[k] != c
    ensures c !in s[..n]
  {
  }

  /** A piece of a term that ends inside a bracket begins like the term. */
  lemma PieceStarts(t: string, k: nat)
    requires HasBracket(t) && k <= |t| && IndexOf(t, '[') < k
    ensures HasBracket(t[..k]) && Lit(t[..k]) == Lit(t)
  {
    var b := IndexOf(t, '[');
    assert t[..k][..b] == t[..b];
    IndexOfIs(t[..k], '[', b);
  }

  lemma PieceOpen(t: string, k: nat)
    requires HasBracket(t) && First(t).Ok? && k < Next(t) && IndexOf(t, '[') < k
    ensures HasBracket(t[..k]) && First(t[..k]) == Err(UnclosedBracket)
  {
    hide Brackets.ParseBracket;
    PieceStarts(t, k);
    var b := IndexOf(t, '[');
    var e := IndexOf(t[b..], ']');
    var tail := t[..k][b..];
    assert tail == t[b..][..k - b] && k - b <= e;
    BeforeFirst(t[b..], ']', e);
    NotBefore(t[b..], ']', k - b);
    IndexAbsentHere(tail);
    IndexOfIs(t[..k], '[', b) by {
      assert t[..k][..b] == t[..b];
    }
  }

  lemma IndexAbsentHere(s: string)
    requires ']' !in s
    ensures IndexOf(s, ']') < 0
  {
  }

  lemma PieceGoesOn(t: string, k: nat)
    requires HasBracket(t) && First(t).Ok? && Next(t) <= k <= |t|
    ensures HasBracket(t[..k]) && First(t[..k]) == First(t) && Rest(t[..k]) == Rest(t)[..k - Next(t)]
  {
    hide Brackets.ParseBracket, IndexOf;
    PieceStarts(t, k);
    PieceCloses(t, k);
    var b := IndexOf(t, '[');
    var e := IndexOf(t[b..], ']');
    assert t[..k][b + 1..b + e] == t[b + 1..b + e];
  }

  lemma PieceCloses(t: string, k: nat)
    requires HasBracket(t) && First(t).Ok? && Next(t) <= k <= |t|
    ensures var b := IndexOf(t, '[');
            IndexOf(t[..k], '[') == b && IndexOf(t[..k][b..], ']') == IndexOf(t[b..], ']') >= 0
  {
    hide Brackets.ParseBracket, IndexOf;
    var b := IndexOf(t, '[');
    PrefixIndex(t, '[', k);
    assert t[..k][b..] == t[b..][..k - b];
    PrefixIndex(t[b..], ']', k - b);
  }

  lemma PrefixIndex(s: string, c: char, k: nat)
    requires 0 <= IndexOf(s, c) < k <= |s|
    ensures IndexOf(s[..k], c) == IndexOf(s, c)
  {
    hide IndexOf;
    var i := IndexOf(s, c);
    assert s[..k][..i] == s[..i];
    IndexOfIs(s[..k], c, i);
  }

  /**
   A piece that ends inside a bracket is an error on every name that spells the term,
   and whatever may follow it.
   */
  lemma {:induction false} PieceErrs(t: string, k: nat, nums: seq<string>, x: string)
    requires WellFormed(t) && k <= |t| && InBracket(t, k) && AllAccepted(t, nums) && AllFound(t, nums)
    ensures MatchFrom(t[..k], SpellOut(t, nums) + x) == Err(UnclosedBracket)
    decreases |t|
  {
    hide Accepts, Find, IndexOf, Next, First, MatchFrom, SpellOut, Found;
    var q, h := t[..k], SpellOut(t, nums) + x;
    SpellStep(t, nums);
    PieceStarts(t, k);
    var tail := SpellOut(Rest(t), nums[1..]) + x;
    assert h == Lit(t) + (nums[0] + tail);
    if k < Next(t) {
      PieceOpen(t, k);
      MatchLiteral(q, h);
    } else {
      var j := k - Next(t);
      PieceGoesOn(t, k);
      PieceErrs(Rest(t), j, nums[1..], x);
      PieceStarts(Rest(t), j);
      SpellPrefix(Rest(t), nums[1..]);
      FoundThrough(nums[0], Lit(Rest(t)), tail);
      MatchBracket(q, h);
      assert h[|Lit(q)|..] == nums[0] + tail;
      assert (nums[0] + tail)[..|nums[0]|] == nums[0] && (nums[0] + tail)[|nums[0]|..] == tail;
    }
  }

  // ---------------------------------------------------------------- trimming the piece

  lemma {:induction false} BeforeSpace(t: string, k: nat)
    requires k < |t| && InBracket(t, k + 1) && IsSpace(t[k])
    ensures InBracket(t, k)
    decreases |t|
  {
    hide IndexOf, Next;
    if k + 1 >= Next(t) {
      var j := k + 1 - Next(t);
      Opened(Rest(t), j);
      assert Rest(t)[j - 1] == t[k];
      BeforeSpace(Rest(t), j - 1);
    }
  }

  lemma Opened(t: string, k: nat)
    requires InBracket(t, k)
    ensures k > 0
  {
  }

  lemma {:induction false} TrimmedPiece(t: string, k: nat) returns (j: nat)
    requires k <= |t| && InBracket(t, k)
    ensures j <= k && InBracket(t, j) && TrimRight(t[..k]) == t[..j]
  {
    hide InBracket;
    Opened(t, k);
    if IsSpace(t[k - 1]) {
      BeforeSpace(t, k - 1);
      assert t[..k][..k - 1] == t[..k - 1];
      j := TrimmedPiece(t, k - 1);
    } else {
      j := k;
    }
  }

  /** The piece of a term in front of its first comma. */
  function Piece(t: string): string
  {
    if IndexOf(t, ',') < 0 then t else t[..IndexOf(t, ',')]
  }

  /** Trimmed, the piece fails on every name that spells the term, whatever may follow. */
  lemma FirstPieceErrs(t: string, nums: seq<string>, x: string)
    requires IsTerm(t) && ',' in t && AllAccepted(t, nums) && AllFound(t, nums)
    ensures TrimSpace(Piece(t)) != "" && MatchFrom(TrimSpace(Piece(t)), SpellOut(t, nums) + x) == Err(UnclosedBracket)
  {
    hide InBracket, MatchFrom, SpellOut, AllAccepted, AllFound, WellFormed, PlainLiterals, IndexOf;
    CommaInside(t);
    var k := IndexOf(t, ',');
    Opened(t, k);
    var j := TrimmedPiece(t, k);
    assert TrimLeft(t[..k]) == t[..k];
    Opened(t, j);
    PieceErrs(t, j, nums, x);
  }

  // ---------------------------------------------------------------- the piece among the parts

  lemma {:induction false} SplitBehind(a: seq<string>, s: string)
    requires a != [] && NoCommas(a)
    ensures Split(Join(a, ',') + "," + s, ',') == a + Split(s, ',')
  {
    hide Split;
    if |a| == 1 {
      SplitHead(a[0], s);
      assert a == [a[0]] && Join(a, ',') == a[0];
    } else {
      assert forall i :: 0 <= i < |a[1..]| ==> a[1..][i] == a[i + 1];
      var rest := Join(a[1..], ',');
      SplitBehind(a[1..], s);
      SplitHead(a[0], rest + "," + s);
      assert Join(a, ',') + "," + s == a[0] + "," + (rest + "," + s);
      assert a + Split(s, ',') == [a[0]] + (a[1..] + Split(s, ','));
    }
  }

  lemma SplitHead(t: string, rest: string)
    requires ',' !in t
    ensures Split(t + "," + rest, ',') == [t] + Split(rest, ',')
  {
    var whole := t + [','] + rest;
    IndexAfter(t, ',', rest);
    assert whole[..|t|] == t && whole[|t| + 1..] == rest;
  }

  lemma FirstPart(terms: seq<string>)
    requires terms != [] && ',' in terms[0]
    ensures Split(Join(terms, ','), ',')[0] == Piece(terms[0])
  {
    var t, c, text := terms[0], IndexOf(terms[0], ','), Join(terms, ',');
    assert t <= text && text[..c] == t[..c];
    IndexOfIs(text, ',', c);
  }

  /** The parts of a union whose first comma inside a bracket is in term `j`. */
  lemma PartsAround(terms: seq<string>, j: nat) returns (more: seq<string>)
    requires j < |terms| && NoCommas(terms[..j]) && ',' in terms[j]
    ensures Split(Join(terms, ','), ',') == terms[..j] + ([Piece(terms[j])] + more)
  {
    hide Split, Join;
    var a, b := terms[..j], terms[j..];
    assert terms == a + b;
    FirstPart(b);
    var parts := Split(Join(b, ','), ',');
    more := parts[1..];
    assert parts == [parts[0]] + more;
    if j == 0 {
      assert a + b == b && a + parts == parts;
    } else {
      JoinConcat(a, b, ',');
      SplitBehind(a, Join(b, ','));
    }
  }

  lemma {:induction false} MatchPartsConcat(a: seq<string>, b: seq<string>, h: string)
    ensures MatchParts(a + b, h) == if MatchParts(a, h) == Ok(false) then MatchParts(b, h) else MatchParts(a, h)
  {
    hide MatchFrom;
    if a == [] {
      assert a + b == b;
    } else {
      assert (a + b)[1..] == a[1..] + b;
      MatchPartsConcat(a[1..], b, h);
    }
  }

  /** Once the pieces are reached, a spelled name of the term ends in an error. */
  lemma CommaAnswer(terms: seq<string>, j: nat, nums: seq<string>, x: string)
    requires AreTerms(terms) && j < |terms| && NoCommas(terms[..j]) && ',' in terms[j]
    requires AllAccepted(terms[j], nums) && AllFound(terms[j], nums)
    ensures MatchParts(Split(Join(terms, ','), ','), SpellOut(terms[j], nums) + x) ==
            if SomeAccepts(terms[..j], SpellOut(terms[j], nums) + x) then Ok(true) else Err(UnclosedBracket)
  {
    hide MatchFrom, SpellOut, AllAccepted, AllFound, Piece, SomeAccepts, IsTerm, Split, Join;
    var h := SpellOut(terms[j], nums) + x;
    var more := PartsAround(terms, j);
    FirstPieceErrs(terms[j], nums, x);
    PartsAnswer(terms[..j], h);
    MatchPartsConcat(terms[..j], [Piece(terms[j])] + more, h);
  }

  /**
   A name of the first term with a comma in a bracket: accepted if an earlier term
   accepts it, and an unclosed bracket otherwise.
   */
  lemma CommaReached(terms: seq<string>, j: nat, name: string)
    requires AreTerms(terms) && j < |terms| && NoCommas(terms[..j]) && ',' in terms[j]
    requires Fits(terms[j]) && InExpansion(terms[j], name)
    ensures MatchParts(Split(Join(terms, ','), ','), name) ==
            if SomeAccepts(terms[..j], name) then Ok(true) else Err(UnclosedBracket)
  {
    hide MatchFrom, SpellOut, AllAccepted, AllFound, SomeAccepts, IsTerm, Fits, InExpansion, Split, Join;
    TermTrimmed(terms[j]);
    var nums := ExpansionOnlyIf(terms[j], name);
    PrintedFit(terms[j], nums);
    CommaAnswer(terms, j, nums, "");
    assert name + "" == name;
  }

  // ---------------------------------------------------------------- exactly when the matcher agrees

  lemma {:induction false} SpelledPlain(p: string, nums: seq<string>)
    requires WellFormed(p) && PlainLiterals(p) && AllDigitStrings(p, nums)
    ensures NoOperator(SpellOut(p, nums))
    decreases |p|
  {
    hide IndexOf, Next, First;
    if HasBracket(p) {
      SpelledPlain(Rest(p), nums[1..]);
    }
  }

  /** No term accepts a name with an operator in it. */
  lemma OperatorRejected(t: string, h: string, c: char)
    requires IsTerm(t) && IsOperator(c)
    ensures MatchFrom(t, h + [c]) != Ok(true)
  {
    hide MatchFrom, SpellOut, AllAccepted, AllFound, WellFormed, PlainLiterals;
    assert (h + [c])[|h|] == c;
    if MatchFrom(t, h + [c]) == Ok(true) {
      var nums := MatchOnlyIf(t, h + [c]);
      AcceptedDigits(t, nums);
      SpelledPlain(t, nums);
    }
  }

  lemma FirstComma(terms: seq<string>) returns (j: nat)
    requires !NoCommas(terms)
    ensures j < |terms| && ',' in terms[j] && NoCommas(terms[..j])
  {
    j := 0;
    assert terms[..|terms|] == terms;
    while ',' !in terms[j]
      invariant j < |terms| && NoCommas(terms[..j])
      decreases |terms| - j
    {
      assert terms[..j + 1] == terms[..j] + [terms[j]];
      assert NoCommas(terms[..j + 1]);
      j := j + 1;
    }
  }

  /** A name on which the matcher reports an error though expansion succeeds. */
  lemma DisagreesOn(terms: seq<string>) returns (name: string)
    requires AreTerms(terms) && AllFit(terms) && NoneEmpty(terms) && !NoCommas(terms)
    ensures MatchParts(Split(Join(terms, ','), ','), name) == Err(UnclosedBracket)
  {
    hide MatchFrom, SpellOut, AllAccepted, AllFound, IsTerm, Fits, NoEmptyBracket, Split, Join, MatchParts;
    var j := FirstComma(terms);
    var t := terms[j];
    TermTrimmed(t);
    var nums := SomePrinted(t);
    PrintedFit(t, nums);
    name := SpellOut(t, nums) + ['!'];
    forall i | 0 <= i < j ensures MatchFrom(terms[..j][i], name) != Ok(true) {
      OperatorRejected(terms[i], SpellOut(t, nums), '!');
    }
    CommaAnswer(terms, j, nums, ['!']);
  }

  /**
   Exactly when the fast matcher agrees with expansion on every name, for unions whose
   terms match their own expansions: when no bracket lists its values with commas.
   */
  lemma CommasExactly(terms: seq<string>)
    requires AreTerms(terms) && AllFit(terms) && NoneEmpty(terms)
    ensures (forall name :: Agrees(terms, name)) <==> NoCommas(terms)
  {
    hide AreTerms, AllFit, NoneEmpty, NoCommas;
    if NoCommas(terms) {
      forall name ensures Agrees(terms, name) {
        UnionAgrees(terms, name);
      }
    } else {
      var name := DisagreesOn(terms);
      assert !Agrees(terms, name);
    }
  }
}
