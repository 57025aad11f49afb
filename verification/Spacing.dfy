/** Unions whose terms have spaces around them. */
module Spacing {
  // Spaces around the terms change neither what a union denotes nor what it matches.
  // Blank parts between commas do not count for the matcher, and are an error elsewhere.

  import opened Wrappers
  import opened Text
  import opened Patterns
  import opened FoldRoundTrip
  import opened Matching
  import opened Unions
  import opened Expressions

  // ---------------------------------------------------------------- spaces and blank parts

  ghost predicate Padded(part: string, term: string)
  {
    exists a, b :: AllSpaces(a) && AllSpaces(b) && part == a + term + b
  }

  /** The terms in order, with spaces around them and blank parts between them. */
  ghost predicate Spaced(parts: seq<string>, terms: seq<string>)
  {
    if parts == [] then terms == []
    else
      || (AllSpaces(parts[0]) && Spaced(parts[1..], terms))
      || (terms != [] && Padded(parts[0], terms[0]) && Spaced(parts[1..], terms[1..]))
  }

  ghost predicate AllPaddedOut(parts: seq<string>, terms: seq<string>)
  {
    |parts| == |terms| && forall i :: 0 <= i < |parts| ==> Padded(parts[i], terms[i])
  }

  lemma PaddedTrims(part: string, term: string)
    requires Padded(part, term) && Trimmed(term)
    ensures TrimSpace(part) == term
  {
    var a, b :| AllSpaces(a) && AllSpaces(b) && part == a + term + b;
    TrimsAround(a, term, b);
  }

  lemma NoCommaPadded(part: string, term: string)
    requires (AllSpaces(part) && term == "") || (Padded(part, term) && ',' !in term)
    ensures ',' !in part
  {
    if !AllSpaces(part) {
      var a, b :| AllSpaces(a) && AllSpaces(b) && part == a + term + b;
    }
  }

  // ---------------------------------------------------------------- matching

  lemma {:induction false} SpacedParts(parts: seq<string>, terms: seq<string>, h: string)
    requires Spaced(parts, terms) && forall i :: 0 <= i < |terms| ==> terms[i] != "" && Trimmed(terms[i])
    ensures MatchParts(parts, h) == MatchParts(terms, h)
  {
    hide MatchFrom, TrimSpace, Padded, Trimmed;
    if parts != [] {
      if AllSpaces(parts[0]) && Spaced(parts[1..], terms) {
        AllTrimmed(parts[0]);
        SpacedParts(parts[1..], terms, h);
      } else {
        PaddedTrims(parts[0], terms[0]);
        TermStays(terms[0]);
        SpacedParts(parts[1..], terms[1..], h);
      }
    }
  }

  lemma TermStays(t: string)
    requires Trimmed(t)
    ensures TrimSpace(t) == t
  {
    TrimNothing(t);
  }

  lemma {:induction false} SpacedNoCommas(parts: seq<string>, terms: seq<string>)
    requires Spaced(parts, terms) && NoCommas(terms)
    ensures NoCommas(parts)
  {
    hide Padded, AllSpaces;
    if parts != [] {
      if AllSpaces(parts[0]) && Spaced(parts[1..], terms) {
        NoCommaPadded(parts[0], "");
        SpacedNoCommas(parts[1..], terms);
      } else {
        NoCommaPadded(parts[0], terms[0]);
        SpacedNoCommas(parts[1..], terms[1..]);
      }
      assert parts == [parts[0]] + parts[1..];
    }
  }

  /** Spaces and blank parts make no difference to the fast matcher. */
  lemma SpacedMatches(parts: seq<string>, terms: seq<string>, h: string)
    requires parts != [] && terms != [] && Spaced(parts, terms) && NoCommas(terms)
    requires forall i :: 0 <= i < |terms| ==> terms[i] != "" && Trimmed(terms[i])
    ensures MatchParts(Split(Join(parts, ','), ','), h) == MatchParts(Split(Join(terms, ','), ','), h)
  {
    hide MatchParts, Spaced, Split, Join, Trimmed;
    SpacedNoCommas(parts, terms);
    SplitJoin(parts, ',');
    SplitJoin(terms, ',');
    SpacedParts(parts, terms, h);
  }

  // ---------------------------------------------------------------- denoting

  lemma CalmSpaced(a: string, t: string, b: string)
    requires AllSpaces(a) && AllSpaces(b) && Calm(t, 0, 0)
    ensures Calm(a + t + b, 0, 0)
  {
    var s := a + t + b;
    CalmSkip(s, 0, |a|, 0);
    CalmInside(a, t, b, 0, 0);
  }

  lemma {:induction false} CalmInside(a: string, t: string, b: string, i: nat, d: nat)
    requires AllSpaces(b) && i <= |t| && Calm(t, i, d)
    ensures Calm(a + t + b, |a| + i, d)
    decreases |t| - i
  {
    var s := a + t + b;
    if i == |t| {
      CalmSkip(s, |a| + i, |s|, 0);
    } else {
      assert s[|a| + i] == t[i];
      if t[i] == '[' {
        CalmInside(a, t, b, i + 1, d + 1);
      } else if t[i] == ']' {
        CalmInside(a, t, b, i + 1, d - 1);
      } else {
        CalmInside(a, t, b, i + 1, d);
      }
    }
  }

  lemma PaddedOperand(part: string, term: string)
    requires Padded(part, term) && TermShape(term)
    ensures OneOperand(part) && TrimSpace(part) == term
  {
    PaddedTrims(part, term);
    var a, b :| AllSpaces(a) && AllSpaces(b) && part == a + term + b;
    CalmSpaced(a, term, b);
  }

  /** The tokens of a spaced union are the bare terms. */
  lemma {:induction false} SpacedReads(parts: seq<string>, terms: seq<string>)
    requires terms != [] && AllPaddedOut(parts, terms) && forall i :: 0 <= i < |terms| ==> TermShape(terms[i])
    ensures Reads("", Join(parts, ','), 0) == Ok(Tokens(terms, Commas(|terms| - 1)))
    decreases |terms|
  {
    hide TermShape, Padded, Reads, OneOperand;
    var last := |terms| - 1;
    PaddedOperand(parts[last], terms[last]);
    TermNotBlank(terms[last]);
    ReadsTerm(parts[last]);
    if last > 0 {
      var front := parts[..last];
      SpacedReads(front, terms[..last]);
      JoinConcat(front, [parts[last]], ',');
      assert parts == front + [parts[last]] && terms == terms[..last] + [terms[last]];
      ReadsMore("", Join(front, ','), ',', parts[last], 0);
      assert Commas(last) == Commas(last - 1) + [','];
    } else {
      assert parts == [parts[0]] && terms == [terms[0]] && Commas(0) == [];
    }
  }

  lemma TermNotBlank(t: string)
    requires TermShape(t)
    ensures t != ""
  {
  }

  lemma BarePadded(terms: seq<string>)
    ensures AllPaddedOut(terms, terms)
  {
    forall i | 0 <= i < |terms| ensures Padded(terms[i], terms[i]) {
      assert AllSpaces("") && terms[i] == "" + terms[i] + "";
    }
  }

  /** Spaces around the terms make no difference to what a union denotes. */
  lemma SpacedDenotes(parts: seq<string>, terms: seq<string>, resolver: Resolver, maxExpand: int)
    requires terms != [] && AllPaddedOut(parts, terms) && forall i :: 0 <= i < |terms| ==> TermShape(terms[i])
    ensures Denotes(Join(parts, ','), resolver, maxExpand) == Denotes(Join(terms, ','), resolver, maxExpand)
  {
    hide TermShape, AllPaddedOut, Reads, Meaning, Join, Evaluate;
    SpacedReads(parts, terms);
    BarePadded(terms);
    SpacedReads(terms, terms);
    MeaningReads(Join(parts, ','), resolver, maxExpand);
    MeaningReads(Join(terms, ','), resolver, maxExpand);
  }

  lemma {:induction false} PaddedIsSpaced(parts: seq<string>, terms: seq<string>)
    requires AllPaddedOut(parts, terms)
    ensures Spaced(parts, terms)
  {
    hide Padded, AllSpaces;
    if parts != [] {
      PaddedIsSpaced(parts[1..], terms[1..]);
    }
  }

  /** So the matcher agrees with expansion on spaced unions as on bare ones. */
  lemma SpacedAgree(parts: seq<string>, terms: seq<string>, resolver: Resolver, maxExpand: int, name: string)
    requires AllPaddedOut(parts, terms) && AreTerms(terms) && AllFit(terms) && NoCommas(terms)
    requires Denotes(Join(parts, ','), resolver, maxExpand).Ok?
    requires name in Denotes(Join(parts, ','), resolver, maxExpand).value
    ensures MatchParts(Split(Join(parts, ','), ','), name) == Ok(true)
  {
    hide AllPaddedOut, Denotes, MatchParts, Split, Join, AllFit, WellFormed, PlainLiterals, NoCommas;
    forall i | 0 <= i < |terms| ensures TermShape(terms[i]) && terms[i] != "" && Trimmed(terms[i]) {
      assert IsTerm(terms[i]);
    }
    SpacedDenotes(parts, terms, resolver, maxExpand);
    UnionMatches(terms, resolver, maxExpand, name);
    PaddedIsSpaced(parts, terms);
    SameLength(parts, terms);
    SpacedMatches(parts, terms, name);
  }

  lemma SameLength(parts: seq<string>, terms: seq<string>)
    requires AllPaddedOut(parts, terms)
    ensures |parts| == |terms|
  {
  }
}
