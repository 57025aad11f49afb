/** Small patterns, and exactly what they denote and match. */
module PatternExamples {
  import opened Wrappers
  import opened Ordering
  import opened Text
  import opened RangeSets
  import opened Listings
  import Brackets
  import opened BracketFold
  import opened Cartesian
  import opened Patterns
  import opened FoldRoundTrip
  import opened Matching
  import opened MatchExamples
  import opened Unions
  import opened Expressions
  import opened Spacing

  /** The names "n" followed by a number from `lo` to `hi`. */
  ghost predicate Numbered(name: string, lo: nat, hi: nat)
  {
    exists v: nat :: lo <= v <= hi && name == "n" + Itoa(v)
  }

  lemma BracketExpands(lo: nat, hi: nat, name: string)
    requires lo <= hi
    ensures InExpansion(OneBracket("n", lo, hi, ""), name) <==> Numbered(name, lo, hi)
  {
    hide InExpansion, OneBracket, Itoa, Prints, First, Next, IndexOf;
    var p := OneBracket("n", lo, hi, "");
    OneBracketParts("n", lo, hi, "");
    OneBracketSpelled("n", lo, hi, "", "");
    if InExpansion(p, name) {
      var nums := ExpansionOnlyIf(p, name);
      OnlyNumber(p, nums);
      OneBracketSpelled("n", lo, hi, "", nums[0]);
      var v := PrintedInRange(lo, hi, nums[0]);
      assert "n" + Itoa(v) + "" == "n" + Itoa(v);
    }
    if Numbered(name, lo, hi) {
      var v: nat :| lo <= v <= hi && name == "n" + Itoa(v);
      InRange(lo, hi, v);
      OneBracketSpelled("n", lo, hi, "", Itoa(v));
      ExpansionIf(p, [Itoa(v)]);
      assert "n" + Itoa(v) + "" == "n" + Itoa(v);
    }
  }

  /** A bracket of numbers is a term of its own. */
  lemma BracketIsTerm(lo: nat, hi: nat)
    requires lo <= hi
    ensures IsTerm(OneBracket("n", lo, hi, ""))
  {
    hide Itoa, IndexOf, FormatRange, Calm, Next;
    var text := FormatRange(Rang(lo, hi), 0);
    var p := OneBracket("n", lo, hi, "");
    RangeParses(lo, hi);
    assert p == "n" + "[" + text + "]";
    CalmBracket("n", text);
    OneBracketParts("n", lo, hi, "");
    OneBracketSpelled("n", lo, hi, "", "");
    NoBracketLeft();
    assert NoOperator("n") && NoOperator("");
    assert p[0] == 'n' && p[|p| - 1] == ']';
    LiteralsOfBracket(p);
  }

  lemma LiteralsOfBracket(p: string)
    requires HasBracket(p) && NoOperator(Lit(p)) && Rest(p) == ""
    ensures PlainLiterals(p)
  {
    NoBracketLeft();
    assert PlainLiterals("");
  }

  /** What a bracket of numbers stands for, when the limit leaves room for it. */
  lemma BracketMeans(lo: nat, hi: nat, resolver: Resolver, maxExpand: int)
    requires lo <= hi && |Range(lo, hi).values| <= maxExpand
    ensures var r := Meaning(OneBracket("n", lo, hi, ""), resolver, maxExpand);
            r.Ok? && forall name :: name in r.value <==> Numbered(name, lo, hi)
  {
    hide OneBracket, Meaning, TermSet, InExpansion, Numbered, WellFormed, PlainLiterals, Calm, FormatRange, FormatAll, Range,
         Brackets.ParseBracket, Segments, Elements, TermShape;
    var p, text := OneBracket("n", lo, hi, ""), FormatRange(Rang(lo, hi), 0);
    BracketIsTerm(lo, hi);
    IsOperand(p);
    OperandMeans(p, resolver, maxExpand);
    RangeParses(lo, hi);
    OneBracketText(lo, hi);
    SegmentsOfBracket("n", text);
    var strs := FormatAll(SortedInts(Range(lo, hi).values), Range(lo, hi).padding);
    ListingSize(SortedInts(Range(lo, hi).values), Range(lo, hi).values);
    TermSetOfBracket("n", text, strs, resolver, maxExpand);
    forall name ensures name in Meaning(p, resolver, maxExpand).value <==> Numbered(name, lo, hi) {
      TermSetIs(p, resolver, maxExpand, name);
      BracketExpands(lo, hi, name);
    }
  }

  lemma IsOperand(t: string)
    requires TermShape(t)
    ensures OneOperand(t) && TrimSpace(t) == t && t != ""
  {
    TrimNothing(t);
  }

  lemma OneBracketText(lo: nat, hi: nat)
    ensures OneBracket("n", lo, hi, "") == "n" + "[" + FormatRange(Rang(lo, hi), 0) + "]"
    ensures PlainStart("n")
  {
    hide FormatRange;
  }

  lemma NameMeans(x: string, resolver: Resolver, maxExpand: int)
    requires PlainName(x)
    ensures Meaning(x, resolver, maxExpand) == Ok({x}) && OneOperand(x)
  {
    hide TermSet, Meaning;
    PlainTerm(x, resolver, maxExpand);
    IsOperand(x);
    OperandMeans(x, resolver, maxExpand);
  }

  lemma NumberedIs(name: string)
    ensures Numbered(name, 1, 3) <==> name == "n1" || name == "n2" || name == "n3"
    ensures Numbered(name, 1, 2) <==> name == "n1" || name == "n2"
    ensures Numbered(name, 2, 3) <==> name == "n2" || name == "n3"
  {
    hide Itoa;
    SmallNumbers();
    if Numbered(name, 1, 3) {
      var v: nat :| 1 <= v <= 3 && name == "n" + Itoa(v);
      assert v == 1 || v == 2 || v == 3;
    }
  }

  lemma SmallRanges()
    ensures |Range(1, 3).values| == 3 && |Range(1, 2).values| == 2 && |Range(2, 3).values| == 2
  {
    assert Range(1, 3).values == {1, 2, 3};
    assert Range(1, 2).values == {1, 2};
    assert Range(2, 3).values == {2, 3};
  }

  lemma SmallBrackets()
    ensures OneBracket("n", 1, 3, "") == "n[1-3]" && OneBracket("n", 1, 2, "") == "n[1-2]"
    ensures OneBracket("n", 2, 3, "") == "n[2-3]" && OneBracket("n", 5, 6, "") == "n[5-6]"
  {
    hide Itoa, FormatRange;
    SmallNumbers();
    RangeText(1, 3);
    RangeText(1, 2);
    RangeText(2, 3);
    RangeText(5, 6);
  }

  /** What is denoted is what is meant, when there is room for it. */
  lemma Denoted(pattern: string, names: set<string>, resolver: Resolver, maxExpand: int)
    requires Meaning(pattern, resolver, maxExpand).Ok? && |names| <= maxExpand
    requires forall name :: name in Meaning(pattern, resolver, maxExpand).value <==> name in names
    ensures Denotes(pattern, resolver, maxExpand) == Ok(names)
  {
    hide Meaning;
    assert Meaning(pattern, resolver, maxExpand).value == names;
  }

  lemma DifferenceDenotes(resolver: Resolver, maxExpand: int)
    requires maxExpand >= 3
    ensures Denotes("n[1-3]!n2", resolver, maxExpand) == Ok({"n1", "n3"})
  {
    hide Meaning, OneBracket, Range, Numbered, Denotes;
    SmallRanges();
    SmallBrackets();
    BracketMeans(1, 3, resolver, maxExpand);
    NameMeans("n2", resolver, maxExpand);
    OperatorLaw("n[1-3]", '!', "n2", resolver, maxExpand);
    assert "n[1-3]" + ['!'] + "n2" == "n[1-3]!n2";
    forall name ensures Numbered(name, 1, 3) && name !in {"n2"} <==> name in {"n1", "n3"} {
      NumberedIs(name);
    }
    Denoted("n[1-3]!n2", {"n1", "n3"}, resolver, maxExpand);
  }

  lemma IntersectionDenotes(resolver: Resolver, maxExpand: int)
    requires maxExpand >= 3
    ensures Denotes("n[1-3]&n2", resolver, maxExpand) == Ok({"n2"})
  {
    hide Meaning, OneBracket, Range, Numbered, Denotes;
    SmallRanges();
    SmallBrackets();
    BracketMeans(1, 3, resolver, maxExpand);
    NameMeans("n2", resolver, maxExpand);
    OperatorLaw("n[1-3]", '&', "n2", resolver, maxExpand);
    assert "n[1-3]" + ['&'] + "n2" == "n[1-3]&n2";
    forall name ensures Numbered(name, 1, 3) && name in {"n2"} <==> name in {"n2"} {
      NumberedIs(name);
    }
    Denoted("n[1-3]&n2", {"n2"}, resolver, maxExpand);
  }

  lemma SymmetricDenotes(resolver: Resolver, maxExpand: int)
    requires maxExpand >= 3
    ensures Denotes("n[1-2]^n[2-3]", resolver, maxExpand) == Ok({"n1", "n3"})
  {
    hide Meaning, OneBracket, Range, Numbered, Denotes, OneOperand, TermShape, WellFormed, PlainLiterals;
    SmallRanges();
    SmallBrackets();
    BracketMeans(1, 2, resolver, maxExpand);
    BracketMeans(2, 3, resolver, maxExpand);
    BracketIsTerm(2, 3);
    IsOperand("n[2-3]");
    OperatorLaw("n[1-2]", '^', "n[2-3]", resolver, maxExpand);
    assert "n[1-2]" + ['^'] + "n[2-3]" == "n[1-2]^n[2-3]";
    forall name ensures Numbered(name, 1, 2) != Numbered(name, 2, 3) <==> name in {"n1", "n3"} {
      NumberedIs(name);
    }
    Denoted("n[1-2]^n[2-3]", {"n1", "n3"}, resolver, maxExpand);
  }

  /** Spaces around the terms of a union do not belong to the names. */
  lemma SpacedUnionDenotes(resolver: Resolver, maxExpand: int)
    requires maxExpand >= 3
    ensures Denotes("n1, n2", resolver, maxExpand) == Ok({"n1", "n2"})
  {
    hide Meaning, Denotes, Calm;
    NameMeans("n1", resolver, maxExpand);
    NameMeans("n2", resolver, maxExpand);
    OperatorLaw("n1", ',', "n2", resolver, maxExpand);
    assert "n1" + [','] + "n2" == "n1,n2";
    Denoted("n1,n2", {"n1", "n2"}, resolver, maxExpand);
    var parts, terms := ["n1", " n2"], ["n1", "n2"];
    assert parts[0] == "" + "n1" + "" && parts[1] == " " + "n2" + "" && AllSpaces("") && AllSpaces(" ");
    assert Padded(parts[0], terms[0]) && Padded(parts[1], terms[1]);
    JoinPair("n1", " n2");
    JoinPair("n1", "n2");
    SpacedDenotes(parts, terms, resolver, maxExpand);
    assert "n1" + [','] + " n2" == "n1, n2";
  }

  lemma JoinPair(a: string, b: string)
    ensures Join([a, b], ',') == a + [','] + b
  {
    assert [a, b][1..] == [b];
  }

  /** Nor does the fast matcher take them for part of a name. */
  lemma SpacedUnionMatches()
    ensures MatchParts(Split("n[1-2], n[5-6]", ','), "n5") == Ok(true)
  {
    hide MatchFrom, Split, MatchParts, Join;
    SecondMatches();
    SpacedSecond("n[1-2]", "n[5-6]", "n5");
    assert "n[1-2]" + [','] + (" " + "n[5-6]") == "n[1-2], n[5-6]";
  }

  /** The second of two terms matches, with a space in front of it. */
  lemma SpacedSecond(p: string, q: string, h: string)
    requires p != "" && q != "" && Trimmed(p) && Trimmed(q) && ',' !in p && ',' !in q
    requires MatchFrom(p, h) == Ok(false) && MatchFrom(q, h) == Ok(true)
    ensures MatchParts(Split(p + [','] + (" " + q), ','), h) == Ok(true)
  {
    hide MatchFrom, Split, MatchParts, Join, TrimSpace;
    var parts, terms := [p, " " + q], [p, q];
    assert parts[0] == "" + p + "" && parts[1] == " " + q + "" && AllSpaces("") && AllSpaces(" ");
    assert Padded(parts[0], terms[0]) && Padded(parts[1], terms[1]);
    PaddedIsSpaced(parts, terms);
    SpacedMatches(parts, terms, h);
    JoinPair(p, " " + q);
    SplitJoin(terms, ',');
    TrimNothing(p);
    TrimNothing(q);
    assert Undecided(terms[0], h) && !Undecided(terms[1], h);
    FirstDecides(terms, h, 1);
  }

  lemma SecondMatches()
    ensures MatchFrom("n[1-2]", "n5") == Ok(false) && MatchFrom("n[5-6]", "n5") == Ok(true)
  {
    hide MatchFrom, OneBracket, Itoa, Accepts, IndexOf, First, Next, Range;
    SmallBrackets();
    SmallNumbers();
    OneBracketParts("n", 1, 2, "");
    OneBracketParts("n", 5, 6, "");
    MatchBracket("n[1-2]", "n5");
    MatchBracket("n[5-6]", "n5");
    assert "n5"[1..] == "5" && "n" <= "n5";
    InRange(5, 6, 5);
    NotOneOrTwo();
  }

  lemma NotOneOrTwo()
    ensures !Accepts(Range(1, 2), "5")
  {
    assert "5"[..0] == "" && DigitsVal("5") == 5;
  }

  /** A blank part is skipped by the fast matcher, and is an error where the pattern is expanded. */
  lemma BlankPart(resolver: Resolver, maxExpand: int)
    ensures Denotes("n1,,n2", resolver, maxExpand) == Err(EmptyOperand)
    ensures MatchParts(Split("n1,,n2", ','), "n2") == Ok(true)
  {
    hide MatchFrom, Split, MatchParts, Join, Meaning, Reads, IndexOf;
    NameMeans("n1", resolver, maxExpand);
    MeaningReads("n1", resolver, maxExpand);
    OperandMissing("n1", ',', "", ',', "n2", resolver, maxExpand);
    assert "n1" + [','] + ("" + ([','] + "n2")) == "n1,,n2";
    var parts := ["n1", "", "n2"];
    JoinPair("", "n2");
    assert parts[1..] == ["", "n2"];
    JoinThree("n1", "", "n2");
    SplitJoin(parts, ',');
    TrimNothing("n1");
    TrimNothing("n2");
    TrimNothing("");
    PlainMatches("n1", "n2");
    PlainMatches("n2", "n2");
    assert Undecided(parts[0], "n2") && Undecided(parts[1], "n2") && !Undecided(parts[2], "n2");
    FirstDecides(parts, "n2", 2);
  }

  lemma JoinThree(a: string, b: string, c: string)
    ensures Join([a, b, c], ',') == a + [','] + (b + ([','] + c))
  {
    hide Join;
    JoinPair(b, c);
    JoinConcat([a], [b, c], ',');
    assert [a] + [b, c] == [a, b, c];
    JoinOne(a);
    assert a + [','] + (b + [','] + c) == a + [','] + (b + ([','] + c));
  }

  lemma JoinOne(a: string)
    ensures Join([a], ',') == a
  {
  }

  lemma PlainMatches(p: string, h: string)
    requires '[' !in p && p != ""
    ensures MatchFrom(p, h) == Ok(p == h)
  {
    MatchLiteral(p, h);
  }
}
