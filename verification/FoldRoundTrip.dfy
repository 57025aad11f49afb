/** Expanding what folding printed. */
module FoldRoundTrip {
  // For every list of plain names, the folded text denotes each name reprinted at
  // the widest zero padding of its group. So expanding it gives back exactly the
  // names when, and only when, every name is printed that way already.

  import opened Wrappers
  import opened Ordering
  import opened Text
  import opened RangeSets
  import opened Listings
  import Brackets
  import opened BracketFold
  import opened Cartesian
  import opened Patterns
  import opened Folding

  // ---------------------------------------------------------------- plain names

  predicate PlainChar(c: char)
  {
    c != '[' && c != ']' && !IsOperator(c)
  }

  ghost predicate PlainText(s: string)
  {
    forall i :: 0 <= i < |s| ==> PlainChar(s[i])
  }

  /** Begins like a term: not empty, not a group reference, no space in front. */
  ghost predicate PlainStart(s: string)
  {
    PlainText(s) && s != "" && s[0] != '@' && !IsSpace(s[0])
  }

  /** No brackets, no operators, not a group reference, no space around. */
  ghost predicate PlainName(n: string)
  {
    PlainStart(n) && !IsSpace(n[|n| - 1])
  }

  // ---------------------------------------------------------------- scanning terms

  /** Scanning `t` from `i` at bracket depth `d` meets no operator outside brackets and ends outside them. */
  ghost predicate Calm(t: string, i: nat, d: nat)
    requires i <= |t|
    decreases |t| - i
  {
    if i == |t| then d == 0
    else if t[i] == '[' then Calm(t, i + 1, d + 1)
    else if t[i] == ']' then d > 0 && Calm(t, i + 1, d - 1)
    else (d > 0 || !IsOperator(t[i])) && Calm(t, i + 1, d)
  }

  /** Characters that are not brackets, and not operators unless inside brackets, do not matter. */
  lemma {:induction false} CalmSkip(t: string, i: nat, j: nat, d: nat)
    requires i <= j <= |t|
    requires forall k :: i <= k < j ==> t[k] != '[' && t[k] != ']' && (d > 0 || !IsOperator(t[k]))
    ensures Calm(t, i, d) == Calm(t, j, d)
    decreases j - i
  {
    if i < j {
      CalmSkip(t, i + 1, j, d);
    }
  }

  lemma CalmPlain(t: string)
    requires PlainText(t)
    ensures Calm(t, 0, 0)
  {
    forall k | 0 <= k < |t| ensures t[k] != '[' && t[k] != ']' && !IsOperator(t[k]) {
      assert PlainChar(t[k]);
    }
    CalmSkip(t, 0, |t|, 0);
  }

  lemma CalmBracket(key: string, text: string)
    requires PlainText(key) && '[' !in text && ']' !in text
    ensures Calm(key + "[" + text + "]", 0, 0)
  {
    var t := key + "[" + text + "]";
    var a, b := |key|, |key| + 1 + |text|;
    forall k | 0 <= k < a ensures t[k] != '[' && t[k] != ']' && !IsOperator(t[k]) {
      assert t[k] == key[k] && PlainChar(key[k]);
    }
    CalmSkip(t, 0, a, 0);
    assert t[a] == '[' && t[b] == ']';
    forall k | a + 1 <= k < b ensures t[k] != '[' && t[k] != ']' {
      assert t[k] == text[k - a - 1];
    }
    CalmSkip(t, a + 1, b, 1);
    assert Calm(t, b + 1, 0);
  }

  lemma {:induction false} ScanCalm(expr: string, pre: string, t: string, post: string, i: nat, d: nat)
    requires expr == pre + t + post && i <= |t| && Calm(t, i, d)
    ensures Scan(expr, |pre| + i, |pre|, d) == Scan(expr, |pre| + |t|, |pre|, 0)
    decreases |t| - i
  {
    if i < |t| {
      assert expr[|pre| + i] == t[i];
      if t[i] == '[' {
        ScanCalm(expr, pre, t, post, i + 1, d + 1);
      } else if t[i] == ']' {
        ScanCalm(expr, pre, t, post, i + 1, d - 1);
      } else {
        ScanCalm(expr, pre, t, post, i + 1, d);
      }
    }
  }

  /** A term as the folder prints it: trimmed, and calm outside its brackets. */
  ghost predicate TermShape(t: string)
  {
    t != "" && !IsSpace(t[0]) && !IsSpace(t[|t| - 1]) && Calm(t, 0, 0)
  }

  function Commas(n: nat): (s: seq<char>)
    ensures |s| == n && forall i :: 0 <= i < n ==> s[i] == ','
  {
    seq(n, i => ',')
  }

  /** Tokenizing joined terms gives the terms back, with a comma between each two. */
  lemma {:induction false} ScanJoin(pre: string, terms: seq<string>)
    requires terms != [] && forall i :: 0 <= i < |terms| ==> TermShape(terms[i])
    ensures Scan(pre + Join(terms, ','), |pre|, |pre|, 0) == Ok(Tokens(terms, Commas(|terms| - 1)))
    decreases |terms|
  {
    hide TermShape;
    var t := terms[0];
    if |terms| == 1 {
      ScanLast(pre, t);
      assert terms == [t] && Commas(0) == [];
    } else {
      var rest := terms[1..];
      ScanJoin(pre + t + ",", rest);
      assert pre + Join(terms, ',') == pre + t + "," + Join(rest, ',');
      ScanFirst(pre, t, Join(rest, ','));
      assert terms == [t] + rest && Commas(|terms| - 1) == [','] + Commas(|rest| - 1);
    }
  }

  lemma ScanLast(pre: string, t: string)
    requires TermShape(t)
    ensures Scan(pre + t, |pre|, |pre|, 0) == Ok(Tokens([t], []))
  {
    TrimNothing(t);
    assert pre + t == pre + t + "";
    ScanCalm(pre + t, pre, t, "", 0, 0);
    assert (pre + t)[|pre|..] == t;
  }

  lemma ScanFirst(pre: string, t: string, rest: string)
    requires TermShape(t)
    ensures var expr := pre + t + "," + rest;
            Scan(expr, |pre|, |pre|, 0) == After([t], [','], Scan(expr, |pre + t + ","|, |pre + t + ","|, 0))
  {
    var expr := pre + t + "," + rest;
    TrimNothing(t);
    assert expr == pre + t + ("," + rest);
    ScanCalm(expr, pre, t, "," + rest, 0, 0);
    var end := |pre| + |t|;
    assert expr[end] == ',' && expr[|pre|..end] == t;
  }

  lemma {:induction false} JoinEnds(terms: seq<string>)
    requires terms != [] && forall i :: 0 <= i < |terms| ==> TermShape(terms[i])
    ensures var s := Join(terms, ',');
            s != "" && !IsSpace(s[0]) && !IsSpace(s[|s| - 1])
  {
    if |terms| > 1 {
      JoinEnds(terms[1..]);
    }
  }

  // ---------------------------------------------------------------- what joined terms denote

  /** The term stands for `names`, unless there are more of them than the limit allows. */
  ghost predicate TermMeans(term: string, names: set<string>, resolver: Resolver, maxExpand: int)
  {
    && TermShape(term)
    && (TermSet(term, resolver, maxExpand) == Ok(names)
        || (TermSet(term, resolver, maxExpand) == Err(TooManyNodes) && 0 < maxExpand < |names|))
  }

  ghost predicate TermsMean(terms: seq<string>, names: seq<set<string>>, resolver: Resolver, maxExpand: int)
  {
    |terms| == |names| && forall i :: 0 <= i < |terms| ==> TermMeans(terms[i], names[i], resolver, maxExpand)
  }

  ghost function UnionOf(names: seq<set<string>>): set<string>
  {
    if names == [] then {} else UnionOf(names[..|names| - 1]) + names[|names| - 1]
  }

  lemma {:induction false} UnionConcat(a: seq<set<string>>, b: seq<set<string>>)
    ensures UnionOf(a + b) == UnionOf(a) + UnionOf(b)
  {
    if b == [] {
      assert a + b == a;
    } else {
      assert (a + b)[..|a + b| - 1] == a + b[..|b| - 1];
      UnionConcat(a, b[..|b| - 1]);
    }
  }

  lemma {:induction false} PartOfUnion(names: seq<set<string>>, i: nat)
    requires i < |names|
    ensures names[i] <= UnionOf(names)
  {
    if i < |names| - 1 {
      PartOfUnion(names[..|names| - 1], i);
    }
  }

  lemma {:induction false} EvaluateUnion(terms: seq<string>, names: seq<set<string>>, resolver: Resolver, maxExpand: int,
                                         n: nat)
    requires n < |terms| && TermsMean(terms, names, resolver, maxExpand)
    ensures var r := Evaluate(Tokens(terms, Commas(|terms| - 1)), resolver, maxExpand, n);
            r == Ok(UnionOf(names[..n + 1]))
            || (r == Err(TooManyNodes) && exists i :: 0 <= i < |names| && 0 < maxExpand < |names[i]|)
  {
    hide TermShape, TermSet;
    assert TermMeans(terms[n], names[n], resolver, maxExpand);
    assert names[..n + 1] == names[..n] + [names[n]];
    assert names[..n + 1][..n] == names[..n];
    if n == 0 {
      assert names[..0] == [];
    } else {
      EvaluateUnion(terms, names, resolver, maxExpand, n - 1);
    }
  }

  /** Joined terms denote the union of what they stand for, when it is within the limit, and fail otherwise. */
  lemma DenotesJoin(terms: seq<string>, names: seq<set<string>>, resolver: Resolver, maxExpand: int)
    requires terms != [] && TermsMean(terms, names, resolver, maxExpand)
    ensures Denotes(Join(terms, ','), resolver, maxExpand) ==
            if |UnionOf(names)| > maxExpand then Err(TooManyNodes) else Ok(UnionOf(names))
  {
    var text := Join(terms, ',');
    var n := |terms| - 1;
    forall i | 0 <= i < |terms| ensures TermShape(terms[i]) {
      assert TermMeans(terms[i], names[i], resolver, maxExpand);
    }
    JoinEnds(terms);
    TrimNothing(text);
    assert "" + text == text;
    ScanJoin("", terms);
    EvaluateUnion(terms, names, resolver, maxExpand, n);
    assert names[..n + 1] == names;
    if i :| 0 <= i < |names| && 0 < maxExpand < |names[i]| {
      PartOfUnion(names, i);
      SubsetSize(names[i], UnionOf(names));
    }
  }

  // ---------------------------------------------------------------- what one term stands for

  lemma PlainTerm(x: string, resolver: Resolver, maxExpand: int)
    requires PlainName(x)
    ensures TermMeans(x, {x}, resolver, maxExpand)
  {
    CalmPlain(x);
    forall i | 0 <= i < |x| ensures x[i] != '[' {
      assert PlainChar(x[i]);
    }
    IndexAbsent(x, '[');
    assert Elements([x]) == {x};
  }

  ghost function NamesAt(key: string, values: set<int>, padding: int): set<string>
  {
    set v | v in values :: key + Format(v, padding)
  }

  lemma NoBracketIn(key: string)
    requires PlainText(key)
    ensures '[' !in key
  {
    forall i | 0 <= i < |key| ensures key[i] != '[' {
      assert PlainChar(key[i]);
    }
  }

  /** Where the bracket of such a term is, and what is in it. */
  lemma BracketPlaces(key: string, text: string)
    requires '[' !in key && ']' !in text
    ensures var term := key + "[" + text + "]";
            && IndexOf(term, '[') == |key|
            && IndexOf(term[|key|..], ']') == |text| + 1
            && term[|key| + 1..|key| + |text| + 1] == text && term[..|key|] == key && term[|term|..] == ""
  {
    var term := key + "[" + text + "]";
    hide IndexOf;
    assert term == key + ['['] + (text + "]");
    IndexAfter(key, '[', text + "]");
    assert term[|key|..] == "[" + text + [']'] + "";
    IndexAfter("[" + text, ']', "");
  }

  lemma SegmentsOfBracket(key: string, text: string)
    requires PlainText(key) && key != "" && ']' !in text && Brackets.ParseBracket(text).Ok?
    ensures Segments(key + "[" + text + "]") == Ok([Literal(key), BracketOf(Brackets.ParseBracket(text).value)])
  {
    hide IndexOf, Brackets.ParseBracket, BracketOf;
    var term := key + "[" + text + "]";
    var bracket := BracketOf(Brackets.ParseBracket(text).value);
    NoBracketIn(key);
    BracketPlaces(key, text);
    assert Before(term, |key|) + [bracket] == [Literal(key), bracket];
    assert FirstBracket(term) == Ok(Head([Literal(key), bracket], |term|));
    SegmentsEnd(term, [Literal(key), bracket]);
  }

  /** A term that ends with its first bracket. */
  lemma SegmentsEnd(term: string, segments: seq<Segment>)
    requires IndexOf(term, '[') >= 0 && FirstBracket(term) == Ok(Head(segments, |term|))
    ensures Segments(term) == Ok(segments)
  {
    hide FirstBracket;
    var rest := term[|term|..];
    assert rest == "" && IndexOf(rest, '[') < 0;
    assert Segments(rest) == Ok([]);
    assert segments + [] == segments;
  }

  lemma {:induction false} SpreadOne(heads: seq<string>)
    ensures Spread(heads, [""]) == heads
  {
    if heads != [] {
      SpreadOne(heads[1..]);
      assert heads[0] + "" == heads[0];
      assert Prefixed(heads[0], [""]) == [heads[0]];
    }
  }

  lemma ProductOfBracket(key: string, strs: seq<string>, maxExpand: int)
    ensures var segs := [Literal(key), Bracket(strs)];
            && Product(segs) == Prefixed(key, strs)
            && Expanded(segs, maxExpand) == if 0 < maxExpand < |strs| then Err(LimitExceeded) else Ok(Product(segs))
  {
    var segs := [Literal(key), Bracket(strs)];
    assert segs[1..] == [Bracket(strs)] && [Bracket(strs)][1..] == [];
    SpreadOne(strs);
    assert Product([Bracket(strs)]) == strs;
    assert Count([Bracket(strs)]) == |strs|;
    if strs == [] {
      assert UpToEmpty([Bracket(strs)]) == 0 && UpToEmpty(segs) == 1;
      assert segs[..1] == [Literal(key)] && [Literal(key)][1..] == [];
    } else {
      assert UpToEmpty([]) == 0 && UpToEmpty([Bracket(strs)]) == 1 && UpToEmpty(segs) == 2;
      assert segs[..2] == segs;
    }
  }

  lemma {:induction false} ListingSize(s: seq<int>, of: set<int>)
    requires Listing(s, of)
    ensures |s| == |of|
  {
    if s == [] {
      forall v ensures v !in of {
        assert v !in s;
      }
      assert of == {};
    } else {
      var last := s[|s| - 1];
      FrontListing(s, of);
      ListingSize(s[..|s| - 1], of - {last});
      assert last in s;
    }
  }

  /** Different numbers are printed differently, so there are as many names as values. */
  lemma {:induction false} NamesAtSize(key: string, values: set<int>, padding: int)
    requires forall v :: v in values ==> v >= 0
    ensures |NamesAt(key, values, padding)| == |values|
    decreases |values|
  {
    if values == {} {
      assert NamesAt(key, values, padding) == {};
    } else {
      var v := Pick(values);
      var rest := values - {v};
      NamesAtSize(key, rest, padding);
      forall w | w in rest ensures key + Format(w, padding) != key + Format(v, padding) {
        FormatIs(v, padding);
        FormatIs(w, padding);
        assert (key + Format(w, padding))[|key|..] == Format(w, padding);
        assert (key + Format(v, padding))[|key|..] == Format(v, padding);
      }
      assert NamesAt(key, values, padding) == NamesAt(key, rest, padding) + {key + Format(v, padding)};
    }
  }

  lemma TermSetOfBracket(key: string, text: string, strs: seq<string>, resolver: Resolver, maxExpand: int)
    requires PlainStart(key)
    requires Segments(key + "[" + text + "]") == Ok([Literal(key), Bracket(strs)])
    ensures TermSet(key + "[" + text + "]", resolver, maxExpand) ==
            if 0 < maxExpand < |strs| then Err(TooManyNodes) else Ok(Elements(Prefixed(key, strs)))
  {
    hide Segments, Elements, Product, Count, UpToEmpty, Expanded;
    var term := key + "[" + text + "]";
    assert term[0] == key[0];
    ProductOfBracket(key, strs, maxExpand);
  }

  /** A bracket term stands for its prefix with every value printed at the group's padding. */
  lemma BracketTerm(key: string, text: string, rs: seq<Rang>, padding: int, resolver: Resolver, maxExpand: int)
    requires PlainStart(key) && Canonical(rs) && rs != [] && rs[0].lo >= 0 && IsFolded(text, rs, padding)
    ensures TermMeans(key + "[" + text + "]", NamesAt(key, Members(rs), padding), resolver, maxExpand)
  {
    var term := key + "[" + text + "]";
    BracketRoundTrip(text, rs, padding);
    FoldedClean(text, rs, padding);
    CanonicalNonNegative(rs);
    hide IsFolded, Canonical, Members, Scan, Calm, Segments, TermSet, Elements, NamesAt, Brackets.ParseBracket;
    CalmBracket(key, text);
    assert TermShape(term);
    var b := Brackets.ParseBracket(text).value;
    var values := SortedInts(b.values);
    SegmentsOfBracket(key, text);
    TermSetOfBracket(key, text, FormatAll(values, b.padding), resolver, maxExpand);
    BracketElements(key, values, b.values, b.padding, padding);
    ListingSize(values, b.values);
    NamesAtSize(key, b.values, padding);
  }

  lemma BracketElements(key: string, values: seq<int>, of: set<int>, seen: int, padding: int)
    requires Listing(values, of)
    requires forall v :: v in of ==> Format(v, seen) == Format(v, padding)
    ensures Elements(Prefixed(key, FormatAll(values, seen))) == NamesAt(key, of, padding)
  {
    var names := Prefixed(key, FormatAll(values, seen));
    forall x | x in Elements(names) ensures x in NamesAt(key, of, padding) {
      var i :| 0 <= i < |names| && names[i] == x;
      assert values[i] in of;
    }
    forall x | x in NamesAt(key, of, padding) ensures x in Elements(names) {
      var v :| v in of && x == key + Format(v, padding);
      assert v in values;
      var i :| 0 <= i < |values| && values[i] == v;
      assert names[i] == x;
    }
  }

  // ---------------------------------------------------------------- folded text has no brackets

  ghost predicate NoBrackets(s: string)
  {
    '[' !in s && ']' !in s
  }

  lemma {:induction false} JoinNoBrackets(parts: seq<string>)
    requires forall i :: 0 <= i < |parts| ==> NoBrackets(parts[i])
    ensures NoBrackets(Join(parts, ','))
  {
    if |parts| > 1 {
      JoinNoBrackets(parts[1..]);
    }
  }

  lemma FormatNoBrackets(v: nat, padding: int)
    ensures NoBrackets(Format(v, padding))
  {
    FormatIs(v, padding);
    NoChar(Format(v, padding), '[');
    NoChar(Format(v, padding), ']');
  }

  lemma {:induction false} RangeTextsNoBrackets(rs: seq<Rang>, padding: int)
    requires Canonical(rs) && NonNegative(rs)
    ensures forall i :: 0 <= i < |rs| ==> NoBrackets(RangeTexts(rs, padding)[i])
  {
    if rs != [] {
      var r := rs[|rs| - 1];
      RangeTextsNoBrackets(rs[..|rs| - 1], padding);
      FormatNoBrackets(r.lo, padding);
      FormatNoBrackets(r.hi, padding);
      assert NoBrackets(FormatRange(r, padding));
    }
  }

  lemma FoldedClean(text: string, rs: seq<Rang>, padding: int)
    requires Canonical(rs) && rs != [] && rs[0].lo >= 0 && IsFolded(text, rs, padding)
    ensures NoBrackets(text)
  {
    var values := SortedInts(Members(rs));
    CanonicalNonNegative(rs);
    RangeTextsNoBrackets(rs, padding);
    JoinNoBrackets(RangeTexts(rs, padding));
    if values != [] {
      assert values[0] in Members(rs) && values[|values| - 1] in Members(rs);
      FormatNoBrackets(values[0], padding);
      FormatNoBrackets(values[|values| - 1], padding);
    }
    hide Members, Canonical, Format, Join, RangeTexts;
    if |values| != 1 {
      var step :| IsStep(values, step) && text == FoldedWith(values, rs, padding, step);
      if step > 1 {
        FormatNoBrackets(step, 0);
      }
    }
  }

  // ---------------------------------------------------------------- reprinted names

  /** A name with its number printed at the widest zero padding of its group; other names as they are. */
  ghost function Reprint(n: string, nodes: seq<string>): string
  {
    if Prefix(n) == "" || Suffix(n) == "" then n
    else Prefix(n) + Format(DigitsVal(Suffix(n)), MaxPad(Group(nodes, Prefix(n))))
  }

  ghost function Reprinted(nodes: seq<string>): set<string>
  {
    set n | n in nodes :: Reprint(n, nodes)
  }

  /** The reprinted names of one prefix. */
  ghost function ReprintedAt(nodes: seq<string>, prefix: string): set<string>
  {
    set n | n in nodes && Prefix(n) == prefix :: Reprint(n, nodes)
  }

  /** Every numbered name with a prefix is printed at the padding of its group. */
  ghost predicate Consistent(nodes: seq<string>)
  {
    forall n :: n in nodes && Prefix(n) != "" && Suffix(n) != "" ==>
                  Suffix(n) == Format(DigitsVal(Suffix(n)), MaxPad(Group(nodes, Prefix(n))))
  }

  ghost predicate AllPlain(nodes: seq<string>)
  {
    forall n :: n in nodes ==> PlainName(n)
  }

  lemma PlainPrefix(n: string)
    requires PlainName(n) && Prefix(n) != ""
    ensures PlainStart(Prefix(n))
  {
    var p := Prefix(n);
    assert p[0] == n[0];
    forall i | 0 <= i < |p| ensures PlainChar(p[i]) {
      assert p[i] == n[i];
    }
  }

  lemma DigitPlain(c: char)
    requires IsDigit(c)
    ensures PlainChar(c) && !IsSpace(c)
  {
  }

  lemma PlainNumbered(p: string, v: nat, padding: int)
    requires PlainStart(p)
    ensures PlainName(p + Format(v, padding))
  {
    var s := p + Format(v, padding);
    FormatIs(v, padding);
    forall i | 0 <= i < |s| ensures PlainChar(s[i]) {
      if i >= |p| {
        DigitPlain(Format(v, padding)[i - |p|]);
      } else {
        assert s[i] == p[i];
      }
    }
    DigitPlain(Format(v, padding)[|Format(v, padding)| - 1]);
  }

  // ---------------------------------------------------------------- the terms of one prefix

  ghost function Singles(names: seq<string>): (r: seq<set<string>>)
    ensures |r| == |names| && forall i :: 0 <= i < |names| ==> r[i] == {names[i]}
  {
    seq(|names|, i requires 0 <= i < |names| => {names[i]})
  }

  lemma {:induction false} UnionOfSingles(names: seq<string>)
    ensures UnionOf(Singles(names)) == Elements(names)
  {
    if names != [] {
      var n := |names| - 1;
      UnionOfSingles(names[..n]);
      assert Singles(names)[..n] == Singles(names[..n]);
      assert names == names[..n] + [names[n]];
    }
  }

  lemma SinglesMean(names: seq<string>, resolver: Resolver, maxExpand: int)
    requires AllPlain(names)
    ensures TermsMean(names, Singles(names), resolver, maxExpand)
  {
    forall i | 0 <= i < |names| ensures TermMeans(names[i], Singles(names)[i], resolver, maxExpand) {
      assert names[i] in names;
      PlainTerm(names[i], resolver, maxExpand);
    }
  }

  lemma SortedElements(names: seq<string>, of: seq<string>)
    requires SortedNames(names, of)
    ensures forall x :: x in names <==> x in of
  {
    forall x ensures x in names <==> x in of {
      assert x in names <==> x in multiset(names);
      assert x in of <==> x in multiset(of);
    }
  }

  lemma {:induction false} NonNumericIs(nodes: seq<string>, x: string)
    ensures x in NonNumeric(nodes) <==> x in nodes && Suffix(x) == ""
  {
    if nodes != [] {
      NonNumericIs(nodes[..|nodes| - 1], x);
      assert nodes == nodes[..|nodes| - 1] + [nodes[|nodes| - 1]];
    }
  }

  lemma {:induction false} NumericSome(nodes: seq<string>)
    ensures NumericCount(nodes) > 0 <==> Values(nodes) != {}
    ensures NumericCount(nodes) > 0 <==> exists n :: n in nodes && Suffix(n) != ""
  {
    if nodes == [] {
      assert Values(nodes) == {};
    } else {
      var front, last := nodes[..|nodes| - 1], nodes[|nodes| - 1];
      assert nodes == front + [last];
      NumericSome(front);
      ValuesStep(nodes, |nodes| - 1);
      assert nodes[..|nodes|] == nodes;
      if Suffix(last) != "" {
        assert last in nodes;
      } else if NumericCount(front) > 0 {
        var n :| n in front && Suffix(n) != "";
        assert n in nodes;
      }
    }
  }

  lemma ValuesNonNegative(nodes: seq<string>)
    ensures forall v :: v in Values(nodes) ==> v >= 0
  {
  }

  /** The term for the numbered names of a group stands for its values at its padding. */
  lemma NumericTermMeans(term: string, key: string, group: seq<string>, resolver: Resolver, maxExpand: int)
    requires PlainStart(key) && IsNumericTerm(term, key, group) && NumericCount(group) > 0
    ensures TermMeans(term, NamesAt(key, Values(group), MaxPad(group)), resolver, maxExpand)
  {
    hide TermMeans, Canonical, Members, IsFolded, Values, NumericCount, PlainStart;
    ValuesNonNegative(group);
    NumericSome(group);
    var pad := MaxPad(group);
    if NumericCount(group) == 1 {
      var v :| Values(group) == {v} && term == key + Format(v, pad);
      assert v in Values(group);
      PlainNumbered(key, v, pad);
      PlainTerm(term, resolver, maxExpand);
      assert NamesAt(key, {v}, pad) == {term};
    } else {
      var rs, text :| IsBracketText(text, rs, group) && term == key + "[" + text + "]";
      RangesOfValues(rs, Values(group));
      BracketTerm(key, text, rs, pad, resolver, maxExpand);
    }
  }

  lemma RangesOfValues(rs: seq<Rang>, values: set<int>)
    requires Canonical(rs) && Members(rs) == values && values != {} && forall v :: v in values ==> v >= 0
    ensures rs != [] && rs[0].lo >= 0
  {
    NonEmpty(rs);
    AtMember(rs, rs[0].lo, 0);
  }

  lemma GroupPlain(nodes: seq<string>, key: string)
    requires AllPlain(nodes)
    ensures AllPlain(Group(nodes, key))
  {
    forall n | n in Group(nodes, key) ensures PlainName(n) {
      InGroup(nodes, key, n);
    }
  }

  /** Reprinted names of a group: its values at its padding, and the prefix itself if it is a name. */
  lemma ReprintedSplit(nodes: seq<string>, key: string)
    requires key != ""
    ensures var g := Group(nodes, key);
            ReprintedAt(nodes, key) == NamesAt(key, Values(g), MaxPad(g)) + Elements(NonNumeric(g))
  {
    var g := Group(nodes, key);
    var whole := NamesAt(key, Values(g), MaxPad(g)) + Elements(NonNumeric(g));
    forall x | x in ReprintedAt(nodes, key) ensures x in whole {
      var n :| n in nodes && Prefix(n) == key && Reprint(n, nodes) == x;
      InGroup(nodes, key, n);
      NonNumericIs(g, n);
      if Suffix(n) != "" {
        assert DigitsVal(Suffix(n)) in Values(g);
      }
    }
    forall x | x in whole ensures x in ReprintedAt(nodes, key) {
      if x in Elements(NonNumeric(g)) {
        NonNumericIs(g, x);
        InGroup(nodes, key, x);
        assert Reprint(x, nodes) == x;
      } else {
        var v :| v in Values(g) && x == key + Format(v, MaxPad(g));
        var n :| n in g && Suffix(n) != "" && DigitsVal(Suffix(n)) == v;
        InGroup(nodes, key, n);
        assert Reprint(n, nodes) == x;
      }
    }
  }

  lemma RawReprinted(nodes: seq<string>)
    ensures ReprintedAt(nodes, "") == Elements(Group(nodes, ""))
  {
    forall x ensures x in ReprintedAt(nodes, "") <==> x in Elements(Group(nodes, "")) {
      InGroup(nodes, "", x);
      if x in ReprintedAt(nodes, "") {
        var n :| n in nodes && Prefix(n) == "" && Reprint(n, nodes) == x;
        assert n == x;
      }
      if x in Group(nodes, "") {
        assert Reprint(x, nodes) == x;
      }
    }
  }

  /** The terms of one prefix stand, together, for its reprinted names. */
  lemma PartMeans(terms: seq<string>, key: string, nodes: seq<string>, resolver: Resolver, maxExpand: int)
    returns (names: seq<set<string>>)
    requires AllPlain(nodes) && IsPart(terms, key, nodes) && key in Prefixes(nodes)
    ensures TermsMean(terms, names, resolver, maxExpand) && UnionOf(names) == ReprintedAt(nodes, key)
  {
    hide TermsMean, IsGroupTerms, SortedNames, AllPlain, Prefixes, ReprintedAt, Values, NonNumeric;
    GroupPlain(nodes, key);
    if key == "" {
      names := NamesMean(terms, Group(nodes, ""), resolver, maxExpand);
      RawReprinted(nodes);
    } else {
      KeyPlain(nodes, key);
      ReprintedSplit(nodes, key);
      names := GroupMeans(terms, key, Group(nodes, key), resolver, maxExpand);
    }
  }

  /** A rearrangement of plain names stands for those names. */
  lemma NamesMean(names: seq<string>, of: seq<string>, resolver: Resolver, maxExpand: int) returns (sets: seq<set<string>>)
    requires AllPlain(of) && SortedNames(names, of)
    ensures TermsMean(names, sets, resolver, maxExpand) && UnionOf(sets) == Elements(of)
  {
    SortedElements(names, of);
    sets := Singles(names);
    SinglesMean(names, resolver, maxExpand);
    UnionOfSingles(names);
    assert Elements(names) == Elements(of);
  }

  /** The terms of a group stand for its values at its padding, and its names without a number. */
  lemma GroupMeans(terms: seq<string>, key: string, g: seq<string>, resolver: Resolver, maxExpand: int)
    returns (names: seq<set<string>>)
    requires PlainStart(key) && AllPlain(g) && IsGroupTerms(terms, key, g)
    ensures TermsMean(terms, names, resolver, maxExpand)
    ensures UnionOf(names) == NamesAt(key, Values(g), MaxPad(g)) + Elements(NonNumeric(g))
  {
    hide TermMeans, IsNumericTerm, NamesAt, AllPlain, PlainStart, NumericCount, Values, NonNumeric, SortedNames, MaxPad;
    var rest :| SortedNames(rest, NonNumeric(g)) &&
                if NumericCount(g) == 0 then terms == rest
                else exists term :: IsNumericTerm(term, key, g) && terms == [term] + rest;
    NonNumericPlain(g);
    var others := NamesMean(rest, NonNumeric(g), resolver, maxExpand);
    NumericSome(g);
    if NumericCount(g) == 0 {
      names := others;
      NamesAtNone(key, MaxPad(g));
    } else {
      var term :| IsNumericTerm(term, key, g) && terms == [term] + rest;
      var numbered := NamesAt(key, Values(g), MaxPad(g));
      NumericTermMeans(term, key, g, resolver, maxExpand);
      names := [numbered] + others;
      UnionConcat([numbered], others);
      assert [numbered][..0] == [] && UnionOf([numbered]) == numbered;
    }
  }

  lemma NamesAtNone(key: string, padding: int)
    ensures NamesAt(key, {}, padding) == {}
  {
  }

  lemma NonNumericPlain(g: seq<string>)
    requires AllPlain(g)
    ensures AllPlain(NonNumeric(g))
  {
    forall x | x in NonNumeric(g) ensures PlainName(x) {
      NonNumericIs(g, x);
    }
  }

  lemma KeyPlain(nodes: seq<string>, key: string)
    requires AllPlain(nodes) && key != "" && key in Prefixes(nodes)
    ensures PlainStart(key)
  {
    var n :| n in nodes && Prefix(n) == key;
    PlainPrefix(n);
  }

  // ---------------------------------------------------------------- all prefixes

  /** The names are those reprinted for the given prefixes. */
  ghost predicate CoversKeys(names: seq<set<string>>, keys: seq<string>, nodes: seq<string>)
  {
    forall x :: x in UnionOf(names) <==> exists i :: 0 <= i < |keys| && x in ReprintedAt(nodes, keys[i])
  }

  lemma NoKeys(keys: seq<string>, nodes: seq<string>)
    requires keys == []
    ensures CoversKeys([], keys, nodes)
  {
  }

  lemma CoversOneMore(before: seq<set<string>>, last: seq<set<string>>, keys: seq<string>, nodes: seq<string>)
    requires keys != [] && CoversKeys(before, keys[..|keys| - 1], nodes)
    requires UnionOf(last) == ReprintedAt(nodes, keys[|keys| - 1])
    ensures CoversKeys(before + last, keys, nodes)
  {
    hide ReprintedAt, UnionOf;
    UnionConcat(before, last);
    var n := |keys| - 1;
    forall x | x in UnionOf(before + last) ensures exists i :: 0 <= i < |keys| && x in ReprintedAt(nodes, keys[i]) {
      if x in UnionOf(before) {
        var i :| 0 <= i < |keys[..n]| && x in ReprintedAt(nodes, keys[..n][i]);
        assert x in ReprintedAt(nodes, keys[i]);
      } else {
        assert x in ReprintedAt(nodes, keys[n]);
      }
    }
    forall x, i | 0 <= i < |keys| && x in ReprintedAt(nodes, keys[i]) ensures x in UnionOf(before + last) {
      if i < n {
        assert keys[..n][i] == keys[i];
      }
    }
  }

  lemma TermsMeanNothing(resolver: Resolver, maxExpand: int)
    ensures TermsMean([], [], resolver, maxExpand)
  {
  }

  lemma TermsMeanConcat(a: seq<string>, names: seq<set<string>>, b: seq<string>, more: seq<set<string>>,
                        resolver: Resolver, maxExpand: int)
    requires TermsMean(a, names, resolver, maxExpand) && TermsMean(b, more, resolver, maxExpand)
    ensures TermsMean(a + b, names + more, resolver, maxExpand)
  {
    hide TermMeans;
  }

  lemma {:induction false} PartsMean(parts: seq<seq<string>>, keys: seq<string>, nodes: seq<string>,
                                     resolver: Resolver, maxExpand: int)
    returns (names: seq<set<string>>)
    requires AllPlain(nodes) && |parts| == |keys|
    requires forall i :: 0 <= i < |keys| ==> keys[i] in Prefixes(nodes) && IsPart(parts[i], keys[i], nodes)
    ensures TermsMean(Flatten(parts), names, resolver, maxExpand)
    ensures CoversKeys(names, keys, nodes)
    ensures parts != [] ==> Flatten(parts) != []
  {
    hide TermsMean, IsPart, AllPlain, Prefixes, ReprintedAt, CoversKeys, UnionOf;
    if parts == [] {
      names := [];
      NoKeys(keys, nodes);
      TermsMeanNothing(resolver, maxExpand);
    } else {
      var n := |parts| - 1;
      var before := PartsMean(parts[..n], keys[..n], nodes, resolver, maxExpand);
      var last := PartMeans(parts[n], keys[n], nodes, resolver, maxExpand);
      PartNotEmpty(parts[n], keys[n], nodes);
      names := before + last;
      CoversOneMore(before, last, keys, nodes);
      TermsMeanConcat(Flatten(parts[..n]), before, parts[n], last, resolver, maxExpand);
    }
  }

  lemma ReprintedIsUnion(nodes: seq<string>, keys: seq<string>, u: set<string>)
    requires forall k :: k in keys <==> k in Prefixes(nodes)
    requires forall x :: x in u <==> exists i :: 0 <= i < |keys| && x in ReprintedAt(nodes, keys[i])
    ensures u == Reprinted(nodes)
  {
    forall x | x in u ensures x in Reprinted(nodes) {
      var i :| 0 <= i < |keys| && x in ReprintedAt(nodes, keys[i]);
    }
    forall x | x in Reprinted(nodes) ensures x in u {
      var n :| n in nodes && Reprint(n, nodes) == x;
      assert Prefix(n) in Prefixes(nodes) && Prefix(n) in keys;
      var i :| 0 <= i < |keys| && keys[i] == Prefix(n);
      assert x in ReprintedAt(nodes, keys[i]);
    }
  }

  lemma ReprintAlone(n: string)
    ensures Reprint(n, [n]) == n && Reprinted([n]) == {n}
  {
    var s := Suffix(n);
    hide Format, Suffix, Prefix;
    if Prefix(n) != "" && s != "" {
      AloneGroup(n);
      PrefixIs(n);
      AlonePadding(s);
    }
    assert Reprint(n, [n]) == n && n in [n];
    forall x | x in Reprinted([n]) ensures x == n {
      var m :| m in [n] && Reprint(m, [n]) == x;
      assert m == n;
    }
    assert n in Reprinted([n]);
  }

  lemma AloneGroup(n: string)
    ensures Group([n], Prefix(n)) == [n] && MaxPad([n]) == DetectPaddingOf(Suffix(n))
  {
    hide Suffix, Prefix;
    assert [n][..0] == [];
    assert Group([], Prefix(n)) == [] && MaxPad([]) == 0;
  }

  function DetectPaddingOf(s: string): int
  {
    Brackets.Max(0, Brackets.DetectPadding(s))
  }

  lemma PaddingFits(s: string)
    requires AllDigits(s) && s != ""
    ensures var n := |Itoa(DigitsVal(s))|;
            |s| == if DetectPaddingOf(s) <= n then n else DetectPaddingOf(s)
  {
    var v := DigitsVal(s);
    DigitsCanonical(s);
    ItoaVal(v);
    var z := |s| - |Itoa(v)|;
    if z > 0 {
      assert s[0] == Zeros(z)[0];
    }
  }

  lemma AlonePadding(s: string)
    requires AllDigits(s) && s != ""
    ensures Format(DigitsVal(s), DetectPaddingOf(s)) == s
  {
    hide Format, Itoa, DigitsVal, Zeros;
    FormatFixed(s, DetectPaddingOf(s));
    PaddingFits(s);
  }

  /**
   What folded text denotes, for every list of plain names: the reprinted names,
   when there are no more of them than the limit, and an error otherwise.
   */
  lemma FoldDenotes(nodes: seq<string>, text: string, resolver: Resolver, maxExpand: int)
    requires nodes != [] && AllPlain(nodes) && IsFoldText(text, nodes)
    ensures Denotes(text, resolver, maxExpand) ==
            if |Reprinted(nodes)| > maxExpand then Err(TooManyNodes) else Ok(Reprinted(nodes))
  {
    hide Denotes, AllPlain, TermMeans;
    if |nodes| == 1 {
      assert nodes[0] in nodes && nodes == [nodes[0]];
      ReprintAlone(nodes[0]);
      OnePlain(nodes);
      SinglesMean(nodes, resolver, maxExpand);
      UnionOfSingles(nodes);
      DenotesJoin(nodes, Singles(nodes), resolver, maxExpand);
      assert Elements(nodes) == {nodes[0]};
    } else {
      var parts, keys :| IsParts(parts, keys, nodes) && text == Join(Flatten(parts), ',');
      assert Prefix(nodes[0]) in Prefixes(nodes) by { assert nodes[0] in nodes; }
      assert Prefix(nodes[0]) in keys;
      var names := PartsMean(parts, keys, nodes, resolver, maxExpand);
      ReprintedIsUnion(nodes, keys, UnionOf(names));
      DenotesJoin(Flatten(parts), names, resolver, maxExpand);
    }
  }

  lemma OnePlain(nodes: seq<string>)
    requires AllPlain(nodes) && |nodes| == 1
    ensures Join(nodes, ',') == nodes[0]
  {
  }

  // ---------------------------------------------------------------- the round trip

  /** Reprinting a reprinted name changes nothing. */
  lemma ReprintTwice(m: string, nodes: seq<string>)
    ensures Reprint(Reprint(m, nodes), nodes) == Reprint(m, nodes)
  {
    if Prefix(m) != "" && Suffix(m) != "" {
      var v, pad := DigitsVal(Suffix(m)), MaxPad(Group(nodes, Prefix(m)));
      PrefixIs(m);
      FormatIs(v, pad);
      SplitOf(Prefix(m), Format(v, pad));
    }
  }

  lemma ConsistentIs(nodes: seq<string>)
    ensures Consistent(nodes) <==> forall n :: n in nodes ==> Reprint(n, nodes) == n
  {
    forall n | n in nodes && Prefix(n) != "" && Suffix(n) != ""
      ensures Suffix(n) == Format(DigitsVal(Suffix(n)), MaxPad(Group(nodes, Prefix(n)))) <==> Reprint(n, nodes) == n
    {
      var f := Format(DigitsVal(Suffix(n)), MaxPad(Group(nodes, Prefix(n))));
      PrefixIs(n);
      assert (Prefix(n) + f)[|Prefix(n)|..] == f;
    }
  }

  lemma SameSetIffConsistent(nodes: seq<string>)
    ensures Reprinted(nodes) == Elements(nodes) <==> Consistent(nodes)
  {
    ConsistentIs(nodes);
    if Consistent(nodes) {
      forall x ensures x in Reprinted(nodes) <==> x in Elements(nodes) {
        if x in nodes {
          assert Reprint(x, nodes) == x;
        }
      }
    }
    if Reprinted(nodes) == Elements(nodes) {
      forall n | n in nodes ensures Reprint(n, nodes) == n {
        assert n in Reprinted(nodes);
        var m :| m in nodes && Reprint(m, nodes) == n;
        ReprintTwice(m, nodes);
      }
    }
  }

  /**
   Expanding folded text gives back exactly the folded names if and only if they
   are within the limit and every group is printed at one padding.
   */
  lemma FoldRoundTrip(nodes: seq<string>, text: string, resolver: Resolver, maxExpand: int)
    requires nodes != [] && AllPlain(nodes) && IsFoldText(text, nodes)
    ensures Denotes(text, resolver, maxExpand) == Ok(Elements(nodes)) <==>
            Consistent(nodes) && |Elements(nodes)| <= maxExpand
  {
    FoldDenotes(nodes, text, resolver, maxExpand);
    SameSetIffConsistent(nodes);
  }

  // ---------------------------------------------------------------- a list that does not come back

  /** Two names of one group, numbered 1 with a zero in front and 2 without. */
  ghost predicate Uneven(key: string, a: string, b: string)
  {
    && key != "" && Prefix(a) == key && Prefix(b) == key
    && Suffix(a) != "" && DigitsVal(Suffix(a)) == 1 && Brackets.DetectPadding(Suffix(a)) == 2
    && Suffix(b) != "" && DigitsVal(Suffix(b)) == 2 && Brackets.DetectPadding(Suffix(b)) == 0
  }

  lemma UnevenExample()
    ensures Uneven("n", "n01", "n2")
  {
    SplitOf("n", "01");
    SplitOf("n", "2");
    assert "n" + "01" == "n01" && "n" + "2" == "n2";
    assert "01"[..1] == "0" && "0"[..0] == "" && "2"[..0] == "";
    assert DigitsVal("0") == 0;
  }

  lemma UnevenGroup(key: string, a: string, b: string)
    requires Uneven(key, a, b)
    ensures Group([a, b], key) == [a, b] && MaxPad([a, b]) == 2
    ensures NumericCount([a, b]) == 2 && NonNumeric([a, b]) == []
  {
    hide Suffix, Prefix, DigitsVal, Brackets.DetectPadding;
    assert [a, b][..1] == [a] && [a][..0] == [];
    assert Group([a], key) == [a] && MaxPad([a]) == 2 && NumericCount([a]) == 1 && NonNumeric([a]) == [];
  }

  lemma UnevenSets(key: string, a: string, b: string)
    requires Uneven(key, a, b)
    ensures Prefixes([a, b]) == {key} && Values([a, b]) == {1, 2}
  {
    hide Suffix, Prefix, DigitsVal, Brackets.DetectPadding;
    assert forall n :: n in [a, b] <==> n == a || n == b;
    assert [a, b][0] in [a, b] && [a, b][1] in [a, b];
  }

  lemma OneTwo(rs: seq<Rang>)
    requires Canonical(rs) && Members(rs) == {1, 2}
    ensures rs == [Rang(1, 2)] && SortedInts(Members(rs)) == [1, 2]
  {
    MembersOne(Rang(1, 2));
    assert Interval(1, 2) == {1, 2};
    CanonicalUnique(rs, [Rang(1, 2)]);
    ListingUnique(SortedInts({1, 2}), [1, 2], {1, 2});
  }

  lemma OneTwoText(padding: int)
    ensures FoldedWith([1, 2], [Rang(1, 2)], padding, 1) == Format(1, padding) + "-" + Format(2, padding)
  {
    hide Format;
    var one := [Rang(1, 2)];
    assert one[..0] == [];
    assert RangeTexts(one, padding) == [FormatRange(Rang(1, 2), padding)];
  }

  lemma FoldedOneTwo(text: string, rs: seq<Rang>, padding: int)
    requires Canonical(rs) && Members(rs) == {1, 2} && IsFolded(text, rs, padding)
    ensures text == Format(1, padding) + "-" + Format(2, padding)
  {
    hide Format, Members, Canonical, FoldedWith;
    OneTwo(rs);
    OneTwoText(padding);
    var step :| IsStep([1, 2], step) && text == FoldedWith([1, 2], rs, padding, step);
    StepUnique([1, 2], step, 1);
  }

  lemma OneKey(keys: seq<string>, k: string)
    requires Distinct(keys) && forall x :: x in keys <==> x in {k}
    ensures keys == [k]
  {
    DistinctSize(keys, {k});
    assert keys[0] in keys;
  }

  lemma UnevenTerm(term: string, key: string, a: string, b: string)
    requires Uneven(key, a, b) && IsNumericTerm(term, key, [a, b])
    ensures term == key + "[" + (Format(1, 2) + "-" + Format(2, 2)) + "]"
  {
    UnevenGroup(key, a, b);
    UnevenSets(key, a, b);
    hide Values, MaxPad, NumericCount, IsFolded, Canonical, Members, Format, Uneven;
    var rs, text :| IsBracketText(text, rs, [a, b]) && term == key + "[" + text + "]";
    FoldedOneTwo(text, rs, 2);
  }

  lemma UnevenText(text: string, key: string, a: string, b: string)
    requires Uneven(key, a, b) && IsFoldText(text, [a, b])
    ensures text == key + "[" + (Format(1, 2) + "-" + Format(2, 2)) + "]"
  {
    hide Prefixes, Group, NonNumeric, NumericCount, IsNumericTerm, Format, Uneven, Sorted;
    UnevenGroup(key, a, b);
    UnevenSets(key, a, b);
    UnevenKey(key, a, b);
    var parts, keys :| IsParts(parts, keys, [a, b]) && text == Join(Flatten(parts), ',');
    OneKey(keys, key);
    assert parts[..0] == [] && Flatten(parts) == parts[0] && IsPart(parts[0], keys[0], [a, b]);
    var names :| SortedNames(names, []) && exists term :: IsNumericTerm(term, key, [a, b]) && parts[0] == [term] + names;
    assert |multiset(names)| == |names|;
    var term :| IsNumericTerm(term, key, [a, b]) && parts[0] == [term] + names;
    UnevenTerm(term, key, a, b);
  }

  lemma UnevenKey(key: string, a: string, b: string)
    requires Uneven(key, a, b)
    ensures key != ""
  {
  }

  lemma UnevenEach(key: string, a: string, b: string)
    requires Uneven(key, a, b)
    ensures Reprint(a, [a, b]) == key + Format(1, 2) && Reprint(b, [a, b]) == key + Format(2, 2)
  {
    UnevenGroup(key, a, b);
    hide Format, Group, MaxPad, Suffix, Prefix, DigitsVal;
  }

  lemma UnevenReprinted(key: string, a: string, b: string)
    requires Uneven(key, a, b)
    ensures Reprinted([a, b]) == {key + Format(1, 2), key + Format(2, 2)}
  {
    UnevenEach(key, a, b);
    hide Format, Reprint, Uneven;
    ReprintedPair(a, b);
  }

  lemma ReprintedPair(a: string, b: string)
    ensures Reprinted([a, b]) == {Reprint(a, [a, b]), Reprint(b, [a, b])}
  {
    hide Reprint;
    assert forall n :: n in [a, b] <==> n == a || n == b;
    assert [a, b][0] in [a, b] && [a, b][1] in [a, b];
  }

  lemma PaddedDigits()
    ensures Format(1, 2) == "01" && Format(2, 2) == "02"
  {
    assert Zeros(1) == Zeros(0) + "0";
    assert Itoa(1) == "1" && Itoa(2) == "2";
  }

  /**
   A list that does not come back: the group of "n01" and "n2" is printed at width 2,
   so its text denotes "n02" in place of "n2".
   */
  lemma FoldChangesNames(text: string, resolver: Resolver, maxExpand: int)
    requires IsFoldText(text, ["n01", "n2"]) && maxExpand >= 2
    ensures text == "n[01-02]" && Denotes(text, resolver, maxExpand) == Ok({"n01", "n02"})
    ensures Elements(["n01", "n2"]) == {"n01", "n2"} != {"n01", "n02"}
  {
    hide Denotes, IsFoldText, Format, Uneven, Reprinted, Elements, PlainName;
    UnevenExample();
    UnevenText(text, "n", "n01", "n2");
    UnevenReprinted("n", "n01", "n2");
    PaddedDigits();
    UnevenPlain();
    FoldDenotes(["n01", "n2"], text, resolver, maxExpand);
    SpelledOut();
  }

  lemma UnevenPlain()
    ensures AllPlain(["n01", "n2"])
  {
  }

  lemma SpelledOut()
    ensures "n" + "[" + ("01" + "-" + "02") + "]" == "n[01-02]"
    ensures "n" + "01" == "n01" && "n" + "02" == "n02" && |{"n01", "n02"}| == 2
    ensures Elements(["n01", "n2"]) == {"n01", "n2"} != {"n01", "n02"}
  {
    var a, b, c := "n01", "n2", "n02";
    assert |b| == 2 && |a| == 3 && |c| == 3 && a[2] != c[2];
    assert forall n :: n in [a, b] <==> n == a || n == b;
    assert b in {a, b} && b !in {a, c};
  }
}
