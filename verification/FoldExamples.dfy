/** The text that four names of three kinds are folded to. */
module FoldExamples {
  import opened Wrappers
  import opened Ordering
  import opened Text
  import opened RangeSets
  import opened Listings
  import Brackets
  import opened BracketFold
  import opened Folding
  import opened FoldRoundTrip

  /** Names of three prefixes: one numbered once, one numbered 1 and 2, one without a number. */
  datatype Names = Names(b1: string, a2: string, gw: string, b2: string)

  ghost predicate Numbered(n: string, prefix: string, v: nat)
  {
    Prefix(n) == prefix && Suffix(n) != "" && DigitsVal(Suffix(n)) == v && Brackets.DetectPadding(Suffix(n)) == 0
  }

  ghost predicate Mixed(s: Names, a: string, b: string)
  {
    && Numbered(s.b1, b, 1) && Numbered(s.a2, a, 2) && Numbered(s.b2, b, 2)
    && Prefix(s.gw) == s.gw && Suffix(s.gw) == ""
    && a != "" && b != "" && s.gw != "" && Less(a, b) && Less(b, s.gw) && Less(a, s.gw)
  }

  function Listed(s: Names): seq<string>
  {
    [s.b1, s.a2, s.gw, s.b2]
  }

  lemma GroupSnoc(front: seq<string>, n: string, p: string)
    ensures Group(front + [n], p) == Group(front, p) + if Prefix(n) == p then [n] else []
    ensures Group([], p) == []
  {
    assert (front + [n])[..|front|] == front;
  }

  lemma Groups(s: Names, a: string, b: string)
    requires Mixed(s, a, b)
    ensures a != b && a != s.gw && b != s.gw
    ensures Group(Listed(s), a) == [s.a2] && Group(Listed(s), b) == [s.b1, s.b2] && Group(Listed(s), s.gw) == [s.gw]
  {
    LessIrreflexive(a);
    LessIrreflexive(b);
    hide Group, Prefix, Suffix, Less;
    var one, two, three := [s.b1], [s.b1] + [s.a2], [s.b1] + [s.a2] + [s.gw];
    assert [] + [s.b1] == one && three + [s.b2] == Listed(s);
    forall p ensures Group(Listed(s), p) ==
                     (if b == p then [s.b1] else []) + (if a == p then [s.a2] else [])
                     + (if s.gw == p then [s.gw] else []) + (if b == p then [s.b2] else []) {
      GroupSnoc([], s.b1, p);
      GroupSnoc(one, s.a2, p);
      GroupSnoc(two, s.gw, p);
      GroupSnoc(three, s.b2, p);
    }
  }

  /** A single numbered name is printed as it is. */
  lemma LoneTerms(terms: seq<string>, n: string, prefix: string, v: nat)
    requires Numbered(n, prefix, v) && IsGroupTerms(terms, prefix, [n])
    ensures terms == [prefix + Itoa(v)]
  {
    hide Suffix, Prefix, DigitsVal, Brackets.DetectPadding, IsBracketText, Sorted, Itoa, NumericCount, NonNumeric, MaxPad, Values;
    LoneFacts(n);
    LoneValue(n, v);
    var names :| SortedNames(names, []) && exists term :: IsNumericTerm(term, prefix, [n]) && terms == [term] + names;
    assert |multiset(names)| == |names|;
    var term :| IsNumericTerm(term, prefix, [n]) && terms == [term] + names;
    var w :| Values([n]) == {w} && term == prefix + Format(w, MaxPad([n]));
    assert w == v;
    Unpadded(v);
  }

  lemma LoneFacts(n: string)
    requires Suffix(n) != "" && Brackets.DetectPadding(Suffix(n)) == 0
    ensures NumericCount([n]) == 1 && NonNumeric([n]) == [] && MaxPad([n]) == 0
  {
    hide Suffix, Brackets.DetectPadding;
    NothingCounted();
    assert [n][..0] == [];
  }

  lemma NothingCounted()
    ensures NumericCount([]) == 0 && NonNumeric([]) == [] && MaxPad([]) == 0
  {
  }

  lemma LoneValue(n: string, v: nat)
    requires Suffix(n) != "" && DigitsVal(Suffix(n)) == v
    ensures Values([n]) == {v}
  {
    hide Suffix, DigitsVal;
    assert n in [n] && forall m :: m in [n] ==> m == n;
  }

  lemma Unpadded(v: nat)
    ensures Format(v, 0) == Itoa(v)
  {
    assert Zeros(0) == "";
  }

  lemma PairFacts(m: string, n: string, prefix: string)
    requires Numbered(m, prefix, 1) && Numbered(n, prefix, 2)
    ensures NumericCount([m, n]) == 2 && NonNumeric([m, n]) == [] && MaxPad([m, n]) == 0 && Values([m, n]) == {1, 2}
  {
    hide Suffix, Prefix, DigitsVal, Brackets.DetectPadding;
    assert [m, n][..1] == [m] && [m][..0] == [];
    assert NumericCount([m]) == 1 && NonNumeric([m]) == [] && MaxPad([m]) == 0;
    assert forall x :: x in [m, n] <==> x == m || x == n;
    assert m in [m, n] && n in [m, n];
  }

  /** The names numbered 1 and 2 share a bracket. */
  lemma PairTerms(terms: seq<string>, m: string, n: string, prefix: string)
    requires Numbered(m, prefix, 1) && Numbered(n, prefix, 2) && IsGroupTerms(terms, prefix, [m, n])
    ensures terms == [prefix + "[" + (Itoa(1) + "-" + Itoa(2)) + "]"]
  {
    PairFacts(m, n, prefix);
    hide Values, MaxPad, NumericCount, NonNumeric, IsFolded, Canonical, Members, Format, Itoa, Sorted, Numbered;
    var names :| SortedNames(names, []) && exists term :: IsNumericTerm(term, prefix, [m, n]) && terms == [term] + names;
    assert |multiset(names)| == |names|;
    var term :| IsNumericTerm(term, prefix, [m, n]) && terms == [term] + names;
    var rs, text :| IsBracketText(text, rs, [m, n]) && term == prefix + "[" + text + "]";
    FoldedOneTwo(text, rs, 0);
    Unpadded(1);
    Unpadded(2);
  }

  /** A name without a number is printed as it is. */
  lemma RawTerms(terms: seq<string>, n: string, prefix: string)
    requires Suffix(n) == "" && IsGroupTerms(terms, prefix, [n])
    ensures terms == [n]
  {
    hide Suffix, IsNumericTerm, Sorted;
    assert [n][..0] == [];
    assert NumericCount([n]) == 0 && NonNumeric([n]) == [n];
    var names :| SortedNames(names, [n]) && terms == names;
    assert |multiset(names)| == |names| == 1 && names[0] in multiset(names);
  }

  lemma SortedThree(keys: seq<string>, a: string, b: string, c: string)
    requires Less(a, b) && Less(b, c) && Less(a, c) && Sorted(Less, keys) && Distinct(keys)
    requires forall k :: k in keys <==> k == a || k == b || k == c
    ensures keys == [a, b, c]
  {
    LessIsStrictOrder();
    hide Less;
    var all := [a, b, c];
    assert all[0] == a && all[1] == b && all[2] == c;
    assert Sorted(Less, all) && Distinct(all);
    assert forall k :: k in all <==> k == a || k == b || k == c;
    SameDistinct(keys, all);
    SortedUnique(Less, keys, all);
  }

  lemma SameDistinct(s: seq<string>, t: seq<string>)
    requires Distinct(s) && Distinct(t) && forall k :: k in s <==> k in t
    ensures multiset(s) == multiset(t)
  {
    DistinctOnce(s);
    DistinctOnce(t);
    forall k ensures multiset(s)[k] == multiset(t)[k] {
      assert k in s <==> k in multiset(s);
      assert k in t <==> k in multiset(t);
    }
  }

  lemma KeysAre(s: Names, a: string, b: string, k: string)
    requires Mixed(s, a, b)
    ensures k in Prefixes(Listed(s)) <==> k == a || k == b || k == s.gw
  {
    hide Prefix, Suffix, Less;
    var all := Listed(s);
    assert forall n :: n in all <==> n == s.b1 || n == s.a2 || n == s.gw || n == s.b2;
    assert s.b1 in all && s.a2 in all && s.gw in all;
  }

  /** The terms in the order of their prefixes: a number alone, a bracket, a name. */
  lemma MixedText(text: string, s: Names, a: string, b: string)
    requires Mixed(s, a, b) && IsFoldText(text, Listed(s))
    ensures text == Join([a + Itoa(2), b + "[" + (Itoa(1) + "-" + Itoa(2)) + "]", s.gw], ',')
  {
    hide Prefixes, Group, IsGroupTerms, Sorted, Distinct, Join, Numbered, Less, Itoa, Suffix, Prefix;
    Groups(s, a, b);
    var parts, keys :| IsParts(parts, keys, Listed(s)) && text == Join(Flatten(parts), ',');
    forall k ensures k in keys <==> k == a || k == b || k == s.gw {
      KeysAre(s, a, b, k);
    }
    SortedThree(keys, a, b, s.gw);
    assert IsPart(parts[0], keys[0], Listed(s)) && IsPart(parts[1], keys[1], Listed(s)) && IsPart(parts[2], keys[2], Listed(s));
    LoneTerms(parts[0], s.a2, a, 2);
    PairTerms(parts[1], s.b1, s.b2, b);
    RawTerms(parts[2], s.gw, s.gw);
    FlatThree(parts[0], parts[1], parts[2]);
    assert parts == [parts[0], parts[1], parts[2]];
    var p, q := a + Itoa(2), b + "[" + (Itoa(1) + "-" + Itoa(2)) + "]";
    assert [p] + [q] + [s.gw] == [p, q, s.gw];
  }

  lemma FlatThree(x: seq<string>, y: seq<string>, z: seq<string>)
    ensures Flatten([x, y, z]) == x + y + z
  {
    FlatSnoc([], x);
    FlatSnoc([x], y);
    FlatSnoc([x, y], z);
    assert [] + [x] == [x] && [x] + [y] == [x, y] && [x, y] + [z] == [x, y, z] && [] + x == x;
  }

  lemma FlatSnoc(parts: seq<seq<string>>, last: seq<string>)
    ensures Flatten(parts + [last]) == Flatten(parts) + last && Flatten([]) == []
  {
    assert (parts + [last])[..|parts|] == parts;
  }

  lemma MixedExample()
    ensures Mixed(Names("b1", "a2", "gw", "b2"), "a", "b")
  {
    hide Prefix, Suffix, DigitsVal, Brackets.DetectPadding, Less, Numbered;
    OneDigit("b", '1');
    OneDigit("a", '2');
    OneDigit("b", '2');
    assert "b" + ['1'] == "b1" && "a" + ['2'] == "a2" && "b" + ['2'] == "b2" && "gw" + "" == "gw";
    SplitOf("gw", "");
    LessIs("", 'a', 'b', "", "");
    LessIs("", 'a', 'g', "", "w");
    LessIs("", 'b', 'g', "", "w");
    assert "" + ['a'] + "" == "a" && "" + ['b'] + "" == "b" && "" + ['g'] + "w" == "gw";
  }

  lemma OneDigit(prefix: string, c: char)
    requires IsDigit(c) && prefix != "" && !IsDigit(prefix[|prefix| - 1])
    ensures Numbered(prefix + [c], prefix, DigitOf(c))
  {
    hide Prefix, Suffix;
    SplitOf(prefix, [c]);
    NoDigits();
    DigitsSnoc("", c);
    assert "" + [c] == [c];
  }

  /** Names come sorted by prefix, numbers of one prefix in one bracket, single numbers without. */
  lemma FoldsMixed(text: string)
    requires IsFoldText(text, ["b1", "a2", "gw", "b2"])
    ensures text == "a2,b[1-2],gw"
  {
    hide IsFoldText, Mixed, Join;
    MixedExample();
    MixedText(text, Names("b1", "a2", "gw", "b2"), "a", "b");
    OneAndTwo();
    var x, y, z := "a" + "2", "b" + "[" + ("1" + "-" + "2") + "]", "gw";
    JoinThree(x, y, z);
    assert x + [','] + (y + [','] + z) == "a2,b[1-2],gw";
  }

  lemma OneAndTwo()
    ensures Itoa(1) == "1" && Itoa(2) == "2"
  {
  }

  lemma JoinThree(x: string, y: string, z: string)
    ensures Join([x, y, z], ',') == x + [','] + (y + [','] + z)
  {
    assert Join([y, z], ',') == y + [','] + z by {
      assert [y, z][1..] == [z];
    }
    assert [x, y, z][1..] == [y, z];
  }
}
