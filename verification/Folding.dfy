/**
 Folding a list of node names into compact pattern text: the names are grouped by
 prefix, and the numbers of each group become one bracket.
 */
module Folding {
  import opened Wrappers
  import opened Ordering
  import opened Text
  import opened RangeSets
  import opened Listings
  import opened Brackets
  import opened BracketFold

  // ---------------------------------------------------------------- names

  /** Where the trailing digits of a name begin. */
  function TailStart(name: string): (n: nat)
    ensures n <= |name|
    ensures forall i :: n <= i < |name| ==> IsDigit(name[i])
    ensures n > 0 ==> !IsDigit(name[n - 1])
  {
    if name != "" && IsDigit(name[|name| - 1]) then TailStart(name[..|name| - 1]) else |name|
  }

  function Prefix(name: string): string
  {
    name[..TailStart(name)]
  }

  function Suffix(name: string): (s: string)
    ensures forall i :: 0 <= i < |s| ==> IsDigit(s[i])
  {
    name[TailStart(name)..]
  }

  method SplitTrailingNumber(name: string) returns (prefix: string, suffix: string)
    ensures prefix == Prefix(name) && suffix == Suffix(name)
  {
    var i := |name|;
    while i > 0 && IsDigit(name[i - 1])
      invariant 0 <= i <= |name|
      invariant TailStart(name[..i]) == TailStart(name)
    {
      assert name[..i][..i - 1] == name[..i - 1];
      i := i - 1;
    }
    if i == |name| {
      return name, "";
    }
    return name[..i], name[i..];
  }

  /** A prefix that does not end in a digit, followed by digits, splits back into the two. */
  lemma {:induction false} SplitOf(p: string, s: string)
    requires AllDigits(s) && (p != "" ==> !IsDigit(p[|p| - 1]))
    ensures Prefix(p + s) == p && Suffix(p + s) == s
  {
    if s == "" {
      assert p + s == p;
    } else {
      var front := s[..|s| - 1];
      assert (p + s)[..|p + s| - 1] == p + front;
      SplitOf(p, front);
      assert TailStart(p + s) == TailStart(p + front);
      TailOf(p, front);
    }
  }

  lemma TailOf(p: string, s: string)
    requires Prefix(p + s) == p
    ensures TailStart(p + s) == |p|
  {
  }

  lemma PrefixIs(name: string)
    ensures Prefix(name) + Suffix(name) == name && AllDigits(Suffix(name))
    ensures Prefix(name) != "" ==> !IsDigit(Prefix(name)[|Prefix(name)| - 1])
  {
  }

  // ---------------------------------------------------------------- groups

  ghost function Prefixes(nodes: seq<string>): set<string>
  {
    set n | n in nodes :: Prefix(n)
  }

  function Group(nodes: seq<string>, prefix: string): seq<string>
  {
    if nodes == [] then []
    else
      var last := nodes[|nodes| - 1];
      Group(nodes[..|nodes| - 1], prefix) + if Prefix(last) == prefix then [last] else []
  }

  lemma {:induction false} InGroup(nodes: seq<string>, prefix: string, n: string)
    ensures n in Group(nodes, prefix) <==> n in nodes && Prefix(n) == prefix
  {
    if nodes != [] {
      var front := nodes[..|nodes| - 1];
      InGroup(front, prefix, n);
      assert nodes == front + [nodes[|nodes| - 1]];
    }
  }

  method GroupByPrefix(nodes: seq<string>) returns (groups: map<string, seq<string>>)
    ensures groups.Keys == Prefixes(nodes)
    ensures forall p :: p in groups ==> groups[p] == Group(nodes, p)
  {
    groups := map[];
    for i := 0 to |nodes|
      invariant groups.Keys == Prefixes(nodes[..i])
      invariant forall p :: p in groups ==> groups[p] == Group(nodes[..i], p)
    {
      var prefix, suffix := SplitTrailingNumber(nodes[i]);
      GroupStep(nodes, i);
      if prefix !in groups {
        NoGroup(nodes[..i], prefix);
      }
      groups := groups[prefix := (if prefix in groups then groups[prefix] else []) + [nodes[i]]];
    }
    assert nodes[..|nodes|] == nodes;
  }

  lemma GroupStep(nodes: seq<string>, i: nat)
    requires i < |nodes|
    ensures Prefixes(nodes[..i + 1]) == Prefixes(nodes[..i]) + {Prefix(nodes[i])}
    ensures forall p :: Group(nodes[..i + 1], p) ==
                        if Prefix(nodes[i]) == p then Group(nodes[..i], p) + [nodes[i]] else Group(nodes[..i], p)
  {
    var now := nodes[..i + 1];
    assert now == nodes[..i] + [nodes[i]];
    assert now[..|now| - 1] == nodes[..i];
    forall x | x in Prefixes(nodes[..i]) + {Prefix(nodes[i])} ensures x in Prefixes(now) {
      if x != Prefix(nodes[i]) {
        var n :| n in nodes[..i] && Prefix(n) == x;
        assert n in now;
      } else {
        assert nodes[i] in now;
      }
    }
    assert forall p :: Group(nodes[..i], p) + [] == Group(nodes[..i], p);
  }

  lemma {:induction false} NoGroup(nodes: seq<string>, prefix: string)
    requires prefix !in Prefixes(nodes)
    ensures Group(nodes, prefix) == []
  {
    if nodes != [] {
      var front := nodes[..|nodes| - 1];
      forall n | n in front ensures n in nodes && Prefix(n) in Prefixes(nodes) {
      }
      assert Prefixes(front) <= Prefixes(nodes);
      assert nodes[|nodes| - 1] in nodes;
      NoGroup(front, prefix);
    }
  }

  // ---------------------------------------------------------------- one group

  /** The numbers the names of a group end in. */
  ghost function Values(nodes: seq<string>): set<int>
  {
    set n | n in nodes && Suffix(n) != "" :: DigitsVal(Suffix(n))
  }

  /** How many names end in a number. */
  function NumericCount(nodes: seq<string>): nat
  {
    if nodes == [] then 0
    else NumericCount(nodes[..|nodes| - 1]) + if Suffix(nodes[|nodes| - 1]) != "" then 1 else 0
  }

  /** The widest zero padding among the numbers. */
  function MaxPad(nodes: seq<string>): (pad: int)
    ensures pad >= 0
  {
    if nodes == [] then 0 else Max(MaxPad(nodes[..|nodes| - 1]), DetectPadding(Suffix(nodes[|nodes| - 1])))
  }

  /** As wide as the widest number with a zero in front, and zero where there is none. */
  lemma {:induction false} MaxPadIs(nodes: seq<string>)
    ensures forall n :: n in nodes && |Suffix(n)| > 1 && Suffix(n)[0] == '0' ==> |Suffix(n)| <= MaxPad(nodes)
    ensures MaxPad(nodes) == 0 || exists n :: n in nodes && |Suffix(n)| > 1 && Suffix(n)[0] == '0' && |Suffix(n)| == MaxPad(nodes)
  {
    hide Suffix;
    if nodes != [] {
      var front, last := nodes[..|nodes| - 1], nodes[|nodes| - 1];
      MaxPadIs(front);
      assert nodes == front + [last];
      if MaxPad(nodes) != 0 && MaxPad(nodes) == MaxPad(front) {
        var n :| n in front && |Suffix(n)| > 1 && Suffix(n)[0] == '0' && |Suffix(n)| == MaxPad(front);
        assert n in nodes;
      } else {
        assert last in nodes;
      }
    }
  }

  function NonNumeric(nodes: seq<string>): seq<string>
  {
    if nodes == [] then []
    else
      var last := nodes[|nodes| - 1];
      NonNumeric(nodes[..|nodes| - 1]) + if Suffix(last) == "" then [last] else []
  }

  lemma ValuesStep(nodes: seq<string>, i: nat)
    requires i < |nodes|
    ensures Values(nodes[..i + 1]) == Values(nodes[..i]) +
            if Suffix(nodes[i]) != "" then {DigitsVal(Suffix(nodes[i]))} else {}
  {
    var now := nodes[..i + 1];
    assert now == nodes[..i] + [nodes[i]];
    forall v | v in Values(nodes[..i]) ensures v in Values(now) {
      var n :| n in nodes[..i] && Suffix(n) != "" && DigitsVal(Suffix(n)) == v;
      assert n in now;
    }
    assert nodes[i] in now;
  }

  /** The term for the numbered names of a group: the name itself if there is one, a bracket otherwise. */
  ghost predicate IsNumericTerm(term: string, prefix: string, nodes: seq<string>)
  {
    if NumericCount(nodes) == 1
    then exists v :: Values(nodes) == {v} && term == prefix + Format(v, MaxPad(nodes))
    else exists rs, text :: IsBracketText(text, rs, nodes) && term == prefix + "[" + text + "]"
  }

  ghost predicate IsBracketText(text: string, rs: seq<Rang>, nodes: seq<string>)
  {
    Canonical(rs) && Members(rs) == Values(nodes) && IsFolded(text, rs, MaxPad(nodes))
  }

  /** The terms of a group: one for its numbered names, if any, then the others sorted. */
  ghost predicate IsGroupTerms(terms: seq<string>, prefix: string, nodes: seq<string>)
  {
    exists names :: SortedNames(names, NonNumeric(nodes)) &&
      if NumericCount(nodes) == 0 then terms == names
      else exists term :: IsNumericTerm(term, prefix, nodes) && terms == [term] + names
  }

  ghost predicate SortedNames(names: seq<string>, of: seq<string>)
  {
    Sorted(Less, names) && multiset(names) == multiset(of)
  }

  datatype NodeEntry = NodeEntry(value: int, padding: int)

  predicate ByValue(a: NodeEntry, b: NodeEntry)
  {
    a.value < b.value
  }

  ghost function EntryValues(entries: seq<NodeEntry>): set<int>
  {
    set e | e in entries :: e.value
  }

  /** The greatest padding among the entries, and at least zero. */
  ghost predicate IsWidest(entries: seq<NodeEntry>, pad: int)
  {
    && pad >= 0
    && (forall e :: e in entries ==> e.padding <= pad)
    && (pad == 0 || exists e :: e in entries && e.padding == pad)
  }

  lemma WidestUnique(entries: seq<NodeEntry>, others: seq<NodeEntry>, p: int, q: int)
    requires IsWidest(entries, p) && IsWidest(others, q)
    requires forall e :: e in entries <==> e in others
    ensures p == q
  {
  }

  lemma WidestSnoc(entries: seq<NodeEntry>, e: NodeEntry, pad: int)
    requires IsWidest(entries, pad)
    ensures IsWidest(entries + [e], Max(pad, e.padding))
  {
    var all := entries + [e];
    assert forall x :: x in all <==> x in entries || x == e;
    if pad > 0 {
      var x :| x in entries && x.padding == pad;
      assert x in all;
    }
    assert e in all;
  }

  /** Reads the numbers off the names of a group. */
  method ReadEntries(nodes: seq<string>) returns (entries: seq<NodeEntry>, nonNumeric: seq<string>)
    ensures EntryValues(entries) == Values(nodes) && |entries| == NumericCount(nodes)
    ensures IsWidest(entries, MaxPad(nodes))
    ensures nonNumeric == NonNumeric(nodes)
  {
    hide Values, EntryValues, IsWidest, Suffix, Prefix, Atoi;
    entries, nonNumeric := [], [];
    NoEntries();
    for i := 0 to |nodes|
      invariant EntryValues(entries) == Values(nodes[..i]) && |entries| == NumericCount(nodes[..i])
      invariant IsWidest(entries, MaxPad(nodes[..i]))
      invariant nonNumeric == NonNumeric(nodes[..i])
    {
      var prefix, suffix := SplitTrailingNumber(nodes[i]);
      ValuesStep(nodes, i);
      assert nodes[..i + 1][..i] == nodes[..i];
      if suffix == "" {
        nonNumeric := nonNumeric + [nodes[i]];
        continue;
      }
      var v := Atoi(suffix);
      AtoiDigits(suffix);
      var e := NodeEntry(v.value, DetectPadding(suffix));
      EntriesSnoc(entries, e);
      WidestSnoc(entries, e, MaxPad(nodes[..i]));
      entries := entries + [e];
    }
    assert nodes[..|nodes|] == nodes;
  }

  lemma NoEntries()
    ensures EntryValues([]) == {} && Values([]) == {} && IsWidest([], 0)
  {
  }

  lemma EntriesSnoc(entries: seq<NodeEntry>, e: NodeEntry)
    ensures EntryValues(entries + [e]) == EntryValues(entries) + {e.value}
    ensures forall x :: x in entries + [e] <==> x in entries || x == e
  {
    var all := entries + [e];
    assert forall x :: x in all <==> x in entries || x == e;
    forall v | v in EntryValues(entries) + {e.value} ensures v in EntryValues(all) {
      if v == e.value {
        assert e in all;
      } else {
        var x :| x in entries && x.value == v;
        assert x in all;
      }
    }
  }

  /** The ranges covering a sorted list of values. */
  method BuildRanges(entries: seq<NodeEntry>) returns (ranges: seq<Rang>)
    requires Sorted(ByValue, entries)
    ensures Canonical(ranges) && Members(ranges) == EntryValues(entries)
  {
    hide Members;
    ranges := [];
    MembersNone();
    for i := 0 to |entries|
      invariant Canonical(ranges) && Members(ranges) == EntryValues(entries[..i])
      invariant ranges == [] <==> i == 0
      invariant i > 0 ==> ranges[|ranges| - 1].hi == entries[i - 1].value
    {
      var v := entries[i].value;
      assert entries[..i + 1] == entries[..i] + [entries[i]];
      EntriesSnoc(entries[..i], entries[i]);
      assert i > 0 ==> !ByValue(entries[i], entries[i - 1]);
      if |ranges| > 0 && ranges[|ranges| - 1].hi >= v - 1 {
        ExtendLast(ranges, v);
        if v > ranges[|ranges| - 1].hi {
          ranges := ranges[|ranges| - 1 := Rang(ranges[|ranges| - 1].lo, v)];
        }
      } else {
        MembersSnoc(ranges, Rang(v, v));
        IntervalOne(v);
        CanonicalAppend(ranges, v);
        ranges := ranges + [Rang(v, v)];
      }
    }
    assert entries[..|entries|] == entries;
  }

  lemma IntervalOne(v: int)
    ensures Interval(v, v) == {v}
  {
  }

  lemma CanonicalAppend(ranges: seq<Rang>, v: int)
    requires Canonical(ranges) && (ranges != [] ==> ranges[|ranges| - 1].hi < v - 1)
    ensures Canonical(ranges + [Rang(v, v)])
  {
    forall i | 0 <= i < |ranges| ensures ranges[i].hi + 1 < v {
      assert i == |ranges| - 1 || ranges[i].hi + 1 < ranges[|ranges| - 1].lo;
    }
  }

  /** Growing the last range by one value, or finding the value already in it. */
  lemma ExtendLast(ranges: seq<Rang>, v: int)
    requires Canonical(ranges) && ranges != []
    requires v - 1 <= ranges[|ranges| - 1].hi <= v
    ensures var n := |ranges| - 1;
            var grown := ranges[n := Rang(ranges[n].lo, v)];
            Canonical(grown) && Members(grown) == Members(ranges) + {v}
  {
    var n := |ranges| - 1;
    var front, r := ranges[..n], ranges[n];
    assert ranges == front + [r];
    assert ranges[n := Rang(r.lo, v)] == front + [Rang(r.lo, v)];
    MembersSnoc(front, r);
    MembersSnoc(front, Rang(r.lo, v));
    assert Interval(r.lo, v) == Interval(r.lo, r.hi) + {v};
  }

  /** Folds the names of one group; `terms` are the comma-separated terms of the text. */
  method FoldGroup(prefix: string, nodes: seq<string>) returns (text: string, ghost terms: seq<string>)
    ensures IsGroupTerms(terms, prefix, nodes) && text == Join(terms, ',')
  {
    hide Sorted, Join, EntryValues, IsWidest, IsNumericTerm, Values, MaxPad, NumericCount, NonNumeric;
    var entries, nonNumeric := ReadEntries(nodes);
    LessIsStrictOrder();
    StrictIsWeak(Less);
    var names := SortBy(Less, nonNumeric);
    assert SortedNames(names, NonNumeric(nodes));
    if |entries| == 0 {
      return Join(names, ','), names;
    }
    var sorted := SortBy(ByValue, entries);
    SameEntries(entries, sorted);
    var result := FoldNumbers(prefix, sorted, nodes);
    terms := [result] + names;
    JoinOne(result, names);
    if |names| > 0 {
      result := result + "," + Join(names, ',');
    }
    text := result;
  }

  /** The term for the numbered names of a group. */
  method FoldNumbers(prefix: string, sorted: seq<NodeEntry>, ghost nodes: seq<string>) returns (result: string)
    requires Sorted(ByValue, sorted) && sorted != []
    requires EntryValues(sorted) == Values(nodes) && |sorted| == NumericCount(nodes)
    requires IsWidest(sorted, MaxPad(nodes))
    ensures IsNumericTerm(result, prefix, nodes)
  {
    hide Sorted, EntryValues, IsWidest, Values, MaxPad, NumericCount, Canonical, Members, IsFolded;
    var padding := 0;
    NoEntries();
    for i := 0 to |sorted|
      invariant IsWidest(sorted[..i], padding)
    {
      assert sorted[..i + 1] == sorted[..i] + [sorted[i]];
      WidestSnoc(sorted[..i], sorted[i], padding);
      if sorted[i].padding > padding {
        padding := sorted[i].padding;
      }
    }
    assert sorted[..|sorted|] == sorted;
    WidestUnique(sorted, sorted, padding, MaxPad(nodes));
    var ranges := BuildRanges(sorted);
    var rs := new RangeSet(padding);
    rs.ranges := ranges;
    var folded := Fold(rs);
    if |sorted| == 1 {
      OneEntry(sorted);
      result := prefix + Format(sorted[0].value, padding);
    } else {
      assert IsBracketText(folded, ranges, nodes);
      result := prefix + "[" + folded + "]";
    }
  }

  lemma OneEntry(entries: seq<NodeEntry>)
    requires |entries| == 1
    ensures EntryValues(entries) == {entries[0].value}
  {
  }

  lemma JoinOne(first: string, names: seq<string>)
    ensures Join([first] + names, ',') == if names == [] then first else first + "," + Join(names, ',')
  {
    assert ([first] + names)[1..] == names;
  }

  lemma SameEntries(entries: seq<NodeEntry>, sorted: seq<NodeEntry>)
    requires multiset(entries) == multiset(sorted)
    ensures EntryValues(entries) == EntryValues(sorted) && |entries| == |sorted|
    ensures forall pad :: IsWidest(entries, pad) ==> IsWidest(sorted, pad)
  {
    assert |multiset(entries)| == |entries| && |multiset(sorted)| == |sorted|;
    forall e ensures e in entries <==> e in sorted {
      assert e in entries <==> e in multiset(entries);
      assert e in sorted <==> e in multiset(sorted);
    }
  }

  // ---------------------------------------------------------------- the whole list

  function Flatten(parts: seq<seq<string>>): seq<string>
  {
    if parts == [] then [] else Flatten(parts[..|parts| - 1]) + parts[|parts| - 1]
  }

  /** The terms for one prefix: raw names in order for purely numeric names, group terms otherwise. */
  ghost predicate IsPart(terms: seq<string>, prefix: string, nodes: seq<string>)
  {
    if prefix == "" then SortedNames(terms, Group(nodes, "")) else IsGroupTerms(terms, prefix, Group(nodes, prefix))
  }

  /** The prefixes in order, each once, with the terms of each. */
  ghost predicate IsParts(parts: seq<seq<string>>, keys: seq<string>, nodes: seq<string>)
  {
    && Sorted(Less, keys) && Distinct(keys) && (forall k :: k in keys <==> k in Prefixes(nodes))
    && |parts| == |keys|
    && forall i :: 0 <= i < |keys| ==> IsPart(parts[i], keys[i], nodes)
  }

  /** What `Fold` prints for a list of names. */
  ghost predicate IsFoldText(text: string, nodes: seq<string>)
  {
    if nodes == [] then text == ""
    else if |nodes| == 1 then text == nodes[0]
    else exists parts, keys :: IsParts(parts, keys, nodes) && text == Join(Flatten(parts), ',')
  }

  lemma GroupTermsNotEmpty(terms: seq<string>, prefix: string, nodes: seq<string>)
    requires IsGroupTerms(terms, prefix, nodes) && nodes != []
    ensures terms != []
  {
    var names :| SortedNames(names, NonNumeric(nodes)) &&
                 if NumericCount(nodes) == 0 then terms == names
                 else exists term :: IsNumericTerm(term, prefix, nodes) && terms == [term] + names;
    if NumericCount(nodes) == 0 {
      CountSplit(nodes);
      assert |multiset(names)| == |names| && |multiset(NonNumeric(nodes))| == |NonNumeric(nodes)|;
    }
  }

  lemma {:induction false} CountSplit(nodes: seq<string>)
    ensures NumericCount(nodes) + |NonNumeric(nodes)| == |nodes|
  {
    if nodes != [] {
      CountSplit(nodes[..|nodes| - 1]);
    }
  }

  lemma PartNotEmpty(terms: seq<string>, prefix: string, nodes: seq<string>)
    requires IsPart(terms, prefix, nodes) && prefix in Prefixes(nodes)
    ensures terms != []
  {
    var n :| n in nodes && Prefix(n) == prefix;
    InGroup(nodes, prefix, n);
    if prefix == "" {
      assert n in multiset(Group(nodes, ""));
    } else {
      GroupTermsNotEmpty(terms, prefix, Group(nodes, prefix));
    }
  }

  /** Joining texts of term lists is joining the terms. */
  lemma JoinFlat(parts: seq<string>, flat: seq<string>, more: seq<string>, terms: seq<string>)
    requires terms != [] && more != [] && Join(more, ',') == Join(terms, ',')
    requires Join(parts, ',') == Join(flat, ',') && (parts == [] <==> flat == [])
    ensures Join(parts + more, ',') == Join(flat + terms, ',')
  {
    if parts == [] {
      assert parts + more == more && flat + terms == terms;
    } else {
      JoinConcat(parts, more, ',');
      JoinConcat(flat, terms, ',');
    }
  }

  /** Compact text for a list of names. */
  method FoldNodes(nodes: seq<string>) returns (text: string)
    ensures IsFoldText(text, nodes)
  {
    if |nodes| == 0 {
      return "";
    }
    if |nodes| == 1 {
      return nodes[0];
    }
    hide Prefixes, Group, Sorted, Distinct, Join, IsPart, Flatten;
    var groups := GroupByPrefix(nodes);
    var keys := SortedKeys(groups.Keys);
    ghost var lists: seq<seq<string>>;
    text, lists := FoldKeys(keys, groups, nodes);
    assert IsParts(lists, keys, nodes);
  }

  method FoldKeys(keys: seq<string>, groups: map<string, seq<string>>, ghost nodes: seq<string>)
    returns (text: string, ghost lists: seq<seq<string>>)
    requires forall k :: k in keys ==> k in Prefixes(nodes) && k in groups && groups[k] == Group(nodes, k)
    ensures |lists| == |keys| && forall i :: 0 <= i < |keys| ==> IsPart(lists[i], keys[i], nodes)
    ensures text == Join(Flatten(lists), ',')
  {
    hide Prefixes, Group, Join, IsPart;
    var parts: seq<string> := [];
    lists := [];
    for i := 0 to |keys|
      invariant |lists| == i && forall j :: 0 <= j < i ==> IsPart(lists[j], keys[j], nodes)
      invariant Join(parts, ',') == Join(Flatten(lists), ',') && (parts == [] <==> Flatten(lists) == [])
    {
      var more: seq<string>;
      ghost var terms: seq<string>;
      assert keys[i] in keys;
      more, terms := FoldPart(keys[i], groups[keys[i]], nodes);
      JoinFlat(parts, Flatten(lists), more, terms);
      assert (lists + [terms])[..i] == lists;
      parts := parts + more;
      lists := lists + [terms];
    }
    text := Join(parts, ',');
  }

  /** What one prefix adds to the parts. */
  method FoldPart(prefix: string, entries: seq<string>, ghost nodes: seq<string>)
    returns (more: seq<string>, ghost terms: seq<string>)
    requires prefix in Prefixes(nodes) && entries == Group(nodes, prefix)
    ensures IsPart(terms, prefix, nodes) && terms != [] && more != [] && Join(more, ',') == Join(terms, ',')
  {
    hide Prefixes, Group, IsGroupTerms, Sorted;
    if prefix == "" {
      LessIsStrictOrder();
      StrictIsWeak(Less);
      more := SortBy(Less, entries);
      terms := more;
    } else {
      var part: string;
      part, terms := FoldGroup(prefix, entries);
      more := [part];
    }
    PartNotEmpty(terms, prefix, nodes);
  }
}
