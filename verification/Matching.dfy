/** Matching a host name against a pattern without expanding it. */
module Matching {
  // The matcher is compared with expansion in both directions.

  import opened Wrappers
  import opened Text
  import opened RangeSets
  import opened Listings
  import Brackets
  import opened BracketFold
  import opened Cartesian
  import opened Patterns

  // ---------------------------------------------------------------- numbers in host names

  /** A digit string with a value of the bracket, of the padded width if the bracket is padded. */
  ghost predicate Accepts(b: Brackets.Bracket, num: string)
  {
    && (b.padding > 0 ==> |num| == b.padding)
    && num != "" && AllDigits(num) && DigitsVal(num) in b.values
  }

  method ParseIntAtoi(s: string) returns (r: Option<int>)
    ensures r.Some? <==> AllDigits(s)
    ensures r.Some? ==> AllDigits(s) && r.value == DigitsVal(s)
  {
    var v := 0;
    for i := 0 to |s|
      invariant AllDigits(s[..i]) && v == DigitsVal(s[..i])
    {
      if !IsDigit(s[i]) {
        return None;
      }
      assert s[..i + 1][..i] == s[..i];
      v := v * 10 + DigitOf(s[i]);
    }
    assert s[..|s|] == s;
    return Some(v);
  }

  /** `sort.SearchInts` followed by a comparison. */
  method HasInt(ints: seq<int>, v: int) returns (b: bool)
    requires StrictlySorted(ints)
    ensures b <==> v in ints
  {
    var i, j := 0, |ints|;
    while i < j
      invariant 0 <= i <= j <= |ints|
      invariant forall k :: 0 <= k < i ==> ints[k] < v
      invariant forall k :: j <= k < |ints| ==> ints[k] >= v
    {
      var h := i + (j - i) / 2;
      if ints[h] >= v {
        j := h;
      } else {
        i := h + 1;
      }
    }
    b := i < |ints| && ints[i] == v;
    if !b {
      forall k | 0 <= k < |ints| ensures ints[k] != v {
        assert k <= i || ints[i] < ints[k];
      }
    }
  }

  method CheckNumStr(num: string, ints: seq<int>, padding: int, ghost b: Brackets.Bracket) returns (ok: bool)
    requires Listing(ints, b.values) && padding == b.padding
    ensures ok <==> Accepts(b, num)
  {
    if padding > 0 && |num| != padding {
      return false;
    }
    if num == "" {
      return false;
    }
    var val := ParseIntAtoi(num);
    if val.None? {
      return false;
    }
    ok := HasInt(ints, val.value);
  }

  // ---------------------------------------------------------------- searching for the next literal

  /** `strings.Index`: where `lit` first occurs, or -1. */
  function Find(s: string, lit: string): (r: int)
    ensures r >= 0 ==> r <= |s| && lit <= s[r..]
    ensures r < 0 ==> r == -1
  {
    if lit <= s then assert s[0..] == s; 0
    else if s == "" then -1
    else
      var r := Find(s[1..], lit);
      if r < 0 then -1 else assert s[r + 1..] == s[1..][r..]; r + 1
  }

  /** Exactly the first place where the text goes on with `lit`. */
  lemma {:induction false} FindIs(s: string, lit: string)
    ensures Find(s, lit) >= 0 ==> forall i :: 0 <= i < Find(s, lit) ==> !(lit <= s[i..])
    ensures Find(s, lit) < 0 ==> forall i :: 0 <= i <= |s| ==> !(lit <= s[i..])
  {
    assert s[0..] == s;
    if !(lit <= s) && s != "" {
      FindIs(s[1..], lit);
      forall i | 1 <= i <= |s| ensures s[i..] == s[1..][i - 1..] {
      }
    }
  }

  /** `lit` is found right after `num`, and not before, when it follows `num`. */
  ghost predicate Found(num: string, lit: string)
  {
    Find(num + lit, lit) == |num|
  }

  /** What comes after the literal makes no difference to where it is found. */
  lemma {:induction false} FoundThrough(num: string, lit: string, t: string)
    requires lit <= t
    ensures Found(num, lit) <==> Find(num + t, lit) == |num|
  {
    if num == "" {
      assert num + lit == lit && num + t == t;
      assert lit <= lit;
    } else {
      var a, b := num + lit, num + t;
      assert a <= b;
      assert lit <= a <==> lit <= b by {
        assert |lit| <= |a| && a[..|lit|] == b[..|lit|];
      }
      assert a[1..] == num[1..] + lit && b[1..] == num[1..] + t;
      FoundThrough(num[1..], lit, t);
    }
  }

  /** How many digits a text begins with. */
  function LeadingDigits(s: string): (n: nat)
    ensures n <= |s| && AllDigits(s[..n]) && (n < |s| ==> !IsDigit(s[n]))
  {
    if s != "" && IsDigit(s[0]) then
      var n := LeadingDigits(s[1..]);
      assert s[..n + 1] == [s[0]] + s[1..][..n];
      n + 1
    else 0
  }

  /** A text that is not all digits, such as a separator that cannot be taken for a part of a number. */
  predicate HasNonDigit(s: string)
  {
    LeadingDigits(s) < |s|
  }

  /** A literal with a character that is not a digit is found right after the digits in front of it. */
  lemma {:induction false} NonDigitFound(num: string, lit: string)
    requires AllDigits(num) && HasNonDigit(lit)
    ensures Found(num, lit)
  {
    hide HasNonDigit;
    if num == "" {
      assert num + lit == lit;
      assert lit <= lit;
    } else {
      NotAtOnce(num, lit);
      assert (num + lit)[1..] == num[1..] + lit;
      NonDigitFound(num[1..], lit);
    }
  }

  lemma NotAtOnce(num: string, lit: string)
    requires AllDigits(num) && num != "" && HasNonDigit(lit)
    ensures !(lit <= num + lit)
  {
    var s, k := num + lit, LeadingDigits(lit);
    assert IsDigit(s[k]) by {
      if k >= |num| {
        assert s[k] == lit[..k][k - |num|];
      }
    }
  }

  // ---------------------------------------------------------------- the parts of a pattern

  ghost predicate HasBracket(p: string)
  {
    IndexOf(p, '[') >= 0
  }

  function Lit(p: string): string
  {
    if IndexOf(p, '[') < 0 then p else p[..IndexOf(p, '[')]
  }

  /** The position just after the first bracket, or the length when the bracket is not closed. */
  function Next(p: string): (n: nat)
    requires IndexOf(p, '[') >= 0
    ensures IndexOf(p, '[') < n <= |p|
  {
    var b := IndexOf(p, '[');
    var e := IndexOf(p[b..], ']');
    if e < 0 then |p| else b + e + 1
  }

  function Rest(p: string): string
    requires IndexOf(p, '[') >= 0
  {
    p[Next(p)..]
  }

  /** The first bracket, closed and parsed. */
  ghost function First(p: string): Result<Brackets.Bracket, PatternError>
    requires HasBracket(p)
  {
    var b := IndexOf(p, '[');
    var e := IndexOf(p[b..], ']');
    if e < 0 then Err(UnclosedBracket)
    else
      var r := Brackets.ParseBracket(p[b + 1..b + e]);
      if r.Err? then Err(BadBracket(r.error)) else Ok(r.value)
  }

  /** What the matcher computes on what is left of the pattern and of the host name. */
  ghost function MatchFrom(p: string, h: string): Result<bool, PatternError>
    decreases |p|
  {
    if p == "" then Ok(h == "")
    else if !HasBracket(p) then Ok(h == p)
    else if !(Lit(p) <= h) then Ok(false)
    else if First(p).Err? then Err(First(p).error)
    else
      var h1 := h[|Lit(p)|..];
      if Rest(p) == "" then Ok(Accepts(First(p).value, h1))
      else
        var at := Find(h1, Lit(Rest(p)));
        if at < 0 then Ok(false)
        else if !Accepts(First(p).value, h1[..at]) then Ok(false)
        else MatchFrom(Rest(p), h1[at..])
  }

  /** A pattern without brackets left, or one whose first literal does not fit, decides at once. */
  lemma MatchLiteral(p: string, h: string)
    requires p != ""
    ensures !HasBracket(p) ==> MatchFrom(p, h) == Ok(h == p)
    ensures HasBracket(p) && !(Lit(p) <= h) ==> MatchFrom(p, h) == Ok(false)
    ensures HasBracket(p) && Lit(p) <= h && First(p).Err? ==> MatchFrom(p, h) == Err(First(p).error)
  {
    hide Accepts, Find, IndexOf, First;
  }

  lemma MatchBracket(p: string, h: string)
    requires HasBracket(p) && Lit(p) <= h && First(p).Ok?
    ensures var h1 := h[|Lit(p)|..];
            if Rest(p) == "" then MatchFrom(p, h) == Ok(Accepts(First(p).value, h1))
            else
              var at := Find(h1, Lit(Rest(p)));
              if at < 0 || !Accepts(First(p).value, h1[..at]) then MatchFrom(p, h) == Ok(false)
              else MatchFrom(p, h) == MatchFrom(Rest(p), h1[at..])
  {
    hide Accepts, Find, IndexOf, First;
  }

  /** The loop of the matcher; `p` and `h` are what is left of the pattern and of the host name. */
  method MatchSimplePattern(pattern: string, hostname: string) returns (r: Result<bool, PatternError>)
    ensures r == MatchFrom(pattern, hostname)
  {
    hide Accepts, Brackets.ParseBracket, Find, IndexOf, MatchFrom;
    var p, h := pattern, hostname;
    while p != ""
      invariant MatchFrom(pattern, hostname) == MatchFrom(p, h)
      decreases |p|
    {
      MatchLiteral(p, h);
      var bracketStart := IndexOf(p, '[');
      if bracketStart < 0 {
        return Ok(h == p);
      }
      var literal := p[..bracketStart];
      if !(literal <= h) {
        return Ok(false);
      }
      ghost var p0, whole := p, h;
      h := h[|literal|..];
      var bracketEnd := IndexOf(p[bracketStart..], ']');
      if bracketEnd < 0 {
        return Err(UnclosedBracket);
      }
      bracketEnd := bracketEnd + bracketStart;
      var parsed := Brackets.ParseBracketExpr(p[bracketStart + 1..bracketEnd]);
      if parsed.Err? {
        return Err(BadBracket(parsed.error));
      }
      ghost var b := Brackets.ParseBracket(p[bracketStart + 1..bracketEnd]).value;
      MatchBracket(p, whole);
      assert First(p) == Ok(b);
      var ints, padding := parsed.value.0, parsed.value.1;
      p := p[bracketEnd + 1..];
      assert p == Rest(p0);
      hide First, Rest, HasBracket;
      if p == "" {
        var last := CheckNumStr(h, ints, padding, b);
        return Ok(last);
      }
      var nextStart := IndexOf(p, '[');
      var nextLiteral := if nextStart < 0 then p else p[..nextStart];
      assert nextLiteral == Lit(p);
      var litIdx := Find(h, nextLiteral);
      if litIdx < 0 {
        return Ok(false);
      }
      var num := h[..litIdx];
      var matched := CheckNumStr(num, ints, padding, b);
      if !matched {
        return Ok(false);
      }
      h := h[|num|..];
    }
    EmptyPattern(h);
    return Ok(h == "");
  }

  lemma EmptyPattern(h: string)
    ensures MatchFrom("", h) == Ok(h == "")
  {
  }

  // ---------------------------------------------------------------- choosing a number for each bracket

  ghost predicate WellFormed(p: string)
    decreases |p|
  {
    HasBracket(p) ==> First(p).Ok? && WellFormed(Rest(p))
  }

  /** The pattern with each bracket replaced by a number. */
  ghost function SpellOut(p: string, nums: seq<string>): string
    decreases |p|
  {
    if !HasBracket(p) || nums == [] then p else Lit(p) + nums[0] + SpellOut(Rest(p), nums[1..])
  }

  /** One number per bracket, each accepted by its bracket. */
  ghost predicate AllAccepted(p: string, nums: seq<string>)
    requires WellFormed(p)
    decreases |p|
  {
    if !HasBracket(p) then nums == []
    else nums != [] && Accepts(First(p).value, nums[0]) && AllAccepted(Rest(p), nums[1..])
  }

  ghost predicate Prints(b: Brackets.Bracket, num: string)
  {
    exists v :: v in b.values && num == Format(v, b.padding)
  }

  /** One number per bracket, each a value of its bracket as the expander prints it. */
  ghost predicate AllPrinted(p: string, nums: seq<string>)
    requires WellFormed(p)
    decreases |p|
  {
    if !HasBracket(p) then nums == []
    else nums != [] && Prints(First(p).value, nums[0]) && AllPrinted(Rest(p), nums[1..])
  }

  /** Every literal is found right after the number in front of it. */
  ghost predicate AllFound(p: string, nums: seq<string>)
    decreases |p|
  {
    HasBracket(p) && nums != [] ==>
      (Rest(p) != "" ==> Found(nums[0], Lit(Rest(p)))) && AllFound(Rest(p), nums[1..])
  }

  /** A literal between two brackets, if there is one, is not all digits. */
  ghost predicate NoDigitSeparator(p: string)
    decreases |p|
  {
    HasBracket(p) ==>
      && (HasBracket(Rest(p)) && Lit(Rest(p)) != "" ==> HasNonDigit(Lit(Rest(p))))
      && NoDigitSeparator(Rest(p))
  }

  /**
   Every value of every bracket fits its padding, and the literal after the bracket,
   if anything follows, is found right after the value. In particular no two brackets
   are adjacent, because an empty literal is found at once.
   */
  ghost predicate Fits(p: string)
    requires WellFormed(p)
    decreases |p|
  {
    HasBracket(p) ==>
      && (forall v :: v in First(p).value.values ==> FitsHere(p, v))
      && Fits(Rest(p))
  }

  ghost predicate FitsHere(p: string, v: int)
    requires HasBracket(p) && First(p).Ok?
  {
    var b := First(p).value;
    && (v >= 0 && b.padding > 0 ==> |Itoa(v)| <= b.padding)
    && (Rest(p) != "" ==> Found(Format(v, b.padding), Lit(Rest(p))))
  }

  /** No bracket is directly followed by another. */
  ghost predicate NoAdjacentBrackets(p: string)
    decreases |p|
  {
    HasBracket(p) ==> (Rest(p) != "" ==> Lit(Rest(p)) != "") && NoAdjacentBrackets(Rest(p))
  }

  /** No padded bracket holds a value wider than its padding. */
  ghost predicate NoWideValue(p: string)
    requires WellFormed(p)
    decreases |p|
  {
    HasBracket(p) ==>
      && (forall v :: v in First(p).value.values && v >= 0 && First(p).value.padding > 0
                      ==> |Itoa(v)| <= First(p).value.padding)
      && NoWideValue(Rest(p))
  }

  lemma SpellPrefix(p: string, nums: seq<string>)
    ensures Lit(p) <= SpellOut(p, nums)
  {
  }

  /** An accepted name spells the pattern with an accepted number for each bracket, each literal found in its place. */
  lemma {:induction false} MatchOnlyIf(p: string, h: string) returns (nums: seq<string>)
    requires WellFormed(p) && MatchFrom(p, h) == Ok(true)
    ensures AllAccepted(p, nums) && AllFound(p, nums) && h == SpellOut(p, nums)
    decreases |p|
  {
    hide Accepts, Find, Brackets.ParseBracket, IndexOf, First, MatchFrom, SpellOut, AllAccepted, WellFormed, Lit, Found, AllFound;
    if !HasBracket(p) {
      nums := [];
      PlainSpelled(p, h);
    } else {
      BracketClosed(p);
      MatchLiteral(p, h);
      var h1 := h[|Lit(p)|..];
      assert h == Lit(p) + h1;
      var num, left := MatchNumber(p, h1);
      assert h1 == num + left;
      var more := MatchOnlyIf(Rest(p), left);
      nums := [num] + more;
      SpellOutStep(p, num, more);
      SpellPrefix(Rest(p), more);
      if Rest(p) != "" {
        FoundThrough(num, Lit(Rest(p)), left);
      }
      assert Lit(p) + num + left == Lit(p) + (num + left);
    }
  }

  lemma PlainSpelled(p: string, h: string)
    requires !HasBracket(p) && WellFormed(p) && MatchFrom(p, h) == Ok(true)
    ensures AllAccepted(p, []) && AllFound(p, []) && h == SpellOut(p, [])
  {
  }

  lemma BracketClosed(p: string)
    requires HasBracket(p) && WellFormed(p)
    ensures First(p).Ok? && WellFormed(Rest(p))
  {
  }

  lemma SpellOutStep(p: string, num: string, more: seq<string>)
    requires HasBracket(p) && WellFormed(p)
    ensures First(p).Ok? && WellFormed(Rest(p))
    ensures SpellOut(p, [num] + more) == Lit(p) + num + SpellOut(Rest(p), more)
    ensures AllAccepted(p, [num] + more) <==> Accepts(First(p).value, num) && AllAccepted(Rest(p), more)
    ensures AllFound(p, [num] + more) <==> (Rest(p) != "" ==> Found(num, Lit(Rest(p)))) && AllFound(Rest(p), more)
  {
    hide Accepts, IndexOf, First, Lit, Rest, HasBracket, Found;
    assert ([num] + more)[1..] == more;
  }

  /** The number a successful match reads at the first bracket, and what is left for the rest. */
  lemma MatchNumber(p: string, h1: string) returns (num: string, left: string)
    requires HasBracket(p) && First(p).Ok? && MatchFrom(p, Lit(p) + h1) == Ok(true)
    ensures h1 == num + left && Accepts(First(p).value, num) && MatchFrom(Rest(p), left) == Ok(true)
    ensures Rest(p) != "" ==> Find(num + left, Lit(Rest(p))) == |num|
  {
    hide Accepts, Find, Brackets.ParseBracket, IndexOf, First;
    assert (Lit(p) + h1)[|Lit(p)|..] == h1;
    if Rest(p) == "" {
      num, left := h1, "";
    } else {
      var at := Find(h1, Lit(Rest(p)));
      num, left := h1[..at], h1[at..];
    }
  }

  /** Conversely, every such name is accepted. */
  lemma {:induction false} MatchIf(p: string, nums: seq<string>)
    requires WellFormed(p) && AllAccepted(p, nums) && AllFound(p, nums)
    ensures MatchFrom(p, SpellOut(p, nums)) == Ok(true)
    decreases |p|
  {
    hide Accepts, Find, IndexOf, First, MatchFrom, Found;
    if HasBracket(p) {
      var t := SpellOut(Rest(p), nums[1..]);
      MatchIf(Rest(p), nums[1..]);
      SpellPrefix(Rest(p), nums[1..]);
      if Rest(p) == "" {
        EmptySpell(nums[1..]);
      }
      MatchThrough(p, nums[0], t);
    } else {
      MatchPlain(p);
    }
  }

  lemma MatchPlain(p: string)
    requires !HasBracket(p)
    ensures MatchFrom(p, p) == Ok(true)
  {
  }

  lemma EmptySpell(nums: seq<string>)
    ensures SpellOut("", nums) == ""
  {
  }

  /** Reading one accepted number and going on with the rest. */
  lemma MatchThrough(p: string, num: string, t: string)
    requires HasBracket(p) && First(p).Ok? && Accepts(First(p).value, num)
    requires if Rest(p) == "" then t == "" else Found(num, Lit(Rest(p))) && Lit(Rest(p)) <= t
    requires MatchFrom(Rest(p), t) == Ok(true)
    ensures MatchFrom(p, Lit(p) + num + t) == Ok(true)
  {
    hide Find, IndexOf, First, Brackets.ParseBracket, Found;
    var h, h1 := Lit(p) + num + t, num + t;
    assert h == Lit(p) + h1 && h[|Lit(p)|..] == h1;
    if Rest(p) == "" {
      assert h1 == num;
    } else {
      FoundThrough(num, Lit(Rest(p)), t);
      assert h1[..|num|] == num && h1[|num|..] == t;
    }
  }

  // ---------------------------------------------------------------- matching and expansion

  /** The values of every bracket are not negative, which parsing always gives. */
  lemma {:induction false} PartsNonNegative(parts: seq<string>)
    requires Brackets.ParseParts(parts).Ok?
    ensures forall v :: v in Brackets.ParseParts(parts).value.values ==> v >= 0
    ensures Brackets.ParseParts(parts).value.padding >= 0
  {
    if parts != [] {
      PartsNonNegative(parts[..|parts| - 1]);
      PartNonNegative(parts[|parts| - 1]);
    }
  }

  lemma AtoiNonNegative(s: string)
    requires '-' !in s && Atoi(s).Some?
    ensures Atoi(s).value >= 0
  {
    assert s[0] in s;
  }

  lemma PartNonNegative(raw: string)
    ensures Brackets.ParsePart(raw).Ok? && Brackets.ParsePart(raw).value.Span? ==>
              Brackets.ParsePart(raw).value.lo >= 0 && Brackets.ParsePart(raw).value.step > 0
  {
    hide IndexOf, TrimSpace, Atoi;
    var part := TrimSpace(raw);
    var slash := IndexOf(part, '/');
    var body := if slash >= 0 then part[..slash] else part;
    var dash := IndexOf(body, '-');
    if dash >= 0 {
      if Atoi(body[..dash]).Some? { AtoiNonNegative(body[..dash]); }
    } else if Atoi(body).Some? {
      AtoiNonNegative(body);
    }
  }

  lemma FirstNonNegative(p: string)
    requires HasBracket(p) && First(p).Ok?
    ensures forall v :: v in First(p).value.values ==> v >= 0
    ensures First(p).value.padding >= 0
  {
    hide Brackets.ParseBracket, IndexOf;
    var b := IndexOf(p, '[');
    var e := IndexOf(p[b..], ']');
    TextNonNegative(p[b + 1..b + e]);
  }

  lemma TextNonNegative(text: string)
    requires Brackets.ParseBracket(text).Ok?
    ensures forall v :: v in Brackets.ParseBracket(text).value.values ==> v >= 0
    ensures Brackets.ParseBracket(text).value.padding >= 0
  {
    hide Split, Brackets.ParseParts;
    PartsNonNegative(Split(text, ','));
  }

  lemma PrintedAccepted(b: Brackets.Bracket, num: string)
    requires Prints(b, num) && (forall v :: v in b.values ==> v >= 0)
    requires forall v :: v in b.values && v >= 0 && b.padding > 0 ==> |Itoa(v)| <= b.padding
    ensures Accepts(b, num)
  {
    var v :| v in b.values && num == Format(v, b.padding);
    FormatIs(v, b.padding);
  }

  /** Where every value fits, printed numbers are accepted and the literals after them are found. */
  lemma {:induction false} PrintedFit(p: string, nums: seq<string>)
    requires WellFormed(p) && Fits(p) && AllPrinted(p, nums)
    ensures AllAccepted(p, nums) && AllFound(p, nums)
    decreases |p|
  {
    hide Found, Accepts, IndexOf, Next, Brackets.ParseBracket;
    if HasBracket(p) {
      FirstNonNegative(p);
      var b := First(p).value;
      assert forall v :: v in b.values ==> FitsHere(p, v);
      PrintedAccepted(b, nums[0]);
      PrintedFit(Rest(p), nums[1..]);
    }
  }

  /** A number as the expander would print it: leading zeros go unless the bracket is padded. */
  ghost function Strip(b: Brackets.Bracket, num: string): string
    requires AllDigits(num)
  {
    if b.padding > 0 then num else Itoa(DigitsVal(num))
  }

  ghost function StripAll(p: string, nums: seq<string>): seq<string>
    requires WellFormed(p) && AllAccepted(p, nums)
    decreases |p|
  {
    if !HasBracket(p) then [] else [Strip(First(p).value, nums[0])] + StripAll(Rest(p), nums[1..])
  }

  lemma StripPrints(b: Brackets.Bracket, num: string)
    requires Accepts(b, num) && b.padding >= 0
    ensures Prints(b, Strip(b, num))
  {
    var v := DigitsVal(num);
    DigitsCanonical(num);
    FormatFixed(num, b.padding);
    assert b.padding == 0 ==> Format(v, 0) == Itoa(v);
    assert Strip(b, num) == Format(v, b.padding);
  }

  lemma {:induction false} StripAllPrints(p: string, nums: seq<string>)
    requires WellFormed(p) && AllAccepted(p, nums)
    ensures AllPrinted(p, StripAll(p, nums))
    decreases |p|
  {
    if HasBracket(p) {
      FirstNonNegative(p);
      StripPrints(First(p).value, nums[0]);
      StripAllPrints(Rest(p), nums[1..]);
      assert StripAll(p, nums)[1..] == StripAll(Rest(p), nums[1..]);
    }
  }

  /** `name` is one of the names the pattern term expands to. */
  ghost predicate InExpansion(p: string, name: string)
  {
    Segments(p).Ok? && name in Product(Segments(p).value)
  }

  lemma {:induction false} SegmentsWellFormed(p: string)
    ensures WellFormed(p) <==> Segments(p).Ok?
    decreases |p|
  {
    if HasBracket(p) {
      SegmentsWellFormed(Rest(p));
    }
  }

  lemma ProductLiteral(text: string, segs: seq<Segment>, name: string)
    ensures name in Product([Literal(text)] + segs) <==>
            exists t :: t in Product(segs) && name == text + t
  {
    assert ([Literal(text)] + segs)[1..] == segs;
    var tails := Product(segs);
    var all := Prefixed(text, tails);
    assert Product([Literal(text)] + segs) == all;
    if name in all {
      var i :| 0 <= i < |all| && all[i] == name;
      assert tails[i] in tails;
    }
    if t :| t in tails && name == text + t {
      var i :| 0 <= i < |tails| && tails[i] == t;
      assert all[i] == name;
    }
  }

  lemma {:induction false} InSpread(heads: seq<string>, tails: seq<string>, name: string)
    ensures name in Spread(heads, tails) <==> exists x, t :: x in heads && t in tails && name == x + t
  {
    if heads != [] {
      InSpread(heads[1..], tails, name);
      var some := Prefixed(heads[0], tails);
      assert heads == [heads[0]] + heads[1..];
      if name in some {
        var i :| 0 <= i < |some| && some[i] == name;
        assert tails[i] in tails;
      }
      if x, t :| x in heads && t in tails && name == x + t {
        if x == heads[0] {
          var i :| 0 <= i < |tails| && tails[i] == t;
          assert some[i] == name;
        } else {
          assert x in heads[1..];
        }
      }
    }
  }

  lemma ProductBracket(values: seq<string>, segs: seq<Segment>, name: string)
    ensures name in Product([Bracket(values)] + segs) <==>
            exists x, t :: x in values && t in Product(segs) && name == x + t
  {
    assert ([Bracket(values)] + segs)[1..] == segs;
    InSpread(values, Product(segs), name);
  }

  lemma PrintsIs(b: Brackets.Bracket, num: string)
    ensures num in FormatAll(SortedInts(b.values), b.padding) <==> Prints(b, num)
  {
    var values := SortedInts(b.values);
    var texts := FormatAll(values, b.padding);
    if num in texts {
      var i :| 0 <= i < |texts| && texts[i] == num;
      assert values[i] in b.values;
    }
    if Prints(b, num) {
      var v :| v in b.values && num == Format(v, b.padding);
      assert v in values;
      var i :| 0 <= i < |values| && values[i] == v;
      assert texts[i] == num;
    }
  }

  /** One step of the expansion: literal, number, and a name of the rest. */
  lemma ExpansionStep(p: string, name: string)
    requires HasBracket(p) && WellFormed(p)
    ensures InExpansion(p, name) <==>
            exists num, t :: Prints(First(p).value, num) && InExpansion(Rest(p), t) && name == Lit(p) + (num + t)
  {
    hide Product, Segments, Prints, IndexOf, Next, First, FormatAll;
    SegmentsWellFormed(p);
    SegmentsWellFormed(Rest(p));
    var b := First(p).value;
    var more := Segments(Rest(p)).value;
    var values := FormatAll(SortedInts(b.values), b.padding);
    var tail := [Bracket(values)] + more;
    SegmentsParts(p);
    if Lit(p) != "" {
      ProductLiteral(Lit(p), tail, name);
    }
    if name in Product(Segments(p).value) {
      var u := UnderLiteral(p, tail, name);
      ProductBracket(values, more, u);
      var x, t :| x in values && t in Product(more) && u == x + t;
      PrintsIs(b, x);
      assert Prints(b, x) && InExpansion(Rest(p), t) && name == Lit(p) + (x + t);
    }
    if num, t :| Prints(b, num) && InExpansion(Rest(p), t) && name == Lit(p) + (num + t) {
      PrintsIs(b, num);
      ProductBracket(values, more, num + t);
      assert "" + (num + t) == num + t;
    }
  }

  lemma UnderLiteral(p: string, tail: seq<Segment>, name: string) returns (u: string)
    requires name in Product(if Lit(p) != "" then [Literal(Lit(p))] + tail else tail)
    ensures u in Product(tail) && name == Lit(p) + u
  {
    if Lit(p) != "" {
      ProductLiteral(Lit(p), tail, name);
      u :| u in Product(tail) && name == Lit(p) + u;
    } else {
      u := name;
      assert "" + u == u;
    }
  }

  lemma SegmentsParts(p: string)
    requires HasBracket(p) && WellFormed(p)
    ensures Segments(p).Ok? && Segments(Rest(p)).Ok?
    ensures var b := First(p).value;
            var tail := [Bracket(FormatAll(SortedInts(b.values), b.padding))] + Segments(Rest(p)).value;
            Segments(p).value == if Lit(p) != "" then [Literal(Lit(p))] + tail else tail
  {
    hide FirstBracket, First, IndexOf, Next, Segments, WellFormed, FormatAll, Before;
    SegmentsWellFormed(p);
    WellFormedRest(p);
    SegmentsWellFormed(Rest(p));
    FirstBracketIs(p);
    SegmentsUnfold(p);
    PrependParts(Before(p, |Lit(p)|), BracketOf(First(p).value), Segments(Rest(p)).value);
  }

  lemma WellFormedRest(p: string)
    requires HasBracket(p) && WellFormed(p)
    ensures First(p).Ok? && WellFormed(Rest(p))
  {
  }

  lemma SegmentsUnfold(p: string)
    requires HasBracket(p) && FirstBracket(p).Ok? && FirstBracket(p).value.next == Next(p)
    ensures Segments(p) == Prepend(FirstBracket(p).value.segments, Segments(Rest(p)))
  {
    hide FirstBracket;
  }

  lemma PrependParts(before: seq<Segment>, bracket: Segment, more: seq<Segment>)
    ensures before + [bracket] + more == before + ([bracket] + more)
    ensures [] + ([bracket] + more) == [bracket] + more
  {
  }

  lemma FirstBracketIs(p: string)
    requires HasBracket(p) && First(p).Ok?
    ensures FirstBracket(p) == Ok(Head(Before(p, |Lit(p)|) + [BracketOf(First(p).value)], Next(p)))
    ensures Before(p, |Lit(p)|) == if Lit(p) != "" then [Literal(Lit(p))] else []
  {
    hide IndexOf, Brackets.ParseBracket;
  }

  /** The names of the expansion are the pattern spelled out with printed numbers. */
  lemma {:induction false} ExpansionOnlyIf(p: string, name: string) returns (nums: seq<string>)
    requires WellFormed(p) && InExpansion(p, name)
    ensures AllPrinted(p, nums) && name == SpellOut(p, nums)
    decreases |p|
  {
    hide InExpansion, First, IndexOf, Prints, Next;
    if !HasBracket(p) {
      nums := [];
      PlainExpansion(p, name);
    } else {
      ExpansionStep(p, name);
      var num, t :| Prints(First(p).value, num) && InExpansion(Rest(p), t) && name == Lit(p) + (num + t);
      var more := ExpansionOnlyIf(Rest(p), t);
      nums := [num] + more;
      assert nums[1..] == more;
      assert Lit(p) + num + t == Lit(p) + (num + t);
    }
  }

  lemma {:induction false} ExpansionIf(p: string, nums: seq<string>)
    requires WellFormed(p) && AllPrinted(p, nums)
    ensures InExpansion(p, SpellOut(p, nums))
    decreases |p|
  {
    hide InExpansion, First, IndexOf, Prints, Next;
    if !HasBracket(p) {
      PlainExpansion(p, p);
    } else {
      ExpansionIf(Rest(p), nums[1..]);
      ExpansionStep(p, SpellOut(p, nums));
      assert Lit(p) + nums[0] + SpellOut(Rest(p), nums[1..]) == Lit(p) + (nums[0] + SpellOut(Rest(p), nums[1..]));
    }
  }

  lemma PlainExpansion(p: string, name: string)
    requires !HasBracket(p)
    ensures InExpansion(p, name) <==> name == p
  {
    if p != "" {
      assert [Literal(p)] + [] == [Literal(p)];
      ProductLiteral(p, [], name);
      assert p + "" == p;
      assert Product([]) == [""];
    }
  }

  /** The matcher never rejects an expanded name of a term whose values all fit. */
  lemma MatchAcceptsExpansion(p: string, name: string)
    requires WellFormed(p) && Fits(p) && InExpansion(p, name)
    ensures MatchFrom(p, name) == Ok(true)
  {
    var nums := ExpansionOnlyIf(p, name);
    PrintedFit(p, nums);
    MatchIf(p, nums);
  }

  /** Every accepted name is in the expansion once the zeros of its unpadded numbers are stripped. */
  lemma MatchedIsExpansion(p: string, name: string) returns (nums: seq<string>)
    requires WellFormed(p) && MatchFrom(p, name) == Ok(true)
    ensures AllAccepted(p, nums) && name == SpellOut(p, nums)
    ensures InExpansion(p, SpellOut(p, StripAll(p, nums)))
  {
    nums := MatchOnlyIf(p, name);
    StripAllPrints(p, nums);
    ExpansionIf(p, StripAll(p, nums));
  }

  // ---------------------------------------------------------------- exactly when expanded names match

  /** Adjacent brackets never match: the empty literal between them is found at once, before any digit. */
  lemma {:induction false} AdjacentNeverMatches(p: string, h: string)
    requires WellFormed(p) && !NoAdjacentBrackets(p)
    ensures MatchFrom(p, h) != Ok(true)
    decreases |p|
  {
    if HasBracket(p) && Lit(p) <= h && Rest(p) != "" {
      var h1 := h[|Lit(p)|..];
      var at := Find(h1, Lit(Rest(p)));
      if Lit(Rest(p)) == "" {
        assert at == 0 && h1[..at] == "";
      } else if at >= 0 {
        AdjacentNeverMatches(Rest(p), h1[at..]);
      }
    }
  }

  /** Two ways of spelling out the same name are the same way. */
  lemma {:induction false} SpellUnique(p: string, m: seq<string>, n: seq<string>)
    requires WellFormed(p) && NoDigitSeparator(p) && NoAdjacentBrackets(p)
    requires AllDigitStrings(p, m) && AllDigitStrings(p, n) && SpellOut(p, m) == SpellOut(p, n)
    ensures m == n
    decreases |p|
  {
    if HasBracket(p) {
      hide First, IndexOf, Next, SpellOut;
      var a, b := SpellOut(Rest(p), m[1..]), SpellOut(Rest(p), n[1..]);
      SpellStep(p, m);
      SpellStep(p, n);
      assert (Lit(p) + (m[0] + a))[|Lit(p)|..] == m[0] + a;
      assert (Lit(p) + (n[0] + b))[|Lit(p)|..] == n[0] + b;
      SameNumber(p, m[0], m[1..], n[0], n[1..]);
      SpellUnique(Rest(p), m[1..], n[1..]);
      assert m == [m[0]] + m[1..] && n == [n[0]] + n[1..];
    }
  }

  lemma SpellStep(p: string, nums: seq<string>)
    requires HasBracket(p) && nums != []
    ensures SpellOut(p, nums) == Lit(p) + (nums[0] + SpellOut(Rest(p), nums[1..]))
  {
    assert Lit(p) + nums[0] + SpellOut(Rest(p), nums[1..]) == Lit(p) + (nums[0] + SpellOut(Rest(p), nums[1..]));
  }

  /** The number at the first bracket is determined by what follows it. */
  lemma SameNumber(p: string, x: string, m: seq<string>, y: string, n: seq<string>)
    requires HasBracket(p) && NoDigitSeparator(p) && NoAdjacentBrackets(p)
    requires AllDigitStrings(Rest(p), m) && AllDigitStrings(Rest(p), n) && AllDigits(x) && AllDigits(y)
    requires x + SpellOut(Rest(p), m) == y + SpellOut(Rest(p), n)
    ensures x == y && SpellOut(Rest(p), m) == SpellOut(Rest(p), n)
  {
    var q := Rest(p);
    var a, b := SpellOut(q, m), SpellOut(q, n);
    if !HasBracket(q) {
      assert a == q && b == q;
      assert |x| == |y|;
    } else {
      hide First, IndexOf, Next, SpellOut, AllDigitStrings;
      SpellPrefix(q, m);
      SpellPrefix(q, n);
      LeadingOf(x, Lit(q), a);
      LeadingOf(y, Lit(q), b);
    }
    assert (x + a)[..|x|] == x && (y + b)[..|y|] == y;
    assert (x + a)[|x|..] == a && (y + b)[|y|..] == b;
  }

  ghost predicate AllDigitStrings(p: string, nums: seq<string>)
    decreases |p|
  {
    if !HasBracket(p) then nums == [] else nums != [] && AllDigits(nums[0]) && AllDigitStrings(Rest(p), nums[1..])
  }

  /** The digits in front of a literal that is not all digits, and those it begins with itself. */
  lemma {:induction false} LeadingOf(x: string, lit: string, a: string)
    requires AllDigits(x) && HasNonDigit(lit) && lit <= a
    ensures LeadingDigits(x + a) == |x| + LeadingDigits(lit)
  {
    if x == "" {
      assert x + a == a;
      var k := LeadingDigits(lit);
      assert a[..k] == lit[..k] && a[k] == lit[k];
      LeadingIs(a, k);
    } else {
      assert (x + a)[1..] == x[1..] + a;
      LeadingOf(x[1..], lit, a);
    }
  }

  lemma LeadingIs(s: string, k: nat)
    requires k < |s| && AllDigits(s[..k]) && !IsDigit(s[k])
    ensures LeadingDigits(s) == k
  {
    var n := LeadingDigits(s);
    assert forall i :: 0 <= i < k ==> IsDigit(s[..k][i]) && s[..k][i] == s[i];
    assert forall i :: 0 <= i < n ==> IsDigit(s[..n][i]) && s[..n][i] == s[i];
  }

  lemma {:induction false} PrintedDigits(p: string, nums: seq<string>)
    requires WellFormed(p) && AllPrinted(p, nums)
    ensures AllDigitStrings(p, nums)
    decreases |p|
  {
    if HasBracket(p) {
      FirstNonNegative(p);
      var b := First(p).value;
      var v :| v in b.values && nums[0] == Format(v, b.padding);
      FormatIs(v, b.padding);
      PrintedDigits(Rest(p), nums[1..]);
    }
  }

  lemma {:induction false} AcceptedDigits(p: string, nums: seq<string>)
    requires WellFormed(p) && AllAccepted(p, nums)
    ensures AllDigitStrings(p, nums)
    decreases |p|
  {
    if HasBracket(p) {
      AcceptedDigits(Rest(p), nums[1..]);
    }
  }

  /** No bracket came out empty, as `[,]` would. */
  ghost predicate NoEmptyBracket(p: string)
    requires WellFormed(p)
    decreases |p|
  {
    HasBracket(p) ==> First(p).value.values != {} && NoEmptyBracket(Rest(p))
  }

  lemma {:induction false} SomePrinted(p: string) returns (nums: seq<string>)
    requires WellFormed(p) && NoEmptyBracket(p)
    ensures AllPrinted(p, nums)
    decreases |p|
  {
    if !HasBracket(p) {
      nums := [];
    } else {
      var b := First(p).value;
      var v := Pick(b.values);
      var more := SomePrinted(Rest(p));
      nums := [Format(v, b.padding)] + more;
      assert nums[1..] == more && Prints(b, nums[0]);
    }
  }

  /** A value wider than its padding gives printed numbers that are not accepted. */
  lemma {:induction false} WidePrinted(p: string) returns (nums: seq<string>)
    requires WellFormed(p) && NoEmptyBracket(p) && !NoWideValue(p)
    ensures AllPrinted(p, nums) && !AllAccepted(p, nums)
    decreases |p|
  {
    var b := First(p).value;
    if v :| v in b.values && v >= 0 && b.padding > 0 && |Itoa(v)| > b.padding {
      var more := SomePrinted(Rest(p));
      nums := [Format(v, b.padding)] + more;
      FormatIs(v, b.padding);
      assert nums[1..] == more && Prints(b, nums[0]) && |nums[0]| > b.padding;
    } else {
      var more := WidePrinted(Rest(p));
      var v := Pick(b.values);
      nums := [Format(v, b.padding)] + more;
      assert nums[1..] == more && Prints(b, nums[0]);
    }
  }

  /** With separators that are not all digits, every literal between brackets is found in its place. */
  lemma {:induction false} SomeNotFound(p: string) returns (nums: seq<string>)
    requires WellFormed(p) && NoEmptyBracket(p) && NoDigitSeparator(p) && NoAdjacentBrackets(p) && NoWideValue(p) && !Fits(p)
    ensures AllPrinted(p, nums) && !AllFound(p, nums)
    decreases |p|
  {
    hide Found, IndexOf, Next, Brackets.ParseBracket, Format;
    var b := First(p).value;
    FirstNonNegative(p);
    if v :| v in b.values && !FitsHere(p, v) {
      var more := SomePrinted(Rest(p));
      nums := [Format(v, b.padding)] + more;
      assert nums[1..] == more && Prints(b, nums[0]);
    } else {
      var more := SomeNotFound(Rest(p));
      var v := Pick(b.values);
      nums := [Format(v, b.padding)] + more;
      assert nums[1..] == more && Prints(b, nums[0]);
    }
  }

  /**
   Exactly when the matcher accepts every expanded name, for terms whose brackets are
   not separated by digits alone: when every value fits its padding and the literal
   after it is found right after it, or when a bracket without values leaves no name.
   The literal behind the last bracket may be anything.
   */
  lemma MatchAcceptsAllExactly(p: string)
    requires WellFormed(p) && NoDigitSeparator(p)
    ensures (forall name :: InExpansion(p, name) ==> MatchFrom(p, name) == Ok(true)) <==>
            Fits(p) || !NoEmptyBracket(p)
  {
    if Fits(p) {
      forall name | InExpansion(p, name) ensures MatchFrom(p, name) == Ok(true) {
        MatchAcceptsExpansion(p, name);
      }
    } else if !NoEmptyBracket(p) {
      forall name ensures !InExpansion(p, name) {
        if InExpansion(p, name) {
          var nums := ExpansionOnlyIf(p, name);
          PrintedNotEmpty(p, nums);
        }
      }
    } else {
      var name := RejectedName(p);
    }
  }

  lemma {:induction false} PrintedNotEmpty(p: string, nums: seq<string>)
    requires WellFormed(p) && AllPrinted(p, nums)
    ensures NoEmptyBracket(p)
    decreases |p|
  {
    if HasBracket(p) {
      PrintedNotEmpty(Rest(p), nums[1..]);
    }
  }

  /** A name of the expansion that the matcher rejects. */
  lemma RejectedName(p: string) returns (name: string)
    requires WellFormed(p) && NoDigitSeparator(p) && NoEmptyBracket(p) && !Fits(p)
    ensures InExpansion(p, name) && MatchFrom(p, name) != Ok(true)
  {
    hide Fits, AllFound, AllAccepted, SpellOut, NoDigitSeparator;
    var nums;
    if !NoAdjacentBrackets(p) {
      nums := SomePrinted(p);
      AdjacentNeverMatches(p, SpellOut(p, nums));
    } else if !NoWideValue(p) {
      nums := WidePrinted(p);
    } else {
      nums := SomeNotFound(p);
    }
    name := SpellOut(p, nums);
    ExpansionIf(p, nums);
    if NoAdjacentBrackets(p) && MatchFrom(p, name) == Ok(true) {
      var other := MatchOnlyIf(p, name);
      AcceptedDigits(p, other);
      PrintedDigits(p, nums);
      SpellUnique(p, nums, other);
    }
  }

  // ---------------------------------------------------------------- separators of digits alone

  /**
   The first literal that is not found right after its number cuts that number short,
   and what is left of it is no number of the bracket.
   */
  ghost predicate Stumbles(p: string, nums: seq<string>)
    requires WellFormed(p)
    decreases |p|
  {
    HasBracket(p) && nums != [] &&
    if Rest(p) != "" && !Found(nums[0], Lit(Rest(p)))
    then !Accepts(First(p).value, CutShort(nums[0], Lit(Rest(p))))
    else Stumbles(Rest(p), nums[1..])
  }

  /** The part of a number before the place where the literal behind it is found. */
  function CutShort(num: string, lit: string): string
  {
    var at := Find(num + lit, lit);
    if 0 <= at <= |num| then num[..at] else num
  }

  lemma {:induction false} FindAtMost(num: string, lit: string, t: string)
    requires lit <= t
    ensures 0 <= Find(num + t, lit) <= |num| && Find(num + t, lit) == Find(num + lit, lit)
  {
    if num == "" {
      assert num + lit == lit && num + t == t;
      assert lit <= lit;
    } else {
      var a, b := num + lit, num + t;
      assert a <= b;
      assert lit <= a <==> lit <= b by {
        assert |lit| <= |a| && a[..|lit|] == b[..|lit|];
      }
      assert a[1..] == num[1..] + lit && b[1..] == num[1..] + t;
      FindAtMost(num[1..], lit, t);
    }
  }

  /** Names with such a number are rejected, as n[1-2]2 rejects n22: a separator may be all digits here. */
  lemma {:induction false} StumblingRejects(p: string, nums: seq<string>)
    requires WellFormed(p) && AllDigitStrings(p, nums) && Stumbles(p, nums)
    ensures MatchFrom(p, SpellOut(p, nums)) != Ok(true)
    decreases |p|
  {
    hide Accepts, Find, IndexOf, Next, Brackets.ParseBracket, Found;
    var t := SpellOut(Rest(p), nums[1..]);
    var h := SpellOut(p, nums);
    SpellStep(p, nums);
    assert h[|Lit(p)|..] == nums[0] + t;
    if Rest(p) != "" {
      SpellPrefix(Rest(p), nums[1..]);
      FindAtMost(nums[0], Lit(Rest(p)), t);
      var at := Find(nums[0] + t, Lit(Rest(p)));
      if Found(nums[0], Lit(Rest(p))) {
        FoundThrough(nums[0], Lit(Rest(p)), t);
        assert (nums[0] + t)[at..] == t;
        StumblingRejects(Rest(p), nums[1..]);
      } else {
        assert (nums[0] + t)[..at] == CutShort(nums[0], Lit(Rest(p)));
      }
    }
  }

  // ---------------------------------------------------------------- exactly when accepted names are expanded names

  /** Every bracket holds a value that fits its padding. */
  ghost predicate SomeValueFits(p: string)
    requires WellFormed(p)
    decreases |p|
  {
    HasBracket(p) ==>
      && (exists num :: Prints(First(p).value, num) && Accepts(First(p).value, num))
      && SomeValueFits(Rest(p))
  }

  /** Every literal behind a bracket, if anything follows the bracket, is not all digits. */
  ghost predicate NonDigitLiterals(p: string)
    decreases |p|
  {
    HasBracket(p) ==> (Rest(p) != "" ==> HasNonDigit(Lit(Rest(p)))) && NonDigitLiterals(Rest(p))
  }

  ghost predicate AllPadded(p: string)
    requires WellFormed(p)
    decreases |p|
  {
    HasBracket(p) ==> First(p).value.padding > 0 && AllPadded(Rest(p))
  }

  lemma {:induction false} LiteralsSeparate(p: string)
    requires NonDigitLiterals(p)
    ensures NoDigitSeparator(p) && NoAdjacentBrackets(p)
    decreases |p|
  {
    if HasBracket(p) {
      LiteralsSeparate(Rest(p));
    }
  }

  lemma {:induction false} DigitsFound(p: string, nums: seq<string>)
    requires NonDigitLiterals(p) && AllDigitStrings(p, nums)
    ensures AllFound(p, nums)
    decreases |p|
  {
    hide Found, IndexOf, Next, HasNonDigit;
    if HasBracket(p) {
      if Rest(p) != "" {
        NonDigitFound(nums[0], Lit(Rest(p)));
      }
      DigitsFound(Rest(p), nums[1..]);
    }
  }

  lemma PaddedPrints(b: Brackets.Bracket, num: string)
    requires Accepts(b, num) && b.padding > 0
    ensures Prints(b, num)
  {
    StripPrints(b, num);
  }

  lemma {:induction false} PaddedPrinted(p: string, nums: seq<string>)
    requires WellFormed(p) && AllPadded(p) && AllAccepted(p, nums)
    ensures AllPrinted(p, nums)
    decreases |p|
  {
    hide Accepts, Prints, IndexOf, Next, Brackets.ParseBracket;
    if HasBracket(p) {
      PaddedPrints(First(p).value, nums[0]);
      PaddedPrinted(Rest(p), nums[1..]);
    }
  }

  /** With a zero in front, a printed number of an unpadded bracket is still accepted, and not printed. */
  lemma ZeroInFront(b: Brackets.Bracket, num: string)
    requires Prints(b, num) && Accepts(b, num) && b.padding == 0 && forall v :: v in b.values ==> v >= 0
    ensures Accepts(b, "0" + num) && !Prints(b, "0" + num)
  {
    var zero := "0" + num;
    ZerosVal(1, num);
    assert Zeros(1) == Zeros(0) + "0" == "0";
    assert AllDigits(zero) && DigitsVal(zero) == DigitsVal(num);
    forall v | v in b.values ensures zero != Format(v, 0) {
      FormatIs(v, 0);
      ItoaVal(v);
      assert Format(v, 0) == Itoa(v) by {
        assert Zeros(Missing(0, |Itoa(v)|)) == "";
      }
      assert |zero| >= 2 && zero[0] == '0';
    }
  }

  /** Accepted numbers, one of which is not printed. */
  lemma {:induction false} SomeUnprinted(p: string) returns (nums: seq<string>)
    requires WellFormed(p) && SomeValueFits(p) && !AllPadded(p)
    ensures AllAccepted(p, nums) && !AllPrinted(p, nums)
    decreases |p|
  {
    hide Accepts, Prints, IndexOf, Next, Brackets.ParseBracket;
    var b := First(p).value;
    FirstNonNegative(p);
    var num :| Prints(b, num) && Accepts(b, num);
    if b.padding > 0 {
      var more := SomeUnprinted(Rest(p));
      nums := [num] + more;
      assert nums[1..] == more;
    } else {
      ZeroInFront(b, num);
      var more := SomeAccepted(Rest(p));
      nums := ["0" + num] + more;
      assert nums[1..] == more;
    }
  }

  lemma {:induction false} SomeAccepted(p: string) returns (nums: seq<string>)
    requires WellFormed(p) && SomeValueFits(p)
    ensures AllAccepted(p, nums)
    decreases |p|
  {
    if !HasBracket(p) {
      nums := [];
    } else {
      var num :| Prints(First(p).value, num) && Accepts(First(p).value, num);
      var more := SomeAccepted(Rest(p));
      nums := [num] + more;
      assert nums[1..] == more;
    }
  }

  /** Where every bracket is padded, only expanded names are accepted, whatever the literals. */
  lemma PaddedAcceptsOnlyExpanded(p: string, name: string)
    requires WellFormed(p) && AllPadded(p) && MatchFrom(p, name) == Ok(true)
    ensures InExpansion(p, name)
  {
    hide MatchFrom, InExpansion, AllFound, AllPadded;
    var nums := MatchOnlyIf(p, name);
    PaddedPrinted(p, nums);
    ExpansionIf(p, nums);
  }

  /**
   Exactly when every accepted name is in the expansion, for terms that match at all
   and whose literals behind brackets are not all digits: when every bracket is padded.
   An unpadded bracket takes its numbers with zeros in front, as n[1-3] accepts n01.
   */
  lemma AcceptedIsExpandedExactly(p: string)
    requires WellFormed(p) && SomeValueFits(p) && NonDigitLiterals(p)
    ensures (forall name :: MatchFrom(p, name) == Ok(true) ==> InExpansion(p, name)) <==> AllPadded(p)
  {
    hide MatchFrom, InExpansion, AllFound, AllPadded, SomeValueFits;
    LiteralsSeparate(p);
    if AllPadded(p) {
      forall name | MatchFrom(p, name) == Ok(true) ensures InExpansion(p, name) {
        PaddedAcceptsOnlyExpanded(p, name);
      }
    } else {
      var nums := SomeUnprinted(p);
      var name := SpellOut(p, nums);
      AcceptedDigits(p, nums);
      DigitsFound(p, nums);
      MatchIf(p, nums);
      if InExpansion(p, name) {
        var other := ExpansionOnlyIf(p, name);
        PrintedDigits(p, other);
        SpellUnique(p, nums, other);
      }
    }
  }

  // ---------------------------------------------------------------- unions, and commas inside brackets

  /** What the comma-splitting matcher computes: the first part that matches or fails decides. */
  ghost function MatchParts(parts: seq<string>, h: string): Result<bool, PatternError>
  {
    if parts == [] then Ok(false)
    else
      var part := TrimSpace(parts[0]);
      if part == "" then MatchParts(parts[1..], h)
      else
        var r := MatchFrom(part, h);
        if r.Err? || r.value then r else MatchParts(parts[1..], h)
  }

  /** The parts that count: trimmed, and not blank. */
  ghost predicate Undecided(part: string, h: string)
  {
    TrimSpace(part) == "" || MatchFrom(TrimSpace(part), h) == Ok(false)
  }

  /** The first part that is neither blank nor rejects the name decides; without one the answer is no. */
  lemma {:induction false} FirstDecides(parts: seq<string>, h: string, i: nat)
    requires i <= |parts| && forall j :: 0 <= j < i ==> Undecided(parts[j], h)
    requires i < |parts| ==> !Undecided(parts[i], h)
    ensures MatchParts(parts, h) == if i == |parts| then Ok(false) else MatchFrom(TrimSpace(parts[i]), h)
  {
    hide MatchFrom, TrimSpace;
    if i > 0 {
      assert Undecided(parts[0], h);
      FirstDecides(parts[1..], h, i - 1);
    }
  }

  method MatchFast(pattern: string, hostname: string) returns (r: Result<bool, PatternError>)
    ensures r == MatchParts(Split(pattern, ','), hostname)
  {
    hide MatchFrom, Split;
    var parts := Split(pattern, ',');
    assert parts[0..] == parts;
    for i := 0 to |parts|
      invariant MatchParts(parts, hostname) == MatchParts(parts[i..], hostname)
    {
      assert parts[i..][1..] == parts[i + 1..];
      var part := TrimSpace(parts[i]);
      if part == "" {
        continue;
      }
      var matched := MatchSimplePattern(part, hostname);
      if matched.Err? {
        return matched;
      }
      if matched.value {
        return Ok(true);
      }
    }
    return Ok(false);
  }
}
