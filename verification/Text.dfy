/**
 The string and number routines of the standard library that nodeset patterns
 use, on ASCII text.

 Decimal text is defined by its digits: `Itoa` prints, `DigitsVal` reads back,
 `Format` pads with zeros, and `Atoi` accepts a sign.
 */
module Text {
  import opened Wrappers

  // ---------------------------------------------------------------- searching, splitting, joining

  /** `strings.IndexByte`: the first position of `c`, or -1. */
  function IndexOf(s: string, c: char): (r: int)
    ensures -1 <= r < |s|
    ensures r >= 0 ==> s[r] == c && c !in s[..r]
    ensures r < 0 ==> c !in s
  {
    if s == "" then -1
    else if s[0] == c then 0
    else
      var r := IndexOf(s[1..], c);
      assert s == [s[0]] + s[1..];
      if r < 0 then -1
      else
        assert s[..r + 1] == [s[0]] + s[1..][..r];
        r + 1
  }

  lemma IndexOfIs(s: string, c: char, i: nat)
    requires i < |s| && s[i] == c && c !in s[..i]
    ensures IndexOf(s, c) == i
  {
    var r := IndexOf(s, c);
    BeforeFirst(s, c, i);
    if r >= 0 {
      BeforeFirst(s, c, r);
    }
  }

  lemma BeforeFirst(s: string, c: char, r: nat)
    requires r <= |s| && c !in s[..r]
    ensures forall k :: 0 <= k < r ==> s[k] != c
  {
    forall k | 0 <= k < r ensures s[k] != c {
      assert s[k] == s[..r][k];
    }
  }

  lemma IndexAfter(a: string, c: char, b: string)
    requires c !in a
    ensures IndexOf(a + [c] + b, c) == |a|
  {
    var s := a + [c] + b;
    assert s[..|a|] == a;
    IndexOfIs(s, c, |a|);
  }

  /** `strings.Split` on a one-byte separator. */
  function Split(s: string, sep: char): (parts: seq<string>)
    ensures parts != []
    decreases |s|
  {
    var i := IndexOf(s, sep);
    if i < 0 then [s] else [s[..i]] + Split(s[i + 1..], sep)
  }

  /** `strings.Join` with a one-byte separator. */
  function Join(parts: seq<string>, sep: char): string
  {
    if parts == [] then ""
    else if |parts| == 1 then parts[0]
    else parts[0] + [sep] + Join(parts[1..], sep)
  }

  lemma {:induction false} SplitJoin(parts: seq<string>, sep: char)
    requires parts != [] && forall i :: 0 <= i < |parts| ==> sep !in parts[i]
    ensures Split(Join(parts, sep), sep) == parts
  {
    if |parts| > 1 {
      var rest := Join(parts[1..], sep);
      var s := parts[0] + [sep] + rest;
      IndexAfter(parts[0], sep, rest);
      assert s[..|parts[0]|] == parts[0] && s[|parts[0]| + 1..] == rest;
      SplitJoin(parts[1..], sep);
    }
  }

  lemma {:induction false} JoinConcat(a: seq<string>, b: seq<string>, sep: char)
    requires a != [] && b != []
    ensures Join(a + b, sep) == Join(a, sep) + [sep] + Join(b, sep)
  {
    if |a| == 1 {
      assert (a + b)[1..] == b;
    } else {
      assert (a + b)[1..] == a[1..] + b;
      JoinConcat(a[1..], b, sep);
    }
  }

  // ---------------------------------------------------------------- trimming

  predicate IsSpace(c: char)
  {
    c == ' ' || '\t' <= c <= '\r'
  }

  function TrimLeft(s: string): string
  {
    if s != "" && IsSpace(s[0]) then TrimLeft(s[1..]) else s
  }

  function TrimRight(s: string): string
  {
    if s != "" && IsSpace(s[|s| - 1]) then TrimRight(s[..|s| - 1]) else s
  }

  /** `strings.TrimSpace`. */
  function TrimSpace(s: string): string
  {
    TrimRight(TrimLeft(s))
  }

  lemma TrimNothing(s: string)
    requires s != "" ==> !IsSpace(s[0]) && !IsSpace(s[|s| - 1])
    ensures TrimSpace(s) == s
  {
  }

  /** Tab, line feed, vertical tab, form feed, carriage return and blank. */
  lemma SpacesAre(c: char)
    ensures IsSpace(c) <==> c as int in {9, 10, 11, 12, 13, 32}
  {
  }

  predicate AllSpaces(s: string)
  {
    forall i :: 0 <= i < |s| ==> IsSpace(s[i])
  }

  /** Neither begins nor ends in a space. */
  predicate Trimmed(s: string)
  {
    s != "" ==> !IsSpace(s[0]) && !IsSpace(s[|s| - 1])
  }

  lemma {:induction false} TrimLeftOf(a: string, s: string)
    requires AllSpaces(a)
    ensures TrimLeft(a + s) == TrimLeft(s)
  {
    if a == "" {
      assert a + s == s;
    } else {
      assert (a + s)[1..] == a[1..] + s;
      TrimLeftOf(a[1..], s);
    }
  }

  lemma {:induction false} TrimRightOf(s: string, b: string)
    requires AllSpaces(b)
    ensures TrimRight(s + b) == TrimRight(s)
  {
    if b == "" {
      assert s + b == s;
    } else {
      assert (s + b)[..|s + b| - 1] == s + b[..|b| - 1];
      TrimRightOf(s, b[..|b| - 1]);
    }
  }

  /** Exactly the spaces around a text are trimmed. */
  lemma TrimsAround(a: string, s: string, b: string)
    requires AllSpaces(a) && AllSpaces(b) && Trimmed(s)
    ensures TrimSpace(a + s + b) == s
  {
    assert a + s + b == a + (s + b);
    TrimLeftOf(a, s + b);
    if s == "" {
      assert s + b == b && b + "" == b;
      TrimLeftOf(b, "");
    } else {
      assert TrimLeft(s + b) == s + b;
      TrimRightOf(s, b);
    }
  }

  lemma {:induction false} TrimLeftSplits(s: string) returns (a: string)
    ensures AllSpaces(a) && s == a + TrimLeft(s) && (TrimLeft(s) != "" ==> !IsSpace(TrimLeft(s)[0]))
  {
    a := "";
    if s != "" && IsSpace(s[0]) {
      var rest := TrimLeftSplits(s[1..]);
      a := [s[0]] + rest;
      assert s == [s[0]] + s[1..];
    }
  }

  lemma {:induction false} TrimRightSplits(s: string) returns (b: string)
    ensures AllSpaces(b) && s == TrimRight(s) + b
    ensures TrimRight(s) != "" ==> TrimRight(s)[0] == s[0] && !IsSpace(TrimRight(s)[|TrimRight(s)| - 1])
  {
    b := "";
    if s != "" && IsSpace(s[|s| - 1]) {
      var front := s[..|s| - 1];
      var rest := TrimRightSplits(front);
      b := rest + [s[|s| - 1]];
      assert s == front + [s[|s| - 1]];
    }
  }

  /** What is trimmed off any text. */
  lemma TrimSplits(s: string) returns (a: string, b: string)
    ensures AllSpaces(a) && AllSpaces(b) && s == a + TrimSpace(s) + b && Trimmed(TrimSpace(s))
  {
    hide TrimLeft, TrimRight;
    a := TrimLeftSplits(s);
    b := TrimRightSplits(TrimLeft(s));
    assert a + (TrimSpace(s) + b) == a + TrimSpace(s) + b;
  }

  /** Spaces around a text make no difference to its trimming. */
  lemma TrimAgain(a: string, s: string, b: string)
    requires AllSpaces(a) && AllSpaces(b)
    ensures TrimSpace(a + s + b) == TrimSpace(s)
  {
    var x, y := TrimSplits(s);
    var t := TrimSpace(s);
    assert a + s + b == (a + x) + t + (y + b);
    TrimsAround(a + x, t, y + b);
  }

  // ---------------------------------------------------------------- decimal numbers

  predicate IsDigit(c: char)
  {
    '0' <= c <= '9'
  }

  predicate AllDigits(s: string)
  {
    forall i :: 0 <= i < |s| ==> IsDigit(s[i])
  }

  function DigitChar(d: int): (c: char)
    requires 0 <= d < 10
    ensures IsDigit(c) && DigitOf(c) == d
  {
    '0' + d as char
  }

  function DigitOf(c: char): (d: int)
    requires IsDigit(c)
    ensures 0 <= d < 10
  {
    c as int - '0' as int
  }

  /** The value of a digit string; 0 for the empty one. */
  function DigitsVal(s: string): (v: nat)
    requires forall i :: 0 <= i < |s| ==> IsDigit(s[i])
  {
    if s == "" then 0 else 10 * DigitsVal(s[..|s| - 1]) + DigitOf(s[|s| - 1])
  }

  /** `strconv.Itoa` of a non-negative number. */
  function Itoa(n: nat): (s: string)
    ensures s != "" && forall i :: 0 <= i < |s| ==> IsDigit(s[i])
  {
    if n < 10 then [DigitChar(n)] else Itoa(n / 10) + [DigitChar(n % 10)]
  }

  function Zeros(n: nat): (s: string)
    ensures |s| == n && forall i :: 0 <= i < |s| ==> s[i] == '0'
  {
    if n == 0 then "" else Zeros(n - 1) + "0"
  }

  /** `%0*d`: at least `width` characters, zeros after the sign; plain decimal when `width` is not positive. */
  function Format(v: int, width: int): string
  {
    if v >= 0 then Zeros(Missing(width, |Itoa(v)|)) + Itoa(v)
    else "-" + Zeros(Missing(width - 1, |Itoa(-v)|)) + Itoa(-v)
  }

  function Missing(width: int, len: nat): nat
  {
    if width <= len then 0 else width - len
  }

  /** `strconv.Atoi`, over unbounded integers: an optional sign and at least one digit. */
  function Atoi(s: string): Option<int>
  {
    var digits := Unsigned(s);
    if digits == "" || !AllDigits(digits) then None
    else
      var v: int := DigitsVal(digits);
      Some(if s[0] == '-' then -v else v)
  }

  /** What follows the sign, if there is one. */
  function Unsigned(s: string): (digits: string)
    ensures |digits| <= |s|
  {
    if s != "" && (s[0] == '-' || s[0] == '+') then s[1..] else s
  }

  lemma {:induction false} ItoaVal(n: nat)
    ensures DigitsVal(Itoa(n)) == n
    ensures Itoa(n)[0] == '0' ==> n == 0 && |Itoa(n)| == 1
  {
    if n < 10 {
      assert Itoa(n)[..0] == "";
    } else {
      ItoaVal(n / 10);
      var s := Itoa(n / 10) + [DigitChar(n % 10)];
      assert s[..|s| - 1] == Itoa(n / 10);
    }
  }

  lemma DigitsSnoc(s: string, c: char)
    requires AllDigits(s) && IsDigit(c)
    ensures AllDigits(s + [c]) && DigitsVal(s + [c]) == 10 * DigitsVal(s) + DigitOf(c)
  {
    assert (s + [c])[..|s|] == s;
  }

  lemma {:induction false} OnlyZeros(n: nat)
    ensures AllDigits(Zeros(n)) && DigitsVal(Zeros(n)) == 0
  {
    if n > 0 {
      OnlyZeros(n - 1);
      DigitsSnoc(Zeros(n - 1), '0');
    }
  }

  lemma {:induction false} ZerosVal(n: nat, s: string)
    requires AllDigits(s)
    ensures AllDigits(Zeros(n) + s) && DigitsVal(Zeros(n) + s) == DigitsVal(s)
  {
    OnlyZeros(n);
    if s == "" {
      assert Zeros(n) + s == Zeros(n);
    } else {
      var front, c := s[..|s| - 1], s[|s| - 1];
      ZerosVal(n, front);
      DigitsSnoc(Zeros(n) + front, c);
      assert s == front + [c];
      DigitsSnoc(front, c);
      assert Zeros(n) + s == Zeros(n) + front + [c];
    }
  }

  /** A formatted number is all digits, reads back as the number, and has the width asked for or more. */
  lemma FormatIs(v: nat, width: int)
    ensures AllDigits(Format(v, width)) && Format(v, width) != ""
    ensures DigitsVal(Format(v, width)) == v && Atoi(Format(v, width)) == Some(v)
    ensures |Format(v, width)| == if width <= |Itoa(v)| then |Itoa(v)| else width
  {
    ItoaVal(v);
    ZerosVal(Missing(width, |Itoa(v)|), Itoa(v));
    hide Atoi, Itoa, Zeros, DigitsVal;
    AtoiDigits(Format(v, width));
  }

  lemma AtoiDigits(s: string)
    requires AllDigits(s) && s != ""
    ensures Atoi(s) == Some(DigitsVal(s))
  {
    assert IsDigit(s[0]);
  }

  /** A digit string is its value in plain decimal behind some zeros. */
  lemma {:induction false} DigitsCanonical(s: string)
    requires AllDigits(s) && s != ""
    ensures |Itoa(DigitsVal(s))| <= |s|
    ensures s == Zeros(|s| - |Itoa(DigitsVal(s))|) + Itoa(DigitsVal(s))
  {
    hide Itoa, DigitsVal, Zeros;
    var last := |s| - 1;
    var front := s[..last];
    assert s == front + [s[last]];
    DigitsSnoc(front, s[last]);
    ItoaSnoc(DigitsVal(front), s[last]);
    NoDigits();
    if front != "" {
      DigitsCanonical(front);
      if DigitsVal(front) == 0 {
        ZerosSnoc(|front| - 1);
      }
    }
  }

  lemma NoDigits()
    ensures Zeros(0) == "" && DigitsVal("") == 0 && Itoa(0) == "0"
  {
  }

  lemma ZerosSnoc(n: nat)
    ensures Zeros(n + 1) == Zeros(n) + "0"
  {
  }

  lemma ItoaSnoc(v: nat, c: char)
    requires IsDigit(c)
    ensures Itoa(10 * v + DigitOf(c)) == if v > 0 then Itoa(v) + [c] else [c]
  {
    var w := 10 * v + DigitOf(c);
    assert w / 10 == v && w % 10 == DigitOf(c);
    assert DigitChar(DigitOf(c)) == c;
  }

  /** A digit string is what formatting its value at some width gives exactly when its length fits. */
  lemma FormatFixed(s: string, width: int)
    requires AllDigits(s) && s != ""
    ensures Format(DigitsVal(s), width) == s <==>
            |s| == if width <= |Itoa(DigitsVal(s))| then |Itoa(DigitsVal(s))| else width
  {
    DigitsCanonical(s);
    FormatIs(DigitsVal(s), width);
  }

  lemma {:induction false} ItoaLonger(m: nat, n: nat)
    requires m <= n
    ensures |Itoa(m)| <= |Itoa(n)|
  {
    if m >= 10 {
      ItoaLonger(m / 10, n / 10);
    }
  }
}
