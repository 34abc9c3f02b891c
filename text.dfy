/** The Python `str` operations the program relies on, on `seq<char>`. */
module Text {
  import opened Base

  // ---------------------------------------------------------------------
  // Whitespace and `str.strip()`

  /** `str.isspace()` for one character: the characters Python 3 treats
      as whitespace (bidirectional class WS, B or S, or category Zs). */
  predicate IsSpace(c: char) {
    || ('\U{9}' <= c <= '\U{D}')
    || ('\U{1C}' <= c <= '\U{20}')
    || c == '\U{85}' || c == '\U{A0}' || c == '\U{1680}'
    || ('\U{2000}' <= c <= '\U{200A}')
    || c == '\U{2028}' || c == '\U{2029}' || c == '\U{202F}' || c == '\U{205F}'
    || c == '\U{3000}'
  }

  predicate AllSpace(s: string) {
    forall i :: 0 <= i < |s| ==> IsSpace(s[i])
  }

  /** `s.lstrip()`. */
  function StripLeft(s: string): string
    decreases |s|
  {
    if |s| > 0 && IsSpace(s[0]) then StripLeft(s[1..]) else s
  }

  /** `s.rstrip()`. */
  function StripRight(s: string): string
    decreases |s|
  {
    if |s| > 0 && IsSpace(s[|s| - 1]) then StripRight(s[..|s| - 1]) else s
  }

  /** `s.strip()`. */
  function Strip(s: string): string {
    StripRight(StripLeft(s))
  }

  /** `lstrip()` leaves the suffix that starts at the first non-space. */
  lemma {:induction false} StripLeftShape(s: string)
    ensures var r := StripLeft(s);
      && |r| <= |s| && r == s[|s| - |r|..]
      && AllSpace(s[..|s| - |r|])
      && (r == [] || !IsSpace(r[0]))
    decreases |s|
  {
    if |s| > 0 && IsSpace(s[0]) {
      StripLeftShape(s[1..]);
      var r := StripLeft(s);
      assert s[..|s| - |r|] == [s[0]] + s[1..][..|s| - 1 - |r|];
    }
  }

  /** `rstrip()` leaves the prefix that ends at the last non-space. */
  lemma {:induction false} StripRightShape(s: string)
    ensures var r := StripRight(s);
      && |r| <= |s| && r == s[..|r|]
      && AllSpace(s[|r|..])
      && (r == [] || !IsSpace(r[|r| - 1]))
    decreases |s|
  {
    if |s| > 0 && IsSpace(s[|s| - 1]) {
      StripRightShape(s[..|s| - 1]);
      var r := StripRight(s);
      assert s[|r|..] == s[..|s| - 1][|r|..] + [s[|s| - 1]];
    }
  }

  lemma {:induction false} StripLeftSkipsSpace(a: string, s: string)
    requires AllSpace(a)
    ensures StripLeft(a + s) == StripLeft(s)
    decreases |a|
  {
    if a != [] {
      assert (a + s)[0] == a[0];
      assert (a + s)[1..] == a[1..] + s;
      StripLeftSkipsSpace(a[1..], s);
    } else {
      assert a + s == s;
    }
  }

  lemma {:induction false} StripRightSkipsSpace(s: string, b: string)
    requires AllSpace(b)
    ensures StripRight(s + b) == StripRight(s)
    decreases |b|
  {
    if b != [] {
      assert (s + b)[|s + b| - 1] == b[|b| - 1];
      assert (s + b)[..|s + b| - 1] == s + b[..|b| - 1];
      StripRightSkipsSpace(s, b[..|b| - 1]);
    } else {
      assert s + b == s;
    }
  }

  /** Trailing text does not change where the leading whitespace ends,
      once a non-space character has been met. */
  lemma {:induction false} StripLeftAppend(s: string, b: string)
    requires StripLeft(s) != []
    ensures StripLeft(s + b) == StripLeft(s) + b
    decreases |s|
  {
    if IsSpace(s[0]) {
      assert (s + b)[1..] == s[1..] + b;
      StripLeftAppend(s[1..], b);
    }
  }

  /** Whitespace added around a text is removed again by `strip()`. */
  lemma StripIgnoresSurroundingSpace(a: string, s: string, b: string)
    requires AllSpace(a) && AllSpace(b)
    ensures Strip(a + s + b) == Strip(s)
  {
    assert a + s + b == a + (s + b);
    StripLeftSkipsSpace(a, s + b);
    var t := StripLeft(s);
    StripLeftShape(s);
    if t != [] {
      StripLeftAppend(s, b);
      StripRightSkipsSpace(t, b);
    } else {
      assert s[..|s|] == s;
      AllSpaceConcat(s, b);
      AllSpaceStripsToEmpty(s + b);
    }
  }

  lemma AllSpaceConcat(s: string, b: string)
    requires AllSpace(s) && AllSpace(b)
    ensures AllSpace(s + b)
  {
  }

  lemma {:induction false} AllSpaceStripsToEmpty(s: string)
    requires AllSpace(s)
    ensures StripLeft(s) == []
    decreases |s|
  {
    if s != [] {
      AllSpaceStripsToEmpty(s[1..]);
    }
  }

  // ---------------------------------------------------------------------
  // `str.upper()` on ASCII letters

  function UpperChar(c: char): char {
    if 'a' <= c <= 'z' then (c as int - 32) as char else c
  }

  /** `s.upper()`, restricted to the ASCII letters. */
  function Upper(s: string): string {
    seq(|s|, i requires 0 <= i < |s| => UpperChar(s[i]))
  }

  lemma {:induction false} StripLeftUpper(s: string)
    ensures StripLeft(Upper(s)) == Upper(StripLeft(s))
    decreases |s|
  {
    if |s| > 0 && IsSpace(s[0]) {
      assert Upper(s)[1..] == Upper(s[1..]);
      StripLeftUpper(s[1..]);
    }
  }

  lemma {:induction false} StripRightUpper(s: string)
    ensures StripRight(Upper(s)) == Upper(StripRight(s))
    decreases |s|
  {
    if |s| > 0 && IsSpace(s[|s| - 1]) {
      assert Upper(s)[..|s| - 1] == Upper(s[..|s| - 1]);
      StripRightUpper(s[..|s| - 1]);
    }
  }

  /** Upper-casing never turns a space into a non-space or back, so it
      commutes with `strip()`. */
  lemma StripUpperCommute(s: string)
    ensures Strip(Upper(s)) == Upper(Strip(s))
  {
    StripLeftUpper(s);
    StripRightUpper(StripLeft(s));
  }

  lemma UpperIdempotent(s: string)
    ensures Upper(Upper(s)) == Upper(s)
  {
  }

  // ---------------------------------------------------------------------
  // Substring test `p in t`

  predicate OccursAt(t: string, p: string, i: int) {
    0 <= i && i + |p| <= |t| && t[i..i + |p|] == p
  }

  /** Python's `p in t` for strings. */
  predicate Contains(t: string, p: string) {
    exists i | 0 <= i <= |t| - |p| :: OccursAt(t, p, i)
  }

  lemma ContainsMiddle(a: string, x: string, b: string)
    ensures Contains(a + x + b, x)
  {
    assert (a + x + b)[|a|..|a| + |x|] == x;
    assert OccursAt(a + x + b, x, |a|);
  }

  lemma ContainsWithin(t: string, p: string, q: string, k: nat)
    requires Contains(t, p)
    requires k + |q| <= |p| && p[k..k + |q|] == q
    ensures Contains(t, q)
  {
    var i :| 0 <= i <= |t| - |p| && OccursAt(t, p, i);
    forall j | 0 <= j < |q|
      ensures t[i + k + j] == q[j]
    {
      assert t[i + k + j] == t[i..i + |p|][k + j] == p[k + j];
    }
    assert t[i + k..i + k + |q|] == q;
    assert OccursAt(t, q, i + k);
  }

  /** A word that neither starts nor ends with whitespace occurs in a text
      exactly when it occurs in the part of it that survives stripping. */
  lemma ContainsSlice(u: string, lo: nat, hi: nat, p: string)
    requires lo <= hi <= |u|
    requires AllSpace(u[..lo]) && AllSpace(u[hi..])
    requires |p| > 0 && !IsSpace(p[0]) && !IsSpace(p[|p| - 1])
    ensures Contains(u[lo..hi], p) <==> Contains(u, p)
  {
    if Contains(u[lo..hi], p) {
      var i :| 0 <= i <= hi - lo - |p| && OccursAt(u[lo..hi], p, i);
      forall j | 0 <= j < |p| ensures u[lo + i + j] == p[j] {
        assert u[lo..hi][i..i + |p|][j] == p[j];
      }
      assert u[lo + i..lo + i + |p|] == p;
      assert OccursAt(u, p, lo + i);
    }
    if Contains(u, p) {
      var i :| 0 <= i <= |u| - |p| && OccursAt(u, p, i);
      assert u[i] == p[0];
      assert u[i + |p| - 1] == p[|p| - 1];
      forall j | 0 <= j < |p| ensures u[lo..hi][i - lo + j] == p[j] {
        assert u[i..i + |p|][j] == p[j];
      }
      assert u[lo..hi][i - lo..i - lo + |p|] == p;
      assert OccursAt(u[lo..hi], p, i - lo);
    }
  }

  lemma ContainsStrip(u: string, p: string)
    requires |p| > 0 && !IsSpace(p[0]) && !IsSpace(p[|p| - 1])
    ensures Contains(Strip(u), p) <==> Contains(u, p)
  {
    var l := StripLeft(u);
    var lo := |u| - |l|;
    var r := StripRight(l);
    StripLeftShape(u);
    StripRightShape(l);
    var hi := lo + |r|;
    assert u[..lo] == u[..|u| - |l|];
    assert l[|r|..] == u[hi..];
    assert r == u[lo..hi];
    ContainsSlice(u, lo, hi, p);
  }

  // ---------------------------------------------------------------------
  // `str.split(sep)` and `sep.join(parts)` for a one-character separator

  /** `s.split(sep)`: always at least one piece; empty pieces are kept. */
  function Split(s: string, sep: char): (r: seq<string>)
    ensures |r| >= 1
    ensures forall k :: 0 <= k < |r| ==> sep !in r[k]
    decreases |s|
  {
    if |s| == 0 then [""]
    else if s[0] == sep then [""] + Split(s[1..], sep)
    else
      var rest := Split(s[1..], sep);
      [[s[0]] + rest[0]] + rest[1..]
  }

  function Join(parts: seq<string>, sep: char): string {
    if |parts| == 0 then ""
    else if |parts| == 1 then parts[0]
    else parts[0] + [sep] + Join(parts[1..], sep)
  }

  /** Joining the pieces of a split gives the original text back. */
  lemma {:induction false} JoinSplit(s: string, sep: char)
    ensures Join(Split(s, sep), sep) == s
    decreases |s|
  {
    if |s| > 0 {
      JoinSplit(s[1..], sep);
      var rest := Split(s[1..], sep);
      if s[0] != sep {
        JoinPrependChar(s[0], rest, sep);
      } else {
        var t := [""] + rest;
        assert t[1..] == rest;
        assert Join(t, sep) == "" + [sep] + Join(rest, sep);
      }
      assert s == [s[0]] + s[1..];
    }
  }

  lemma JoinPrependChar(c: char, rest: seq<string>, sep: char)
    requires |rest| >= 1
    ensures Join([[c] + rest[0]] + rest[1..], sep) == [c] + Join(rest, sep)
  {
    var t := [[c] + rest[0]] + rest[1..];
    assert t[0] == [c] + rest[0];
    assert t[1..] == rest[1..];
    if |rest| > 1 {
      assert [c] + rest[0] + [sep] + Join(rest[1..], sep)
          == [c] + (rest[0] + [sep] + Join(rest[1..], sep));
    }
  }

  lemma {:induction false} SplitPrefix(x: string, rest: string, sep: char)
    requires sep !in x
    ensures Split(x + [sep] + rest, sep) == [x] + Split(rest, sep)
    decreases |x|
  {
    if |x| > 0 {
      assert (x + [sep] + rest)[1..] == x[1..] + [sep] + rest;
      SplitPrefix(x[1..], rest, sep);
      assert [x[0]] + x[1..] == x;
    } else {
      assert x + [sep] + rest == [sep] + rest;
    }
  }

  lemma {:induction false} SplitWithoutSeparator(x: string, sep: char)
    requires sep !in x
    ensures Split(x, sep) == [x]
    decreases |x|
  {
    if |x| > 0 {
      SplitWithoutSeparator(x[1..], sep);
      assert [x[0]] + x[1..] == x;
    }
  }

  /** Splitting a join gives back the parts when no part holds the separator. */
  lemma {:induction false} SplitJoin(parts: seq<string>, sep: char)
    requires |parts| >= 1
    requires forall k :: 0 <= k < |parts| ==> sep !in parts[k]
    ensures Split(Join(parts, sep), sep) == parts
    decreases |parts|
  {
    if |parts| == 1 {
      SplitWithoutSeparator(parts[0], sep);
    } else {
      SplitJoin(parts[1..], sep);
      SplitPrefix(parts[0], Join(parts[1..], sep), sep);
      assert [parts[0]] + parts[1..] == parts;
    }
  }

  // ---------------------------------------------------------------------
  // Decimal text of integers: `str(n)` and `int(s)`

  function DigitChar(d: nat): char
    requires d < 10
  {
    "0123456789"[d]
  }

  predicate IsDigit(c: char) {
    '0' <= c <= '9'
  }

  function DigitValue(c: char): nat
    requires IsDigit(c)
  {
    c as int - '0' as int
  }

  /** `str(n)` for a natural number. */
  function NatToString(n: nat): (r: string)
    ensures |r| >= 1
    ensures forall i :: 0 <= i < |r| ==> IsDigit(r[i])
    ensures r[0] == '0' ==> n == 0
  {
    if n < 10 then [DigitChar(n)] else NatToString(n / 10) + [DigitChar(n % 10)]
  }

  /** `str(i)` for any integer. */
  function IntToString(i: int): (r: string)
    ensures |r| >= 1
    ensures (r[0] == '-') == (i < 0)
  {
    if i < 0 then "-" + NatToString(-i) else NatToString(i)
  }

  /** The value of a string of decimal digits, most significant first. */
  function DigitsValue(s: string): nat
    requires forall i :: 0 <= i < |s| ==> IsDigit(s[i])
  {
    if |s| == 0 then 0 else DigitsValue(s[..|s| - 1]) * 10 + DigitValue(s[|s| - 1])
  }

  lemma {:induction false} DigitsOfNat(n: nat)
    ensures DigitsValue(NatToString(n)) == n
  {
    var r := NatToString(n);
    if n >= 10 {
      DigitsOfNat(n / 10);
      assert r[..|r| - 1] == NatToString(n / 10);
    }
  }

  function Pow10(k: nat): (r: nat)
    ensures r >= 1
  {
    if k == 0 then 1 else 10 * Pow10(k - 1)
  }

  /** Powers of ten multiply by adding exponents. */
  lemma {:induction false} Pow10Add(a: nat, b: nat)
    ensures Pow10(a + b) == Pow10(a) * Pow10(b)
  {
    if a > 0 {
      Pow10Add(a - 1, b);
      assert Pow10(a + b) == 10 * Pow10(a - 1 + b);
    }
  }

  /** A number below 10^k is written with at most k digits. */
  lemma {:induction false} NatToStringLength(n: nat, k: nat)
    requires n < Pow10(k)
    ensures |NatToString(n)| <= k || (n == 0 && k == 0)
  {
    if n >= 10 {
      assert k >= 1;
      NatToStringLength(n / 10, k - 1);
    }
  }

  predicate AllDigits(s: string) {
    forall i :: 0 <= i < |s| ==> IsDigit(s[i])
  }

  function InvalidLiteral(s: string): Error {
    Error("ValueError", "invalid literal for int() with base 10: '" + s + "'")
  }

  /** `int(s)`: surrounding whitespace and one optional sign allowed, then
      one or more decimal digits. */
  function ParseInt(s: string): Result<int> {
    var t := Strip(s);
    if |t| == 0 then Failure(InvalidLiteral(s))
    else if (t[0] == '-' || t[0] == '+') then
      var body := t[1..];
      if |body| >= 1 && AllDigits(body) then
        Success(if t[0] == '-' then -(DigitsValue(body) as int) else DigitsValue(body))
      else Failure(InvalidLiteral(s))
    else if AllDigits(t) then Success(DigitsValue(t))
    else Failure(InvalidLiteral(s))
  }

  lemma StripKeepsTrimmed(s: string)
    requires s != [] && !IsSpace(s[0]) && !IsSpace(s[|s| - 1])
    ensures Strip(s) == s
  {
  }

  /** `int(str(i)) == i`. */
  lemma ParseIntToString(i: int)
    ensures ParseInt(IntToString(i)) == Success(i)
  {
    var r := IntToString(i);
    assert IsDigit(r[|r| - 1]);
    StripKeepsTrimmed(r);
    if i < 0 {
      DigitsOfNat(-i);
      assert r[1..] == NatToString(-i);
    } else {
      DigitsOfNat(i);
    }
  }
}
