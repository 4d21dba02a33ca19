/**
  The JavaScript string primitives the order services rely on, written out
  so that their edge cases are explicit: `trim`, `substring` (which clamps
  its bounds), `replace(/^0+/, '')`, `replace(',', '.')` (first occurrence
  only), `indexOf`, the relational operators on strings (lexicographic) and
  the decimal rendering of a number inside a template literal.
  Strings are sequences of Unicode scalar values. For text in the Basic
  Multilingual Plane one character is one UTF-16 code unit, so offsets,
  trimming and comparison agree with JavaScript there.
*/
module JsString {

  /** The characters `String.prototype.trim` removes: WhiteSpace and LineTerminator. */
  predicate IsWhitespace(c: char) {
    || c == '\t' || c == '\n' || c == '\U{000B}' || c == '\U{000C}' || c == '\r'
    || c == ' ' || c == '\U{00A0}' || c == '\U{1680}'
    || ('\U{2000}' <= c <= '\U{200A}')
    || c == '\U{2028}' || c == '\U{2029}' || c == '\U{202F}' || c == '\U{205F}'
    || c == '\U{3000}' || c == '\U{FEFF}'
  }

  /** Removes whitespace at the start. */
  function TrimStart(s: string): (r: string)
    ensures |r| <= |s| && r == s[|s| - |r|..]
    ensures forall k :: 0 <= k < |s| - |r| ==> IsWhitespace(s[k])
    ensures r == [] || !IsWhitespace(r[0])
  {
    if s != [] && IsWhitespace(s[0]) then TrimStart(s[1..]) else s
  }

  /** Removes whitespace at the end. */
  function TrimEnd(s: string): (r: string)
    ensures |r| <= |s| && r == s[..|r|]
    ensures forall k :: |r| <= k < |s| ==> IsWhitespace(s[k])
    ensures r == [] || !IsWhitespace(r[|r| - 1])
  {
    if s != [] && IsWhitespace(s[|s| - 1]) then TrimEnd(s[..|s| - 1]) else s
  }

  /** `s.trim()`: removes whitespace at both ends. */
  function Trim(s: string): (r: string)
    ensures |r| <= |s|
    ensures r == [] || (!IsWhitespace(r[0]) && !IsWhitespace(r[|r| - 1]))
    ensures r == [] <==> forall k :: 0 <= k < |s| ==> IsWhitespace(s[k])
  {
    var t := TrimStart(s);
    var r := TrimEnd(t);
    assert r != [] ==> r[0] == t[0];
    assert r == [] ==> t == [];
    r
  }

  /**
    What `trim` keeps: the result is the slice of `s` that starts after
    the leading whitespace, and everything before and after that slice is
    whitespace.
  */
  /**
    `r` is the slice of `s` starting at `i`, and everything of `s` before
    and after that slice is whitespace.
  */
  predicate WhitespaceAround(s: string, i: nat, r: string) {
    && i + |r| <= |s| && r == s[i..i + |r|]
    && (forall k :: 0 <= k < i ==> IsWhitespace(s[k]))
    && (forall k :: i + |r| <= k < |s| ==> IsWhitespace(s[k]))
  }

  lemma TrimMiddle(s: string)
    ensures WhitespaceAround(s, |s| - |TrimStart(s)|, Trim(s))
  {
    var t := TrimStart(s);
    var r := TrimEnd(t);
    TrimOfParts(s, t, r);
    MiddleOfParts(s, t, r);
  }

  lemma MiddleOfParts(s: string, t: string, r: string)
    requires |t| <= |s| && t == s[|s| - |t|..]
    requires forall k :: 0 <= k < |s| - |t| ==> IsWhitespace(s[k])
    requires |r| <= |t| && r == t[..|r|]
    requires forall k :: |r| <= k < |t| ==> IsWhitespace(t[k])
    ensures WhitespaceAround(s, |s| - |t|, r)
  {
    var i := |s| - |t|;
    forall k | i + |r| <= k < |s| ensures IsWhitespace(s[k]) {
      assert s[k] == t[k - i];
    }
  }

  /** A string that has nothing to trim is its own trim. */
  predicate IsTrimmed(s: string) {
    s == [] || (!IsWhitespace(s[0]) && !IsWhitespace(s[|s| - 1]))
  }

  lemma TrimOfTrimmed(s: string)
    requires IsTrimmed(s)
    ensures Trim(s) == s
  {
  }

  /** Trimming is idempotent. */
  lemma TrimIdempotent(s: string)
    ensures Trim(Trim(s)) == Trim(s)
  {
    TrimOfTrimmed(Trim(s));
  }

  /** Trimming removes nothing exactly when the length is kept. */
  lemma TrimFullLength(s: string)
    ensures |Trim(s)| == |s| ==> Trim(s) == s
  {
    var t := TrimStart(s);
    if |Trim(s)| == |s| {
      assert |t| == |s|;
      assert t == s;
    }
  }

  /** Trimming a trimmed string padded on the left with whitespace gives it back. */
  lemma TrimPadded(pre: string, s: string)
    requires IsTrimmed(s) && s != []
    requires forall k :: 0 <= k < |pre| ==> IsWhitespace(pre[k])
    ensures Trim(pre + s) == s
  {
    TrimStartPadded(pre, s);
    assert TrimEnd(s) == s;
    TrimOfParts(pre + s, s, s);
  }

  lemma TrimOfParts(t: string, u: string, s: string)
    requires TrimStart(t) == u && TrimEnd(u) == s
    ensures Trim(t) == s
  {
  }

  lemma {:induction false} TrimStartPadded(pre: string, s: string)
    requires s != [] && !IsWhitespace(s[0])
    requires forall k :: 0 <= k < |pre| ==> IsWhitespace(pre[k])
    ensures TrimStart(pre + s) == s
  {
    if pre != [] {
      assert (pre + s)[1..] == pre[1..] + s;
      TrimStartPadded(pre[1..], s);
    }
  }

  function Min(a: nat, b: nat): (m: nat) { if a <= b then a else b }

  /**
    `s.substring(a, b)` for non-negative bounds: each bound is clamped to
    the length of `s`, and the two are swapped when `a > b`.
  */
  function Substring(s: string, a: nat, b: nat): (r: string)
    ensures |r| <= |s|
    ensures a <= b && b <= |s| ==> r == s[a..b]
    ensures a <= b && a <= |s| < b ==> r == s[a..]
    ensures Min(a, b) >= |s| ==> r == []
    ensures b < a && a <= |s| ==> r == s[b..a]
    ensures |r| <= if a <= b then b - a else a - b
  {
    var lo := Min(Min(a, b), |s|);
    var hi := Min(if a <= b then b else a, |s|);
    s[lo..hi]
  }

  /** `s.replace(/^0+/, '')`: drops the leading run of '0' characters, and nothing else. */
  function StripLeadingZeros(s: string): (r: string)
    ensures |r| <= |s| && r == s[|s| - |r|..]
    ensures forall k :: 0 <= k < |s| - |r| ==> s[k] == '0'
    ensures r == [] || r[0] != '0'
  {
    if s != [] && s[0] == '0' then StripLeadingZeros(s[1..]) else s
  }

  /** A string of `n` copies of `c`. */
  function Repeat(c: char, n: nat): (r: string)
    ensures |r| == n && forall k :: 0 <= k < n ==> r[k] == c
  {
    if n == 0 then [] else [c] + Repeat(c, n - 1)
  }

  lemma StripLeadingZerosPadded(n: nat, s: string)
    requires s == [] || s[0] != '0'
    ensures StripLeadingZeros(Repeat('0', n) + s) == s
  {
    var t := Repeat('0', n) + s;
    var r := StripLeadingZeros(t);
    // the first kept position is neither inside the zeros nor past s[0]
    assert forall k :: 0 <= k < n ==> t[k] == '0';
    if s != [] {
      assert t[n] == s[0];
    }
    assert |r| == |s|;
    assert r == t[n..];
    assert t[n..] == s;
  }

  /** `s.indexOf(c)`: the first position of `c`, or -1. */
  function IndexOf(s: string, c: char): (r: int)
    ensures -1 <= r < |s|
    ensures r == -1 <==> c !in s
    ensures r >= 0 ==> s[r] == c && forall k :: 0 <= k < r ==> s[k] != c
  {
    if s == [] then -1
    else if s[0] == c then 0
    else
      var i := IndexOf(s[1..], c);
      assert forall k :: 0 <= k < |s| - 1 ==> s[1..][k] == s[k + 1];
      if i < 0 then -1 else i + 1
  }

  /** `s.replace(c, d)` with a string pattern: only the first occurrence of `c` becomes `d`. */
  function ReplaceFirst(s: string, c: char, d: char): (r: string)
    ensures |r| == |s|
    ensures c !in s ==> r == s
    ensures c in s ==> r == s[IndexOf(s, c) := d]
  {
    var i := IndexOf(s, c);
    if i < 0 then s else s[i := d]
  }

  /** `a <= b` between two JavaScript strings: lexicographic order on characters. */
  predicate LexLe(a: string, b: string) {
    a == [] || (b != [] && (a[0] < b[0] || (a[0] == b[0] && LexLe(a[1..], b[1..]))))
  }

  lemma {:induction false} LexLeReflexive(a: string)
    ensures LexLe(a, a)
  {
    if a != [] { LexLeReflexive(a[1..]); }
  }

  lemma {:induction false} LexLeAntisymmetric(a: string, b: string)
    requires LexLe(a, b) && LexLe(b, a)
    ensures a == b
  {
    if a != [] && b != [] {
      LexLeAntisymmetric(a[1..], b[1..]);
      assert a == [a[0]] + a[1..] && b == [b[0]] + b[1..];
    }
  }

  lemma {:induction false} LexLeTransitive(a: string, b: string, c: string)
    requires LexLe(a, b) && LexLe(b, c)
    ensures LexLe(a, c)
  {
    if a != [] && a[0] == b[0] && b[0] == c[0] {
      LexLeTransitive(a[1..], b[1..], c[1..]);
    }
  }

  /** `a` is an initial part of `b`. */
  predicate IsPrefix(a: string, b: string) {
    |a| <= |b| && b[..|a|] == a
  }

  /** `a` is below `b` at the first position where they differ. */
  predicate DiffersBelow(a: string, b: string, k: nat) {
    k < |a| && k < |b| && a[..k] == b[..k] && a[k] < b[k]
  }

  /**
    The string comparison of ECMAScript, section 7.2.13 of ECMA-262
    (IsLessThan on two strings): `a <= b` when `a` is a prefix of `b`, or
    when at the first position where they differ the character of `a` is
    the smaller one.
  */
  lemma {:induction false} LexLeMeaning(a: string, b: string)
    ensures LexLe(a, b) <==> IsPrefix(a, b) || exists k: nat :: DiffersBelow(a, b, k)
  {
    if a == [] {
      assert IsPrefix(a, b);
    } else if b == [] {
      assert !IsPrefix(a, b);
    } else if a[0] < b[0] {
      assert DiffersBelow(a, b, 0);
    } else if a[0] > b[0] {
      if |a| <= |b| {
        assert b[..|a|][0] == b[0];
      }
      forall k: nat | 0 < k < |a| && k < |b| ensures a[..k] != b[..k] {
        assert a[..k][0] == a[0] && b[..k][0] == b[0];
      }
    } else {
      LexLeMeaning(a[1..], b[1..]);
      assert IsPrefix(a, b) <==> IsPrefix(a[1..], b[1..]) by {
        if IsPrefix(a[1..], b[1..]) {
          assert b[..|a|] == [b[0]] + b[1..][..|a| - 1];
          assert a == [a[0]] + a[1..];
        }
        if IsPrefix(a, b) {
          assert b[1..][..|a| - 1] == b[..|a|][1..];
        }
      }
      if exists k: nat :: DiffersBelow(a, b, k) {
        var k: nat :| DiffersBelow(a, b, k);
        assert k != 0;
        assert a[..k][1..] == a[1..][..k - 1] && b[..k][1..] == b[1..][..k - 1];
        assert DiffersBelow(a[1..], b[1..], k - 1);
      }
      if exists k: nat :: DiffersBelow(a[1..], b[1..], k) {
        var k: nat :| DiffersBelow(a[1..], b[1..], k);
        assert a[..k + 1] == [a[0]] + a[1..][..k] && b[..k + 1] == [b[0]] + b[1..][..k];
        assert DiffersBelow(a, b, k + 1);
      }
    }
  }

  predicate IsDigit(c: char) { '0' <= c <= '9' }

  function DigitChar(d: nat): (c: char)
    requires d < 10
    ensures IsDigit(c) && c as int - '0' as int == d
  {
    ('0' as int + d) as char
  }

  /** The decimal text of `n` as a template literal `${n}` renders it. */
  function DecimalString(n: nat): (r: string)
    ensures r != [] && forall k :: 0 <= k < |r| ==> IsDigit(r[k])
    ensures r[0] == '0' ==> n == 0
  {
    if n < 10 then [DigitChar(n)] else DecimalString(n / 10) + [DigitChar(n % 10)]
  }

  /** The number a string of decimal digits denotes. */
  function DigitsValue(s: string): (n: nat)
    requires forall k :: 0 <= k < |s| ==> IsDigit(s[k])
  {
    if s == [] then 0
    else
      assert IsDigit(s[|s| - 1]);
      DigitsValue(s[..|s| - 1]) * 10 + (s[|s| - 1] as int - '0' as int)
  }

  /** Reading back the decimal text of `n` gives `n`. */
  lemma {:induction false} DecimalStringRoundTrip(n: nat)
    ensures DigitsValue(DecimalString(n)) == n
  {
    if n >= 10 {
      var s := DecimalString(n);
      assert s[..|s| - 1] == DecimalString(n / 10);
      DecimalStringRoundTrip(n / 10);
    }
  }

  /**
    A digit string without a leading zero is the decimal text of the
    number it denotes, and that number is at least 1.
  */
  lemma {:induction false} DecimalStringOfDigits(s: string)
    requires forall k :: 0 <= k < |s| ==> IsDigit(s[k])
    requires s != [] && s[0] != '0'
    ensures DecimalString(DigitsValue(s)) == s && DigitsValue(s) >= 1
  {
    var p := s[..|s| - 1];
    var last := s[|s| - 1];
    var dv := last as int - '0' as int;
    assert DigitsValue(s) == DigitsValue(p) * 10 + dv;
    if p == [] {
      assert DigitChar(dv) as int == last as int;
      assert s == [last];
    } else {
      assert p[0] == s[0];
      DecimalStringOfDigits(p);
      var n := DigitsValue(s);
      assert n / 10 == DigitsValue(p) && n % 10 == dv;
      assert DigitChar(dv) as int == last as int;
      assert s == p + [last];
    }
  }

  /** Leading zeros do not change the number a digit string denotes. */
  lemma {:induction false} DigitsValueSkipsZeros(s: string, m: nat)
    requires forall k :: 0 <= k < |s| ==> IsDigit(s[k])
    requires m <= |s| && forall k :: 0 <= k < m ==> s[k] == '0'
    ensures forall k :: 0 <= k < |s| - m ==> IsDigit(s[m..][k])
    ensures DigitsValue(s) == DigitsValue(s[m..])
  {
    if s != [] {
      var p := s[..|s| - 1];
      if |s| > m {
        DigitsValueSkipsZeros(p, m);
        assert s[m..][..|s| - m - 1] == p[m..];
      } else {
        DigitsValueSkipsZeros(p, m - 1);
        assert p[m - 1..] == [] && s[m..] == [];
      }
    }
  }

  /** A string of zeros denotes 0. */
  lemma {:induction false} DigitsValueOfZeros(n: nat)
    ensures forall k :: 0 <= k < n ==> IsDigit(Repeat('0', n)[k])
    ensures DigitsValue(Repeat('0', n)) == 0
  {
    if n > 0 {
      var z := Repeat('0', n);
      assert z[..n - 1] == Repeat('0', n - 1);
      DigitsValueOfZeros(n - 1);
    }
  }

  /** The length of the run of decimal digits that `s` starts with. */
  function DigitRun(s: string): (r: nat)
    ensures r <= |s| && (r == |s| || !IsDigit(s[r]))
    ensures forall k :: 0 <= k < r ==> IsDigit(s[k])
  {
    if s == [] || !IsDigit(s[0]) then 0 else 1 + DigitRun(s[1..])
  }

  /** A digit string followed by a non-digit: the run is exactly the digit string. */
  lemma {:induction false} DigitRunOfDigitsThen(d: string, rest: string)
    requires forall k :: 0 <= k < |d| ==> IsDigit(d[k])
    requires rest != [] && !IsDigit(rest[0])
    ensures DigitRun(d + rest) == |d|
  {
    if d != [] {
      assert (d + rest)[1..] == d[1..] + rest;
      DigitRunOfDigitsThen(d[1..], rest);
    }
  }
}
