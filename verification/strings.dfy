/**
  Ordinal string primitives used by the package: the `StartsWith`, `EndsWith`
  and `IndexOf(value, startIndex)` methods of .NET strings, and `uint.Parse`
  restricted to plain ASCII decimal digits.
 */
module Strings {
  import opened Wrappers

  /** `pat` occurs in `s` starting at index `i`. */
  predicate PrefixAt(s: string, pat: string, i: nat) {
    i + |pat| <= |s| && s[i..i + |pat|] == pat
  }

  /** Ordinal `s.StartsWith(pat)`. */
  predicate StartsWith(s: string, pat: string) {
    PrefixAt(s, pat, 0)
  }

  /** Ordinal `s.EndsWith(pat)`. */
  predicate EndsWith(s: string, pat: string) {
    |pat| <= |s| && s[|s| - |pat|..] == pat
  }

  /**
    Ordinal `s.IndexOf(pat, from)`: the first index at or after `from` where
    `pat` occurs, or -1 when there is none.
   */
  function IndexOf(s: string, pat: string, from: nat): (r: int)
    requires from <= |s|
    ensures r == -1 || (from <= r <= |s| && PrefixAt(s, pat, r))
    ensures r == -1 ==> forall k :: from <= k <= |s| ==> !PrefixAt(s, pat, k)
    ensures r != -1 ==> forall k :: from <= k < r ==> !PrefixAt(s, pat, k)
    decreases |s| - from
  {
    if PrefixAt(s, pat, from) then from
    else if from == |s| then -1
    else IndexOf(s, pat, from + 1)
  }

  /** The first occurrence at or after `from` is exactly at `p`. */
  lemma IndexOfIs(s: string, pat: string, from: nat, p: nat)
    requires from <= p <= |s|
    requires PrefixAt(s, pat, p)
    requires forall k :: from <= k < p ==> !PrefixAt(s, pat, k)
    ensures IndexOf(s, pat, from) == p
  {
  }

  /**
    `x` holds no occurrence of `pat`, not even one that would run on into a
    `pat` written right after it.
   */
  ghost predicate DelimiterFree(x: string, pat: string) {
    forall k :: 0 <= k < |x| ==> !PrefixAt(x + pat, pat, k)
  }

  lemma SubSlice(s: string, lo: nat, hi: nat, i: nat, j: nat)
    requires lo <= hi <= |s| && i <= j <= hi - lo
    ensures s[lo..hi][i..j] == s[lo + i..lo + j]
  {
    var u := s[lo..hi];
    assert forall n :: 0 <= n < j - i ==> u[i..j][n] == u[i + n] == s[lo + i + n];
  }

  /**
    A delimiter-free field `x` followed by its delimiter at offset `off` of
    `s`: the search from `off` stops right after the field.
   */
  lemma FieldAt(s: string, off: nat, x: string, pat: string)
    requires off + |x| + |pat| <= |s|
    requires s[off..off + |x| + |pat|] == x + pat
    requires DelimiterFree(x, pat)
    ensures IndexOf(s, pat, off) == off + |x|
    ensures s[off..off + |x|] == x
  {
    var t := x + pat;
    var w := s[off..off + |x| + |pat|];
    forall k | off <= k < off + |x|
      ensures !PrefixAt(s, pat, k)
    {
      SubSlice(s, off, off + |x| + |pat|, k - off, k - off + |pat|);
      assert !PrefixAt(t, pat, k - off);
    }
    assert s[off + |x|..off + |x| + |pat|] == w[|x|..];
    IndexOfIs(s, pat, off, off + |x|);
    assert s[off..off + |x|] == w[..|x|];
  }

  /**
    The converse of `FieldAt`: the text from `off` up to the first `pat` at
    or after `off` is delimiter-free.
   */
  lemma FieldBefore(s: string, pat: string, off: nat, i: nat)
    requires off <= |s| && IndexOf(s, pat, off) == i
    ensures off <= i && i + |pat| <= |s|
    ensures DelimiterFree(s[off..i], pat)
  {
    NoOccurrenceBefore(s, pat, off, i);
  }

  /** Text of `s` in which `pat` starts nowhere, up to an occurrence of `pat`, is delimiter-free. */
  lemma NoOccurrenceBefore(s: string, pat: string, off: nat, i: nat)
    requires off <= i && PrefixAt(s, pat, i)
    requires forall k :: off <= k < i ==> !PrefixAt(s, pat, k)
    ensures DelimiterFree(s[off..i], pat)
  {
    var x, w := s[off..i], s[off..i + |pat|];
    Glue(s, off, i, i + |pat|);
    assert x + pat == w;
    forall k | 0 <= k < |x|
      ensures !PrefixAt(w, pat, k)
    {
      assert !PrefixAt(s, pat, off + k);
      SubSlice(s, off, i + |pat|, k, k + |pat|);
    }
  }

  /**
    A line in which `p0` starts the line and `p2`, `p4`, `p6` occur at `i2`,
    `i4`, `i6` is those four parts with the text between them.
   */
  lemma Reassemble(s: string, p0: string, p2: string, p4: string, p6: string, i2: nat, i4: nat, i6: nat)
    requires StartsWith(s, p0) && |p0| <= i2
    requires PrefixAt(s, p2, i2) && i2 + |p2| <= i4
    requires PrefixAt(s, p4, i4) && i4 + |p4| <= i6
    requires PrefixAt(s, p6, i6)
    ensures s == p0 + s[|p0|..i2] + p2 + s[i2 + |p2|..i4] + p4 + s[i4 + |p4|..i6] + p6 + s[i6 + |p6|..]
  {
    Glue(s, 0, |p0|, i2);
    assert s[0..i2] == p0 + s[|p0|..i2];
    Glue(s, 0, i2, i2 + |p2|);
    assert s[0..i2 + |p2|] == p0 + s[|p0|..i2] + p2;
    Glue(s, 0, i2 + |p2|, i4);
    assert s[0..i4] == p0 + s[|p0|..i2] + p2 + s[i2 + |p2|..i4];
    Glue(s, 0, i4, i4 + |p4|);
    assert s[0..i4 + |p4|] == p0 + s[|p0|..i2] + p2 + s[i2 + |p2|..i4] + p4;
    Glue(s, 0, i4 + |p4|, i6);
    assert s[0..i6] == p0 + s[|p0|..i2] + p2 + s[i2 + |p2|..i4] + p4 + s[i4 + |p4|..i6];
    Glue(s, 0, i6, i6 + |p6|);
    assert s[0..i6 + |p6|] == p0 + s[|p0|..i2] + p2 + s[i2 + |p2|..i4] + p4 + s[i4 + |p4|..i6] + p6;
    Glue(s, 0, i6 + |p6|, |s|);
  }

  lemma Glue(s: string, a: nat, b: nat, c: nat)
    requires a <= b <= c <= |s|
    ensures s[a..c] == s[a..b] + s[b..c]
  {
  }

  // ---------------------------------------------------------------------------
  // Unsigned decimal numbers

  const UInt32Limit: int := 0x1_0000_0000

  /** The C# `uint`. */
  type uint32 = x: int | 0 <= x < UInt32Limit

  predicate IsDigit(c: char) {
    '0' <= c <= '9'
  }

  predicate AllDigits(s: string) {
    forall i :: 0 <= i < |s| ==> IsDigit(s[i])
  }

  function DigitValue(c: char): nat
    requires IsDigit(c)
  {
    (c as int) - ('0' as int)
  }

  /** The value of a string of decimal digits, most significant first. */
  function DigitsValue(s: string): nat
    requires AllDigits(s)
  {
    if s == [] then 0
    else 10 * DigitsValue(s[..|s| - 1]) + DigitValue(s[|s| - 1])
  }

  /**
    `uint.Parse(s)`, where the only accepted syntax is a non-empty run of
    ASCII digits; `None` is the FormatException or OverflowException.
   */
  function ParseUInt(s: string): (r: Option<uint32>)
    ensures r.Some? ==> |s| > 0 && AllDigits(s) && r.value == DigitsValue(s)
    ensures 0 < |s| <= 9 && AllDigits(s) ==> r.Some?
  {
    ShortDigitRunsFit(s, 9);
    if |s| > 0 && AllDigits(s) && DigitsValue(s) < UInt32Limit then Some(DigitsValue(s))
    else None
  }

  function Pow10(n: nat): (r: nat)
    ensures r >= 1
  {
    if n == 0 then 1 else 10 * Pow10(n - 1)
  }

  /** A run of at most `n` digits is below 10^n; nine digits always fit a `uint`. */
  lemma {:induction false} ShortDigitRunsFit(s: string, n: nat)
    ensures AllDigits(s) && |s| <= n ==> DigitsValue(s) < Pow10(n)
    ensures n == 9 ==> Pow10(n) < UInt32Limit
  {
    if n == 9 {
      assert Pow10(n) == 1000000000;
    }
    if AllDigits(s) && |s| <= n && s != [] {
      var p := s[..|s| - 1];
      assert forall i :: 0 <= i < |p| ==> p[i] == s[i];
      ShortDigitRunsFit(p, n - 1);
    }
  }

  function DigitChar(d: nat): (c: char)
    requires d < 10
    ensures IsDigit(c) && DigitValue(c) == d
  {
    (('0' as int) + d) as char
  }

  /** The decimal text of `n`, as a tool writes a line number. */
  function FormatNat(n: nat): (r: string)
    ensures |r| > 0 && AllDigits(r)
  {
    if n < 10 then [DigitChar(n)]
    else FormatNat(n / 10) + [DigitChar(n % 10)]
  }

  lemma {:induction false} FormatNatValue(n: nat)
    ensures DigitsValue(FormatNat(n)) == n
  {
    var r := FormatNat(n);
    if n < 10 {
      assert r[..|r| - 1] == [];
    } else {
      assert r[..|r| - 1] == FormatNat(n / 10);
      FormatNatValue(n / 10);
    }
  }

  /** Parsing the decimal text of any `uint` gives that number back. */
  lemma ParseFormatRoundTrip(n: uint32)
    ensures ParseUInt(FormatNat(n)) == Some(n)
  {
    FormatNatValue(n);
  }

  /**
    `x` is delimiter-free when every character of `x` that could begin `pat`
    is followed, inside `x`, by a character that cannot continue it.
   */
  lemma {:induction false} DelimiterFreeBySecondChar(x: string, pat: string)
    requires |pat| >= 2
    requires forall k :: 0 <= k < |x| && x[k] == pat[0] ==> k + 1 < |x| && x[k + 1] != pat[1]
    ensures DelimiterFree(x, pat)
  {
    var t := x + pat;
    forall k | 0 <= k < |x|
      ensures !PrefixAt(t, pat, k)
    {
      assert t[k] == x[k];
      if k + 1 < |x| {
        assert t[k + 1] == x[k + 1];
      }
    }
  }

  /** A string of digits never contains a delimiter that starts with a non-digit. */
  lemma DigitsAreDelimiterFree(x: string, pat: string)
    requires AllDigits(x)
    requires |pat| >= 2 && !IsDigit(pat[0])
    ensures DelimiterFree(x, pat)
  {
    DelimiterFreeBySecondChar(x, pat);
  }

  // ---------------------------------------------------------------------------
  // Composite formatting

  /**
    `String.Format(format)` with an empty argument list succeeds: every brace
    is doubled ("{{" or "}}", an escaped brace).  A single '{' opens a format
    item, which names an argument that is not there, and a single '}' is a
    format error: both throw FormatException.
   */
  predicate FormatsWithoutArguments(format: string)
    decreases |format|
  {
    if format == [] then true
    else if format[0] == '{' || format[0] == '}' then
      2 <= |format| && format[1] == format[0] && FormatsWithoutArguments(format[2..])
    else FormatsWithoutArguments(format[1..])
  }

  predicate BraceFree(s: string) {
    '{' !in s && '}' !in s
  }

  lemma {:induction false} BraceFreeFormats(s: string)
    requires BraceFree(s)
    ensures FormatsWithoutArguments(s)
    decreases |s|
  {
    if s != [] {
      assert s[0] in s;
      assert forall c :: c in s[1..] ==> c in s;
      BraceFreeFormats(s[1..]);
    }
  }

  /** Text without braces in front of a format string changes nothing about whether it formats. */
  lemma {:induction false} FormatsAfterPlainText(a: string, b: string)
    requires BraceFree(a)
    ensures FormatsWithoutArguments(a + b) <==> FormatsWithoutArguments(b)
    decreases |a|
  {
    if a != [] {
      assert (a + b)[0] == a[0] && a[0] in a;
      assert (a + b)[1..] == a[1..] + b;
      assert forall c :: c in a[1..] ==> c in a;
      FormatsAfterPlainText(a[1..], b);
    } else {
      assert a + b == b;
    }
  }

  /** Text without braces after a format string changes nothing about whether it formats. */
  lemma {:induction false} FormatsBeforePlainText(a: string, b: string)
    requires BraceFree(b)
    ensures FormatsWithoutArguments(a + b) <==> FormatsWithoutArguments(a)
    decreases |a|
  {
    if a == [] {
      assert a + b == b;
      BraceFreeFormats(b);
    } else if a[0] == '{' || a[0] == '}' {
      assert (a + b)[0] == a[0];
      if |a| == 1 {
        // the brace is followed by text that holds no brace, or by nothing
        if |b| > 0 {
          assert (a + b)[1] == b[0] && b[0] in b;
        }
      } else {
        assert (a + b)[1] == a[1];
        assert (a + b)[2..] == a[2..] + b;
        FormatsBeforePlainText(a[2..], b);
      }
    } else {
      assert (a + b)[0] == a[0];
      assert (a + b)[1..] == a[1..] + b;
      FormatsBeforePlainText(a[1..], b);
    }
  }
}
