/**
  The error-line parser `ProcessErrorString` and the routing of each line the
  bundler command writes to standard error (an Output-window line, or a task
  item that points at a file and line).
 */
module ErrorParsing {
  import opened Wrappers
  import opened Strings

  // ---------------------------------------------------------------------------
  // Colour sequences: the regular expression ESC "\[(\d)+m", replaced by ""

  const Esc: char := 27 as char

  /** The number of ASCII digits at the start of `t`. */
  function LeadingDigits(t: string): (n: nat)
    ensures n <= |t| && AllDigits(t[..n])
    ensures n < |t| ==> !IsDigit(t[n])
  {
    if t != [] && IsDigit(t[0]) then
      var n := 1 + LeadingDigits(t[1..]);
      assert t[..n] == [t[0]] + t[1..][..n - 1];
      n
    else 0
  }

  /** The length of the colour sequence `ESC '[' digit+ 'm'` that starts `t`, or 0. */
  function SgrLength(t: string): (n: nat)
    ensures n <= |t|
  {
    if 2 <= |t| && t[0] == Esc && t[1] == '[' then
      var d := LeadingDigits(t[2..]);
      if 0 < d && 2 + d < |t| && t[2 + d] == 'm' then d + 3 else 0
    else 0
  }

  /** A colour sequence starts at index `i` of `s`. */
  predicate SgrAt(s: string, i: nat) {
    i < |s| && SgrLength(s[i..]) > 0
  }

  ghost predicate HasSgr(s: string) {
    exists i: nat :: SgrAt(s, i)
  }

  /** The colour sequence with the given digits, e.g. Sgr("31") is ESC "[31m". */
  function Sgr(digits: string): string {
    [Esc, '['] + digits + ['m']
  }

  /**
    The line after `Regex.Replace` has removed every colour sequence: one
    left-to-right pass; where a sequence matches it is dropped and the scan
    resumes after its 'm', otherwise the character is kept.
   */
  function Strip(s: string): (r: string)
    ensures |r| <= |s|
    decreases |s|
  {
    if s == [] then []
    else if SgrLength(s) > 0 then Strip(s[SgrLength(s)..])
    else [s[0]] + Strip(s[1..])
  }

  lemma SgrAtTail(s: string, i: nat)
    requires 0 < |s|
    ensures SgrAt(s[1..], i) <==> SgrAt(s, i + 1)
  {
    if i < |s| - 1 {
      assert s[1..][i..] == s[i + 1..];
    }
  }

  /** A line in which some colour sequence matches always gets shorter. */
  lemma {:induction false} StripShortensWhenSgr(s: string)
    requires HasSgr(s)
    ensures |Strip(s)| < |s|
    decreases |s|
  {
    var i: nat :| SgrAt(s, i);
    if SgrLength(s) == 0 {
      assert i != 0;
      SgrAtTail(s, i - 1);
      StripShortensWhenSgr(s[1..]);
    }
  }

  /** A line in which no colour sequence matches comes back unchanged. */
  lemma {:induction false} StripKeepsWhenNoSgr(s: string)
    requires !HasSgr(s)
    ensures Strip(s) == s
    decreases |s|
  {
    if s != [] {
      assert !SgrAt(s, 0);
      assert s[0..] == s;
      forall i: nat
        ensures !SgrAt(s[1..], i)
      {
        SgrAtTail(s, i);
      }
      StripKeepsWhenNoSgr(s[1..]);
      assert [s[0]] + s[1..] == s;
    }
  }

  /** Stripping leaves a line unchanged exactly when it holds no colour sequence. */
  lemma StripUnchangedIff(s: string)
    ensures Strip(s) == s <==> !HasSgr(s)
  {
    if HasSgr(s) {
      StripShortensWhenSgr(s);
    } else {
      StripKeepsWhenNoSgr(s);
    }
  }

  /** In particular a line without an ESC character is unchanged. */
  lemma StripWithoutEscape(s: string)
    requires Esc !in s
    ensures Strip(s) == s
  {
    forall i: nat
      ensures !SgrAt(s, i)
    {
      if i < |s| {
        assert s[i..][0] == s[i];
      }
    }
    StripKeepsWhenNoSgr(s);
  }

  /** Characters before the first ESC are copied through as they are. */
  lemma {:induction false} StripAfterPlainPrefix(a: string, b: string)
    requires Esc !in a
    ensures Strip(a + b) == a + Strip(b)
    decreases |a|
  {
    if a != [] {
      var s := a + b;
      assert s[0] == a[0];
      assert SgrLength(s) == 0;
      assert s[1..] == a[1..] + b;
      StripAfterPlainPrefix(a[1..], b);
      assert a == [a[0]] + a[1..];
    } else {
      assert a + b == b;
    }
  }

  lemma {:induction false} LeadingDigitsOfDigits(d: string, t: string)
    requires AllDigits(d)
    requires t == [] || !IsDigit(t[0])
    ensures LeadingDigits(d + t) == |d|
    decreases |d|
  {
    if d != [] {
      assert (d + t)[1..] == d[1..] + t;
      LeadingDigitsOfDigits(d[1..], t);
    } else {
      assert d + t == t;
    }
  }

  /** A complete colour sequence at the start of a line is dropped whole. */
  lemma StripDropsSgr(digits: string, b: string)
    requires |digits| > 0 && AllDigits(digits)
    ensures Strip(Sgr(digits) + b) == Strip(b)
  {
    var s := Sgr(digits) + b;
    assert s[2..] == digits + (['m'] + b);
    LeadingDigitsOfDigits(digits, ['m'] + b);
    assert s[2 + |digits|] == 'm';
    assert SgrLength(s) == |digits| + 3;
    assert s[|digits| + 3..] == b;
  }

  /**
    Inserting a colour sequence anywhere before the first ESC of a line does
    not change the stripped line.
   */
  lemma StripIgnoresInsertedSgr(a: string, digits: string, b: string)
    requires Esc !in a
    requires |digits| > 0 && AllDigits(digits)
    ensures Strip(a + Sgr(digits) + b) == Strip(a + b)
  {
    assert a + Sgr(digits) + b == a + (Sgr(digits) + b);
    StripAfterPlainPrefix(a, Sgr(digits) + b);
    StripDropsSgr(digits, b);
    StripAfterPlainPrefix(a, b);
  }

  // ---------------------------------------------------------------------------
  // The diagnostic template
  //   "ParseError: " message " in " path " on line " number ", column " ...

  const Part0: string := "ParseError: "
  const Part2: string := " in "
  const Part4: string := " on line "
  const Part6: string := ", column "

  /**
    What `ProcessErrorString` hands back: its return value (`line`), its three
    out-parameters (null is `None`), and whether its catch block wrote an
    exception report to the Output window.
   */
  datatype ParsedLine = ParsedLine(
    line: Option<string>,
    filePath: Option<string>,
    lineNumber: uint32,
    text: Option<string>,
    exceptionLogged: bool)

  /** The template match on an already stripped line, index by index as the source computes it. */
  function MatchTemplate(s: string): (r: ParsedLine)
    ensures r.line == Some(s)
    ensures r.filePath.Some? <==> r.text.Some?
    ensures r.text.None? ==> r == ParsedLine(Some(s), None, 0, None, false)
  {
    var i1: int := if StartsWith(s, Part0) then |Part0| else -1;
    var i2: int := if i1 < 0 then -1 else IndexOf(s, Part2, i1);
    var i3: int := if i2 < 0 then -1 else i2 + |Part2|;
    var i4: int := if i3 < 0 then -1 else IndexOf(s, Part4, i3);
    var i5: int := if i4 < 0 then -1 else i4 + |Part4|;
    var i6: int := if i5 < 0 then -1 else IndexOf(s, Part6, i5);
    if i6 < 0 then
      ParsedLine(Some(s), None, 0, None, false)
    else
      AssignFields(s, s[i1..i2], s[i3..i4], s[i5..i6])
  }

  /**
    The assignments of the match branch: text, then path, then the line
    number through uint.Parse. When uint.Parse throws, the catch block
    reports the exception; text and path keep the values already assigned
    and the line number stays 0.
   */
  function AssignFields(s: string, text: string, path: string, number: string): (r: ParsedLine)
    ensures r.line == Some(s) && r.text == Some(text) && r.filePath == Some(path)
    ensures r.exceptionLogged <==> ParseUInt(number).None?
    ensures r.exceptionLogged ==> r.lineNumber == 0
    ensures !r.exceptionLogged ==> r.lineNumber == DigitsValue(number)
  {
    match ParseUInt(number)
    case Some(n) => ParsedLine(Some(s), Some(path), n, Some(text), false)
    case None => ParsedLine(Some(s), Some(path), 0, Some(text), true)
  }

  /** `ProcessErrorString(errorString, out path, out line, out text)`. */
  function ProcessErrorString(errorString: Option<string>): (r: ParsedLine)
    ensures errorString.None? ==> r == ParsedLine(None, None, 0, None, false)
    ensures r.line.None? <==> errorString.None?
    ensures errorString.Some? ==> r.line == Some(Strip(errorString.value))
    ensures r.filePath.Some? <==> r.text.Some?
    ensures r.lineNumber != 0 ==> r.filePath.Some? && !r.exceptionLogged
    ensures r.exceptionLogged ==> r.filePath.Some? && r.lineNumber == 0
  {
    match errorString
    case None => ParsedLine(None, None, 0, None, false)
    case Some(s) => MatchTemplate(Strip(s))
  }

  /** The four parts occur in this order, each starting after the previous one ends. */
  ghost predicate DelimitersInOrder(s: string) {
    && StartsWith(s, Part0)
    && exists i: nat, j: nat, k: nat ::
         && |Part0| <= i && i + |Part2| <= j && j + |Part4| <= k
         && PrefixAt(s, Part2, i) && PrefixAt(s, Part4, j) && PrefixAt(s, Part6, k)
  }

  /**
    The template matches (the out-parameters are assigned) exactly when the
    four parts occur in order; otherwise all three stay at null, null and 0.
   */
  lemma MatchIffDelimitersInOrder(s: string)
    ensures MatchTemplate(s).text.Some? <==> DelimitersInOrder(s)
    ensures !DelimitersInOrder(s) ==> MatchTemplate(s) == ParsedLine(Some(s), None, 0, None, false)
  {
    if DelimitersInOrder(s) {
      var i: nat, j: nat, k: nat :|
        && |Part0| <= i && i + |Part2| <= j && j + |Part4| <= k
        && PrefixAt(s, Part2, i) && PrefixAt(s, Part4, j) && PrefixAt(s, Part6, k);
      var i2 := IndexOf(s, Part2, |Part0|);
      assert i2 != -1 && i2 <= i;
      var i4 := IndexOf(s, Part4, i2 + |Part2|);
      assert i4 != -1 && i4 <= j;
      var i6 := IndexOf(s, Part6, i4 + |Part4|);
      assert i6 != -1;
    }
  }

  /** A diagnostic as a tool writes it. */
  function DiagnosticLine(message: string, path: string, number: string, rest: string): string {
    Part0 + message + Part2 + path + Part4 + number + Part6 + rest
  }

  /** The template match once the three delimiter searches are known to stop at `i2`, `i4`, `i6`. */
  lemma MatchTemplateAt(s: string, i2: nat, i4: nat, i6: nat)
    requires StartsWith(s, Part0)
    requires IndexOf(s, Part2, |Part0|) == i2
    requires IndexOf(s, Part4, i2 + |Part2|) == i4
    requires IndexOf(s, Part6, i4 + |Part4|) == i6
    requires |Part0| <= i2 && i2 + |Part2| <= i4 && i4 + |Part4| <= i6 <= |s|
    ensures MatchTemplate(s) == AssignFields(s, s[|Part0|..i2], s[i2 + |Part2|..i4], s[i4 + |Part4|..i6])
  {
    var i1: int := if StartsWith(s, Part0) then |Part0| else -1;
    assert i1 == |Part0|;
  }

  /**
    On a line in the template's form the message and path come back as
    written and the number slice goes through uint.Parse; nothing after
    ", column " is looked at.
   */
  lemma MatchDiagnosticLine(message: string, path: string, number: string, rest: string)
    requires DelimiterFree(message, Part2)
    requires DelimiterFree(path, Part4)
    requires DelimiterFree(number, Part6)
    ensures MatchTemplate(DiagnosticLine(message, path, number, rest))
         == AssignFields(DiagnosticLine(message, path, number, rest), message, path, number)
  {
    var s := DiagnosticLine(message, path, number, rest);
    var i2, i4, i6 := DiagnosticIndices(message, path, number, rest);
    MatchTemplateAt(s, i2, i4, i6);
  }

  /** Where the three searches stop on a diagnostic line, and the fields they slice out. */
  lemma DiagnosticIndices(message: string, path: string, number: string, rest: string) returns (i2: nat, i4: nat, i6: nat)
    requires DelimiterFree(message, Part2)
    requires DelimiterFree(path, Part4)
    requires DelimiterFree(number, Part6)
    ensures var s := DiagnosticLine(message, path, number, rest);
      && StartsWith(s, Part0)
      && IndexOf(s, Part2, |Part0|) == i2
      && IndexOf(s, Part4, i2 + |Part2|) == i4
      && IndexOf(s, Part6, i4 + |Part4|) == i6
      && |Part0| <= i2 && i2 + |Part2| <= i4 && i4 + |Part4| <= i6 <= |s|
      && s[|Part0|..i2] == message && s[i2 + |Part2|..i4] == path && s[i4 + |Part4|..i6] == number
  {
    TemplateWindows(Part0, Part2, Part4, Part6, message, path, number, rest);
    i2, i4, i6 := TemplateIndices(DiagnosticLine(message, path, number, rest), Part0, Part2, Part4, Part6, message, path, number);
  }

  /** A line seen through the window of each field: each search stops at the end of its field. */
  lemma TemplateIndices(s: string, p0: string, p2: string, p4: string, p6: string,
                        message: string, path: string, number: string)
    returns (i2: nat, i4: nat, i6: nat)
    requires StartsWith(s, p0)
    requires |p0| + |message| + |p2| + |path| + |p4| + |number| + |p6| <= |s|
    requires s[|p0|..|p0| + |message| + |p2|] == message + p2
    requires s[|p0| + |message| + |p2|..|p0| + |message| + |p2| + |path| + |p4|] == path + p4
    requires s[|p0| + |message| + |p2| + |path| + |p4|..|p0| + |message| + |p2| + |path| + |p4| + |number| + |p6|] == number + p6
    requires DelimiterFree(message, p2)
    requires DelimiterFree(path, p4)
    requires DelimiterFree(number, p6)
    ensures IndexOf(s, p2, |p0|) == i2
    ensures IndexOf(s, p4, i2 + |p2|) == i4
    ensures IndexOf(s, p6, i4 + |p4|) == i6
    ensures |p0| <= i2 && i2 + |p2| <= i4 && i4 + |p4| <= i6 <= |s|
    ensures s[|p0|..i2] == message && s[i2 + |p2|..i4] == path && s[i4 + |p4|..i6] == number
  {
    i2 := |p0| + |message|;
    FieldAt(s, |p0|, message, p2);
    i4, i6 := TailIndices(s, i2 + |p2|, p4, p6, path, number);
  }

  /** The path and number searches of `TemplateIndices`, from the end of " in " on. */
  lemma TailIndices(s: string, off: nat, p4: string, p6: string, path: string, number: string)
    returns (i4: nat, i6: nat)
    requires off + |path| + |p4| + |number| + |p6| <= |s|
    requires s[off..off + |path| + |p4|] == path + p4
    requires s[off + |path| + |p4|..off + |path| + |p4| + |number| + |p6|] == number + p6
    requires DelimiterFree(path, p4)
    requires DelimiterFree(number, p6)
    ensures IndexOf(s, p4, off) == i4
    ensures IndexOf(s, p6, i4 + |p4|) == i6
    ensures off <= i4 && i4 + |p4| <= i6 && i6 + |p6| <= |s|
    ensures s[off..i4] == path && s[i4 + |p4|..i6] == number
  {
    i4 := off + |path|;
    FieldAt(s, off, path, p4);
    i6 := i4 + |p4| + |number|;
    FieldAt(s, i4 + |p4|, number, p6);
  }

  /**
    The converse of `MatchDiagnosticLine`: every line the template matches is
    a diagnostic line whose message, path and number hold no occurrence of
    the delimiter that follows each, and the match hands back exactly that
    message, path and number.
   */
  lemma MatchedLineIsDiagnostic(s: string)
    ensures var m := MatchTemplate(s);
      m.text.Some? ==> exists number, rest ::
        && s == DiagnosticLine(m.text.value, m.filePath.value, number, rest)
        && DelimiterFree(m.text.value, Part2)
        && DelimiterFree(m.filePath.value, Part4)
        && DelimiterFree(number, Part6)
        && m == AssignFields(s, m.text.value, m.filePath.value, number)
  {
    var m := MatchTemplate(s);
    if m.text.Some? {
      var i2, i4, i6 := MatchedIndices(s);
      MatchTemplateAt(s, i2, i4, i6);
      FieldsDelimiterFree(s, i2, i4, i6);
      SlicesFormDiagnostic(s, m, i2, i4, i6);
    }
  }

  /** Each field the match slices out ends at the first occurrence of the delimiter after it. */
  lemma FieldsDelimiterFree(s: string, i2: nat, i4: nat, i6: nat)
    requires |Part0| <= |s|
    requires IndexOf(s, Part2, |Part0|) == i2
    requires i2 + |Part2| <= |s| && IndexOf(s, Part4, i2 + |Part2|) == i4
    requires i4 + |Part4| <= |s| && IndexOf(s, Part6, i4 + |Part4|) == i6
    ensures DelimiterFree(s[|Part0|..i2], Part2)
    ensures DelimiterFree(s[i2 + |Part2|..i4], Part4)
    ensures DelimiterFree(s[i4 + |Part4|..i6], Part6)
  {
    FieldBefore(s, Part2, |Part0|, i2);
    assert DelimiterFree(s[|Part0|..i2], Part2);
    FieldBefore(s, Part4, i2 + |Part2|, i4);
    assert DelimiterFree(s[i2 + |Part2|..i4], Part4);
    FieldBefore(s, Part6, i4 + |Part4|, i6);
  }

  /** The fields a match slices out of a line, put back between the delimiters, give the line. */
  lemma SlicesFormDiagnostic(s: string, m: ParsedLine, i2: nat, i4: nat, i6: nat)
    requires StartsWith(s, Part0)
    requires |Part0| <= i2 && i2 + |Part2| <= i4 && i4 + |Part4| <= i6 && i6 + |Part6| <= |s|
    requires PrefixAt(s, Part2, i2) && PrefixAt(s, Part4, i4) && PrefixAt(s, Part6, i6)
    requires DelimiterFree(s[|Part0|..i2], Part2)
    requires DelimiterFree(s[i2 + |Part2|..i4], Part4)
    requires DelimiterFree(s[i4 + |Part4|..i6], Part6)
    requires m == AssignFields(s, s[|Part0|..i2], s[i2 + |Part2|..i4], s[i4 + |Part4|..i6])
    ensures m.text.Some? && exists number, rest ::
        && s == DiagnosticLine(m.text.value, m.filePath.value, number, rest)
        && DelimiterFree(m.text.value, Part2)
        && DelimiterFree(m.filePath.value, Part4)
        && DelimiterFree(number, Part6)
        && m == AssignFields(s, m.text.value, m.filePath.value, number)
  {
    var text, path := s[|Part0|..i2], s[i2 + |Part2|..i4];
    var number, rest := s[i4 + |Part4|..i6], s[i6 + |Part6|..];
    DiagnosticAt(s, i2, i4, i6);
    DiagnosticWitness(s, m, text, path, number, rest);
  }

  lemma DiagnosticWitness(s: string, m: ParsedLine, text: string, path: string, number: string, rest: string)
    requires m == AssignFields(s, text, path, number)
    requires s == DiagnosticLine(text, path, number, rest)
    requires DelimiterFree(text, Part2) && DelimiterFree(path, Part4) && DelimiterFree(number, Part6)
    ensures m.text.Some? && exists number, rest ::
        && s == DiagnosticLine(m.text.value, m.filePath.value, number, rest)
        && DelimiterFree(m.text.value, Part2)
        && DelimiterFree(m.filePath.value, Part4)
        && DelimiterFree(number, Part6)
        && m == AssignFields(s, m.text.value, m.filePath.value, number)
  {
  }

  /** A line with the three delimiters at `i2`, `i4`, `i6` is the diagnostic line of the text between them. */
  lemma DiagnosticAt(s: string, i2: nat, i4: nat, i6: nat)
    requires StartsWith(s, Part0) && |Part0| <= i2
    requires PrefixAt(s, Part2, i2) && i2 + |Part2| <= i4
    requires PrefixAt(s, Part4, i4) && i4 + |Part4| <= i6
    requires PrefixAt(s, Part6, i6)
    ensures s == DiagnosticLine(s[|Part0|..i2], s[i2 + |Part2|..i4], s[i4 + |Part4|..i6], s[i6 + |Part6|..])
  {
    Reassemble(s, Part0, Part2, Part4, Part6, i2, i4, i6);
  }

  /** Where the three searches stop on a line the template matches, with what they guarantee. */
  lemma MatchedIndices(s: string) returns (i2: nat, i4: nat, i6: nat)
    requires MatchTemplate(s).text.Some?
    ensures StartsWith(s, Part0)
    ensures IndexOf(s, Part2, |Part0|) == i2
    ensures IndexOf(s, Part4, i2 + |Part2|) == i4
    ensures IndexOf(s, Part6, i4 + |Part4|) == i6
    ensures |Part0| <= i2 && i2 + |Part2| <= i4 && i4 + |Part4| <= i6 && i6 + |Part6| <= |s|
    ensures PrefixAt(s, Part2, i2) && PrefixAt(s, Part4, i4) && PrefixAt(s, Part6, i6)
  {
    assert StartsWith(s, Part0);
    i2 := IndexOf(s, Part2, |Part0|);
    i4 := IndexOf(s, Part4, i2 + |Part2|);
    i6 := IndexOf(s, Part6, i4 + |Part4|);
  }

  /** A line laid out as p0 message p2 path p4 number p6 rest, seen through the window of each field. */
  lemma TemplateWindows(p0: string, p2: string, p4: string, p6: string,
                        message: string, path: string, number: string, rest: string)
    ensures var s := p0 + message + p2 + path + p4 + number + p6 + rest;
      var i2 := |p0| + |message|;
      var i4 := i2 + |p2| + |path|;
      var i6 := i4 + |p4| + |number|;
      && |s| == i6 + |p6| + |rest|
      && s[..|p0|] == p0
      && s[|p0|..i2 + |p2|] == message + p2
      && s[i2 + |p2|..i4 + |p4|] == path + p4
      && s[i4 + |p4|..i6 + |p6|] == number + p6
  {
  }

  /**
    The wire format round-trips: a diagnostic written with the decimal text
    of any `uint` line number parses back into its message, path and number.
   */
  lemma ParseWellFormedDiagnostic(message: string, path: string, line: uint32, rest: string)
    requires DelimiterFree(message, Part2)
    requires DelimiterFree(path, Part4)
    requires Esc !in DiagnosticLine(message, path, FormatNat(line), rest)
    ensures ProcessErrorString(Some(DiagnosticLine(message, path, FormatNat(line), rest)))
         == ParsedLine(Some(DiagnosticLine(message, path, FormatNat(line), rest)), Some(path), line, Some(message), false)
  {
    var s := DiagnosticLine(message, path, FormatNat(line), rest);
    StripWithoutEscape(s);
    DigitsAreDelimiterFree(FormatNat(line), Part6);
    ParseFormatRoundTrip(line);
    MatchDiagnosticLine(message, path, FormatNat(line), rest);
  }

  /**
    A line number that uint.Parse rejects is caught: no error escapes, the
    exception is reported, the text and path already extracted are kept and
    the line number stays 0.
   */
  lemma ParseMalformedNumber(message: string, path: string, number: string, rest: string)
    requires DelimiterFree(message, Part2)
    requires DelimiterFree(path, Part4)
    requires DelimiterFree(number, Part6)
    requires ParseUInt(number).None?
    requires Esc !in DiagnosticLine(message, path, number, rest)
    ensures ProcessErrorString(Some(DiagnosticLine(message, path, number, rest)))
         == ParsedLine(Some(DiagnosticLine(message, path, number, rest)), Some(path), 0, Some(message), true)
  {
    StripWithoutEscape(DiagnosticLine(message, path, number, rest));
    MatchDiagnosticLine(message, path, number, rest);
  }

  /** Colour sequences inserted before the first ESC do not change what is parsed. */
  lemma ParseIgnoresColour(a: string, digits: string, b: string)
    requires Esc !in a
    requires |digits| > 0 && AllDigits(digits)
    ensures ProcessErrorString(Some(a + Sgr(digits) + b)) == ProcessErrorString(Some(a + b))
  {
    StripIgnoresInsertedSgr(a, digits, b);
  }

  // ---------------------------------------------------------------------------
  // Routing of one standard-error line (the ErrorDataReceived handler)

  /** What reaches the Output window. */
  datatype SinkEvent =
    | WriteLine(text: string)
    | AddTaskItem(output: string, text: string, filePath: string, lineNumber: uint32)
    | ExceptionReport

  /**
    The branch after the parse: a task item when the parsed path is
    non-empty and `existingFiles` (what File.Exists accepts) holds it, a
    plain "ERR: " line otherwise, after the exception report of the parse
    when there was one.
   */
  function Route(p: ParsedLine, existingFiles: set<string>): (events: seq<SinkEvent>)
    requires p.line.Some?
    requires p.filePath.Some? <==> p.text.Some?
    ensures 0 < |events| <= 2
    ensures events[..|events| - 1] == if p.exceptionLogged then [ExceptionReport] else []
    ensures events[|events| - 1].AddTaskItem? <==>
      p.filePath.Some? && p.filePath.value != [] && p.filePath.value in existingFiles
    ensures events[|events| - 1].AddTaskItem? ==>
      events[|events| - 1] == AddTaskItem("ERR: " + p.line.value, p.text.value, p.filePath.value, p.lineNumber)
    ensures !events[|events| - 1].AddTaskItem? ==> events[|events| - 1] == WriteLine("ERR: " + p.line.value)
  {
    var report := if p.exceptionLogged then [ExceptionReport] else [];
    var output := "ERR: " + p.line.value;
    if p.filePath.Some? && p.filePath.value != [] && p.filePath.value in existingFiles then
      report + [AddTaskItem(output, p.text.value, p.filePath.value, p.lineNumber)]
    else
      report + [WriteLine(output)]
  }

  /** One line from the command's standard error: null is ignored; otherwise it is parsed and routed. */
  function HandleErrorData(data: Option<string>, existingFiles: set<string>): (events: seq<SinkEvent>)
    ensures data.None? ==> events == []
    ensures data.Some? ==>
      var p := ProcessErrorString(data);
      && 0 < |events| <= 2
      && (events[..|events| - 1] == if p.exceptionLogged then [ExceptionReport] else [])
      && (events[|events| - 1].AddTaskItem? <==>
           p.filePath.Some? && p.filePath.value != [] && p.filePath.value in existingFiles)
      && (events[|events| - 1].AddTaskItem? ==>
           events[|events| - 1] == AddTaskItem("ERR: " + Strip(data.value), p.text.value, p.filePath.value, p.lineNumber))
      && (!events[|events| - 1].AddTaskItem? ==> events[|events| - 1] == WriteLine("ERR: " + Strip(data.value)))
  {
    match data
    case None => []
    case Some(d) =>
      var p := ProcessErrorString(data);
      assert p.line == Some(Strip(d));
      Route(p, existingFiles)
  }

  // ---------------------------------------------------------------------------
  // Worked lines

  /** A LESS compiler diagnostic yields its message, its file and its line number. */
  lemma ParseLessDiagnostic()
    ensures
      var line := DiagnosticLine("Unexpected token", "C:\\proj\\style.less", "42", "7");
      ProcessErrorString(Some(line)) == ParsedLine(Some(line), Some("C:\\proj\\style.less"), 42, Some("Unexpected token"), false)
  {
    assert FormatNat(42) == "42";
    LessDiagnosticFieldsAreDelimiterFree();
    ParseWellFormedDiagnostic("Unexpected token", "C:\\proj\\style.less", 42, "7");
  }

  lemma LessDiagnosticFieldsAreDelimiterFree()
    ensures DelimiterFree("Unexpected token", Part2)
    ensures DelimiterFree("C:\\proj\\style.less", Part4)
    ensures Esc !in DiagnosticLine("Unexpected token", "C:\\proj\\style.less", "42", "7")
  {
    DelimiterFreeBySecondChar("Unexpected token", Part2);
    DelimiterFreeBySecondChar("C:\\proj\\style.less", Part4);
  }

  /**
    A well-formed line whose number field does not parse: the exception is
    reported, and the line still becomes a task item, at line 0, when its
    file exists, and a plain line when it does not.
   */
  lemma RouteMalformedNumber(message: string, path: string, number: string, rest: string, existingFiles: set<string>)
    requires DelimiterFree(message, Part2)
    requires DelimiterFree(path, Part4) && path != []
    requires DelimiterFree(number, Part6)
    requires ParseUInt(number).None?
    requires Esc !in DiagnosticLine(message, path, number, rest)
    ensures
      var line := DiagnosticLine(message, path, number, rest);
      HandleErrorData(Some(line), existingFiles)
        == [ExceptionReport,
            if path in existingFiles then AddTaskItem("ERR: " + line, message, path, 0) else WriteLine("ERR: " + line)]
  {
    var line := DiagnosticLine(message, path, number, rest);
    ParseMalformedNumber(message, path, number, rest);
    StripWithoutEscape(line);
  }
}
