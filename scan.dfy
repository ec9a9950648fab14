/** The argument parse of `command_flash`: `sscanf (shell_state.input,
    "flash %i", &arg)`, reduced to whether it converts one integer and which.

    `%i` reads an optionally signed integer the way `strtol` does with base 0
    (section 7.21.6.2 of ISO/IEC 9899:2011 for the directive, section 7.22.1.4
    for the subject sequence): leading white space is skipped, a `0x` or `0X`
    prefix selects hexadecimal, a leading `0` octal, anything else decimal. The
    input item is the longest prefix of a valid number, and a prefix such as
    "-" or "0x" that is not itself a number is a matching failure. */
module Scan {
  import opened Shell

  /** The characters `isspace` accepts in the "C" locale: space, and \t \n \v \f \r. */
  predicate IsSpace(c: char)
  {
    c == ' ' || '\t' <= c <= '\r'
  }

  /** The value of `c` as a hexadecimal digit, or 16 when it is none. */
  function DigitValue(c: char): (v: nat)
    ensures v <= 16
  {
    if '0' <= c <= '9' then c as int - '0' as int
    else if 'a' <= c <= 'f' then c as int - 'a' as int + 10
    else if 'A' <= c <= 'F' then c as int - 'A' as int + 10
    else 16
  }

  predicate IsDigitIn(c: char, base: nat)
  {
    DigitValue(c) < base
  }

  /** The input with its leading white space removed. */
  function SkipSpace(s: string): (r: string)
    ensures |r| <= |s| && r == s[|s| - |r|..]
    ensures r == [] || !IsSpace(r[0])
    ensures forall i :: 0 <= i < |s| - |r| ==> IsSpace(s[i])
  {
    if s != [] && IsSpace(s[0]) then SkipSpace(s[1..]) else s
  }

  /** The length of the longest prefix of `s` made of digits of `base`. */
  function DigitRun(s: string, base: nat): (n: nat)
    ensures n <= |s|
    ensures forall i :: 0 <= i < n ==> IsDigitIn(s[i], base)
    ensures n < |s| ==> !IsDigitIn(s[n], base)
  {
    if s != [] && IsDigitIn(s[0], base) then 1 + DigitRun(s[1..], base) else 0
  }

  /** The value of a digit string in `base`, most significant digit first. */
  function ValueIn(s: string, base: nat): int
  {
    if s == [] then 0 else ValueIn(s[..|s| - 1], base) * base + DigitValue(s[|s| - 1])
  }

  /** The magnitude an unsigned subject sequence converts to, if any. */
  function ScanMagnitude(u: string): Option<int>
  {
    if |u| >= 2 && u[0] == '0' && (u[1] == 'x' || u[1] == 'X') then
      var n := DigitRun(u[2..], 16);
      if n == 0 then None else Some(ValueIn(u[2..][..n], 16))
    else if |u| >= 1 && u[0] == '0' then
      Some(ValueIn(u[..DigitRun(u, 8)], 8))
    else
      var n := DigitRun(u, 10);
      if n == 0 then None else Some(ValueIn(u[..n], 10))
  }

  /** One `%i` conversion at the start of `s`: Some(value) when it succeeds. */
  function ScanInt(s: string): Option<int>
  {
    ScanSubject(SkipSpace(s))
  }

  /** The conversion of an optionally signed subject sequence. */
  function ScanSubject(t: string): Option<int>
  {
    var signed := |t| > 0 && (t[0] == '-' || t[0] == '+');
    var magnitude := ScanMagnitude(if signed then t[1..] else t);
    match magnitude
    case None => None
    case Some(v) => Some(if signed && t[0] == '-' then -v else v)
  }

  /** `sscanf (line, "flash %i", &arg) == 1`, with the value stored in `arg`.
      The literal "flash" must open the line; the blank in the format matches
      any amount of white space, none included. */
  function ScanFlash(line: string): (r: Option<int>)
    ensures r.Some? ==> |line| >= 5 && line[..5] == "flash"
  {
    if |line| >= 5 && line[..5] == "flash" then ScanInt(line[5..]) else None
  }

  /** The decimal digits of `n`, without leading zeros. */
  function Decimal(n: nat): (r: string)
    ensures |r| > 0
    ensures forall i :: 0 <= i < |r| ==> IsDigitIn(r[i], 10)
    ensures n > 0 ==> r[0] != '0'
  {
    if n < 10 then ['0' + n as char] else Decimal(n / 10) + ['0' + (n % 10) as char]
  }

  /** `n` as printf's `%i` would print it. */
  function Signed(n: int): string
  {
    if n < 0 then "-" + Decimal(-n) else Decimal(n)
  }

  lemma {:induction false} DecimalValue(n: nat)
    ensures ValueIn(Decimal(n), 10) == n
  {
    if n >= 10 {
      var d := Decimal(n);
      assert d[..|d| - 1] == Decimal(n / 10);
      DecimalValue(n / 10);
    }
  }

  /** A digit string followed by a non-digit is read up to its end. */
  lemma {:induction false} DigitRunStopsAt(a: string, rest: string, base: nat)
    requires forall i :: 0 <= i < |a| ==> IsDigitIn(a[i], base)
    requires rest == [] || !IsDigitIn(rest[0], base)
    ensures DigitRun(a + rest, base) == |a|
  {
    if a != [] {
      assert (a + rest)[1..] == a[1..] + rest;
      DigitRunStopsAt(a[1..], rest, base);
    } else {
      assert a + rest == rest;
    }
  }

  /** An unsigned decimal numeral followed by nothing or white space converts
      to its value: zero through the octal branch, anything else as decimal. */
  lemma MagnitudeOfDecimal(m: nat, rest: string)
    requires rest == [] || IsSpace(rest[0])
    ensures ScanMagnitude(Decimal(m) + rest) == Some(m)
  {
    var u := Decimal(m) + rest;
    assert rest == [] || !IsDigitIn(rest[0], 16);
    DecimalValue(m);
    if m == 0 {
      assert Decimal(m) == "0";
      DigitRunStopsAt("0", rest, 8);
      assert u[..DigitRun(u, 8)] == "0";
    } else {
      assert u[0] == Decimal(m)[0];
      DigitRunStopsAt(Decimal(m), rest, 10);
      assert u[..DigitRun(u, 10)] == Decimal(m);
    }
  }

  lemma SkipSpaceAtNumber(s: string)
    requires s == [] || !IsSpace(s[0])
    ensures SkipSpace(s) == s
  {
  }

  lemma ScanIntAfterBlank(c: char, s: string)
    requires IsSpace(c)
    ensures ScanInt([c] + s) == ScanInt(s)
  {
    assert ([c] + s)[1..] == s;
    assert SkipSpace([c] + s) == SkipSpace(s);
  }

  /** A minus sign in front of a magnitude negates it. */
  lemma SubjectMinus(u: string, v: int)
    requires ScanMagnitude(u) == Some(v)
    ensures ScanSubject("-" + u) == Some(-v)
  {
    var t := "-" + u;
    assert t[0] == '-' && t[1..] == u;
  }

  /** A subject without a sign is read as an unsigned magnitude. */
  lemma SubjectUnsigned(t: string)
    requires t != [] && t[0] != '-' && t[0] != '+'
    ensures ScanSubject(t) == ScanMagnitude(t)
  {
  }

  /** A numeral starts with a digit, so neither with white space nor with a sign. */
  lemma NumeralStart(m: nat, rest: string)
    ensures var u := Decimal(m) + rest;
            u != [] && IsDigitIn(u[0], 10) && !IsSpace(u[0]) && u[0] != '-' && u[0] != '+'
  {
    var u := Decimal(m) + rest;
    assert u[0] == Decimal(m)[0];
  }

  lemma SubjectNegative(m: nat, rest: string)
    requires m > 0
    requires rest == [] || IsSpace(rest[0])
    ensures ScanSubject("-" + (Decimal(m) + rest)) == Some(-(m as int))
  {
    MagnitudeOfDecimal(m, rest);
    SubjectMinus(Decimal(m) + rest, m);
  }

  lemma SubjectNonNegative(m: nat, rest: string)
    requires rest == [] || IsSpace(rest[0])
    ensures ScanSubject(Decimal(m) + rest) == Some(m)
  {
    NumeralStart(m, rest);
    SubjectUnsigned(Decimal(m) + rest);
    MagnitudeOfDecimal(m, rest);
  }

  /** Leading white space aside, `%i` reads the subject sequence. */
  lemma ScanIntAtSubject(s: string)
    requires s == [] || !IsSpace(s[0])
    ensures ScanInt(s) == ScanSubject(s)
  {
    SkipSpaceAtNumber(s);
  }

  /** A printed integer followed by nothing or white space converts back to itself. */
  lemma ScanIntSigned(n: int, rest: string)
    requires rest == [] || IsSpace(rest[0])
    ensures ScanInt(Signed(n) + rest) == Some(n)
  {
    if n < 0 {
      ScanIntNegative(n, rest);
    } else {
      ScanIntNonNegative(n, rest);
    }
  }

  lemma ScanIntNegative(n: int, rest: string)
    requires n < 0
    requires rest == [] || IsSpace(rest[0])
    ensures ScanInt(Signed(n) + rest) == Some(n)
  {
    NegativeText(n, rest);
    ScanIntAtSubject("-" + (Decimal(-n) + rest));
    SubjectNegative(-n, rest);
  }

  /** A negative number prints as a minus sign and the numeral of its magnitude. */
  lemma NegativeText(n: int, rest: string)
    requires n < 0
    ensures Signed(n) + rest == "-" + (Decimal(-n) + rest)
    ensures ("-" + (Decimal(-n) + rest))[0] == '-'
  {
  }

  lemma ScanIntNonNegative(n: int, rest: string)
    requires n >= 0
    requires rest == [] || IsSpace(rest[0])
    ensures ScanInt(Signed(n) + rest) == Some(n)
  {
    assert Signed(n) == Decimal(n);
    NumeralStart(n, rest);
    ScanIntAtSubject(Decimal(n) + rest);
    SubjectNonNegative(n, rest);
  }

  /** Reading back what was printed: the line "flash N", followed by nothing or
      by white space, converts to exactly N. */
  lemma ScanFlashSigned(n: int, rest: string)
    requires rest == [] || IsSpace(rest[0])
    ensures ScanFlash("flash " + Signed(n) + rest) == Some(n)
  {
    var tail := Signed(n) + rest;
    assert "flash " + Signed(n) + rest == "flash" + ([' '] + tail);
    ScanFlashTail([' '] + tail);
    ScanIntAfterBlank(' ', tail);
    ScanIntSigned(n, rest);
  }

  lemma LiteralPrefix(word: string, s: string)
    requires |word| == 5
    ensures (word + s)[..5] == word && (word + s)[5..] == s
  {
  }

  /** A line that does not open with "flash", or has nothing after it that
      starts a number, converts nothing. */
  lemma ScanFlashRejects(line: string)
    requires |line| < 5 || line[..5] != "flash" || forall i :: 5 <= i < |line| ==> IsSpace(line[i])
    ensures ScanFlash(line) == None
  {
  }

  /** After the literal "flash", the line is read as one `%i` conversion. */
  lemma ScanFlashTail(rest: string)
    ensures ScanFlash("flash" + rest) == ScanInt(rest)
  {
    LiteralPrefix("flash", rest);
  }

  /** A subject that starts with neither white space nor a sign is read as
      an unsigned magnitude. */
  lemma ScanIntUnsigned(t: string)
    requires t != [] && !IsSpace(t[0]) && t[0] != '-' && t[0] != '+'
    ensures ScanInt(t) == ScanMagnitude(t)
  {
    ScanIntAtSubject(t);
    SubjectUnsigned(t);
  }

  /** "flash", one blank and an unsigned numeral: the numeral is the argument. */
  lemma ScanFlashSpaced(t: string)
    requires t != [] && !IsSpace(t[0]) && t[0] != '-' && t[0] != '+'
    ensures ScanFlash("flash " + t) == ScanMagnitude(t)
  {
    assert "flash " + t == "flash" + ([' '] + t);
    ScanFlashTail([' '] + t);
    ScanIntAfterBlank(' ', t);
    ScanIntUnsigned(t);
  }

  /** A word where the number should be converts nothing. */
  lemma ScanFlashWord()
    ensures ScanFlash("flash abc") == None
  {
    var t := "abc";
    assert "flash abc" == "flash " + t;
    ScanFlashSpaced(t);
    MagnitudeWord();
  }

  lemma MagnitudeWord()
    ensures ScanMagnitude("abc") == None
  {
    var t := "abc";
    assert DigitRun(t, 10) == 0;
  }

  /** `%i` reads a hexadecimal argument. */
  lemma ScanFlashHex()
    ensures ScanFlash("flash 0x1F") == Some(31)
  {
    var t := "0x1F";
    assert "flash 0x1F" == "flash " + t;
    ScanFlashSpaced(t);
    MagnitudeHex();
  }

  lemma MagnitudeHex()
    ensures ScanMagnitude("0x1F") == Some(31)
  {
    var t := "0x1F";
    var h := t[2..];
    assert h == "1F";
    assert DigitRun(h, 16) == 2;
    assert h[..2] == h;
    assert ValueIn(h, 16) == ValueIn("1", 16) * 16 + 15;
  }

  /** `%i` reads a leading zero as octal. */
  lemma ScanFlashOctal()
    ensures ScanFlash("flash 010") == Some(8)
  {
    var t := "010";
    assert "flash 010" == "flash " + t;
    ScanFlashSpaced(t);
    MagnitudeOctal();
  }

  lemma MagnitudeOctal()
    ensures ScanMagnitude("010") == Some(8)
  {
    var t := "010";
    assert DigitRun(t, 8) == 3;
    assert t[..3] == t;
    assert t[..2] == "01" && "01"[..1] == "0" && "0"[..0] == [];
    assert ValueIn(t, 8) == ValueIn("01", 8) * 8;
    assert ValueIn("01", 8) == ValueIn("0", 8) * 8 + 1;
  }
}
