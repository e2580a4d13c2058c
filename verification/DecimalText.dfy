/**
 Decimal numbers as fprintf writes them and fscanf reads them back: sections 7.21.6.1 and
 7.21.6.2 of ISO/IEC 9899:2011. A conversion skips white space, takes an optional sign and
 the longest run of digits, and leaves the rest of the input unread.
 */
module DecimalText {

  predicate IsSpace(ch: char) {
    ch in [' ', '\t', '\n', 11 as char, 12 as char, '\r']
  }

  predicate IsDigit(ch: char) {
    '0' <= ch <= '9'
  }

  function Digit(d: nat): (ch: char)
    requires d < 10
    ensures IsDigit(ch)
  {
    ('0' as int + d) as char
  }

  // ---------- Printing ----------

  function PrintNat(n: nat): (s: string)
    ensures |s| > 0 && forall i :: 0 <= i < |s| ==> IsDigit(s[i])
  {
    if n < 10 then [Digit(n)] else PrintNat(n / 10) + [Digit(n % 10)]
  }

  function Print(n: int): string {
    if n < 0 then "-" + PrintNat(-n) else PrintNat(n)
  }

  // ---------- Scanning ----------

  datatype Scan = Scan(ok: bool, value: int, rest: string)

  function SkipSpace(s: string): (r: string)
    ensures |r| <= |s|
  {
    if s != [] && IsSpace(s[0]) then SkipSpace(s[1..]) else s
  }

  /** How many digits the input starts with. */
  function LeadingDigits(s: string): (n: nat)
    ensures n <= |s| && forall i :: 0 <= i < n ==> IsDigit(s[i])
  {
    if s != [] && IsDigit(s[0]) then
      var n := LeadingDigits(s[1..]);
      assert forall i :: 1 <= i < n + 1 ==> s[i] == s[1..][i - 1];
      n + 1
    else 0
  }

  function Value(digits: string): nat
    requires forall i :: 0 <= i < |digits| ==> IsDigit(digits[i])
  {
    if digits == [] then 0
    else
      var n := |digits| - 1;
      assert IsDigit(digits[n]);
      Value(digits[..n]) * 10 + (digits[n] as int - '0' as int)
  }

  /** The digits of a conversion, whose sign has been read. */
  function ScanDigits(s: string, negative: bool): (r: Scan)
    ensures |r.rest| <= |s| && (r.ok ==> |r.rest| < |s|)
  {
    var n := LeadingDigits(s);
    if n == 0 then Scan(false, 0, s)
    else
      var v: int := Value(s[..n]);
      Scan(true, if negative then -v else v, s[n..])
  }

  /** One numeric conversion. A failing one has still consumed white space and a sign. */
  function ScanInt(s: string): (r: Scan)
    ensures |r.rest| <= |s| && (r.ok ==> |r.rest| < |s|)
  {
    var t := SkipSpace(s);
    if t != [] && (t[0] == '-' || t[0] == '+') then ScanDigits(t[1..], t[0] == '-')
    else ScanDigits(t, false)
  }

  // ---------- Round trip ----------

  lemma {:induction false} LeadingDigitsOf(digits: string, tail: string)
    requires forall i :: 0 <= i < |digits| ==> IsDigit(digits[i])
    requires tail == [] || !IsDigit(tail[0])
    ensures LeadingDigits(digits + tail) == |digits|
  {
    if digits == [] {
      assert digits + tail == tail;
    } else {
      assert (digits + tail)[1..] == digits[1..] + tail;
      LeadingDigitsOf(digits[1..], tail);
    }
  }

  lemma {:induction false} ValueOfPrinted(n: nat)
    ensures Value(PrintNat(n)) == n
  {
    if n >= 10 {
      ValueOfPrinted(n / 10);
      var s := PrintNat(n);
      assert s[..|s| - 1] == PrintNat(n / 10);
    }
  }

  lemma ScanPrintedDigits(n: nat, tail: string, negative: bool)
    requires tail == [] || !IsDigit(tail[0])
    ensures ScanDigits(PrintNat(n) + tail, negative) == Scan(true, if negative then 0 - n else n, tail)
  {
    var digits := PrintNat(n);
    LeadingDigitsOf(digits, tail);
    assert (digits + tail)[..|digits|] == digits && (digits + tail)[|digits|..] == tail;
    ValueOfPrinted(n);
  }

  /** Scanning a printed number gives it back and stops right behind it. */
  lemma ScanPrinted(n: int, tail: string)
    requires tail == [] || !IsDigit(tail[0])
    ensures ScanInt(Print(n) + tail) == Scan(true, n, tail)
  {
    hide ScanDigits, LeadingDigits, Value;
    if n < 0 {
      var s := Print(n) + tail;
      assert s[0] == '-' && s[1..] == PrintNat(-n) + tail;
      assert SkipSpace(s) == s;
      ScanPrintedDigits(-n, tail, true);
    } else {
      var s := PrintNat(n) + tail;
      assert IsDigit(PrintNat(n)[0]) && s[0] == PrintNat(n)[0];
      assert SkipSpace(s) == s;
      ScanPrintedDigits(n, tail, false);
    }
  }

  // ---------- The printed form ----------

  function WithoutSign(s: string): string {
    if s != [] && s[0] == '-' then s[1..] else s
  }

  /** Only digits behind an optional minus sign, and no zero in front of another digit. */
  ghost predicate Canonical(s: string) {
    var digits := WithoutSign(s);
    && digits != [] && (forall i :: 0 <= i < |digits| ==> IsDigit(digits[i]))
    && (digits[0] == '0' ==> s == "0")
  }

  lemma {:induction false} NoLeadingZero(n: nat)
    ensures PrintNat(n)[0] == '0' <==> n == 0
  {
    if n >= 10 {
      NoLeadingZero(n / 10);
    }
  }

  lemma {:induction false} PrintedValue(digits: string)
    requires digits != [] && forall i :: 0 <= i < |digits| ==> IsDigit(digits[i])
    requires digits[0] == '0' ==> |digits| == 1
    ensures PrintNat(Value(digits)) == digits
    ensures digits[0] != '0' ==> Value(digits) > 0
  {
    var n := |digits| - 1;
    if n > 0 {
      PrintedValue(digits[..n]);
      assert digits == digits[..n] + [digits[n]];
    }
  }

  lemma PrintIsCanonical(n: int)
    ensures Canonical(Print(n))
  {
    NoLeadingZero(if n < 0 then -n else n);
  }

  lemma CanonicalIsPrint(n: int, s: string)
    requires Canonical(s) && ScanInt(s) == Scan(true, n, "")
    ensures s == Print(n)
  {
    hide ScanInt, ScanDigits, Value;
    var digits := WithoutSign(s);
    PrintedValue(digits);
    DigitsThenRest(digits, "", s[0] == '-');
    assert digits + "" == digits && IsDigit(digits[0]);
    if s[0] == '-' {
      assert s == "-" + digits;
      ScanSigned('-', digits);
    } else {
      ScanUnsigned(s);
    }
  }

  /** The text of a number is the one canonical text that is scanned as it. */
  lemma PrintExactlyWhen(n: int, s: string)
    ensures s == Print(n) <==> Canonical(s) && ScanInt(s) == Scan(true, n, "")
  {
    hide ScanInt, Canonical, Print;
    ScanPrinted(n, "");
    assert Print(n) + "" == Print(n);
    PrintIsCanonical(n);
    if Canonical(s) && ScanInt(s) == Scan(true, n, "") {
      CanonicalIsPrint(n, s);
    }
  }

  /** How the text is built: a minus sign in front, and each further digit behind. */
  lemma PrintedDigits(n: nat, d: nat)
    requires d < 10
    ensures Print(d) == [('0' as int + d) as char]
    ensures n > 0 ==> Print(10 * n + d) == Print(n) + Print(d)
    ensures n > 0 ==> Print(0 - n) == "-" + Print(n)
  {
    assert (10 * n + d) / 10 == n && (10 * n + d) % 10 == d;
  }

  // ---------- Any input ----------

  lemma {:induction false} SkipSpaceOf(space: string, s: string)
    requires forall i :: 0 <= i < |space| ==> IsSpace(space[i])
    requires s == [] || !IsSpace(s[0])
    ensures SkipSpace(space + s) == s
  {
    if space == [] {
      assert space + s == s;
    } else {
      assert (space + s)[1..] == space[1..] + s;
      SkipSpaceOf(space[1..], s);
    }
  }

  lemma DigitsThenRest(digits: string, tail: string, negative: bool)
    requires forall i :: 0 <= i < |digits| ==> IsDigit(digits[i])
    requires tail == [] || !IsDigit(tail[0])
    ensures ScanDigits(digits + tail, negative) ==
            if digits == "" then Scan(false, 0, tail)
            else Scan(true, if negative then 0 - Value(digits) else Value(digits), tail)
  {
    LeadingDigitsOf(digits, tail);
    assert (digits + tail)[..|digits|] == digits && (digits + tail)[|digits|..] == tail;
  }

  lemma ScanBehindSpace(space: string, s: string)
    requires forall i :: 0 <= i < |space| ==> IsSpace(space[i])
    requires s == [] || !IsSpace(s[0])
    ensures ScanInt(space + s) == ScanInt(s)
  {
    hide ScanDigits;
    SkipSpaceOf(space, s);
    SkipSpaceOf("", s);
    assert "" + s == s;
  }

  lemma ScanSigned(sign: char, s: string)
    requires sign == '-' || sign == '+'
    ensures ScanInt([sign] + s) == ScanDigits(s, sign == '-')
  {
    hide ScanDigits;
    var t := [sign] + s;
    assert SkipSpace(t) == t && t[1..] == s;
  }

  lemma ScanUnsigned(s: string)
    requires s == [] || (!IsSpace(s[0]) && s[0] != '-' && s[0] != '+')
    ensures ScanInt(s) == ScanDigits(s, false)
  {
    hide ScanDigits;
  }

  datatype Sign = Unsigned | Minus | Plus

  function SignText(sign: Sign): string {
    match sign case Unsigned => "" case Minus => "-" case Plus => "+"
  }

  lemma ScanNumber(sign: Sign, s: string)
    requires sign.Unsigned? ==> s == [] || (!IsSpace(s[0]) && s[0] != '-' && s[0] != '+')
    ensures ScanInt(SignText(sign) + s) == ScanDigits(s, sign.Minus?)
    ensures var t := SignText(sign) + s; t == [] || !IsSpace(t[0])
  {
    hide ScanInt, ScanDigits;
    match sign
    case Unsigned =>
      assert "" + s == s;
      ScanUnsigned(s);
    case Minus => ScanSigned('-', s);
    case Plus => ScanSigned('+', s);
  }

  /**
   A conversion of any input, which is white space, a sign or none, digits and the rest: it
   succeeds exactly if there is a digit, and stops behind the digits.
   */
  lemma ScanAnything(space: string, sign: Sign, digits: string, tail: string)
    requires forall i :: 0 <= i < |space| ==> IsSpace(space[i])
    requires forall i :: 0 <= i < |digits| ==> IsDigit(digits[i])
    requires tail == [] || !IsDigit(tail[0])
    requires sign.Unsigned? && digits == [] ==>
               tail == [] || (!IsSpace(tail[0]) && tail[0] != '-' && tail[0] != '+')
    ensures ScanInt(space + (SignText(sign) + (digits + tail))) ==
            if digits == [] then Scan(false, 0, tail)
            else Scan(true, if sign.Minus? then 0 - Value(digits) else Value(digits), tail)
  {
    hide ScanInt, ScanDigits, SkipSpace, Value, SignText;
    DigitsThenRest(digits, tail, sign.Minus?);
    assert if digits == [] then digits + tail == tail else IsDigit((digits + tail)[0]);
    ScanNumber(sign, digits + tail);
    ScanBehindSpace(space, SignText(sign) + (digits + tail));
  }

  // ---------- Lines ----------

  /** A text file with these lines. */
  function Text(lines: seq<string>): string {
    if lines == [] then "" else lines[0] + "\n" + Text(lines[1..])
  }

  ghost predicate OneLine(line: string) {
    '\n' !in line
  }

  lemma FirstLineOf(a: string, x: string, b: string, y: string)
    requires OneLine(a) && OneLine(b) && a + "\n" + x == b + "\n" + y
    ensures a == b && x == y
  {
    var s := a + "\n" + x;
    assert s[|a|] == '\n' && s[|b|] == '\n';
    assert forall i :: 0 <= i < |a| ==> s[i] == a[i];
    assert forall i :: 0 <= i < |b| ==> s[i] == b[i];
    assert |a| == |b|;
    assert s[..|a|] == a && s[..|b|] == b;
    assert s[|a| + 1..] == x && s[|b| + 1..] == y;
  }

  /** A file has only one list of lines. */
  lemma {:induction false} TextDeterminesLines(a: seq<string>, b: seq<string>)
    requires forall i :: 0 <= i < |a| ==> OneLine(a[i])
    requires forall i :: 0 <= i < |b| ==> OneLine(b[i])
    ensures Text(a) == Text(b) <==> a == b
  {
    if Text(a) == Text(b) && a != [] && b != [] {
      FirstLineOf(a[0], Text(a[1..]), b[0], Text(b[1..]));
      TextDeterminesLines(a[1..], b[1..]);
      assert a == [a[0]] + a[1..] && b == [b[0]] + b[1..];
    }
  }

  /** One number, or two with a space between them, stay on a line. */
  lemma NumbersOnOneLine(m: int, n: int)
    ensures OneLine(Print(m)) && OneLine(Print(m) + " " + Print(n))
  {
    PrintExactlyWhen(m, Print(m));
    PrintExactlyWhen(n, Print(n));
    CanonicalOneLine(Print(m));
    CanonicalOneLine(Print(n));
  }

  lemma CanonicalOneLine(s: string)
    requires Canonical(s)
    ensures OneLine(s)
  {
    forall i | 0 <= i < |s| ensures s[i] != '\n' {
      var digits := WithoutSign(s);
      if s[0] == '-' && i > 0 {
        assert s[i] == digits[i - 1];
      } else if s[0] != '-' {
        assert s[i] == digits[i];
      }
    }
  }

  /** White space in front of a number makes no difference. */
  lemma ScanAfterSpace(ch: char, s: string)
    requires IsSpace(ch)
    ensures ScanInt([ch] + s) == ScanInt(s)
  {
  }

  /** A sign without digits is used up by the conversion that fails on it. */
  lemma ScanLoneSign(s: string)
    requires s != [] && !IsDigit(s[0])
    ensures ScanInt("+" + s) == Scan(false, 0, s)
  {
    ScanSigned('+', s);
  }

  lemma ScanOfNothing()
    ensures ScanInt("") == Scan(false, 0, "")
  {
  }
}
