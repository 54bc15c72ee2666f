// Decimal digits as the C library prints and reads them: sprintf("%d"), atoi and
// the first-byte-pos of an HTTP byte range (section 2.1 of RFC 7233).
module DecimalText {
  import opened Common

  predicate IsDigit(c: char) {
    '0' <= c <= '9'
  }

  function DigitChar(d: nat): (c: char)
    requires d < 10
    ensures IsDigit(c) && DigitValue(c) == d
  {
    '0' + (d as char)
  }

  function DigitValue(c: char): (d: nat)
    requires IsDigit(c)
    ensures d < 10
  {
    c as int - '0' as int
  }

  // What sprintf prints for "%d" on a non-negative value.
  function Decimal(n: nat): string {
    if n < 10 then [DigitChar(n)] else Decimal(n / 10) + [DigitChar(n % 10)]
  }

  function LeadingDigits(s: string): (r: string)
    ensures r <= s
  {
    if s != [] && IsDigit(s[0]) then [s[0]] + LeadingDigits(s[1..]) else []
  }

  function NumberOf(digits: string): nat
    requires forall k :: 0 <= k < |digits| ==> IsDigit(digits[k])
  {
    if digits == [] then 0 else 10 * NumberOf(digits[..|digits| - 1]) + DigitValue(digits[|digits| - 1])
  }

  lemma {:induction false} LeadingDigitsAreDigits(s: string)
    ensures forall k :: 0 <= k < |LeadingDigits(s)| ==> IsDigit(LeadingDigits(s)[k])
  {
    if s != [] && IsDigit(s[0]) {
      LeadingDigitsAreDigits(s[1..]);
    }
  }

  function LeadingNumber(s: string): nat {
    LeadingDigitsAreDigits(s);
    NumberOf(LeadingDigits(s))
  }

  predicate IsSpace(c: char) {
    c == ' ' || '\t' <= c <= '\r'
  }

  const INT_LIMIT := 0x8000_0000
  const LONG_LIMIT := 0x8000_0000_0000_0000

  // Assigning a long to an int keeps its low 32 bits.
  function ToInt(x: int): int {
    (x + INT_LIMIT) % (2 * INT_LIMIT) - INT_LIMIT
  }

  lemma ToIntKeepsIff(x: int)
    requires 0 <= x < LONG_LIMIT
    ensures ToInt(x) == x <==> x < INT_LIMIT
  {
  }

  // The signed number strtol reads: optional white space, an optional sign, digits.
  function SignedNumber(s: string): int {
    if s == [] then 0
    else if IsSpace(s[0]) then SignedNumber(s[1..])
    else if s[0] == '-' then -(LeadingNumber(s[1..]) as int)
    else if s[0] == '+' then LeadingNumber(s[1..])
    else LeadingNumber(s)
  }

  // strtol stays within a long.
  function Strtol(s: string): int {
    var x := SignedNumber(s);
    if x >= LONG_LIMIT then LONG_LIMIT - 1 else if x < -LONG_LIMIT then -LONG_LIMIT else x
  }

  // atoi is strtol assigned to an int.
  function Atoi(s: string): int {
    ToInt(Strtol(s))
  }

  // The start N of an open range "N-"; anything else is not such a range.
  function RangeStart(s: string): Option<nat> {
    var digits := LeadingDigits(s);
    if digits != [] && s == digits + "-" then Some(LeadingNumber(s)) else None
  }

  lemma {:induction false} DecimalIsDigits(n: nat)
    ensures Decimal(n) != []
    ensures forall k :: 0 <= k < |Decimal(n)| ==> IsDigit(Decimal(n)[k])
    ensures NumberOf(Decimal(n)) == n
  {
    if n >= 10 {
      DecimalIsDigits(n / 10);
      var d := Decimal(n);
      assert d[..|d| - 1] == Decimal(n / 10);
    }
  }

  lemma {:induction false} LeadingDigitsOf(digits: string, rest: string)
    requires forall k :: 0 <= k < |digits| ==> IsDigit(digits[k])
    requires rest == [] || !IsDigit(rest[0])
    ensures LeadingDigits(digits + rest) == digits
  {
    if digits == [] {
      assert digits + rest == rest;
    } else {
      assert (digits + rest)[1..] == digits[1..] + rest;
      LeadingDigitsOf(digits[1..], rest);
    }
  }

  // The printed range is read back as the same number by the server, and by atoi
  // exactly when an int holds it.
  lemma PrintedRangeReadsBack(n: nat)
    ensures RangeStart(Decimal(n) + "-") == Some(n)
    ensures Atoi(Decimal(n) + "-") == n <==> n < INT_LIMIT
  {
    DecimalIsDigits(n);
    LeadingDigitsOf(Decimal(n), "-");
    RangeStartIsAtoi(Decimal(n) + "-");
  }

  // On a string of the form "N-" the server and atoi read the same number exactly when
  // an int holds it.
  lemma RangeStartIsAtoi(s: string)
    requires RangeStart(s).Some?
    ensures Atoi(s) == RangeStart(s).value <==> RangeStart(s).value < INT_LIMIT
  {
    LeadingDigitsAreDigits(s);
    var n := RangeStart(s).value;
    assert Strtol(s) == if n >= LONG_LIMIT then LONG_LIMIT - 1 else n;
    ToIntKeepsIff(if n >= LONG_LIMIT then LONG_LIMIT - 1 else n);
  }

  // A printed number below 10^k has at most k digits.
  function PowerOfTen(k: nat): nat {
    if k == 0 then 1 else 10 * PowerOfTen(k - 1)
  }

  lemma {:induction false} DecimalLength(n: nat, k: nat)
    requires k > 0 && n < PowerOfTen(k)
    ensures |Decimal(n)| <= k
  {
    if n >= 10 {
      DecimalLength(n / 10, k - 1);
    }
  }

  lemma IntDecimalLength(n: nat)
    requires n < INT_LIMIT
    ensures |Decimal(n)| <= 10
  {
    assert PowerOfTen(4) == 10000;
    assert PowerOfTen(7) == 10000000;
    assert PowerOfTen(10) == 10000000000;
    DecimalLength(n, 10);
  }

  lemma {:induction false} SignedBehindBlanks(blanks: string, s: string)
    requires forall k :: 0 <= k < |blanks| ==> blanks[k] in " \t\n\r" || blanks[k] as int in {11, 12}
    ensures SignedNumber(blanks + s) == SignedNumber(s)
  {
    if blanks == [] {
      assert blanks + s == s;
    } else {
      assert (blanks + s)[1..] == blanks[1..] + s;
      assert IsSpace(blanks[0]);
      SignedBehindBlanks(blanks[1..], s);
    }
  }

  lemma AtoiBehindBlanks(blanks: string, s: string)
    requires forall k :: 0 <= k < |blanks| ==> blanks[k] in " \t\n\r" || blanks[k] as int in {11, 12}
    requires -0x8000_0000 <= SignedNumber(s) < 0x8000_0000
    ensures Atoi(blanks + s) == SignedNumber(s)
  {
    SignedBehindBlanks(blanks, s);
    assert Strtol(blanks + s) == SignedNumber(s);
    ToIntKeeps(SignedNumber(s));
  }

  lemma ToIntKeeps(x: int)
    requires -0x8000_0000 <= x < 0x8000_0000
    ensures ToInt(x) == x
  {
  }

  lemma SignedReads(n: nat, rest: string)
    requires rest == "" || !('0' <= rest[0] <= '9')
    ensures var text := Decimal(n) + rest;
      SignedNumber(text) == SignedNumber("+" + text) == n && SignedNumber("-" + text) == 0 - n as int
  {
    var text := Decimal(n) + rest;
    DecimalIsDigits(n);
    LeadingDigitsOf(Decimal(n), rest);
    assert LeadingNumber(text) == n;
    assert IsDigit(Decimal(n)[0]) && text[0] == Decimal(n)[0];
    assert ("+" + text)[1..] == text && ("-" + text)[1..] == text;
  }

  // atoi reads a printed number behind blanks and a sign, up to the first other
  // character.
  lemma AtoiReads(blanks: string, n: nat, rest: string)
    requires n < 0x8000_0000
    requires forall k :: 0 <= k < |blanks| ==> blanks[k] in " \t\n\r" || blanks[k] as int in {11, 12}
    requires rest == "" || !('0' <= rest[0] <= '9')
    ensures var text := Decimal(n) + rest;
      Atoi(blanks + text) == Atoi(blanks + ("+" + text)) == n && Atoi(blanks + ("-" + text)) == 0 - n as int
  {
    var text := Decimal(n) + rest;
    SignedReads(n, rest);
    AtoiBehindBlanks(blanks, text);
    AtoiBehindBlanks(blanks, "+" + text);
    AtoiBehindBlanks(blanks, "-" + text);
  }

  // A number an int cannot hold comes out negative, up to the next multiple of 2^32, and
  // one a long cannot hold as -1.
  lemma AtoiWraps(n: nat)
    ensures 0x8000_0000 <= n < 0x1_0000_0000 ==> Atoi(Decimal(n) + "-") == n as int - 0x1_0000_0000
    ensures n >= 0x8000_0000_0000_0000 ==> Atoi(Decimal(n) + "-") == -1
  {
    SignedReads(n, "-");
    assert Strtol(Decimal(n) + "-") == if n < 0x8000_0000_0000_0000 then n else 0x7FFF_FFFF_FFFF_FFFF;
    assert ToInt(0x7FFF_FFFF_FFFF_FFFF) == -1;
  }

  // The digits are decimal ones, the last one printed last.
  lemma DecimalAppends(n: nat, d: nat)
    requires d < 10
    ensures Decimal(d) == [(48 + d) as char]
    ensures n > 0 ==> Decimal(10 * n + d) == Decimal(n) + [(48 + d) as char]
  {
    assert (10 * n + d) / 10 == n && (10 * n + d) % 10 == d;
  }
}
