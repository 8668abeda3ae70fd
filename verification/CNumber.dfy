/** Number parsing of the C library (strtol, atoi, atoll, with 64-bit long) and
    the printing it undoes ("%d", "%ld", "%x"). */
module CNumber {
  import opened CString

  const LONG_MAX: int := 0x7fff_ffff_ffff_ffff
  const LONG_MIN: int := -0x8000_0000_0000_0000
  const INT_MAX: int := 0x7fff_ffff

  type Base = b: int | b == 10 || b == 16 witness 10

  /** The value of a digit, or -1. */
  function DigitValue(c: char, base: Base): int {
    if IsDigit(c) then c as int - '0' as int
    else if base == 16 && 'a' <= c <= 'f' then c as int - 'a' as int + 10
    else if base == 16 && 'A' <= c <= 'F' then c as int - 'A' as int + 10
    else -1
  }

  function PushDigit(acc: nat, d: nat, base: Base): nat {
    (if base == 10 then 10 * acc else 16 * acc) + d
  }

  /** The digits at the front of `s`, read after the value `acc`. */
  function ReadDigits(s: string, base: Base, acc: nat): nat {
    if s == "" || DigitValue(s[0], base) < 0 then acc
    else ReadDigits(s[1..], base, PushDigit(acc, DigitValue(s[0], base), base))
  }

  function SkipSpaces(s: string): string {
    if s != "" && IsSpace(s[0]) then SkipSpaces(s[1..]) else s
  }

  /** In base 16 a "0x" in front of a digit is skipped. */
  function SkipPrefix(s: string, base: Base): string {
    if base == 16 && |s| > 2 && s[0] == '0' && (s[1] == 'x' || s[1] == 'X') && DigitValue(s[2], base) >= 0
    then s[2..] else s
  }

  /** strtol: white space, a sign, digits; out of range values saturate. */
  function Strtol(s: string, base: Base): int {
    var t := SkipSpaces(s);
    var negative := t != "" && t[0] == '-';
    var u := if t != "" && (t[0] == '-' || t[0] == '+') then t[1..] else t;
    var v: int := ReadDigits(SkipPrefix(u, base), base, 0);
    if negative then (if -v < LONG_MIN then LONG_MIN else -v)
    else if v > LONG_MAX then LONG_MAX else v
  }

  /** atoi: strtol cut down to 32 bits, two's complement. */
  function Atoi(s: string): int {
    var r := Strtol(s, 10) % 0x1_0000_0000;
    if r > INT_MAX then r - 0x1_0000_0000 else r
  }

  /** atoll, converted to size_t. */
  function AtoSize(s: string): nat {
    Strtol(s, 10) % 0x1_0000_0000_0000_0000
  }

  function DigitChar(d: nat): char
    requires d < 16
  {
    if d < 10 then ('0' as int + d) as char else ('a' as int + d - 10) as char
  }

  /** "%d" or "%x" of a number that is not negative. */
  function Print(n: nat, base: Base): (r: string)
    ensures r != ""
  {
    if n < base then [DigitChar(n)] else Print(n / base, base) + [DigitChar(n % base)]
  }

  lemma DigitRoundTrip(d: nat, base: Base)
    requires d < base
    ensures DigitValue(DigitChar(d), base) == d
  {
  }

  /** Every byte printed is a digit, and the first is '0' only for zero. */
  lemma {:induction false} PrintIsDigits(n: nat, base: Base)
    ensures forall i | 0 <= i < |Print(n, base)| :: DigitValue(Print(n, base)[i], base) >= 0
    ensures Print(n, base)[0] == '0' <==> n == 0
  {
    if n < base {
      DigitRoundTrip(n, base);
    } else {
      PrintIsDigits(n / base, base);
      DigitRoundTrip(n % base, base);
    }
  }

  lemma {:induction false} ReadDigitsAppend(a: string, b: string, base: Base, acc: nat)
    requires forall i | 0 <= i < |a| :: DigitValue(a[i], base) >= 0
    ensures ReadDigits(a + b, base, acc) == ReadDigits(b, base, ReadDigits(a, base, acc))
  {
    if a == "" {
      assert a + b == b;
    } else {
      assert (a + b)[1..] == a[1..] + b;
      ReadDigitsAppend(a[1..], b, base, PushDigit(acc, DigitValue(a[0], base), base));
    }
  }

  lemma {:induction false} ReadPrinted(n: nat, base: Base)
    ensures ReadDigits(Print(n, base), base, 0) == n
  {
    if n < base {
      DigitRoundTrip(n, base);
      assert [DigitChar(n)][1..] == "";
    } else {
      var d := [DigitChar(n % base)];
      ReadPrinted(n / base, base);
      PrintIsDigits(n / base, base);
      DigitRoundTrip(n % base, base);
      ReadDigitsAppend(Print(n / base, base), d, base, 0);
      assert d[1..] == "";
      assert PushDigit(n / base, n % base, base) == n;
    }
  }

  /** Text that ends a number: nothing, or a byte that is neither a digit nor, in
      base 16, the 'x' of a prefix. */
  predicate EndsNumber(rest: string, base: Base) {
    rest == "" || (DigitValue(rest[0], base) < 0 && (base == 16 ==> rest[0] != 'x' && rest[0] != 'X'))
  }

  /** Reading what was printed gives the number back, whatever follows it. */
  lemma StrtolOfPrint(n: nat, base: Base, rest: string)
    requires n <= LONG_MAX && EndsNumber(rest, base)
    ensures Strtol(Print(n, base) + rest, base) == n
  {
    var p := Print(n, base);
    var s := p + rest;
    PrintIsDigits(n, base);
    assert s[0] == p[0];
    assert DigitValue(s[0], base) >= 0;
    assert SkipSpaces(s) == s;
    assert SkipPrefix(s, base) == s by {
      if |p| > 1 {
        assert s[1] == p[1];
      } else if |s| > 1 {
        assert s[1] == rest[0];
      }
    }
    ReadDigitsAppend(p, rest, base, 0);
    ReadPrinted(n, base);
  }

  /** atoi undoes "%d" for an int that is not negative. */
  lemma AtoiOfPrint(n: nat, rest: string)
    requires n <= INT_MAX && EndsNumber(rest, 10)
    ensures Atoi(Print(n, 10) + rest) == n
  {
    StrtolOfPrint(n, 10, rest);
    SmallMod(n, 0x1_0000_0000);
  }

  /** atoll undoes "%ld" for a size that fits a long. */
  lemma AtoSizeOfPrint(n: nat, rest: string)
    requires n <= LONG_MAX && EndsNumber(rest, 10)
    ensures AtoSize(Print(n, 10) + rest) == n
  {
    StrtolOfPrint(n, 10, rest);
    SmallMod(n, 0x1_0000_0000_0000_0000);
  }

  lemma SmallMod(n: nat, m: nat)
    requires n < m
    ensures n % m == n
  {
  }

  /** A byte that ends a decimal number wherever it stands. */
  predicate EndsDecimal(c: char) {
    !IsDigit(c) && !IsSpace(c) && c != '-' && c != '+'
  }

  lemma {:induction false} ReadDigitsStops(a: string, c: char, y: string, z: string, acc: nat)
    requires EndsDecimal(c)
    ensures ReadDigits(a + ([c] + y), 10, acc) == ReadDigits(a + ([c] + z), 10, acc)
  {
    if a == "" {
      assert a + ([c] + y) == [c] + y && a + ([c] + z) == [c] + z;
    } else {
      assert (a + ([c] + y))[1..] == a[1..] + ([c] + y) && (a + ([c] + z))[1..] == a[1..] + ([c] + z);
      if DigitValue(a[0], 10) >= 0 {
        ReadDigitsStops(a[1..], c, y, z, PushDigit(acc, DigitValue(a[0], 10), 10));
      }
    }
  }

  lemma {:induction false} SkipSpacesStops(a: string, c: char, y: string)
    requires EndsDecimal(c)
    ensures SkipSpaces(a + ([c] + y)) == SkipSpaces(a) + ([c] + y)
  {
    if a == "" {
      assert a + ([c] + y) == [c] + y;
    } else {
      assert (a + ([c] + y))[1..] == a[1..] + ([c] + y);
      SkipSpacesStops(a[1..], c, y);
    }
  }

  /** Behind such a byte nothing counts. */
  lemma StrtolStops(a: string, c: char, y: string, z: string)
    requires EndsDecimal(c)
    ensures Strtol(a + ([c] + y), 10) == Strtol(a + ([c] + z), 10)
  {
    hide ReadDigits, SkipSpaces;
    SkipSpacesStops(a, c, y);
    SkipSpacesStops(a, c, z);
    var b := SkipSpaces(a);
    ReadDigitsStops(b, c, y, z, 0);
    if b != "" {
      assert (b + ([c] + y))[1..] == b[1..] + ([c] + y) && (b + ([c] + z))[1..] == b[1..] + ([c] + z);
      ReadDigitsStops(b[1..], c, y, z, 0);
    }
  }
}
