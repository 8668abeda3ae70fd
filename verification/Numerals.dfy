/** What strtol, atoi and atoll read, said of the text itself: a numeral is a
    positional number whose digits are places in "0123456789abcdef", letter case
    aside. */
module Numerals {
  import opened CString
  import opened CNumber

  const HEX_DIGITS := "0123456789abcdef"

  /** The place of a byte among the digits, 16 when it is none. */
  function Position(c: char): (i: nat)
    ensures i <= 16
  {
    Find(ToLower(c), HEX_DIGITS)
  }

  predicate IsNumeral(d: string, base: Base) {
    d != "" && forall k | 0 <= k < |d| :: Position(d[k]) < base
  }

  /** The number that a numeral stands for, the last digit being the units. */
  function Value(d: string, base: Base): nat {
    if d == "" then 0
    else
      var tens := Value(d[..|d| - 1], base);
      (if base == 10 then 10 * tens else 16 * tens) + Position(d[|d| - 1])
  }

  lemma DigitAt(i: nat)
    requires i < 16
    ensures HEX_DIGITS[i] as int == if i < 10 then '0' as int + i else 'a' as int + i - 10
  {
  }

  lemma PositionAt(c: char, i: nat)
    requires i < 16 && ToLower(c) == HEX_DIGITS[i]
    ensures Position(c) == i
  {
    forall k: nat | k < i
      ensures HEX_DIGITS[k] != HEX_DIGITS[i]
    {
      DigitAt(k);
      DigitAt(i);
    }
    FindUnique(ToLower(c), HEX_DIGITS, i);
  }

  /** The digits of a base are the bytes at its first places. */
  lemma PositionIs(c: char, base: Base)
    ensures DigitValue(c, base) == if Position(c) < base then Position(c) else -1
  {
    var i := Position(c);
    if i < 16 {
      DigitAt(i);
    }
    var v := DigitValue(c, 16);
    if v >= 0 {
      DigitAt(v);
      PositionAt(c, v);
    }
  }

  lemma NumeralDigits(d: string, base: Base)
    requires IsNumeral(d, base)
    ensures forall k | 0 <= k < |d| :: DigitValue(d[k], base) >= 0
  {
    forall k | 0 <= k < |d|
      ensures DigitValue(d[k], base) >= 0
    {
      PositionIs(d[k], base);
    }
  }

  lemma {:induction false} ReadsValue(d: string, base: Base)
    requires forall k | 0 <= k < |d| :: Position(d[k]) < base
    ensures ReadDigits(d, base, 0) == Value(d, base)
  {
    if d != "" {
      var front, x := d[..|d| - 1], d[|d| - 1];
      ReadsValue(front, base);
      assert d == front + [x];
      if front != "" {
        NumeralDigits(front, base);
      }
      ReadDigitsAppend(front, [x], base, 0);
      PositionIs(x, base);
      assert [x][1..] == "";
    }
  }

  /** Nothing, or a byte that is no digit. */
  predicate NoDigit(rest: string, base: Base) {
    rest == "" || Position(rest[0]) >= base
  }

  /** The digits at the front of a text, whatever follows them. */
  lemma ReadsFront(d: string, base: Base, rest: string)
    requires IsNumeral(d, base) && NoDigit(rest, base)
    ensures ReadDigits(d + rest, base, 0) == Value(d, base)
  {
    NumeralDigits(d, base);
    ReadDigitsAppend(d, rest, base, 0);
    ReadsValue(d, base);
    if rest != "" {
      PositionIs(rest[0], base);
    }
  }

  predicate AllSpaces(s: string) {
    forall k | 0 <= k < |s| :: IsSpace(s[k])
  }

  lemma {:induction false} SpacesSkipped(sp: string, t: string)
    requires AllSpaces(sp) && (t == "" || !IsSpace(t[0]))
    ensures SkipSpaces(sp + t) == t
  {
    if sp == "" {
      assert sp + t == t;
    } else {
      assert (sp + t)[1..] == sp[1..] + t;
      SpacesSkipped(sp[1..], t);
    }
  }

  /** Into the range of a 64-bit long. */
  function Clamp(v: int): (r: int)
    ensures LONG_MIN <= r <= LONG_MAX
  {
    if v < LONG_MIN then LONG_MIN else if v > LONG_MAX then LONG_MAX else v
  }

  predicate IsSign(s: string) {
    s == "" || s == "+" || s == "-"
  }

  /** The prefix of base 16, or none. */
  predicate IsPrefix(s: string, base: Base) {
    s == "" || (base == 16 && (s == "0x" || s == "0X"))
  }

  /** strtol reads white space, a sign, in base 16 perhaps a prefix, and a numeral,
      up to the first byte that is no digit. */
  lemma StrtolReads(sp: string, sign: string, prefix: string, d: string, base: Base, rest: string)
    requires AllSpaces(sp) && IsSign(sign) && IsPrefix(prefix, base) && IsNumeral(d, base) && NoDigit(rest, base)
    requires prefix == "" && base == 16 ==> rest == "" || (rest[0] != 'x' && rest[0] != 'X')
    ensures var v: int := Value(d, base);
            Strtol(sp + (sign + (prefix + (d + rest))), base) == Clamp(if sign == "-" then -v else v)
  {
    hide ReadDigits, SkipSpaces, SkipPrefix, Value, Position, NoDigit, AllSpaces;
    var u := prefix + (d + rest);
    var t := sign + u;
    PrefixSkipped(prefix, d, base, rest);
    SpacesSkipped(sp, t);
    if sign == "" {
      assert t == u;
    } else {
      assert t[1..] == u;
    }
    ReadsFront(d, base, rest);
  }

  lemma PrefixSkipped(prefix: string, d: string, base: Base, rest: string)
    requires IsPrefix(prefix, base) && IsNumeral(d, base)
    requires prefix == "" && base == 16 ==> rest == "" || (rest[0] != 'x' && rest[0] != 'X')
    ensures SkipPrefix(prefix + (d + rest), base) == d + rest
    ensures prefix + (d + rest) != "" && var c := (prefix + (d + rest))[0]; c != '-' && c != '+' && !IsSpace(c)
  {
    NumeralDigits(d, base);
    var s := d + rest;
    assert s[0] == d[0];
    if prefix == "" {
      assert "" + s == s;
      if |d| > 1 {
        assert s[1] == d[1] && DigitValue(d[1], base) >= 0;
      } else if rest != "" {
        assert s[1] == rest[0];
      }
    } else {
      assert (prefix + s)[2..] == s;
    }
  }

  /** Without a digit the result is 0. */
  lemma StrtolOfNothing(sp: string, sign: string, rest: string, base: Base)
    requires AllSpaces(sp) && IsSign(sign) && NoDigit(rest, base)
    requires rest == "" || (!IsSpace(rest[0]) && (sign == "" ==> rest[0] != '-' && rest[0] != '+'))
    ensures Strtol(sp + (sign + rest), base) == 0
  {
    var t := sign + rest;
    SpacesSkipped(sp, t);
    if rest != "" {
      PositionIs(rest[0], base);
    }
    if sign == "" {
      assert t == rest;
    } else {
      assert t[1..] == rest;
    }
  }

  function Zeros(n: nat): string {
    seq(n, _ => '0')
  }

  lemma ZeroPosition()
    ensures Position('0') == 0
  {
    DigitAt(0);
    PositionAt('0', 0);
  }

  /** Leading zeros count for nothing. */
  lemma {:induction false} LeadingZeros(n: nat, d: string, base: Base)
    requires IsNumeral(d, base)
    ensures IsNumeral(Zeros(n) + d, base) && Value(Zeros(n) + d, base) == Value(d, base)
  {
    ZeroPosition();
    ZerosValue(n, d, base);
  }

  lemma {:induction false} ZerosValue(n: nat, d: string, base: Base)
    ensures Value(Zeros(n) + d, base) == Value(d, base)
    decreases n + |d|
  {
    ZeroPosition();
    var s := Zeros(n) + d;
    if d != "" {
      assert s[..|s| - 1] == Zeros(n) + d[..|d| - 1];
      ZerosValue(n, d[..|d| - 1], base);
    } else if n > 0 {
      assert s[..|s| - 1] == Zeros(n - 1) + "";
      ZerosValue(n - 1, "", base);
    } else {
      assert s == "";
    }
  }

  /** Letter case counts for nothing. */
  lemma {:induction false} CaseAside(d: string, e: string, base: Base)
    requires Lower(d) == Lower(e)
    ensures Value(d, base) == Value(e, base)
    ensures IsNumeral(d, base) <==> IsNumeral(e, base)
    decreases |d|
  {
    assert |Lower(d)| == |d| && |Lower(e)| == |e|;
    assert forall k | 0 <= k < |d| :: Lower(d)[k] == ToLower(d[k]) && Lower(e)[k] == ToLower(e[k]);
    assert forall k | 0 <= k < |d| :: Position(d[k]) == Position(e[k]);
    if d != "" {
      assert Lower(d[..|d| - 1]) == Lower(e[..|d| - 1]);
      CaseAside(d[..|d| - 1], e[..|d| - 1], base);
    }
  }

  /** "%d" and "%x" write the numeral of the number. */
  lemma {:induction false} PrintIsNumeral(n: nat, base: Base)
    ensures IsNumeral(Print(n, base), base) && Value(Print(n, base), base) == n
  {
    var p := Print(n, base);
    PrintIsDigits(n, base);
    forall k | 0 <= k < |p|
      ensures Position(p[k]) < base
    {
      PositionIs(p[k], base);
    }
    ReadPrinted(n, base);
    ReadsValue(p, base);
  }

  /** A size in hexadecimal: in either letter case, with any leading zeros. */
  lemma StrtolOfHex(n: nat, zeros: nat, d: string, rest: string)
    requires n <= LONG_MAX && Lower(d) == Lower(Print(n, 16))
    requires rest == "" || (Position(rest[0]) >= 16 && rest[0] != 'x' && rest[0] != 'X')
    ensures Strtol(Zeros(zeros) + d + rest, 16) == n
  {
    PrintIsNumeral(n, 16);
    CaseAside(d, Print(n, 16), 16);
    LeadingZeros(zeros, d, 16);
    var s := Zeros(zeros) + d;
    StrtolReads("", "", "", s, 16, rest);
    assert "" + ("" + ("" + (s + rest))) == s + rest;
  }

  /** atoi is the number modulo 2^32 in the range of an int, atoll as size_t the one
      modulo 2^64. */
  lemma AtoiWraps(s: string)
    ensures -INT_MAX - 1 <= Atoi(s) <= INT_MAX && (Strtol(s, 10) - Atoi(s)) % 0x1_0000_0000 == 0
    ensures AtoSize(s) < 0x1_0000_0000_0000_0000 && (Strtol(s, 10) - AtoSize(s)) % 0x1_0000_0000_0000_0000 == 0
  {
    hide Strtol;
  }
}
