/** The base64 encoder and decoder against section 4 of RFC 4648. */
module Base64 {
  import opened CString

  type Byte = bv8

  const DIGITS := "0123456789"
  const ALPHABET := UPPER + LOWER + DIGITS + "+/"

  /** is_base64. */
  predicate IsBase64(c: char) {
    IsUpper(c) || IsLower(c) || IsDigit(c) || c == '+' || c == '/'
  }

  /** A 6-bit value in the alphabet. */
  function Char(v: Byte): char
    requires v < 64
  {
    SymbolRange(v);
    ALPHABET[v as int]
  }

  /** The position in the alphabet, cut to an unsigned char: 255 when there is none. */
  function Lookup(c: char): Byte {
    var i := Find(c, ALPHABET);
    if i < 64 then i as bv8 else 255
  }

  lemma SymbolRange(v: Byte)
    ensures v < 64 ==> (v as int) < 64 && |ALPHABET| == 64
    ensures (v as int) as bv8 == v
  {
  }

  lemma DigitAt(i: nat)
    requires i < 10
    ensures DIGITS[i] as int == '0' as int + i
  {
  }

  /** Where a byte stands in the alphabet, or 64. */
  function Place(c: char): nat {
    if IsUpper(c) then c as int - 'A' as int
    else if IsLower(c) then 26 + c as int - 'a' as int
    else if IsDigit(c) then 52 + c as int - '0' as int
    else if c == '+' then 62
    else if c == '/' then 63
    else 64
  }

  lemma PlaceAt(i: nat)
    requires i < 64
    ensures |ALPHABET| == 64 && IsBase64(ALPHABET[i]) && Place(ALPHABET[i]) == i
  {
    if i < 26 {
      UpperAt(i);
      assert ALPHABET[i] == UPPER[i];
    } else if i < 52 {
      LowerAt(i - 26);
      assert ALPHABET[i] == LOWER[i - 26];
    } else if i < 62 {
      DigitAt(i - 52);
      assert ALPHABET[i] == DIGITS[i - 52];
    } else {
      assert ALPHABET[i] == "+/"[i - 62];
    }
  }

  lemma FindPlace(c: char)
    ensures |ALPHABET| == 64 && Find(c, ALPHABET) == Place(c)
    ensures IsBase64(c) <==> Place(c) < 64
  {
    forall i: nat | i < 64
      ensures Place(ALPHABET[i]) == i
    {
      PlaceAt(i);
    }
    if IsBase64(c) {
      PlaceAt(Place(c));
      SamePlace(c, ALPHABET[Place(c)]);
    }
    FindUnique(c, ALPHABET, Place(c));
  }

  lemma SamePlace(c: char, d: char)
    requires Place(c) == Place(d) < 64
    ensures c == d
  {
  }

  lemma LookupChar(v: Byte)
    requires v < 64
    ensures Lookup(Char(v)) == v && IsBase64(Char(v))
  {
    SymbolRange(v);
    PlaceAt(v as int);
    FindPlace(Char(v));
  }

  lemma CharLookup(c: char)
    requires IsBase64(c)
    ensures Lookup(c) < 64 && Char(Lookup(c)) == c
  {
    FindPlace(c);
    var i := Place(c);
    SmallByte(i);
    PlaceAt(i);
    SamePlace(c, ALPHABET[i]);
  }

  lemma SmallByte(i: nat)
    requires i < 64
    ensures (i as bv8) < 64 && (i as bv8) as int == i
  {
  }

  // ---------------------------------------------------------------------
  // Three bytes and four sextets

  function E0(a: Byte): (v: Byte)
    ensures v < 64
  {
    (a & 0xfc) >> 2
  }

  function E1(a: Byte, b: Byte): (v: Byte)
    ensures v < 64
  {
    ((a & 0x03) << 4) + ((b & 0xf0) >> 4)
  }

  function E2(b: Byte, c: Byte): (v: Byte)
    ensures v < 64
  {
    ((b & 0x0f) << 2) + ((c & 0xc0) >> 6)
  }

  function E3(c: Byte): (v: Byte)
    ensures v < 64
  {
    c & 0x3f
  }

  function D0(p: Byte, q: Byte): Byte {
    (p << 2) + ((q & 0x30) >> 4)
  }

  function D1(q: Byte, r: Byte): Byte {
    ((q & 0xf) << 4) + ((r & 0x3c) >> 2)
  }

  function D2(r: Byte, s: Byte): Byte {
    ((r & 0x3) << 6) + s
  }

  lemma BytesBack(a: Byte, b: Byte, c: Byte)
    ensures D0(E0(a), E1(a, b)) == a && D1(E1(a, b), E2(b, c)) == b && D2(E2(b, c), E3(c)) == c
  {
  }

  lemma SextetsBack(p: Byte, q: Byte, r: Byte, s: Byte)
    requires p < 64 && q < 64 && r < 64 && s < 64
    ensures E0(D0(p, q)) == p && E1(D0(p, q), D1(q, r)) == q && E2(D1(q, r), D2(r, s)) == r && E3(D2(r, s)) == s
    ensures E1(D0(p, q), 0) == q <==> q & 0x0f == 0
    ensures E2(D1(q, r), 0) == r <==> r & 0x03 == 0
  {
  }

  function Quad(a: Byte, b: Byte, c: Byte): (r: string)
    ensures |r| == 4
  {
    [Char(E0(a)), Char(E1(a, b)), Char(E2(b, c)), Char(E3(c))]
  }

  function Encode(x: seq<Byte>): (r: string)
    ensures |r| == 4 * ((|x| + 2) / 3)
    decreases |x|
  {
    if |x| == 0 then ""
    else if |x| == 1 then Quad(x[0], 0, 0)[..2] + "=="
    else if |x| == 2 then Quad(x[0], x[1], 0)[..3] + "="
    else Quad(x[0], x[1], x[2]) + Encode(x[3..])
  }

  function Triple(s: string): (r: seq<Byte>)
    requires |s| == 4
    ensures |r| == 3
  {
    [D0(Lookup(s[0]), Lookup(s[1])), D1(Lookup(s[1]), Lookup(s[2])), D2(Lookup(s[2]), Lookup(s[3]))]
  }

  /** The bytes of a text without padding: 8 of every 6 bits, the rest dropped. */
  function DecodeAll(s: string): (r: seq<Byte>)
    ensures |r| == 3 * |s| / 4
    decreases |s|
  {
    if |s| < 2 then []
    else if |s| == 2 then [D0(Lookup(s[0]), Lookup(s[1]))]
    else if |s| == 3 then [D0(Lookup(s[0]), Lookup(s[1])), D1(Lookup(s[1]), Lookup(s[2]))]
    else Triple(s[..4]) + DecodeAll(s[4..])
  }

  predicate AllBase64(s: string) {
    forall k | 0 <= k < |s| :: IsBase64(s[k])
  }

  /** `n` is the length of the longest front of `s` that is all alphabet. */
  predicate IsFront(s: string, n: nat) {
    n <= |s| && AllBase64(s[..n]) && (n < |s| ==> !IsBase64(s[n]))
  }

  function Front(s: string): (n: nat)
    ensures IsFront(s, n)
    decreases |s|
  {
    if s == "" || !IsBase64(s[0]) then 0
    else
      var n := Front(s[1..]);
      FrontGrows(s, n);
      n + 1
  }

  lemma FrontGrows(s: string, n: nat)
    requires s != "" && IsBase64(s[0]) && IsFront(s[1..], n)
    ensures IsFront(s, n + 1)
  {
    assert s[..n + 1] == [s[0]] + s[1..][..n];
    assert n + 1 < |s| ==> s[n + 1] == s[1..][n];
  }

  lemma FrontUnique(s: string, n: nat)
    requires IsFront(s, n)
    ensures Front(s) == n
  {
    var m := Front(s);
    assert forall k | 0 <= k < n :: s[..n][k] == s[k];
    assert forall k | 0 <= k < m :: s[..m][k] == s[k];
  }

  /** Everything behind the first byte that is not in the alphabet is ignored. */
  function Decode(s: string): (r: seq<Byte>)
    ensures |r| == 3 * Front(s) / 4
  {
    DecodeAll(s[..Front(s)])
  }

  // ---------------------------------------------------------------------
  // Round trip

  lemma QuadBack(a: Byte, b: Byte, c: Byte)
    ensures AllBase64(Quad(a, b, c)) && Triple(Quad(a, b, c)) == [a, b, c]
    ensures AllBase64(Quad(a, b, 0)[..3]) && DecodeAll(Quad(a, b, 0)[..3]) == [a, b]
    ensures AllBase64(Quad(a, 0, 0)[..2]) && DecodeAll(Quad(a, 0, 0)[..2]) == [a]
  {
    hide Char, Lookup, IsBase64, E0, E1, E2, E3, D0, D1, D2;
    LookupChar(E0(a)); LookupChar(E1(a, b)); LookupChar(E2(b, c)); LookupChar(E3(c));
    LookupChar(E1(a, 0)); LookupChar(E2(b, 0)); LookupChar(E2(0, 0)); LookupChar(E3(0));
    BytesBack(a, b, c);
    BytesBack(a, b, 0);
    BytesBack(a, 0, 0);
  }

  /** How many bytes of the code are not padding. */
  function Sextets(n: nat): nat {
    (4 * n + 2) / 3
  }

  predicate Padded(s: string, n: nat) {
    forall k | n <= k < |s| :: s[k] == '='
  }

  /** `s` is `n` alphabet bytes that decode to `x`, then padding to a multiple of 4. */
  predicate Codes(s: string, n: nat, x: seq<Byte>) {
    && n <= |s| <= n + 2 && |s| % 4 == 0
    && IsFront(s, n) && Padded(s, n)
    && DecodeAll(s[..n]) == x
  }

  lemma PadCodes(front: string, pad: string, x: seq<Byte>)
    requires AllBase64(front) && DecodeAll(front) == x && (pad == "=" || pad == "==") && (|front| + |pad|) % 4 == 0
    ensures Codes(front + pad, |front|, x)
  {
    hide DecodeAll;
    PadIsNot();
    assert (front + pad)[..|front|] == front;
  }

  lemma QuadCodes(q: string, rest: string, n: nat, y: seq<Byte>, x: seq<Byte>)
    requires |q| == 4 && AllBase64(q) && Codes(rest, n, y) && x == Triple(q) + y
    ensures Codes(q + rest, n + 4, x)
  {
    hide DecodeAll, IsBase64, Triple;
    QuadFront(q, rest, n);
    assert forall k | 4 <= k < |q + rest| :: (q + rest)[k] == rest[k - 4];
  }

  /** The code of `x` is alphabet, then padding; its alphabet part decodes to `x`. */
  lemma {:induction false} EncodeShape(x: seq<Byte>)
    ensures Codes(Encode(x), Sextets(|x|), x)
    decreases |x|
  {
    hide Char, IsBase64, Quad, DecodeAll, Codes, Triple;
    if |x| == 0 {
      NothingCodes();
    } else if |x| == 1 {
      QuadBack(x[0], 0, 0);
      PadCodes(Quad(x[0], 0, 0)[..2], "==", x);
    } else if |x| == 2 {
      QuadBack(x[0], x[1], 0);
      PadCodes(Quad(x[0], x[1], 0)[..3], "=", x);
    } else {
      QuadBack(x[0], x[1], x[2]);
      EncodeShape(x[3..]);
      assert x == [x[0], x[1], x[2]] + x[3..];
      QuadCodes(Quad(x[0], x[1], x[2]), Encode(x[3..]), Sextets(|x[3..]|), x[3..], x);
    }
  }

  lemma NothingCodes()
    ensures Codes("", 0, [])
  {
  }

  lemma PadIsNot()
    ensures !IsBase64('=')
  {
  }

  lemma QuadFront(q: string, rest: string, n: nat)
    requires |q| == 4 && AllBase64(q) && IsFront(rest, n)
    ensures IsFront(q + rest, n + 4)
    ensures DecodeAll((q + rest)[..n + 4]) == Triple(q) + DecodeAll(rest[..n])
  {
    hide IsBase64, Lookup, D0, D1, D2;
    var s := (q + rest)[..n + 4];
    assert s == q + rest[..n];
    assert s[..4] == q && s[4..] == rest[..n];
    assert forall k | 0 <= k < n + 4 :: s[k] == if k < 4 then q[k] else rest[..n][k - 4];
  }

  /** Round trip: what was encoded is decoded again. */
  lemma RoundTrip(x: seq<Byte>)
    ensures Decode(Encode(x)) == x
  {
    EncodeShape(x);
    FrontUnique(Encode(x), Sextets(|x|));
  }

  /** Two byte strings with the same code are the same. */
  lemma EncodeInjective(x: seq<Byte>, y: seq<Byte>)
    requires Encode(x) == Encode(y)
    ensures x == y
  {
    RoundTrip(x);
    RoundTrip(y);
  }

  // ---------------------------------------------------------------------
  // Blocks

  /** Whole groups of three bytes are encoded one by one. */
  lemma {:induction false} EncodeAppend(a: seq<Byte>, b: seq<Byte>)
    requires |a| % 3 == 0
    ensures Encode(a + b) == Encode(a) + Encode(b)
    decreases |a|
  {
    hide Char, E0, E1, E2, E3;
    if a == [] {
      assert a + b == b;
    } else {
      assert (a + b)[3..] == a[3..] + b;
      EncodeAppend(a[3..], b);
    }
  }

  /** Whole groups of four alphabet bytes are decoded one by one. */
  lemma {:induction false} DecodeAllAppend(a: string, b: string)
    requires |a| % 4 == 0
    ensures DecodeAll(a + b) == DecodeAll(a) + DecodeAll(b)
    decreases |a|
  {
    hide Lookup, D0, D1, D2;
    if a == "" {
      assert a + b == b;
    } else {
      assert (a + b)[..4] == a[..4] && (a + b)[4..] == a[4..] + b;
      DecodeAllAppend(a[4..], b);
    }
  }

  lemma DecodeAppend(a: string, b: string)
    requires |a| % 4 == 0 && AllBase64(a)
    ensures Decode(a + b) == Decode(a) + Decode(b)
  {
    hide DecodeAll, IsBase64;
    var n := Front(b);
    assert (a + b)[..|a| + n] == a + b[..n] && a[..|a|] == a;
    FrontUnique(a, |a|);
    assert forall k | 0 <= k < |a| + n :: (a + b)[k] == if k < |a| then a[k] else b[..n][k - |a|];
    FrontUnique(a + b, |a| + n);
    DecodeAllAppend(a, b[..n]);
  }

  // ---------------------------------------------------------------------
  // Bit by bit

  /** Bit `j` of a byte, the most significant one first. */
  predicate BitOf(b: Byte, j: nat)
    requires j < 8
  {
    var mask: Byte :=
      if j == 0 then 0x80 else if j == 1 then 0x40 else if j == 2 then 0x20 else if j == 3 then 0x10
      else if j == 4 then 0x08 else if j == 5 then 0x04 else if j == 6 then 0x02 else 0x01;
    b & mask != 0
  }

  /** Bit `i` of the data, 0 behind its end. */
  predicate DataBit(x: seq<Byte>, i: nat) {
    i / 8 < |x| && BitOf(x[i / 8], i % 8)
  }

  /** Bit `i` of the 6-bit values that the text stands for. */
  predicate TextBit(s: string, i: nat)
    requires i / 6 < |s|
  {
    BitOf(Lookup(s[i / 6]), i % 6 + 2)
  }

  lemma SextetBits(a: Byte, b: Byte, c: Byte, j: nat)
    requires j < 6
    ensures BitOf(E0(a), j + 2) == BitOf(a, j)
    ensures BitOf(E1(a, b), j + 2) == if j < 2 then BitOf(a, j + 6) else BitOf(b, j - 2)
    ensures BitOf(E2(b, c), j + 2) == if j < 4 then BitOf(b, j + 4) else BitOf(c, j - 4)
    ensures BitOf(E3(c), j + 2) == BitOf(c, j + 2)
  {
  }

  lemma ByteBits(p: Byte, q: Byte, r: Byte, s: Byte, j: nat)
    requires j < 8 && s < 64
    ensures BitOf(D0(p, q), j) == if j < 6 then BitOf(p, j + 2) else BitOf(q, j - 4)
    ensures BitOf(D1(q, r), j) == if j < 4 then BitOf(q, j + 4) else BitOf(r, j - 2)
    ensures BitOf(D2(r, s), j) == if j < 2 then BitOf(r, j + 6) else BitOf(s, j)
  {
  }

  lemma ZeroBits(j: nat)
    requires j < 8
    ensures !BitOf(0, j)
  {
  }

  /** The code of one group, bytes that are missing taken as 0. */
  lemma QuadBits(a: Byte, b: Byte, c: Byte, i: nat)
    requires i < 24
    ensures TextBit(Quad(a, b, c), i) == BitOf(if i < 8 then a else if i < 16 then b else c, i % 8)
  {
    hide Char, Lookup, E0, E1, E2, E3, BitOf;
    LookupChar(E0(a)); LookupChar(E1(a, b)); LookupChar(E2(b, c)); LookupChar(E3(c));
    SextetBits(a, b, c, i % 6);
  }

  lemma ShiftBits(q: string, rest: string, front: seq<Byte>, x: seq<Byte>, i: nat)
    requires |q| == 4 && |front| == 3 && 24 <= i && i / 6 < |q + rest|
    ensures (i - 24) / 6 < |rest| && TextBit(q + rest, i) == TextBit(rest, i - 24)
    ensures DataBit(front + x, i) == DataBit(x, i - 24)
  {
    hide BitOf, Lookup;
  }

  lemma FrontBits(s: string, t: string, i: nat)
    requires s <= t && i / 6 < |s|
    ensures TextBit(s, i) == TextBit(t, i)
  {
  }

  /** Section 4 of RFC 4648: the 6-bit values of the code are the bits of the data
      in order, filled up with zero bits. */
  lemma {:induction false} EncodeBits(x: seq<Byte>, i: nat)
    requires i < 6 * Sextets(|x|)
    ensures i / 6 < |Encode(x)| && TextBit(Encode(x), i) == DataBit(x, i)
    decreases |x|
  {
    hide Quad, BitOf, TextBit, DataBit, Encode;
    if |x| < 3 {
      ShortBits(x, i);
    } else {
      FirstGroup(x);
      if i < 24 {
        FirstBits(x, i);
      } else {
        ShiftBits(Quad(x[0], x[1], x[2]), Encode(x[3..]), [x[0], x[1], x[2]], x[3..], i);
        EncodeBits(x[3..], i - 24);
      }
    }
  }

  lemma FirstGroup(x: seq<Byte>)
    requires |x| >= 3
    ensures Encode(x) == Quad(x[0], x[1], x[2]) + Encode(x[3..]) && x == [x[0], x[1], x[2]] + x[3..]
    ensures Sextets(|x|) == Sextets(|x[3..]|) + 4
    ensures |Encode(x)| == 4 + |Encode(x[3..])| && |Encode(x[3..])| >= Sextets(|x[3..]|)
  {
    hide Quad;
  }

  lemma FirstBits(x: seq<Byte>, i: nat)
    requires |x| >= 3 && i < 24
    ensures i / 6 < |Encode(x)| && TextBit(Encode(x), i) == DataBit(x, i)
  {
    hide Quad, BitOf, TextBit, DataBit, Encode;
    FirstGroup(x);
    QuadBits(x[0], x[1], x[2], i);
    FrontBits(Quad(x[0], x[1], x[2]), Encode(x), i);
    DataFront(x, i);
  }

  lemma DataFront(x: seq<Byte>, i: nat)
    requires |x| >= 3 && i < 24
    ensures DataBit(x, i) == BitOf(if i < 8 then x[0] else if i < 16 then x[1] else x[2], i % 8)
  {
    hide BitOf;
  }

  lemma ShortBits(x: seq<Byte>, i: nat)
    requires |x| < 3 && i < 6 * Sextets(|x|)
    ensures i / 6 < |Encode(x)| && TextBit(Encode(x), i) == DataBit(x, i)
  {
    hide Quad, BitOf, TextBit;
    ZeroBits(i % 8);
    if |x| == 1 {
      QuadBits(x[0], 0, 0, i);
      FrontBits(Quad(x[0], 0, 0)[..2], Quad(x[0], 0, 0), i);
      FrontBits(Quad(x[0], 0, 0)[..2], Encode(x), i);
    } else if |x| == 2 {
      QuadBits(x[0], x[1], 0, i);
      FrontBits(Quad(x[0], x[1], 0)[..3], Quad(x[0], x[1], 0), i);
      FrontBits(Quad(x[0], x[1], 0)[..3], Encode(x), i);
    }
  }

  /** Decoding puts the same bits into bytes. */
  lemma {:induction false} DecodeBits(s: string, i: nat)
    requires AllBase64(s) && i < 8 * |DecodeAll(s)|
    ensures i / 6 < |s| && DataBit(DecodeAll(s), i) == TextBit(s, i)
    decreases |s|
  {
    hide BitOf, Lookup, D0, D1, D2, IsBase64, TextBit, DataBit;
    if |s| < 4 || i < 24 {
      FewBits(s, i);
    } else {
      var q, rest := s[..4], s[4..];
      assert s == q + rest;
      assert forall k | 0 <= k < |rest| :: rest[k] == s[k + 4];
      ShiftBits(q, rest, Triple(q), DecodeAll(rest), i);
      DecodeBits(rest, i - 24);
    }
  }

  /** Which sextets a bit of the first three bytes comes from. */
  lemma FewBits(s: string, i: nat)
    requires AllBase64(s) && i < 8 * |DecodeAll(s)| && (|s| < 4 || i < 24)
    ensures i / 6 < |s| && DataBit(DecodeAll(s), i) == TextBit(s, i)
  {
    hide BitOf, Lookup, D0, D1, D2, IsBase64;
    var d := DecodeAll(s);
    var p := if |s| > 0 then Lookup(s[0]) else 0;
    var q := if |s| > 1 then Lookup(s[1]) else 0;
    var r := if |s| > 2 then Lookup(s[2]) else 0;
    var t := if |s| > 3 then Lookup(s[3]) else 0;
    FirstBytes(s);
    if |s| > 3 {
      CharLookup(s[3]);
    }
    ByteBits(p, q, r, t, i % 8);
    WhichBits(i);
  }

  lemma WhichBits(i: nat)
    requires i < 24
    ensures i < 6 ==> i / 6 == 0 && i / 8 == 0 && i % 8 == i % 6
    ensures 6 <= i < 8 ==> i / 6 == 1 && i / 8 == 0 && i % 8 - 4 == i % 6 + 2
    ensures 8 <= i < 12 ==> i / 6 == 1 && i / 8 == 1 && i % 8 + 4 == i % 6 + 2
    ensures 12 <= i < 16 ==> i / 6 == 2 && i / 8 == 1 && i % 8 - 2 == i % 6 + 2
    ensures 16 <= i < 18 ==> i / 6 == 2 && i / 8 == 2 && i % 8 + 6 == i % 6 + 2
    ensures 18 <= i ==> i / 6 == 3 && i / 8 == 2 && i % 8 == i % 6 + 2
  {
  }

  lemma FirstBytes(s: string)
    ensures var d := DecodeAll(s);
            && (|s| > 1 ==> |d| > 0 && d[0] == D0(Lookup(s[0]), Lookup(s[1])))
            && (|s| > 2 ==> |d| > 1 && d[1] == D1(Lookup(s[1]), Lookup(s[2])))
            && (|s| > 3 ==> |d| > 2 && d[2] == D2(Lookup(s[2]), Lookup(s[3])))
  {
    hide Lookup, D0, D1, D2;
  }

  // ---------------------------------------------------------------------
  // Canonical text

  /** Section 3.5 of RFC 4648: whole groups, padding only behind the last bits, and
      the bits that padding leaves over are zero. */
  predicate Canonical(s: string) {
    var n := Front(s);
    && s != "" && |s| % 4 == 0 && |s| <= n + 2 && Padded(s, n)
    && (|s| == n + 1 ==> Lookup(s[n - 1]) & 0x03 == 0)
    && (|s| == n + 2 ==> Lookup(s[n - 1]) & 0x0f == 0)
  }

  lemma PaddedShift(q: string, rest: string, n: nat)
    requires |q| == 4
    ensures Padded(q + rest, n + 4) <==> Padded(rest, n)
  {
    assert forall k | 4 <= k < |q + rest| :: (q + rest)[k] == rest[k - 4];
    assert forall k | 0 <= k < |rest| :: rest[k] == (q + rest)[k + 4];
  }

  lemma CanonicalGroups(q: string, rest: string)
    requires |q| == 4 && AllBase64(q) && rest != ""
    ensures Canonical(q + rest) <==> Canonical(rest)
    ensures Front(q + rest) == 4 + Front(rest)
  {
    hide IsBase64, Lookup, Front, Padded, DecodeAll, Triple;
    var n, s := Front(rest), q + rest;
    QuadFront(q, rest, n);
    FrontUnique(s, n + 4);
    PaddedShift(q, rest, n);
    if |rest| % 4 == 0 && |rest| <= n + 2 {
      assert s[n + 3] == rest[n - 1];
    }
  }

  lemma QuadOfTriple(q: string)
    requires |q| == 4 && AllBase64(q)
    ensures var t := Triple(q); Quad(t[0], t[1], t[2]) == q
  {
    hide IsBase64, Char, Lookup, E0, E1, E2, E3, D0, D1, D2;
    CharLookup(q[0]); CharLookup(q[1]); CharLookup(q[2]); CharLookup(q[3]);
    SextetsBack(Lookup(q[0]), Lookup(q[1]), Lookup(q[2]), Lookup(q[3]));
  }

  lemma LastGroup(s: string)
    requires Canonical(s) && |s| == 4
    ensures Encode(Decode(s)) == s
  {
    hide IsBase64, Char, Lookup, E0, E1, E2, E3, D0, D1, D2;
    var n := Front(s);
    assert forall k | 0 <= k < n :: s[..n][k] == s[k];
    CharLookup(s[0]); CharLookup(s[1]);
    var p, q := Lookup(s[0]), Lookup(s[1]);
    if n == 4 {
      assert s[..4] == s;
      QuadOfTriple(s);
      assert Decode(s) == Triple(s) + [];
    } else if n == 3 {
      CharLookup(s[2]);
      SextetsBack(p, q, Lookup(s[2]), 0);
    } else {
      SextetsBack(p, q, 0, 0);
    }
  }

  /** Canonical inverse: decoding canonical text and encoding the result gives the
      text back. */
  lemma {:induction false} EncodeOfDecode(s: string)
    requires Canonical(s)
    ensures Encode(Decode(s)) == s
    decreases |s|
  {
    hide IsBase64, Lookup, Quad, Triple, Canonical, DecodeAll, Front;
    CanonicalWhole(s);
    if |s| == 4 {
      LastGroup(s);
    } else {
      var q, rest := s[..4], s[4..];
      assert s == q + rest;
      CanonicalGroups(q, rest);
      EncodeOfDecode(rest);
      DecodeAppend(q, rest);
      DecodeQuad(q);
      QuadOfTriple(q);
      EncodeQuad(Triple(q), Decode(rest));
    }
  }

  lemma CanonicalWhole(s: string)
    requires Canonical(s)
    ensures |s| >= 4 && (|s| > 4 ==> AllBase64(s[..4]))
  {
    hide IsBase64, Lookup, Padded, Front;
    var n := Front(s);
    assert n >= 4 ==> s[..4] == s[..n][..4];
  }

  lemma DecodeQuad(q: string)
    requires |q| == 4 && AllBase64(q)
    ensures Decode(q) == Triple(q)
  {
    hide IsBase64, Triple;
    assert q[..4] == q;
    FrontUnique(q, 4);
    assert Triple(q) + [] == Triple(q);
  }

  lemma EncodeQuad(t: seq<Byte>, y: seq<Byte>)
    requires |t| == 3
    ensures Encode(t + y) == Quad(t[0], t[1], t[2]) + Encode(y)
  {
    assert (t + y)[3..] == y;
  }

  lemma {:induction false} EncodeCanonical(x: seq<Byte>)
    requires x != []
    ensures Canonical(Encode(x))
    decreases |x|
  {
    hide IsBase64, Lookup, Quad, Canonical;
    if |x| <= 3 {
      ShortCanonical(x);
    } else {
      QuadBack(x[0], x[1], x[2]);
      EncodeCanonical(x[3..]);
      CanonicalGroups(Quad(x[0], x[1], x[2]), Encode(x[3..]));
    }
  }

  lemma LeftOver(a: Byte, b: Byte)
    ensures E1(a, 0) & 0x0f == 0 && E2(b, 0) & 0x03 == 0
  {
  }

  lemma ShortCanonical(x: seq<Byte>)
    requires 0 < |x| <= 3
    ensures Canonical(Encode(x))
  {
    hide IsBase64, Char, Lookup, E0, E1, E2, E3, DecodeAll;
    EncodeShape(x);
    FrontUnique(Encode(x), Sextets(|x|));
    var b := if |x| > 1 then x[1] else 0;
    LeftOver(x[0], b);
    LookupChar(E1(x[0], 0));
    LookupChar(E2(b, 0));
  }

  /** The canonical texts are exactly the codes of non-empty data. */
  lemma CanonicalExactly(s: string)
    ensures Canonical(s) <==> exists x :: x != [] && Encode(x) == s
  {
    hide Canonical, Encode, Decode;
    if Canonical(s) {
      EncodeOfDecode(s);
      NotEmpty(s);
      assert Decode(s) != [] && Encode(Decode(s)) == s;
    }
    forall x | x != [] && Encode(x) == s
      ensures Canonical(s)
    {
      EncodeCanonical(x);
    }
  }

  lemma NotEmpty(s: string)
    requires Canonical(s)
    ensures Decode(s) != []
  {
  }

  // ---------------------------------------------------------------------
  // The loops

  /** Four 6-bit values from three bytes. */
  method Split(charArray3: array<Byte>, charArray4: array<Byte>)
    requires charArray3.Length == 3 && charArray4.Length == 4 && charArray3 != charArray4
    modifies charArray4
    ensures charArray4[0] == E0(charArray3[0]) && charArray4[1] == E1(charArray3[0], charArray3[1])
    ensures charArray4[2] == E2(charArray3[1], charArray3[2]) && charArray4[3] == E3(charArray3[2])
  {
    charArray4[0] := (charArray3[0] & 0xfc) >> 2;
    charArray4[1] := ((charArray3[0] & 0x03) << 4) + ((charArray3[1] & 0xf0) >> 4);
    charArray4[2] := ((charArray3[1] & 0x0f) << 2) + ((charArray3[2] & 0xc0) >> 6);
    charArray4[3] := charArray3[2] & 0x3f;
  }

  /** The first `n` of them as text, behind `ret`. */
  method Put(charArray4: array<Byte>, n: nat, ret: string, ghost a: Byte, ghost b: Byte, ghost c: Byte)
    returns (r: string)
    requires charArray4.Length == 4 && n <= 4
    requires charArray4[0] == E0(a) && charArray4[1] == E1(a, b)
    requires charArray4[2] == E2(b, c) && charArray4[3] == E3(c)
    ensures r == ret + Quad(a, b, c)[..n]
  {
    hide E0, E1, E2, E3, Char;
    r := ret;
    for i := 0 to n
      invariant r == ret + Quad(a, b, c)[..i]
    {
      assert Quad(a, b, c)[..i + 1] == Quad(a, b, c)[..i] + [Quad(a, b, c)[i]];
      r := r + [Char(charArray4[i])];
    }
  }

  /** The encoder's loop: `pos` bytes taken, the last `i` of them in the group. */
  predicate Encoding(x: seq<Byte>, pos: nat, i: nat, group: seq<Byte>, ret: string) {
    && i < 3 && i <= pos <= |x| && |group| == 3 && group[..i] == x[pos - i..pos]
    && Encode(x) == ret + Encode(x[pos - i..])
  }

  lemma EncodingStarts(x: seq<Byte>, group: seq<Byte>)
    requires |group| == 3
    ensures Encoding(x, 0, 0, group, "")
  {
    assert x[0..] == x && group[..0] == x[0..0];
  }

  /** A byte that does not fill the group. */
  lemma EncodingGoesOn(x: seq<Byte>, pos: nat, i: nat, group: seq<Byte>, ret: string, next: seq<Byte>)
    requires Encoding(x, pos, i, group, ret) && pos < |x| && i < 2 && next == group[i := x[pos]]
    ensures Encoding(x, pos + 1, i + 1, next, ret)
  {
    hide Encode;
    assert next[..i + 1] == group[..i] + [x[pos]] == x[pos - i..pos + 1];
  }

  /** A byte that fills the group. */
  lemma EncodingGroup(x: seq<Byte>, pos: nat, group: seq<Byte>, ret: string, next: seq<Byte>, grown: string)
    requires Encoding(x, pos, 2, group, ret) && pos < |x| && next == group[2 := x[pos]]
    requires grown == ret + Quad(next[0], next[1], next[2])[..4]
    ensures Encoding(x, pos + 1, 0, next, grown)
  {
    hide Quad;
    var rest := x[pos - 2..];
    assert group[..2] == x[pos - 2..pos];
    assert next[0] == group[..2][0] == rest[0] && next[1] == group[..2][1] == rest[1] && next[2] == rest[2];
    assert rest[3..] == x[pos + 1..];
    var q := Quad(next[0], next[1], next[2]);
    assert q[..4] == q;
    Assoc(ret, q, Encode(x[pos + 1..]));
    assert next[..0] == x[pos + 1..pos + 1];
  }

  lemma ShortCode(a: Byte, b: Byte)
    ensures Encode([a]) == Quad(a, 0, 0)[..2] + "==" && Encode([a, b]) == Quad(a, b, 0)[..3] + "="
  {
    hide Quad;
  }

  /** The group that is left over. */
  lemma EncodingEnds(x: seq<Byte>, i: nat, group: seq<Byte>, ret: string)
    requires Encoding(x, |x|, i, group, ret)
    ensures i == 0 ==> Encode(x) == ret
    ensures i == 1 ==> Encode(x) == ret + Quad(group[0], 0, 0)[..2] + "=="
    ensures i == 2 ==> Encode(x) == ret + Quad(group[0], group[1], 0)[..3] + "="
  {
    hide Quad, Encode;
    var rest := x[|x| - i..];
    assert group[..i] == rest;
    if i == 0 {
      assert rest == [] && ret + "" == ret;
      NothingCode();
    } else if i == 1 {
      assert rest == [group[..i][0]];
      ShortCode(group[0], 0);
      Assoc(ret, Quad(group[0], 0, 0)[..2], "==");
    } else {
      assert rest == [group[..i][0], group[..i][1]];
      ShortCode(group[0], group[1]);
      Assoc(ret, Quad(group[0], group[1], 0)[..3], "=");
    }
  }

  lemma NothingCode()
    ensures Encode([]) == ""
  {
  }

  lemma PadMore(base: string, n: nat)
    requires n < 2
    ensures (base + "=="[..n]) + "=" == base + "=="[..n + 1]
  {
  }

  /** b64_encode. It says true whatever it did: it tests its own argument. */
  method B64Encode(data: seq<Byte>) returns (ok: bool, out: Option<string>)
    ensures ok
    ensures out == if data == [] then None else Some(Encode(data))
  {
    hide Encode, Quad, Encoding, E0, E1, E2, E3;
    if |data| == 0 {
      return true, None;
    }
    var ret, i, pos := "", 0, 0;
    var charArray3, charArray4 := new Byte[3], new Byte[4];
    EncodingStarts(data, charArray3[..]);
    while pos < |data|
      invariant pos <= |data| && i < 3 && Encoding(data, pos, i, charArray3[..], ret)
    {
      ghost var group := charArray3[..];
      charArray3[i] := data[pos];
      if i < 2 {
        EncodingGoesOn(data, pos, i, group, ret, charArray3[..]);
      }
      i, pos := i + 1, pos + 1;
      if i == 3 {
        Split(charArray3, charArray4);
        ghost var before := ret;
        ret := Put(charArray4, 4, ret, charArray3[0], charArray3[1], charArray3[2]);
        EncodingGroup(data, pos - 1, group, before, charArray3[..], ret);
        i := 0;
      }
    }
    EncodingEnds(data, i, charArray3[..], ret);
    label Group:
    ghost var start := i;
    if i > 0 {
      var j := i;
      while j < 3
        invariant i <= j <= 3
        invariant forall k | 0 <= k < i :: charArray3[k] == old@Group(charArray3[k])
        invariant forall k | i <= k < j :: charArray3[k] == 0
      {
        charArray3[j] := 0;
        j := j + 1;
      }
      Split(charArray3, charArray4);
      ret := Put(charArray4, i + 1, ret, charArray3[0], charArray3[1], charArray3[2]);
      ghost var base := ret;
      assert base + "" == base;
      while i < 3
        invariant start <= i <= 3 && ret == base + "=="[..i - start]
      {
        PadMore(base, i - start);
        ret := ret + "=";
        i := i + 1;
      }
      assert "=="[..2] == "==" && "=="[..1] == "=";
    }
    return true, Some(ret);
  }

  /** The decoder's loop over the alphabet bytes `x`: `pos` taken, the last `i` of
      them in the group. */
  predicate Decoding(x: string, pos: nat, i: nat, group: string, ret: seq<Byte>) {
    && i < 4 && i <= pos <= |x| && |group| == 4 && group[..i] == x[pos - i..pos]
    && DecodeAll(x) == ret + DecodeAll(x[pos - i..])
  }

  lemma DecodingStarts(x: string, group: string)
    requires |group| == 4
    ensures Decoding(x, 0, 0, group, [])
  {
    assert x[0..] == x && group[..0] == x[0..0];
  }

  lemma DecodingGoesOn(x: string, pos: nat, i: nat, group: string, ret: seq<Byte>, next: string)
    requires Decoding(x, pos, i, group, ret) && pos < |x| && i < 3 && next == group[i := x[pos]]
    ensures Decoding(x, pos + 1, i + 1, next, ret)
  {
    hide DecodeAll;
    assert next[..i + 1] == group[..i] + [x[pos]] == x[pos - i..pos + 1];
  }

  lemma DecodingGroup(x: string, pos: nat, group: string, ret: seq<Byte>, next: string)
    requires Decoding(x, pos, 3, group, ret) && pos < |x| && next == group[3 := x[pos]]
    ensures Decoding(x, pos + 1, 0, next, ret + Triple(next))
  {
    hide Triple;
    var rest := x[pos - 3..];
    assert next == group[..3] + [x[pos]] == rest[..4];
    assert rest[4..] == x[pos + 1..];
    Assoc(ret, Triple(next), DecodeAll(x[pos + 1..]));
    assert next[..0] == x[pos + 1..pos + 1];
  }

  lemma FewBytes(last: string, i: nat)
    requires |last| == 4 && i < 4
    ensures DecodeAll(last[..i]) == if i == 0 then [] else Triple(last)[..i - 1]
  {
    hide Lookup, D0, D1, D2;
  }

  /** An unfinished group of `i` gives `i - 1` bytes; what is looked up for the
      places behind it does not matter. */
  lemma DecodingEnds(x: string, i: nat, group: string, ret: seq<Byte>, last: string)
    requires Decoding(x, |x|, i, group, ret)
    requires |last| == 4 && last[..i] == group[..i]
    ensures i == 0 ==> DecodeAll(x) == ret
    ensures i > 0 ==> DecodeAll(x) == ret + Triple(last)[..i - 1]
  {
    hide DecodeAll, Triple;
    var rest := x[|x| - i..];
    assert rest == last[..i];
    FewBytes(last, i);
    assert ret + [] == ret;
  }

  /** Positions in the alphabet, then three bytes. */
  method Merge(chars: array<char>, charArray3: array<Byte>)
    requires chars.Length == 4 && charArray3.Length == 3
    modifies charArray3
    ensures charArray3[..] == Triple(chars[..])
  {
    hide Lookup;
    var charArray4 := new Byte[4];
    for i := 0 to 4
      invariant forall k | 0 <= k < i :: charArray4[k] == Lookup(chars[k])
    {
      charArray4[i] := Lookup(chars[i]);
    }
    charArray3[0] := (charArray4[0] << 2) + ((charArray4[1] & 0x30) >> 4);
    charArray3[1] := ((charArray4[1] & 0xf) << 4) + ((charArray4[2] & 0x3c) >> 2);
    charArray3[2] := ((charArray4[2] & 0x3) << 6) + charArray4[3];
  }

  /** The first `n` bytes behind `ret`. */
  method Push(charArray3: array<Byte>, n: nat, ret: seq<Byte>) returns (r: seq<Byte>)
    requires n <= charArray3.Length
    ensures r == ret + charArray3[..n]
  {
    r := ret;
    for i := 0 to n
      invariant r == ret + charArray3[..i]
    {
      r := r + [charArray3[i]];
    }
  }

  /** The loop has stopped at the first byte that is not alphabet. */
  lemma StoppedAtFront(s: string, pos: nat)
    requires pos <= Front(s) && (pos == |s| || !IsBase64(s[pos]))
    ensures pos == Front(s)
  {
    assert forall k | 0 <= k < Front(s) :: s[..Front(s)][k] == s[k];
  }

  lemma InFront(s: string, pos: nat)
    requires pos <= Front(s) && pos < |s| && IsBase64(s[pos])
    ensures pos < Front(s) && s[..Front(s)][pos] == s[pos]
  {
  }

  /** b64_decode. */
  method B64Decode(text: string) returns (ok: bool, out: Option<seq<Byte>>)
    ensures ok <==> text != ""
    ensures out == if text == "" then None else Some(Decode(text))
  {
    hide DecodeAll, Triple, Decoding, IsBase64, Front;
    if |text| == 0 {
      return false, None;
    }
    ghost var x := text[..Front(text)];
    var ret, i, pos := [], 0, 0;
    var chars, charArray3 := new char[4], new Byte[3];
    DecodingStarts(x, chars[..]);
    PadIsNot();
    while pos < |text| && text[pos] != '=' && IsBase64(text[pos])
      invariant pos <= |x| && i < 4 && Decoding(x, pos, i, chars[..], ret)
    {
      InFront(text, pos);
      ghost var group := chars[..];
      chars[i] := text[pos];
      if i < 3 {
        DecodingGoesOn(x, pos, i, group, ret, chars[..]);
      }
      i, pos := i + 1, pos + 1;
      if i == 4 {
        Merge(chars, charArray3);
        ghost var before := ret;
        ret := Push(charArray3, 3, ret);
        assert charArray3[..3] == charArray3[..];
        DecodingGroup(x, pos - 1, group, before, chars[..]);
        i := 0;
      }
    }
    StoppedAtFront(text, pos);
    ghost var group := chars[..];
    if i > 0 {
      for j := i to 4
        invariant chars[..i] == group[..i]
      {
        chars[j] := NUL;
      }
      Merge(chars, charArray3);
      DecodingEnds(x, i, group, ret, chars[..]);
      ret := Push(charArray3, i - 1, ret);
    } else {
      DecodingEnds(x, i, group, ret, group);
    }
    return true, Some(ret);
  }
}
