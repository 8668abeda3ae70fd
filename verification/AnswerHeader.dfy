/** The header that the client sends on with a chunked answer: which length it
    announces, for any rows of the local server. */
module AnswerHeader {
  import opened CString
  import opened CNumber
  import opened Liblst
  import opened Sockets
  import opened Chunks
  import opened ChunkReader

  // ---------------------------------------------------------------------
  // Replacement line by line

  /** Text in front of the first place stays. */
  lemma ReplaceBehind(s: string, x: string, r: string, k: nat)
    requires x != "" && k <= |s| && forall j: nat | j < k :: !At(s, x, j)
    ensures ReplaceAll(s, x, r) == s[..k] + ReplaceAll(s[k..], x, r)
  {
    hide ReplaceAll;
    var i := StrStr(s, x);
    if i < 0 {
      assert forall j: nat | At(s[k..], x, j) :: At(s, x, k + j) by {
        forall j: nat | At(s[k..], x, j)
          ensures At(s, x, k + j)
        {
          AtTail(s, x, k, j);
        }
      }
      ReplaceNone(s, x, r);
      ReplaceNone(s[k..], x, r);
      assert s == s[..k] + s[k..];
    } else {
      TailStrStr(s, x, k, i);
      ReplaceHead(s, x, r, i);
      ReplaceHead(s[k..], x, r, i - k);
      Slices(s, k, i - k);
      Slices(s, k, i - k + |x|);
      Assoc(s[..k], s[k..i], r + ReplaceAll(s[i + |x|..], x, r));
      assert s[..i] == s[..k] + s[k..i];
    }
  }

  lemma AtTail(s: string, x: string, k: nat, j: nat)
    requires k <= |s|
    ensures At(s[k..], x, j) <==> At(s, x, k + j)
  {
    if k + j + |x| <= |s| {
      assert s[k..][j..j + |x|] == s[k + j..k + j + |x|];
    }
  }

  lemma TailStrStr(s: string, x: string, k: nat, i: nat)
    requires k <= i && i == StrStr(s, x) && k <= |s|
    ensures StrStr(s[k..], x) == i - k
  {
    AtTail(s, x, k, i - k);
    forall j: nat | j < i - k
      ensures !At(s[k..], x, j)
    {
      AtTail(s, x, k, j);
    }
    StrStrUnique(s[k..], x, i - k);
  }

  lemma ReplaceNone(s: string, x: string, r: string)
    requires x != "" && forall j: nat | j <= |s| :: !At(s, x, j)
    ensures ReplaceAll(s, x, r) == s
  {
  }

  /** A line is replaced on its own: the search text holds no newline. */
  lemma {:induction false} ReplaceAcross(l: string, rest: string, x: string, r: string)
    requires x != "" && Lacks(x, '\n') && Lacks(l, '\n')
    ensures ReplaceAll(l + ("\n" + rest), x, r) == ReplaceAll(l, x, r) + ("\n" + ReplaceAll(rest, x, r))
    decreases |l|
  {
    hide ReplaceAll;
    var s, i := l + ("\n" + rest), StrStr(l, x);
    if i >= 0 {
      var a, b := l[..i], l[i + |x|..];
      assert l == a + x + b && s == a + x + (b + ("\n" + rest));
      StrStrPrefix(a, x, b);
      StrStrPrefix(a, x, b + ("\n" + rest));
      ReplaceHead(l, x, r, i);
      ReplaceHead(s, x, r, i);
      assert s[..i] == a && s[i + |x|..] == b + ("\n" + rest);
      ReplaceAcross(b, rest, x, r);
      Assoc(r, ReplaceAll(b, x, r), "\n" + ReplaceAll(rest, x, r));
      Assoc(a, r + ReplaceAll(b, x, r), "\n" + ReplaceAll(rest, x, r));
    } else {
      NotAcross(l, rest, x);
      ReplaceBehind(s, x, r, |l| + 1);
      assert s[..|l| + 1] == l + "\n" && s[|l| + 1..] == rest;
      ReplaceNone(l, x, r);
    }
  }

  lemma NotAcross(l: string, rest: string, x: string)
    requires x != "" && Lacks(x, '\n') && StrStr(l, x) < 0
    ensures forall j: nat | j < |l| + 1 :: !At(l + ("\n" + rest), x, j)
  {
    var s := l + ("\n" + rest);
    forall j: nat | j < |l| + 1
      ensures !At(s, x, j)
    {
      if j + |x| <= |l| {
        assert s[j..j + |x|] == l[j..j + |x|] && !At(l, x, j);
      } else if j + |x| <= |s| {
        assert s[j..j + |x|][|l| - j] == '\n' && x[|l| - j] != '\n';
      }
    }
  }

  function EachReplaced(lines: seq<string>, x: string, r: string): (es: seq<string>)
    ensures |es| == |lines| && forall i | 0 <= i < |lines| :: es[i] == Replace(lines[i], x, r)
  {
    seq(|lines|, i requires 0 <= i < |lines| => Replace(lines[i], x, r))
  }

  lemma {:induction false} ReplaceLines(lines: seq<string>, x: string, r: string)
    requires x != "" && Lacks(x, '\n') && forall l | l in lines :: Lacks(l, '\n')
    ensures Replace(WithNewlines(lines), x, r) == WithNewlines(EachReplaced(lines, x, r))
  {
    hide ReplaceAll;
    if lines == [] {
      ReplaceNone("", x, r);
    } else {
      var es := EachReplaced(lines, x, r);
      assert es[1..] == EachReplaced(lines[1..], x, r);
      assert lines[0] + "\n" + WithNewlines(lines[1..]) == lines[0] + ("\n" + WithNewlines(lines[1..]));
      assert es[0] + "\n" + WithNewlines(es[1..]) == es[0] + ("\n" + WithNewlines(es[1..]));
      assert Lacks(lines[0], '\n');
      ReplaceAcross(lines[0], WithNewlines(lines[1..]), x, r);
      assert forall l | l in lines[1..] :: l in lines;
      ReplaceLines(lines[1..], x, r);
    }
  }

  /** Texts that begin alike keep the beginning of the line. */
  lemma KeepsStart(d: string, x: string, r: string, k: nat)
    requires x != "" && k <= |x| && k <= |r| && x[..k] == r[..k]
    ensures var e := Replace(d, x, r);
            if |d| < k then e == d else |e| >= k && e[..k] == d[..k]
  {
    hide ReplaceAll;
    var i := StrStr(d, x);
    if i < 0 {
      ReplaceNone(d, x, r);
    } else {
      ReplaceHead(d, x, r, i);
      var rest := ReplaceAll(d[i + |x|..], x, r);
      assert d == d[..i] + (x + d[i + |x|..]);
      SameBeginning(d[..i], x, d[i + |x|..], r, rest, k);
    }
  }

  lemma SameBeginning(a: string, x: string, y: string, r: string, z: string, k: nat)
    requires k <= |x| && k <= |r| && x[..k] == r[..k]
    ensures (a + (x + y))[..k] == (a + (r + z))[..k]
  {
    assert forall i | 0 <= i < k :: x[i] == x[..k][i] == r[i];
  }

  /** Replacing a text by one that begins with the same byte, which ends a number,
      does not change the number in front. */
  lemma NumberKept(a: string, s: string, x: string, r: string)
    requires x != "" && r != "" && x[0] == r[0] && EndsDecimal(x[0])
    ensures AtoSize(a + Replace(s, x, r)) == AtoSize(a + s)
  {
    hide ReplaceAll, Strtol;
    var i := StrStr(s, x);
    if i < 0 {
      ReplaceNone(s, x, r);
    } else {
      ReplaceHead(s, x, r, i);
      var c, y, z := x[0], s[i + 1..], r[1..] + ReplaceAll(s[i + |x|..], x, r);
      assert s[i] == s[i..i + |x|][0] == c;
      assert a + s == (a + s[..i]) + ([c] + y);
      assert r == [c] + r[1..];
      assert a + Replace(s, x, r) == (a + s[..i]) + ([c] + z);
      StrtolStops(a + s[..i], c, y, z);
    }
  }

  // ---------------------------------------------------------------------
  // One line of the answer

  /** The line sent on for a header line. */
  function Sent(id: CStr, d: string, n: nat): string {
    WithLength(Located(id, d), n)
  }

  /** The number read from the line sent on for a length line. */
  function ReadAs(d: string, n: nat): nat
    requires R.IsLengthLine(d)
  {
    if At(d, PLACEHOLDER, 0) then AtoSize(Print(n, 10) + d[|PLACEHOLDER|..]) else AtoSize(d[|PLACEHOLDER| - 1..])
  }

  lemma SameBeginnings(id: CStr, n: nat)
    ensures |LOCAL| > 17 && |Remote(id)| > 17 && LOCAL[..17] == Remote(id)[..17]
    ensures |PLACEHOLDER| == 17 && |LengthField(n)| > 16 && PLACEHOLDER[..16] == LengthField(n)[..16]
    ensures LengthField(n)[16..] == Print(n, 10)
    ensures LOCAL[0] == Remote(id)[0] == 'L' && PLACEHOLDER[0] == LengthField(n)[0] == 'C'
  {
  }

  /** Length lines stay length lines, and no other line becomes one. */
  lemma SentStart(id: CStr, d: string, n: nat)
    ensures R.IsLengthLine(Located(id, d)) <==> R.IsLengthLine(d)
    ensures R.IsLengthLine(Sent(id, d, n)) <==> R.IsLengthLine(d)
  {
    hide Replace, Print;
    SameBeginnings(id, n);
    assert LOCAL[..16] == LOCAL[..17][..16] == Remote(id)[..16];
    KeepsStart(d, LOCAL, Remote(id), 16);
    R.SameLength(d, Located(id, d));
    KeepsStart(Located(id, d), PLACEHOLDER, LengthField(n), 16);
    R.SameLength(Located(id, d), Sent(id, d, n));
  }

  /** Neither search text begins in the name of a length line, but for the
      placeholder at its very front. */
  lemma NotInName(d: string)
    requires R.IsLengthLine(d)
    ensures |d| >= 16 && (forall j: nat | j < 16 :: !At(d, LOCAL, j))
    ensures forall j: nat | 0 < j < 16 :: !At(d, PLACEHOLDER, j)
  {
    R.LengthLineBytes(d);
    forall j: nat | j < 16
      ensures !At(d, LOCAL, j) && (j > 0 ==> !At(d, PLACEHOLDER, j))
    {
      if j + 17 <= |d| {
        SearchBytes(d, j);
      }
    }
  }

  lemma SearchBytes(d: string, j: nat)
    requires j + 17 <= |d|
    ensures At(d, LOCAL, j) ==> d[j] == 'L' && d[j + 1] == 'o'
    ensures At(d, PLACEHOLDER, j) ==> d[j] == 'C'
  {
    assert At(d, LOCAL, j) ==> d[j..j + |LOCAL|][0] == d[j] && d[j..j + |LOCAL|][1] == d[j + 1];
    assert At(d, PLACEHOLDER, j) ==> d[j..j + |PLACEHOLDER|][0] == d[j];
  }

  /** The Location rewrite does not touch a length line up to its first digit. */
  lemma LocatedLength(id: CStr, d: string)
    requires R.IsLengthLine(d)
    ensures |d| >= 16
    ensures Located(id, d) == d[..16] + Replace(d[16..], LOCAL, Remote(id))
    ensures At(d, PLACEHOLDER, 0) ==> Located(id, d) == PLACEHOLDER + Replace(d[17..], LOCAL, Remote(id))
    ensures At(Located(id, d), PLACEHOLDER, 0) <==> At(d, PLACEHOLDER, 0)
  {
    hide ReplaceAll;
    NotInName(d);
    ReplaceBehind(d, LOCAL, Remote(id), 16);
    var e := Located(id, d);
    SameBeginnings(id, 0);
    KeepsStart(d, LOCAL, Remote(id), 17);
    if |d| >= 17 {
      assert e[..17] == d[..17];
      SearchBytes(d, 0);
      if At(d, PLACEHOLDER, 0) {
        assert d[0..17] == d[..17] == PLACEHOLDER;
        assert d[16] == d[..17][16] == '0';
        NoLocal(d);
        ReplaceBehind(d, LOCAL, Remote(id), 17);
      }
      assert e[0..17] == e[..17] && d[0..17] == d[..17];
    }
  }

  lemma NoLocal(d: string)
    requires |d| > 16 && d[16] == '0' && forall j: nat | j < 16 :: !At(d, LOCAL, j)
    ensures forall j: nat | j < 17 :: !At(d, LOCAL, j)
  {
    if 16 + 17 <= |d| {
      SearchBytes(d, 16);
    }
  }

  /** What is read from a length line that is sent on. */
  lemma SentReads(id: CStr, d: string, n: nat)
    requires R.IsLengthLine(d)
    ensures R.IsLengthLine(Sent(id, d, n)) && |Sent(id, d, n)| >= 16
    ensures AtoSize(Sent(id, d, n)[16..]) == ReadAs(d, n)
  {
    hide ReplaceAll, Strtol, Print;
    var e, s, r := Located(id, d), Sent(id, d, n), LengthField(n);
    SentStart(id, d, n);
    SameBeginnings(id, n);
    LocatedLength(id, d);
    NotInName(e);
    if At(d, PLACEHOLDER, 0) {
      var u := Replace(d[17..], LOCAL, Remote(id));
      FrontPlaceholder(u, r);
      assert s == r + Replace(u, PLACEHOLDER, r);
      assert s[16..] == Print(n, 10) + Replace(u, PLACEHOLDER, r);
      NumberKept(Print(n, 10), u, PLACEHOLDER, r);
      NumberKept(Print(n, 10), d[17..], LOCAL, Remote(id));
    } else {
      ReplaceBehind(e, PLACEHOLDER, r, 16);
      var u := Replace(d[16..], LOCAL, Remote(id));
      assert e[16..] == u;
      assert s[16..] == Replace(u, PLACEHOLDER, r);
      assert "" + Replace(u, PLACEHOLDER, r) == Replace(u, PLACEHOLDER, r) && "" + u == u && "" + d[16..] == d[16..];
      NumberKept("", u, PLACEHOLDER, r);
      NumberKept("", d[16..], LOCAL, Remote(id));
    }
  }

  lemma FrontPlaceholder(u: string, r: string)
    ensures Replace(PLACEHOLDER + u, PLACEHOLDER, r) == r + Replace(u, PLACEHOLDER, r)
  {
    hide ReplaceAll;
    var s := PLACEHOLDER + u;
    assert s[0..17] == PLACEHOLDER && s[17..] == u;
    StrStrUnique(s, PLACEHOLDER, 0);
    ReplaceHead(s, PLACEHOLDER, r, 0);
    assert s[..0] + (r + ReplaceAll(u, PLACEHOLDER, r)) == r + ReplaceAll(u, PLACEHOLDER, r);
  }

  // ---------------------------------------------------------------------
  // Which length lines are right

  /** A length line that is the placeholder, up to the end of its number. */
  predicate IsPlaceholder(d: string) {
    At(d, PLACEHOLDER, 0) && (|d| > |PLACEHOLDER| ==> !IsDigit(d[|PLACEHOLDER|]))
  }

  lemma {:induction false} ReadDigitsGrows(s: string, acc: nat)
    ensures ReadDigits(s, 10, acc) >= acc
  {
    if s != "" && DigitValue(s[0], 10) >= 0 {
      ReadDigitsGrows(s[1..], PushDigit(acc, DigitValue(s[0], 10), 10));
    }
  }

  /** A digit behind the placeholder makes "1" a number of several digits. */
  lemma LongerNumber(rest: string)
    requires rest != "" && IsDigit(rest[0])
    ensures AtoSize("1" + rest) >= 10
  {
    var s := "1" + rest;
    assert s[1..] == rest && DigitValue(s[0], 10) == 1 && PushDigit(0, 1, 10) == 1;
    assert ReadDigits(s, 10, 0) == ReadDigits(rest, 10, 1);
    var d := DigitValue(rest[0], 10);
    assert ReadDigits(rest, 10, 1) == ReadDigits(rest[1..], 10, PushDigit(1, d, 10));
    ReadDigitsGrows(rest[1..], PushDigit(1, d, 10));
    var v := Strtol(s, 10);
    assert 10 <= v <= LONG_MAX;
    SmallMod(v, 0x1_0000_0000_0000_0000);
  }

  lemma PlaceholderReads(d: string, n: nat)
    requires R.IsLengthLine(d) && IsPlaceholder(d) && n <= LONG_MAX
    ensures ReadAs(d, n) == n
  {
    AtoSizeOfPrint(n, d[|PLACEHOLDER|..]);
  }

  /** Any other length line is wrong for some length. */
  lemma OtherReads(d: string) returns (n: nat)
    requires R.IsLengthLine(d) && !IsPlaceholder(d)
    ensures n <= LONG_MAX && ReadAs(d, n) != n
  {
    if At(d, PLACEHOLDER, 0) {
      n := 1;
      LongerNumber(d[|PLACEHOLDER|..]);
      assert Print(1, 10) == "1";
    } else {
      n := if AtoSize(d[|PLACEHOLDER| - 1..]) == 0 then 1 else 0;
    }
  }

  // ---------------------------------------------------------------------
  // The whole header

  /** The line that the header loop appends for a row. */
  function HeadLine(row: string): string {
    var d := StatusLine(Chop(row));
    if StartsNoCase(d, "Transfer-Encoding: chunked") then PLACEHOLDER else d
  }

  function HeadLines(rows: seq<string>): (ls: seq<string>)
    ensures |ls| == |rows| && forall i | 0 <= i < |rows| :: ls[i] == HeadLine(rows[i])
  {
    seq(|rows|, i requires 0 <= i < |rows| => HeadLine(rows[i]))
  }

  lemma {:induction false} HeadText(h: AnswerHead, rows: seq<string>)
    ensures HeadOfRows(h, rows).text == h.text + WithNewlines(HeadLines(rows))
    decreases |rows|
  {
    hide Chop, StatusLine;
    if rows == [] {
      assert h.text + "" == h.text;
    } else {
      var h' := HeadStep(h, Chop(rows[0]));
      HeadText(h', rows[1..]);
      assert HeadLines(rows)[1..] == HeadLines(rows[1..]);
      assert h'.text == h.text + (HeadLine(rows[0]) + "\n");
      Assoc(h.text, HeadLine(rows[0]) + "\n", WithNewlines(HeadLines(rows[1..])));
    }
  }

  lemma {:induction false} ChunkedRow(h: AnswerHead, rows: seq<string>)
    ensures HeadOfRows(h, rows).chunked <==>
              || h.chunked
              || (exists i :: 0 <= i < |rows| && StartsNoCase(StatusLine(Chop(rows[i])), "Transfer-Encoding: chunked"))
    decreases |rows|
  {
    hide Chop, StatusLine, StartsNoCase;
    if rows != [] {
      ChunkedRow(HeadStep(h, Chop(rows[0])), rows[1..]);
      assert forall i | 1 <= i < |rows| :: rows[i] == rows[1..][i - 1];
    }
  }

  lemma HeadLinePlain(row: string)
    requires HeaderRow(row)
    ensures Lacks(HeadLine(row), '\n') && Lacks(HeadLine(row), NUL)
  {
    hide Chop, Replace;
    ChopIsSubset(row, NUL);
    ReplaceLacks(Chop(row), "HTTP/1.1 ", "Status: ", '\n');
    ReplaceLacks(Chop(row), "HTTP/1.1 ", "Status: ", NUL);
  }

  /** The header sent on with a chunked answer of `n` bytes. */
  function SentHeader(id: CStr, rows: seq<string>, n: nat): string {
    WithLength(Located(id, HeadOfRows(NO_HEAD, rows).text), n)
  }

  function SentLines(id: CStr, rows: seq<string>, n: nat): (ls: seq<string>)
    ensures |ls| == |rows| && forall i | 0 <= i < |rows| :: ls[i] == Sent(id, HeadLine(rows[i]), n)
  {
    seq(|rows|, i requires 0 <= i < |rows| => Sent(id, HeadLine(rows[i]), n))
  }

  lemma LengthFieldPlain(n: nat)
    ensures Lacks(LengthField(n), '\n') && Lacks(LengthField(n), NUL)
  {
    PrintIsDigits(n, 10);
  }

  lemma SentPlain(id: CStr, d: string, n: nat, c: char)
    requires Lacks(d, c) && Lacks(id, c) && (c == '\n' || c == NUL)
    ensures Lacks(Located(id, d), c) && Lacks(Sent(id, d, n), c)
  {
    hide Replace, Print;
    LengthFieldPlain(n);
    ReplaceLacks(d, LOCAL, Remote(id), c);
    ReplaceLacks(Located(id, d), PLACEHOLDER, LengthField(n), c);
  }

  /** The header goes out line by line. */
  lemma HeaderIsLines(id: CStr, rows: seq<string>, n: nat)
    requires Lacks(id, '\n') && forall r | r in rows :: HeaderRow(r)
    ensures SentHeader(id, rows, n) == WithNewlines(SentLines(id, rows, n))
    ensures forall l | l in SentLines(id, rows, n) :: Lacks(l, '\n') && Lacks(l, NUL)
  {
    hide Replace, HeadLine, HeaderRow, Print, LengthField, Remote;
    HeadText(NO_HEAD, rows);
    var ls := HeadLines(rows);
    assert "" + WithNewlines(ls) == WithNewlines(ls);
    forall i | 0 <= i < |rows|
      ensures Lacks(ls[i], '\n') && Lacks(Located(id, ls[i]), '\n')
      ensures Lacks(Sent(id, ls[i], n), '\n') && Lacks(Sent(id, ls[i], n), NUL)
    {
      assert HeaderRow(rows[i]);
      HeadLinePlain(rows[i]);
      SentPlain(id, ls[i], n, '\n');
      SentPlain(id, ls[i], n, NUL);
    }
    ReplaceLines(ls, LOCAL, Remote(id));
    var located := EachReplaced(ls, LOCAL, Remote(id));
    assert forall i | 0 <= i < |rows| :: located[i] == Located(id, ls[i]);
    ReplaceLines(located, PLACEHOLDER, LengthField(n));
    assert EachReplaced(located, PLACEHOLDER, LengthField(n)) == SentLines(id, rows, n);
  }

  lemma {:induction false} RowsOfLines(ls: seq<string>)
    requires forall l | l in ls :: Lacks(l, '\n') && Lacks(l, NUL)
    ensures Rows(WithNewlines(ls)) == ls
  {
    if ls == [] {
      FindUnique('\n', "", 0);
    } else {
      var rest := WithNewlines(ls[1..]);
      assert Lacks(ls[0], '\n') && Lacks(ls[0], NUL);
      FirstRow(ls[0] + "\n" + rest, ls[0], rest);
      assert forall l | l in ls[1..] :: l in ls;
      RowsOfLines(ls[1..]);
    }
  }

  /** The header has a content length, and every content length in it reads as `n`. */
  predicate Announces(header: string, n: nat) {
    && (exists l :: l in Rows(header) && R.IsLengthLine(l))
    && (forall l | l in Rows(header) && R.IsLengthLine(l) :: R.LengthAfter(l, 0) == n)
  }

  lemma LineAnnounces(id: CStr, d: string, n: nat)
    ensures R.IsLengthLine(Sent(id, d, n)) <==> R.IsLengthLine(d)
    ensures R.IsLengthLine(d) ==> R.LengthAfter(Sent(id, d, n), 0) == ReadAs(d, n)
  {
    hide Sent, ReadAs, AtoSize;
    SentStart(id, d, n);
    if R.IsLengthLine(d) {
      SentReads(id, d, n);
    }
  }

  lemma PlaceholderIsLength()
    ensures R.IsLengthLine(PLACEHOLDER) && IsPlaceholder(PLACEHOLDER)
  {
    assert PLACEHOLDER[0..17] == PLACEHOLDER;
    assert PLACEHOLDER[..16] == "Content-Length: ";
  }

  /** For each length: the header announces it exactly when every length line of the
      answer reads as it. */
  lemma AnnouncesWhen(id: CStr, rows: seq<string>, n: nat)
    requires Lacks(id, '\n') && (forall r | r in rows :: HeaderRow(r)) && HeadOfRows(NO_HEAD, rows).chunked
    ensures Announces(SentHeader(id, rows, n), n) <==>
              forall r | r in rows && R.IsLengthLine(HeadLine(r)) :: ReadAs(HeadLine(r), n) == n
  {
    hide HeadLine, HeaderRow, Sent, R.IsLengthLine, R.LengthAfter, ReadAs, SentHeader, Rows, WithNewlines, HeadOfRows;
    var ls := SentLines(id, rows, n);
    HeaderIsLines(id, rows, n);
    RowsOfLines(ls);
    forall i | 0 <= i < |rows|
      ensures R.IsLengthLine(ls[i]) <==> R.IsLengthLine(HeadLine(rows[i]))
      ensures R.IsLengthLine(ls[i]) ==> R.LengthAfter(ls[i], 0) == ReadAs(HeadLine(rows[i]), n)
    {
      LineAnnounces(id, HeadLine(rows[i]), n);
    }
    var k := ChunkedAt(rows);
    PlaceholderIsLength();
    assert ls[k] in ls;
    assert forall i | 0 <= i < |rows| :: ls[i] in ls && rows[i] in rows;
  }

  lemma ChunkedAt(rows: seq<string>) returns (k: nat)
    requires HeadOfRows(NO_HEAD, rows).chunked
    ensures k < |rows| && HeadLine(rows[k]) == PLACEHOLDER
  {
    hide Chop, StatusLine, StartsNoCase, HeadOfRows;
    ChunkedRow(NO_HEAD, rows);
    k :| k < |rows| && StartsNoCase(StatusLine(Chop(rows[k])), "Transfer-Encoding: chunked");
  }

  /** The header announces the length, whatever it is, exactly when every length
      line of the answer is the placeholder: "Content-Length: 0" in this spelling,
      with no further digit. */
  lemma AnnouncesExactly(id: CStr, rows: seq<string>)
    requires Lacks(id, '\n') && (forall r | r in rows :: HeaderRow(r)) && HeadOfRows(NO_HEAD, rows).chunked
    ensures (forall n: nat | n <= LONG_MAX :: Announces(SentHeader(id, rows, n), n)) <==>
              forall r | r in rows && R.IsLengthLine(HeadLine(r)) :: IsPlaceholder(HeadLine(r))
  {
    hide HeadLine, HeaderRow, R.IsLengthLine, ReadAs, IsPlaceholder, SentHeader, Announces, HeadOfRows;
    forall n: nat | n <= LONG_MAX
      ensures Announces(SentHeader(id, rows, n), n) <==>
                forall r | r in rows && R.IsLengthLine(HeadLine(r)) :: ReadAs(HeadLine(r), n) == n
    {
      AnnouncesWhen(id, rows, n);
    }
    if forall r | r in rows && R.IsLengthLine(HeadLine(r)) :: IsPlaceholder(HeadLine(r)) {
      forall n: nat, r | n <= LONG_MAX && r in rows && R.IsLengthLine(HeadLine(r))
        ensures ReadAs(HeadLine(r), n) == n
      {
        PlaceholderReads(HeadLine(r), n);
      }
    } else {
      var r :| r in rows && R.IsLengthLine(HeadLine(r)) && !IsPlaceholder(HeadLine(r));
      var n := OtherReads(HeadLine(r));
      assert !Announces(SentHeader(id, rows, n), n);
    }
  }

  lemma PlainRow(d: string)
    requires d != "" && d[0] != 'H' && d[0] != 'h' && Lacks(d, '\n') && Lacks(d, '\r') && Lacks(d, NUL)
    ensures HeaderRow(d + "\r") && StatusLine(Chop(d + "\r")) == d
  {
    hide Chop, Replace;
    ChopIsFilter(d, "\r", '\r');
    ChopIsSubset(d, NUL);
    assert d + "" == d;
    var status := "HTTP/1.1 ";
    assert |status| <= |d| ==> Lower(d[..|status|])[0] == ToLower(d[0]) && Lower(status)[0] == 'h';
  }

  /** A short line without the placeholder goes out as it is. */
  lemma ShortLineStays(id: CStr, d: string, n: nat)
    requires |d| == 17 && d != PLACEHOLDER
    ensures Sent(id, d, n) == d && !At(d, PLACEHOLDER, 0)
  {
    hide ReplaceAll, LengthField, Remote;
    assert d[0..17] == d;
    ReplaceNone(d, LOCAL, Remote(id));
    ReplaceNone(d, PLACEHOLDER, LengthField(n));
  }

  lemma PlaceholderSent(id: CStr, n: nat)
    ensures Sent(id, PLACEHOLDER, n) == LengthField(n)
  {
    hide ReplaceAll, LengthField, Remote;
    ReplaceNone(PLACEHOLDER, LOCAL, Remote(id));
    FrontPlaceholder("", LengthField(n));
    ReplaceNone("", PLACEHOLDER, LengthField(n));
    assert PLACEHOLDER + "" == PLACEHOLDER && LengthField(n) + "" == LengthField(n);
  }

  const TE := "Transfer-Encoding: chunked"
  const FIVE := "Content-Length: 5"

  lemma TwoRows()
    ensures HeaderRow(TE + "\r") && HeadLine(TE + "\r") == PLACEHOLDER
    ensures HeaderRow(FIVE + "\r") && HeadLine(FIVE + "\r") == FIVE
    ensures StartsNoCase(StatusLine(Chop(TE + "\r")), TE)
  {
    hide HeaderRow, Chop, StatusLine;
    PlainRow(TE);
    PlainRow(FIVE);
    assert TE[..|TE|] == TE;
  }

  lemma TwoSent(id: CStr, rows: seq<string>)
    requires rows == [TE + "\r", FIVE + "\r"]
    ensures SentLines(id, rows, 3) == [LengthField(3), FIVE]
  {
    hide HeadLine, Sent, LengthField;
    TwoRows();
    PlaceholderSent(id, 3);
    ShortLineStays(id, FIVE, 3);
  }

  /** An answer that is chunked and has a content length of its own goes out with
      both lengths. */
  lemma WrongLength(id: CStr)
    requires Lacks(id, '\n')
    ensures var rows := [TE + "\r", FIVE + "\r"];
            && (forall r | r in rows :: HeaderRow(r)) && HeadOfRows(NO_HEAD, rows).chunked
            && SentHeader(id, rows, 3) == "Content-Length: 3\n" + "Content-Length: 5\n"
            && !Announces(SentHeader(id, rows, 3), 3)
  {
    hide HeaderRow, SentHeader, Announces, Sent, Chop, StatusLine, HeadOfRows, HeadLine, LengthField, ReadAs;
    hide StartsNoCase, WithNewlines;
    var rows := [TE + "\r", FIVE + "\r"];
    TwoRows();
    ChunkedRow(NO_HEAD, rows);
    assert rows[0] == TE + "\r" && rows[1] in rows;
    HeaderIsLines(id, rows, 3);
    TwoSent(id, rows);
    TwoLines(LengthField(3), FIVE);
    ThreeAndFive();
    AnnouncesWhen(id, rows, 3);
    FiveReads(3);
  }

  lemma ThreeAndFive()
    ensures LengthField(3) + "\n" + (FIVE + "\n") == "Content-Length: 3\n" + "Content-Length: 5\n"
  {
    assert Print(3, 10) == "3";
  }

  lemma TwoLines(a: string, b: string)
    ensures WithNewlines([a, b]) == a + "\n" + (b + "\n")
  {
    assert [a, b][1..] == [b] && [b][1..] == [];
    assert WithNewlines([b]) == b + "\n" + WithNewlines([]);
    assert b + "\n" + "" == b + "\n";
  }

  lemma FiveReads(n: nat)
    ensures R.IsLengthLine("Content-Length: 5") && ReadAs("Content-Length: 5", n) == 5
  {
    var d := "Content-Length: 5";
    assert d[..16] == "Content-Length: " && d[16..] == "5";
    assert d[0..17][16] == '5' && PLACEHOLDER[16] == '0';
    AtoSizeOfPrint(5, "");
    assert Print(5, 10) + "" == "5";
  }

  /** Dechunk and announce: under the read condition a chunked answer goes out as a
      header, a blank line and all the chunk data, and the header announces exactly
      the length of these, if every length line of the answer is the placeholder. */
  lemma ReframedExactly(id: CStr, segs: seq<string>, groups: seq<Group>, rows: seq<string>, tail: string,
                        chunks: seq<Chunk>) returns (header: string)
    requires Segments(segs) && forall r | r in rows :: HeaderRow(r)
    requires Flat(segs) == WithNewlines(rows) + ("\r" + "\n" + tail) && Framed(0, tail, [], groups, chunks)
    requires Lacks(id, '\n') && HeadOfRows(NO_HEAD, rows).chunked && |Flat(DataOf(chunks))| <= LONG_MAX
    ensures Segments(Schedule(segs, groups))
    ensures LocalRespond(id, "", Schedule(segs, groups)) == Some(header + "\n" + Flat(DataOf(chunks)))
    ensures var n := |Flat(DataOf(chunks))|;
            Announces(header, n) <==>
              forall r | r in rows && R.IsLengthLine(HeadLine(r)) :: ReadAs(HeadLine(r), n) == n
    ensures (forall r | r in rows && R.IsLengthLine(HeadLine(r)) :: IsPlaceholder(HeadLine(r))) ==>
              Announces(header, |Flat(DataOf(chunks))|)
  {
    hide HeadLine, HeaderRow, R.IsLengthLine, ReadAs, IsPlaceholder, Announces, Framed, HeadOfRows, LocalRespond;
    var n := |Flat(DataOf(chunks))|;
    Reframed(id, segs, groups, rows, tail, chunks);
    header := SentHeader(id, rows, n);
    AnnouncesWhen(id, rows, n);
    AnnouncesExactly(id, rows);
  }
}
