/** The answer of the local server as it is sent on: what becomes of its rows, and
    which bytes of a plain answer go with them. */
module AnswerBody {
  import opened CString
  import opened CNumber
  import opened Liblst
  import opened Sockets
  import opened Chunks
  import opened ChunkReader
  import opened AnswerHeader

  // ---------------------------------------------------------------------
  // Single rows

  /** The status line becomes a Status field. */
  lemma StatusRow(rest: string)
    requires StrStr(rest, "HTTP/1.1 ") < 0
    ensures StatusLine("HTTP/1.1 " + rest) == "Status: " + rest
  {
    hide ReplaceAll;
    var x := "HTTP/1.1 ";
    var s := x + rest;
    assert s[..|x|] == x && s[0..|x|] == x && s[|x|..] == rest;
    StrStrUnique(s, x, 0);
    ReplaceHead(s, x, "Status: ", 0);
    ReplaceNone(rest, x, "Status: ");
    assert s[..0] + ("Status: " + rest) == "Status: " + rest;
  }

  /** Any other row stays: one that does not begin with "HTTP/1.1 ", and one that
      does so in another spelling only. */
  lemma OtherRow(d: string)
    requires !StartsNoCase(d, "HTTP/1.1 ") || StrStr(d, "HTTP/1.1 ") < 0
    ensures StatusLine(d) == d
  {
    if StrStr(d, "HTTP/1.1 ") < 0 {
      ReplaceNone(d, "HTTP/1.1 ", "Status: ");
    }
  }

  /** A Location on the local host becomes one on the public host of the client. */
  lemma LocationRow(id: CStr, path: string)
    requires StrStr(path, "Location: http://localhost/") < 0
    ensures Located(id, "Location: http://localhost/" + path) == "Location: http://" + id + ".piercloud.com/" + path
  {
    hide ReplaceAll;
    var s := LOCAL + path;
    assert s[0..|LOCAL|] == LOCAL && s[|LOCAL|..] == path;
    StrStrUnique(s, LOCAL, 0);
    ReplaceHead(s, LOCAL, Remote(id), 0);
    ReplaceNone(path, LOCAL, Remote(id));
    assert s[..0] + (Remote(id) + path) == Remote(id) + path;
  }

  lemma NoLocation(id: CStr, d: string)
    requires StrStr(d, "Location: http://localhost/") < 0
    ensures Located(id, d) == d
  {
    ReplaceNone(d, LOCAL, Remote(id));
  }

  // ---------------------------------------------------------------------
  // The content length

  /** The row reads as a content length. */
  predicate IsLengthRow(row: string) {
    R.IsLengthLine(StatusLine(Chop(row)))
  }

  lemma {:induction false} RowsAppend(h: AnswerHead, a: seq<string>, b: seq<string>)
    ensures HeadOfRows(h, a + b) == HeadOfRows(HeadOfRows(h, a), b)
    decreases |a|
  {
    hide HeadStep, Chop;
    if a == [] {
      assert a + b == b;
    } else {
      assert (a + b)[0] == a[0] && (a + b)[1..] == a[1..] + b;
      RowsAppend(HeadStep(h, Chop(a[0])), a[1..], b);
    }
  }

  /** Rows without a content length leave it alone. */
  lemma {:induction false} NoLengthRows(h: AnswerHead, rows: seq<string>)
    requires forall r | r in rows :: !IsLengthRow(r)
    ensures HeadOfRows(h, rows).length == h.length
    decreases |rows|
  {
    hide Chop, StatusLine, R.IsLengthLine;
    if rows != [] {
      assert !IsLengthRow(rows[0]) && forall r | r in rows[1..] :: r in rows;
      NoLengthRows(HeadStep(h, Chop(rows[0])), rows[1..]);
    }
  }

  /** A row with the name in any letter case and then the number `n`. */
  predicate SaysLength(row: string, n: nat) {
    var d, p := Chop(row), Print(n, 10);
    && 16 + |p| <= |d| && Lower(d[..16]) == "content-length: "
    && d[16..16 + |p|] == p && EndsNumber(d[16 + |p|..], 10)
  }

  lemma LengthRead(h: AnswerHead, row: string, n: nat)
    requires n <= LONG_MAX && SaysLength(row, n)
    ensures HeadStep(h, Chop(row)).length == n
  {
    hide Chop, Print, AtoSize, Replace;
    var d, p := Chop(row), Print(n, 10);
    assert d[16..] == p + d[16 + |p|..];
    NoStatus(d[..16], d);
    assert Lower("Content-Length: ") == "content-length: ";
    AtoSizeOfPrint(n, d[16 + |p|..]);
  }

  lemma NoStatus(name: string, d: string)
    requires |name| == 16 <= |d| && d[..16] == name && Lower(name) == "content-length: "
    ensures !StartsNoCase(d, "HTTP/1.1 ")
  {
    assert Lower(name)[0] == ToLower(name[0]) && d[0] == d[..16][0];
    assert Lower(d[..9])[0] == ToLower(d[0]) && Lower("HTTP/1.1 ")[0] == 'h';
  }

  /** The last row with a content length counts. */
  lemma LastLengthCounts(a: seq<string>, row: string, b: seq<string>, n: nat)
    requires n <= LONG_MAX && SaysLength(row, n) && forall r | r in b :: !IsLengthRow(r)
    ensures HeadOfRows(NO_HEAD, a + [row] + b).length == n
  {
    hide SaysLength, HeadStep, Chop;
    RowsAppend(NO_HEAD, a + [row], b);
    RowsAppend(NO_HEAD, a, [row]);
    var h := HeadOfRows(NO_HEAD, a);
    LengthRead(h, row, n);
    assert [row][1..] == [];
    NoLengthRows(HeadOfRows(h, [row]), b);
  }

  // ---------------------------------------------------------------------
  // The whole answer

  /** The lines sent on with a plain answer. */
  function PlainLines(id: CStr, rows: seq<string>): (ls: seq<string>)
    ensures |ls| == |rows| && forall i | 0 <= i < |rows| :: ls[i] == Located(id, StatusLine(Chop(rows[i])))
  {
    seq(|rows|, i requires 0 <= i < |rows| => Located(id, StatusLine(Chop(rows[i]))))
  }

  /** Row by row: an answer that is not chunked keeps its rows, each with its own
      rewrites. */
  lemma PlainHeader(id: CStr, rows: seq<string>)
    requires (forall r | r in rows :: HeaderRow(r)) && !HeadOfRows(NO_HEAD, rows).chunked
    ensures Located(id, HeadOfRows(NO_HEAD, rows).text) == WithNewlines(PlainLines(id, rows))
  {
    hide Replace, HeaderRow, Chop, StatusLine, StartsNoCase, Remote, HeadOfRows;
    HeadText(NO_HEAD, rows);
    ChunkedRow(NO_HEAD, rows);
    var ls := HeadLines(rows);
    assert "" + WithNewlines(ls) == WithNewlines(ls);
    forall i | 0 <= i < |rows|
      ensures ls[i] == StatusLine(Chop(rows[i])) && Lacks(ls[i], '\n')
    {
      assert HeaderRow(rows[i]);
      HeadLinePlain(rows[i]);
    }
    ReplaceLines(ls, LOCAL, Remote(id));
    assert EachReplaced(ls, LOCAL, Remote(id)) == PlainLines(id, rows);
  }

  /** A plain answer with a content length, in any cut: its rows with their rewrites,
      a blank line and exactly the `n` bytes that its last content length announces;
      when fewer come nothing is defined. */
  lemma PlainAnswered(id: CStr, segs: seq<string>, a: seq<string>, row: string, b: seq<string>, tail: string, n: nat)
    requires var rows := a + [row] + b;
             && Segments(segs) && (forall r | r in rows :: HeaderRow(r)) && !HeadOfRows(NO_HEAD, rows).chunked
             && Flat(segs) == WithNewlines(rows) + ("\r" + "\n" + tail)
    requires n <= LONG_MAX && SaysLength(row, n) && forall r | r in b :: !IsLengthRow(r)
    ensures LocalRespond(id, "", segs)
         == if n <= |tail| then Some(WithNewlines(PlainLines(id, a + [row] + b)) + "\n" + tail[..n]) else None
  {
    hide SaysLength, IsLengthRow, HeaderRow, Located, LocalRespond, HeadOfRows, WithNewlines;
    LastLengthCounts(a, row, b, n);
    PlainAnswer(id, segs, a + [row] + b, tail);
    PlainHeader(id, a + [row] + b);
  }

  /** Without a content length the content is empty, whatever bytes follow. */
  lemma EmptyAnswered(id: CStr, segs: seq<string>, rows: seq<string>, tail: string)
    requires Segments(segs) && (forall r | r in rows :: HeaderRow(r)) && !HeadOfRows(NO_HEAD, rows).chunked
    requires Flat(segs) == WithNewlines(rows) + ("\r" + "\n" + tail)
    requires forall r | r in rows :: !IsLengthRow(r)
    ensures LocalRespond(id, "", segs) == Some(WithNewlines(PlainLines(id, rows)) + "\n")
  {
    hide IsLengthRow, HeaderRow, Located, LocalRespond, HeadOfRows, WithNewlines;
    NoLengthRows(NO_HEAD, rows);
    PlainAnswer(id, segs, rows, tail);
    PlainHeader(id, rows);
    assert WithNewlines(PlainLines(id, rows)) + "\n" + tail[..0] == WithNewlines(PlainLines(id, rows)) + "\n";
  }
}
