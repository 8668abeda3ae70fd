/** The loops of the client over a chunked stream: the reader of the request
    stream, and the one that fetches the local server's answer. */
module ChunkReader {
  import opened CString
  import opened CNumber
  import opened Liblst
  import opened Sockets
  import opened Chunks
  import opened RequestParser
  import R = Request

  /** getRowFromSocket, then chopStr. */
  method GetChoppedRow(soc: Socket) returns (data: Option<CStr>)
    requires soc.Valid() && soc.alive
    modifies soc
    ensures soc.Valid()
    ensures match ReadRow(old(soc.buf), old(soc.pending))
            case NoRow => data == None && !soc.alive
            case Row(text, buf, pending) => data == Some(text) && soc.alive && soc.buf == buf && soc.pending == pending
  {
    ghost var b, segs := soc.buf, soc.pending;
    RowAtFront(b, segs);
    var row := soc.GetRow();
    if row == null {
      return None;
    }
    ghost var i := Find('\n', b + Flat(segs));
    FrontTail((b + Flat(segs))[..i + 1], soc.buf, FillRow(b, segs).0);
    ChopStr(row);
    data := Some(Str(row[..]));
  }

  /** A row is read when the stream has one, and is the first row of the stream. */
  lemma RowAtFront(b: string, segs: seq<string>)
    requires Segments(segs)
    ensures ReadRow(b, segs).Row? <==> HasRow(b + Flat(segs))
    ensures HasRow(b + Flat(segs)) ==>
              var i := Find('\n', b + Flat(segs));
              && ReadRow(b, segs).text == Chop((b + Flat(segs))[..i])
              && i < |FillRow(b, segs).0|
              && ReadRow(b, segs).buf == FillRow(b, segs).0[i + 1..] && ReadRow(b, segs).pending == FillRow(b, segs).1
  {
    hide FillRow, Chop;
    FillRowFinds(b, segs);
    var (x, y) := FillRow(b, segs);
    if HasRow(x) {
      RowSlices(x, Flat(y), Find('\n', x));
    }
  }

  lemma FrontTail(front: string, tail: string, whole: string)
    ensures front + tail == whole ==> |front| <= |whole| && whole[|front|..] == tail
  {
  }

  /** Row, number in base 16, block: one round of either loop. */
  method ReadRound(soc: Socket) returns (round: Round)
    requires soc.Valid() && soc.alive
    modifies soc
    ensures soc.Valid()
    ensures round == NextRound(old(soc.buf), old(soc.pending))
    ensures round.Blank? || round.End? || round.Piece? ==>
              soc.alive && soc.buf == round.buf && soc.pending == round.pending
    ensures round.Closed? || round.Broken? ==> !soc.alive
  {
    hide FillBuf, Strtol, ReadRow;
    var data := GetChoppedRow(soc);
    if data == None {
      return Closed;
    }
    if |data.value| == 0 {
      return Blank(soc.buf, soc.pending);
    }
    var len := Strtol(data.value, 16);
    ghost var b, segs := soc.buf, soc.pending;
    if len > 0 {
      FillBufFinds(b, segs, len);
      if |FillBuf(b, segs, len).0| >= len {
        BlockSlices(FillBuf(b, segs, len).0, Flat(FillBuf(b, segs, len).1), len);
      }
    }
    var block := soc.GetBuf(len);
    match block
    case Null => round := End(len, soc.buf, soc.pending);
    case Unset => round := Broken;
    case Data(bytes) => round := Piece(bytes, soc.buf, soc.pending);
  }

  /** How the request loop ends: it returns; the daemon exits inside Chunk; or the
      peer has closed inside a block, after which the original reads freed memory. */
  datatype LoopEnd = Returned | Exited | Undefined

  /** doReadFromServer: the blocks but for pings go to Chunk, in order. */
  method DoReadFromServer(soc: Socket, client: Client) returns (stop: LoopEnd, emitted: seq<R.Emission>)
    requires soc.Valid() && soc.alive && client.Valid() && !client.inHeader
    modifies soc, client, client.buf, client.buf.buf, client.request
    ensures client.Valid() && soc.Valid()
    ensures var given := R.Kept(Payloads(old(soc.buf), old(soc.pending)));
            R.FeedAll(client.cfg, old(client.State()), given)
            == if stop == Exited then R.Died(emitted) else R.Alive(client.State(), emitted)
    ensures stop == Undefined ==> LastRound(old(soc.buf), old(soc.pending)).Broken?
  {
    hide R.Feed, R.FeedAll, R.Kept, Payloads, LastRound, NextRound;
    ghost var b, segs, st := soc.buf, soc.pending, client.State();
    ghost var done: seq<string> := [];
    emitted, stop := [], Returned;
    LoopStarts(client.cfg, st, b, segs);
    while true
      invariant soc.Valid() && soc.alive && client.Valid() && !client.inHeader && client.OwnBuffers()
      invariant Payloads(b, segs) == done + Payloads(soc.buf, soc.pending)
      invariant LastRound(b, segs) == LastRound(soc.buf, soc.pending)
      invariant R.FeedAll(client.cfg, st, R.Kept(done)) == R.Alive(client.State(), emitted)
      decreases |soc.buf + Flat(soc.pending)|
    {
      PayloadsStep(soc.buf, soc.pending, done);
      var round := ReadRound(soc);
      match round
      case Closed => return;
      case Broken => return Undefined, emitted;
      case End(len, _, _) => return;
      case Blank(_, _) =>
      case Piece(data, _, _) =>
        ghost var before := done;
        done := done + [data];
        R.KeptSnoc(before, data);
        if data[0] == '0' && |data| == 1 {
          PingData(data, R.Kept(before));
        } else {
          R.FeedAllSnoc(client.cfg, st, R.Kept(before), data);
          var e := client.Chunk(data);
          match e
          case Nothing =>
          case Fork(pid, request) => emitted := emitted + [R.Emission(pid, request)];
          case Exit =>
            KeptAppend(done, Payloads(soc.buf, soc.pending));
            R.FeedAllDies(client.cfg, st, R.Kept(done), R.Kept(Payloads(soc.buf, soc.pending)));
            return Exited, emitted;
        }
    }
  }

  lemma LoopStarts(c: R.Config, st: R.State, b: string, segs: seq<string>)
    requires Segments(segs)
    ensures [] + Payloads(b, segs) == Payloads(b, segs) && R.FeedAll(c, st, R.Kept([])) == R.Alive(st, [])
  {
  }

  lemma PingData(data: string, kept: seq<string>)
    requires |data| == 1 && data[0] == '0'
    ensures data == R.PING && kept + [] == kept
  {
  }

  /** One round, seen from a run that has `done` behind it. */
  lemma PayloadsStep(b: string, segs: seq<string>, done: seq<string>)
    requires Segments(segs)
    ensures match NextRound(b, segs)
            case Blank(b', segs') =>
              Payloads(b, segs) == Payloads(b', segs') && LastRound(b, segs) == LastRound(b', segs')
            case Piece(bytes, b', segs') =>
              && done + Payloads(b, segs) == (done + [bytes]) + Payloads(b', segs')
              && LastRound(b, segs) == LastRound(b', segs')
            case r => done + Payloads(b, segs) == done && LastRound(b, segs) == r
  {
    hide NextRound;
  }

  lemma {:induction false} KeptAppend(a: seq<string>, b: seq<string>)
    ensures R.Kept(a + b) == R.Kept(a) + R.Kept(b)
    decreases |b|
  {
    if b == [] {
      assert a + b == a;
    } else {
      var front, x := b[..|b| - 1], b[|b| - 1];
      assert a + b == (a + front) + [x] && b == front + [x];
      KeptAppend(a, front);
      R.KeptSnoc(a + front, x);
      R.KeptSnoc(front, x);
    }
  }

  /** From the transport to the requests: when no read runs past the end of its
      chunk, the requests emitted are the front of those that one parse of all chunk
      data but the pings finds, however the transport cuts. */
  lemma RequestsDelivered(c: R.Config, segs: seq<string>, groups: seq<Group>, chunks: seq<Chunk>)
    requires Framed(0, "", segs, groups, chunks)
    ensures Segments(Schedule(segs, groups)) && !LastRound("", Schedule(segs, groups)).Broken?
    ensures R.Agrees(c, R.FeedAll(c, R.INITIAL, R.Kept(Payloads("", Schedule(segs, groups)))),
                     R.ParseAll(c, "", Flat(R.Kept(DataOf(chunks)))))
  {
    hide R.FeedAll, R.ParseAll, R.Agrees, R.Kept, Framed, Payloads, LastRound;
    DecodesExactly(0, "", segs, groups, chunks);
    var given := R.Kept(DataOf(chunks));
    R.ChunkingIndependence(c, R.INITIAL, given);
    assert "" + Flat(given) == Flat(given);
  }

  // ---------------------------------------------------------------------
  // The local server's answer

  /** What the header loop of getLocalHostRespond has collected. */
  datatype AnswerHead = AnswerHead(text: string, length: nat, chunked: bool)

  const NO_HEAD := AnswerHead("", 0, false)

  /** The status line becomes a Status field. */
  function StatusLine(row: string): string {
    if StartsNoCase(row, "HTTP/1.1 ") then Replace(row, "HTTP/1.1 ", "Status: ") else row
  }

  function HeadStep(h: AnswerHead, row: string): AnswerHead {
    var d := StatusLine(row);
    var n := R.LengthAfter(d, h.length);
    if StartsNoCase(d, "Transfer-Encoding: chunked") then AnswerHead(h.text + "Content-Length: 0\n", n, true)
    else AnswerHead(h.text + (d + "\n"), n, h.chunked)
  }

  datatype HeadRead = HeadRead(head: AnswerHead, buf: string, pending: seq<string>, alive: bool)

  /** Rows up to the blank one, or to the end of the stream. */
  function ReadHead(h: AnswerHead, b: string, segs: seq<string>): (r: HeadRead)
    requires Segments(segs)
    ensures r.alive ==> Segments(r.pending)
    decreases |b + Flat(segs)|
  {
    match ReadRow(b, segs)
    case NoRow => HeadRead(h, "", [], false)
    case Row(text, b', segs') =>
      if text == "" then HeadRead(h, b', segs', true) else ReadHead(HeadStep(h, text), b', segs')
  }

  function HeadOfRows(h: AnswerHead, rows: seq<string>): AnswerHead
    decreases |rows|
  {
    if rows == [] then h else HeadOfRows(HeadStep(h, Chop(rows[0])), rows[1..])
  }

  predicate HeaderRow(row: string) {
    Lacks(row, '\n') && Lacks(row, NUL) && Chop(row) != ""
  }

  /** Fragmentation does not matter to the header: any cut of it is read row by
      row, and what a read has brought beyond it stays in the buffer. */
  lemma {:induction false} HeadReads(h: AnswerHead, b: string, segs: seq<string>, rest: seq<string>,
                                     rows: seq<string>, blank: string, tail: string)
    returns (b': string, segs': seq<string>)
    requires Segments(segs) && Segments(rest) && forall r | r in rows :: HeaderRow(r)
    requires Lacks(blank, '\n') && Lacks(blank, NUL) && Chop(blank) == ""
    requires b + Flat(segs) == WithNewlines(rows) + (blank + "\n" + tail)
    ensures Segments(segs + rest) && Segments(segs') && b' + Flat(segs') == tail
    ensures ReadHead(h, b, segs + rest) == HeadRead(HeadOfRows(h, rows), b', segs' + rest, true)
    decreases |rows|
  {
    hide ReadRow, HeadStep, Chop;
    if rows == [] {
      assert "" + (blank + "\n" + tail) == blank + "\n" + tail;
      b', segs' := ReadRowFinds(b, segs, rest, blank, tail);
    } else {
      assert HeaderRow(rows[0]);
      var more := WithNewlines(rows[1..]) + (blank + "\n" + tail);
      Assoc(rows[0] + "\n", WithNewlines(rows[1..]), blank + "\n" + tail);
      var b1, segs1 := ReadRowFinds(b, segs, rest, rows[0], more);
      b', segs' := HeadReads(HeadStep(h, Chop(rows[0])), b1, segs1, rest, rows[1..], blank, tail);
    }
  }

  /** The header loop. */
  method ReadRespondHead(soc: Socket) returns (head: AnswerHead)
    requires soc.Valid() && soc.alive
    modifies soc
    ensures soc.Valid()
    ensures var r := ReadHead(NO_HEAD, old(soc.buf), old(soc.pending));
            && head == r.head && soc.alive == r.alive
            && (r.alive ==> soc.buf == r.buf && soc.pending == r.pending)
    ensures Lacks(head.text, NUL)
  {
    hide ReadRow, StatusLine;
    var header, chunked, contentLen := "", false, 0;
    while true
      invariant soc.Valid() && soc.alive && Lacks(header, NUL)
      invariant ReadHead(NO_HEAD, old(soc.buf), old(soc.pending))
             == ReadHead(AnswerHead(header, contentLen, chunked), soc.buf, soc.pending)
      decreases |soc.buf + Flat(soc.pending)|
    {
      var row := GetChoppedRow(soc);
      if row == None || |row.value| == 0 {
        return AnswerHead(header, contentLen, chunked);
      }
      var data := row.value;
      if StartsNoCase(data, "HTTP/1.1 ") {
        data := StatusOf(data);
      }
      StatusIs(row.value);
      if StartsNoCase(data, "Content-Length: ") {
        contentLen := AtoSize(data[|"Content-Length: "|..]);
      }
      if StartsNoCase(data, "Transfer-Encoding: chunked") {
        chunked := true;
        header := header + "Content-Length: 0\n";
        continue;
      }
      header := header + (data + "\n");
    }
  }

  method StatusOf(data: CStr) returns (r: CStr)
    ensures r == Replace(data, "HTTP/1.1 ", "Status: ")
  {
    ReplaceLacks(data, "HTTP/1.1 ", "Status: ", NUL);
    r := PtReplaceStr(data, "HTTP/1.1 ", "Status: ");
  }

  lemma StatusIs(row: string)
    ensures StatusLine(row) == if StartsNoCase(row, "HTTP/1.1 ") then Replace(row, "HTTP/1.1 ", "Status: ") else row
  {
  }

  /** The dechunking loop of getLocalHostRespond: every block is copied behind what
      is there. None where the original has undefined behaviour: a block cut short
      or a negative size. */
  method Dechunk(soc: Socket) returns (content: Option<string>)
    requires soc.Valid() && soc.alive
    modifies soc
    ensures soc.Valid()
    ensures var r := LastRound(old(soc.buf), old(soc.pending));
            content == if r.Closed? || (r.End? && r.size == 0) then Some(Flat(Payloads(old(soc.buf), old(soc.pending))))
                       else None
  {
    hide NextRound, Payloads, LastRound;
    ghost var b, segs := soc.buf, soc.pending;
    ghost var done: seq<string> := [];
    var bytes := new char[0];
    var contentLen := 0;
    LoopStarts(R.Config("", ""), R.INITIAL, b, segs);
    while true
      invariant soc.Valid() && soc.alive && fresh(bytes)
      invariant Payloads(b, segs) == done + Payloads(soc.buf, soc.pending)
      invariant LastRound(b, segs) == LastRound(soc.buf, soc.pending)
      invariant bytes.Length == contentLen && bytes[..] == Flat(done)
      decreases |soc.buf + Flat(soc.pending)|
    {
      PayloadsStep(soc.buf, soc.pending, done);
      var round := ReadRound(soc);
      match round
      case Closed => return Some(bytes[..]);
      case Broken => return None;
      case End(len, _, _) => return if len == 0 then Some(bytes[..]) else None;
      case Blank(_, _) =>
      case Piece(data, _, _) =>
        FlatSnoc(done, data);
        bytes := Grown(bytes, contentLen, data);
        contentLen := contentLen + |data|;
        done := done + [data];
    }
  }

  /** malloc and two memcpy: the old bytes and the new ones behind them. */
  method Grown(content: array<char>, contentLen: nat, data: string) returns (t: array<char>)
    requires contentLen == content.Length
    ensures fresh(t) && t.Length == contentLen + |data| && t[..] == content[..] + data
  {
    t := new char[contentLen + |data|];
    MemCpy(t, 0, content[..]);
    MemCpy(t, contentLen, data);
  }

  const PLACEHOLDER := "Content-Length: 0"

  const LOCAL := "Location: http://localhost/"

  function Remote(id: CStr): CStr { "Location: http://" + id + ".piercloud.com/" }

  function Located(id: CStr, text: string): string {
    Replace(text, LOCAL, Remote(id))
  }

  function LengthField(n: nat): string { "Content-Length: " + Print(n, 10) }

  /** The header as it is sent on, for `n` bytes of content. */
  function WithLength(text: string, n: nat): string {
    Replace(text, PLACEHOLDER, LengthField(n))
  }

  /** GetBufFromSocket with the announced length, converted to ssize_t; None where
      the original copies from a null or freed pointer. */
  function PlainContent(length: nat, r: HeadRead): Option<string>
    requires r.alive ==> Segments(r.pending)
  {
    if length == 0 then Some("")
    else if length > LONG_MAX || !r.alive then None
    else
      FillBufFinds(r.buf, r.pending, length);
      var (b, segs) := FillBuf(r.buf, r.pending, length);
      if |b| < length then None else Some(b[..length])
  }

  function ChunkedContent(r: HeadRead): Option<string>
    requires r.alive ==> Segments(r.pending)
  {
    if !r.alive then Some("")
    else
      var last := LastRound(r.buf, r.pending);
      if last.Closed? || (last.End? && last.size == 0) then Some(Flat(Payloads(r.buf, r.pending))) else None
  }

  /** The answer handed on by getLocalHostRespond. */
  function LocalRespond(id: CStr, b: string, segs: seq<string>): Option<string>
    requires Segments(segs)
  {
    var r := ReadHead(NO_HEAD, b, segs);
    var located := Located(id, r.head.text);
    if r.head.chunked then
      match ChunkedContent(r)
      case None => None
      case Some(content) => Some(WithLength(located, |content|) + "\n" + content)
    else
      match PlainContent(r.head.length, r)
      case None => None
      case Some(content) => Some(located + "\n" + content)
  }

  method ReplaceText(header: CStr, search: CStr, replace: CStr) returns (r: CStr)
    requires search != ""
    ensures r == Replace(header, search, replace)
  {
    ReplaceLacks(header, search, replace, NUL);
    r := PtReplaceStr(header, search, replace);
  }

  lemma PrintLacksNul(n: nat)
    ensures Lacks(Print(n, 10), NUL)
  {
    PrintIsDigits(n, 10);
  }

  /** getLocalHostRespond, from the first row of the answer on. */
  method GetLocalHostRespond(id: CStr, soc: Socket) returns (respond: Option<string>)
    requires soc.Valid() && soc.alive
    modifies soc
    ensures soc.Valid()
    ensures respond == LocalRespond(id, old(soc.buf), old(soc.pending))
  {
    hide ReadHead, Payloads, LastRound, FillBuf, Print, Replace;
    var head := ReadRespondHead(soc);
    var header := ReplaceText(head.text, LOCAL, Remote(id));
    if !head.chunked {
      if head.length == 0 {
        assert header + "\n" + "" == header + "\n";
        return Some(header + "\n");
      }
      if head.length > LONG_MAX {
        return None;
      }
      ghost var b, segs := soc.buf, soc.pending;
      if soc.alive {
        BlockAtFront(b, segs, head.length);
      }
      var data := soc.GetBuf(head.length);
      return if data.Data? then Some(header + "\n" + data.bytes) else None;
    }
    var content := Some("");
    if soc.alive {
      content := Dechunk(soc);
    }
    if content == None {
      return None;
    }
    PrintLacksNul(|content.value|);
    header := ReplaceText(header, PLACEHOLDER, LengthField(|content.value|));
    respond := Some(header + "\n" + content.value);
  }

  lemma BlockAtFront(b: string, segs: seq<string>, size: nat)
    requires Segments(segs)
    ensures |FillBuf(b, segs, size).0| >= size <==> |b + Flat(segs)| >= size
    ensures |b + Flat(segs)| >= size ==> FillBuf(b, segs, size).0[..size] == (b + Flat(segs))[..size]
  {
    hide FillBuf;
    FillBufFinds(b, segs, size);
    var (x, y) := FillBuf(b, segs, size);
    if |x| >= size {
      BlockSlices(x, Flat(y), size);
    }
  }

  lemma FramedShift(b: string, segs: seq<string>, tail: string, groups: seq<Group>, chunks: seq<Chunk>)
    requires Framed(0, tail, [], groups, chunks) && Segments(segs) && b + Flat(segs) == tail
    ensures Framed(0, b, segs, groups, chunks)
  {
    hide Body, Ending, ValidChunk;
    assert tail + "" == tail;
  }

  /** Dechunk and reframe: from a chunked answer whose reads do not run past the end
      of a chunk, however its header is cut, comes the rewritten header, with the
      number of content bytes, and all the data. */
  lemma Reframed(id: CStr, segs: seq<string>, groups: seq<Group>, rows: seq<string>, tail: string, chunks: seq<Chunk>)
    requires Segments(segs) && forall r | r in rows :: HeaderRow(r)
    requires Flat(segs) == WithNewlines(rows) + ("\r" + "\n" + tail) && Framed(0, tail, [], groups, chunks)
    requires HeadOfRows(NO_HEAD, rows).chunked
    ensures Segments(Schedule(segs, groups))
    ensures var content := Flat(DataOf(chunks));
            LocalRespond(id, "", Schedule(segs, groups))
            == Some(WithLength(Located(id, HeadOfRows(NO_HEAD, rows).text), |content|) + "\n" + content)
  {
    hide Body, Ending, ValidChunk, WithLength, Located, HeadOfRows, ReadHead, Payloads, LastRound, Framed;
    LaterSegments(0, tail, [], groups, chunks);
    assert "" + Flat(segs) == Flat(segs);
    ChopIsFilter("", "", '\r');
    var b', segs' := HeadReads(NO_HEAD, "", segs, Later(groups), rows, "\r", tail);
    FramedShift(b', segs', tail, groups, chunks);
    DecodesExactly(0, b', segs', groups, chunks);
  }

  /** A plain answer: for any cut of header, blank row and what follows, the located
      header, a blank line and exactly the announced bytes; nothing defined exactly
      when fewer bytes come or the length is no ssize_t. */
  lemma PlainAnswer(id: CStr, segs: seq<string>, rows: seq<string>, tail: string)
    requires Segments(segs) && forall r | r in rows :: HeaderRow(r)
    requires Flat(segs) == WithNewlines(rows) + ("\r" + "\n" + tail)
    requires !HeadOfRows(NO_HEAD, rows).chunked
    ensures var h := HeadOfRows(NO_HEAD, rows);
            LocalRespond(id, "", segs)
            == if h.length <= |tail| && h.length <= LONG_MAX then Some(Located(id, h.text) + "\n" + tail[..h.length])
               else None
  {
    hide Located, HeadOfRows, ReadHead, FillBuf, HeaderRow;
    assert "" + Flat(segs) == Flat(segs) && segs + [] == segs;
    ChopIsFilter("", "", '\r');
    assert Segments([]);
    var b', segs' := HeadReads(NO_HEAD, "", segs, [], rows, "\r", tail);
    assert segs' + [] == segs';
    var n := HeadOfRows(NO_HEAD, rows).length;
    BlockAtFront(b', segs', n);
    assert tail[..0] == "";
  }

  lemma {:induction false} HeadCutOff(h: AnswerHead, b: string, segs: seq<string>, rows: seq<string>, part: string)
    requires Segments(segs) && (forall r | r in rows :: HeaderRow(r)) && Lacks(part, '\n')
    requires b + Flat(segs) == WithNewlines(rows) + part
    ensures ReadHead(h, b, segs) == HeadRead(HeadOfRows(h, rows), "", [], false)
    decreases |rows|
  {
    hide HeadStep, Chop;
    RowAtFront(b, segs);
    if rows == [] {
      assert "" + part == part;
      FindUnique('\n', part, |part|);
    } else {
      hide ReadRow;
      assert HeaderRow(rows[0]);
      assert segs + [] == segs && Segments([]);
      Assoc(rows[0] + "\n", WithNewlines(rows[1..]), part);
      var b1, segs1 := ReadRowFinds(b, segs, [], rows[0], WithNewlines(rows[1..]) + part);
      assert segs1 + [] == segs1;
      HeadCutOff(HeadStep(h, Chop(rows[0])), b1, segs1, rows[1..], part);
    }
  }

  /** A server that closes inside the header: the whole rows go out; a content length
      among them leaves the answer undefined, a chunked answer is sent as empty. */
  lemma CutAnswer(id: CStr, segs: seq<string>, rows: seq<string>, part: string)
    requires Segments(segs) && (forall r | r in rows :: HeaderRow(r)) && Lacks(part, '\n')
    requires Flat(segs) == WithNewlines(rows) + part
    ensures var h := HeadOfRows(NO_HEAD, rows);
            LocalRespond(id, "", segs)
            == if h.chunked then Some(WithLength(Located(id, h.text), 0) + "\n")
               else if h.length == 0 then Some(Located(id, h.text) + "\n")
               else None
  {
    hide ReadHead, HeadOfRows, Located, WithLength, HeaderRow;
    assert "" + Flat(segs) == Flat(segs);
    HeadCutOff(NO_HEAD, "", segs, rows, part);
    var located := Located(id, HeadOfRows(NO_HEAD, rows).text);
    assert located + "\n" + "" == located + "\n";
    assert WithLength(located, 0) + "\n" + "" == WithLength(located, 0) + "\n";
  }
}
