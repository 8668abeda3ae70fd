/** Chunked transfer coding (section 4.1 of RFC 7230) as both decoders of the
    client read it from a socket. */
module Chunks {
  import opened CString
  import opened CNumber
  import opened Liblst
  import opened Numerals
  import opened Sockets

  // ---------------------------------------------------------------------
  // One round of a decoder

  datatype Row = NoRow | Row(text: string, buf: string, pending: seq<string>)

  /** getRowFromSocket and chopStr: the next row without CR and LF. */
  function ReadRow(b: string, segs: seq<string>): (r: Row)
    requires Segments(segs)
    ensures r.Row? ==> Segments(r.pending) && |r.buf + Flat(r.pending)| < |b + Flat(segs)|
  {
    FillRowFinds(b, segs);
    var (b', segs') := FillRow(b, segs);
    var i := Find('\n', b');
    if HasRow(b') then
      RowSlices(b', Flat(segs'), i);
      Row(Chop(b'[..i]), b'[i + 1..], segs')
    else NoRow
  }

  /** The peer has closed; an empty row; a size that ends the loop; the peer has
      closed inside a block; a block of data. */
  datatype Round =
    | Closed
    | Blank(buf: string, pending: seq<string>)
    | End(size: int, buf: string, pending: seq<string>)
    | Broken
    | Piece(bytes: string, buf: string, pending: seq<string>)

  /** A row, its number in base 16, and as many bytes. */
  function NextRound(b: string, segs: seq<string>): (r: Round)
    requires Segments(segs)
    ensures r.Blank? || r.End? || r.Piece? ==> Segments(r.pending) && |r.buf + Flat(r.pending)| < |b + Flat(segs)|
    ensures r.Piece? ==> r.bytes != ""
  {
    match ReadRow(b, segs)
    case NoRow => Closed
    case Row(text, buf, pending) =>
      var size := Strtol(text, 16);
      if text == "" then Blank(buf, pending)
      else if size <= 0 then End(size, buf, pending)
      else
        FillBufFinds(buf, pending, size);
        var (b', segs') := FillBuf(buf, pending, size);
        if |b'| < size then Broken
        else
          BlockSlices(b', Flat(segs'), size);
          Piece(b'[..size], "", segs')
  }

  /** The blocks a decoder gets, one after the other. */
  function Payloads(b: string, segs: seq<string>): seq<string>
    requires Segments(segs)
    decreases |b + Flat(segs)|
  {
    match NextRound(b, segs)
    case Blank(b', segs') => Payloads(b', segs')
    case Piece(bytes, b', segs') => [bytes] + Payloads(b', segs')
    case _ => []
  }

  /** The round that ends the loop. */
  function LastRound(b: string, segs: seq<string>): (r: Round)
    requires Segments(segs)
    ensures r.Closed? || r.Broken? || r.End?
    decreases |b + Flat(segs)|
  {
    match NextRound(b, segs)
    case Blank(b', segs') => LastRound(b', segs')
    case Piece(bytes, b', segs') => LastRound(b', segs')
    case r => r
  }

  // ---------------------------------------------------------------------
  // Chunk streams

  const CRLF := "\r\n"

  /** A chunk: its size row, and its data. */
  datatype Chunk = Chunk(size: string, payload: string)

  /** The size row is one that reads as the length of the data, which is not empty. */
  predicate ValidChunk(c: Chunk) {
    && Lacks(c.size, '\n') && Lacks(c.size, NUL)
    && Chop(c.size) != "" && Strtol(Chop(c.size), 16) == |c.payload| > 0
  }

  /** Section 4.1 of RFC 7230: the size in hexadecimal digits of either letter case,
      with any leading zeros, perhaps an extension behind it. */
  lemma PrintedChunk(payload: string, zeros: nat, digits: string, extension: string)
    requires 0 < |payload| <= LONG_MAX && Lower(digits) == Lower(Print(|payload|, 16))
    requires Lacks(extension, '\n') && Lacks(extension, '\r') && Lacks(extension, NUL)
    requires extension == "" || (Position(extension[0]) >= 16 && extension[0] != 'x' && extension[0] != 'X')
    ensures ValidChunk(Chunk(Zeros(zeros) + digits + extension, payload))
  {
    hide Print, Chop, Strtol, Value, Position, IsNumeral, Lacks, Lower;
    var size := Zeros(zeros) + digits + extension;
    PrintIsNumeral(|payload|, 16);
    CaseAside(digits, Print(|payload|, 16), 16);
    SizePlain(zeros, digits, extension);
    ChopIsSubset(size, NUL);
    StrtolOfHex(|payload|, zeros, digits, extension);
  }

  lemma SizePlain(zeros: nat, digits: string, extension: string)
    requires IsNumeral(digits, 16)
    requires Lacks(extension, '\n') && Lacks(extension, '\r') && Lacks(extension, NUL)
    ensures var size := Zeros(zeros) + digits + extension;
            size != "" && Lacks(size, '\n') && Lacks(size, '\r') && Lacks(size, NUL)
  {
    hide IsNumeral;
    NumeralPlain(digits);
  }

  lemma NumeralPlain(digits: string)
    requires IsNumeral(digits, 16)
    ensures digits != "" && Lacks(digits, '\n') && Lacks(digits, '\r') && Lacks(digits, NUL)
  {
    NumeralDigits(digits, 16);
  }

  /** What the peer sends for a chunk, without the CRLF behind the data. */
  function Body(c: Chunk): string {
    c.size + CRLF + c.payload
  }

  /** The last `n` bytes of the CRLF behind a chunk, and the bytes before them. */
  function Lead(n: nat): string
    requires n <= 2
  {
    CRLF[2 - n..]
  }

  function Trail(n: nat): string
    requires n <= 2
  {
    CRLF[..2 - n]
  }

  /** Pieces that the transport delivers for one chunk: first the last `lead` bytes
      of the CRLF of the chunk before, then the chunk itself. */
  datatype Group = Group(lead: nat, segs: seq<string>)

  /** The stream ends here for a decoder: no further row, or a size of 0. */
  predicate Ending(s: string) {
    HasRow(s) ==> var row := Chop(s[..Find('\n', s)]); row != "" && Strtol(row, 16) == 0
  }

  /** The read condition. The decoder holds `b`, the pieces `segs` come first and
      belong to the current chunk, the groups of the later ones follow: no read runs
      past the end of its chunk, only the cut inside the CRLF is free. */
  predicate Framed(lead: nat, b: string, segs: seq<string>, groups: seq<Group>, chunks: seq<Chunk>)
    decreases |chunks|
  {
    && lead <= 2 && Segments(segs) && |groups| == |chunks|
    && if chunks == [] then Lead(lead) <= b + Flat(segs) && Ending((b + Flat(segs))[lead..])
       else
         && ValidChunk(chunks[0]) && groups[0].lead <= 2
         && b + Flat(segs) == Lead(lead) + (Body(chunks[0]) + Trail(groups[0].lead))
         && Framed(groups[0].lead, "", groups[0].segs, groups[1..], chunks[1..])
  }

  /** The pieces behind the current chunk. */
  function Later(groups: seq<Group>): seq<string> {
    if groups == [] then [] else groups[0].segs + Later(groups[1..])
  }

  /** All that is to come from the transport. */
  function Schedule(segs: seq<string>, groups: seq<Group>): seq<string> {
    segs + Later(groups)
  }

  function DataOf(chunks: seq<Chunk>): (r: seq<string>)
    ensures |r| == |chunks|
  {
    if chunks == [] then [] else [chunks[0].payload] + DataOf(chunks[1..])
  }

  // ---------------------------------------------------------------------
  // Rounds under the read condition

  /** A row that lies in front is read as it is, and pieces behind it stay. */
  lemma ReadRowFinds(b: string, segs: seq<string>, rest: seq<string>, row: string, tail: string)
    returns (b': string, segs': seq<string>)
    requires Segments(segs) && Segments(rest) && b + Flat(segs) == row + "\n" + tail
    requires Lacks(row, '\n') && Lacks(row, NUL)
    ensures Segments(segs + rest) && Segments(segs')
    ensures ReadRow(b, segs + rest) == Row(Chop(row), b', segs' + rest) && b' + Flat(segs') == tail
  {
    var s := b + Flat(segs);
    FirstRow(s, row, tail);
    FillRowFinds(b, segs);
    FillRowLocal(b, segs, rest);
    var (x, y) := FillRow(b, segs);
    RowSlices(x, Flat(y), |row|);
    b', segs' := x[|row| + 1..], y;
  }

  lemma FirstRow(s: string, row: string, tail: string)
    requires s == row + "\n" + tail && Lacks(row, '\n') && Lacks(row, NUL)
    ensures HasRow(s) && Find('\n', s) == |row| && s[..|row|] == row && s[|row| + 1..] == tail
  {
    FindUnique('\n', s, |row|);
  }

  /** The data of a chunk, with the surplus of the buffer lost: it is the front of
      the CRLF behind the data. */
  lemma BlockFinds(b: string, segs: seq<string>, rest: seq<string>, data: string, trail: string)
    returns (segs': seq<string>)
    requires Segments(segs) && Segments(rest) && b + Flat(segs) == data + trail
    ensures Segments(segs + rest) && Segments(segs')
    ensures var (b', s') := FillBuf(b, segs + rest, |data|);
            |b'| >= |data| && b'[..|data|] == data && s' == segs' + rest
            && b'[|data|..] + Flat(segs') == trail
  {
    FillBufFinds(b, segs, |data|);
    FillBufLocal(b, segs, rest, |data|);
    var (x, y) := FillBuf(b, segs, |data|);
    Aligned(x, Flat(y), data, trail);
    segs' := y;
  }

  lemma Aligned(x: string, y: string, data: string, trail: string)
    requires x + y == data + trail && |x| >= |data|
    ensures x[..|data|] == data && x[|data|..] + y == trail
  {
    assert (x + y)[..|data|] == x[..|data|];
    assert (data + trail)[..|data|] == data;
    assert (x + y)[|data|..] == x[|data|..] + y;
    assert (data + trail)[|data|..] == trail;
  }

  lemma SegmentsAppend(a: seq<string>, b: seq<string>)
    requires Segments(a) && Segments(b)
    ensures Segments(a + b)
  {
  }

  lemma {:induction false} LaterSegments(lead: nat, b: string, segs: seq<string>, groups: seq<Group>, chunks: seq<Chunk>)
    requires Framed(lead, b, segs, groups, chunks)
    ensures Segments(Later(groups)) && Segments(Schedule(segs, groups))
    decreases |chunks|
  {
    hide Segments, Body, Ending, ValidChunk, Flat;
    if chunks != [] {
      LaterSegments(groups[0].lead, "", groups[0].segs, groups[1..], chunks[1..]);
      SegmentsAppend(groups[0].segs, Later(groups[1..]));
    } else {
      NoSegments();
    }
    SegmentsAppend(segs, Later(groups));
  }

  lemma NoSegments()
    ensures Segments([])
  {
  }

  /** What is left of the CRLF of the chunk before is skipped. */
  lemma SkipLead(lead: nat, b: string, segs: seq<string>, groups: seq<Group>, chunks: seq<Chunk>)
    returns (b': string, segs': seq<string>)
    requires lead > 0 && Framed(lead, b, segs, groups, chunks)
    ensures Framed(0, b', segs', groups, chunks)
    ensures Segments(Schedule(segs, groups)) && Segments(Schedule(segs', groups))
    ensures NextRound(b, Schedule(segs, groups)) == Blank(b', Schedule(segs', groups))
  {
    LaterSegments(lead, b, segs, groups, chunks);
    var row := if lead == 1 then "" else "\r";
    var s := b + Flat(segs);
    LeadRow(s, lead);
    b', segs' := ReadRowFinds(b, segs, Later(groups), row, s[lead..]);
    ChopIsFilter("", "", '\r');
    FramedNext(lead, b, segs, b', segs', groups, chunks);
    LaterSegments(0, b', segs', groups, chunks);
  }

  lemma LeadRow(s: string, lead: nat)
    requires 0 < lead <= 2 && Lead(lead) <= s
    ensures s == (if lead == 1 then "" else "\r") + "\n" + s[lead..]
    ensures Chop("") == "" && Chop("\r") == ""
  {
    ChopIsFilter("", "", '\r');
    assert s == Lead(lead) + s[lead..];
    assert lead == 1 ==> Lead(lead) == "" + "\n";
    assert lead == 2 ==> Lead(lead) == "\r" + "\n";
  }

  lemma FramedNext(lead: nat, b: string, segs: seq<string>, b': string, segs': seq<string>,
                   groups: seq<Group>, chunks: seq<Chunk>)
    requires 0 < lead && Framed(lead, b, segs, groups, chunks)
    requires Segments(segs') && b' + Flat(segs') == (b + Flat(segs))[lead..]
    ensures Framed(0, b', segs', groups, chunks)
  {
    assert Lead(0) == "";
    if chunks == [] {
      var s := b' + Flat(segs');
      assert s[0..] == s;
    } else {
      var x := Body(chunks[0]) + Trail(groups[0].lead);
      assert (Lead(lead) + x)[lead..] == x && "" + x == x;
    }
  }

  /** The current chunk is read: its data, whole. */
  lemma ReadChunk(b: string, segs: seq<string>, groups: seq<Group>, chunks: seq<Chunk>)
    returns (lead': nat, segs': seq<string>)
    requires chunks != [] && Framed(0, b, segs, groups, chunks)
    ensures Segments(Schedule(segs, groups))
    ensures Framed(lead', "", segs', groups[1..], chunks[1..]) && Segments(Schedule(segs', groups[1..]))
    ensures NextRound(b, Schedule(segs, groups)) == Piece(chunks[0].payload, "", Schedule(segs', groups[1..]))
  {
    hide Segments, Body, Ending, ValidChunk, Flat, Lead, NextRound;
    LaterSegments(0, b, segs, groups, chunks);
    var g := groups[0];
    var left := ChunkRound(b, segs, Later(groups), chunks[0], Trail(g.lead));
    var dropped := Trail(g.lead)[..|Trail(g.lead)| - |Flat(left)|];
    lead', segs' := |Flat(left)| + g.lead, left + g.segs;
    LeadGrows(dropped, left, g);
    FramedFrom(g, left, groups[1..], chunks[1..]);
    LaterSegments(lead', "", segs', groups[1..], chunks[1..]);
    assert left + (g.segs + Later(groups[1..])) == (left + g.segs) + Later(groups[1..]);
  }

  /** A round at the size row of a chunk takes the data and drops no more than the
      CRLF behind it. */
  lemma ChunkRound(b: string, segs: seq<string>, rest: seq<string>, c: Chunk, trail: string)
    returns (left: seq<string>)
    requires Segments(segs) && Segments(rest) && ValidChunk(c)
    requires b + Flat(segs) == Lead(0) + (Body(c) + trail)
    ensures Segments(segs + rest) && Segments(left)
    ensures NextRound(b, segs + rest) == Piece(c.payload, "", left + rest)
    ensures |Flat(left)| <= |trail| && trail[|trail| - |Flat(left)|..] == Flat(left)
  {
    hide Body, Lead, Segments, Flat, Chop, Strtol;
    ChunkRow(b + Flat(segs), c, trail);
    var b1, segs1 := ReadRowFinds(b, segs, rest, c.size + "\r", c.payload + trail);
    left := BlockFinds(b1, segs1, rest, c.payload, trail);
    var dropped := FillBuf(b1, segs1 + rest, |c.payload|).0[|c.payload|..];
    assert (dropped + Flat(left))[|dropped|..] == Flat(left);
  }

  lemma ChunkRow(s: string, c: Chunk, trail: string)
    requires ValidChunk(c) && s == Lead(0) + (Body(c) + trail)
    ensures s == (c.size + "\r") + "\n" + (c.payload + trail)
    ensures Lacks(c.size + "\r", '\n') && Lacks(c.size + "\r", NUL)
    ensures Chop(c.size + "\r") == Chop(c.size)
  {
    ChopIsFilter(c.size, "\r", '\r');
    assert Chop(c.size) + "" == Chop(c.size);
  }

  /** What is not yet read of the CRLF goes in front of the next chunk. */
  lemma LeadGrows(dropped: string, left: seq<string>, g: Group)
    requires g.lead <= 2 && dropped + Flat(left) == Trail(g.lead)
    ensures |Flat(left)| + g.lead <= 2
    ensures Lead(|Flat(left)| + g.lead) == Flat(left) + Lead(g.lead)
  {
    var n := |Flat(left)|;
    assert Flat(left) == Trail(g.lead)[2 - g.lead - n..];
  }

  lemma FramedFrom(g: Group, left: seq<string>, groups: seq<Group>, chunks: seq<Chunk>)
    requires Framed(g.lead, "", g.segs, groups, chunks) && Segments(left)
    requires |Flat(left)| + g.lead <= 2 && Lead(|Flat(left)| + g.lead) == Flat(left) + Lead(g.lead)
    ensures Framed(|Flat(left)| + g.lead, "", left + g.segs, groups, chunks)
  {
    hide Segments, Body, Ending, ValidChunk, Flat;
    FlatAppend(left, g.segs);
    SegmentsAppend(left, g.segs);
    var s, x := Flat(g.segs), Flat(left);
    assert "" + s == s && "" + (x + s) == x + s;
    if chunks == [] {
      PrefixShifts(x, s, Lead(g.lead));
    } else {
      Assoc(x, Lead(g.lead), Body(chunks[0]) + Trail(groups[0].lead));
    }
  }

  lemma PrefixShifts(x: string, s: string, l: string)
    requires l <= s
    ensures x + l <= x + s && (x + s)[|x| + |l|..] == s[|l|..]
  {
    var t := s[|l|..];
    assert s == l + t;
    assert x + s == (x + l) + t;
    assert (x + s)[..|x + l|] == x + l;
  }

  lemma ReadEnd(b: string, segs: seq<string>, groups: seq<Group>)
    requires Framed(0, b, segs, groups, [])
    ensures Schedule(segs, groups) == segs && Segments(segs)
    ensures NextRound(b, segs).Closed? || (NextRound(b, segs).End? && NextRound(b, segs).size == 0)
  {
    var s := b + Flat(segs);
    assert s[0..] == s && segs + [] == segs;
    FillRowFinds(b, segs);
    var (x, y) := FillRow(b, segs);
    if HasRow(x) {
      RowSlices(x, Flat(y), Find('\n', x));
    }
  }

  /** Chunk stream decoding: when no read runs past the end of its chunk, the
      blocks are the data of the chunks, whatever bytes they hold and however the
      transport cuts them. */
  lemma {:induction false} DecodesExactly(lead: nat, b: string, segs: seq<string>, groups: seq<Group>, chunks: seq<Chunk>)
    requires Framed(lead, b, segs, groups, chunks)
    ensures Segments(Schedule(segs, groups))
    ensures Payloads(b, Schedule(segs, groups)) == DataOf(chunks)
    ensures var r := LastRound(b, Schedule(segs, groups)); r.Closed? || (r.End? && r.size == 0)
    decreases |chunks|, lead
  {
    hide Segments, Body, ValidChunk, Flat, NextRound, Schedule, Ending;
    LaterSegments(lead, b, segs, groups, chunks);
    if lead > 0 {
      var b', segs' := SkipLead(lead, b, segs, groups, chunks);
      DecodesExactly(0, b', segs', groups, chunks);
    } else if chunks == [] {
      ReadEnd(b, segs, groups);
    } else {
      var lead', segs' := ReadChunk(b, segs, groups, chunks);
      DecodesExactly(lead', "", segs', groups[1..], chunks[1..]);
    }
  }

  /** What the buffer holds beyond the block asked for. */
  function Surplus(buf: string, n: nat): string {
    if n < |buf| then buf[n..] else ""
  }

  /** On any stream: what a round with data drops is exactly the surplus that the
      reads for the row had brought; filling up never reads too much. */
  lemma DroppedExactly(b: string, segs: seq<string>)
    requires Segments(segs) && NextRound(b, segs).Piece?
    ensures var row, r := ReadRow(b, segs), NextRound(b, segs);
            && row.Row? && Strtol(row.text, 16) == |r.bytes|
            && row.buf + Flat(row.pending) == (r.bytes + Surplus(row.buf, |r.bytes|)) + (r.buf + Flat(r.pending))
  {
    hide ReadRow, Strtol, FillBuf, Flat;
    var row := ReadRow(b, segs);
    var size := Strtol(row.text, 16);
    FillBufFinds(row.buf, row.pending, size);
    var (x, y) := FillBuf(row.buf, row.pending, size);
    assert x[..size] + x[size..] == x && "" + Flat(y) == Flat(y);
    assert x[size..] == Surplus(row.buf, size);
  }

  /** The stream goes on with `more`, or with an end of the CRLF in front of it. */
  predicate AtNext(s: string, more: string) {
    |more| <= |s| <= |more| + 2 && s == Lead(|s| - |more|) + more
  }

  /** The read condition is exact, chunk by chunk: wherever the transport cuts, the
      round takes the data, and it leaves the stream at what follows the chunk
      exactly when the read for its size row brought no byte behind its CRLF. */
  lemma NextChunkExactly(b: string, segs: seq<string>, c: Chunk, more: string)
    requires Segments(segs) && ValidChunk(c) && b + Flat(segs) == Body(c) + (CRLF + more)
    ensures ReadRow(b, segs).Row? && NextRound(b, segs).Piece?
    ensures NextRound(b, segs).bytes == c.payload && NextRound(b, segs).buf == ""
    ensures AtNext(Flat(NextRound(b, segs).pending), more) <==> |ReadRow(b, segs).buf| <= |c.payload| + 2
  {
    hide Body, Segments, Flat, Chop, Strtol, FillBuf;
    var tail := CRLF + more;
    assert Lead(0) + (Body(c) + tail) == Body(c) + tail;
    ChunkRow(b + Flat(segs), c, tail);
    NoSegments();
    assert segs + [] == segs;
    var b1, segs1 := ReadRowFinds(b, segs, [], c.size + "\r", c.payload + tail);
    assert segs1 + [] == segs1;
    var left := BlockFinds(b1, segs1, [], c.payload, tail);
    assert left + [] == left;
    FillBufFinds(b1, segs1, |c.payload|);
    var dropped := FillBuf(b1, segs1, |c.payload|).0[|c.payload|..];
    CutTail(dropped, Flat(left), more);
  }

  lemma CutTail(dropped: string, left: string, more: string)
    requires dropped + left == CRLF + more
    ensures AtNext(left, more) <==> |dropped| <= 2
  {
    assert (dropped + left)[|dropped|..] == left;
    if |dropped| <= 2 {
      assert left == CRLF[|dropped|..] + more;
    }
  }

  lemma OneRead(x: string)
    requires 0 < |x| <= READ_BUF_SIZE && HasRow(x)
    ensures Segments([x]) && FillRow("", [x]) == (x, [])
  {
    ReadConserves([x], READ_BUF_SIZE);
    assert [x][1..] == [] && "" + x == x;
    FindUnique('\n', "", 0);
    assert FillRow(x, []) == (x, []);
    assert ReadData([x], READ_BUF_SIZE) == x && ReadRest([x], READ_BUF_SIZE) == [];
  }

  lemma CoalescedRound(c: Chunk, tail: string)
    requires ValidChunk(c) && |Body(c) + tail| <= READ_BUF_SIZE
    ensures Segments([Body(c) + tail])
    ensures NextRound("", [Body(c) + tail]) == Piece(c.payload, "", [])
  {
    hide Strtol, Chop, FillRow;
    var x := Body(c) + tail;
    assert x == Lead(0) + (Body(c) + tail);
    ChunkRow(x, c, tail);
    FirstRow(x, c.size + "\r", c.payload + tail);
    OneRead(x);
    assert (c.payload + tail)[..|c.payload|] == c.payload;
  }

  /** The condition is needed: when one read brings a chunk and bytes behind its
      CRLF, these bytes are lost, whatever they are. */
  lemma CoalescedReadLoses(c: Chunk, more: string)
    requires ValidChunk(c) && |Body(c) + CRLF + more| <= 512
    ensures Segments([Body(c) + CRLF + more])
    ensures Payloads("", [Body(c) + CRLF + more]) == [c.payload]
  {
    hide ValidChunk, Body, NextRound;
    assert Body(c) + CRLF + more == Body(c) + (CRLF + more);
    CoalescedRound(c, CRLF + more);
    NothingLeft();
    assert [c.payload] + [] == [c.payload];
  }

  lemma NothingLeft()
    ensures Segments([]) && NextRound("", []).Closed?
  {
    FindUnique('\n', "", 0);
  }
}
