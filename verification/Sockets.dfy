/** Rows and counted blocks over a transport that hands out its bytes in pieces
    of any size. */
module Sockets {
  import opened CString
  import opened Liblst

  // ---------------------------------------------------------------------
  // The transport

  /** What the peer will still send, cut the way reads will deliver it. A read
      that asks for less than the next piece gets the front of it. */
  predicate Segments(segs: seq<string>) {
    forall s | s in segs :: s != ""
  }

  function ReadData(segs: seq<string>, size: nat): string
    requires segs != []
  {
    if |segs[0]| <= size then segs[0] else segs[0][..size]
  }

  function ReadRest(segs: seq<string>, size: nat): seq<string>
    requires segs != []
  {
    if |segs[0]| <= size then segs[1..] else [segs[0][size..]] + segs[1..]
  }

  lemma ReadConserves(segs: seq<string>, size: nat)
    requires segs != [] && Segments(segs) && size > 0
    ensures Segments(ReadRest(segs, size))
    ensures 0 < |ReadData(segs, size)| <= size
    ensures ReadData(segs, size) + Flat(ReadRest(segs, size)) == Flat(segs)
  {
    assert segs[0] in segs;
    assert forall s | s in segs[1..] :: s in segs;
    if |segs[0]| > size {
      var rest := [segs[0][size..]] + segs[1..];
      assert rest[1..] == segs[1..];
      Assoc(segs[0][..size], segs[0][size..], Flat(segs[1..]));
      assert segs[0][..size] + segs[0][size..] == segs[0];
    }
  }

  lemma ReadLocal(segs: seq<string>, rest: seq<string>, size: nat)
    requires segs != []
    ensures ReadData(segs + rest, size) == ReadData(segs, size)
    ensures ReadRest(segs + rest, size) == ReadRest(segs, size) + rest
  {
    assert (segs + rest)[1..] == segs[1..] + rest;
  }

  // ---------------------------------------------------------------------
  // Rows

  const READ_BUF_SIZE := 512

  /** strchr(buf, '\n') finds something: a newline with no NUL in front of it. */
  predicate HasRow(b: string) {
    Find('\n', b) < |b| && Find('\n', b) < Find(NUL, b)
  }

  /** The buffer and the transport when a row is there or nothing is left. */
  function FillRow(b: string, segs: seq<string>): (string, seq<string>)
    requires Segments(segs)
    decreases |Flat(segs)|
  {
    if HasRow(b) || segs == [] then (b, segs)
    else
      ReadConserves(segs, READ_BUF_SIZE);
      FillRow(b + ReadData(segs, READ_BUF_SIZE), ReadRest(segs, READ_BUF_SIZE))
  }

  lemma HasRowAppend(b: string, t: string)
    requires HasRow(b)
    ensures HasRow(b + t) && Find('\n', b + t) == Find('\n', b)
  {
    FindAppend('\n', b, t);
    FindAppend(NUL, b, t);
  }

  /** Whatever the pieces: the row is found exactly when the stream has one, it is
      the stream's first row, and no byte is lost. */
  lemma {:induction false} FillRowFinds(b: string, segs: seq<string>)
    requires Segments(segs)
    ensures var (b', segs') := FillRow(b, segs);
            && Segments(segs') && b' + Flat(segs') == b + Flat(segs)
            && (HasRow(b') <==> HasRow(b + Flat(segs)))
            && (!HasRow(b') ==> segs' == [])
            && (HasRow(b') ==> Find('\n', b') == Find('\n', b + Flat(segs)))
    decreases |Flat(segs)|
  {
    if HasRow(b) {
      HasRowAppend(b, Flat(segs));
    } else if segs == [] {
      assert b + "" == b;
    } else {
      ReadConserves(segs, READ_BUF_SIZE);
      Assoc(b, ReadData(segs, READ_BUF_SIZE), Flat(ReadRest(segs, READ_BUF_SIZE)));
      FillRowFinds(b + ReadData(segs, READ_BUF_SIZE), ReadRest(segs, READ_BUF_SIZE));
    }
  }

  /** Reading for a row stops in the piece that completes it: pieces behind are
      not touched. */
  lemma {:induction false} FillRowLocal(b: string, segs: seq<string>, rest: seq<string>)
    requires Segments(segs) && Segments(rest) && HasRow(b + Flat(segs))
    ensures Segments(segs + rest)
    ensures FillRow(b, segs + rest) == (FillRow(b, segs).0, FillRow(b, segs).1 + rest)
    decreases |Flat(segs)|
  {
    assert Segments(segs + rest);
    if !HasRow(b) {
      assert segs == [] ==> b + Flat(segs) == b;
      ReadConserves(segs, READ_BUF_SIZE);
      ReadLocal(segs, rest, READ_BUF_SIZE);
      Assoc(b, ReadData(segs, READ_BUF_SIZE), Flat(ReadRest(segs, READ_BUF_SIZE)));
      FillRowLocal(b + ReadData(segs, READ_BUF_SIZE), ReadRest(segs, READ_BUF_SIZE), rest);
    }
  }

  /** The rows of a stream: its newline-ended lines, up to the first NUL. */
  function Rows(s: string): seq<string>
    decreases |s|
  {
    if HasRow(s) then [s[..Find('\n', s)]] + Rows(s[Find('\n', s) + 1..]) else []
  }

  /** The rows that calls of GetRowFromSocket return one after the other. */
  function RowsRead(b: string, segs: seq<string>): seq<string>
    requires Segments(segs)
    decreases |b| + |Flat(segs)|
  {
    FillRowFinds(b, segs);
    var (b', segs') := FillRow(b, segs);
    if HasRow(b') then
      var i := Find('\n', b');
      assert |b'| + |Flat(segs')| == |b' + Flat(segs')| == |b + Flat(segs)|;
      [b'[..i]] + RowsRead(b'[i + 1..], segs')
    else []
  }

  /** Fragmentation independence: they are the rows of the stream. */
  lemma {:induction false} RowsReadAreRows(b: string, segs: seq<string>)
    requires Segments(segs)
    ensures RowsRead(b, segs) == Rows(b + Flat(segs))
    decreases |b| + |Flat(segs)|
  {
    FillRowFinds(b, segs);
    var (b', segs') := FillRow(b, segs);
    if HasRow(b') {
      var i := Find('\n', b');
      assert |b'| + |Flat(segs')| == |b' + Flat(segs')| == |b + Flat(segs)|;
      RowSlices(b', Flat(segs'), i);
      RowsReadAreRows(b'[i + 1..], segs');
    }
  }

  lemma RowSlices(b: string, t: string, i: nat)
    requires i < |b|
    ensures (b + t)[..i] == b[..i] && (b + t)[i + 1..] == b[i + 1..] + t
  {
  }

  /** What stands behind the last row. */
  function Unfinished(s: string): string
    decreases |s|
  {
    if HasRow(s) then Unfinished(s[Find('\n', s) + 1..]) else s
  }

  /** The rows of a stream without NUL, with their newlines, and the unfinished
      last row are the stream. */
  lemma {:induction false} RowsAreTheStream(s: string)
    requires Lacks(s, NUL)
    ensures WithNewlines(Rows(s)) + Unfinished(s) == s && Lacks(Unfinished(s), '\n')
    decreases |s|
  {
    if HasRow(s) {
      var i := Find('\n', s);
      var rest := s[i + 1..];
      RowsAreTheStream(rest);
      Rejoin(s, i, WithNewlines(Rows(rest)), Unfinished(rest));
      RowsHead(s, i);
    } else {
      assert "" + s == s;
    }
  }

  lemma RowsHead(s: string, i: nat)
    requires HasRow(s) && i == Find('\n', s)
    ensures WithNewlines(Rows(s)) == s[..i] + "\n" + WithNewlines(Rows(s[i + 1..]))
  {
    assert Rows(s)[1..] == Rows(s[i + 1..]);
  }

  function WithNewlines(rows: seq<string>): string {
    if rows == [] then "" else rows[0] + "\n" + WithNewlines(rows[1..])
  }

  lemma Rejoin(s: string, i: nat, rest: string, tail: string)
    requires i < |s| && s[i] == '\n' && rest + tail == s[i + 1..]
    ensures (s[..i] + "\n" + rest) + tail == s
  {
  }

  // ---------------------------------------------------------------------
  // Counted blocks

  /** The buffer and the transport when `size` bytes are there or nothing is left. */
  function FillBuf(b: string, segs: seq<string>, size: nat): (string, seq<string>)
    requires Segments(segs)
    decreases |Flat(segs)|
  {
    if |b| >= size || segs == [] then (b, segs)
    else
      ReadConserves(segs, size - |b|);
      FillBuf(b + ReadData(segs, size - |b|), ReadRest(segs, size - |b|), size)
  }

  /** A fill asks for what is missing only, so it never reads past `size`. */
  lemma {:induction false} FillBufFinds(b: string, segs: seq<string>, size: nat)
    requires Segments(segs)
    ensures var (b', segs') := FillBuf(b, segs, size);
            && Segments(segs') && b' + Flat(segs') == b + Flat(segs)
            && (|b'| >= size <==> |b + Flat(segs)| >= size)
            && (|b'| < size ==> segs' == [])
            && (|b| >= size ==> b' == b && segs' == segs)
            && (|b| <= size ==> |b'| <= size)
    decreases |Flat(segs)|
  {
    if |b| < size && segs != [] {
      ReadConserves(segs, size - |b|);
      Assoc(b, ReadData(segs, size - |b|), Flat(ReadRest(segs, size - |b|)));
      FillBufFinds(b + ReadData(segs, size - |b|), ReadRest(segs, size - |b|), size);
    }
  }

  lemma {:induction false} FillBufLocal(b: string, segs: seq<string>, rest: seq<string>, size: nat)
    requires Segments(segs) && Segments(rest) && |b + Flat(segs)| >= size
    ensures Segments(segs + rest)
    ensures FillBuf(b, segs + rest, size) == (FillBuf(b, segs, size).0, FillBuf(b, segs, size).1 + rest)
    decreases |Flat(segs)|
  {
    assert Segments(segs + rest);
    if |b| < size {
      assert segs == [] ==> |b + Flat(segs)| == |b|;
      ReadConserves(segs, size - |b|);
      ReadLocal(segs, rest, size - |b|);
      Assoc(b, ReadData(segs, size - |b|), Flat(ReadRest(segs, size - |b|)));
      FillBufLocal(b + ReadData(segs, size - |b|), ReadRest(segs, size - |b|), rest, size);
    }
  }

  // ---------------------------------------------------------------------
  // Socket_t

  /** What GetBufFromSocket leaves in its out pointer. */
  datatype Got = Data(bytes: string) | Null | Unset

  /** `buf_len` is the length of `buf`; a dead socket has lost its buffer. */
  class Socket {
    var buf: string
    var alive: bool
    var pending: seq<string>

    predicate Valid()
      reads this
    {
      Segments(pending) && (!alive ==> buf == "")
    }

    /** Everything this socket will still see. */
    function Stream(): string
      reads this
    {
      buf + Flat(pending)
    }

    constructor (pending: seq<string>)
      requires Segments(pending)
      ensures Valid() && alive && buf == "" && this.pending == pending
    {
      this.buf, this.alive, this.pending := "", true, pending;
    }

    /** IncreaseSoc: one read of at most `size` bytes, 0 when the peer has closed. */
    method Increase(size: nat) returns (r: nat)
      requires Valid() && alive && size > 0
      modifies this
      ensures Valid() && alive
      ensures if old(pending) == [] then r == 0 && buf == old(buf) && pending == []
              else r > 0 && buf == old(buf) + ReadData(old(pending), size) && pending == ReadRest(old(pending), size)
    {
      if pending == [] {
        return 0;
      }
      ReadConserves(pending, size);
      var data := ReadData(pending, size);
      buf, pending := buf + data, ReadRest(pending, size);
      r := |data|;
    }

    method Die()
      modifies this
      ensures Valid() && !alive && pending == []
      requires pending == []
    {
      buf, alive := "", false;
    }

    /** GetRowFromSocket: null when the peer closes before a row is complete. */
    method GetRow() returns (row: array?<char>)
      requires Valid()
      modifies this
      ensures Valid()
      ensures row == null <==> !(old(alive) && HasRow(old(Stream())))
      ensures row == null ==> !alive
      ensures row != null ==> fresh(row) && alive && Terminated(row[..])
      ensures row != null ==>
                var all := old(Stream());
                var i := Find('\n', all);
                && Str(row[..]) == all[..i] && Stream() == all[i + 1..]
                && (all[..i + 1] + buf, pending) == FillRow(old(buf), old(pending))
    {
      row := null;
      if !alive {
        return;
      }
      FillRowFinds(buf, pending);
      while !HasRow(buf)
        invariant Valid() && alive
        invariant FillRow(buf, pending) == FillRow(old(buf), old(pending))
        decreases |Flat(pending)|
      {
        ghost var before := pending;
        if before != [] {
          ReadConserves(before, READ_BUF_SIZE);
        }
        var r := Increase(READ_BUF_SIZE);
        if r <= 0 {
          Die();
          return;
        }
      }
      var i := Find('\n', buf);
      RowSlices(buf, Flat(pending), i);
      RowPrefix(buf, Flat(pending), i);
      row := StrDup(buf[..i]);
      FindUnique(NUL, row[..], i);
      buf := buf[i + 1..];
    }

    /** GetBufFromSocket: fill up to `size`, hand the whole buffer over, of which
        the caller uses `size` bytes, and start with an empty one. */
    method GetBuf(size: int) returns (got: Got)
      requires Valid()
      modifies this
      ensures Valid()
      ensures got.Null? <==> size <= 0 || !old(alive)
      ensures got.Null? ==> alive == old(alive) && buf == old(buf) && pending == old(pending)
      ensures got.Unset? ==> !alive && |old(Stream())| < size
      ensures got.Data? ==> 0 < size <= |old(Stream())| && alive && got.bytes == old(Stream())[..size]
      ensures got.Data? ==> size > 0 && buf == "" && pending == FillBuf(old(buf), old(pending), size).1
      ensures got.Data? ==> (got.bytes + Stream() == old(Stream()) <==> |old(buf)| <= size)
    {
      if size < 0 || !alive || size == 0 {
        return Null;
      }
      FillBufFinds(buf, pending, size);
      while |buf| < size
        invariant Valid() && alive
        invariant FillBuf(buf, pending, size) == FillBuf(old(buf), old(pending), size)
        decreases |Flat(pending)|
      {
        ghost var before := pending;
        if before != [] {
          ReadConserves(before, size - |buf|);
        }
        var r := Increase(size - |buf|);
        if r <= 0 {
          Die();
          return Unset;
        }
      }
      BlockSlices(buf, Flat(pending), size);
      got := Data(buf[..size]);
      buf := "";
    }
  }

  lemma RowPrefix(b: string, t: string, i: nat)
    requires i < |b|
    ensures (b + t)[..i + 1] + b[i + 1..] == b
  {
  }

  /** Taking a block off the front keeps the rest exactly when nothing is left
      over in the buffer. */
  lemma BlockSlices(b: string, t: string, size: nat)
    requires size <= |b|
    ensures (b + t)[..size] == b[..size]
    ensures b[..size] + ("" + t) == b + t <==> |b| == size
  {
    assert |b[..size] + ("" + t)| == size + |t|;
    if |b| == size {
      assert b[..size] == b && "" + t == t;
    }
  }
}
