/** The client's parser as it runs: growing and shrinking buffers on the heap and
    the state that stays between calls. Each method is tied to Request.dfy. */
module RequestParser {
  import opened CString
  import opened CNumber
  import opened Liblst
  import opened Request

  /** memcpy of `src` to `dst + at`. */
  method MemCpy(dst: array<char>, at: nat, src: string)
    requires at + |src| <= dst.Length
    modifies dst
    ensures forall k | 0 <= k < dst.Length ::
              dst[k] == if at <= k < at + |src| then src[k - at] else old(dst[k])
  {
    for i := 0 to |src|
      invariant forall k | 0 <= k < dst.Length ::
                  dst[k] == if at <= k < at + i then src[k - at] else old(dst[k])
    {
      dst[at + i] := src[i];
    }
  }

  /** buffer_t: `len` bytes and a NUL behind them, or no memory at all. */
  class Buffer {
    var buf: array?<char>
    var len: nat

    predicate Valid()
      reads this, buf
    {
      if buf == null then len == 0 else len < buf.Length && buf[len] == NUL
    }

    function Contents(): (s: string)
      requires Valid()
      reads this, buf
      ensures |s| == len
    {
      if buf == null then "" else buf[..len]
    }

    constructor ()
      ensures Valid() && buf == null && Contents() == ""
    {
      buf, len := null, 0;
    }

    /** free, and the buffer is empty again. */
    method Free()
      modifies this
      ensures Valid() && buf == null && Contents() == ""
    {
      buf, len := null, 0;
    }

    /** increaseBuffer. */
    method Increase(chunk: string)
      requires Valid()
      modifies this
      ensures Valid() && buf != null && fresh(buf)
      ensures Contents() == old(Contents()) + chunk
    {
      var t := new char[len + |chunk| + 1];
      if buf != null {
        MemCpy(t, 0, buf[..len]);
      }
      MemCpy(t, len, chunk);
      len := len + |chunk|;
      t[len] := NUL;
      buf := t;
    }

    /** cutBuf: drop the first `n` bytes. */
    method Cut(n: nat)
      requires Valid() && n <= len
      modifies this
      ensures Valid() && buf != null && fresh(buf)
      ensures Contents() == old(Contents())[n..]
    {
      len := len - n;
      var t := new char[len + 1];
      if buf != null {
        MemCpy(t, 0, buf[n..n + len]);
      }
      t[len] := NUL;
      buf := t;
    }

    /** getLineBuffer: NUL over the newline, chop in place, copy, cut. */
    method GetLine() returns (line: Option<CStr>)
      requires Valid()
      modifies this, buf
      ensures Valid()
      ensures match TakeLine(old(Contents()))
              case NoLine => line == None && buf == old(buf) && Contents() == old(Contents())
              case Line(text, rest) => line == Some(text) && buf != null && fresh(buf) && Contents() == rest
    {
      var n := Find('\n', Contents());
      if n == len {
        return None;
      }
      ghost var before := Contents();
      buf[n] := NUL;
      StrBefore(buf[..], n, before[..n]);
      ChopStr(buf);
      line := Some(Str(buf[..]));
      assert buf[n + 1..len] == before[n + 1..];
      assert Contents()[n + 1..] == buf[n + 1..len];
      Cut(n + 1);
    }
  }

  /** Behind a NUL nothing counts. */
  lemma StrBefore(b: string, n: nat, front: string)
    requires n < |b| && b[n] == NUL && b[..n] == front
    ensures Str(b) == Str(front) && Terminated(b) && |Str(b)| <= n
  {
    var i := Find(NUL, front);
    assert forall k | 0 <= k < n :: b[k] == front[k];
    FindUnique(NUL, b, i);
    assert b[..i] == front[..i];
  }

  /** What a call of Chunk does besides changing the state: end the daemon, fork
      a child for a request, or nothing. */
  datatype Effect = Exit | Nothing | Fork(pid: int, request: string)

  /** A parse with text in front of it. */
  function Behind(done: string, b: Block): Block {
    match b
    case Incomplete => Incomplete
    case Block(t, n, r) => Block(done + t, n, r)
  }

  /** The header loop with the text `done` behind it and `b` before it. */
  predicate Progress(c: Config, whole: Block, done: string, b: string, n: nat, inHeader: bool, inData: bool) {
    if inHeader then !inData && whole == Behind(done, ParseHeader(c, b, n))
    else whole == Block(done, n, b) && inData == (n != 0)
  }

  lemma ProgressStarts(c: Config, b: string)
    ensures Progress(c, ParseHeader(c, b, 0), "", b, 0, true, false)
  {
    var w := ParseHeader(c, b, 0);
    if w.Block? {
      assert "" + w.text == w.text;
    }
  }

  /** One line of the header loop. */
  lemma ProgressLine(c: Config, whole: Block, done: string, b: string, n: nat)
    requires Progress(c, whole, done, b, n, true, false)
    ensures match TakeLine(b)
            case NoLine => whole == Incomplete
            case Line(text, rest) =>
              var h := Rewrite(c, text);
              var m := LengthAfter(h, n);
              Progress(c, whole, done + h + "\n", rest, m, h != "", h == "" && m != 0)
  {
    var line := TakeLine(b);
    if line.Line? {
      var h := Rewrite(c, line.text);
      if h == "" {
        Regrouped(done, h, "\n", "");
        assert h + "\n" == "\n";
      } else {
        var r := ParseHeader(c, line.rest, LengthAfter(h, n));
        if r.Block? {
          Regrouped(done, h, "\n", r.text);
        }
      }
    }
  }

  lemma Regrouped(a: string, b: string, c: string, d: string)
    ensures a + (b + c + d) == (a + b + c) + d
    ensures a + (b + c) == a + b + c
    ensures a + b + c + d == a + (b + c + d)
  {
  }

  /** The getConnectionRequest statics together with the two buffers they go
      with, as Chunk uses them. */
  class Client {
    const cfg: Config
    const buf: Buffer
    const request: Buffer
    var inHeader: bool
    var inData: bool
    var pid: int
    var contentLen: nat

    predicate Valid()
      reads this, buf, buf.buf, request, request.buf
    {
      && buf != request && buf.Valid() && request.Valid()
      && (buf.buf != null ==> buf.buf != request.buf)
    }

    function State(): Request.State
      requires Valid()
      reads this, buf, buf.buf, request, request.buf
    {
      Request.State(buf.Contents(), request.Contents(), inData, pid, contentLen)
    }

    constructor (cfg: Config)
      ensures Valid() && !inHeader && State() == INITIAL && this.cfg == cfg
      ensures fresh(buf) && fresh(request) && buf.buf == null && request.buf == null
    {
      this.cfg := cfg;
      buf := new Buffer();
      request := new Buffer();
      inHeader, inData, pid, contentLen := false, false, 0, 0;
    }

    /** Buffers are the old ones or newly allocated. */
    twostate predicate OwnBuffers()
      reads this, buf, request
    {
      && (buf.buf == old(buf.buf) || (buf.buf != null && fresh(buf.buf)))
      && (request.buf == old(request.buf) || request.buf == null || fresh(request.buf))
    }

    /** The head of the header loop: one line from the buffer, rewritten, looked
        at for a content length and appended to the request. */
    method ReadHeaderLine() returns (header: Option<string>)
      requires Valid()
      modifies this`contentLen, buf, buf.buf, request
      ensures Valid() && OwnBuffers()
      ensures header == None <==> TakeLine(old(buf.Contents())) == NoLine
      ensures header.Some? ==>
                var line := TakeLine(old(buf.Contents()));
                && header.value == Rewrite(cfg, line.text) && buf.Contents() == line.rest
                && contentLen == LengthAfter(header.value, old(contentLen))
                && request.Contents() == old(request.Contents()) + header.value + "\n"
    {
      var line := buf.GetLine();
      if line == None {
        return None;
      }
      var h := PtReplaceStr(line.value, HostLine(cfg), LocalHost(cfg));
      if StartsNoCase(h, "Content-Length: ") {
        contentLen := AtoSize(h[|"Content-Length: "|..]);
      }
      request.Increase(h);
      request.Increase("\n");
      header := Some(h);
    }

    /** One round of the header loop. */
    method HeaderRound(ghost whole: Block, ghost before: string, ghost done: string)
      returns (ok: bool, ghost done': string)
      requires Valid() && inHeader && request.Contents() == before + done
      requires Progress(cfg, whole, done, buf.Contents(), contentLen, inHeader, inData)
      modifies this, buf, buf.buf, request
      ensures Valid() && OwnBuffers() && pid == old(pid)
      ensures !ok ==> whole == Incomplete
      ensures ok ==> buf.len < old(buf.len) && request.Contents() == before + done'
      ensures ok ==> Progress(cfg, whole, done', buf.Contents(), contentLen, inHeader, inData)
    {
      ProgressLine(cfg, whole, done, buf.Contents(), contentLen);
      var header := ReadHeaderLine();
      done' := done;
      if header == None {
        return false, done';
      }
      Regrouped(before, done, header.value, "\n");
      done' := done + header.value + "\n";
      if |header.value| == 0 {
        inHeader := false;
        if contentLen != 0 {
          inData := true;
        }
      }
      ok := true;
    }

    /** The header loop of getConnectionRequest. `complete` is false where the
        original exits. */
    method ReadHeader() returns (complete: bool)
      requires Valid() && inHeader && !inData && contentLen == 0
      modifies this, buf, buf.buf, request
      ensures Valid() && OwnBuffers() && pid == old(pid)
      ensures complete <==> ParseHeader(cfg, old(buf.Contents()), 0).Block?
      ensures complete ==> !inHeader && inData == (contentLen != 0)
      ensures complete ==>
                var b := ParseHeader(cfg, old(buf.Contents()), 0);
                && request.Contents() == old(request.Contents()) + b.text
                && contentLen == b.length && buf.Contents() == b.rest
    {
      ghost var whole := ParseHeader(cfg, buf.Contents(), 0);
      ghost var before, done := request.Contents(), "";
      ProgressStarts(cfg, buf.Contents());
      assert before + done == before;
      complete := true;
      while inHeader && complete
        invariant Valid() && OwnBuffers() && pid == old(pid)
        invariant !complete ==> whole == Incomplete
        invariant complete ==> request.Contents() == before + done
        invariant complete ==> Progress(cfg, whole, done, buf.Contents(), contentLen, inHeader, inData)
        decreases complete, buf.len
      {
        complete, done := HeaderRound(whole, before, done);
      }
    }

    /** The state once a call has returned `r`: its outcome is `o`. */
    predicate Returned(o: Outcome, r: int)
      requires Valid()
      reads this, buf, buf.buf, request, request.buf
    {
      match o
      case Abort => false
      case Wait(st) => r <= 0 && State() == st
      case Emit(st, pid, text) => r == pid && r > 0 && State() == st.(request := text)
    }

    /** The body part of getConnectionRequest. */
    method TakeBody() returns (r: int)
      requires Valid() && !inHeader && inData
      modifies this, buf, request
      ensures Valid() && !inHeader && OwnBuffers() && Returned(FeedBody(old(State())), r)
    {
      if contentLen <= buf.len {
        request.Increase(buf.Contents()[..contentLen]);
        buf.Cut(contentLen);
        inData := false;
        return pid;
      }
      return 0;
    }

    /** The start of a frame: pid line and header block. */
    method StartFrame() returns (complete: bool)
      requires Valid() && !inHeader && !inData
      modifies this, buf, buf.buf, request
      ensures Valid() && OwnBuffers()
      ensures match Started(cfg, old(State()))
              case None => !complete
              case Some(st) => complete && !inHeader && State() == st.(inData := st.length != 0)
    {
      inHeader, contentLen := true, 0;
      var strpid := buf.GetLine();
      if strpid == None {
        return false;
      }
      pid := Atoi(strpid.value);
      complete := ReadHeader();
    }

    /** getConnectionRequest. */
    method GetConnectionRequest() returns (exited: bool, r: int)
      requires Valid() && !inHeader
      modifies this, buf, buf.buf, request
      ensures Valid() && OwnBuffers()
      ensures var o := if old(inData) then FeedBody(old(State())) else FeedHeader(cfg, old(State()));
              && (exited <==> o.Abort?)
              && (!exited ==> !inHeader && Returned(o, r))
    {
      exited, r := false, 0;
      if !inHeader && !inData {
        FeedHeaderStarted(cfg, State());
        var complete := StartFrame();
        if !complete {
          return true, 0;
        }
        if !inData {
          NoBody(State().(inData := true));
          return false, pid;
        }
      }
      r := TakeBody();
    }

    /** Chunk: take in the bytes, look for a request, hand a finished one to a
        child process. */
    method Chunk(chunk: string) returns (e: Effect)
      requires Valid() && !inHeader
      modifies this, buf, buf.buf, request
      ensures Valid() && OwnBuffers()
      ensures match Feed(cfg, old(State()), chunk)
              case Abort => e == Exit
              case Wait(st) => e == Nothing && !inHeader && State() == st
              case Emit(st, pid, text) => e == Fork(pid, text) && !inHeader && State() == st
    {
      if |chunk| == 0 {
        return Nothing;
      }
      buf.Increase(chunk);
      var exited, r := GetConnectionRequest();
      if exited {
        return Exit;
      }
      e := Nothing;
      if r > 0 {
        e := Fork(r, request.Contents());
        request.Free();
      }
    }
  }

  /** A frame without a body is finished as it stands. */
  lemma NoBody(st: Request.State)
    requires st.length == 0
    ensures FeedBody(st) ==
            if st.pid > 0 then Emit(st.(request := "", inData := false), st.pid, st.request)
            else Wait(st.(inData := false))
  {
    assert st.request + st.buf[..0] == st.request;
  }

  /** The state behind the header block of a frame, before its body is taken. */
  function Started(c: Config, st: Request.State): Option<Request.State> {
    match TakeLine(st.buf)
    case NoLine => None
    case Line(pid, rest) =>
      match ParseHeader(c, rest, 0)
      case Incomplete => None
      case Block(text, length, body) => Some(Request.State(body, st.request + text, true, Atoi(pid), length))
  }

  lemma FeedHeaderStarted(c: Config, st: Request.State)
    ensures FeedHeader(c, st) ==
            match Started(c, st) { case None => Abort case Some(st') => FeedBody(st') }
  {
  }
}
