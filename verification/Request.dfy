/** What the client makes of the request stream: the line parser, the parser
    state that outlives a call, and a one-shot parse of a whole stream to compare
    with. */
module Request {
  import opened CString
  import opened CNumber
  import opened Liblst

  /** The client's own id and its encoded local login. */
  datatype Config = Config(id: CStr, auth: CStr)

  datatype Emission = Emission(pid: int, request: string)

  // ---------------------------------------------------------------------
  // Lines and header blocks

  datatype Taken = NoLine | Line(text: string, rest: string)

  /** getLineBuffer: the bytes up to the first newline, cut at a NUL, without CR. */
  function TakeLine(b: string): (t: Taken)
    ensures t.Line? ==> |t.rest| < |b|
  {
    var i := Find('\n', b);
    if i == |b| then NoLine else Line(Chop(Str(b[..i])), b[i + 1..])
  }

  /** A line is what stands in front of the first newline, cut at a NUL and without
      CR; the rest begins behind that newline. */
  lemma LineText(text: CStr, junk: string, rest: string)
    requires Lacks(text, '\n') && Lacks(text, '\r') && Lacks(junk, '\n') && (junk == "" || junk[0] == NUL || junk == "\r")
    ensures TakeLine(text + junk + "\n" + rest) == Line(text, rest)
  {
    var front := text + junk;
    var b := front + "\n" + rest;
    FindUnique('\n', b, |front|);
    assert b[..|front|] == front && b[|front| + 1..] == rest;
    ChopIsSubset(text, NUL);
    if junk == "\r" {
      StrOfCStr(front);
      ChopIsFilter(text, "\r", '\r');
      assert text + "" == text;
    } else {
      FindUnique(NUL, front, |text|);
      assert front[..|text|] == text;
    }
  }

  function HostLine(c: Config): CStr { "Host: " + c.id + ".piercloud.com" }

  function LocalHost(c: Config): CStr { "Host: localhost\nAuthorization: Basic " + c.auth }

  function Rewrite(c: Config, line: string): string {
    Replace(line, HostLine(c), LocalHost(c))
  }

  predicate IsLengthLine(line: string) {
    StartsNoCase(line, "Content-Length: ")
  }

  /** The name of the field, letter case aside. */
  lemma LengthLineBytes(d: string)
    ensures IsLengthLine(d) <==> |d| >= 16 && forall k | 0 <= k < 16 :: ToLower(d[k]) == "content-length: "[k]
  {
    var name := "Content-Length: ";
    assert forall k | 0 <= k < 16 :: Lower(name)[k] == ToLower(name[k]) == "content-length: "[k];
    if |d| >= 16 {
      assert forall k | 0 <= k < 16 :: Lower(d[..16])[k] == ToLower(d[k]);
    }
  }

  lemma SameLength(d: string, e: string)
    requires if |d| < 16 then e == d else |e| >= 16 && e[..16] == d[..16]
    ensures IsLengthLine(e) <==> IsLengthLine(d)
  {
  }

  /** The content length after reading a header line. */
  function LengthAfter(line: string, before: nat): nat {
    if IsLengthLine(line) then AtoSize(line[|"Content-Length: "|..]) else before
  }

  datatype Block = Incomplete | Block(text: string, length: nat, rest: string)

  /** Header lines up to the blank one, rewritten and joined with LF. */
  function ParseHeader(c: Config, b: string, length: nat): (r: Block)
    ensures r.Block? ==> |r.rest| < |b|
    decreases |b|
  {
    match TakeLine(b)
    case NoLine => Incomplete
    case Line(text, rest) =>
      var h := Rewrite(c, text);
      var n := LengthAfter(h, length);
      if h == "" then Block("\n", n, rest)
      else
        match ParseHeader(c, rest, n)
        case Incomplete => Incomplete
        case Block(t, m, r) => Block(h + "\n" + t, m, r)
  }

  // ---------------------------------------------------------------------
  // The incremental parser

  /** The client buffer, the request under construction and the statics of
      getConnectionRequest. (`in_header` is 0 whenever a call has returned.) */
  datatype State = State(buf: string, request: string, inData: bool, pid: int, length: nat)

  const INITIAL := State("", "", false, 0, 0)

  datatype Outcome = Abort | Wait(st: State) | Emit(st: State, pid: int, request: string)

  /** One call of Chunk. `Abort` is the exit of the daemon by ASSERT. */
  function Feed(c: Config, st: State, chunk: string): Outcome {
    if chunk == "" then Wait(st)
    else if st.inData then FeedBody(st.(buf := st.buf + chunk))
    else FeedHeader(c, st.(buf := st.buf + chunk))
  }

  function FeedHeader(c: Config, st: State): Outcome {
    match TakeLine(st.buf)
    case NoLine => Abort
    case Line(pid, rest) =>
      match ParseHeader(c, rest, 0)
      case Incomplete => Abort
      case Block(text, length, body) =>
        FeedBody(State(body, st.request + text, true, Atoi(pid), length))
  }

  function FeedBody(st: State): Outcome {
    if |st.buf| < st.length then Wait(st)
    else
      var request, buf := st.request + st.buf[..st.length], st.buf[st.length..];
      if st.pid > 0 then Emit(State(buf, "", false, st.pid, st.length), st.pid, request)
      else Wait(State(buf, request, false, st.pid, st.length))
  }

  datatype Run = Died(emitted: seq<Emission>) | Alive(st: State, emitted: seq<Emission>)

  /** Chunk after chunk, until the end or an abort. */
  function FeedAll(c: Config, st: State, chunks: seq<string>): Run
    decreases |chunks|
  {
    if chunks == [] then Alive(st, [])
    else
      match Feed(c, st, chunks[0])
      case Abort => Died([])
      case Wait(st') => FeedAll(c, st', chunks[1..])
      case Emit(st', pid, request) => Prepend(Emission(pid, request), FeedAll(c, st', chunks[1..]))
  }

  function Prepend(e: Emission, r: Run): Run {
    match r
    case Died(es) => Died([e] + es)
    case Alive(st, es) => Alive(st, [e] + es)
  }

  /** The chunk Connect sends when nothing came for a while. */
  const PING := "0"

  /** The chunks that are not taken for a ping. */
  function Kept(chunks: seq<string>): seq<string> {
    if chunks == [] then []
    else Kept(chunks[..|chunks| - 1]) + if chunks[|chunks| - 1] == PING then [] else [chunks[|chunks| - 1]]
  }

  lemma KeptSnoc(chunks: seq<string>, x: string)
    ensures Kept(chunks + [x]) == Kept(chunks) + if x == PING then [] else [x]
  {
    assert (chunks + [x])[..|chunks|] == chunks;
  }

  // ---------------------------------------------------------------------
  // The one-shot parse

  /** All requests of a stream, given the text carried over from frames whose
      pid was not positive (the client keeps it in front of the next request). */
  function ParseAll(c: Config, carry: string, s: string): seq<Emission>
    decreases |s|
  {
    match TakeLine(s)
    case NoLine => []
    case Line(pid, rest) =>
      match ParseHeader(c, rest, 0)
      case Incomplete => []
      case Block(text, length, body) =>
        if |body| < length then []
        else
          var request, tail := carry + text + body[..length], body[length..];
          if Atoi(pid) > 0 then [Emission(Atoi(pid), request)] + ParseAll(c, "", tail)
          else ParseAll(c, request, tail)
  }

  /** What a one-shot parse would still find from a parser state on, when `more`
      is all that is still to come. */
  function Ahead(c: Config, st: State, more: string): seq<Emission> {
    if st.inData then AheadBody(c, st.(buf := st.buf + more))
    else ParseAll(c, st.request, st.buf + more)
  }

  function AheadBody(c: Config, st: State): seq<Emission> {
    if |st.buf| < st.length then []
    else
      var request, tail := st.request + st.buf[..st.length], st.buf[st.length..];
      if st.pid > 0 then [Emission(st.pid, request)] + ParseAll(c, "", tail)
      else ParseAll(c, request, tail)
  }

  // ---------------------------------------------------------------------
  // More bytes do not change what has been read

  lemma AppendSlices(b: string, z: string, i: nat)
    requires i <= |b|
    ensures (b + z)[..i] == b[..i] && (b + z)[i..] == b[i..] + z
  {
  }

  lemma TakeLineAppend(b: string, z: string)
    requires TakeLine(b).Line?
    ensures TakeLine(b + z) == TakeLine(b).(rest := TakeLine(b).rest + z)
  {
    var i := Find('\n', b);
    FindAppend('\n', b, z);
    AppendSlices(b, z, i);
    AppendSlices(b, z, i + 1);
  }

  lemma {:induction false} ParseHeaderAppend(c: Config, b: string, z: string, n: nat)
    requires ParseHeader(c, b, n).Block?
    ensures ParseHeader(c, b + z, n) == ParseHeader(c, b, n).(rest := ParseHeader(c, b, n).rest + z)
    decreases |b|
  {
    TakeLineAppend(b, z);
    var line := TakeLine(b);
    var h := Rewrite(c, line.text);
    if h != "" {
      ParseHeaderAppend(c, line.rest, z, LengthAfter(h, n));
    }
  }

  lemma FeedBodyAhead(c: Config, st: State, more: string)
    requires st.inData
    ensures match FeedBody(st)
            case Wait(st') => Ahead(c, st, more) == Ahead(c, st', more)
            case Emit(st', pid, request) => Ahead(c, st, more) == [Emission(pid, request)] + Ahead(c, st', more)
            case Abort => false
  {
    if st.length <= |st.buf| {
      AppendSlices(st.buf, more, st.length);
    }
  }

  lemma FeedHeaderAhead(c: Config, st: State, more: string)
    requires !st.inData
    ensures match FeedHeader(c, st)
            case Wait(st') => Ahead(c, st, more) == Ahead(c, st', more)
            case Emit(st', pid, request) => Ahead(c, st, more) == [Emission(pid, request)] + Ahead(c, st', more)
            case Abort => true
  {
    var line := TakeLine(st.buf);
    if line.Line? {
      TakeLineAppend(st.buf, more);
      var b := ParseHeader(c, line.rest, 0);
      if b.Block? {
        ParseHeaderAppend(c, line.rest, more, 0);
        FeedBodyAhead(c, State(b.rest, st.request + b.text, true, Atoi(line.text), b.length), more);
      }
    }
  }

  /** One chunk: the step takes exactly the first request, if it emits one, off
      what a parse of everything would find. */
  lemma FeedAhead(c: Config, st: State, chunk: string, more: string)
    ensures match Feed(c, st, chunk)
            case Wait(st') => Ahead(c, st, chunk + more) == Ahead(c, st', more)
            case Emit(st', pid, request) => Ahead(c, st, chunk + more) == [Emission(pid, request)] + Ahead(c, st', more)
            case Abort => true
  {
    var all := st.(buf := st.buf + chunk);
    Assoc(st.buf, chunk, more);
    if chunk == "" {
      assert chunk + more == more;
    } else if st.inData {
      FeedBodyAhead(c, all, more);
    } else {
      FeedHeaderAhead(c, all, more);
    }
  }

  /** Chunking independence: however the stream is cut, what a run emits is the
      front of what one parse of the whole stream finds, in order, nothing lost
      or repeated; and what is left over is exactly what the final state still
      holds. */
  lemma {:induction false} ChunkingIndependence(c: Config, st: State, chunks: seq<string>)
    ensures Agrees(c, FeedAll(c, st, chunks), Ahead(c, st, Flat(chunks)))
    decreases |chunks|
  {
    if chunks == [] {
      assert [] + Ahead(c, st, "") == Ahead(c, st, "");
    } else {
      var more := Flat(chunks[1..]);
      FeedAhead(c, st, chunks[0], more);
      var o := Feed(c, st, chunks[0]);
      if !o.Abort? {
        ChunkingIndependence(c, o.st, chunks[1..]);
      }
      if o.Emit? {
        AgreesPrepend(c, Emission(o.pid, o.request), FeedAll(c, o.st, chunks[1..]), Ahead(c, o.st, more));
      }
    }
  }

  /** A run against everything there is to find. */
  predicate Agrees(c: Config, r: Run, all: seq<Emission>) {
    match r
    case Alive(st, es) => all == es + Ahead(c, st, "")
    case Died(es) => es <= all
  }

  lemma AgreesPrepend(c: Config, e: Emission, r: Run, all: seq<Emission>)
    requires Agrees(c, r, all)
    ensures Agrees(c, Prepend(e, r), [e] + all)
  {
    hide Ahead;
    if r.Alive? {
      Assoc([e], r.emitted, Ahead(c, r.st, ""));
    }
  }

  /** From the start of a session, with every frame finished at the end: the
      emissions are those of the one-shot parse, so two ways to cut the same
      stream give the same requests. */
  lemma WholeStream(c: Config, chunks: seq<string>)
    requires FeedAll(c, INITIAL, chunks).Alive?
    requires FeedAll(c, INITIAL, chunks).st.buf == "" && !FeedAll(c, INITIAL, chunks).st.inData
    ensures FeedAll(c, INITIAL, chunks).emitted == ParseAll(c, "", Flat(chunks))
  {
    ChunkingIndependence(c, INITIAL, chunks);
    var r := FeedAll(c, INITIAL, chunks);
    assert "" + Flat(chunks) == Flat(chunks) && "" + "" == "";
    FindUnique('\n', "", 0);
    assert r.emitted + [] == r.emitted;
  }

  lemma {:induction false} FeedAllSnoc(c: Config, st: State, chunks: seq<string>, x: string)
    requires FeedAll(c, st, chunks).Alive?
    ensures var r := FeedAll(c, st, chunks);
            FeedAll(c, st, chunks + [x]) ==
            match Feed(c, r.st, x)
            case Abort => Died(r.emitted)
            case Wait(st') => Alive(st', r.emitted)
            case Emit(st', pid, request) => Alive(st', r.emitted + [Emission(pid, request)])
    decreases |chunks|
  {
    hide Feed;
    if chunks == [] {
      assert chunks + [x] == [x];
      assert [x][1..] == [];
    } else {
      assert (chunks + [x])[0] == chunks[0] && (chunks + [x])[1..] == chunks[1..] + [x];
      FeedAllSnoc(c, Feed(c, st, chunks[0]).st, chunks[1..], x);
    }
  }

  /** After an abort nothing more is read. */
  lemma {:induction false} FeedAllDies(c: Config, st: State, a: seq<string>, b: seq<string>)
    requires FeedAll(c, st, a).Died?
    ensures FeedAll(c, st, a + b) == FeedAll(c, st, a)
    decreases |a|
  {
    hide Feed;
    assert (a + b)[0] == a[0] && (a + b)[1..] == a[1..] + b;
    var o := Feed(c, st, a[0]);
    if !o.Abort? {
      FeedAllDies(c, o.st, a[1..], b);
    }
  }

  // ---------------------------------------------------------------------
  // Conservation

  /** `b` is the end of `a`. */
  predicate IsTail(a: string, b: string) {
    |b| <= |a| && b == a[|a| - |b|..]
  }

  lemma TailOfTail(a: string, b: string, i: nat)
    requires IsTail(a, b) && i <= |b|
    ensures IsTail(a, b[i..])
  {
  }

  lemma TailTrans(a: string, b: string, c: string)
    requires IsTail(a, b) && IsTail(b, c)
    ensures IsTail(a, c)
  {
    TailOfTail(a, b, |b| - |c|);
  }

  lemma TakeLineTail(b: string)
    requires TakeLine(b).Line?
    ensures IsTail(b, TakeLine(b).rest)
  {
  }

  lemma {:induction false} ParseHeaderTail(c: Config, b: string, n: nat)
    requires ParseHeader(c, b, n).Block?
    ensures IsTail(b, ParseHeader(c, b, n).rest)
    decreases |b|
  {
    TakeLineTail(b);
    var line := TakeLine(b);
    var h := Rewrite(c, line.text);
    if h != "" {
      ParseHeaderTail(c, line.rest, LengthAfter(h, n));
      TailTrans(b, line.rest, ParseHeader(c, b, n).rest);
    }
  }

  lemma FeedBodyTail(st: State)
    ensures IsTail(st.buf, FeedBody(st).st.buf)
  {
  }

  /** Consumed bytes followed by the buffer are all the bytes ever fed: a step
      leaves the end of what it had and was given. */
  lemma FeedConserves(c: Config, st: State, chunk: string)
    requires !Feed(c, st, chunk).Abort?
    ensures IsTail(st.buf + chunk, Feed(c, st, chunk).st.buf)
  {
    var all := st.buf + chunk;
    if chunk == "" {
      assert all == st.buf;
    } else if st.inData {
      FeedBodyTail(st.(buf := all));
    } else {
      var line := TakeLine(all);
      var b := ParseHeader(c, line.rest, 0);
      TakeLineTail(all);
      ParseHeaderTail(c, line.rest, 0);
      TailTrans(all, line.rest, b.rest);
      var full := State(b.rest, st.request + b.text, true, Atoi(line.text), b.length);
      FeedBodyTail(full);
      TailTrans(all, b.rest, FeedBody(full).st.buf);
    }
  }

  // ---------------------------------------------------------------------
  // When the daemon gives up

  /** A blank line (after cutting at a NUL and dropping CR) from `a` to the
      newline at `e`, behind another line. */
  predicate BlankLine(s: string, a: nat, e: nat) {
    && 0 < a <= e < |s| && s[a - 1] == '\n' && s[e] == '\n'
    && Lacks(s[a..e], '\n') && Chop(Str(s[a..e])) == ""
  }

  lemma RewriteEmpty(c: Config, line: string)
    ensures Rewrite(c, line) == "" <==> line == ""
  {
    ReplaceEmpty(line, HostLine(c), LocalHost(c));
  }

  lemma FirstLine(s: string, a: nat)
    requires a <= |s|
    ensures var e := a + Find('\n', s[a..]);
            && e <= |s| && Lacks(s[a..e], '\n')
            && TakeLine(s[a..]) == if e == |s| then NoLine else Line(Chop(Str(s[a..e])), s[e + 1..])
  {
    var i := Find('\n', s[a..]);
    Slices(s, a, i);
    if i < |s| - a {
      Slices(s, a, i + 1);
    }
  }

  ghost predicate BlankFrom(s: string, a: nat) {
    exists b: nat, d: nat :: a <= b && BlankLine(s, b, d)
  }

  /** The first line behind position `a` ends at `e`, and reading goes on there
      unless the line is blank. */
  lemma HeaderStep(c: Config, s: string, a: nat, n: nat) returns (e: nat, m: nat)
    requires a <= |s|
    ensures a <= e <= |s| && Lacks(s[a..e], '\n') && (e < |s| ==> s[e] == '\n')
    ensures e == |s| ==> ParseHeader(c, s[a..], n).Incomplete?
    ensures e < |s| ==> (ParseHeader(c, s[a..], n).Block? <==>
              Chop(Str(s[a..e])) == "" || ParseHeader(c, s[e + 1..], m).Block?)
  {
    hide Chop, Rewrite, TakeLine, LengthAfter;
    FirstLine(s, a);
    e, m := a + Find('\n', s[a..]), n;
    if e < |s| {
      var text := Chop(Str(s[a..e]));
      RewriteEmpty(c, text);
      m := LengthAfter(Rewrite(c, text), n);
    }
  }

  lemma {:induction false} CompleteFrom(c: Config, s: string, a: nat, n: nat)
    requires 0 < a <= |s| && s[a - 1] == '\n'
    ensures ParseHeader(c, s[a..], n).Block? <==> BlankFrom(s, a)
    decreases |s| - a
  {
    var e, m := HeaderStep(c, s, a, n);
    if e < |s| {
      CompleteFrom(c, s, e + 1, m);
      LaterLine(s, a, e);
    } else {
      NoLaterLine(s, a);
    }
  }

  lemma NoLaterLine(s: string, a: nat)
    requires a <= |s| && Lacks(s[a..], '\n')
    ensures !BlankFrom(s, a)
  {
    assert forall k | a <= k < |s| :: s[k] == s[a..][k - a];
  }

  /** Lines behind position `a` start at `a` or behind the newline that ends it. */
  lemma LaterLine(s: string, a: nat, e: nat)
    requires 0 < a <= e < |s| && s[a - 1] == '\n' && Lacks(s[a..e], '\n') && s[e] == '\n'
    ensures BlankFrom(s, a) <==> Chop(Str(s[a..e])) == "" || BlankFrom(s, e + 1)
  {
    if Chop(Str(s[a..e])) == "" {
      assert BlankLine(s, a, e);
    }
    assert forall k | a <= k < e :: s[k] == s[a..e][k - a];
    forall b: nat, d: nat | a <= b && BlankLine(s, b, d)
      ensures (b == a && d == e) || e + 1 <= b
    {
      assert forall k | b <= k < d :: s[k] == s[b..d][k - b];
    }
  }

  /** The text holds the blank line that ends a header block. */
  ghost predicate HeaderComplete(s: string) {
    exists a: nat, e: nat :: BlankLine(s, a, e)
  }

  lemma HeaderCompleteIff(c: Config, s: string)
    ensures HeaderComplete(s) <==> TakeLine(s).Line? && ParseHeader(c, TakeLine(s).rest, 0).Block?
  {
    var i := Find('\n', s);
    if i < |s| {
      CompleteFrom(c, s, i + 1, 0);
      assert forall a: nat, e: nat | BlankLine(s, a, e) :: i + 1 <= a;
      assert HeaderComplete(s) <==> BlankFrom(s, i + 1);
    }
  }

  /** The daemon exits exactly when a chunk that begins a frame leaves the buffer
      without the blank line that ends the header block. */
  lemma AbortsExactlyWithoutHeader(c: Config, st: State, chunk: string)
    ensures Feed(c, st, chunk).Abort? <==> chunk != "" && !st.inData && !HeaderComplete(st.buf + chunk)
  {
    HeaderCompleteIff(c, st.buf + chunk);
  }
}
