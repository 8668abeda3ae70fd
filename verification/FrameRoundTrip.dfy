/** The client's parser applied to the frames Pier prints. */
module FrameRoundTrip {
  import opened CString
  import opened CNumber
  import opened Liblst
  import opened Request
  import opened Frame

  predicate OneLine(s: CStr) {
    Lacks(s, '\n') && Lacks(s, '\r')
  }

  /** No CR or LF in the variables and environment entries. */
  predicate Printable(f: Cgi) {
    && OneLine(Default(f.verb, "GET")) && OneLine(f.uri) && OneLine(Default(f.protocol, "HTTP/1.1"))
    && forall e | e in f.env :: OneLine(e)
  }

  /** The frame announces the length of its body. */
  predicate Announced(c: Config, f: Cgi) {
    LengthIn(c, HeaderLines(f), 0) == |f.body|
  }

  predicate ValidFrame(c: Config, f: Cgi) {
    Printable(f) && Announced(c, f)
  }

  /** The request the client hands to the local server for a frame. */
  function Received(c: Config, f: Cgi): string {
    ClientText(c, HeaderLines(f)) + f.body
  }

  lemma {:induction false} SelectIn(env: seq<CStr>, prefix: string)
    ensures forall e | e in Select(env, prefix) :: e in env
  {
    if env != [] {
      SelectIn(env[1..], prefix);
      assert forall e | e in env[1..] :: e in env;
    }
  }

  lemma PartsLack(h: string, i: nat, c: char)
    requires i < |h| && Lacks(h, c) && (c == '\n' || c == '\r' || c == NUL)
    ensures Lacks(NameOf(h, i), c) && Lacks(ValueOf(h, i), c)
  {
    var v := ValueOf(h, i);
    assert forall k | 0 <= k < |v| :: v[k] == if i == 0 then Dash(h[k + i + 1]) else h[k + i + 1];
  }

  lemma HeaderLineLacks(e: string, c: char)
    requires Lacks(e, c) && HeaderLine(e).Some? && (c == '\n' || c == '\r' || c == NUL)
    ensures Lacks(HeaderLine(e).value, c)
  {
    var h := SkipHttp(e);
    PartsLack(h, Find('=', h), c);
  }

  lemma HeaderLinePlain(e: CStr)
    requires OneLine(e) && HeaderLine(e).Some?
    ensures Plain(HeaderLine(e).value)
  {
    HeaderLineLacks(e, '\n');
    HeaderLineLacks(e, '\r');
    HeaderLineLacks(e, NUL);
  }

  lemma {:induction false} LinesPlain(entries: seq<CStr>)
    requires forall e | e in entries :: OneLine(e)
    ensures forall l | l in Lines(entries) :: Plain(l)
  {
    if entries != [] {
      assert forall e | e in entries[1..] :: e in entries;
      LinesPlain(entries[1..]);
      if HeaderLine(entries[0]).Some? {
        HeaderLinePlain(entries[0]);
      }
    }
  }

  lemma HeaderLinesPlain(f: Cgi)
    requires Printable(f)
    ensures forall l | l in HeaderLines(f) :: Plain(l)
  {
    SelectIn(f.env, "HTTP_");
    SelectIn(f.env, "CONTENT_");
    LinesPlain(Select(f.env, "HTTP_"));
    LinesPlain(Select(f.env, "CONTENT_"));
    assert Plain(RequestLine(f));
  }

  lemma PrintPlain(n: nat)
    ensures Plain(Print(n, 10))
  {
    PrintIsDigits(n, 10);
  }

  /** The frame's own header block, whatever follows it. */
  lemma HeadRoundTrip(c: Config, pid: nat, f: Cgi, z: string)
    requires Printable(f)
    ensures TakeLine(Head(pid, f) + z).Line?
    ensures TakeLine(Head(pid, f) + z).text == Print(pid, 10)
    ensures ParseHeader(c, TakeLine(Head(pid, f) + z).rest, 0)
         == Block(ClientText(c, HeaderLines(f)), LengthIn(c, HeaderLines(f), 0), z)
  {
    HeaderLinesPlain(f);
    PrintPlain(pid);
    var block := Crlf(HeaderLines(f)) + "\r\n";
    Assoc(Print(pid, 10) + "\r\n", block, z);
    TakeCrlfLine(Print(pid, 10), block + z);
    LinesRoundTrip(c, HeaderLines(f), z, 0);
  }

  predicate Idle(st: State) {
    st.buf == "" && st.request == "" && !st.inData
  }

  /** The client's state in the middle of a frame: header read, `k` body bytes. */
  predicate InBody(c: Config, st: State, pid: nat, f: Cgi, k: nat) {
    && k <= |f.body| && st.inData && st.pid == pid && st.length == |f.body|
    && st.buf == f.body[..k] && st.request == ClientText(c, HeaderLines(f))
  }

  /** The outcome when the frame has been fed up to body byte `k`. */
  predicate FedTo(c: Config, o: Outcome, pid: nat, f: Cgi, k: nat) {
    if k < |f.body| then o.Wait? && InBody(c, o.st, pid, f, k)
    else o.Emit? && o.pid == pid && o.request == Received(c, f) && Idle(o.st)
  }

  lemma BodyFedTo(c: Config, st: State, pid: nat, f: Cgi, k: nat)
    requires pid > 0 && InBody(c, st, pid, f, k)
    ensures FedTo(c, FeedBody(st), pid, f, k)
  {
    assert f.body[..|f.body|] == f.body;
  }

  /** First chunk of a frame: the header block and `k` bytes of the body. */
  lemma FeedHead(c: Config, st: State, pid: nat, f: Cgi, k: nat)
    requires ValidFrame(c, f) && 0 < pid <= INT_MAX && Idle(st) && k <= |f.body|
    ensures FedTo(c, Feed(c, st, Head(pid, f) + f.body[..k]), pid, f, k)
  {
    var x := f.body[..k];
    var chunk := Head(pid, f) + x;
    assert "" + chunk == chunk;
    HeadRoundTrip(c, pid, f, x);
    AtoiOfPrint(pid, "");
    assert Print(pid, 10) + "" == Print(pid, 10);
    assert "" + ClientText(c, HeaderLines(f)) == ClientText(c, HeaderLines(f));
    var st' := State(x, ClientText(c, HeaderLines(f)), true, pid, |f.body|);
    BodyFedTo(c, st', pid, f, k);
    assert Feed(c, st, chunk) == FeedBody(st');
  }

  /** Later chunk: body bytes `j` to `k`. */
  lemma FeedMore(c: Config, st: State, pid: nat, f: Cgi, j: nat, k: nat)
    requires pid > 0 && j < k <= |f.body| && InBody(c, st, pid, f, j)
    ensures FedTo(c, Feed(c, st, f.body[j..k]), pid, f, k)
  {
    assert f.body[..j] + f.body[j..k] == f.body[..k];
    BodyFedTo(c, st.(buf := f.body[..k]), pid, f, k);
  }

  /** Frame round trip: the client, idle, given a whole frame, emits the pid, the
      header lines and the body that went in. */
  lemma FrameReceived(c: Config, st: State, pid: nat, f: Cgi)
    requires ValidFrame(c, f) && 0 < pid <= INT_MAX && Idle(st)
    ensures var o := Feed(c, st, Head(pid, f) + f.body);
            o.Emit? && o.pid == pid && o.request == Received(c, f) && Idle(o.st)
  {
    FeedHead(c, st, pid, f, |f.body|);
    assert f.body[..|f.body|] == f.body;
  }

  /** A frame whose pid is 0 is not answered: its text stays with the client and
      goes out in front of the next request. */
  lemma ZeroPidCarries(c: Config, st: State, f: Cgi, pid: nat, g: Cgi)
    requires ValidFrame(c, f) && ValidFrame(c, g) && 0 < pid <= INT_MAX && Idle(st)
    ensures var o := Feed(c, st, Head(0, f) + f.body);
            && o.Wait? && o.st.buf == "" && !o.st.inData && o.st.request == Received(c, f)
            && var o' := Feed(c, o.st, Head(pid, g) + g.body);
               o'.Emit? && o'.pid == pid && o'.request == Received(c, f) + Received(c, g) && Idle(o'.st)
  {
    hide TakeLine, ParseHeader, Head, ClientText, LengthIn, Printable;
    FeedWhole(c, st, 0, f);
    assert "" + Received(c, f) == Received(c, f);
    var o := Feed(c, st, Head(0, f) + f.body);
    FeedWhole(c, o.st, pid, g);
  }

  /** A whole frame, whatever its pid, behind any text carried over. */
  lemma FeedWhole(c: Config, st: State, pid: nat, f: Cgi)
    requires ValidFrame(c, f) && pid <= INT_MAX && st.buf == "" && !st.inData
    ensures Feed(c, st, Head(pid, f) + f.body)
         == if pid > 0 then Emit(State("", "", false, pid, |f.body|), pid, st.request + Received(c, f))
            else Wait(State("", st.request + Received(c, f), false, pid, |f.body|))
  {
    hide TakeLine, ParseHeader, ClientText, LengthIn, Head;
    var chunk := Head(pid, f) + f.body;
    HeadNotEmpty(pid, f);
    assert "" + chunk == chunk;
    HeadRoundTrip(c, pid, f, f.body);
    AtoiOfPrint(pid, "");
    assert Print(pid, 10) + "" == Print(pid, 10);
    assert f.body[..|f.body|] == f.body && f.body[|f.body|..] == "";
    Assoc(st.request, ClientText(c, HeaderLines(f)), f.body);
  }

  lemma HeadNotEmpty(pid: nat, f: Cgi)
    ensures Head(pid, f) != ""
  {
  }

  // ---------------------------------------------------------------------
  // A header block that does not arrive whole

  lemma {:induction false} PrefixIncomplete(c: Config, lines: seq<string>, k: nat, n: nat)
    requires forall l | l in lines :: Plain(l)
    requires k < |Crlf(lines) + "\r\n"|
    ensures ParseHeader(c, (Crlf(lines) + "\r\n")[..k], n) == Incomplete
    decreases |lines|
  {
    if lines == [] {
      ShortLine("", "", k);
      assert Crlf(lines) + "\r\n" == "" + "\r\n" + "";
    } else {
      assert Plain(lines[0]);
      var rest := Crlf(lines[1..]) + "\r\n";
      Assoc(lines[0] + "\r\n", Crlf(lines[1..]), "\r\n");
      if k < |lines[0]| + 2 {
        ShortLine(lines[0], rest, k);
      } else {
        LongLine(lines[0], rest, k);
        TakeCrlfLine(lines[0], rest[..k - |lines[0]| - 2]);
        RewriteEmpty(c, lines[0]);
        assert forall l | l in lines[1..] :: l in lines;
        PrefixIncomplete(c, lines[1..], k - |lines[0]| - 2, LengthAfter(Rewrite(c, lines[0]), n));
      }
    }
  }

  /** Cut before its LF the line is not there yet. */
  lemma ShortLine(line: string, rest: string, k: nat)
    requires Lacks(line, '\n') && k < |line| + 2
    ensures TakeLine((line + "\r\n" + rest)[..k]) == NoLine
  {
    var s := (line + "\r\n" + rest)[..k];
    FindUnique('\n', s, k);
  }

  lemma LongLine(line: string, rest: string, k: nat)
    requires |line| + 2 <= k <= |line| + 2 + |rest|
    ensures (line + "\r\n" + rest)[..k] == line + "\r\n" + rest[..k - |line| - 2]
  {
  }

  /** A proper beginning of the header block ends the client daemon. */
  lemma HeadPrefixAborts(c: Config, st: State, pid: nat, f: Cgi, k: nat)
    requires Printable(f) && Idle(st) && 0 < k < |Head(pid, f)|
    ensures Feed(c, st, Head(pid, f)[..k]).Abort?
  {
    HeaderLinesPlain(f);
    PrintPlain(pid);
    var line, rest := Print(pid, 10), Crlf(HeaderLines(f)) + "\r\n";
    assert "" + Head(pid, f)[..k] == Head(pid, f)[..k];
    if k < |line| + 2 {
      ShortLine(line, rest, k);
    } else {
      LongLine(line, rest, k);
      TakeCrlfLine(line, rest[..k - |line| - 2]);
      PrefixIncomplete(c, HeaderLines(f), k - |line| - 2, 0);
    }
  }

  /** A frame does not begin with the ping byte, and its head has several bytes. */
  lemma HeadShape(pid: nat, f: Cgi)
    requires pid > 0
    ensures |Head(pid, f)| > 4 && Head(pid, f)[0] != '0'
  {
    PrintIsDigits(pid, 10);
    assert Head(pid, f)[0] == Print(pid, 10)[0];
  }

  // ---------------------------------------------------------------------
  // Which frames announce their length

  lemma {:induction false} NoLengthLine(c: Config, lines: seq<string>, n: nat)
    requires forall l | l in lines :: !IsLengthLine(Rewrite(c, l))
    ensures LengthIn(c, lines, n) == n
  {
    if lines != [] {
      assert forall l | l in lines[1..] :: l in lines;
      NoLengthLine(c, lines[1..], n);
    }
  }

  lemma {:induction false} LengthInAppend(c: Config, a: seq<string>, b: seq<string>, n: nat)
    ensures LengthIn(c, a + b, n) == LengthIn(c, b, LengthIn(c, a, n))
  {
    if a == [] {
      assert a + b == b;
    } else {
      assert (a + b)[1..] == a[1..] + b;
      LengthInAppend(c, a[1..], b, LengthAfter(Rewrite(c, a[0]), n));
    }
  }

  /** The line printed for CONTENT_LENGTH is read back as that number. */
  lemma LengthLine(c: Config, n: nat)
    requires n <= LONG_MAX
    ensures HeaderLine("CONTENT_LENGTH=" + Print(n, 10)) == Some("Content-length: " + Print(n, 10))
    ensures IsLengthLine(Rewrite(c, "Content-length: " + Print(n, 10)))
    ensures LengthAfter(Rewrite(c, "Content-length: " + Print(n, 10)), 0) == n
  {
    var v := Print(n, 10);
    var e := "CONTENT_LENGTH=" + v;
    NotHttp(e);
    FindUnique('=', e, 14);
    LengthName(v);
    LengthLineReads(c, n);
  }

  lemma NotHttp(e: string)
    requires e != "" && e[0] != 'H'
    ensures !At(e, "HTTP_", 0)
  {
  }

  lemma LengthName(v: string)
    ensures var e := "CONTENT_LENGTH=" + v;
            NameOf(e, 14) + ": " + ValueOf(e, 14) == "Content-length: " + v
  {
    var e := "CONTENT_LENGTH=" + v;
    assert NameOf(e, 14) == "Content-length";
    assert ValueOf(e, 14) == v;
  }

  lemma LengthLineReads(c: Config, n: nat)
    requires n <= LONG_MAX
    ensures IsLengthLine(Rewrite(c, "Content-length: " + Print(n, 10)))
    ensures LengthAfter(Rewrite(c, "Content-length: " + Print(n, 10)), 0) == n
  {
    var v := Print(n, 10);
    var line := "Content-length: " + v;
    PrintIsDigits(n, 10);
    NothingToReplace(line, HostLine(c), LocalHost(c));
    assert line[..16] == "Content-length: " && line[16..] == v;
    assert Lower("Content-length: ") == Lower("Content-Length: ");
    AtoSizeOfPrint(n, "");
    assert v + "" == v;
  }

  /** Without the first byte of the search text there is nothing to replace. */
  lemma NothingToReplace(s: string, x: string, r: string)
    requires x != "" && Lacks(s, x[0])
    ensures Replace(s, x, r) == s
  {
    assert forall j: nat | At(s, x, j) :: s[j..j + |x|][0] == s[j];
  }

  /** One content length: the environment has CONTENT_LENGTH with the length of
      the body, and no other line reads as a content length. */
  lemma OneLengthAnnounces(c: Config, f: Cgi, a: seq<string>, b: seq<string>)
    requires |f.body| <= LONG_MAX
    requires HeaderLines(f) == a + ["Content-length: " + Print(|f.body|, 10)] + b
    requires forall l | l in b :: !IsLengthLine(Rewrite(c, l))
    ensures Announced(c, f)
  {
    var line := ["Content-length: " + Print(|f.body|, 10)];
    LengthInAppend(c, a + line, b, 0);
    LengthInAppend(c, a, line, 0);
    LengthLine(c, |f.body|);
    assert line[1..] == [];
    NoLengthLine(c, b, |f.body|);
  }

  /** The Host rewrite neither makes nor unmakes a length line. */
  lemma RewriteKeepsLength(c: Config, line: string)
    ensures IsLengthLine(Rewrite(c, line)) <==> IsLengthLine(line)
  {
    hide ReplaceAll, IsLengthLine, HostLine, LocalHost;
    var x, r := HostLine(c), LocalHost(c);
    var i := StrStr(line, x);
    HostBytes(c, "", "", "");
    if i >= 0 {
      ReplaceHead(line, x, r, i);
      var y, z := line[i + |x|..], ReplaceAll(line[i + |x|..], x, r);
      assert line[i..i + |x|] == x;
      assert line == line[..i] + (x + y);
      HostBytes(c, line[..i], y, z);
      HostBehind(line, line[..i] + (r + z), i);
    } else {
      NoHost(line, x, r);
    }
  }

  lemma HostBehind(d: string, e: string, i: nat)
    requires i + 16 <= |d| && i + 16 <= |e| && d[i] == e[i] == 'H' && d[i + 1] == e[i + 1] == 'o'
    requires forall k | 0 <= k < i + 6 :: d[k] == e[k]
    ensures IsLengthLine(d) <==> IsLengthLine(e)
  {
    hide IsLengthLine;
    LengthLineBytes(d);
    LengthLineBytes(e);
  }

  lemma NoHost(line: string, x: string, r: string)
    requires x != "" && StrStr(line, x) < 0
    ensures Replace(line, x, r) == line
  {
  }

  /** Both texts begin with "Host: ": it cannot begin inside the name. */
  lemma HostBytes(c: Config, a: string, y: string, z: string)
    ensures var d, e := a + (HostLine(c) + y), a + (LocalHost(c) + z);
            && d[|a|] == e[|a|] == 'H' && d[|a| + 1] == e[|a| + 1] == 'o'
            && forall k | 0 <= k < |a| + 6 :: d[k] == e[k]
    ensures |LocalHost(c)| > 16 && |HostLine(c)| > 16
  {
    assert HostLine(c)[..6] == "Host: " && LocalHost(c)[..6] == "Host: ";
  }

  /** The header line of this entry reads as a content length. */
  predicate IsLengthEntry(e: string) {
    HeaderLine(e).Some? && IsLengthLine(HeaderLine(e).value)
  }

  /** Pier prints a header line for this entry, if it has a '='. */
  predicate IsPrinted(e: string) {
    (At(e, "HTTP_", 0) && |e| > 5) || (At(e, "CONTENT_", 0) && |e| > 8)
  }

  lemma {:induction false} SelectAppend(a: seq<CStr>, b: seq<CStr>, prefix: string)
    ensures Select(a + b, prefix) == Select(a, prefix) + Select(b, prefix)
  {
    if a == [] {
      assert a + b == b;
    } else {
      assert (a + b)[1..] == a[1..] + b;
      SelectAppend(a[1..], b, prefix);
    }
  }

  lemma {:induction false} OtherEntries(c: Config, env: seq<CStr>, prefix: string, n: nat)
    requires forall e | e in env && At(e, prefix, 0) && |e| > |prefix| :: !IsLengthEntry(e)
    ensures LengthIn(c, Lines(Select(env, prefix)), n) == n
  {
    hide HeaderLine, IsLengthLine, Rewrite;
    if env != [] {
      assert env[0] in env && forall e | e in env[1..] :: e in env;
      OtherEntries(c, env[1..], prefix, n);
      if Select(env, prefix) != Select(env[1..], prefix) {
        assert Select(env, prefix)[1..] == Select(env[1..], prefix);
        if HeaderLine(env[0]).Some? {
          RewriteKeepsLength(c, HeaderLine(env[0]).value);
          assert Lines(Select(env, prefix))[1..] == Lines(Select(env[1..], prefix));
        }
      }
    }
  }

  lemma LengthEntry(n: nat)
    ensures var e := "CONTENT_LENGTH=" + Print(n, 10);
            !At(e, "HTTP_", 0) && At(e, "CONTENT_", 0) && |e| > 8
  {
    var e := "CONTENT_LENGTH=" + Print(n, 10);
    NotHttp(e);
    assert e[0..8] == "CONTENT_";
  }

  /** The lines for the CONTENT_ entries. */
  lemma ContentLines(a: seq<CStr>, e: CStr, b: seq<CStr>)
    requires At(e, "CONTENT_", 0) && |e| > 8 && HeaderLine(e).Some?
    ensures Lines(Select((a + [e]) + b, "CONTENT_"))
         == (Lines(Select(a, "CONTENT_")) + [HeaderLine(e).value]) + Lines(Select(b, "CONTENT_"))
  {
    hide HeaderLine, Select, Lines;
    SelectAppend(a + [e], b, "CONTENT_");
    SelectAppend(a, [e], "CONTENT_");
    SelectOne(e, "CONTENT_");
    LinesAppend(Select(a, "CONTENT_") + [e], Select(b, "CONTENT_"));
    LinesAppend(Select(a, "CONTENT_"), [e]);
    LinesOne(e);
  }

  lemma NoOther(env: seq<CStr>, k: nat)
    requires k < |env| && !At(env[k], "HTTP_", 0)
    requires forall i | 0 <= i < |env| && i != k && IsPrinted(env[i]) :: !IsLengthEntry(env[i])
    ensures forall e | e in env && At(e, "HTTP_", 0) && |e| > |"HTTP_"| :: !IsLengthEntry(e)
    ensures forall e | e in env[..k] && At(e, "CONTENT_", 0) && |e| > |"CONTENT_"| :: !IsLengthEntry(e)
    ensures forall e | e in env[k + 1..] && At(e, "CONTENT_", 0) && |e| > |"CONTENT_"| :: !IsLengthEntry(e)
  {
    hide At, IsLengthEntry;
  }

  /** One content length in the environment: an entry CONTENT_LENGTH with the length
      of the body, and no other entry or variable that prints as a content length. */
  lemma OneEntryAnnounces(c: Config, f: Cgi, k: nat)
    requires |f.body| <= LONG_MAX && k < |f.env| && f.env[k] == "CONTENT_LENGTH=" + Print(|f.body|, 10)
    requires forall i | 0 <= i < |f.env| && i != k && IsPrinted(f.env[i]) :: !IsLengthEntry(f.env[i])
    requires !IsLengthLine(RequestLine(f))
    ensures Announced(c, f)
  {
    hide HeaderLine, IsLengthLine, Rewrite, IsLengthEntry, IsPrinted, At, RequestLine, Select, Print, Lines, LengthIn;
    var n, e, a, b := |f.body|, f.env[k], f.env[..k], f.env[k + 1..];
    assert f.env == (a + [e]) + b;
    LengthEntry(n);
    LengthLine(c, n);
    NoOther(f.env, k);
    OtherEntries(c, f.env, "HTTP_", 0);
    OtherEntries(c, a, "CONTENT_", 0);
    OtherEntries(c, b, "CONTENT_", n);
    ContentLines(a, e, b);
    RewriteKeepsLength(c, RequestLine(f));
    FrameLength(c, RequestLine(f), Lines(Select(f.env, "HTTP_")), Lines(Select(a, "CONTENT_")), HeaderLine(e).value,
                Lines(Select(b, "CONTENT_")), n);
  }

  lemma SelectOne(e: CStr, prefix: string)
    requires At(e, prefix, 0) && |e| > |prefix|
    ensures Select([e], prefix) == [e]
  {
    assert [e][1..] == [] && [e] + [] == [e];
  }

  lemma LinesOne(e: string)
    requires HeaderLine(e).Some?
    ensures Lines([e]) == [HeaderLine(e).value]
  {
    assert [e][1..] == [];
  }

  lemma FrameLength(c: Config, first: string, http: seq<string>, a: seq<string>, line: string, b: seq<string>, n: nat)
    requires !IsLengthLine(Rewrite(c, first)) && LengthIn(c, http, 0) == 0 && LengthIn(c, a, 0) == 0
    requires LengthAfter(Rewrite(c, line), 0) == n && LengthIn(c, b, n) == n
    ensures LengthIn(c, [first] + http + ((a + [line]) + b), 0) == n
  {
    hide IsLengthLine, Rewrite;
    LengthInAppend(c, [first] + http, (a + [line]) + b, 0);
    LengthInAppend(c, [first], http, 0);
    LengthInAppend(c, a + [line], b, 0);
    LengthInAppend(c, a, [line], 0);
    assert [first][1..] == [] && [line][1..] == [];
  }

  // ---------------------------------------------------------------------
  // Section 4.1.18 of RFC 3875

  function ToUpper(ch: char): char {
    if IsLower(ch) then (ch as int - 32) as char else ch
  }

  /** The meta-variable name for a header field: upper case, '-' to '_'. */
  function MetaName(field: string): (r: string)
    ensures |r| == |field|
  {
    seq(|field|, i requires 0 <= i < |field| => if field[i] == '-' then '_' else ToUpper(field[i]))
  }

  lemma NameBack(field: string, h: string)
    requires field != "" && |field| < |h| && MetaName(field) == h[..|field|]
    ensures Lower(NameOf(h, |field|)) == Lower(field) <==> field[0] != '-' && Lacks(field[1..], '_')
  {
    var name := NameOf(h, |field|);
    assert forall k | 0 <= k < |field| :: h[k] == MetaName(field)[k];
    assert forall k | 0 < k < |field| :: ToLower(name[k]) == ToLower(field[k]) <==> field[k] != '_';
    assert ToLower(name[0]) == ToLower(field[0]) <==> field[0] != '-';
    SameLower(name, field);
    assert forall k | 0 < k < |field| :: field[1..][k - 1] == field[k];
  }

  lemma SameLower(a: string, b: string)
    requires |a| == |b|
    ensures Lower(a) == Lower(b) <==> forall k | 0 <= k < |a| :: ToLower(a[k]) == ToLower(b[k])
  {
    assert forall k | 0 <= k < |a| :: Lower(a)[k] == ToLower(a[k]) && Lower(b)[k] == ToLower(b[k]);
  }

  /** addHeader gives the field name back, letter case aside, exactly when no
      underscore stands behind its first byte and that byte is not a dash. */
  lemma NameInverse(field: CStr, value: CStr)
    requires field != "" && Lacks(field, '=')
    ensures var h := MetaName(field) + "=" + value;
            var name := NameOf(h, |field|);
            && HeaderLine("HTTP_" + h) == Some(name + ": " + value)
            && (Lower(name) == Lower(field) <==> field[0] != '-' && Lacks(field[1..], '_'))
  {
    var h := MetaName(field) + "=" + value;
    HttpEntry(h);
    FindUnique('=', h, |field|);
    assert ValueOf(h, |field|) == value;
    NameBack(field, h);
  }

  lemma HttpEntry(h: string)
    ensures SkipHttp("HTTP_" + h) == h
  {
    assert At("HTTP_" + h, "HTTP_", 0);
  }
}
