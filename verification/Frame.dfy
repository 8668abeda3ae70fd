/** The request frame a Pier process writes into the shared FIFO: its pid, the
    request line, the headers rebuilt from the CGI environment, a blank line and
    the body. */
module Frame {
  import opened CString
  import opened CNumber
  import opened Liblst
  import opened Request

  /** A CGI request: three variables, the environment list and standard input. */
  datatype Cgi = Cgi(verb: Option<CStr>, uri: CStr, protocol: Option<CStr>, env: seq<CStr>, body: string)

  function Default(o: Option<CStr>, d: CStr): CStr {
    match o
    case Some(v) => v
    case None => d
  }

  function RequestLine(f: Cgi): string {
    Default(f.verb, "GET") + " " + f.uri + " " + Default(f.protocol, "HTTP/1.1")
  }

  // ---------------------------------------------------------------------
  // One environment entry

  /** tolower, then '_' to '-'. */
  function Dash(c: char): char {
    if c == '_' then '-' else ToLower(c)
  }

  function DashAll(s: string): (r: string)
    ensures |r| == |s|
  {
    seq(|s|, i requires 0 <= i < |s| => Dash(s[i]))
  }

  /** What addHeader makes of the text in front of a '=' at position `i`: the
      first byte stays, the others are mapped. */
  function NameOf(h: string, i: nat): (r: string)
    requires i < |h|
    ensures |r| == i
    ensures forall k | 0 <= k < i :: r[k] == if k == 0 then h[k] else Dash(h[k])
  {
    if i == 0 then "" else h[..1] + DashAll(h[1..i])
  }

  /** The text behind the '='. When the name is empty the mapping loop starts
      here instead of behind the first byte of the name. */
  function ValueOf(h: string, i: nat): (r: string)
    requires i < |h|
    ensures |r| == |h| - i - 1
    ensures forall k | i < k < |h| :: r[k - i - 1] == if i == 0 then Dash(h[k]) else h[k]
  {
    if i == 0 then DashAll(h[1..]) else h[i + 1..]
  }

  function SkipHttp(entry: string): string {
    if At(entry, "HTTP_", 0) then entry[5..] else entry
  }

  /** The header line of one environment entry; entries without '=' are passed over. */
  function HeaderLine(entry: string): Option<string> {
    var h := SkipHttp(entry);
    var i := Find('=', h);
    if i == |h| then None else Some(NameOf(h, i) + ": " + ValueOf(h, i))
  }

  /** The array holds the C string `t` at position `p`. */
  predicate Holds(a: array<char>, p: nat, t: string)
    reads a
  {
    && p + |t| < a.Length && a[p + |t|] == NUL
    && forall k | p <= k < p + |t| :: a[k] == t[k - p]
  }

  method ReadText(a: array<char>, p: nat, ghost t: CStr) returns (r: CStr)
    requires Holds(a, p, t)
    ensures r == t
  {
    assert a[p..][..|t|] == t;
    StrCut(a[p..], t, |t|);
    r := Str(a[p..]);
  }

  /** The mapping loop of addHeader: from `from` to the NUL at `end`. */
  method DashFrom(a: array<char>, from: nat, ghost end: nat)
    requires from <= end < a.Length && a[end] == NUL
    requires forall k | from <= k < end :: a[k] != NUL
    modifies a
    ensures forall k | from <= k < end :: a[k] == Dash(old(a[k]))
    ensures forall k | 0 <= k < a.Length && !(from <= k < end) :: a[k] == old(a[k])
  {
    var p := from;
    while a[p] != NUL
      invariant from <= p <= end
      invariant forall k | from <= k < p :: a[k] == Dash(old(a[k]))
      invariant forall k | 0 <= k < a.Length && !(from <= k < p) :: a[k] == old(a[k])
      decreases end - p
    {
      a[p] := ToLower(a[p]);
      if a[p] == '_' {
        a[p] := '-';
      }
      p := p + 1;
    }
  }

  /** Write a NUL over the '=', map the name, in place. */
  method CutName(a: array<char>, h1: nat, i: nat, ghost h: CStr)
    requires Holds(a, h1, h) && i < |h| && h1 + i < a.Length
    modifies a
    ensures Holds(a, h1, NameOf(h, i)) && Holds(a, h1 + i + 1, ValueOf(h, i))
  {
    a[h1 + i] := NUL;
    DashFrom(a, h1 + 1, if i == 0 then h1 + |h| else h1 + i);
  }

  /** The body of addHeader's loop, on one environment string, in place. */
  method EditEntry(a: array<char>, ghost entry: CStr) returns (line: Option<string>)
    requires Holds(a, 0, entry)
    modifies a
    ensures line == HeaderLine(entry)
  {
    var text := ReadText(a, 0, entry);
    NotAtFront(text, "HTTP_");
    var h1 := 0;
    if StrStr(text, "HTTP_") == 0 {
      a[4] := NUL;
      h1 := 5;
    }
    ghost var h := SkipHttp(entry);
    var name := ReadText(a, h1, h);
    var i := Find('=', name);
    if i == |name| {
      line := None;
    } else {
      CutName(a, h1, i, h);
      StaysCStr(h, i);
      name := ReadText(a, h1, NameOf(h, i));
      var value := ReadText(a, h1 + i + 1, ValueOf(h, i));
      line := Some(name + ": " + value);
    }
  }

  lemma StaysCStr(h: CStr, i: nat)
    requires i < |h|
    ensures Lacks(NameOf(h, i), NUL) && Lacks(ValueOf(h, i), NUL)
  {
  }

  lemma NotAtFront(s: string, x: string)
    ensures StrStr(s, x) == 0 <==> At(s, x, 0)
  {
  }

  // ---------------------------------------------------------------------
  // The whole frame

  /** The header lines of a list of entries. */
  function Lines(entries: seq<string>): seq<string> {
    if entries == [] then []
    else
      match HeaderLine(entries[0])
      case None => Lines(entries[1..])
      case Some(line) => [line] + Lines(entries[1..])
  }

  /** Each line with CR LF behind it. */
  function Crlf(lines: seq<string>): string {
    if lines == [] then "" else lines[0] + "\r\n" + Crlf(lines[1..])
  }

  lemma {:induction false} CrlfAppend(a: seq<string>, b: seq<string>)
    ensures Crlf(a + b) == Crlf(a) + Crlf(b)
  {
    if a == [] {
      assert a + b == b;
    } else {
      assert (a + b)[1..] == a[1..] + b;
      CrlfAppend(a[1..], b);
    }
  }

  lemma {:induction false} LinesAppend(a: seq<string>, b: seq<string>)
    ensures Lines(a + b) == Lines(a) + Lines(b)
  {
    if a == [] {
      assert a + b == b;
    } else {
      assert (a + b)[1..] == a[1..] + b;
      LinesAppend(a[1..], b);
    }
  }

  function LineText(line: Option<string>): string {
    match line
    case None => ""
    case Some(l) => l + "\r\n"
  }

  lemma CrlfOne(entry: string)
    ensures Crlf(Lines([entry])) == LineText(HeaderLine(entry))
  {
    assert [entry][1..] == [];
    var line := HeaderLine(entry);
    if line.Some? {
      assert Lines([entry]) == [line.value];
      assert [line.value][1..] == [];
    }
  }

  /** One more entry, one more line at the end of the text. */
  lemma LinesPush(header: string, entries: seq<string>, i: nat)
    requires i < |entries|
    ensures header + Crlf(Lines(entries[..i + 1]))
         == header + Crlf(Lines(entries[..i])) + LineText(HeaderLine(entries[i]))
  {
    var done, entry := entries[..i], entries[i];
    LinesAppend(done, [entry]);
    CrlfAppend(Lines(done), Lines([entry]));
    CrlfOne(entry);
    Assoc(header, Crlf(Lines(done)), LineText(HeaderLine(entry)));
    assert entries[..i + 1] == done + [entry];
  }

  /** addHeader: append a line per entry, editing the entries in place. */
  method AddHeader(header: string, lst: seq<array<char>>, ghost entries: seq<CStr>) returns (out: string)
    requires |lst| == |entries|
    requires forall i, j | 0 <= i < j < |lst| :: lst[i] != lst[j]
    requires forall i | 0 <= i < |lst| :: Holds(lst[i], 0, entries[i])
    modifies set i | 0 <= i < |lst| :: lst[i]
    ensures out == header + Crlf(Lines(entries))
  {
    out := header;
    assert entries[..0] == [];
    for i := 0 to |lst|
      invariant forall k | i <= k < |lst| :: Holds(lst[k], 0, entries[k])
      invariant out == header + Crlf(Lines(entries[..i]))
    {
      var line := EditEntry(lst[i], entries[i]);
      LinesPush(header, entries, i);
      out := out + LineText(line);
    }
    assert entries[..|lst|] == entries;
  }

  /** The entries lstEgrep picks with "^HTTP_.+$" and "^CONTENT_.+$". */
  function Select(env: seq<CStr>, prefix: string): seq<CStr> {
    if env == [] then []
    else if At(env[0], prefix, 0) && |env[0]| > |prefix| then [env[0]] + Select(env[1..], prefix)
    else Select(env[1..], prefix)
  }

  function HeaderLines(f: Cgi): seq<string> {
    [RequestLine(f)] + Lines(Select(f.env, "HTTP_")) + Lines(Select(f.env, "CONTENT_"))
  }

  /** The header block as Pier writes it: pid line, header lines, blank line. */
  function Head(pid: nat, f: Cgi): string {
    Print(pid, 10) + "\r\n" + (Crlf(HeaderLines(f)) + "\r\n")
  }

  /** Pier's header block, built step by step the way Pier builds it. */
  method BuildHead(pid: nat, f: Cgi, http: seq<array<char>>, content: seq<array<char>>) returns (header: string)
    requires |http| == |Select(f.env, "HTTP_")| && |content| == |Select(f.env, "CONTENT_")|
    requires forall i, j | 0 <= i < j < |http| :: http[i] != http[j]
    requires forall i, j | 0 <= i < j < |content| :: content[i] != content[j]
    requires forall i, j | 0 <= i < |http| && 0 <= j < |content| :: http[i] != content[j]
    requires forall i | 0 <= i < |http| :: Holds(http[i], 0, Select(f.env, "HTTP_")[i])
    requires forall i | 0 <= i < |content| :: Holds(content[i], 0, Select(f.env, "CONTENT_")[i])
    modifies (set i | 0 <= i < |http| :: http[i]), (set i | 0 <= i < |content| :: content[i])
    ensures header == Head(pid, f)
  {
    header := Print(pid, 10) + "\r\n";
    header := header + (RequestLine(f) + "\r\n");
    header := AddHeader(header, http, Select(f.env, "HTTP_"));
    header := AddHeader(header, content, Select(f.env, "CONTENT_"));
    header := header + "\r\n";
    HeadParts(pid, f);
  }

  lemma HeadParts(pid: nat, f: Cgi)
    ensures Print(pid, 10) + "\r\n" + (RequestLine(f) + "\r\n") + Crlf(Lines(Select(f.env, "HTTP_")))
         + Crlf(Lines(Select(f.env, "CONTENT_"))) + "\r\n" == Head(pid, f)
  {
    var first, http, content := [RequestLine(f)], Lines(Select(f.env, "HTTP_")), Lines(Select(f.env, "CONTENT_"));
    CrlfAppend(first + http, content);
    CrlfAppend(first, http);
    assert first[1..] == [] && RequestLine(f) + "\r\n" + "" == RequestLine(f) + "\r\n";
    Regroup(Print(pid, 10) + "\r\n", RequestLine(f) + "\r\n", Crlf(http), Crlf(content), "\r\n");
  }

  lemma Regroup(a: string, b: string, c: string, d: string, e: string)
    ensures a + b + c + d + e == a + (b + c + d + e)
  {
  }

  // ---------------------------------------------------------------------
  // Reading the frame back

  /** A line that survives the client's line reader unchanged. */
  predicate Plain(line: string) {
    line != "" && Lacks(line, '\n') && Lacks(line, '\r') && Lacks(line, NUL)
  }

  /** The header text the client keeps for these lines. */
  function ClientText(c: Config, lines: seq<string>): string {
    if lines == [] then "\n" else Rewrite(c, lines[0]) + "\n" + ClientText(c, lines[1..])
  }

  /** The content length the client reads from these lines. */
  function LengthIn(c: Config, lines: seq<string>, n: nat): nat {
    if lines == [] then n else LengthIn(c, lines[1..], LengthAfter(Rewrite(c, lines[0]), n))
  }

  lemma TakeCrlfLine(line: string, z: string)
    requires Lacks(line, '\n') && Lacks(line, '\r') && Lacks(line, NUL)
    ensures TakeLine(line + "\r\n" + z) == Line(line, z)
  {
    var s := line + "\r\n" + z;
    FindUnique('\n', s, |line| + 1);
    assert s[..|line| + 1] == line + "\r" && s[|line| + 2..] == z;
    StrOfCStr(line + "\r");
    ChopIsFilter(line, "\r", '\r');
    ChopIsSubset(line, NUL);
    assert line + "" == line;
  }

  /** Header lines printed and parsed: the same lines, up to the Host rewrite and
      CR LF to LF, their content length, and whatever came behind them. */
  lemma {:induction false} LinesRoundTrip(c: Config, lines: seq<string>, z: string, n: nat)
    requires forall l | l in lines :: Plain(l)
    ensures ParseHeader(c, Crlf(lines) + "\r\n" + z, n) == Block(ClientText(c, lines), LengthIn(c, lines, n), z)
    decreases |lines|
  {
    if lines == [] {
      TakeCrlfLine("", z);
      assert "" + "\r\n" + z == Crlf(lines) + "\r\n" + z;
      RewriteEmpty(c, "");
      NotLength("");
    } else {
      var rest := Crlf(lines[1..]) + "\r\n" + z;
      assert Plain(lines[0]);
      TakeCrlfLine(lines[0], rest);
      Regroup3(lines[0] + "\r\n", Crlf(lines[1..]), "\r\n", z);
      RewriteEmpty(c, lines[0]);
      assert forall l | l in lines[1..] :: l in lines;
      LinesRoundTrip(c, lines[1..], z, LengthAfter(Rewrite(c, lines[0]), n));
    }
  }

  lemma NotLength(s: string)
    requires |s| < 16
    ensures !StartsNoCase(s, "Content-Length: ")
  {
  }

  lemma Regroup3(a: string, b: string, c: string, d: string)
    ensures (a + b) + c + d == a + (b + c + d)
  {
  }
}
