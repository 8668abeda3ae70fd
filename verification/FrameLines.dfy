/** The text of a frame and of the request that comes out of it, line by line. */
module FrameLines {
  import opened CString
  import opened CNumber
  import opened Liblst
  import opened LiblstSplit
  import opened Request
  import opened Frame
  import opened FrameRoundTrip

  // ---------------------------------------------------------------------
  // The request line

  /** A field between single spaces. */
  predicate IsField(s: string) {
    s != "" && Lacks(s, ' ')
  }

  /** The request line splits at its spaces into method, uri and protocol; "GET" and
      "HTTP/1.1" stand in for a variable that is not set. */
  lemma RequestLineFields(f: Cgi, verb: string, protocol: string)
    requires verb == if f.verb.Some? then f.verb.value else "GET"
    requires protocol == if f.protocol.Some? then f.protocol.value else "HTTP/1.1"
    requires IsField(verb) && IsField(f.uri) && IsField(protocol)
    ensures Tokens(' ', RequestLine(f)) == [verb, f.uri, protocol]
  {
    var ts := [verb, f.uri, protocol];
    TokensOfJoin(' ', ts);
    assert ts[1..] == [f.uri, protocol] && ts[1..][1..] == [protocol];
    assert Join([protocol], " ") == protocol;
    assert Join(ts[1..], " ") == f.uri + " " + protocol;
    assert Join(ts, " ") == verb + " " + (f.uri + " " + protocol);
    assert RequestLine(f) == Join(ts, " ");
  }

  // ---------------------------------------------------------------------
  // The line of an entry

  /** `line` is the field for a variable: its first byte as it is, the others in
      lower case with dashes for underscores, and the value. */
  predicate IsLineOf(line: string, name: string, value: string) {
    && name != "" && |line| == |name| + 2 + |value| && line[0] == name[0]
    && (forall k | 0 < k < |name| :: line[k] == if name[k] == '_' then '-' else ToLower(name[k]))
    && line[|name|..] == ": " + value
  }

  lemma FieldLine(name: string, value: string)
    requires name != "" && Lacks(name, '=')
    ensures var h := name + "=" + value;
            Find('=', h) == |name| && IsLineOf(NameOf(h, |name|) + ": " + ValueOf(h, |name|), name, value)
  {
    var h := name + "=" + value;
    FindUnique('=', h, |name|);
    var d := NameOf(h, |name|);
    assert ValueOf(h, |name|) == value;
    assert (d + ": " + value)[|name|..] == ": " + value;
  }

  /** An entry HTTP_NAME=value prints as the line of NAME. */
  lemma HttpLine(name: string, value: string)
    requires name != "" && Lacks(name, '=')
    ensures var line := HeaderLine("HTTP_" + (name + "=" + value));
            line.Some? && IsLineOf(line.value, name, value)
  {
    HttpEntry(name + "=" + value);
    FieldLine(name, value);
  }

  /** An entry CONTENT_NAME=value prints as the line of CONTENT_NAME. */
  lemma ContentLine(name: string, value: string)
    requires Lacks(name, '=')
    ensures var line := HeaderLine("CONTENT_" + name + "=" + value);
            line.Some? && IsLineOf(line.value, "CONTENT_" + name, value)
  {
    var e := "CONTENT_" + name + "=" + value;
    NotHttp(e);
    assert Lacks("CONTENT_" + name, '=');
    FieldLine("CONTENT_" + name, value);
  }

  // ---------------------------------------------------------------------
  // Which lines, in which order

  /** Pier prints a line for the entry in the group of this prefix. */
  predicate InGroup(e: string, prefix: string) {
    At(e, prefix, 0) && |e| > |prefix| && HeaderLine(e).Some?
  }

  /** `at` lists the entries of the group in environment order, and `lines` are
      their lines. */
  predicate IsGroup(env: seq<CStr>, prefix: string, at: seq<nat>, lines: seq<string>) {
    && |at| == |lines|
    && (forall i, j | 0 <= i < j < |at| :: at[i] < at[j])
    && (forall i | 0 <= i < |at| ::
          at[i] < |env| && InGroup(env[at[i]], prefix) && HeaderLine(env[at[i]]).value == lines[i])
    && (forall k | 0 <= k < |env| && InGroup(env[k], prefix) :: k in at)
  }

  lemma {:induction false} GroupOf(env: seq<CStr>, prefix: string) returns (at: seq<nat>)
    ensures IsGroup(env, prefix, at, Lines(Select(env, prefix)))
    decreases |env|
  {
    hide HeaderLine, InGroup;
    if env == [] {
      at := [];
    } else {
      var n := |env| - 1;
      var front, e := env[..n], env[n];
      assert env == front + [e];
      var rest := GroupOf(front, prefix);
      SelectAppend(front, [e], prefix);
      LinesAppend(Select(front, prefix), Select([e], prefix));
      GroupOne(e, prefix);
      at := if InGroup(e, prefix) then rest + [n] else rest;
      GroupGrows(env, prefix, rest, Lines(Select(front, prefix)), at);
    }
  }

  lemma GroupOne(e: CStr, prefix: string)
    ensures Lines(Select([e], prefix)) == if InGroup(e, prefix) then [HeaderLine(e).value] else []
  {
    assert [e][1..] == [] && [e] + [] == [e];
  }

  lemma GroupGrows(env: seq<CStr>, prefix: string, at: seq<nat>, lines: seq<string>, at': seq<nat>)
    requires env != [] && IsGroup(env[..|env| - 1], prefix, at, lines)
    requires var n := |env| - 1; at' == if InGroup(env[n], prefix) then at + [n] else at
    ensures var n := |env| - 1;
            IsGroup(env, prefix, at', lines + if InGroup(env[n], prefix) then [HeaderLine(env[n]).value] else [])
  {
    hide HeaderLine, At, IsGroup, InGroup;
    var n := |env| - 1;
    SameGroup(env, prefix, at, lines);
    if InGroup(env[n], prefix) {
      GroupMore(env, prefix, at, lines);
    } else {
      assert lines + [] == lines;
      GroupEnds(env, prefix, at, lines);
    }
  }

  /** The entries of `at` and their lines, for the front of `env` without its last
      entry. */
  predicate IsFrontGroup(env: seq<CStr>, prefix: string, at: seq<nat>, lines: seq<string>)
    requires env != []
  {
    && |at| == |lines|
    && (forall i, j | 0 <= i < j < |at| :: at[i] < at[j])
    && (forall i | 0 <= i < |at| ::
          at[i] < |env| - 1 && InGroup(env[at[i]], prefix) && HeaderLine(env[at[i]]).value == lines[i])
    && (forall k | 0 <= k < |env| - 1 && InGroup(env[k], prefix) :: k in at)
  }

  lemma SameGroup(env: seq<CStr>, prefix: string, at: seq<nat>, lines: seq<string>)
    requires env != [] && IsGroup(env[..|env| - 1], prefix, at, lines)
    ensures IsFrontGroup(env, prefix, at, lines)
  {
    hide HeaderLine, InGroup;
    assert forall k | 0 <= k < |env| - 1 :: env[..|env| - 1][k] == env[k];
  }

  lemma GroupEnds(env: seq<CStr>, prefix: string, at: seq<nat>, lines: seq<string>)
    requires env != [] && IsFrontGroup(env, prefix, at, lines) && !InGroup(env[|env| - 1], prefix)
    ensures IsGroup(env, prefix, at, lines)
  {
    hide HeaderLine, InGroup;
  }

  lemma GroupMore(env: seq<CStr>, prefix: string, at: seq<nat>, lines: seq<string>)
    requires env != [] && IsFrontGroup(env, prefix, at, lines) && InGroup(env[|env| - 1], prefix)
    ensures IsGroup(env, prefix, at + [|env| - 1], lines + [HeaderLine(env[|env| - 1]).value])
  {
    hide HeaderLine, InGroup;
    var at' := at + [|env| - 1];
    assert at'[|at|] == |env| - 1;
    assert forall k | k in at :: k in at';
  }

  /** No name in front of the '=': the mapping goes on in the value. Without a '='
      there is no line. */
  lemma OtherLine(value: string)
    ensures HeaderLine("HTTP_=" + value).Some?
    ensures var line := HeaderLine("HTTP_=" + value).value;
            |line| == 2 + |value| && line[..2] == ": "
            && forall k | 0 <= k < |value| :: line[2 + k] == if value[k] == '_' then '-' else ToLower(value[k])
    ensures Lacks(value, '=') ==> HeaderLine("HTTP_" + value) == None
  {
    HttpEntry("=" + value);
    FindUnique('=', "=" + value, 0);
    assert "HTTP_=" + value == "HTTP_" + ("=" + value);
    HttpEntry(value);
    if Lacks(value, '=') {
      FindUnique('=', value, |value|);
    }
  }

  // ---------------------------------------------------------------------
  // The whole text

  lemma CrlfPiece(l: string, rest: string)
    requires Lacks(l, '\r')
    ensures Pieces(l + "\r\n" + rest, "\r\n") == [l] + Pieces(rest, "\r\n")
  {
    var s := l + "\r\n" + rest;
    forall j: nat | j < |l|
      ensures !At(s, "\r\n", j)
    {
      assert j + 2 <= |s| ==> s[j..j + 2][0] == s[j] == l[j];
    }
    assert s[|l|..|l| + 2] == "\r\n";
    StrStrUnique(s, "\r\n", |l|);
    assert s[..|l|] == l && s[|l| + 2..] == rest;
  }

  lemma {:induction false} CrlfPieces(lines: seq<string>, rest: string)
    requires forall l | l in lines :: Lacks(l, '\r')
    ensures Pieces(Crlf(lines) + rest, "\r\n") == lines + Pieces(rest, "\r\n")
  {
    hide Pieces, Lacks;
    if lines == [] {
      assert "" + rest == rest && [] + Pieces(rest, "\r\n") == Pieces(rest, "\r\n");
    } else {
      assert lines[0] in lines && forall l | l in lines[1..] :: l in lines;
      CrlfPieces(lines[1..], rest);
      CrlfPiece(lines[0], Crlf(lines[1..]) + rest);
      Assoc(lines[0] + "\r\n", Crlf(lines[1..]), rest);
      Assoc([lines[0]], lines[1..], Pieces(rest, "\r\n"));
      assert lines == [lines[0]] + lines[1..];
    }
  }

  /** Cut at CR LF, the header block is the pid, the request line, the lines of the
      HTTP_ entries and those of the CONTENT_ entries, both in environment order, and
      the blank line. */
  lemma HeadText(pid: nat, f: Cgi) returns (http: seq<nat>, content: seq<nat>)
    requires Printable(f)
    ensures var h, c := Lines(Select(f.env, "HTTP_")), Lines(Select(f.env, "CONTENT_"));
            && IsGroup(f.env, "HTTP_", http, h) && IsGroup(f.env, "CONTENT_", content, c)
            && Pieces(Head(pid, f), "\r\n") == [Print(pid, 10), RequestLine(f)] + h + c + ["", ""]
  {
    hide RequestLine, Print, Lines, Select, Pieces, IsGroup;
    http := GroupOf(f.env, "HTTP_");
    content := GroupOf(f.env, "CONTENT_");
    var p, lines := Print(pid, 10), HeaderLines(f);
    PlainHasNoCr(pid, f);
    CrlfPiece(p, Crlf(lines) + "\r\n");
    CrlfPieces(lines, "\r\n");
    BlankPieces();
    var h, c := Lines(Select(f.env, "HTTP_")), Lines(Select(f.env, "CONTENT_"));
    assert [p] + (([RequestLine(f)] + h + c) + ["", ""]) == [p, RequestLine(f)] + h + c + ["", ""];
  }

  lemma PlainHasNoCr(pid: nat, f: Cgi)
    requires Printable(f)
    ensures Lacks(Print(pid, 10), '\r') && forall l | l in HeaderLines(f) :: Lacks(l, '\r')
  {
    PrintPlain(pid);
    HeaderLinesPlain(f);
    assert forall l | l in HeaderLines(f) :: Plain(l);
  }

  lemma BlankPieces()
    ensures Pieces("\r\n", "\r\n") == ["", ""]
  {
    CrlfPiece("", "");
    assert "" + "\r\n" + "" == "\r\n";
    assert Pieces("", "\r\n") == [""];
  }

  // ---------------------------------------------------------------------
  // The request received

  /** Header lines as the client keeps them. */
  function KeptText(c: Config, lines: seq<string>): string {
    if lines == [] then "" else Rewrite(c, lines[0]) + "\n" + KeptText(c, lines[1..])
  }

  lemma {:induction false} KeptLines(c: Config, a: seq<string>, l: string, b: seq<string>)
    ensures ClientText(c, a + [l] + b) == KeptText(c, a) + (Rewrite(c, l) + "\n" + (KeptText(c, b) + "\n"))
  {
    hide Rewrite;
    if a == [] {
      var all := [] + [l] + b;
      assert all[0] == l && all[1..] == b;
      KeptBlank(c, b);
      assert a + [l] + b == all;
      assert "" + (Rewrite(c, l) + "\n" + (KeptText(c, b) + "\n")) == Rewrite(c, l) + "\n" + (KeptText(c, b) + "\n");
    } else {
      assert (a + [l] + b)[0] == a[0] && (a + [l] + b)[1..] == a[1..] + [l] + b;
      KeptLines(c, a[1..], l, b);
      Assoc(Rewrite(c, a[0]) + "\n", KeptText(c, a[1..]), Rewrite(c, l) + "\n" + (KeptText(c, b) + "\n"));
    }
  }

  lemma {:induction false} KeptBlank(c: Config, b: seq<string>)
    ensures ClientText(c, b) == KeptText(c, b) + "\n"
  {
    hide Rewrite;
    if b == [] {
      assert "" + "\n" == "\n";
    } else {
      KeptBlank(c, b[1..]);
      Assoc(Rewrite(c, b[0]) + "\n", KeptText(c, b[1..]), "\n");
    }
  }

  /** Each line is received in its place. */
  lemma LineReceived(c: Config, f: Cgi, j: nat)
    requires j < |HeaderLines(f)|
    ensures var lines := HeaderLines(f);
            Received(c, f) == KeptText(c, lines[..j])
              + (Rewrite(c, lines[j]) + "\n" + (KeptText(c, lines[j + 1..]) + "\n")) + f.body
  {
    hide Rewrite, HeaderLines;
    var lines := HeaderLines(f);
    assert lines == lines[..j] + [lines[j]] + lines[j + 1..];
    KeptLines(c, lines[..j], lines[j], lines[j + 1..]);
  }

  /** Without the public name of the client anywhere, the request received is the
      frame's lines, each ended by LF, a blank line and the body. */
  lemma PlainReceived(c: Config, f: Cgi)
    requires forall l | l in HeaderLines(f) :: StrStr(l, "Host: " + c.id + ".piercloud.com") < 0
    ensures Received(c, f) == Join(HeaderLines(f) + ["", ""], "\n") + f.body
  {
    hide HeaderLines;
    PlainLines(c, HeaderLines(f));
  }

  lemma {:induction false} PlainLines(c: Config, lines: seq<string>)
    requires forall l | l in lines :: StrStr(l, "Host: " + c.id + ".piercloud.com") < 0
    ensures ClientText(c, lines) == Join(lines + ["", ""], "\n")
  {
    hide Rewrite;
    if lines == [] {
      assert lines + ["", ""] == ["", ""] && ["", ""][1..] == [""];
      assert "" + "\n" + "" == "\n";
    } else {
      assert lines[0] in lines && forall l | l in lines[1..] :: l in lines;
      OtherLineKept(c, lines[0]);
      PlainLines(c, lines[1..]);
      assert (lines + ["", ""])[1..] == lines[1..] + ["", ""];
    }
  }

  /** A line without the public name of the client is received unchanged. */
  lemma OtherLineKept(c: Config, line: string)
    requires StrStr(line, "Host: " + c.id + ".piercloud.com") < 0
    ensures Rewrite(c, line) == line
  {
    NoHost(line, HostLine(c), LocalHost(c));
  }

  lemma ReplaceWhole(x: string, r: string)
    requires x != ""
    ensures Replace(x, x, r) == r
  {
    hide ReplaceAll;
    assert x[0..|x|] == x;
    StrStrUnique(x, x, 0);
    ReplaceHead(x, x, r, 0);
    assert x[|x|..] == "";
    NoHost("", x, r);
    assert x[..0] + (r + "") == r;
  }

  /** The Host line for the client becomes two: the local host, and the login. */
  lemma HostLineRewritten(c: Config)
    ensures Rewrite(c, "Host: " + c.id + ".piercloud.com") == "Host: localhost" + "\n" + ("Authorization: Basic " + c.auth)
  {
    hide Replace;
    ReplaceWhole(HostLine(c), LocalHost(c));
    TwoHostLines(c);
  }

  lemma TwoHostLines(c: Config)
    ensures LocalHost(c) == "Host: localhost" + "\n" + ("Authorization: Basic " + c.auth)
  {
    assert "Host: localhost\nAuthorization: Basic " == "Host: localhost" + "\n" + "Authorization: Basic ";
  }

  /** In the request received for a frame whose environment names the client as host,
      the lines for the local host and the login stand in the place of its Host line. */
  lemma HostReceived(c: Config, f: Cgi, k: nat) returns (j: nat)
    requires k < |f.env| && f.env[k] == "HTTP_HOST=" + c.id + ".piercloud.com"
    ensures j < |HeaderLines(f)| && HeaderLines(f)[j] == "Host: " + c.id + ".piercloud.com"
    ensures var lines := HeaderLines(f);
            Received(c, f) == KeptText(c, lines[..j])
              + ("Host: localhost" + "\n" + ("Authorization: Basic " + c.auth) + "\n" + (KeptText(c, lines[j + 1..]) + "\n"))
              + f.body
  {
    hide HeaderLine, Rewrite, Select, Lines, RequestLine;
    var lines, host := HeaderLines(f), "Host: " + c.id + ".piercloud.com";
    var at := GroupOf(f.env, "HTTP_");
    HostEntry(c);
    assert f.env[k] == "HTTP_HOST=" + (c.id + ".piercloud.com");
    assert k in at;
    var i :| 0 <= i < |at| && at[i] == k;
    j := i + 1;
    assert lines[j] == Lines(Select(f.env, "HTTP_"))[i];
    assert lines[j] == host;
    assert lines == lines[..j] + [lines[j]] + lines[j + 1..];
    KeptLines(c, lines[..j], host, lines[j + 1..]);
    HostLineRewritten(c);
  }

  lemma HostEntry(c: Config)
    ensures var e := "HTTP_HOST=" + (c.id + ".piercloud.com");
            InGroup(e, "HTTP_") && HeaderLine(e) == Some("Host: " + c.id + ".piercloud.com")
  {
    hide HeaderLine, IsLineOf;
    var name, value := "HOST", c.id + ".piercloud.com";
    var e := "HTTP_HOST=" + value;
    assert e == "HTTP_" + (name + "=" + value);
    HttpLine(name, value);
    assert e[0..5] == "HTTP_";
    HostName(HeaderLine(e).value, value);
    assert "Host: " + value == "Host: " + c.id + ".piercloud.com";
  }

  lemma HostName(line: string, value: string)
    requires IsLineOf(line, "HOST", value)
    ensures line == "Host: " + value
  {
    assert line[..4] == "Host";
    assert line == line[..4] + line[4..];
  }
}
