/** What every step of the tunnel keeps. */
module TunnelSafety {
  import opened CString
  import opened Frame
  import opened FrameRoundTrip
  import opened Tunnel

  // ---------------------------------------------------------------------
  // Bytes in flight

  function Payload(i: Item): string {
    if i.Ping? then "" else i.bytes
  }

  /** The bytes of the chunks in flight, pings left out. */
  function DataBytes(flight: seq<Item>): string {
    if flight == [] then "" else Payload(flight[0]) + DataBytes(flight[1..])
  }

  lemma {:induction false} DataBytesSnoc(flight: seq<Item>, i: Item)
    ensures DataBytes(flight + [i]) == DataBytes(flight) + Payload(i)
  {
    if flight == [] {
      assert flight + [i] == [i];
      assert DataBytes([i][1..]) == "";
    } else {
      assert (flight + [i])[0] == flight[0] && (flight + [i])[1..] == flight[1..] + [i];
      DataBytesSnoc(flight[1..], i);
    }
  }

  /** The first data in flight, if there is any, comes in a chunk of at least
      `n` bytes. */
  predicate FirstHolds(flight: seq<Item>, n: nat) {
    flight == [] || if Payload(flight[0]) == "" then FirstHolds(flight[1..], n) else |Payload(flight[0])| >= n
  }

  lemma {:induction false} NoDataHolds(flight: seq<Item>, n: nat)
    requires DataBytes(flight) == ""
    ensures FirstHolds(flight, n)
  {
    if flight != [] {
      NoDataHolds(flight[1..], n);
    }
  }

  lemma {:induction false} FirstHoldsSnoc(flight: seq<Item>, i: Item, n: nat)
    requires FirstHolds(flight, n)
    requires DataBytes(flight) == "" ==> |Payload(i)| == 0 || |Payload(i)| >= n
    ensures FirstHolds(flight + [i], n)
  {
    if flight == [] {
      assert flight + [i] == [i];
      assert FirstHolds([i][1..], n);
    } else {
      assert (flight + [i])[0] == flight[0] && (flight + [i])[1..] == flight[1..] + [i];
      if Payload(flight[0]) == "" {
        assert "" + DataBytes(flight[1..]) == DataBytes(flight[1..]);
        FirstHoldsSnoc(flight[1..], i, n);
      }
    }
  }

  // ---------------------------------------------------------------------
  // A frame on its way

  /** The parser has seen the first `fed` bytes of p's frame. */
  predicate Parsed(t: Setup, st: R.State, p: int, fed: nat)
    requires ValidSetup(t) && p in t.frames
  {
    if fed == 0 then Idle(st)
    else |HeadOf(t, p)| <= fed && InBody(t.client, st, p, t.frames[p], fed - |HeadOf(t, p)|)
  }

  lemma FramePieces(head: string, body: string, i: nat, j: nat)
    requires i <= j <= |head + body|
    ensures i == 0 && |head| <= j ==> (head + body)[i..j] == head + body[..j - |head|]
    ensures i == 0 && j <= |head| ==> (head + body)[i..j] == head[..j]
    ensures |head| <= i ==> (head + body)[i..j] == body[i - |head|..j - |head|]
  {
  }

  /** The next piece of the frame, the first one with the whole head in it. */
  lemma FeedPiece(t: Setup, st: R.State, p: int, i: nat, j: nat)
    requires ValidSetup(t) && p in t.frames && Parsed(t, st, p, i)
    requires i < j <= |FrameOf(t, p)| && (i == 0 ==> |HeadOf(t, p)| <= j)
    ensures var o := R.Feed(t.client, st, FrameOf(t, p)[i..j]);
            if j < |FrameOf(t, p)| then o.Wait? && Parsed(t, o.st, p, j)
            else o.Emit? && o.pid == p && o.request == RequestOf(t, p) && Idle(o.st)
  {
    hide R.Feed, Head, ValidFrame, Received, Idle;
    var f := t.frames[p];
    var head := HeadOf(t, p);
    FramePieces(head, f.body, i, j);
    if i == 0 {
      FeedHead(t.client, st, p, f, j - |head|);
    } else {
      FeedMore(t.client, st, p, f, i - |head|, j - |head|);
    }
    HeadShape(p, f);
  }

  /** A first piece without the whole head. */
  lemma FeedHeadPiece(t: Setup, st: R.State, p: int, j: nat)
    requires ValidSetup(t) && p in t.frames && Idle(st)
    requires 0 < j < |HeadOf(t, p)|
    ensures j <= |FrameOf(t, p)| && R.Feed(t.client, st, FrameOf(t, p)[0..j]).Abort?
  {
    FramePieces(HeadOf(t, p), t.frames[p].body, 0, j);
    HeadPrefixAborts(t.client, st, p, t.frames[p], j);
  }

  /** The first chunk of a frame that is to come holds the whole head, if the
      head fits one read of Connect. */
  predicate HeadWhole(head: nat, flight: seq<Item>, fifo: string) {
    head < PIPE_BUF ==>
      && FirstHolds(flight, head)
      && (DataBytes(flight) == "" ==> fifo == "" || head <= |fifo|)
  }

  /** Of the `sent` bytes of p's frame the first ones are parsed, the others are
      in flight or in the FIFO, in this order, and something is still to come. */
  predicate InTransit(t: Setup, p: int, sent: nat, flight: seq<Item>, fifo: string, st: R.State)
    requires ValidSetup(t) && p in t.frames
  {
    var d := DataBytes(flight);
    && |d| + |fifo| <= sent <= |FrameOf(t, p)|
    && var fed := sent - |d| - |fifo|;
    && fed < |FrameOf(t, p)| && FrameOf(t, p)[fed..sent] == d + fifo
    && Parsed(t, st, p, fed)
    && (fed == 0 ==> HeadWhole(|HeadOf(t, p)|, flight, fifo))
  }

  // ---------------------------------------------------------------------
  // The turn of the process that holds the lock

  /** How far a Pier has written, by its program counter. */
  predicate Sending(t: Setup, p: int, q: Pier)
    requires ValidSetup(t) && p in t.frames
  {
    var head := |HeadOf(t, p)|;
    match q.pc
    case Locked => q.sent == 0
    case Writing => q.sent <= |FrameOf(t, p)| && (q.sent == 0 || head <= q.sent || PIPE_BUF < head)
    case Closed => q.sent == |FrameOf(t, p)|
    case _ => false
  }

  predicate NoAnswerYet(q: Pier) {
    q.printed == "" && q.inbox == "" && q.writers == 0
  }

  /** Before the client has the whole request. */
  predicate Asking(t: Setup, w: World, p: int)
    requires ValidSetup(t) && p in t.frames && p in w.piers
  {
    var q := w.piers[p];
    && Sending(t, p, q) && NoAnswerYet(q) && w.jobs == [] && w.client.Running?
    && InTransit(t, p, q.sent, w.flight, w.fifo, w.client.parser)
  }

  /** Nothing is under way between the Piers and the client but pings. */
  predicate Quiet(w: World) {
    w.fifo == "" && DataBytes(w.flight) == "" && w.client.Running? && Idle(w.client.parser)
  }

  /** One Respond process carries the answer. */
  predicate Answering(t: Setup, w: World, p: int)
    requires ValidSetup(t) && p in t.frames && p in w.piers
  {
    var q := w.piers[p];
    && Quiet(w) && q.sent == |FrameOf(t, p)| && |w.jobs| == 1 && w.jobs[0].pid == p
    && (if w.jobs[0].isOpen then q.pc == Reading && q.writers == 1
        else (q.pc == Writing || q.pc == Closed) && NoAnswerYet(q))
    && q.printed + (q.inbox + w.jobs[0].left) == ResponseOf(t, p)
  }

  /** The answer is in the private FIFO and on standard output. */
  predicate Answered(t: Setup, w: World, p: int)
    requires ValidSetup(t) && p in t.frames && p in w.piers
  {
    var q := w.piers[p];
    && Quiet(w) && q.sent == |FrameOf(t, p)| && w.jobs == [] && q.writers == 0
    && (q.pc == Reading || (q.pc == Finished && q.inbox == ""))
    && q.printed + q.inbox == ResponseOf(t, p)
  }

  /** How many bytes the client waits for and will not get, with p's frame as all
      that is to come. */
  function Missing(t: Setup, w: World, p: int): int
    requires ValidSetup(t) && p in t.frames && p in w.piers && w.client.Running?
  {
    w.client.parser.length + w.piers[p].sent
    - (|w.client.parser.buf| + |DataBytes(w.flight)| + |w.fifo| + |FrameOf(t, p)|)
  }

  /** The client waits for more bytes than will come. */
  predicate Lost(t: Setup, w: World, p: int)
    requires ValidSetup(t) && p in t.frames && p in w.piers
  {
    var q := w.piers[p];
    && (q.pc == Writing || q.pc == Closed) && Sending(t, p, q) && NoAnswerYet(q) && w.jobs == []
    && w.client.Running? && w.client.parser.inData && Missing(t, w, p) > 0
  }

  /** The client has exited. */
  predicate Crashed(t: Setup, w: World, p: int)
    requires ValidSetup(t) && p in t.frames && p in w.piers
  {
    var q := w.piers[p];
    && (q.pc == Writing || q.pc == Closed) && Sending(t, p, q) && NoAnswerYet(q) && w.jobs == []
    && w.client.Exited?
  }

  /** A '0' of the body was taken for a ping. */
  predicate LostByZero(t: Setup, w: World, p: int)
    requires ValidSetup(t) && p in t.frames && p in w.piers
  {
    Lost(t, w, p) && !Lacks(t.frames[p].body, '0')
  }

  /** The head did not fit one read of Connect. */
  predicate CrashedByHead(t: Setup, w: World, p: int)
    requires ValidSetup(t) && p in t.frames && p in w.piers
  {
    Crashed(t, w, p) && PIPE_BUF <= |HeadOf(t, p)|
  }

  predicate Turn(t: Setup, w: World, p: int)
    requires ValidSetup(t) && p in t.frames && p in w.piers
  {
    Asking(t, w, p) || Answering(t, w, p) || Answered(t, w, p) || LostByZero(t, w, p) || CrashedByHead(t, w, p)
  }

  /** While the turn goes well the client is alive and gets all the bytes it waits
      for. */
  lemma GoingWell(t: Setup, w: World, p: int)
    requires ValidSetup(t) && p in t.frames && p in w.piers
    requires Asking(t, w, p) || Answering(t, w, p) || Answered(t, w, p)
    ensures w.client.Running? && (w.client.parser.inData ==> Missing(t, w, p) <= 0)
    ensures !Lost(t, w, p) && !Crashed(t, w, p)
  {
    hide Head, ValidFrame, Sending, HeadWhole, ResponseOf;
  }

  /** A Pier without the lock has not begun, or has printed its whole response. */
  predicate Resting(t: Setup, p: int, q: Pier)
    requires ValidSetup(t) && p in t.frames
  {
    q == FRESH || q == Pier(Done, |FrameOf(t, p)|, ResponseOf(t, p), "", 0)
  }

  predicate Others(t: Setup, w: World)
    requires ValidSetup(t) && w.piers.Keys == t.frames.Keys
  {
    forall p | p in w.piers && w.lock != Some(p) :: Resting(t, p, w.piers[p])
  }

  /** The invariant. */
  predicate Inv(t: Setup, w: World)
    requires ValidSetup(t)
  {
    && w.piers.Keys == t.frames.Keys && Others(t, w)
    && (w.lock == None ==> Quiet(w) && w.jobs == [])
    && (w.lock.Some? ==> w.lock.value in w.piers && Turn(t, w, w.lock.value))
  }

  lemma InvKeys(t: Setup, w: World)
    requires ValidSetup(t) && Inv(t, w)
    ensures w.piers.Keys == t.frames.Keys
  {
  }

  lemma StartInv(t: Setup)
    requires ValidSetup(t)
    ensures Inv(t, Start(t))
  {
  }

  /** A step that changes the holder alone and leaves it in its turn. */
  lemma HolderMoves(t: Setup, w: World, w': World, p: int)
    requires ValidSetup(t) && Inv(t, w) && w.lock == Some(p) && w'.lock == Some(p)
    requires p in w'.piers && w'.piers == w.piers[p := w'.piers[p]] && Turn(t, w', p)
    ensures Inv(t, w')
  {
    hide Turn, Resting, Quiet;
  }

  /** Only the holder of the lock is active. */
  lemma ActiveHolds(t: Setup, w: World, p: int)
    requires ValidSetup(t) && Inv(t, w) && p in w.piers
    requires w.piers[p].pc != Waiting && w.piers[p].pc != Done
    ensures w.lock == Some(p) && Turn(t, w, p)
  {
    hide Turn;
    assert w.lock != Some(p) ==> Resting(t, p, w.piers[p]);
  }

  // ---------------------------------------------------------------------
  // Steps of a frame on its way

  lemma TransitWrite(t: Setup, p: int, sent: nat, n: nat, flight: seq<Item>, fifo: string, st: R.State)
    requires ValidSetup(t) && p in t.frames
    requires InTransit(t, p, sent, flight, fifo, st) && CanWrite(t, p, sent, n)
    requires sent == 0 || |HeadOf(t, p)| <= sent || PIPE_BUF < |HeadOf(t, p)|
    ensures InTransit(t, p, sent + n, flight, fifo + FrameOf(t, p)[sent..sent + n], st)
  {
    hide HeadOf, FrameOf, Parsed, ValidSetup, FirstHolds;
    var f, d := FrameOf(t, p), DataBytes(flight);
    var fed := sent - |d| - |fifo|;
    Spliced(f, fed, sent, sent + n, d, fifo);
  }

  lemma Spliced(f: string, i: nat, j: nat, k: nat, d: string, fifo: string)
    requires i <= j <= k <= |f| && f[i..j] == d + fifo
    ensures f[i..k] == d + (fifo + f[j..k])
  {
    assert f[i..k] == f[i..j] + f[j..k];
  }

  lemma TransitPing(t: Setup, p: int, sent: nat, flight: seq<Item>, fifo: string, st: R.State)
    requires ValidSetup(t) && p in t.frames && InTransit(t, p, sent, flight, fifo, st)
    ensures InTransit(t, p, sent, flight + [Ping], fifo, st)
  {
    hide HeadOf, FrameOf, Parsed, ValidSetup, FirstHolds;
    DataBytesSnoc(flight, Ping);
    assert DataBytes(flight) + "" == DataBytes(flight);
    if FirstHolds(flight, |HeadOf(t, p)|) {
      FirstHoldsSnoc(flight, Ping, |HeadOf(t, p)|);
    }
  }

  lemma TransitRead(t: Setup, p: int, sent: nat, flight: seq<Item>, fifo: string, st: R.State)
    requires ValidSetup(t) && p in t.frames && InTransit(t, p, sent, flight, fifo, st) && fifo != ""
    ensures var n := ReadSize(fifo);
            InTransit(t, p, sent, flight + [Data(fifo[..n])], fifo[n..], st)
  {
    hide HeadOf, FrameOf, Parsed, ValidSetup, FirstHolds;
    var n := ReadSize(fifo);
    var item := Data(fifo[..n]);
    DataBytesSnoc(flight, item);
    Cut(DataBytes(flight), fifo, n);
    if FirstHolds(flight, |HeadOf(t, p)|) && (DataBytes(flight) == "" ==> |HeadOf(t, p)| <= n) {
      FirstHoldsSnoc(flight, item, |HeadOf(t, p)|);
    }
  }

  lemma Cut(d: string, fifo: string, n: nat)
    requires n <= |fifo|
    ensures d + fifo == (d + fifo[..n]) + fifo[n..]
  {
    assert fifo == fifo[..n] + fifo[n..];
  }

  /** The parser's next piece is the next piece of the frame. */
  lemma NextPiece(f: string, i: nat, j: nat, x: string, d: string, fifo: string)
    requires i <= j <= |f| && f[i..j] == (x + d) + fifo
    ensures i + |x| <= j && f[i..i + |x|] == x && f[i + |x|..j] == d + fifo
  {
    assert f[i..j][..|x|] == x;
    assert f[i..j][|x|..] == d + fifo;
    assert f[i..i + |x|] == f[i..j][..|x|];
    assert f[i + |x|..j] == f[i..j][|x|..];
  }
}
