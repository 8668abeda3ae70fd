/** The invariant of the tunnel, step by step and over whole runs. */
module TunnelSteps {
  import opened CString
  import opened Frame
  import opened FrameRoundTrip
  import opened Tunnel
  import opened TunnelSafety

  // ---------------------------------------------------------------------
  // Steps of a Pier

  lemma LockKeeps(t: Setup, w: World, p: int)
    requires ValidSetup(t) && Inv(t, w) && Enabled(t, w, PierLock(p))
    ensures Inv(t, Apply(t, w, PierLock(p)))
  {
    hide R.Feed, Head, ValidFrame, Received, Idle;
    var w' := Apply(t, w, PierLock(p));
    assert Resting(t, p, w.piers[p]);
    HeadShape(p, t.frames[p]);
    NoDataHolds(w.flight, |HeadOf(t, p)|);
    assert InTransit(t, p, 0, w.flight, w.fifo, w.client.parser);
    assert Asking(t, w', p);
    forall q | q in w'.piers && w'.lock != Some(q)
      ensures Resting(t, q, w'.piers[q])
    {
      assert Resting(t, q, w.piers[q]);
    }
  }

  lemma OpenKeeps(t: Setup, w: World, p: int)
    requires ValidSetup(t) && Inv(t, w) && Enabled(t, w, PierOpen(p))
    ensures Inv(t, Apply(t, w, PierOpen(p)))
  {
    hide R.Feed, Head, ValidFrame, Received, InTransit;
    var w' := Apply(t, w, PierOpen(p));
    ActiveHolds(t, w, p);
    assert Asking(t, w', p);
    HolderMoves(t, w, w', p);
  }

  lemma WriteKeeps(t: Setup, w: World, p: int, n: nat)
    requires ValidSetup(t) && Inv(t, w) && Enabled(t, w, PierWrite(p, n))
    ensures Inv(t, Apply(t, w, PierWrite(p, n)))
  {
    hide R.Feed, Head, ValidFrame, Received, InTransit;
    var w' := Apply(t, w, PierWrite(p, n));
    var q := w.piers[p];
    ActiveHolds(t, w, p);
    if Asking(t, w, p) {
      TransitWrite(t, p, q.sent, n, w.flight, w.fifo, w.client.parser);
      assert Asking(t, w', p);
    }
    HolderMoves(t, w, w', p);
  }

  lemma CloseKeeps(t: Setup, w: World, p: int)
    requires ValidSetup(t) && Inv(t, w) && Enabled(t, w, PierClose(p))
    ensures Inv(t, Apply(t, w, PierClose(p)))
  {
    hide R.Feed, Head, ValidFrame, Received, InTransit;
    ActiveHolds(t, w, p);
    HolderMoves(t, w, Apply(t, w, PierClose(p)), p);
  }

  lemma ReadKeeps(t: Setup, w: World, p: int, n: nat)
    requires ValidSetup(t) && Inv(t, w) && Enabled(t, w, PierRead(p, n))
    ensures Inv(t, Apply(t, w, PierRead(p, n)))
  {
    hide R.Feed, Head, ValidFrame, Received, InTransit;
    ActiveHolds(t, w, p);
    var q := w.piers[p];
    MovePrinted(q.printed, q.inbox, n, if w.jobs == [] then "" else w.jobs[0].left);
    HolderMoves(t, w, Apply(t, w, PierRead(p, n)), p);
  }

  lemma MovePrinted(printed: string, inbox: string, n: nat, left: string)
    requires n <= |inbox|
    ensures (printed + inbox[..n]) + (inbox[n..] + left) == printed + (inbox + left)
    ensures (printed + inbox[..n]) + inbox[n..] == printed + inbox
  {
  }

  lemma EndKeeps(t: Setup, w: World, p: int)
    requires ValidSetup(t) && Inv(t, w) && Enabled(t, w, PierEnd(p))
    ensures Inv(t, Apply(t, w, PierEnd(p)))
  {
    hide R.Feed, Head, ValidFrame, Received, InTransit;
    ActiveHolds(t, w, p);
    HolderMoves(t, w, Apply(t, w, PierEnd(p)), p);
  }

  lemma UnlockKeeps(t: Setup, w: World, p: int)
    requires ValidSetup(t) && Inv(t, w) && Enabled(t, w, PierUnlock(p))
    ensures Inv(t, Apply(t, w, PierUnlock(p)))
  {
    hide R.Feed, Head, ValidFrame, Received, InTransit;
    var w' := Apply(t, w, PierUnlock(p));
    ActiveHolds(t, w, p);
    var q := w.piers[p];
    assert q.printed + "" == q.printed;
    forall r | r in w'.piers && w'.lock != Some(r)
      ensures Resting(t, r, w'.piers[r])
    {
      if r != p {
        assert Resting(t, r, w.piers[r]);
      }
    }
  }

  // ---------------------------------------------------------------------
  // Steps of Respond

  lemma RespondOpenKeeps(t: Setup, w: World, i: nat)
    requires ValidSetup(t) && Inv(t, w) && Enabled(t, w, RespondOpen(i))
    ensures Inv(t, Apply(t, w, RespondOpen(i)))
  {
    hide R.Feed, Head, ValidFrame, Received, InTransit;
    var p := w.jobs[i].pid;
    ActiveHolds(t, w, p);
    HolderMoves(t, w, Apply(t, w, RespondOpen(i)), p);
  }

  lemma RespondWriteKeeps(t: Setup, w: World, i: nat, n: nat)
    requires ValidSetup(t) && Inv(t, w) && Enabled(t, w, RespondWrite(i, n))
    ensures Inv(t, Apply(t, w, RespondWrite(i, n)))
  {
    hide R.Feed, Head, ValidFrame, Received, InTransit;
    var p, left := w.jobs[i].pid, w.jobs[i].left;
    assert w.lock.Some? && Answering(t, w, w.lock.value);
    MoveInbox(w.piers[p].inbox, left, n);
    HolderMoves(t, w, Apply(t, w, RespondWrite(i, n)), p);
  }

  lemma MoveInbox(inbox: string, left: string, n: nat)
    requires n <= |left|
    ensures (inbox + left[..n]) + left[n..] == inbox + left
  {
  }

  lemma RespondCloseKeeps(t: Setup, w: World, i: nat)
    requires ValidSetup(t) && Inv(t, w) && Enabled(t, w, RespondClose(i))
    ensures Inv(t, Apply(t, w, RespondClose(i)))
  {
    hide R.Feed, Head, ValidFrame, Received, InTransit;
    var p := w.jobs[i].pid;
    assert w.lock.Some? && Answering(t, w, w.lock.value);
    assert w.piers[p].inbox + "" == w.piers[p].inbox;
    HolderMoves(t, w, Apply(t, w, RespondClose(i)), p);
  }

  // ---------------------------------------------------------------------
  // Steps of Connect

  /** A step that leaves the Piers and the lock alone. */
  lemma PiersStay(t: Setup, w: World, w': World)
    requires ValidSetup(t) && Inv(t, w) && w'.piers == w.piers && w'.lock == w.lock
    requires w.lock == None ==> Quiet(w') && w'.jobs == []
    requires w.lock.Some? ==> Turn(t, w', w.lock.value)
    ensures Inv(t, w')
  {
    hide Turn, Resting, Quiet;
  }

  lemma ConnectReadKeeps(t: Setup, w: World)
    requires ValidSetup(t) && Inv(t, w) && Enabled(t, w, ConnectRead)
    ensures Inv(t, Apply(t, w, ConnectRead))
  {
    hide R.Feed, Head, ValidFrame, Received, InTransit;
    var w' := Apply(t, w, ConnectRead);
    var p, n := w.lock.value, ReadSize(w.fifo);
    if Asking(t, w, p) {
      TransitRead(t, p, w.piers[p].sent, w.flight, w.fifo, w.client.parser);
      assert Asking(t, w', p);
    }
    DataBytesSnoc(w.flight, Data(w.fifo[..n]));
    PiersStay(t, w, w');
  }

  lemma ConnectPingKeeps(t: Setup, w: World)
    requires ValidSetup(t) && Inv(t, w)
    ensures Inv(t, Apply(t, w, ConnectPing))
  {
    hide R.Feed, Head, ValidFrame, Received, InTransit;
    var w' := Apply(t, w, ConnectPing);
    DataBytesSnoc(w.flight, Ping);
    if w.lock.Some? && Asking(t, w, w.lock.value) {
      TransitPing(t, w.lock.value, w.piers[w.lock.value].sent, w.flight, w.fifo, w.client.parser);
      assert Asking(t, w', w.lock.value);
    }
    PiersStay(t, w, w');
  }

  // ---------------------------------------------------------------------
  // Steps of the client

  lemma FeedNothing(c: R.Config, st: R.State)
    ensures R.Feed(c, st, "") == R.Wait(st)
  {
  }

  lemma TransitSkip(t: Setup, p: int, sent: nat, flight: seq<Item>, fifo: string, st: R.State)
    requires ValidSetup(t) && p in t.frames && InTransit(t, p, sent, flight, fifo, st)
    requires flight != [] && Payload(flight[0]) == ""
    ensures InTransit(t, p, sent, flight[1..], fifo, st)
  {
    hide HeadOf, FrameOf, Parsed, ValidSetup;
    assert DataBytes(flight) == DataBytes(flight[1..]);
  }

  /** A ping, or an empty chunk. */
  lemma TakeNothing(t: Setup, w: World)
    requires ValidSetup(t) && Inv(t, w) && Enabled(t, w, ClientTake) && Payload(w.flight[0]) == ""
    ensures Inv(t, Apply(t, w, ClientTake))
  {
    hide R.Feed, Head, ValidFrame, Received, InTransit;
    var w' := Apply(t, w, ClientTake);
    FeedNothing(t.client, w.client.parser);
    assert DataBytes(w.flight) == DataBytes(w'.flight);
    if w.lock.Some? && Asking(t, w, w.lock.value) {
      TransitSkip(t, w.lock.value, w.piers[w.lock.value].sent, w.flight, w.fifo, w.client.parser);
      assert Asking(t, w', w.lock.value);
    }
    PiersStay(t, w, w');
  }

  /** A '0' in flight by itself is a byte of the body, and the parser is in it. */
  lemma TransitLost(t: Setup, p: int, sent: nat, flight: seq<Item>, fifo: string, st: R.State)
    requires ValidSetup(t) && p in t.frames && InTransit(t, p, sent, flight, fifo, st)
    requires flight != [] && flight[0] == Data(R.PING)
    ensures st.inData && sent > 0 && !Lacks(t.frames[p].body, '0')
    ensures |st.buf| + |DataBytes(flight[1..])| + |fifo| + |FrameOf(t, p)| < st.length + sent
  {
    hide Head, ValidFrame, Received, Idle, HeadWhole, Frame.ClientText, Frame.HeaderLines;
    var f, head, d := FrameOf(t, p), HeadOf(t, p), DataBytes(flight[1..]);
    var i := sent - |DataBytes(flight)| - |fifo|;
    NextPiece(f, i, sent, R.PING, d, fifo);
    HeadShape(p, t.frames[p]);
    ByteAt(f, i, '0');
    assert f[0] == head[0];
    assert f[i] == t.frames[p].body[i - |head|];
  }

  lemma ByteAt(f: string, i: nat, c: char)
    requires i < |f| && f[i..i + 1] == [c]
    ensures f[i] == c
  {
    assert f[i] == f[i..i + 1][0];
  }

  /** A data chunk taken for a ping. */
  lemma TakeLost(t: Setup, w: World, p: int)
    requires ValidSetup(t) && Inv(t, w) && w.lock == Some(p) && Asking(t, w, p)
    requires Enabled(t, w, ClientTake) && w.flight[0] == Data(R.PING)
    ensures LostByZero(t, Apply(t, w, ClientTake), p)
  {
    hide R.Feed, HeadOf, FrameOf, InTransit, Others, Quiet, Turn;
    TransitLost(t, p, w.piers[p].sent, w.flight, w.fifo, w.client.parser);
  }

  /** What the parser makes of the first data chunk in flight. */
  lemma TransitTake(t: Setup, p: int, sent: nat, flight: seq<Item>, fifo: string, st: R.State)
    requires ValidSetup(t) && p in t.frames && InTransit(t, p, sent, flight, fifo, st)
    requires flight != [] && Payload(flight[0]) != ""
    ensures match R.Feed(t.client, st, Payload(flight[0]))
            case Abort => PIPE_BUF <= |HeadOf(t, p)|
            case Wait(st') => InTransit(t, p, sent, flight[1..], fifo, st')
            case Emit(st', pid, request) =>
              && pid == p && request == RequestOf(t, p) && Idle(st')
              && sent == |FrameOf(t, p)| && DataBytes(flight[1..]) == "" && fifo == ""
  {
    hide R.Feed, HeadOf, FrameOf, RequestOf, Parsed, Idle, ValidSetup;
    var f, x, d := FrameOf(t, p), Payload(flight[0]), DataBytes(flight[1..]);
    var i := sent - |DataBytes(flight)| - |fifo|;
    NextPiece(f, i, sent, x, d, fifo);
    if i == 0 && |x| < |HeadOf(t, p)| {
      ParsedNothing(t, st, p);
      FeedHeadPiece(t, st, p, |x|);
    } else {
      FeedPiece(t, st, p, i, i + |x|);
    }
  }

  lemma ParsedNothing(t: Setup, st: R.State, p: int)
    requires ValidSetup(t) && p in t.frames
    ensures Parsed(t, st, p, 0) <==> Idle(st)
  {
  }

  /** A data chunk that goes to the parser. */
  lemma TakeData(t: Setup, w: World, p: int)
    requires ValidSetup(t) && Inv(t, w) && w.lock == Some(p) && Asking(t, w, p)
    requires Enabled(t, w, ClientTake) && Payload(w.flight[0]) != "" && w.flight[0] != Data(R.PING)
    ensures var w' := Apply(t, w, ClientTake);
            Asking(t, w', p) || Answering(t, w', p) || CrashedByHead(t, w', p)
  {
    hide R.Feed, Head, ValidFrame, Received, Idle, InTransit;
    var w' := Apply(t, w, ClientTake);
    TransitTake(t, p, w.piers[p].sent, w.flight, w.fifo, w.client.parser);
    HasSent(t, p, w.piers[p].sent, w.flight, w.fifo, w.client.parser);
    if w'.client.Exited? {
      assert CrashedByHead(t, w', p);
    } else if w'.jobs == [] {
      assert Asking(t, w', p);
    } else {
      assert "" + ("" + ResponseOf(t, p)) == ResponseOf(t, p);
      assert Answering(t, w', p);
    }
  }

  lemma HasSent(t: Setup, p: int, sent: nat, flight: seq<Item>, fifo: string, st: R.State)
    requires ValidSetup(t) && p in t.frames && InTransit(t, p, sent, flight, fifo, st)
    ensures |DataBytes(flight)| <= sent
  {
  }

  /** Bytes for a client that will not get enough of them. */
  lemma TakeAfterLoss(t: Setup, w: World, p: int)
    requires ValidSetup(t) && Inv(t, w) && w.lock == Some(p) && Lost(t, w, p)
    requires Enabled(t, w, ClientTake) && Payload(w.flight[0]) != ""
    ensures Lost(t, Apply(t, w, ClientTake), p)
  {
    hide R.FeedHeader, Head, ValidFrame, Received;
  }

  lemma ClientTakeKeeps(t: Setup, w: World)
    requires ValidSetup(t) && Inv(t, w) && Enabled(t, w, ClientTake)
    ensures Inv(t, Apply(t, w, ClientTake))
  {
    hide R.Feed, Head, ValidFrame, Received, InTransit;
    if Payload(w.flight[0]) == "" {
      TakeNothing(t, w);
    } else {
      assert DataBytes(w.flight) != "";
      var p := w.lock.value;
      if !Asking(t, w, p) {
        TakeAfterLoss(t, w, p);
      } else if w.flight[0] == Data(R.PING) {
        TakeLost(t, w, p);
      } else {
        TakeData(t, w, p);
      }
      PiersStay(t, w, Apply(t, w, ClientTake));
    }
  }

  // ---------------------------------------------------------------------
  // Every step, every run

  lemma StepKeeps(t: Setup, w: World, a: Step)
    requires ValidSetup(t) && Inv(t, w) && Enabled(t, w, a)
    ensures Inv(t, Apply(t, w, a))
  {
    match a
    case PierLock(p) => LockKeeps(t, w, p);
    case PierOpen(p) => OpenKeeps(t, w, p);
    case PierWrite(p, n) => WriteKeeps(t, w, p, n);
    case PierClose(p) => CloseKeeps(t, w, p);
    case PierRead(p, n) => ReadKeeps(t, w, p, n);
    case PierEnd(p) => EndKeeps(t, w, p);
    case PierUnlock(p) => UnlockKeeps(t, w, p);
    case ConnectRead => ConnectReadKeeps(t, w);
    case ConnectPing => ConnectPingKeeps(t, w);
    case ClientTake => ClientTakeKeeps(t, w);
    case RespondOpen(i) => RespondOpenKeeps(t, w, i);
    case RespondWrite(i, n) => RespondWriteKeeps(t, w, i, n);
    case RespondClose(i) => RespondCloseKeeps(t, w, i);
  }

  lemma {:induction false} RunKeeps(t: Setup, w: World, steps: seq<Step>, w': World)
    requires ValidSetup(t) && Inv(t, w) && Reaches(t, w, steps, w')
    ensures Inv(t, w')
    decreases |steps|
  {
    if steps != [] {
      StepKeeps(t, w, steps[0]);
      RunKeeps(t, Apply(t, w, steps[0]), steps[1..], w');
    }
  }
}
