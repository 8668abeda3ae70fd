/** What each single run shows of its failure: when it is stuck, and what becomes
    of a Pier whose head is too long. */
module TunnelCauses {
  import opened CString
  import opened FrameRoundTrip
  import opened Tunnel
  import opened TunnelSafety
  import opened TunnelSteps
  import opened TunnelHistory
  import opened TunnelTheorems
  import opened TunnelProgress
  import opened TunnelFailure

  // ---------------------------------------------------------------------
  // Stuck or not

  /** The chunks taken grow by the data chunks that the client takes. */
  lemma TakenStep(t: Setup, w: World, a: Step)
    requires ValidSetup(t) && w.piers.Keys == t.frames.Keys && Accounted(t, w) && Enabled(t, w, a)
    ensures Taken(Apply(t, w, a)) == Taken(w) + if a.ClientTake? && w.flight[0].Data? then [w.flight[0].bytes] else []
  {
    hide R.Feed, R.FeedAll, R.Kept, Flat, FrameOf, HeadOf, ValidSetup;
    var w' := Apply(t, w, a);
    assert Taken(w) + [] == Taken(w);
    match a
    case ConnectRead =>
      var x := w.fifo[..ReadSize(w.fifo)];
      ChunksSnoc(w.flight, Data(x));
      assert (w.past.relayed + [x])[..|Taken(w)|] == Taken(w);
    case ConnectPing => ChunksSnoc(w.flight, Ping);
    case ClientTake =>
      if w.flight[0].Data? {
        assert Chunks(w.flight) == [w.flight[0].bytes] + Chunks(w.flight[1..]);
        assert w.past.relayed[|Taken(w)|] == w.flight[0].bytes;
        FlightMoves(w.past.relayed, |Taken(w)|, w.flight[0].bytes);
      } else {
        assert Chunks(w.flight) == Chunks(w.flight[1..]);
      }
    case _ =>
  }

  /** The holder's request is lost. */
  predicate IsLost(t: Setup, w: World)
    requires ValidSetup(t) && w.piers.Keys == t.frames.Keys
  {
    w.lock.Some? && w.lock.value in w.piers && Lost(t, w, w.lock.value)
  }

  /** The same, read off the client and the bytes that are still to come. */
  predicate Short(t: Setup, w: World)
    requires ValidSetup(t) && w.piers.Keys == t.frames.Keys
  {
    && w.lock.Some? && w.lock.value in w.piers && w.client.Running? && w.client.parser.inData
    && Missing(t, w, w.lock.value) > 0
  }

  lemma LostIsShort(t: Setup, w: World)
    requires ValidSetup(t) && Inv(t, w)
    ensures IsLost(t, w) <==> Short(t, w)
  {
    hide Asking, Answering, Answered, Others, FrameOf, HeadOf, Missing, Sending, Quiet;
    if w.lock.Some? {
      var p := w.lock.value;
      if Asking(t, w, p) || Answering(t, w, p) || Answered(t, w, p) {
        GoingWell(t, w, p);
      }
    }
  }

  lemma ConnectMissing(t: Setup, w: World, a: Step)
    requires ValidSetup(t) && w.piers.Keys == t.frames.Keys && Enabled(t, w, a)
    requires a.ConnectRead? || a.ConnectPing?
    ensures Short(t, Apply(t, w, a)) <==> Short(t, w)
  {
    hide FrameOf, HeadOf, ValidSetup;
    if a.ConnectRead? {
      DataBytesSnoc(w.flight, Data(w.fifo[..ReadSize(w.fifo)]));
    } else {
      DataBytesSnoc(w.flight, Ping);
    }
  }

  lemma WriteMissing(t: Setup, w: World, p: int, n: nat)
    requires ValidSetup(t) && Inv(t, w) && Enabled(t, w, PierWrite(p, n))
    ensures Short(t, Apply(t, w, PierWrite(p, n))) <==> Short(t, w)
  {
    hide FrameOf, HeadOf, Turn, Others, Quiet;
    ActiveHolds(t, w, p);
  }

  /** Steps of a Pier or Respond, or of Connect, do not change what is missing. */
  lemma MissingStays(t: Setup, w: World, a: Step)
    requires ValidSetup(t) && Inv(t, w) && Enabled(t, w, a)
    requires !a.ClientTake? && !a.PierLock? && !a.PierUnlock?
    ensures Apply(t, w, a).piers.Keys == t.frames.Keys && (Short(t, Apply(t, w, a)) <==> Short(t, w))
  {
    hide FrameOf, HeadOf, Turn, Others, Quiet;
    if a.ConnectRead? || a.ConnectPing? {
      ConnectMissing(t, w, a);
    } else if a.PierWrite? {
      WriteMissing(t, w, a.p, a.n);
    } else {
      OtherMissing(t, w, a);
    }
  }

  lemma OtherMissing(t: Setup, w: World, a: Step)
    requires ValidSetup(t) && w.piers.Keys == t.frames.Keys && Enabled(t, w, a)
    requires a.PierOpen? || a.PierClose? || a.PierRead? || a.PierEnd?
             || a.RespondOpen? || a.RespondWrite? || a.RespondClose?
    ensures Short(t, Apply(t, w, a)) <==> Short(t, w)
  {
    hide FrameOf, HeadOf, ValidSetup;
  }

  lemma LockNotShort(t: Setup, w: World, a: Step)
    requires ValidSetup(t) && Inv(t, w) && Enabled(t, w, a) && (a.PierLock? || a.PierUnlock?)
    ensures Apply(t, w, a).piers.Keys == t.frames.Keys && !Short(t, Apply(t, w, a)) && !Short(t, w)
  {
    hide R.Feed, Others, FrameOf, HeadOf, ResponseOf, Missing, InTransit;
    if a.PierUnlock? {
      ActiveHolds(t, w, a.p);
    }
  }

  /** The client's step loses the request exactly when it takes a data chunk for a
      ping. */
  lemma TakeLoses(t: Setup, w: World)
    requires ValidSetup(t) && Inv(t, w) && Enabled(t, w, ClientTake)
    ensures Apply(t, w, ClientTake).piers.Keys == t.frames.Keys
    ensures IsLost(t, Apply(t, w, ClientTake)) <==> IsLost(t, w) || w.flight[0] == Data(R.PING)
  {
    hide R.Feed, Quiet, Others, FrameOf, HeadOf, Asking, Answering, Answered, Lost, Crashed;
    var w' := Apply(t, w, ClientTake);
    if Payload(w.flight[0]) == "" {
      EmptyLosesNothing(t, w);
    } else {
      HasTurn(t, w);
      var p := w.lock.value;
      if !Asking(t, w, p) {
        TakeAfterLoss(t, w, p);
      } else {
        GoingWell(t, w, p);
        if w.flight[0] == Data(R.PING) {
          TakeLost(t, w, p);
        } else {
          TakeData(t, w, p);
          NotLostNow(t, w', p);
        }
      }
    }
  }

  lemma NotLostNow(t: Setup, w: World, p: int)
    requires ValidSetup(t) && w.piers.Keys == t.frames.Keys && p in w.piers
    requires Asking(t, w, p) || Answering(t, w, p) || CrashedByHead(t, w, p)
    ensures !Lost(t, w, p)
  {
    hide Asking, Answering, Missing, Sending, HeadOf;
    if !CrashedByHead(t, w, p) {
      GoingWell(t, w, p);
    }
  }

  lemma EmptyLosesNothing(t: Setup, w: World)
    requires ValidSetup(t) && Inv(t, w) && Enabled(t, w, ClientTake) && Payload(w.flight[0]) == ""
    ensures Apply(t, w, ClientTake).piers.Keys == t.frames.Keys
    ensures IsLost(t, Apply(t, w, ClientTake)) <==> IsLost(t, w)
  {
    hide R.Feed, Quiet, Others, Turn, FrameOf, HeadOf;
    FeedNothing(t.client, w.client.parser);
    assert DataBytes(w.flight) == DataBytes(w.flight[1..]);
  }

  /** The request is lost exactly when a single '0' was among the data chunks taken. */
  predicate LossRecorded(t: Setup, w: World)
    requires ValidSetup(t) && w.piers.Keys == t.frames.Keys
  {
    IsLost(t, w) <==> R.PING in Taken(w)
  }

  lemma LossRecordedStep(t: Setup, w: World, a: Step)
    requires ValidSetup(t) && Inv(t, w) && Accounted(t, w) && LossRecorded(t, w) && Enabled(t, w, a)
    ensures Apply(t, w, a).piers.Keys == t.frames.Keys && LossRecorded(t, Apply(t, w, a))
  {
    hide Apply, Enabled, Turn, Others, Quiet, IsLost, Short, Taken, Accounted;
    StepKeeps(t, w, a);
    TakenStep(t, w, a);
    if a.ClientTake? {
      TakeLoses(t, w);
    } else {
      LostIsShort(t, w);
      LostIsShort(t, Apply(t, w, a));
      if a.PierLock? || a.PierUnlock? {
        LockNotShort(t, w, a);
      } else {
        MissingStays(t, w, a);
      }
    }
  }

  lemma {:induction false} LossRecordedRun(t: Setup, w: World, steps: seq<Step>, w': World)
    requires ValidSetup(t) && Inv(t, w) && Accounted(t, w) && LossRecorded(t, w) && Reaches(t, w, steps, w')
    ensures Inv(t, w') && LossRecorded(t, w')
    decreases |steps|
  {
    hide Apply, Enabled, Inv, LossRecorded, Accounted;
    InvKeys(t, w);
    if steps != [] {
      StepKeeps(t, w, steps[0]);
      AccountedStep(t, w, steps[0]);
      LossRecordedStep(t, w, steps[0]);
      LossRecordedRun(t, Apply(t, w, steps[0]), steps[1..], w');
    }
  }

  /** Run by run: nobody can be served any more exactly when the client has taken a
      data chunk that is the single byte '0', or has exited. */
  lemma StuckExactly(t: Setup, steps: seq<Step>, w: World)
    requires ValidSetup(t) && Reaches(t, Start(t), steps, w)
    ensures w.piers.Keys == t.frames.Keys
    ensures Stuck(t, w) <==> R.PING in Taken(w) || w.client.Exited?
    ensures Stuck(t, w) ==> !CanServe(t, w)
  {
    hide Reaches, Accounted, Asking, Answering, Answered, Lost, Others, CanServe, Taken;
    StartGood(t);
    StartNotLost(t);
    LossRecordedRun(t, Start(t), steps, w);
    ExitedIsCrashed(t, w);
    if Stuck(t, w) {
      StuckNotServed(t, w, w.lock.value);
    }
  }

  lemma StartNotLost(t: Setup)
    requires ValidSetup(t)
    ensures LossRecorded(t, Start(t))
  {
  }

  lemma ExitedIsCrashed(t: Setup, w: World)
    requires ValidSetup(t) && Inv(t, w)
    ensures w.client.Exited? <==> w.lock.Some? && Crashed(t, w, w.lock.value)
  {
    hide Others, FrameOf, HeadOf, ResponseOf, InTransit, Idle, Missing;
  }

  // ---------------------------------------------------------------------
  // A head that is too long

  /** Connect sends chunks of less than PIPE_BUF bytes. */
  predicate ShortChunks(flight: seq<Item>) {
    forall i | 0 <= i < |flight| :: |Payload(flight[i])| < PIPE_BUF
  }

  /** Nothing of p's frame has been parsed, and p has no answer. */
  predicate Unheard(w: World, p: int)
    requires p in w.piers
  {
    && ((w.lock != Some(p) && w.piers[p] == FRESH)
        || (w.lock == Some(p) && w.jobs == [] && NoAnswerYet(w.piers[p])
            && (w.piers[p].pc == Locked || w.piers[p].pc == Writing || w.piers[p].pc == Closed)
            && (w.client.Running? ==> Idle(w.client.parser))))
  }

  /** The first chunk of a head that is too long, whatever piece of it that is, ends
      the client. */
  lemma LongHeadAborts(t: Setup, p: int, sent: nat, flight: seq<Item>, fifo: string, st: R.State)
    requires ValidSetup(t) && p in t.frames && InTransit(t, p, sent, flight, fifo, st) && Idle(st)
    requires PIPE_BUF <= |HeadOf(t, p)| && flight != [] && 0 < |Payload(flight[0])| < PIPE_BUF
    ensures flight[0] != Data(R.PING) && R.Feed(t.client, st, Payload(flight[0])).Abort?
  {
    hide R.Feed, HeadOf, FrameOf, ValidSetup;
    var x, d := Payload(flight[0]), DataBytes(flight[1..]);
    var i := sent - |DataBytes(flight)| - |fifo|;
    NextPiece(FrameOf(t, p), i, sent, x, d, fifo);
    FeedHeadPiece(t, st, p, |x|);
    if flight[0] == Data(R.PING) {
      TransitLost(t, p, sent, flight, fifo, st);
    }
  }

  lemma UnheardTake(t: Setup, w: World, p: int)
    requires ValidSetup(t) && Inv(t, w) && p in w.piers && PIPE_BUF <= |HeadOf(t, p)|
    requires Unheard(w, p) && ShortChunks(w.flight) && Enabled(t, w, ClientTake)
    ensures Unheard(Apply(t, w, ClientTake), p)
  {
    hide R.Feed, HeadOf, FrameOf, InTransit, ResponseOf, Others;
    FeedNothing(t.client, w.client.parser);
    if w.lock == Some(p) && Payload(w.flight[0]) != "" {
      HasTurn(t, w);
      if Asking(t, w, p) {
        LongHeadAborts(t, p, w.piers[p].sent, w.flight, w.fifo, w.client.parser);
      }
    }
  }

  lemma UnheardLock(t: Setup, w: World, p: int, a: Step)
    requires ValidSetup(t) && Inv(t, w) && p in w.piers && Unheard(w, p) && Enabled(t, w, a)
    requires a.ConnectRead? || a.ConnectPing? || a.PierLock?
    ensures Unheard(Apply(t, w, a), p)
  {
    hide HeadOf, FrameOf, Others, Turn, ValidSetup;
  }

  lemma UnheardInbox(t: Setup, w: World, p: int, a: Step)
    requires ValidSetup(t) && Inv(t, w) && p in w.piers && Unheard(w, p) && Enabled(t, w, a)
    requires a.RespondOpen? || a.RespondWrite? || a.RespondClose?
    ensures Unheard(Apply(t, w, a), p)
  {
    hide HeadOf, FrameOf, Others, Turn, ResponseOf, Quiet;
    OnlyAnswering(t, w);
  }

  lemma UnheardMove(t: Setup, w: World, p: int, a: Step)
    requires ValidSetup(t) && Inv(t, w) && p in w.piers && Unheard(w, p) && Enabled(t, w, a)
    requires a.PierOpen? || a.PierWrite? || a.PierClose? || a.PierRead? || a.PierEnd? || a.PierUnlock?
    ensures Unheard(Apply(t, w, a), p)
  {
    hide HeadOf, FrameOf, Others, Turn, Quiet;
    ActiveHolds(t, w, Mover(w, a));
  }

  lemma UnheardStep(t: Setup, w: World, p: int, a: Step)
    requires ValidSetup(t) && Inv(t, w) && p in w.piers && Unheard(w, p) && Enabled(t, w, a) && !a.ClientTake?
    ensures Unheard(Apply(t, w, a), p)
  {
    hide Apply, Enabled, HeadOf, FrameOf, Others, Turn, Unheard, Quiet;
    if a.ConnectRead? || a.ConnectPing? || a.PierLock? {
      UnheardLock(t, w, p, a);
    } else if a.RespondOpen? || a.RespondWrite? || a.RespondClose? {
      UnheardInbox(t, w, p, a);
    } else {
      UnheardMove(t, w, p, a);
    }
  }

  lemma ShortChunksStep(t: Setup, w: World, a: Step)
    requires ValidSetup(t) && w.piers.Keys == t.frames.Keys && ShortChunks(w.flight) && Enabled(t, w, a)
    ensures ShortChunks(Apply(t, w, a).flight)
  {
    hide R.Feed, HeadOf, FrameOf, ValidSetup;
  }

  lemma {:induction false} UnheardRun(t: Setup, w: World, p: int, steps: seq<Step>, w': World)
    requires ValidSetup(t) && Inv(t, w) && p in w.piers && PIPE_BUF <= |HeadOf(t, p)|
    requires Unheard(w, p) && ShortChunks(w.flight) && Reaches(t, w, steps, w')
    ensures p in w'.piers && Unheard(w', p)
    decreases |steps|
  {
    hide Apply, Enabled, Inv, Unheard, HeadOf, ShortChunks;
    InvKeys(t, w);
    if steps != [] {
      var a := steps[0];
      ShortChunksStep(t, w, a);
      if a.ClientTake? {
        UnheardTake(t, w, p);
      } else {
        UnheardStep(t, w, p, a);
      }
      StepKeeps(t, w, a);
      UnheardRun(t, Apply(t, w, a), p, steps[1..], w');
    }
  }

  /** A Pier with a head of 4096 bytes or more is served in no run: nothing of
      its frame ever stays with the parser, for the first chunk of it that is taken
      ends the daemon. */
  lemma LongHeadNeverServed(t: Setup, steps: seq<Step>, w: World, p: int)
    requires ValidSetup(t) && Reaches(t, Start(t), steps, w) && p in t.frames && 4096 <= |HeadOf(t, p)|
    ensures p in w.piers && w.piers[p].pc != Done && w.piers[p].printed == ""
    ensures w.lock == Some(p) ==> w.client.Exited? || Idle(w.client.parser)
  {
    hide Reaches, HeadOf, Inv, Idle;
    StartInv(t);
    UnheardRun(t, Start(t), p, steps, w);
  }
}
