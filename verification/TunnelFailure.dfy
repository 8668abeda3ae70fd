/** Exactly when the tunnel serves everyone: a head that does not fit one read of
    Connect, or a byte '0' in a body, gives a run after which nobody is served;
    without them every run can be finished. */
module TunnelFailure {
  import opened CString
  import opened Frame
  import opened FrameRoundTrip
  import opened Tunnel
  import opened TunnelSafety
  import opened TunnelSteps
  import opened TunnelHistory
  import opened TunnelTheorems
  import opened TunnelProgress

  /** Pier p's frame can get through whatever the order of steps. */
  predicate Fits(t: Setup, p: int)
    requires ValidSetup(t) && p in t.frames
  {
    |HeadOf(t, p)| < PIPE_BUF && Lacks(t.frames[p].body, '0')
  }

  predicate AllFit(t: Setup)
    requires ValidSetup(t)
  {
    forall p | p in t.frames :: Fits(t, p)
  }

  lemma FitNotStuck(t: Setup, w: World)
    requires ValidSetup(t) && Inv(t, w) && AllFit(t)
    ensures !Stuck(t, w)
  {
    hide Asking, Answering, Answered, Lost, Crashed, Others, Quiet, FrameOf, HeadOf;
    if w.lock.Some? {
      var p := w.lock.value;
      assert Fits(t, p);
      if Asking(t, w, p) || Answering(t, w, p) || Answered(t, w, p) {
        GoingWell(t, w, p);
      }
    }
  }

  // ---------------------------------------------------------------------
  // No way out

  predicate StuckAt(t: Setup, w: World, p: int)
    requires ValidSetup(t) && w.piers.Keys == t.frames.Keys
  {
    p in w.piers && w.lock == Some(p) && (Lost(t, w, p) || Crashed(t, w, p))
  }

  lemma StuckPierStep(t: Setup, w: World, p: int, a: Step)
    requires ValidSetup(t) && Inv(t, w) && StuckAt(t, w, p) && Enabled(t, w, a)
    requires !a.ClientTake? && !a.ConnectRead? && !a.ConnectPing?
    ensures StuckAt(t, Apply(t, w, a), p)
  {
    hide Turn, Others, Quiet, FrameOf, HeadOf, Lacks;
    if PcIs(w, Mover(w, a), Waiting) || a.RespondOpen? || a.RespondWrite? || a.RespondClose? {
    } else {
      ActiveHolds(t, w, Mover(w, a));
    }
  }

  lemma StuckWireStep(t: Setup, w: World, p: int, a: Step)
    requires ValidSetup(t) && Inv(t, w) && StuckAt(t, w, p) && Enabled(t, w, a)
    requires a.ConnectRead? || a.ConnectPing?
    ensures StuckAt(t, Apply(t, w, a), p)
  {
    hide Turn, Others, Quiet, FrameOf, HeadOf, Lacks, Sending;
    if a.ConnectRead? {
      DataBytesSnoc(w.flight, Data(w.fifo[..ReadSize(w.fifo)]));
    } else {
      DataBytesSnoc(w.flight, Ping);
    }
  }

  lemma StuckTake(t: Setup, w: World, p: int)
    requires ValidSetup(t) && Inv(t, w) && StuckAt(t, w, p) && Enabled(t, w, ClientTake)
    ensures StuckAt(t, Apply(t, w, ClientTake), p)
  {
    hide R.Feed, Turn, Others, Quiet, FrameOf, HeadOf, Lacks, Sending;
    if Payload(w.flight[0]) == "" {
      FeedNothing(t.client, w.client.parser);
    } else {
      TakeAfterLoss(t, w, p);
    }
  }

  /** Once stuck, always stuck: the holder never gets its response, and as it
      keeps the lock no other Pier does. */
  lemma {:induction false} StuckForever(t: Setup, w: World, p: int, steps: seq<Step>, w': World)
    requires ValidSetup(t) && Inv(t, w) && StuckAt(t, w, p) && Reaches(t, w, steps, w')
    ensures Inv(t, w') && StuckAt(t, w', p) && w'.piers[p].printed == ""
    decreases |steps|
  {
    hide Apply, Enabled, Turn, Others, Quiet, Lacks, Sending, FrameOf, HeadOf;
    if steps != [] {
      var a := steps[0];
      if a.ClientTake? {
        StuckTake(t, w, p);
      } else if a.ConnectRead? || a.ConnectPing? {
        StuckWireStep(t, w, p, a);
      } else {
        StuckPierStep(t, w, p, a);
      }
      StepKeeps(t, w, a);
      StuckForever(t, Apply(t, w, a), p, steps[1..], w');
    }
  }

  // ---------------------------------------------------------------------
  // A run that fails

  /** p has the lock and writes; its last `n` bytes are in the FIFO or in flight,
      the client has the others. */
  predicate Writer(t: Setup, w: World, p: int, sent: nat, fifo: string, flight: seq<Item>)
    requires ValidSetup(t)
  {
    && Inv(t, w) && p in w.piers && w.lock == Some(p) && Asking(t, w, p) && w.piers[p].pc == Writing
    && w.piers[p].sent == sent && w.fifo == fifo && w.flight == flight
  }

  lemma Begins(t: Setup, p: int) returns (w: World)
    requires ValidSetup(t) && p in t.frames
    ensures Reaches(t, Start(t), [PierLock(p), PierOpen(p)], w) && Writer(t, w, p, 0, "", [])
  {
    hide Turn, Others, Quiet, R.Feed, InTransit, HeadOf, FrameOf, ResponseOf, Lost, Crashed;
    StartInv(t);
    var w1 := Apply(t, Start(t), PierLock(p));
    StepKeeps(t, Start(t), PierLock(p));
    w := Apply(t, w1, PierOpen(p));
    StepKeeps(t, w1, PierOpen(p));
    BeginsAsking(t, w, p);
    assert [PierLock(p), PierOpen(p)][1..] == [PierOpen(p)] && [PierOpen(p)][1..] == [];
    assert Reaches(t, w, [], w);
    assert Reaches(t, w1, [PierOpen(p)], w);
  }

  lemma BeginsAsking(t: Setup, w: World, p: int)
    requires ValidSetup(t) && Inv(t, w) && w.lock == Some(p) && p in w.piers
    requires w.piers[p] == FRESH.(pc := Writing) && w.client == Running(R.INITIAL) && w.jobs == []
    ensures Asking(t, w, p)
  {
    hide Others, Quiet, R.Feed, InTransit, HeadOf, FrameOf;
  }

  lemma WritesPiece(t: Setup, w: World, p: int, sent: nat, n: nat)
    requires ValidSetup(t) && Writer(t, w, p, sent, "", []) && CanWrite(t, p, sent, n)
    ensures Enabled(t, w, PierWrite(p, n))
    ensures Writer(t, Apply(t, w, PierWrite(p, n)), p, sent + n, FrameOf(t, p)[sent..sent + n], [])
  {
    hide Turn, Others, Quiet, R.Feed, InTransit, HeadOf, FrameOf, ValidSetup;
    assert "" + FrameOf(t, p)[sent..sent + n] == FrameOf(t, p)[sent..sent + n];
    StepKeeps(t, w, PierWrite(p, n));
    TransitWrite(t, p, sent, n, w.flight, w.fifo, w.client.parser);
  }

  lemma ReadsPiece(t: Setup, w: World, p: int, sent: nat, fifo: string)
    requires ValidSetup(t) && Writer(t, w, p, sent, fifo, []) && fifo != ""
    ensures Enabled(t, w, ConnectRead)
    ensures Writer(t, Apply(t, w, ConnectRead), p, sent, fifo[ReadSize(fifo)..], [Data(fifo[..ReadSize(fifo)])])
  {
    hide Turn, Others, Quiet, R.Feed, InTransit, HeadOf, FrameOf, ReadSize, Sending;
    StepKeeps(t, w, ConnectRead);
    TransitRead(t, p, sent, w.flight, w.fifo, w.client.parser);
  }

  lemma TakesPiece(t: Setup, w: World, p: int, sent: nat, x: string)
    requires ValidSetup(t) && Writer(t, w, p, sent, "", [Data(x)]) && x != "" && x != R.PING
    requires |HeadOf(t, p)| < PIPE_BUF && sent < |FrameOf(t, p)|
    ensures Enabled(t, w, ClientTake) && Writer(t, Apply(t, w, ClientTake), p, sent, "", [])
  {
    hide Turn, Others, Quiet, R.Feed, InTransit, HeadOf, FrameOf, Sending;
    StepKeeps(t, w, ClientTake);
    TransitTake(t, p, sent, w.flight, w.fifo, w.client.parser);
  }

  /** A piece of the frame written, relayed and taken. */
  lemma Passes(t: Setup, w: World, p: int, sent: nat, n: nat) returns (w': World)
    requires ValidSetup(t) && Writer(t, w, p, sent, "", []) && CanWrite(t, p, sent, n)
    requires |HeadOf(t, p)| < PIPE_BUF && n < PIPE_BUF
    requires FrameOf(t, p)[sent..sent + n] != R.PING && sent + n < |FrameOf(t, p)|
    ensures Reaches(t, w, [PierWrite(p, n), ConnectRead, ClientTake], w')
    ensures Writer(t, w', p, sent + n, "", [])
  {
    hide Apply, Enabled, Inv, Asking, HeadOf, FrameOf;
    InvKeys(t, w);
    var x := FrameOf(t, p)[sent..sent + n];
    WritesPiece(t, w, p, sent, n);
    var w1 := Apply(t, w, PierWrite(p, n));
    ReadsPiece(t, w1, p, sent + n, x);
    var w2 := Apply(t, w1, ConnectRead);
    assert x[..|x|] == x && x[|x|..] == "";
    TakesPiece(t, w2, p, sent + n, x);
    w' := Apply(t, w2, ClientTake);
    ThreeSteps(t, w, PierWrite(p, n), ConnectRead, ClientTake);
  }

  lemma {:induction false} ThreeSteps(t: Setup, w: World, a: Step, b: Step, c: Step)
    requires ValidSetup(t) && w.piers.Keys == t.frames.Keys
    requires Enabled(t, w, a)
    requires Enabled(t, Apply(t, w, a), b)
    requires Enabled(t, Apply(t, Apply(t, w, a), b), c)
    ensures Reaches(t, w, [a, b, c], Apply(t, Apply(t, Apply(t, w, a), b), c))
  {
    hide Apply, Enabled, ValidSetup;
    assert [a, b, c][1..] == [b, c] && [b, c][1..] == [c] && [c][1..] == [];
    var w3 := Apply(t, Apply(t, Apply(t, w, a), b), c);
    assert Reaches(t, w3, [], w3);
    assert Reaches(t, Apply(t, Apply(t, w, a), b), [c], w3);
    assert Reaches(t, Apply(t, w, a), [b, c], w3);
  }

  /** A head of PIPE_BUF bytes or more: the client gets a part of it and exits. */
  lemma HeadFails(t: Setup, w: World, p: int) returns (w': World)
    requires ValidSetup(t) && Writer(t, w, p, 0, "", []) && PIPE_BUF <= |HeadOf(t, p)|
    ensures Reaches(t, w, [PierWrite(p, |HeadOf(t, p)|), ConnectRead, ClientTake], w')
    ensures Inv(t, w') && StuckAt(t, w', p)
  {
    hide Apply, Enabled, Inv, Asking, Quiet;
    InvKeys(t, w);
    var head := HeadOf(t, p);
    var n := |head|;
    FramePieces(head, t.frames[p].body, 0, n);
    assert head[..n] == head;
    WritesPiece(t, w, p, 0, n);
    var w1 := Apply(t, w, PierWrite(p, n));
    ReadsPiece(t, w1, p, n, head);
    var w2 := Apply(t, w1, ConnectRead);
    HeadCut(t, w2, p);
    w' := Apply(t, w2, ClientTake);
    ThreeSteps(t, w, PierWrite(p, n), ConnectRead, ClientTake);
  }

  lemma HeadCut(t: Setup, w: World, p: int)
    requires ValidSetup(t) && p in t.frames && PIPE_BUF <= |HeadOf(t, p)|
    requires var head := HeadOf(t, p);
             Writer(t, w, p, |head|, head[PIPE_BUF - 1..], [Data(head[..PIPE_BUF - 1])])
    ensures Enabled(t, w, ClientTake)
    ensures Inv(t, Apply(t, w, ClientTake)) && StuckAt(t, Apply(t, w, ClientTake), p)
  {
    hide R.Feed, HeadOf, Others, Quiet, Sending, Idle, HeadWhole;
    StepKeeps(t, w, ClientTake);
    FeedHeadPiece(t, w.client.parser, p, PIPE_BUF - 1);
    FramePieces(HeadOf(t, p), t.frames[p].body, 0, PIPE_BUF - 1);
    assert [Data(HeadOf(t, p)[..PIPE_BUF - 1])][1..] == [];
  }

  /** A body byte '0' that travels alone. */
  lemma ZeroFails(t: Setup, w: World, p: int, k: nat) returns (w': World)
    requires ValidSetup(t) && p in t.frames && k < |t.frames[p].body| && t.frames[p].body[k] == '0'
    requires Writer(t, w, p, |HeadOf(t, p)| + k, "", [])
    ensures Reaches(t, w, [PierWrite(p, 1), ConnectRead, ClientTake], w')
    ensures Inv(t, w') && StuckAt(t, w', p)
  {
    hide Apply, Enabled, Inv, Asking, Quiet, HeadOf;
    InvKeys(t, w);
    var i := |HeadOf(t, p)| + k;
    FramePieces(HeadOf(t, p), t.frames[p].body, i, i + 1);
    assert FrameOf(t, p)[i..i + 1] == R.PING;
    WritesPiece(t, w, p, i, 1);
    var w1 := Apply(t, w, PierWrite(p, 1));
    ReadsPiece(t, w1, p, i + 1, R.PING);
    var w2 := Apply(t, w1, ConnectRead);
    assert R.PING[..1] == R.PING;
    ZeroTaken(t, w2, p);
    w' := Apply(t, w2, ClientTake);
    ThreeSteps(t, w, PierWrite(p, 1), ConnectRead, ClientTake);
  }

  lemma ZeroTaken(t: Setup, w: World, p: int)
    requires ValidSetup(t) && Inv(t, w) && p in w.piers && w.lock == Some(p) && Asking(t, w, p)
    requires w.flight == [Data(R.PING)]
    ensures Enabled(t, w, ClientTake)
    ensures Inv(t, Apply(t, w, ClientTake)) && StuckAt(t, Apply(t, w, ClientTake), p)
  {
    hide R.Feed, HeadOf, FrameOf, Others, Quiet, Sending, Lost, Turn, InTransit;
    TakeLost(t, w, p);
    StepKeeps(t, w, ClientTake);
  }

  /** The body byte by byte, up to a first '0' at `z`. */
  lemma {:induction false} ByteByByte(t: Setup, w: World, p: int, k: nat, z: nat) returns (steps: seq<Step>, w': World)
    requires ValidSetup(t) && p in t.frames && k <= z < |t.frames[p].body|
    requires IsFirst('0', t.frames[p].body, z)
    requires |HeadOf(t, p)| < PIPE_BUF && Writer(t, w, p, |HeadOf(t, p)| + k, "", [])
    ensures w.piers.Keys == t.frames.Keys && Reaches(t, w, steps, w')
    ensures Inv(t, w') && StuckAt(t, w', p)
    decreases z - k
  {
    hide Apply, Enabled, Inv, Asking, Quiet, HeadOf, Reaches, Writer, StuckAt;
    WriterKeys(t, w, p, |HeadOf(t, p)| + k);
    if k == z {
      w' := ZeroFails(t, w, p, k);
      steps := [PierWrite(p, 1), ConnectRead, ClientTake];
    } else {
      var i := |HeadOf(t, p)| + k;
      FramePieces(HeadOf(t, p), t.frames[p].body, i, i + 1);
      assert t.frames[p].body[k] != '0';
      assert FrameOf(t, p)[i..i + 1][0] == t.frames[p].body[k] && R.PING[0] == '0';
      var w1 := Passes(t, w, p, i, 1);
      WriterKeys(t, w1, p, i + 1);
      steps, w' := ByteByByte(t, w1, p, k + 1, z);
      InvKeys(t, w');
      ReachesAppend(t, w, [PierWrite(p, 1), ConnectRead, ClientTake], w1, steps, w');
      steps := [PierWrite(p, 1), ConnectRead, ClientTake] + steps;
    }
  }

  lemma WriterKeys(t: Setup, w: World, p: int, sent: nat)
    requires ValidSetup(t) && Writer(t, w, p, sent, "", [])
    ensures w.piers.Keys == t.frames.Keys
  {
  }

  lemma HeadPasses(t: Setup, w: World, p: int) returns (w': World)
    requires ValidSetup(t) && p in t.frames && Writer(t, w, p, 0, "", [])
    requires |HeadOf(t, p)| < PIPE_BUF && t.frames[p].body != ""
    ensures Reaches(t, w, [PierWrite(p, |HeadOf(t, p)|), ConnectRead, ClientTake], w')
    ensures Writer(t, w', p, |HeadOf(t, p)|, "", [])
  {
    hide Apply, Enabled, Inv, Asking, Quiet, Head, Reaches, Writer;
    var n := |HeadOf(t, p)|;
    HeadShape(p, t.frames[p]);
    FramePieces(HeadOf(t, p), t.frames[p].body, 0, n);
    w' := Passes(t, w, p, 0, n);
  }

  lemma ZeroRun(t: Setup, w: World, p: int) returns (steps: seq<Step>, w': World)
    requires ValidSetup(t) && p in t.frames && Writer(t, w, p, 0, "", [])
    requires |HeadOf(t, p)| < PIPE_BUF && !Lacks(t.frames[p].body, '0')
    ensures w.piers.Keys == t.frames.Keys && Reaches(t, w, steps, w')
    ensures Inv(t, w') && StuckAt(t, w', p)
  {
    hide Apply, Enabled, Inv, Asking, Quiet, HeadOf, FrameOf, Reaches, Writer, StuckAt;
    WriterKeys(t, w, p, 0);
    var n, z := |HeadOf(t, p)|, Find('0', t.frames[p].body);
    var w1 := HeadPasses(t, w, p);
    WriterKeys(t, w1, p, n);
    steps, w' := ByteByByte(t, w1, p, 0, z);
    InvKeys(t, w');
    ReachesAppend(t, w, [PierWrite(p, n), ConnectRead, ClientTake], w1, steps, w');
    steps := [PierWrite(p, n), ConnectRead, ClientTake] + steps;
  }

  /** A frame that does not fit: there is a run that ends stuck on it. */
  lemma FailingRun(t: Setup, p: int) returns (steps: seq<Step>, w: World)
    requires ValidSetup(t) && p in t.frames && !Fits(t, p)
    ensures Reaches(t, Start(t), steps, w) && Inv(t, w) && StuckAt(t, w, p)
  {
    hide Apply, Enabled, Inv, Asking, Quiet, HeadOf, FrameOf, Reaches, Writer, StuckAt, Lacks;
    var w1 := Begins(t, p);
    WriterKeys(t, w1, p, 0);
    var n := |HeadOf(t, p)|;
    if PIPE_BUF <= n {
      w := HeadFails(t, w1, p);
      steps := [PierWrite(p, n), ConnectRead, ClientTake];
    } else {
      steps, w := ZeroRun(t, w1, p);
    }
    InvKeys(t, w);
    ReachesAppend(t, Start(t), [PierLock(p), PierOpen(p)], w1, steps, w);
    steps := [PierLock(p), PierOpen(p)] + steps;
  }

  // ---------------------------------------------------------------------
  // Service

  /** No run ends with a holder that can be served no more. */
  ghost predicate NeverStuck(t: Setup)
    requires ValidSetup(t)
  {
    forall steps: seq<Step>, w: World | Reaches(t, Start(t), steps, w) :: w.piers.Keys == t.frames.Keys && !Stuck(t, w)
  }

  /** The tunnel fails in some run exactly when some frame does not fit: a head of
      PIPE_BUF bytes or more, or a body with a byte '0'. */
  lemma NeverStuckExactlyWhenAllFit(t: Setup)
    requires ValidSetup(t)
    ensures NeverStuck(t) <==> AllFit(t)
  {
    hide Fits, Stuck, Inv, Reaches;
    if AllFit(t) {
      forall steps: seq<Step>, w: World | Reaches(t, Start(t), steps, w)
        ensures w.piers.Keys == t.frames.Keys && !Stuck(t, w)
      {
        StartInv(t);
        RunKeeps(t, Start(t), steps, w);
        InvKeys(t, w);
        FitNotStuck(t, w);
      }
    } else {
      var p :| p in t.frames && !Fits(t, p);
      var steps, w := FailingRun(t, p);
      InvKeys(t, w);
      AtIsStuck(t, w, p);
    }
  }

  /** Every Pier has printed the whole response to its own request. */
  predicate Served(t: Setup, w: World) {
    forall p | p in t.frames :: p in w.piers && w.piers[p].pc == Done && w.piers[p].printed == ResponseOf(t, p)
  }

  ghost predicate CanServe(t: Setup, w: World)
    requires ValidSetup(t) && w.piers.Keys == t.frames.Keys
  {
    exists steps: seq<Step>, u: World :: Reaches(t, w, steps, u) && Served(t, u)
  }

  /** Whatever has happened, everyone can still be served. */
  ghost predicate AlwaysServes(t: Setup)
    requires ValidSetup(t)
  {
    forall steps: seq<Step>, w: World | Reaches(t, Start(t), steps, w) ::
      w.piers.Keys == t.frames.Keys && CanServe(t, w)
  }

  /** A run that goes on until all is done. */
  lemma {:induction false} Finish(t: Setup, w: World) returns (steps: seq<Step>, u: World)
    requires ValidSetup(t) && AllFit(t) && Inv(t, w)
    ensures w.piers.Keys == t.frames.Keys && Reaches(t, w, steps, u) && Inv(t, u) && AllDone(u)
    decreases Work(t, w)
  {
    hide Inv, Fits, Stuck, Apply, Enabled, AllDone, Work;
    InvKeys(t, w);
    FitNotStuck(t, w);
    if AllDone(w) {
      steps, u := [], w;
    } else {
      var a := GoesOn(t, w);
      StepKeeps(t, w, a);
      StepWork(t, w, a);
      steps, u := Finish(t, Apply(t, w, a));
      steps := [a] + steps;
    }
  }

  lemma DoneIsServed(t: Setup, w: World)
    requires ValidSetup(t) && Inv(t, w)
    ensures AllDone(w) <==> Served(t, w)
  {
    hide Quiet, FrameOf, ResponseOf, Asking, Answering, Answered, Lost, Crashed;
    if AllDone(w) {
      forall p | p in t.frames
        ensures w.piers[p].pc == Done && w.piers[p].printed == ResponseOf(t, p)
      {
        RoutingOne(t, w, p);
      }
    }
  }

  lemma StuckNotServed(t: Setup, w: World, p: int)
    requires ValidSetup(t) && Inv(t, w) && StuckAt(t, w, p)
    ensures !CanServe(t, w)
  {
    hide Inv, Reaches, Served;
    InvKeys(t, w);
    forall steps: seq<Step>, u: World | Reaches(t, w, steps, u)
      ensures !Served(t, u)
    {
      StuckForever(t, w, p, steps, u);
      InvKeys(t, u);
      DoneIsServed(t, u);
      StuckIsWaiting(t, u, p);
    }
  }

  lemma StuckIsWaiting(t: Setup, w: World, p: int)
    requires ValidSetup(t) && w.piers.Keys == t.frames.Keys && StuckAt(t, w, p)
    ensures !AllDone(w)
  {
  }

  /** The tunnel serves everyone, whatever the order of steps, exactly when every
      head has less than 4096 bytes and no body holds a byte '0'. */
  lemma ServesExactlyWhenAllFit(t: Setup)
    requires ValidSetup(t)
    ensures AlwaysServes(t) <==> forall p | p in t.frames :: |HeadOf(t, p)| < 4096 && Lacks(t.frames[p].body, '0')
  {
    FitsInNumbers(t);
    hide Fits, Inv, Reaches, CanServe, Served, AllDone;
    if AllFit(t) {
      forall steps: seq<Step>, w: World | Reaches(t, Start(t), steps, w)
        ensures w.piers.Keys == t.frames.Keys && CanServe(t, w)
      {
        StartInv(t);
        RunKeeps(t, Start(t), steps, w);
        var more, u := Finish(t, w);
        DoneIsServed(t, u);
        Serves(t, w, more, u);
      }
    } else {
      var p :| p in t.frames && !Fits(t, p);
      var steps, w := FailingRun(t, p);
      InvKeys(t, w);
      StuckNotServed(t, w, p);
    }
  }

  lemma FitsInNumbers(t: Setup)
    requires ValidSetup(t)
    ensures AllFit(t) <==> forall p | p in t.frames :: |HeadOf(t, p)| < 4096 && Lacks(t.frames[p].body, '0')
  {
    hide HeadOf, Lacks;
    assert forall p | p in t.frames :: Fits(t, p) <==> |HeadOf(t, p)| < 4096 && Lacks(t.frames[p].body, '0');
  }

  lemma Serves(t: Setup, w: World, steps: seq<Step>, u: World)
    requires ValidSetup(t) && w.piers.Keys == t.frames.Keys && Reaches(t, w, steps, u) && Served(t, u)
    ensures CanServe(t, w)
  {
  }

  lemma AtIsStuck(t: Setup, w: World, p: int)
    requires ValidSetup(t) && w.piers.Keys == t.frames.Keys && StuckAt(t, w, p)
    ensures Stuck(t, w)
  {
  }

  /** No step is left but a ping. */
  ghost predicate Stopped(t: Setup, w: World)
    requires ValidSetup(t) && w.piers.Keys == t.frames.Keys
  {
    forall a | Enabled(t, w, a) :: a.ConnectPing?
  }

  /** When every frame fits, a run that has come to a stop has served every Pier
      its own response; and a run has to come to a stop, as its length is bounded
      by the work at the start and two steps for each ping. */
  lemma Service(t: Setup, steps: seq<Step>, w: World)
    requires ValidSetup(t) && AllFit(t) && Reaches(t, Start(t), steps, w)
    ensures w.piers.Keys == t.frames.Keys
    ensures |steps| <= Work(t, Start(t)) + 2 * Pings(steps)
    ensures Stopped(t, w) ==> Served(t, w)
  {
    hide Fits, Stuck, Inv, Reaches, Enabled, Apply, Work, ResponseOf;
    StartInv(t);
    RunKeeps(t, Start(t), steps, w);
    RunIsBounded(t, Start(t), steps, w);
    FitNotStuck(t, w);
    if !AllDone(w) {
      var a := GoesOn(t, w);
    }
    DoneIsServed(t, w);
  }
}
