/** What the histories of the tunnel say: frames in lock order, every byte
    accounted for, requests emitted once and in lock order. */
module TunnelHistory {
  import opened CString
  import opened FrameRoundTrip
  import opened Tunnel
  import opened TunnelSafety
  import opened TunnelSteps

  /** A step moves at most one Pier, `p`, and only some steps touch the lock and
      the records of lock order and of bytes written. */
  predicate Shape(t: Setup, w: World, a: Step, p: int, w': World)
    requires ValidSetup(t) && w.piers.Keys == t.frames.Keys && w'.piers.Keys == t.frames.Keys
  {
    && (w'.piers == w.piers || (p in w.piers && w'.piers == w.piers[p := w'.piers[p]] && w'.piers[p].pc != Waiting))
    && (a.PierLock? ==>
          p == a.p && p in w.piers && w.lock == None && w.piers[p] == FRESH && w'.piers[p] == FRESH.(pc := Locked))
    && (a.PierUnlock? ==> w.lock == Some(a.p) && a.p in w.piers && w.piers[a.p].sent == |FrameOf(t, a.p)|)
    && (if a.PierWrite? then
          && p == a.p && p in w.piers && w.lock == Some(p) && w.piers[p].sent + a.n <= |FrameOf(t, p)|
          && w'.piers[p].sent == w.piers[p].sent + a.n
          && w'.past.written == w.past.written + FrameOf(t, p)[w.piers[p].sent..w.piers[p].sent + a.n]
        else
          && w'.past.written == w.past.written
          && (p in w.piers ==> w'.piers[p].sent == w.piers[p].sent))
    && w'.lock == (if a.PierLock? then Some(a.p) else if a.PierUnlock? then None else w.lock)
    && w'.past.order == (if a.PierLock? then w.past.order + [a.p] else w.past.order)
    && (!a.ClientTake? ==> w'.past.emitted == w.past.emitted)
  }

  lemma LockShape(t: Setup, w: World, p: int)
    requires ValidSetup(t) && Inv(t, w) && Enabled(t, w, PierLock(p))
    ensures Shape(t, w, PierLock(p), p, Apply(t, w, PierLock(p)))
  {
    hide Turn, Quiet, FrameOf, ResponseOf;
    assert Resting(t, p, w.piers[p]);
  }

  lemma WriteShape(t: Setup, w: World, p: int, n: nat)
    requires ValidSetup(t) && Inv(t, w) && Enabled(t, w, PierWrite(p, n))
    ensures Shape(t, w, PierWrite(p, n), p, Apply(t, w, PierWrite(p, n)))
  {
    hide Turn, Quiet, FrameOf, HeadOf;
    ActiveHolds(t, w, p);
  }

  lemma UnlockShape(t: Setup, w: World, p: int)
    requires ValidSetup(t) && Inv(t, w) && Enabled(t, w, PierUnlock(p))
    ensures Shape(t, w, PierUnlock(p), p, Apply(t, w, PierUnlock(p)))
  {
    hide Quiet, FrameOf, HeadOf, InTransit;
    ActiveHolds(t, w, p);
  }

  /** The Pier that a step moves. */
  function Mover(w: World, a: Step): int {
    match a
    case PierLock(p) => p
    case PierOpen(p) => p
    case PierWrite(p, n) => p
    case PierClose(p) => p
    case PierRead(p, n) => p
    case PierEnd(p) => p
    case PierUnlock(p) => p
    case ConnectRead => 0
    case ConnectPing => 0
    case ClientTake => 0
    case RespondOpen(i) => if i < |w.jobs| then w.jobs[i].pid else 0
    case RespondWrite(i, n) => if i < |w.jobs| then w.jobs[i].pid else 0
    case RespondClose(i) => if i < |w.jobs| then w.jobs[i].pid else 0
  }

  lemma InboxShape(t: Setup, w: World, a: Step)
    requires ValidSetup(t) && Inv(t, w) && Enabled(t, w, a)
    requires a.RespondWrite? || a.RespondClose?
    ensures Shape(t, w, a, Mover(w, a), Apply(t, w, a))
  {
    hide Quiet, FrameOf, HeadOf, InTransit, Resting, Lost, Crashed, Asking, Answered, RequestOf;
    assert w.lock.Some? && Answering(t, w, w.lock.value) by {
      hide *;
      OnlyAnswering(t, w);
    }
  }

  /** While there is a Respond process the answer is on its way. */
  lemma OnlyAnswering(t: Setup, w: World)
    requires ValidSetup(t) && Inv(t, w) && w.jobs != []
    ensures w.lock.Some? && Answering(t, w, w.lock.value)
  {
    hide Quiet, FrameOf, HeadOf, InTransit, Others, Sending, ResponseOf;
  }

  lemma MoveShape(t: Setup, w: World, a: Step)
    requires ValidSetup(t) && w.piers.Keys == t.frames.Keys && Enabled(t, w, a)
    requires a.PierOpen? || a.PierClose? || a.PierRead? || a.PierEnd? || a.RespondOpen?
    ensures Shape(t, w, a, Mover(w, a), Apply(t, w, a))
  {
    hide FrameOf, ValidSetup;
  }

  lemma WireShape(t: Setup, w: World, a: Step)
    requires ValidSetup(t) && w.piers.Keys == t.frames.Keys && Enabled(t, w, a)
    requires a.ConnectRead? || a.ConnectPing? || a.ClientTake?
    ensures Shape(t, w, a, 0, Apply(t, w, a))
  {
    hide R.Feed, FrameOf, ValidSetup;
  }

  lemma StepShape(t: Setup, w: World, a: Step)
    requires ValidSetup(t) && Inv(t, w) && Enabled(t, w, a)
    ensures Shape(t, w, a, Mover(w, a), Apply(t, w, a))
  {
    hide Apply, Turn, Quiet, Others, Shape;
    match a
    case PierLock(p) => LockShape(t, w, p);
    case PierWrite(p, n) => WriteShape(t, w, p, n);
    case PierUnlock(p) => UnlockShape(t, w, p);
    case RespondWrite(i, n) => InboxShape(t, w, a);
    case RespondClose(i) => InboxShape(t, w, a);
    case ConnectRead => WireShape(t, w, a);
    case ConnectPing => WireShape(t, w, a);
    case ClientTake => WireShape(t, w, a);
    case _ => MoveShape(t, w, a);
  }

  // ---------------------------------------------------------------------
  // No interleaving

  /** The frames of the Piers that had the lock, in that order. */
  function FramesOf(t: Setup, order: seq<int>): string
    requires ValidSetup(t) && forall p | p in order :: p in t.frames
  {
    if order == [] then "" else FramesOf(t, order[..|order| - 1]) + FrameOf(t, order[|order| - 1])
  }

  lemma FramesSnoc(t: Setup, order: seq<int>, p: int)
    requires ValidSetup(t) && (forall q | q in order :: q in t.frames) && p in t.frames
    ensures FramesOf(t, order + [p]) == FramesOf(t, order) + FrameOf(t, p)
  {
    assert (order + [p])[..|order|] == order;
  }

  /** Each Pier gets the lock once. */
  predicate Ordered(t: Setup, w: World) {
    var o := w.past.order;
    && (forall i | 0 <= i < |o| :: o[i] in t.frames)
    && (forall i, j | 0 <= i < j < |o| :: o[i] != o[j])
    && (forall i | 0 <= i < |o| && o[i] in w.piers :: w.piers[o[i]].pc != Waiting)
    && (w.lock.Some? ==> |o| > 0 && o[|o| - 1] == w.lock.value)
  }

  lemma OrderedStep(t: Setup, w: World, a: Step)
    requires ValidSetup(t) && Inv(t, w) && Ordered(t, w) && Enabled(t, w, a)
    ensures Ordered(t, Apply(t, w, a))
  {
    hide Apply, Enabled, Turn, Others, Quiet, FrameOf, Mover;
    StepShape(t, w, a);
  }

  /** The frames of `order`, whole but for the last one. */
  function Before(order: seq<int>): (r: seq<int>)
    ensures forall p | p in r :: p in order
  {
    if order == [] then [] else order[..|order| - 1]
  }

  /** The bytes written to the shared FIFO are whole frames in lock order, and
      the front of the holder's frame. */
  predicate Separate(t: Setup, w: World)
    requires ValidSetup(t) && Ordered(t, w) && w.piers.Keys == t.frames.Keys
  {
    match w.lock
    case None => w.past.written == FramesOf(t, w.past.order)
    case Some(p) =>
      && w.piers[p].sent <= |FrameOf(t, p)|
      && w.past.written == FramesOf(t, Before(w.past.order)) + FrameOf(t, p)[..w.piers[p].sent]
  }

  lemma WrittenMore(f: string, front: string, i: nat, n: nat)
    requires i + n <= |f|
    ensures (front + f[..i]) + f[i..i + n] == front + f[..i + n]
  {
  }

  lemma SeparateLock(t: Setup, w: World, w': World, p: int)
    requires ValidSetup(t) && w.piers.Keys == w'.piers.Keys == t.frames.Keys
    requires Ordered(t, w) && Separate(t, w) && Ordered(t, w') && w.lock == None && w'.lock == Some(p)
    requires p in w.piers && w'.piers[p].sent == 0
    requires w'.past.order == w.past.order + [p] && w'.past.written == w.past.written
    ensures Separate(t, w')
  {
    hide FrameOf, FramesOf, ValidSetup;
    assert Before(w'.past.order) == w.past.order;
    assert FrameOf(t, p)[..0] == "" && w.past.written + "" == w.past.written;
  }

  lemma SeparateUnlock(t: Setup, w: World, w': World, p: int)
    requires ValidSetup(t) && w.piers.Keys == w'.piers.Keys == t.frames.Keys
    requires Ordered(t, w) && Separate(t, w) && Ordered(t, w') && w.lock == Some(p) && w'.lock == None
    requires p in w.piers && w.piers[p].sent == |FrameOf(t, p)|
    requires w'.past.order == w.past.order && w'.past.written == w.past.written
    ensures Separate(t, w')
  {
    hide FrameOf, FramesOf, ValidSetup;
    assert Before(w.past.order) + [p] == w.past.order;
    FramesSnoc(t, Before(w.past.order), p);
    assert FrameOf(t, p)[..|FrameOf(t, p)|] == FrameOf(t, p);
  }

  lemma SeparateWrite(t: Setup, w: World, w': World, n: nat)
    requires ValidSetup(t) && w.piers.Keys == w'.piers.Keys == t.frames.Keys
    requires Ordered(t, w) && Separate(t, w) && Ordered(t, w') && w.lock.Some? && w'.lock == w.lock
    requires w.lock.value in w.piers
    requires var p, i := w.lock.value, w.piers[w.lock.value].sent;
             i + n <= |FrameOf(t, p)| && w'.piers[p].sent == i + n
             && w'.past.written == w.past.written + FrameOf(t, p)[i..i + n]
    requires w'.past.order == w.past.order
    ensures Separate(t, w')
  {
    hide FrameOf;
    var p := w.lock.value;
    WrittenMore(FrameOf(t, p), FramesOf(t, Before(w.past.order)), w.piers[p].sent, n);
  }

  lemma SeparateSame(t: Setup, w: World, w': World)
    requires ValidSetup(t) && w.piers.Keys == w'.piers.Keys == t.frames.Keys
    requires Ordered(t, w) && Separate(t, w) && Ordered(t, w') && w'.lock == w.lock
    requires w.lock.Some? ==> w.lock.value in w.piers && w'.piers[w.lock.value].sent == w.piers[w.lock.value].sent
    requires w'.past.written == w.past.written && w'.past.order == w.past.order
    ensures Separate(t, w')
  {
    hide Ordered, FrameOf;
  }

  lemma SeparateStep(t: Setup, w: World, a: Step)
    requires ValidSetup(t) && Inv(t, w) && Ordered(t, w) && Separate(t, w) && Enabled(t, w, a)
    ensures Ordered(t, Apply(t, w, a)) && Separate(t, Apply(t, w, a))
  {
    hide Apply, Enabled, Turn, Others, Quiet, FrameOf, FramesOf, Mover, Before, Ordered, Separate;
    OrderedStep(t, w, a);
    StepShape(t, w, a);
    var w' := Apply(t, w, a);
    if a.PierLock? {
      SeparateLock(t, w, w', a.p);
    } else if a.PierWrite? {
      SeparateWrite(t, w, w', a.n);
    } else if a.PierUnlock? {
      SeparateUnlock(t, w, w', a.p);
    } else {
      SeparateSame(t, w, w');
    }
  }

  // ---------------------------------------------------------------------
  // Every byte accounted for

  /** The data chunks in flight. */
  function Chunks(flight: seq<Item>): seq<string> {
    if flight == [] then []
    else (if flight[0].Ping? then [] else [flight[0].bytes]) + Chunks(flight[1..])
  }

  lemma {:induction false} ChunksSnoc(flight: seq<Item>, i: Item)
    ensures Chunks(flight + [i]) == Chunks(flight) + if i.Ping? then [] else [i.bytes]
  {
    if flight == [] {
      assert flight + [i] == [i];
      assert Chunks([i][1..]) == [];
    } else {
      assert (flight + [i])[0] == flight[0] && (flight + [i])[1..] == flight[1..] + [i];
      ChunksSnoc(flight[1..], i);
    }
  }

  /** The data chunks the client has taken so far. */
  function Taken(w: World): seq<string> {
    if |Chunks(w.flight)| <= |w.past.relayed| then w.past.relayed[..|w.past.relayed| - |Chunks(w.flight)|] else []
  }

  /** Connect relays the FIFO in order; the client gives every chunk it does not
      take for a ping to the parser, whose state and emissions are those of a run
      over these chunks. */
  predicate Accounted(t: Setup, w: World) {
    && Flat(w.past.relayed) + w.fifo == w.past.written
    && w.past.relayed == Taken(w) + Chunks(w.flight)
    && w.past.fed == R.Kept(Taken(w))
    && R.FeedAll(t.client, R.INITIAL, w.past.fed)
       == if w.client.Running? then R.Alive(w.client.parser, w.past.emitted) else R.Died(w.past.emitted)
  }

  lemma RelayConserves(relayed: seq<string>, fifo: string, n: nat)
    requires n <= |fifo|
    ensures Flat(relayed + [fifo[..n]]) + fifo[n..] == Flat(relayed) + fifo
  {
    FlatSnoc(relayed, fifo[..n]);
    assert fifo == fifo[..n] + fifo[n..];
  }

  lemma FlightMoves(relayed: seq<string>, k: nat, x: string)
    requires k < |relayed| && relayed[k] == x
    ensures relayed[..k + 1] == relayed[..k] + [x]
    ensures R.Kept(relayed[..k + 1]) == R.Kept(relayed[..k]) + if x == R.PING then [] else [x]
  {
    assert relayed[..k + 1] == relayed[..k] + [x];
    R.KeptSnoc(relayed[..k], x);
  }

  lemma TakeAccounted(t: Setup, w: World)
    requires ValidSetup(t) && w.piers.Keys == t.frames.Keys && Accounted(t, w) && Enabled(t, w, ClientTake)
    ensures Accounted(t, Apply(t, w, ClientTake))
  {
    hide R.Feed, R.FeedAll, R.Kept, Flat;
    var k := |Taken(w)|;
    var rest := Chunks(w.flight[1..]);
    var chunk := Wire(w.flight[0]);
    if w.flight[0].Data? {
      assert Chunks(w.flight) == [chunk] + rest;
      assert w.past.relayed[k] == chunk && w.past.relayed[..k] == Taken(w);
      FlightMoves(w.past.relayed, k, chunk);
      assert w.past.relayed == w.past.relayed[..k + 1] + rest;
    } else {
      assert Chunks(w.flight) == rest;
    }
    if chunk != R.PING {
      R.FeedAllSnoc(t.client, R.INITIAL, w.past.fed, chunk);
    }
  }

  lemma AccountedStep(t: Setup, w: World, a: Step)
    requires ValidSetup(t) && w.piers.Keys == t.frames.Keys && Accounted(t, w) && Enabled(t, w, a)
    ensures Accounted(t, Apply(t, w, a))
  {
    hide R.Feed, R.FeedAll, R.Kept, Flat, FrameOf, HeadOf, Take, Inv, ValidSetup;
    match a
    case ConnectRead =>
      var n := ReadSize(w.fifo);
      RelayConserves(w.past.relayed, w.fifo, n);
      ChunksSnoc(w.flight, Data(w.fifo[..n]));
      assert (w.past.relayed + [w.fifo[..n]])[..|Taken(w)|] == Taken(w);
    case ConnectPing =>
      ChunksSnoc(w.flight, Ping);
    case ClientTake =>
      TakeAccounted(t, w);
    case PierWrite(p, n) =>
      var piece := FrameOf(t, p)[w.piers[p].sent..w.piers[p].sent + n];
      Assoc(Flat(w.past.relayed), w.fifo, piece);
    case _ =>
  }

  // ---------------------------------------------------------------------
  // Each request once, in lock order

  function EmissionsOf(t: Setup, order: seq<int>): (es: seq<R.Emission>)
    requires forall p | p in order :: p in t.frames
    ensures |es| == |order|
    ensures forall i | 0 <= i < |order| :: es[i] == R.Emission(order[i], RequestOf(t, order[i]))
  {
    seq(|order|, i requires 0 <= i < |order| => R.Emission(order[i], RequestOf(t, order[i])))
  }

  /** The holder's request is still to be emitted. */
  predicate Pending(w: World) {
    && w.lock.Some? && w.jobs == []
    && (PcIs(w, w.lock.value, Locked) || PcIs(w, w.lock.value, Writing) || PcIs(w, w.lock.value, Closed))
  }

  predicate InOrder(t: Setup, w: World)
    requires Ordered(t, w)
  {
    w.past.emitted == EmissionsOf(t, if Pending(w) then Before(w.past.order) else w.past.order)
  }

  lemma EmissionsSnoc(t: Setup, order: seq<int>, p: int)
    requires (forall q | q in order :: q in t.frames) && p in t.frames
    ensures EmissionsOf(t, order + [p]) == EmissionsOf(t, order) + [R.Emission(p, RequestOf(t, p))]
  {
    hide RequestOf;
  }

  /** A chunk that completes a request completes the holder's. */
  lemma EmitsForHolder(t: Setup, w: World)
    requires ValidSetup(t) && Inv(t, w) && Enabled(t, w, ClientTake)
    ensures var o := R.Feed(t.client, w.client.parser, Wire(w.flight[0]));
            Wire(w.flight[0]) != R.PING && o.Emit? ==>
              Pending(w) && w.jobs == [] && o.pid == w.lock.value && o.request == RequestOf(t, w.lock.value)
  {
    hide R.Feed, InTransit, HeadOf, FrameOf, RequestOf, Idle, Others, Answering, Answered, NoAnswerYet;
    FeedNothing(t.client, w.client.parser);
    if Payload(w.flight[0]) != "" {
      HasTurn(t, w);
      var p := w.lock.value;
      if Asking(t, w, p) {
        TransitTake(t, p, w.piers[p].sent, w.flight, w.fifo, w.client.parser);
      } else {
        LostWaits(t.client, w.client.parser, Payload(w.flight[0]));
      }
    }
  }

  /** Data in flight belongs to a holder whose request is not complete. */
  lemma HasTurn(t: Setup, w: World)
    requires ValidSetup(t) && Inv(t, w) && Enabled(t, w, ClientTake) && Payload(w.flight[0]) != ""
    ensures w.lock.Some? && (Asking(t, w, w.lock.value) || Lost(t, w, w.lock.value))
  {
    hide InTransit, HeadOf, FrameOf, ResponseOf, Idle, Others, NoAnswerYet, Sending;
    assert DataBytes(w.flight) != "";
  }

  /** What a ClientTake may emit. */
  lemma TakeEmits(t: Setup, w: World)
    requires ValidSetup(t) && Inv(t, w) && Enabled(t, w, ClientTake)
    ensures var w' := Apply(t, w, ClientTake);
            if Pending(w) && !Pending(w') then
              w'.past.emitted == w.past.emitted + [R.Emission(w.lock.value, RequestOf(t, w.lock.value))]
            else w'.past.emitted == w.past.emitted && (Pending(w) <==> Pending(w'))
  {
    hide R.Feed, Turn, Others, Quiet, RequestOf, FrameOf;
    EmitsForHolder(t, w);
  }

  lemma LostWaits(c: R.Config, st: R.State, x: string)
    ensures st.inData && |st.buf| + |x| < st.length ==> R.Feed(c, st, x).Wait?
  {
    hide R.FeedHeader;
  }

  lemma WirePending(t: Setup, w: World, a: Step)
    requires ValidSetup(t) && Inv(t, w) && Enabled(t, w, a)
    requires a.PierLock? || a.ConnectRead? || a.ConnectPing?
    ensures Pending(Apply(t, w, a)) <==> a.PierLock? || Pending(w)
  {
    hide FrameOf, Others, Turn;
  }

  lemma InboxPending(t: Setup, w: World, a: Step)
    requires ValidSetup(t) && Inv(t, w) && Enabled(t, w, a)
    requires a.RespondOpen? || a.RespondWrite? || a.RespondClose?
    ensures !Pending(Apply(t, w, a)) && !Pending(w)
  {
    hide Quiet, FrameOf, Others, Turn, ResponseOf;
    OnlyAnswering(t, w);
  }

  lemma PierPending(t: Setup, w: World, a: Step)
    requires ValidSetup(t) && Inv(t, w) && Enabled(t, w, a)
    requires a.PierOpen? || a.PierWrite? || a.PierClose? || a.PierRead? || a.PierEnd? || a.PierUnlock?
    ensures Pending(Apply(t, w, a)) <==> Pending(w)
  {
    hide Quiet, FrameOf, Others, Turn;
    ActiveHolds(t, w, Mover(w, a));
  }

  lemma StepPending(t: Setup, w: World, a: Step)
    requires ValidSetup(t) && Inv(t, w) && Enabled(t, w, a)
    ensures a.PierLock? ==> Pending(Apply(t, w, a)) && !Pending(w)
    ensures !a.PierLock? && !a.ClientTake? ==> (Pending(Apply(t, w, a)) <==> Pending(w))
  {
    hide Apply, Turn, Quiet, Others;
    match a
    case PierLock(p) => WirePending(t, w, a);
    case ConnectRead => WirePending(t, w, a);
    case ConnectPing => WirePending(t, w, a);
    case ClientTake =>
    case RespondOpen(i) => InboxPending(t, w, a);
    case RespondWrite(i, n) => InboxPending(t, w, a);
    case RespondClose(i) => InboxPending(t, w, a);
    case _ => PierPending(t, w, a);
  }

  lemma InOrderLock(t: Setup, w: World, w': World, p: int)
    requires Ordered(t, w) && Ordered(t, w') && InOrder(t, w) && !Pending(w) && Pending(w')
    requires w'.past.order == w.past.order + [p] && w'.past.emitted == w.past.emitted
    ensures InOrder(t, w')
  {
    hide Pending, EmissionsOf;
    assert Before(w'.past.order) == w.past.order;
  }

  lemma InOrderTake(t: Setup, w: World, w': World)
    requires ValidSetup(t) && w.piers.Keys == t.frames.Keys
    requires Ordered(t, w) && Ordered(t, w') && InOrder(t, w) && Pending(w) && !Pending(w')
    requires w.lock.Some? && w.lock.value in t.frames && w'.past.order == w.past.order
    requires w'.past.emitted == w.past.emitted + [R.Emission(w.lock.value, RequestOf(t, w.lock.value))]
    ensures InOrder(t, w')
  {
    hide Pending, EmissionsOf, RequestOf;
    assert Before(w.past.order) + [w.lock.value] == w.past.order;
    EmissionsSnoc(t, Before(w.past.order), w.lock.value);
  }

  lemma InOrderStep(t: Setup, w: World, a: Step)
    requires ValidSetup(t) && Inv(t, w) && Ordered(t, w) && InOrder(t, w) && Enabled(t, w, a)
    ensures Ordered(t, Apply(t, w, a)) && InOrder(t, Apply(t, w, a))
  {
    hide Apply, Enabled, Turn, Others, Quiet, FrameOf, RequestOf, Pending, Mover, EmissionsOf, Before, Ordered;
    OrderedStep(t, w, a);
    StepPending(t, w, a);
    StepShape(t, w, a);
    var w' := Apply(t, w, a);
    if a.PierLock? {
      InOrderLock(t, w, w', a.p);
    } else if a.ClientTake? {
      TakeEmits(t, w);
      PendingLocked(w);
      if Pending(w) && !Pending(w') {
        InOrderTake(t, w, w');
      }
    }
  }

  lemma PendingLocked(w: World)
    ensures Pending(w) ==> w.lock.Some?
  {
  }
}
