/** What holds in every state that the tunnel reaches, for any number of Piers
    and any order of steps. */
module TunnelTheorems {
  import opened CString
  import opened Tunnel
  import opened TunnelSafety
  import opened TunnelSteps
  import opened TunnelHistory

  predicate Good(t: Setup, w: World)
    requires ValidSetup(t)
  {
    Inv(t, w) && Ordered(t, w) && Separate(t, w) && InOrder(t, w) && Accounted(t, w)
  }

  lemma StartGood(t: Setup)
    requires ValidSetup(t)
    ensures Good(t, Start(t))
  {
    StartInv(t);
    assert EmissionsOf(t, []) == [];
  }

  lemma GoodStep(t: Setup, w: World, a: Step)
    requires ValidSetup(t) && Good(t, w) && Enabled(t, w, a)
    ensures Good(t, Apply(t, w, a))
  {
    hide Apply, Enabled, Turn, Quiet, Others, Separate, InOrder, Accounted, Ordered;
    StepKeeps(t, w, a);
    SeparateStep(t, w, a);
    InOrderStep(t, w, a);
    AccountedStep(t, w, a);
  }

  lemma {:induction false} GoodRun(t: Setup, w: World, steps: seq<Step>, w': World)
    requires ValidSetup(t) && Good(t, w) && Reaches(t, w, steps, w')
    ensures Good(t, w')
    decreases |steps|
  {
    hide Apply, Enabled, Turn, Quiet, Others, Separate, InOrder, Accounted, Ordered;
    if steps != [] {
      GoodStep(t, w, steps[0]);
      GoodRun(t, Apply(t, w, steps[0]), steps[1..], w');
    }
  }

  /** A Pier has printed no more than the front of its own response. */
  predicate OwnAnswer(t: Setup, p: int, q: Pier)
    requires p in t.frames
  {
    && q.printed <= ResponseOf(t, p)
    && (q.pc == Finished || q.pc == Done ==> q.printed == ResponseOf(t, p))
    && (q.pc == Done ==> q.inbox == "" && q.writers == 0)
  }

  lemma RoutingOne(t: Setup, w: World, p: int)
    requires ValidSetup(t) && Inv(t, w) && p in w.piers
    ensures OwnAnswer(t, p, w.piers[p])
  {
    hide Quiet, FrameOf, HeadOf, ResponseOf, InTransit;
    if w.lock == Some(p) {
      var q := w.piers[p];
      assert q.printed + "" == q.printed;
    } else {
      assert Resting(t, p, w.piers[p]);
    }
  }

  /** End-to-end routing: in every reachable state what a Pier has printed is the
      front of the response to its own request, and all of it once it has read to
      the end and unlocked. */
  lemma Routing(t: Setup, steps: seq<Step>, w: World)
    requires ValidSetup(t) && Reaches(t, Start(t), steps, w)
    ensures w.piers.Keys == t.frames.Keys
    ensures forall p | p in w.piers :: OwnAnswer(t, p, w.piers[p])
  {
    hide Reaches, OwnAnswer, Others, Turn, Quiet;
    StartInv(t);
    RunKeeps(t, Start(t), steps, w);
    forall p | p in w.piers
      ensures OwnAnswer(t, p, w.piers[p])
    {
      RoutingOne(t, w, p);
    }
  }

  /** Quiescence: while the lock is free nothing is under way but pings, the
      parser is idle and every request has been emitted. At no time is more than
      one request outstanding or more than one answer on its way. */
  lemma Quiescence(t: Setup, steps: seq<Step>, w: World)
    requires ValidSetup(t) && Reaches(t, Start(t), steps, w)
    ensures w.lock == None ==>
              && w.fifo == "" && DataBytes(w.flight) == "" && w.jobs == []
              && w.client.Running? && w.client.parser.buf == "" && w.client.parser.request == ""
              && !w.client.parser.inData
              && |w.past.emitted| == |w.past.order|
    ensures |w.jobs| <= 1 && |w.past.order| - 1 <= |w.past.emitted| <= |w.past.order|
    ensures forall i | 0 <= i < |w.past.emitted| ::
              w.past.order[i] in t.frames
              && w.past.emitted[i] == R.Emission(w.past.order[i], RequestOf(t, w.past.order[i]))
    ensures forall i, j | 0 <= i < j < |w.past.order| :: w.past.order[i] != w.past.order[j]
  {
    hide Reaches, FrameOf, ResponseOf, InTransit, Sending, Separate, Accounted, Others;
    StartGood(t);
    GoodRun(t, Start(t), steps, w);
  }

  /** Only the holder of the lock is between Waiting and Done. */
  lemma MutualExclusion(t: Setup, steps: seq<Step>, w: World, p: int)
    requires ValidSetup(t) && Reaches(t, Start(t), steps, w) && p in w.piers
    ensures w.lock == Some(p) <==> w.piers[p].pc != Waiting && w.piers[p].pc != Done
  {
    hide Reaches, Quiet, FrameOf, ResponseOf, InTransit, Separate, InOrder, Accounted, Ordered;
    StartGood(t);
    GoodRun(t, Start(t), steps, w);
    if w.lock != Some(p) {
      assert Resting(t, p, w.piers[p]);
    }
  }

  /** No interleaving: what was written to the shared FIFO is whole frames in lock
      order, then the front of the holder's. */
  lemma NoInterleaving(t: Setup, steps: seq<Step>, w: World)
    requires ValidSetup(t) && Reaches(t, Start(t), steps, w)
    ensures forall p | p in w.past.order :: p in t.frames
    ensures w.lock == None ==> w.past.written == FramesOf(t, w.past.order)
    ensures w.lock.Some? ==>
              && w.lock.value in t.frames && w.past.order == Before(w.past.order) + [w.lock.value]
              && (exists k: nat :: k <= |FrameOf(t, w.lock.value)|
                    && w.past.written == FramesOf(t, Before(w.past.order)) + FrameOf(t, w.lock.value)[..k])
  {
    hide Reaches, Quiet, Turn, Others, FrameOf, FramesOf, InOrder, Accounted;
    StartGood(t);
    GoodRun(t, Start(t), steps, w);
    if w.lock.Some? {
      var k := w.piers[w.lock.value].sent;
      assert w.past.written == FramesOf(t, Before(w.past.order)) + FrameOf(t, w.lock.value)[..k];
    }
  }

  // ---------------------------------------------------------------------
  // Conservation

  lemma {:induction false} FlatChunks(flight: seq<Item>)
    ensures Flat(Chunks(flight)) == DataBytes(flight)
  {
    if flight != [] {
      FlatChunks(flight[1..]);
      if flight[0].Data? {
        assert Chunks(flight)[1..] == Chunks(flight[1..]);
      } else {
        assert Chunks(flight) == Chunks(flight[1..]) && "" + DataBytes(flight[1..]) == DataBytes(flight[1..]);
      }
    }
  }

  lemma {:induction false} FlatKept(chunks: seq<string>)
    ensures |Flat(R.Kept(chunks))| <= |Flat(chunks)|
    ensures Flat(R.Kept(chunks)) == Flat(chunks) <==> R.PING !in chunks
    ensures R.Kept(chunks) == chunks <==> R.PING !in chunks
  {
    if chunks != [] {
      var front, x := chunks[..|chunks| - 1], chunks[|chunks| - 1];
      assert chunks == front + [x];
      FlatKept(front);
      R.KeptSnoc(front, x);
      FlatSnoc(front, x);
      assert R.PING in chunks <==> R.PING in front || x == R.PING;
      if x == R.PING {
        assert R.Kept(front) + [] == R.Kept(front);
        assert |Flat(chunks)| == |Flat(front)| + |R.PING|;
      } else {
        FlatSnoc(R.Kept(front), x);
        SameFront(Flat(R.Kept(front)), Flat(front), x);
        assert R.Kept(chunks)[..|R.Kept(front)|] == R.Kept(front);
      }
    }
  }

  lemma SameFront(a: string, b: string, x: string)
    ensures a + x == b + x <==> a == b
  {
    if a + x == b + x {
      assert a == (a + x)[..|a|] && b == (b + x)[..|b|];
    }
  }

  lemma TailGrows(a: string, b: string, x: string, c: string)
    requires R.IsTail(a, b) && R.IsTail(b + x, c)
    ensures R.IsTail(a + x, c)
  {
    assert R.IsTail(a + x, b + x);
    R.TailTrans(a + x, b + x, c);
  }

  /** The buffer of the parser is the end of all it was given. */
  lemma {:induction false} FedConserves(c: R.Config, st: R.State, before: string, chunks: seq<string>)
    requires R.IsTail(before, st.buf)
    requires R.FeedAll(c, st, chunks).Alive?
    ensures R.IsTail(before + Flat(chunks), R.FeedAll(c, st, chunks).st.buf)
    decreases |chunks|
  {
    hide R.Feed;
    if chunks == [] {
      assert before + "" == before;
    } else {
      var o := R.Feed(c, st, chunks[0]);
      R.FeedConserves(c, st, chunks[0]);
      TailGrows(before, st.buf, chunks[0], o.st.buf);
      FedConserves(c, o.st, before + chunks[0], chunks[1..]);
      Assoc(before, chunks[0], Flat(chunks[1..]));
    }
  }

  /** Conservation: the bytes written are the bytes of the chunks the client has
      taken, the data in flight and what is in the FIFO. When no chunk taken is
      the single byte '0', and only then, the bytes taken are bytes the parser has
      consumed and bytes in its buffer. */
  lemma Conservation(t: Setup, steps: seq<Step>, w: World)
    requires ValidSetup(t) && Reaches(t, Start(t), steps, w)
    ensures w.past.written == (Flat(Taken(w)) + DataBytes(w.flight)) + w.fifo
    ensures Flat(w.past.fed) == Flat(Taken(w)) <==> R.PING !in Taken(w)
    ensures w.client.Running? ==>
              && R.FeedAll(t.client, R.INITIAL, w.past.fed) == R.Alive(w.client.parser, w.past.emitted)
              && (exists consumed :: Flat(w.past.fed) == consumed + w.client.parser.buf)
  {
    hide Reaches, Inv, Ordered, Separate, InOrder, R.Kept, R.FeedAll;
    StartGood(t);
    GoodRun(t, Start(t), steps, w);
    FlatAppend(Taken(w), Chunks(w.flight));
    FlatChunks(w.flight);
    FlatKept(Taken(w));
    if w.client.Running? {
      FedConserves(t.client, R.INITIAL, "", w.past.fed);
      assert "" + Flat(w.past.fed) == Flat(w.past.fed);
      TailSplit(Flat(w.past.fed), w.client.parser.buf);
    }
  }

  lemma TailSplit(a: string, b: string)
    requires R.IsTail(a, b)
    ensures exists c :: a == c + b
  {
    assert a == a[..|a| - |b|] + b;
  }

  // ---------------------------------------------------------------------
  // Pings

  function WithoutPings(flight: seq<Item>): seq<Item> {
    if flight == [] then [] else (if flight[0].Ping? then [] else [flight[0]]) + WithoutPings(flight[1..])
  }

  lemma {:induction false} WithoutPingsSnoc(flight: seq<Item>, i: Item)
    ensures WithoutPings(flight + [i]) == WithoutPings(flight) + if i.Ping? then [] else [i]
  {
    if flight == [] {
      assert flight + [i] == [i];
      assert WithoutPings([i][1..]) == [];
    } else {
      assert (flight + [i])[0] == flight[0] && (flight + [i])[1..] == flight[1..] + [i];
      WithoutPingsSnoc(flight[1..], i);
    }
  }

  /** The same state with no ping in flight. */
  function Silent(w: World): World {
    w.(flight := WithoutPings(w.flight))
  }

  /** A step that sends a ping or takes one. */
  predicate PingStep(w: World, a: Step) {
    a.ConnectPing? || (a.ClientTake? && w.flight != [] && w.flight[0].Ping?)
  }

  /** The run without its pings. */
  function Erase(t: Setup, w: World, steps: seq<Step>): seq<Step>
    requires ValidSetup(t) && w.piers.Keys == t.frames.Keys
    decreases |steps|
  {
    if steps == [] || !Enabled(t, w, steps[0]) then []
    else (if PingStep(w, steps[0]) then [] else [steps[0]]) + Erase(t, Apply(t, w, steps[0]), steps[1..])
  }

  lemma SilentWire(t: Setup, w: World, a: Step)
    requires ValidSetup(t) && w.piers.Keys == t.frames.Keys && Enabled(t, w, a)
    requires a.ConnectRead? || a.ConnectPing? || a.ClientTake?
    ensures if PingStep(w, a) then Silent(Apply(t, w, a)) == Silent(w)
            else Enabled(t, Silent(w), a) && Apply(t, Silent(w), a) == Silent(Apply(t, w, a))
  {
    hide R.Feed, ValidSetup, ReadSize;
    match a
    case ConnectRead => WithoutPingsSnoc(w.flight, Data(w.fifo[..ReadSize(w.fifo)]));
    case ConnectPing => WithoutPingsSnoc(w.flight, Ping);
    case ClientTake => TakeSilent(w.flight);
  }

  lemma SilentInbox(t: Setup, w: World, a: Step)
    requires ValidSetup(t) && w.piers.Keys == t.frames.Keys && Enabled(t, w, a)
    requires a.RespondOpen? || a.RespondWrite? || a.RespondClose?
    ensures Enabled(t, Silent(w), a) && Apply(t, Silent(w), a) == Silent(Apply(t, w, a))
  {
    hide ValidSetup, WithoutPings;
  }

  lemma SilentPier(t: Setup, w: World, a: Step)
    requires ValidSetup(t) && w.piers.Keys == t.frames.Keys && Enabled(t, w, a)
    requires a.PierLock? || a.PierOpen? || a.PierWrite? || a.PierClose? || a.PierRead? || a.PierEnd? || a.PierUnlock?
    ensures Enabled(t, Silent(w), a) && Apply(t, Silent(w), a) == Silent(Apply(t, w, a))
  {
    hide FrameOf, HeadOf, WithoutPings, ValidSetup;
  }

  lemma SilentStep(t: Setup, w: World, a: Step)
    requires ValidSetup(t) && w.piers.Keys == t.frames.Keys && Enabled(t, w, a)
    ensures if PingStep(w, a) then Silent(Apply(t, w, a)) == Silent(w)
            else Enabled(t, Silent(w), a) && Apply(t, Silent(w), a) == Silent(Apply(t, w, a))
  {
    hide Apply, Enabled;
    if a.ConnectRead? || a.ConnectPing? || a.ClientTake? {
      SilentWire(t, w, a);
    } else if a.RespondOpen? || a.RespondWrite? || a.RespondClose? {
      SilentInbox(t, w, a);
    } else {
      SilentPier(t, w, a);
    }
  }

  lemma TakeSilent(flight: seq<Item>)
    requires flight != []
    ensures if flight[0].Ping? then WithoutPings(flight[1..]) == WithoutPings(flight)
            else WithoutPings(flight) != [] && WithoutPings(flight)[0] == flight[0]
                 && WithoutPings(flight)[1..] == WithoutPings(flight[1..])
  {
  }

  /** Ping transparency: take all pings out of a run, wherever they were, and it
      is still a run, to the same state: same bytes to the parser, same requests
      emitted, same output. */
  lemma {:induction false} PingTransparency(t: Setup, w: World, steps: seq<Step>, w': World)
    requires ValidSetup(t) && w.piers.Keys == t.frames.Keys && Reaches(t, w, steps, w')
    ensures Reaches(t, Silent(w), Erase(t, w, steps), Silent(w'))
    ensures Silent(w').past == w'.past && Silent(w').piers == w'.piers && Silent(w').client == w'.client
    decreases |steps|
  {
    hide Apply, Enabled;
    if steps != [] {
      var u := Apply(t, w, steps[0]);
      SilentStep(t, w, steps[0]);
      PingTransparency(t, u, steps[1..], w');
      if PingStep(w, steps[0]) {
        assert Erase(t, w, steps) == Erase(t, u, steps[1..]);
      } else {
        assert Erase(t, w, steps) == [steps[0]] + Erase(t, u, steps[1..]);
        assert Erase(t, w, steps)[1..] == Erase(t, u, steps[1..]);
      }
    }
  }
}
