/** The tunnel gets on: every step but a ping uses up some work, and a tunnel that
    has not failed can take a step until every Pier is done. */
module TunnelProgress {
  import opened CString
  import opened Tunnel
  import opened TunnelSafety
  import opened TunnelSteps
  import opened TunnelHistory

  // ---------------------------------------------------------------------
  // Work

  function PcRank(pc: Pc): nat {
    match pc
    case Waiting => 8
    case Locked => 7
    case Writing => 6
    case Closed => 5
    case Reading => 4
    case Finished => 3
    case Done => 0
  }

  /** Work for the answer, from the time the request is on its way. */
  function Owed(t: Setup, p: int): nat
    requires p in t.frames
  {
    3 * |ResponseOf(t, p)| + 3
  }

  /** The steps a Pier still has to make: it writes what it has not sent, reads
      what is in its FIFO. */
  function Rank(t: Setup, p: int, q: Pier): nat
    requires ValidSetup(t) && p in t.frames
  {
    PcRank(q.pc) + 2 * |q.inbox|
    + (if q.sent <= |FrameOf(t, p)| then 3 * (|FrameOf(t, p)| - q.sent) else 0)
    + (if q.pc == Waiting then Owed(t, p) else 0)
  }

  lemma SomeMember(s: set<int>)
    requires s != {}
    ensures exists p :: p in s
  {
    assert (forall p :: p !in s) ==> s == {};
  }

  ghost function Pick(s: set<int>): (p: int)
    requires s != {}
    ensures p in s
  {
    SomeMember(s);
    var p :| p in s; p
  }

  ghost function Sum(t: Setup, piers: map<int, Pier>, s: set<int>): nat
    requires ValidSetup(t) && s <= t.frames.Keys && s <= piers.Keys
  {
    if s == {} then 0
    else Rank(t, Pick(s), piers[Pick(s)]) + Sum(t, piers, s - {Pick(s)})
  }

  function RankIn(t: Setup, piers: map<int, Pier>, s: set<int>, p: int): nat
    requires ValidSetup(t) && s <= t.frames.Keys && s <= piers.Keys
  {
    if p in s then Rank(t, p, piers[p]) else 0
  }

  lemma {:induction false} SumMoves(t: Setup, a: map<int, Pier>, b: map<int, Pier>, s: set<int>, p: int)
    requires ValidSetup(t) && s <= t.frames.Keys && s <= a.Keys && s <= b.Keys
    requires forall q | q in s && q != p :: a[q] == b[q]
    ensures Sum(t, b, s) + RankIn(t, a, s, p) == Sum(t, a, s) + RankIn(t, b, s, p)
    decreases |s|
  {
    hide Rank;
    if s != {} {
      SumMoves(t, a, b, s - {Pick(s)}, p);
    }
  }

  function JobWork(jobs: seq<Job>): nat {
    if jobs == [] then 0 else 3 * |jobs[0].left| + if jobs[0].isOpen then 1 else 2
  }

  /** Work under way between the processes. */
  function Underway(t: Setup, w: World): nat
    requires ValidSetup(t) && w.piers.Keys == t.frames.Keys
  {
    2 * |w.fifo| + |w.flight| + JobWork(w.jobs)
    + (if Pending(w) then Owed(t, w.lock.value) else 0)
  }

  ghost function Work(t: Setup, w: World): nat
    requires ValidSetup(t) && w.piers.Keys == t.frames.Keys
  {
    Sum(t, w.piers, w.piers.Keys) + Underway(t, w)
  }

  /** What a step does to the rank of the Pier it moves and to the work under way. */
  predicate Uses(t: Setup, w: World, a: Step, w': World)
    requires ValidSetup(t) && w.piers.Keys == t.frames.Keys && w'.piers.Keys == t.frames.Keys
  {
    var s, p := t.frames.Keys, Mover(w, a);
    RankIn(t, w'.piers, s, p) + Underway(t, w') < RankIn(t, w.piers, s, p) + Underway(t, w)
  }

  lemma LockUses(t: Setup, w: World, p: int)
    requires ValidSetup(t) && Inv(t, w) && Enabled(t, w, PierLock(p))
    ensures Uses(t, w, PierLock(p), Apply(t, w, PierLock(p)))
  {
    hide Turn, Others, FrameOf, ResponseOf;
  }

  lemma WriteUses(t: Setup, w: World, p: int, n: nat)
    requires ValidSetup(t) && Inv(t, w) && Enabled(t, w, PierWrite(p, n))
    ensures Uses(t, w, PierWrite(p, n), Apply(t, w, PierWrite(p, n)))
  {
    hide Turn, Others, FrameOf, ResponseOf, Quiet, HeadOf;
    ActiveHolds(t, w, p);
  }

  lemma MoveUses(t: Setup, w: World, a: Step)
    requires ValidSetup(t) && Inv(t, w) && Enabled(t, w, a)
    requires a.PierOpen? || a.PierClose? || a.PierEnd? || a.PierUnlock?
    ensures Uses(t, w, a, Apply(t, w, a))
  {
    hide Turn, Others, FrameOf, HeadOf, ResponseOf, Quiet, Pending;
    ActiveHolds(t, w, Mover(w, a));
    PierPending(t, w, a);
    PendingLocked(Apply(t, w, a));
  }

  lemma InboxReadUses(t: Setup, w: World, p: int, n: nat)
    requires ValidSetup(t) && Inv(t, w) && Enabled(t, w, PierRead(p, n))
    ensures Uses(t, w, PierRead(p, n), Apply(t, w, PierRead(p, n)))
  {
    hide Turn, Others, FrameOf, HeadOf, ResponseOf, Quiet, Pending;
    ActiveHolds(t, w, p);
    PierPending(t, w, PierRead(p, n));
  }

  lemma PierUses(t: Setup, w: World, a: Step)
    requires ValidSetup(t) && Inv(t, w) && Enabled(t, w, a)
    requires a.PierOpen? || a.PierClose? || a.PierRead? || a.PierEnd? || a.PierUnlock?
    ensures Uses(t, w, a, Apply(t, w, a))
  {
    hide Apply, Enabled, Turn, Others, Quiet, Uses;
    if a.PierRead? {
      InboxReadUses(t, w, a.p, a.n);
    } else {
      MoveUses(t, w, a);
    }
  }

  lemma InboxUses(t: Setup, w: World, a: Step)
    requires ValidSetup(t) && Inv(t, w) && Enabled(t, w, a)
    requires a.RespondOpen? || a.RespondWrite? || a.RespondClose?
    ensures Uses(t, w, a, Apply(t, w, a))
  {
    hide Turn, Others, FrameOf, HeadOf, ResponseOf, Quiet, Pending;
    OnlyAnswering(t, w);
    InboxPending(t, w, a);
  }

  lemma ReadUses(t: Setup, w: World)
    requires ValidSetup(t) && Inv(t, w) && Enabled(t, w, ConnectRead)
    ensures Uses(t, w, ConnectRead, Apply(t, w, ConnectRead))
  {
    hide Turn, Others, FrameOf, ResponseOf, Quiet, Rank;
  }

  /** The client takes a chunk, and may begin the answer to the holder. */
  lemma TakeShape(t: Setup, w: World)
    requires ValidSetup(t) && Inv(t, w) && Enabled(t, w, ClientTake)
    ensures var w' := Apply(t, w, ClientTake);
            && w'.piers == w.piers && w'.lock == w.lock && w'.fifo == w.fifo && w'.flight == w.flight[1..]
            && (w'.jobs == w.jobs
                || (Pending(w) && w'.jobs == [Job(w.lock.value, ResponseOf(t, w.lock.value), false)]))
  {
    hide R.Feed, Turn, Others, Quiet, RequestOf, Pending, FrameOf;
    EmitsForHolder(t, w);
  }

  lemma TakeUses(t: Setup, w: World)
    requires ValidSetup(t) && Inv(t, w) && Enabled(t, w, ClientTake)
    ensures Uses(t, w, ClientTake, Apply(t, w, ClientTake))
  {
    hide Apply, Rank, Turn, Others, Quiet, ResponseOf;
    TakeShape(t, w);
  }

  lemma StepUses(t: Setup, w: World, a: Step)
    requires ValidSetup(t) && Inv(t, w) && Enabled(t, w, a) && !a.ConnectPing?
    ensures Uses(t, w, a, Apply(t, w, a))
  {
    hide Apply, Turn, Quiet, Others, Uses;
    match a
    case PierLock(p) => LockUses(t, w, p);
    case PierWrite(p, n) => WriteUses(t, w, p, n);
    case RespondOpen(i) => InboxUses(t, w, a);
    case RespondWrite(i, n) => InboxUses(t, w, a);
    case RespondClose(i) => InboxUses(t, w, a);
    case ConnectRead => ReadUses(t, w);
    case ClientTake => TakeUses(t, w);
    case ConnectPing =>
    case _ => PierUses(t, w, a);
  }

  /** Every step but a ping uses up work; a ping adds one unit. */
  lemma StepWork(t: Setup, w: World, a: Step)
    requires ValidSetup(t) && Inv(t, w) && Enabled(t, w, a)
    ensures if a.ConnectPing? then Work(t, Apply(t, w, a)) == Work(t, w) + 1
            else Work(t, Apply(t, w, a)) < Work(t, w)
  {
    hide Turn, Quiet, Others, Rank, Enabled;
    if !a.ConnectPing? {
      hide Apply, Underway;
      StepUses(t, w, a);
      StepShape(t, w, a);
      SumMoves(t, w.piers, Apply(t, w, a).piers, t.frames.Keys, Mover(w, a));
    }
  }

  function Pings(steps: seq<Step>): nat {
    if steps == [] then 0 else (if steps[0].ConnectPing? then 1 else 0) + Pings(steps[1..])
  }

  /** A run is no longer than the work there is, and two steps for each ping. */
  lemma {:induction false} RunIsBounded(t: Setup, w: World, steps: seq<Step>, w': World)
    requires ValidSetup(t) && Inv(t, w) && Reaches(t, w, steps, w')
    ensures w'.piers.Keys == t.frames.Keys
    ensures |steps| + Work(t, w') <= Work(t, w) + 2 * Pings(steps)
    decreases |steps|
  {
    hide Apply, Enabled, Inv, Work;
    InvKeys(t, w);
    if steps != [] {
      StepWork(t, w, steps[0]);
      StepKeeps(t, w, steps[0]);
      RunIsBounded(t, Apply(t, w, steps[0]), steps[1..], w');
    }
  }

  // ---------------------------------------------------------------------
  // No deadlock

  /** The holder of the lock can be served no more. */
  predicate Stuck(t: Setup, w: World)
    requires ValidSetup(t) && w.piers.Keys == t.frames.Keys
  {
    w.lock.Some? && w.lock.value in w.piers && (Lost(t, w, w.lock.value) || Crashed(t, w, w.lock.value))
  }

  predicate AllDone(w: World) {
    forall p | p in w.piers :: w.piers[p].pc == Done
  }

  lemma AskingGoesOn(t: Setup, w: World, p: int) returns (a: Step)
    requires ValidSetup(t) && w.piers.Keys == t.frames.Keys && p in w.piers && Asking(t, w, p)
    ensures Enabled(t, w, a) && !a.ConnectPing?
  {
    hide HeadOf, Parsed, HeadWhole;
    var q := w.piers[p];
    if w.flight != [] {
      a := ClientTake;
    } else if w.fifo != "" {
      a := ConnectRead;
    } else if q.pc == Locked {
      a := PierOpen(p);
    } else {
      assert q.pc == Writing && q.sent < |FrameOf(t, p)|;
      a := PierWrite(p, if q.sent < |HeadOf(t, p)| then |HeadOf(t, p)| - q.sent else |FrameOf(t, p)| - q.sent);
    }
  }

  lemma AnsweringGoesOn(t: Setup, w: World, p: int) returns (a: Step)
    requires ValidSetup(t) && w.piers.Keys == t.frames.Keys && p in w.piers && Answering(t, w, p)
    ensures Enabled(t, w, a) && !a.ConnectPing?
  {
    hide FrameOf, ResponseOf, Quiet;
    var q, j := w.piers[p], w.jobs[0];
    if q.pc == Writing {
      a := PierClose(p);
    } else if !j.isOpen {
      a := RespondOpen(0);
    } else if j.left != "" {
      a := RespondWrite(0, if |j.left| < PIPE_BUF then |j.left| else PIPE_BUF);
    } else {
      a := RespondClose(0);
    }
  }

  lemma AnsweredGoesOn(t: Setup, w: World, p: int) returns (a: Step)
    requires ValidSetup(t) && w.piers.Keys == t.frames.Keys && p in w.piers && Answered(t, w, p)
    ensures Enabled(t, w, a) && !a.ConnectPing?
  {
    hide FrameOf, ResponseOf, Quiet;
    var q := w.piers[p];
    if q.pc == Finished {
      a := PierUnlock(p);
    } else if q.inbox != "" {
      a := PierRead(p, if |q.inbox| < PIPE_BUF then |q.inbox| else PIPE_BUF);
    } else {
      a := PierEnd(p);
    }
  }

  /** A tunnel that is not stuck can go on, without a ping, until all is done. */
  lemma GoesOn(t: Setup, w: World) returns (a: Step)
    requires ValidSetup(t) && Inv(t, w) && !Stuck(t, w) && !AllDone(w)
    ensures Enabled(t, w, a) && !a.ConnectPing?
  {
    hide Asking, Answering, Answered, Lost, Crashed, Quiet, FrameOf, ResponseOf;
    if w.lock == None {
      var p :| p in w.piers && w.piers[p].pc != Done;
      assert Resting(t, p, w.piers[p]);
      a := PierLock(p);
    } else {
      var p := w.lock.value;
      if Asking(t, w, p) {
        a := AskingGoesOn(t, w, p);
      } else if Answering(t, w, p) {
        a := AnsweringGoesOn(t, w, p);
      } else {
        a := AnsweredGoesOn(t, w, p);
      }
    }
  }
}
