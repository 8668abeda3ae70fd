/** The tunnel for one id: any number of Pier processes, one Connect, the client
    daemon, and one Respond process for each answer, as a transition system. A
    step is one system call or one delivery; steps come in any order. */
module Tunnel {
  import opened CString
  import opened CNumber
  import opened Frame
  import opened FrameRoundTrip
  import R = Request

  const PIPE_BUF := 4096

  /** The client, the CGI request behind each pid, and the local web server as an
      arbitrary function from request to response. */
  datatype Setup = Setup(client: R.Config, frames: map<int, Cgi>, server: string -> string)

  predicate ValidSetup(t: Setup) {
    forall p | p in t.frames :: 0 < p <= INT_MAX && ValidFrame(t.client, t.frames[p])
  }

  /** The pid line and the header block that Pier p prints. */
  function HeadOf(t: Setup, p: int): string
    requires ValidSetup(t) && p in t.frames
  {
    Head(p, t.frames[p])
  }

  /** All that Pier p writes to the shared FIFO. */
  function FrameOf(t: Setup, p: int): string
    requires ValidSetup(t) && p in t.frames
  {
    HeadOf(t, p) + t.frames[p].body
  }

  function RequestOf(t: Setup, p: int): string
    requires p in t.frames
  {
    Received(t.client, t.frames[p])
  }

  /** The response computed for p's own request. */
  function ResponseOf(t: Setup, p: int): string
    requires p in t.frames
  {
    t.server(RequestOf(t, p))
  }

  // ---------------------------------------------------------------------
  // States

  datatype Pc = Waiting | Locked | Writing | Closed | Reading | Finished | Done

  /** A Pier, with its private FIFO: the bytes in it and its open writers. */
  datatype Pier = Pier(pc: Pc, sent: nat, printed: string, inbox: string, writers: nat)

  const FRESH := Pier(Waiting, 0, "", "", 0)

  /** One write of Connect, which travels as one HTTP chunk. */
  datatype Item = Ping | Data(bytes: string)

  function Wire(i: Item): string {
    if i.Ping? then R.PING else i.bytes
  }

  datatype Client = Running(parser: R.State) | Exited

  /** A Respond process: the pid in its URI, what it still has to copy, whether
      it has opened the private FIFO. */
  datatype Job = Job(pid: int, left: string, isOpen: bool)

  /** What happened so far: pids in the order they got the lock, bytes written to
      the shared FIFO, data chunks sent by Connect, chunks given to Chunk, and
      requests emitted. No step looks at it. */
  datatype History = History(order: seq<int>, written: string, relayed: seq<string>, fed: seq<string>,
                             emitted: seq<R.Emission>)

  datatype World = World(piers: map<int, Pier>, lock: Option<int>, fifo: string, flight: seq<Item>,
                         client: Client, jobs: seq<Job>, past: History)

  function Start(t: Setup): World {
    World(map p | p in t.frames :: FRESH, None, "", [], Running(R.INITIAL), [], History([], "", [], [], []))
  }

  // ---------------------------------------------------------------------
  // Steps

  datatype Step =
    | PierLock(p: int)
    | PierOpen(p: int)
    | PierWrite(p: int, n: nat)
    | PierClose(p: int)
    | PierRead(p: int, n: nat)
    | PierEnd(p: int)
    | PierUnlock(p: int)
    | ConnectRead
    | ConnectPing
    | ClientTake
    | RespondOpen(i: nat)
    | RespondWrite(i: nat, n: nat)
    | RespondClose(i: nat)

  /** Sizes of a write to the shared FIFO: the header is one write, which is not
      split when it fits PIPE_BUF; after it the body goes in pieces. */
  predicate CanWrite(t: Setup, p: int, sent: nat, n: nat)
    requires ValidSetup(t) && p in t.frames
  {
    var head := |HeadOf(t, p)|;
    && 0 < n && sent + n <= |FrameOf(t, p)|
    && (sent < head ==> sent + n <= head && (head <= PIPE_BUF ==> sent == 0 && n == head))
  }

  predicate PcIs(w: World, p: int, pc: Pc) {
    p in w.piers && w.piers[p].pc == pc
  }

  predicate Enabled(t: Setup, w: World, a: Step)
    requires ValidSetup(t) && w.piers.Keys == t.frames.Keys
  {
    match a
    case PierLock(p) => PcIs(w, p, Waiting) && w.lock == None
    case PierOpen(p) => PcIs(w, p, Locked)
    case PierWrite(p, n) => PcIs(w, p, Writing) && CanWrite(t, p, w.piers[p].sent, n)
    case PierClose(p) => PcIs(w, p, Writing) && w.piers[p].sent >= |FrameOf(t, p)|
    case PierRead(p, n) => PcIs(w, p, Reading) && 0 < n <= |w.piers[p].inbox| && n <= PIPE_BUF
    case PierEnd(p) => PcIs(w, p, Reading) && w.piers[p].inbox == "" && w.piers[p].writers == 0
    case PierUnlock(p) => PcIs(w, p, Finished)
    case ConnectRead => w.fifo != ""
    case ConnectPing => true
    case ClientTake => w.flight != [] && w.client.Running?
    case RespondOpen(i) =>
      && i < |w.jobs| && !w.jobs[i].isOpen
      && (PcIs(w, w.jobs[i].pid, Closed) || PcIs(w, w.jobs[i].pid, Reading))
    case RespondWrite(i, n) =>
      && i < |w.jobs| && w.jobs[i].isOpen && 0 < n <= |w.jobs[i].left| && n <= PIPE_BUF
      && w.jobs[i].pid in w.piers
    case RespondClose(i) =>
      && i < |w.jobs| && w.jobs[i].isOpen && w.jobs[i].left == ""
      && w.jobs[i].pid in w.piers && w.piers[w.jobs[i].pid].writers > 0
  }

  function Move(w: World, p: int, pc: Pc): World
    requires p in w.piers
  {
    w.(piers := w.piers[p := w.piers[p].(pc := pc)])
  }

  function WriteFifo(t: Setup, w: World, p: int, n: nat): World
    requires ValidSetup(t) && p in t.frames && p in w.piers && w.piers[p].sent + n <= |FrameOf(t, p)|
  {
    var q := w.piers[p];
    var piece := FrameOf(t, p)[q.sent..q.sent + n];
    w.(piers := w.piers[p := q.(sent := q.sent + n)],
       fifo := w.fifo + piece,
       past := w.past.(written := w.past.written + piece))
  }

  function ReadSize(fifo: string): (n: nat)
    ensures n <= |fifo| && n < PIPE_BUF && (fifo != "" ==> n > 0)
  {
    if |fifo| < PIPE_BUF then |fifo| else PIPE_BUF - 1
  }

  function Relay(w: World): World {
    var n := ReadSize(w.fifo);
    w.(fifo := w.fifo[n..],
       flight := w.flight + [Data(w.fifo[..n])],
       past := w.past.(relayed := w.past.relayed + [w.fifo[..n]]))
  }

  /** doReadFromServer and Chunk on the next HTTP chunk. */
  function Take(t: Setup, w: World): World
    requires w.flight != [] && w.client.Running?
  {
    var chunk := Wire(w.flight[0]);
    var u := w.(flight := w.flight[1..]);
    if chunk == R.PING then u
    else
      var v := u.(past := u.past.(fed := u.past.fed + [chunk]));
      match R.Feed(t.client, w.client.parser, chunk)
      case Abort => v.(client := Exited)
      case Wait(st) => v.(client := Running(st))
      case Emit(st, pid, request) =>
        v.(client := Running(st),
           jobs := w.jobs + [Job(pid, t.server(request), false)],
           past := v.past.(emitted := v.past.emitted + [R.Emission(pid, request)]))
  }

  function ReadInbox(w: World, p: int, n: nat): World
    requires p in w.piers && n <= |w.piers[p].inbox|
  {
    var q := w.piers[p];
    w.(piers := w.piers[p := q.(printed := q.printed + q.inbox[..n], inbox := q.inbox[n..])])
  }

  function OpenInbox(w: World, i: nat): World
    requires i < |w.jobs| && w.jobs[i].pid in w.piers
  {
    var q := w.piers[w.jobs[i].pid];
    w.(piers := w.piers[w.jobs[i].pid := q.(pc := Reading, writers := q.writers + 1)],
       jobs := w.jobs[i := w.jobs[i].(isOpen := true)])
  }

  function WriteInbox(w: World, i: nat, n: nat): World
    requires i < |w.jobs| && w.jobs[i].pid in w.piers && n <= |w.jobs[i].left|
  {
    var q := w.piers[w.jobs[i].pid];
    w.(piers := w.piers[w.jobs[i].pid := q.(inbox := q.inbox + w.jobs[i].left[..n])],
       jobs := w.jobs[i := w.jobs[i].(left := w.jobs[i].left[n..])])
  }

  function CloseInbox(w: World, i: nat): World
    requires i < |w.jobs| && w.jobs[i].pid in w.piers && w.piers[w.jobs[i].pid].writers > 0
  {
    var q := w.piers[w.jobs[i].pid];
    w.(piers := w.piers[w.jobs[i].pid := q.(writers := q.writers - 1)],
       jobs := w.jobs[..i] + w.jobs[i + 1..])
  }

  function Apply(t: Setup, w: World, a: Step): (w': World)
    requires ValidSetup(t) && w.piers.Keys == t.frames.Keys && Enabled(t, w, a)
    ensures w'.piers.Keys == t.frames.Keys
  {
    match a
    case PierLock(p) => Move(w, p, Locked).(lock := Some(p), past := w.past.(order := w.past.order + [p]))
    case PierOpen(p) => Move(w, p, Writing)
    case PierWrite(p, n) => WriteFifo(t, w, p, n)
    case PierClose(p) => Move(w, p, Closed)
    case PierRead(p, n) => ReadInbox(w, p, n)
    case PierEnd(p) => Move(w, p, Finished)
    case PierUnlock(p) => Move(w, p, Done).(lock := None)
    case ConnectRead => Relay(w)
    case ConnectPing => w.(flight := w.flight + [Ping])
    case ClientTake => Take(t, w)
    case RespondOpen(i) => OpenInbox(w, i)
    case RespondWrite(i, n) => WriteInbox(w, i, n)
    case RespondClose(i) => CloseInbox(w, i)
  }

  /** `steps` can be taken one after the other from `w` and lead to `w'`. */
  predicate Reaches(t: Setup, w: World, steps: seq<Step>, w': World)
    requires ValidSetup(t) && w.piers.Keys == t.frames.Keys
    decreases |steps|
  {
    if steps == [] then w == w'
    else Enabled(t, w, steps[0]) && Reaches(t, Apply(t, w, steps[0]), steps[1..], w')
  }

  lemma {:induction false} ReachesAppend(t: Setup, w: World, a: seq<Step>, v: World, b: seq<Step>, u: World)
    requires ValidSetup(t) && w.piers.Keys == v.piers.Keys == t.frames.Keys
    requires Reaches(t, w, a, v) && Reaches(t, v, b, u)
    ensures Reaches(t, w, a + b, u)
    decreases |a|
  {
    hide R.Feed;
    if a == [] {
      assert a + b == b;
    } else {
      assert (a + b)[0] == a[0] && (a + b)[1..] == a[1..] + b;
      ReachesAppend(t, Apply(t, w, a[0]), a[1..], v, b, u);
    }
  }
}
