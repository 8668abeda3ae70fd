/** Exact transfers: the retry loops around read and write, and the SOCKS5 request
    and reply that go through them. */
module Transfer {
  type Octet = n: int | 0 <= n < 256

  /** The result of a system call: it moves up to so many bytes, is to be repeated
      (EINTR, EAGAIN), or fails. */
  datatype Io = Moves(n: nat) | Again | Error

  function Min(a: int, b: int): int {
    if a < b then a else b
  }

  const AGAIN := -1
  const ERROR := -2

  /** A call for `count` bytes, at most `limit` of which are to be had. */
  function Result(schedule: seq<Io>, count: nat, limit: nat): (r: int)
    ensures r == AGAIN || r == ERROR || (0 <= r <= count && r <= limit)
    ensures schedule == [] ==> r == 0
  {
    if schedule == [] then 0
    else
      match schedule[0]
      case Moves(n) => Min(Min(n, count), limit)
      case Again => AGAIN
      case Error => ERROR
  }

  function After(schedule: seq<Io>): seq<Io> {
    if schedule == [] then [] else schedule[1..]
  }

  /** `data` written over the bytes at `from`. */
  function Stored(b: seq<Octet>, from: nat, data: seq<Octet>): (r: seq<Octet>)
    requires from + |data| <= |b|
    ensures |r| == |b|
  {
    b[..from] + data + b[from + |data|..]
  }

  lemma StoredNothing(b: seq<Octet>, from: nat, all: seq<Octet>)
    requires from <= |b|
    ensures Stored(b, from, all[..0]) == b && all[0..] == all
  {
  }

  lemma StoredNext(b: seq<Octet>, from: nat, all: seq<Octet>, i: nat)
    requires i < |all| && from + i < |b|
    ensures Stored(b, from, all[..i])[from + i := all[i]] == Stored(b, from, all[..i + 1])
  {
  }

  lemma FrontStored(b: seq<Octet>, from: nat, data: seq<Octet>)
    requires from + |data| <= |b|
    ensures Stored(b, from, data)[..from + |data|] == b[..from] + data
  {
  }

  /** A socket or pipe: results of the calls to come (0, the end, behind them), the
      bytes written to it, the bytes that can be read from it. */
  class Descriptor {
    var schedule: seq<Io>
    var sent: seq<Octet>
    var coming: seq<Octet>

    constructor (schedule: seq<Io>, coming: seq<Octet>)
      ensures this.schedule == schedule && this.coming == coming && sent == []
    {
      this.schedule, this.coming, sent := schedule, coming, [];
    }

    /** write(2). */
    method Write(b: array<Octet>, from: nat, count: nat) returns (res: int)
      requires from + count <= b.Length
      modifies this
      ensures res == Result(old(schedule), count, count) && schedule == After(old(schedule))
      ensures coming == old(coming)
      ensures sent == if res > 0 then old(sent) + b[from..from + res] else old(sent)
    {
      res := Result(schedule, count, count);
      schedule := After(schedule);
      if res > 0 {
        sent := sent + b[from..from + res];
      }
    }

    /** read(2). */
    method Read(b: array<Octet>, from: nat, count: nat) returns (res: int)
      requires from + count <= b.Length
      modifies this, b
      ensures res == Result(old(schedule), count, |old(coming)|) && schedule == After(old(schedule))
      ensures sent == old(sent) && res <= |old(coming)|
      ensures coming == if res > 0 then old(coming)[res..] else old(coming)
      ensures b[..] == if res > 0 then Stored(old(b[..]), from, old(coming)[..res]) else old(b[..])
    {
      hide Stored, Result;
      res := Result(schedule, count, |coming|);
      schedule := After(schedule);
      if res > 0 {
        StoredNothing(b[..], from, coming);
        for i := 0 to res
          invariant coming == old(coming) && sent == old(sent) && schedule == After(old(schedule))
          invariant b[..] == Stored(old(b[..]), from, coming[..i])
        {
          StoredNext(old(b[..]), from, coming, i);
          b[from + i] := coming[i];
        }
        coming := coming[res..];
      }
    }
  }

  // ---------------------------------------------------------------------
  // AtomIO

  datatype Stop = Full | Eof | Failed

  datatype Tally = Tally(moved: nat, stop: Stop, rest: seq<Io>)

  /** AtomIO over a schedule, `pos` of `n` bytes moved, `limit` to be had in all. */
  function Atom(schedule: seq<Io>, pos: nat, n: nat, limit: nat): (r: Tally)
    ensures pos <= n ==> pos <= r.moved <= n
    ensures pos <= limit ==> r.moved <= limit
    ensures r.stop == Full <==> r.moved >= n
    decreases |schedule|
  {
    if pos >= n then Tally(pos, Full, schedule)
    else
      var res := Result(schedule, n - pos, if limit > pos then limit - pos else 0);
      if res == AGAIN then Atom(After(schedule), pos, n, limit)
      else if res == ERROR then Tally(pos, Failed, After(schedule))
      else if res == 0 then Tally(pos, Eof, After(schedule))
      else Atom(After(schedule), pos + res, n, limit)
  }

  /** The counter AtomIO returns. */
  function Counter(r: Tally): nat {
    if r.stop == Failed then 0 else r.moved
  }

  /** AtomIO with write: exactly a front of the buffer goes out, all of it when the
      counter says so. */
  method AtomWrite(fd: Descriptor, b: array<Octet>, n: nat) returns (count: nat)
    requires n <= b.Length
    modifies fd
    ensures var r := Atom(old(fd.schedule), 0, n, n);
            && count == Counter(r) && fd.schedule == r.rest
            && fd.sent == old(fd.sent) + b[..r.moved] && fd.coming == old(fd.coming)
  {
    hide Result;
    var pos: nat := 0;
    assert fd.sent == old(fd.sent) + b[..0];
    while n > pos
      invariant pos <= n && fd.coming == old(fd.coming) && fd.sent == old(fd.sent) + b[..pos]
      invariant Atom(old(fd.schedule), 0, n, n) == Atom(fd.schedule, pos, n, n)
      decreases |fd.schedule|, n - pos
    {
      var res := fd.Write(b, pos, n - pos);
      if res == AGAIN {
        continue;
      } else if res == ERROR {
        return 0;
      } else if res == 0 {
        return pos;
      }
      assert b[..pos + res] == b[..pos] + b[pos..pos + res];
      pos := pos + res;
    }
    return pos;
  }

  lemma StoredMore(b: seq<Octet>, all: seq<Octet>, pos: nat, res: nat)
    requires pos + res <= |all| && pos + res <= |b|
    ensures Stored(Stored(b, 0, all[..pos]), pos, all[pos..][..res]) == Stored(b, 0, all[..pos + res])
    ensures all[pos..][res..] == all[pos + res..]
  {
  }

  /** AtomIO with read: exactly a front of what comes is taken and stored. */
  method AtomRead(fd: Descriptor, b: array<Octet>, n: nat) returns (count: nat)
    requires n <= b.Length
    modifies fd, b
    ensures var r := Atom(old(fd.schedule), 0, n, |old(fd.coming)|);
            && count == Counter(r) && fd.schedule == r.rest && fd.sent == old(fd.sent)
            && r.moved <= |old(fd.coming)| && fd.coming == old(fd.coming)[r.moved..]
            && b[..] == Stored(old(b[..]), 0, old(fd.coming)[..r.moved])
  {
    hide Result, Stored;
    var pos: nat := 0;
    ghost var all, was := fd.coming, b[..];
    StoredNothing(was, 0, all);
    while n > pos
      invariant pos <= n && pos <= |all| && fd.sent == old(fd.sent) && fd.coming == all[pos..]
      invariant b[..] == Stored(was, 0, all[..pos])
      invariant Atom(old(fd.schedule), 0, n, |all|) == Atom(fd.schedule, pos, n, |all|)
      decreases |fd.schedule|, n - pos
    {
      var res := fd.Read(b, pos, n - pos);
      if res == AGAIN {
        continue;
      } else if res == ERROR {
        return 0;
      } else if res == 0 {
        return pos;
      }
      StoredMore(was, all, pos, res);
      pos := pos + res;
    }
    return pos;
  }

  /** What the caller compares: for n > 0 the counter is n exactly when n bytes were
      moved. */
  lemma CounterIsExact(schedule: seq<Io>, n: nat, limit: nat)
    requires n > 0
    ensures Counter(Atom(schedule, 0, n, limit)) == n <==> Atom(schedule, 0, n, limit).stop == Full
    ensures Atom(schedule, 0, n, limit).stop == Full <==> Atom(schedule, 0, n, limit).moved == n
  {
  }

  function WithoutAgain(schedule: seq<Io>): seq<Io> {
    if schedule == [] then []
    else (if schedule[0] == Again then [] else [schedule[0]]) + WithoutAgain(schedule[1..])
  }

  lemma WithoutAgainStep(schedule: seq<Io>, count: nat, limit: nat)
    requires schedule != []
    ensures schedule[0] == Again ==> WithoutAgain(schedule) == WithoutAgain(schedule[1..])
    ensures schedule[0] != Again ==>
              && Result(WithoutAgain(schedule), count, limit) == Result(schedule, count, limit)
              && After(WithoutAgain(schedule)) == WithoutAgain(schedule[1..])
    ensures Result(schedule, count, limit) == AGAIN <==> schedule[0] == Again
  {
  }

  /** Interruptions change nothing but the number of calls. */
  lemma {:induction false} AgainIsHarmless(schedule: seq<Io>, pos: nat, n: nat, limit: nat)
    ensures Atom(WithoutAgain(schedule), pos, n, limit).moved == Atom(schedule, pos, n, limit).moved
    ensures Atom(WithoutAgain(schedule), pos, n, limit).stop == Atom(schedule, pos, n, limit).stop
    decreases |schedule|
  {
    if schedule == [] {
      assert WithoutAgain([]) == [];
    } else if pos < n {
      hide WithoutAgain, Result;
      var left := if limit > pos then limit - pos else 0;
      WithoutAgainStep(schedule, n - pos, left);
      var res := Result(schedule, n - pos, left);
      if res == AGAIN || res > 0 {
        AgainIsHarmless(schedule[1..], if res == AGAIN then pos else pos + res, n, limit);
      }
    }
  }

  /** Short transfers only. */
  predicate Moving(schedule: seq<Io>) {
    forall i | 0 <= i < |schedule| :: schedule[i] != Error && schedule[i] != Moves(0)
  }

  function Capacity(schedule: seq<Io>): nat {
    if schedule == [] then 0
    else (if schedule[0].Moves? then schedule[0].n else 0) + Capacity(schedule[1..])
  }

  /** Enough short transfers in any cut make the whole one. */
  lemma {:induction false} ShortTransfersAdd(schedule: seq<Io>, pos: nat, n: nat, limit: nat)
    requires Moving(schedule) && pos <= n <= limit && n - pos <= Capacity(schedule)
    ensures Atom(schedule, pos, n, limit).stop == Full && Atom(schedule, pos, n, limit).moved == n
    decreases |schedule|
  {
    if pos < n {
      assert Moving(schedule[1..]);
      var res := Result(schedule, n - pos, limit - pos);
      assert schedule[0] != Error && schedule[0] != Moves(0);
      ShortTransfersAdd(schedule[1..], if res == AGAIN then pos else pos + res, n, limit);
    }
  }

  /** A call that ends every transfer: an error, or nothing moved. */
  predicate Ends(schedule: seq<Io>, k: nat) {
    k == |schedule| || (k < |schedule| && (schedule[k] == Error || schedule[k] == Moves(0)))
  }

  lemma MovingTail(schedule: seq<Io>, k: nat)
    requires 0 < k <= |schedule| && Moving(schedule[..k]) && Ends(schedule, k)
    ensures schedule[0] != Error && schedule[0] != Moves(0)
    ensures schedule[1..][..k - 1] == schedule[..k][1..] && Moving(schedule[1..][..k - 1]) && Ends(schedule[1..], k - 1)
    ensures Capacity(schedule[..k])
         == (if schedule[0].Moves? then schedule[0].n else 0) + Capacity(schedule[1..][..k - 1])
  {
    var front := schedule[..k];
    assert schedule[0] == front[0] && front[1..] == schedule[1..][..k - 1];
    assert forall j | 0 <= j < k - 1 :: front[1..][j] == front[j + 1];
  }

  /** AtomIO exactly, for any schedule: with `k` the first call that fails or moves
      nothing, it moves what the calls before it can, up to `n`; it ends as failed
      exactly when it has to make that call and the call is an error. */
  lemma {:induction false} AtomExactly(schedule: seq<Io>, k: nat, pos: nat, n: nat, limit: nat)
    requires k <= |schedule| && Moving(schedule[..k]) && Ends(schedule, k) && pos <= n <= limit
    ensures var r, c := Atom(schedule, pos, n, limit), pos + Capacity(schedule[..k]);
            && r.moved == Min(n, c)
            && r.stop == (if n <= c then Full else if k < |schedule| && schedule[k] == Error then Failed else Eof)
    decreases |schedule|
  {
    hide Moving, Capacity, Ends;
    NothingYet(schedule);
    if pos < n {
      if k == 0 {
        EndCall(schedule, n - pos, limit - pos);
      } else {
        MovingTail(schedule, k);
        var res := Result(schedule, n - pos, limit - pos);
        var pos' := if res == AGAIN then pos else pos + res;
        AtomExactly(schedule[1..], k - 1, pos', n, limit);
      }
    }
  }

  /** Asked for more than there is to be had, it moves that at most, and never says
      that it is done. */
  lemma {:induction false} AtomStarved(schedule: seq<Io>, k: nat, pos: nat, n: nat, limit: nat)
    requires k <= |schedule| && Moving(schedule[..k]) && Ends(schedule, k) && pos <= limit < n
    ensures var r, c := Atom(schedule, pos, n, limit), pos + Capacity(schedule[..k]);
            && r.moved == Min(limit, c) && r.stop != Full
            && (c < limit ==> r.stop == if k < |schedule| && schedule[k] == Error then Failed else Eof)
    decreases |schedule|
  {
    hide Moving, Capacity, Ends;
    NothingYet(schedule);
    if k == 0 {
      EndCall(schedule, n - pos, limit - pos);
    } else {
      MovingTail(schedule, k);
      var res := Result(schedule, n - pos, limit - pos);
      if res == AGAIN || res > 0 {
        AtomStarved(schedule[1..], k - 1, if res == AGAIN then pos else pos + res, n, limit);
      }
    }
  }

  lemma NothingYet(schedule: seq<Io>)
    ensures Capacity(schedule[..0]) == 0
  {
  }

  lemma EndCall(schedule: seq<Io>, count: nat, limit: nat)
    requires Ends(schedule, 0)
    ensures Result(schedule, count, limit) == if schedule != [] && schedule[0] == Error then ERROR else 0
  {
  }

  // ---------------------------------------------------------------------
  // Write

  /** Write over a schedule: it goes on until a call moves nothing, so one more call
      follows the last byte. */
  function Plain(schedule: seq<Io>, t: nat, len: nat): (r: Tally)
    ensures t <= r.moved <= t + len
    ensures r.stop == Full ==> r.moved == t + len
    ensures r.stop == Eof ==> r.moved < t + len
    decreases |schedule|
  {
    var res := Result(schedule, len, len);
    if res == AGAIN then Plain(After(schedule), t, len)
    else if res == ERROR then Tally(t, Failed, After(schedule))
    else if res == 0 then Tally(t, if len == 0 then Full else Eof, After(schedule))
    else Plain(After(schedule), t + res, len - res)
  }

  /** Write: exactly a front of the data goes out, all of it when the counter says
      so. `errno` tells whether errno is set on return. */
  method Write(fd: Descriptor, data: array<Octet>, len: nat) returns (count: nat, errno: bool)
    requires len <= data.Length
    modifies fd
    ensures var r := Plain(old(fd.schedule), 0, len);
            && count == Counter(r) && (errno <==> r.stop == Failed) && fd.schedule == r.rest
            && fd.sent == old(fd.sent) + data[..r.moved] && fd.coming == old(fd.coming)
  {
    hide Result;
    var t: nat, left: nat := 0, len;
    assert fd.sent == old(fd.sent) + data[..0];
    while true
      invariant t + left == len && fd.coming == old(fd.coming) && fd.sent == old(fd.sent) + data[..t]
      invariant Plain(old(fd.schedule), 0, len) == Plain(fd.schedule, t, left)
      decreases |fd.schedule|
    {
      var n := fd.Write(data, t, left);
      if n == 0 {
        return t, false;
      }
      if n == AGAIN {
        continue;
      }
      if n == ERROR {
        return 0, true;
      }
      assert data[..t + n] == data[..t] + data[t..t + n];
      t, left := t + n, left - n;
    }
  }

  /** What the copy loop does: bytes put out, bytes taken, bytes counted, and whether
      the process has ended because a write failed. */
  datatype Copied = Copied(out: seq<Octet>, taken: nat, total: nat, aborted: bool)

  /** The copy loop over the schedules of both sides, `size` bytes at a time. */
  function CopyOf(src: seq<Io>, coming: seq<Octet>, dst: seq<Io>, size: nat): (c: Copied)
    ensures c.taken <= |coming| && c.total <= |c.out| <= c.taken
    decreases |src|
  {
    var n := Result(src, size, |coming|);
    if n == AGAIN then CopyOf(After(src), coming, dst, size)
    else if n <= 0 then Copied([], 0, 0, false)
    else
      var r := Plain(dst, 0, n);
      var piece := coming[..r.moved];
      if r.stop == Failed then Copied(piece, n, 0, true)
      else
        var c := CopyOf(After(src), coming[n..], r.rest, size);
        Copied(piece + c.out, n + c.taken, r.moved + c.total, c.aborted)
  }

  /** No write came short. */
  predicate AllWhole(src: seq<Io>, coming: seq<Octet>, dst: seq<Io>, size: nat)
    decreases |src|
  {
    var n := Result(src, size, |coming|);
    if n == AGAIN then AllWhole(After(src), coming, dst, size)
    else if n <= 0 then true
    else
      var r := Plain(dst, 0, n);
      r.stop == Full && AllWhole(After(src), coming[n..], r.rest, size)
  }

  /** The count tells: it is the number of bytes taken exactly when every write was
      whole; then all of these went out, in order, and the process did not end.
      Otherwise fewer are counted than were taken. */
  lemma {:induction false} CountTells(src: seq<Io>, coming: seq<Octet>, dst: seq<Io>, size: nat)
    ensures var c := CopyOf(src, coming, dst, size);
            && (c.total == c.taken <==> AllWhole(src, coming, dst, size))
            && (c.total == c.taken ==> c.out == coming[..c.taken] && !c.aborted)
            && (c.aborted ==> c.total < c.taken)
    decreases |src|
  {
    hide Result, Plain;
    var n := Result(src, size, |coming|);
    if n == AGAIN {
      CountTells(After(src), coming, dst, size);
    } else if n > 0 {
      var r := Plain(dst, 0, n);
      CountTells(After(src), coming[n..], r.rest, size);
      var c := CopyOf(After(src), coming[n..], r.rest, size);
      assert coming[..n] + coming[n..][..c.taken] == coming[..n + c.taken];
    }
  }

  /** Calls that move something. */
  function MoveCount(schedule: seq<Io>): nat {
    if schedule == [] then 0 else (if schedule[0].Moves? then 1 else 0) + MoveCount(schedule[1..])
  }

  /** With enough reads, none of which fails or comes back empty, and whole writes,
      everything is copied. */
  lemma {:induction false} CopiesAll(src: seq<Io>, coming: seq<Octet>, dst: seq<Io>, size: nat)
    requires size > 0 && Moving(src) && |coming| <= MoveCount(src) && AllWhole(src, coming, dst, size)
    ensures CopyOf(src, coming, dst, size) == Copied(coming, |coming|, |coming|, false)
    decreases |src|
  {
    hide Plain;
    if src != [] {
      var n := Result(src, size, |coming|);
      assert Moving(src[1..]);
      assert src[0] != Error && src[0] != Moves(0);
      if n == AGAIN {
        CopiesAll(src[1..], coming, dst, size);
      } else if n > 0 {
        CopiesAll(src[1..], coming[n..], Plain(dst, 0, n).rest, size);
        assert coming[..n] + coming[n..] == coming;
      }
    }
  }

  /** One round of the copy loop: a piece read and, if there was one, written. */
  method CopyRound(src: Descriptor, dst: Descriptor, buf: array<Octet>) returns (n: int, w: nat, errno: bool)
    requires src != dst && buf.Length > 0
    modifies src, dst, buf
    ensures n == Result(old(src.schedule), buf.Length, |old(src.coming)|) && src.schedule == After(old(src.schedule))
    ensures src.sent == old(src.sent) && dst.coming == old(dst.coming)
    ensures n <= 0 ==> w == 0 && !errno && src.coming == old(src.coming)
    ensures n <= 0 ==> dst.sent == old(dst.sent) && dst.schedule == old(dst.schedule)
    ensures n > 0 ==> n <= |old(src.coming)| && src.coming == old(src.coming)[n..]
    ensures n > 0 ==> var r := Plain(old(dst.schedule), 0, n);
                      && w == Counter(r) && (errno <==> r.stop == Failed) && dst.schedule == r.rest
                      && dst.sent == old(dst.sent) + old(src.coming)[..r.moved]
  {
    hide Result, Plain, Stored;
    ghost var b := buf[..];
    n := src.Read(buf, 0, buf.Length);
    w, errno := 0, false;
    if n > 0 {
      FrontStored(b, 0, old(src.coming)[..n]);
      assert b[..0] + old(src.coming)[..n] == old(src.coming)[..n];
      assert buf[..n] == buf[..][..n] == old(src.coming)[..n];
      ghost var m := Plain(dst.schedule, 0, n).moved;
      assert buf[..m] == buf[..n][..m] && old(src.coming)[..m] == old(src.coming)[..n][..m];
      w, errno := Write(dst, buf, n);
    }
  }

  /** The copy loop that Pier, Connect and Respond share: read, write what was read,
      until the end, or until a write fails. */
  method Copy(src: Descriptor, dst: Descriptor, buf: array<Octet>) returns (total: nat, aborted: bool)
    requires src != dst && buf.Length > 0
    modifies src, dst, buf
    ensures var c := CopyOf(old(src.schedule), old(src.coming), old(dst.schedule), buf.Length);
            && total == c.total && aborted == c.aborted
            && src.coming == old(src.coming)[c.taken..] && src.sent == old(src.sent)
            && dst.sent == old(dst.sent) + c.out && dst.coming == old(dst.coming)
  {
    hide Result, Plain, CopyOf;
    ghost var out: seq<Octet>, taken: nat := [], 0;
    ghost var whole := CopyOf(src.schedule, src.coming, dst.schedule, buf.Length);
    total, aborted := 0, false;
    CopyStarts(src.coming, dst.sent, whole);
    while true
      invariant src.sent == old(src.sent) && dst.coming == old(dst.coming) && dst.sent == old(dst.sent) + out
      invariant taken <= |old(src.coming)| && src.coming == old(src.coming)[taken..]
      invariant whole == Onward(out, taken, total, CopyOf(src.schedule, src.coming, dst.schedule, buf.Length))
      decreases |src.schedule|
    {
      CopyStep(src.schedule, src.coming, dst.schedule, buf.Length, out, taken, total);
      ghost var coming, schedule := src.coming, dst.schedule;
      var n, w, errno := CopyRound(src, dst, buf);
      if n == 0 || n == ERROR {
        return;
      }
      if n > 0 {
        ghost var r := Plain(schedule, 0, n);
        PieceOut(old(dst.sent), out, coming[..r.moved], old(src.coming), taken, n);
        out, taken, total := out + coming[..r.moved], taken + n, total + w;
      }
      if errno {
        aborted := true;
        return;
      }
    }
  }

  /** What is still to come behind what has been copied. */
  function Onward(out: seq<Octet>, taken: nat, total: nat, c: Copied): Copied {
    Copied(out + c.out, taken + c.taken, total + c.total, c.aborted)
  }

  lemma CopyStarts(coming: seq<Octet>, sent: seq<Octet>, c: Copied)
    ensures coming[0..] == coming && sent + [] == sent && Onward([], 0, 0, c) == c
  {
    assert [] + c.out == c.out;
  }

  lemma CopyStep(src: seq<Io>, coming: seq<Octet>, dst: seq<Io>, size: nat, out: seq<Octet>, taken: nat, total: nat)
    ensures var n, c := Result(src, size, |coming|), Onward(out, taken, total, CopyOf(src, coming, dst, size));
            && (src == [] ==> n == 0)
            && (n == AGAIN ==> c == Onward(out, taken, total, CopyOf(After(src), coming, dst, size)))
            && (n == 0 || n == ERROR ==> c == Copied(out, taken, total, false))
            && (n > 0 ==>
                  var r := Plain(dst, 0, n);
                  if r.stop == Failed then c == Copied(out + coming[..r.moved], taken + n, total, true)
                  else c == Onward(out + coming[..r.moved], taken + n, total + r.moved,
                                   CopyOf(After(src), coming[n..], r.rest, size)))
  {
    hide Result, Plain, CopyOf, Onward;
    var n := Result(src, size, |coming|);
    CopyUnfolds(src, coming, dst, size);
    if n > 0 {
      var r := Plain(dst, 0, n);
      OnwardPiece(out, taken, total, coming[..r.moved], n, r.moved, CopyOf(After(src), coming[n..], r.rest, size));
    }
    OnwardEnds(out, taken, total);
  }

  lemma CopyUnfolds(src: seq<Io>, coming: seq<Octet>, dst: seq<Io>, size: nat)
    ensures var n, c := Result(src, size, |coming|), CopyOf(src, coming, dst, size);
            && (n == AGAIN ==> c == CopyOf(After(src), coming, dst, size))
            && (n == 0 || n == ERROR ==> c == Copied([], 0, 0, false))
            && (n > 0 ==>
                  var r := Plain(dst, 0, n);
                  var rest := CopyOf(After(src), coming[n..], r.rest, size);
                  c == if r.stop == Failed then Copied(coming[..r.moved], n, 0, true)
                       else Copied(coming[..r.moved] + rest.out, n + rest.taken, r.moved + rest.total, rest.aborted))
  {
    hide Result, Plain;
  }

  lemma OnwardPiece(out: seq<Octet>, taken: nat, total: nat, piece: seq<Octet>, n: nat, moved: nat, c: Copied)
    ensures Onward(out, taken, total, Copied(piece + c.out, n + c.taken, moved + c.total, c.aborted))
         == Onward(out + piece, taken + n, total + moved, c)
    ensures Onward(out, taken, total, Copied(piece, n, 0, true)) == Copied(out + piece, taken + n, total, true)
  {
    assert (out + piece) + c.out == out + (piece + c.out);
  }

  lemma OnwardEnds(out: seq<Octet>, taken: nat, total: nat)
    ensures Onward(out, taken, total, Copied([], 0, 0, false)) == Copied(out, taken, total, false)
  {
    assert out + [] == out;
  }

  lemma PieceOut(sent: seq<Octet>, out: seq<Octet>, piece: seq<Octet>, all: seq<Octet>, taken: nat, n: nat)
    requires taken + n <= |all|
    ensures (sent + out) + piece == sent + (out + piece) && all[taken..][n..] == all[taken + n..]
  {
  }

  /** The counter of Write is the length exactly when all bytes went out and the
      call behind the last byte did not fail. */
  lemma WriteIsExact(schedule: seq<Io>, n: nat)
    requires n > 0
    ensures var r := Plain(schedule, 0, n);
            Counter(r) == n <==> r.moved == n && r.stop != Failed
  {
    var r := Plain(schedule, 0, n);
    assert r.stop == Full ==> r.moved == n;
  }

  /** The call that follows the last byte, interruptions aside, is an error. */
  predicate FailsNext(schedule: seq<Io>) {
    schedule != [] && (schedule[0] == Error || (schedule[0] == Again && FailsNext(schedule[1..])))
  }

  lemma {:induction false} PlainCloses(schedule: seq<Io>, t: nat)
    ensures Plain(schedule, t, 0).moved == t && Plain(schedule, t, 0).stop == if FailsNext(schedule) then Failed else Full
    decreases |schedule|
  {
    if schedule != [] && schedule[0] == Again {
      PlainCloses(schedule[1..], t);
    }
  }

  /** Write exactly, when the calls can move all: let the `j`-th be the call that
      brings the last byte, no error and no empty call before it; then all `len`
      bytes go out, and the count is `len` exactly when the call behind does not fail. */
  lemma {:induction false} WritesAll(schedule: seq<Io>, j: nat, t: nat, len: nat)
    requires j <= |schedule| && Moving(schedule[..j]) && len <= Capacity(schedule[..j])
    requires j > 0 ==> Capacity(schedule[..j - 1]) < len
    ensures var r := Plain(schedule, t, len);
            r.moved == t + len && r.stop == if FailsNext(schedule[j..]) then Failed else Full
    decreases |schedule|
  {
    hide Capacity, FailsNext;
    NothingYet(schedule);
    if j == 0 {
      assert schedule[0..] == schedule;
      PlainCloses(schedule, t);
    } else {
      FrontTail(schedule, j);
      NothingYet(schedule[1..]);
      if j > 1 {
        FrontTail(schedule, j - 1);
      }
      var res := Result(schedule, len, len);
      assert schedule[1..][j - 1..] == schedule[j..];
      if res == AGAIN {
        WritesAll(schedule[1..], j - 1, t, len);
      } else {
        WritesAll(schedule[1..], j - 1, t + res, len - res);
      }
    }
  }

  lemma FrontTail(schedule: seq<Io>, j: nat)
    requires 0 < j <= |schedule|
    ensures schedule[1..][..j - 1] == schedule[..j][1..]
    ensures Capacity(schedule[..j])
         == (if schedule[0].Moves? then schedule[0].n else 0) + Capacity(schedule[1..][..j - 1])
    ensures Moving(schedule[..j]) ==>
              schedule[0] != Error && schedule[0] != Moves(0) && Moving(schedule[1..][..j - 1])
  {
    var front := schedule[..j];
    assert schedule[0] == front[0] && front[1..] == schedule[1..][..j - 1];
    assert forall i | 0 <= i < j - 1 :: front[1..][i] == front[i + 1];
  }

  /** Write exactly, when they cannot: with `k` the first call that fails or moves
      nothing, what the calls before it can move goes out. */
  lemma {:induction false} WritesShort(schedule: seq<Io>, k: nat, t: nat, len: nat)
    requires k <= |schedule| && Moving(schedule[..k]) && Ends(schedule, k) && Capacity(schedule[..k]) < len
    ensures var r := Plain(schedule, t, len);
            && r.moved == t + Capacity(schedule[..k])
            && r.stop == if k < |schedule| && schedule[k] == Error then Failed else Eof
    decreases |schedule|
  {
    hide Moving, Capacity, Ends;
    NothingYet(schedule);
    if k == 0 {
      EndCall(schedule, len, len);
    } else {
      MovingTail(schedule, k);
      var res := Result(schedule, len, len);
      if res == AGAIN {
        WritesShort(schedule[1..], k - 1, t, len);
      } else {
        WritesShort(schedule[1..], k - 1, t + res, len - res);
      }
    }
  }

  /** Interruptions do not matter to Write either. */
  lemma {:induction false} WriteAgainIsHarmless(schedule: seq<Io>, t: nat, len: nat)
    ensures Plain(WithoutAgain(schedule), t, len).moved == Plain(schedule, t, len).moved
    ensures Plain(WithoutAgain(schedule), t, len).stop == Plain(schedule, t, len).stop
    decreases |schedule|
  {
    if schedule == [] {
      assert WithoutAgain([]) == [];
    } else {
      hide WithoutAgain, Result;
      WithoutAgainStep(schedule, len, len);
      var res := Result(schedule, len, len);
      if res == AGAIN {
        WriteAgainIsHarmless(schedule[1..], t, len);
      } else if res > 0 {
        WriteAgainIsHarmless(schedule[1..], t + res, len - res);
      }
    }
  }

  /** A failure of that last call loses the count, not the bytes. */
  lemma CountLost(n: nat)
    requires n > 0
    ensures Plain([Moves(n), Error], 0, n).moved == n && Counter(Plain([Moves(n), Error], 0, n)) == 0
  {
    assert [Moves(n), Error][1..] == [Error];
    assert Plain([Error], n, 0) == Tally(n, Failed, []);
  }

  // ---------------------------------------------------------------------
  // SOCKS5 (RFC 1928)

  const BUFFER_LENGTH := 513
  const MAX_HOSTNAME := 255

  datatype Address =
    | IPv4(addr: seq<Octet>, port: seq<Octet>)
    | Domain(name: seq<Octet>, port: seq<Octet>)
    | IPv6(addr: seq<Octet>, port: seq<Octet>)

  /** Field sizes of the address forms; the name may be too long. */
  predicate Sized(a: Address) {
    |a.port| == 2 && (a.IPv4? ==> |a.addr| == 4) && (a.IPv6? ==> |a.addr| == 16)
  }

  /** Sections 4 and 6 of RFC 1928: address type, address, port. */
  function AddressBytes(a: Address): seq<Octet>
    requires a.Domain? ==> |a.name| <= MAX_HOSTNAME
  {
    match a
    case IPv4(addr, port) => [1] + addr + port
    case Domain(name, port) => [3, |name|] + name + port
    case IPv6(addr, port) => [4] + addr + port
  }

  method CopyInto(dst: array<Octet>, at: nat, src: seq<Octet>)
    requires at + |src| <= dst.Length
    modifies dst
    ensures dst[..] == Stored(old(dst[..]), at, src)
  {
    hide Stored;
    StoredNothing(dst[..], at, src);
    for i := 0 to |src|
      invariant dst[..] == Stored(old(dst[..]), at, src[..i])
    {
      StoredNext(old(dst[..]), at, src, i);
      dst[at + i] := src[i];
    }
    assert src[..|src|] == src;
  }

  /** Two fields behind what is in the buffer. */
  method PutTwo(buf: array<Octet>, at: nat, x: seq<Octet>, y: seq<Octet>)
    requires at + |x| + |y| <= buf.Length
    modifies buf
    ensures buf[..at + |x| + |y|] == old(buf[..at]) + x + y
  {
    hide Stored;
    ghost var b := buf[..];
    CopyInto(buf, at, x);
    FrontStored(b, at, x);
    ghost var c := buf[..];
    CopyInto(buf, at + |x|, y);
    FrontStored(c, at + |x|, y);
    assert b[..at] == old(buf[..at]) && c[..at + |x|] == b[..at] + x;
    assert buf[..at + |x| + |y|] == buf[..][..at + |x| + |y|];
  }

  /** The connect request in the buffer; -1 for a name that is too long. */
  method BuildRequest(buf: array<Octet>, a: Address) returns (wlen: int)
    requires buf.Length == BUFFER_LENGTH && Sized(a)
    modifies buf
    ensures wlen == -1 <==> a.Domain? && |a.name| > 255
    ensures wlen != -1 ==> 0 <= wlen <= BUFFER_LENGTH && buf[..wlen] == [5, 1, 0] + AddressBytes(a)
  {
    match a
    case Domain(name, port) =>
      var hlen := |name|;
      if hlen > MAX_HOSTNAME {
        return -1;
      }
      buf[0], buf[1], buf[2], buf[3], buf[4] := 5, 1, 0, 3, hlen;
      assert buf[..5] == [5, 1, 0] + [3, hlen];
      PutTwo(buf, 5, name, port);
      Joined([5, 1, 0], [3, hlen], name, port);
      wlen := 7 + hlen;
    case IPv4(addr, port) =>
      buf[0], buf[1], buf[2], buf[3] := 5, 1, 0, 1;
      assert buf[..4] == [5, 1, 0] + [1];
      PutTwo(buf, 4, addr, port);
      Joined([5, 1, 0], [1], addr, port);
      wlen := 10;
    case IPv6(addr, port) =>
      buf[0], buf[1], buf[2], buf[3] := 5, 1, 0, 4;
      assert buf[..4] == [5, 1, 0] + [4];
      PutTwo(buf, 4, addr, port);
      Joined([5, 1, 0], [4], addr, port);
      wlen := 22;
  }

  lemma Joined(a: seq<Octet>, b: seq<Octet>, c: seq<Octet>, d: seq<Octet>)
    ensures ((a + b) + c) + d == a + (b + c + d)
  {
  }

  /** Bytes of a reply behind the first five, by address type and fifth byte. */
  function Remaining(atyp: Octet, fifth: Octet): nat {
    if atyp == 1 then 3 + 2 else if atyp == 3 then fifth + 2 else if atyp == 4 then 15 + 2 else 0
  }

  /** Both reads of the reply succeed, and it grants the request. */
  predicate Granted(schedule: seq<Io>, coming: seq<Octet>) {
    var head := Atom(schedule, 0, 5, |coming|);
    && head.stop == Full && coming[0] == 5 && coming[1] == 0
    && Atom(head.rest, 0, Remaining(coming[3], coming[4]), |coming| - 5).stop == Full
  }

  /** The reply: five bytes, of which the fourth and fifth tell what is left. */
  method ReadReply(fd: Descriptor, buf: array<Octet>) returns (ok: bool)
    requires buf.Length == BUFFER_LENGTH
    modifies fd, buf
    ensures fd.sent == old(fd.sent)
    ensures ok <==> Granted(old(fd.schedule), old(fd.coming))
    ensures ok ==> var n := 5 + Remaining(old(fd.coming)[3], old(fd.coming)[4]);
                   n <= |old(fd.coming)| && fd.coming == old(fd.coming)[n..]
  {
    hide Atom;
    ghost var schedule, all := fd.schedule, fd.coming;
    CounterIsExact(schedule, 5, |all|);
    var n := AtomRead(fd, buf, 5);
    if n != 5 {
      return false;
    }
    assert forall k | 0 <= k < 5 :: buf[k] == buf[..][k] == all[..5][k];
    if buf[0] != 5 || buf[1] != 0 {
      return false;
    }
    var rlen: nat := 0;
    if buf[3] == 1 {
      rlen := 3 + 2;
    } else if buf[3] == 3 {
      rlen := buf[4] as int + 2;
    } else if buf[3] == 4 {
      rlen := 15 + 2;
    }
    CounterOf(fd.schedule, rlen, |all| - 5);
    n := AtomRead(fd, buf, rlen);
    ok := n == rlen;
    assert ok ==> all[5..][rlen..] == all[5 + rlen..];
  }

  lemma CounterOf(schedule: seq<Io>, n: nat, limit: nat)
    ensures Counter(Atom(schedule, 0, n, limit)) == n <==> Atom(schedule, 0, n, limit).stop == Full
  {
    if n > 0 {
      CounterIsExact(schedule, n, limit);
    }
  }

  /** Section 6 of RFC 1928: a success reply with a valid address type is consumed
      to its exact length, so what is left starts with the first byte of the tunnel. */
  lemma ReplyConsumed(a: Address, tunnel: seq<Octet>)
    requires Sized(a) && (a.Domain? ==> |a.name| <= MAX_HOSTNAME)
    ensures var all := [5, 0, 0] + AddressBytes(a) + tunnel;
            |all| >= 5 && 5 + Remaining(all[3], all[4]) == |[5, 0, 0] + AddressBytes(a)|
            && all[5 + Remaining(all[3], all[4])..] == tunnel
  {
    var reply := [5, 0, 0] + AddressBytes(a);
    assert (reply + tunnel)[|reply|..] == tunnel;
    if a.Domain? {
      assert AddressBytes(a)[1] == |a.name|;
    }
  }

  /** Sections 4 and 6 of RFC 1928, field by field: a connect request or a reply is
      version, command or reply code, a reserved zero, the address type, the address
      at its place with its length in front of a name, and the port at the end. */
  lemma Layout(code: Octet, a: Address)
    requires Sized(a) && (a.Domain? ==> |a.name| <= MAX_HOSTNAME)
    ensures var m := [5, code, 0] + AddressBytes(a);
            && |m| > 5 && m[0] == 5 && m[1] == code && m[2] == 0 && m[|m| - 2..] == a.port
            && (a.IPv4? ==> |m| == 10 && m[3] == 1 && m[4..8] == a.addr)
            && (a.Domain? ==> |m| == 7 + |a.name| && m[3] == 3 && m[4] == |a.name| && m[5..5 + |a.name|] == a.name)
            && (a.IPv6? ==> |m| == 22 && m[3] == 4 && m[4..20] == a.addr)
  {
    match a
    case IPv4(addr, port) => Fields([5, code, 0], [1], addr, port);
    case Domain(name, port) => Fields([5, code, 0], [3, |name|], name, port);
    case IPv6(addr, port) => Fields([5, code, 0], [4], addr, port);
  }

  lemma Fields(front: seq<Octet>, kind: seq<Octet>, addr: seq<Octet>, port: seq<Octet>)
    ensures var m, n := front + (kind + addr + port), |front| + |kind|;
            && (forall k | 0 <= k < |front| :: m[k] == front[k])
            && (forall k | 0 <= k < |kind| :: m[|front| + k] == kind[k])
            && m[n..n + |addr|] == addr && m[n + |addr|..] == port
  {
  }

  /** A reply that says no is never taken for a yes; one that says yes is taken for
      it whenever the calls can move all its bytes. */
  lemma ReplyAnswered(code: Octet, a: Address, tunnel: seq<Octet>, schedule: seq<Io>)
    requires Sized(a) && (a.Domain? ==> |a.name| <= MAX_HOSTNAME)
    requires Moving(schedule)
    requires var r := Atom(schedule, 0, 5, |[5, code, 0] + AddressBytes(a) + tunnel|);
             5 <= Capacity(schedule) && |[5, code, 0] + AddressBytes(a)| - 5 <= Capacity(r.rest)
    ensures Granted(schedule, [5, code, 0] + AddressBytes(a) + tunnel) <==> code == 0
  {
    hide Result, Atom, AddressBytes;
    var m := [5, code, 0] + AddressBytes(a);
    var all := m + tunnel;
    Layout(code, a);
    assert all[0] == m[0] && all[1] == m[1] && all[3] == m[3] && all[4] == m[4];
    ShortTransfersAdd(schedule, 0, 5, |all|);
    RestMoves(schedule, 0, 5, |all|);
    ShortTransfersAdd(Atom(schedule, 0, 5, |all|).rest, 0, |m| - 5, |all| - 5);
  }

  lemma {:induction false} RestMoves(schedule: seq<Io>, pos: nat, n: nat, limit: nat)
    requires Moving(schedule)
    ensures Moving(Atom(schedule, pos, n, limit).rest)
    decreases |schedule|
  {
    hide Result;
    if schedule != [] && pos < n {
      assert Moving(schedule[1..]);
      var res := Result(schedule, n - pos, if limit > pos then limit - pos else 0);
      if res == AGAIN || res > 0 {
        RestMoves(schedule[1..], if res == AGAIN then pos else pos + res, n, limit);
      }
    }
  }

  /** Any other address type: nothing is consumed behind the fifth byte. */
  lemma UnknownAddressType(coming: seq<Octet>, schedule: seq<Io>)
    requires |coming| >= 5 && coming[3] != 1 && coming[3] != 3 && coming[3] != 4
    ensures Remaining(coming[3], coming[4]) == 0
    ensures Granted(schedule, coming) <==> Atom(schedule, 0, 5, |coming|).stop == Full && coming[0] == 5 && coming[1] == 0
  {
    hide Result;
  }

  /** Request and reply: when it says yes the whole request has gone out and exactly
      one reply has come in. */
  method Handshake(fd: Descriptor, a: Address) returns (ok: bool)
    requires Sized(a)
    modifies fd
    ensures ok ==> (a.Domain? ==> |a.name| <= MAX_HOSTNAME) && fd.sent == old(fd.sent) + ([5, 1, 0] + AddressBytes(a))
    ensures ok ==> |old(fd.coming)| >= 5 && old(fd.coming)[0] == 5 && old(fd.coming)[1] == 0
    ensures ok ==> var n := 5 + Remaining(old(fd.coming)[3], old(fd.coming)[4]);
                   n <= |old(fd.coming)| && fd.coming == old(fd.coming)[n..]
  {
    hide Atom, AddressBytes;
    var buf := new Octet[BUFFER_LENGTH];
    var wlen := BuildRequest(buf, a);
    if wlen == -1 {
      return false;
    }
    CounterOf(fd.schedule, wlen, wlen);
    var n := AtomWrite(fd, buf, wlen);
    if n != wlen {
      return false;
    }
    ok := ReadReply(fd, buf);
  }
}
