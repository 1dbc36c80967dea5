// Pipes: a call that cannot proceed is put aside with its parameters, and
// done all over again when something has changed.

module Pipes {
  // A read or a write of some pipe.
  datatype Request = Read(pipe: nat, nbytes: nat) | Write(pipe: nat, data: seq<int>)

  // The inode of a pipe, its two file positions, and how many open files
  // refer to either end.
  datatype Pipe = Pipe(size: nat, rPos: nat, wPos: nat, bytes: seq<int>, readers: nat, writers: nat)

  datatype Reply = Bytes(data: seq<int>) | Count(n: nat) | EFBIG | EPIPE | Suspended

  datatype Work = Restart(who: nat, req: Request) | NewWork | PanicNobody

  ghost predicate PipeOk(p: Pipe, pipeSize: nat) {
    && |p.bytes| == pipeSize && p.rPos <= p.size <= pipeSize && p.wPos <= pipeSize
    && (p.writers > 0 ==> p.wPos == p.size) && (p.rPos == p.size ==> p.size == 0)
  }

  // What has been written and not been read.
  ghost function Held(p: Pipe): seq<int> {
    if p.rPos <= p.size <= |p.bytes| then p.bytes[p.rPos..p.size] else []
  }

  // Number of flags that are up.
  ghost function Up(flags: seq<bool>): (n: nat)
    ensures n <= |flags|
  {
    if flags == [] then 0 else Up(flags[..|flags| - 1]) + if flags[|flags| - 1] then 1 else 0
  }

  lemma {:induction false} UpUpdate(flags: seq<bool>, i: nat, v: bool)
    requires i < |flags|
    ensures Up(flags[i := v]) == Up(flags) - (if flags[i] then 1 else 0) + if v then 1 else 0
    decreases |flags|
  {
    var n := |flags| - 1;
    if i == n {
      assert flags[i := v][..n] == flags[..n];
    } else {
      UpUpdate(flags[..n], i, v);
      assert flags[i := v][..n] == flags[..n][i := v];
    }
  }

  lemma {:induction false} UpSome(flags: seq<bool>)
    ensures Up(flags) > 0 <==> exists i :: 0 <= i < |flags| && flags[i]
    decreases |flags|
  {
    if flags != [] {
      var n := |flags| - 1;
      UpSome(flags[..n]);
      if i :| 0 <= i < n && flags[..n][i] {
        assert flags[i];
      }
      if i :| 0 <= i < |flags| && flags[i] && !flags[n] {
        assert flags[..n][i];
      }
    }
  }

  lemma {:induction false} UpNone(n: nat)
    ensures Up(seq(n, _ => false)) == 0
  {
    if n > 0 {
      UpNone(n - 1);
      assert seq(n, _ => false)[..n - 1] == seq(n - 1, _ => false);
    }
  }

  lemma {:induction false} UpMono(flags: seq<bool>, i: nat, j: nat)
    requires i <= j <= |flags|
    ensures Up(flags[..i]) <= Up(flags[..j])
    decreases j
  {
    if i < j {
      UpMono(flags, i, j - 1);
      UpNext(flags, j - 1);
    }
  }

  lemma UpStart(flags: seq<bool>)
    ensures Up(flags[..0]) == 0
  {}

  lemma UpNext(flags: seq<bool>, i: nat)
    requires i < |flags|
    ensures Up(flags[..i + 1]) == Up(flags[..i]) + if flags[i] then 1 else 0
  {
    assert flags[..i + 1][..i] == flags[..i];
  }

  lemma UpZero(flags: seq<bool>, i: nat)
    requires i <= |flags|
    ensures Up(flags[..i]) < 1 <==> forall j :: 0 <= j < i ==> !flags[j]
  {
    UpSome(flags[..i]);
    if j :| 0 <= j < i && flags[j] {
      assert flags[..i][j];
    }
  }

  // A request carried out, with its reply.
  datatype Call = Call(who: nat, req: Request, reply: Reply)

  // What process p has got done.
  ghost function CallsOf(log: seq<Call>, p: nat): seq<Request> {
    if log == [] then []
    else
      var rest, c := log[..|log| - 1], log[|log| - 1];
      CallsOf(rest, p) + if c.who == p then [c.req] else []
  }

  // The bytes that a call puts into its pipe, and those it takes out.
  function Put(req: Request, r: Reply): seq<int> {
    if req.Write? && r.Count? then req.data else []
  }

  function Got(req: Request, r: Reply): seq<int> {
    if req.Read? && r.Bytes? then r.data else []
  }

  // The bytes these calls have put into pipe i, or taken out of it.
  ghost function Moved(log: seq<Call>, i: nat, write: bool): seq<int> {
    if log == [] then []
    else
      var rest, c := log[..|log| - 1], log[|log| - 1];
      Moved(rest, i, write) + if c.req.pipe != i then [] else if write then Put(c.req, c.reply) else Got(c.req, c.reply)
  }

  // Every request of a process has been carried out, once and in order, but for
  // one that is put aside; and these calls account for all bytes moved.
  ghost predicate Ledger(asked: seq<seq<Request>>, log: seq<Call>, suspended: seq<bool>, saved: seq<Request>,
                         written: seq<seq<int>>, delivered: seq<seq<int>>) {
    && |asked| == |suspended| == |saved| && |written| == |delivered|
    && (forall p :: 0 <= p < |asked| ==> asked[p] == CallsOf(log, p) + if suspended[p] then [saved[p]] else [])
    && (forall i :: 0 <= i < |written| ==> written[i] == Moved(log, i, true) && delivered[i] == Moved(log, i, false))
    && forall k :: 0 <= k < |log| ==> log[k].reply != Suspended
  }

  lemma LedgerSizes(asked: seq<seq<Request>>, log: seq<Call>, suspended: seq<bool>, saved: seq<Request>,
                    written: seq<seq<int>>, delivered: seq<seq<int>>)
    requires Ledger(asked, log, suspended, saved, written, delivered)
    ensures |asked| == |suspended| == |saved| && |written| == |delivered|
  {}

  // A process that was not put aside asks for something.
  lemma LedgerAsk(asked: seq<seq<Request>>, log: seq<Call>, suspended: seq<bool>, saved: seq<Request>,
                  written: seq<seq<int>>, delivered: seq<seq<int>>, p: nat, req: Request)
    requires Ledger(asked, log, suspended, saved, written, delivered) && p < |asked| && !suspended[p]
    ensures Ledger(asked[p := asked[p] + [req]], log, suspended[p := true], saved[p := req], written, delivered)
  {}

  // The call that was put aside is carried out.
  lemma LedgerCall(asked: seq<seq<Request>>, log: seq<Call>, suspended: seq<bool>, saved: seq<Request>,
                   written: seq<seq<int>>, delivered: seq<seq<int>>, p: nat, r: Reply, i: nat, saved': seq<Request>)
    requires Ledger(asked, log, suspended, saved, written, delivered) && p < |asked| && suspended[p] && r != Suspended
    requires i == saved[p].pipe < |written|
    requires |saved'| == |saved| && forall q :: 0 <= q < |saved| && q != p ==> saved'[q] == saved[q]
    ensures Ledger(asked, log + [Call(p, saved[p], r)], suspended[p := false], saved',
                   written[i := written[i] + Put(saved[p], r)], delivered[i := delivered[i] + Got(saved[p], r)])
  {
    hide CallsOf, Moved;
    forall q: nat | q < |asked| ensures CallsOf(log + [Call(p, saved[p], r)], q) ==
                                        CallsOf(log, q) + if q == p then [saved[p]] else []
    {
      OneMore(log, Call(p, saved[p], r), q, i, true);
    }
    forall k: nat, write: bool | k < |written|
      ensures Moved(log + [Call(p, saved[p], r)], k, write) == Moved(log, k, write) +
        if k != i then [] else if write then Put(saved[p], r) else Got(saved[p], r)
    {
      OneMore(log, Call(p, saved[p], r), p, k, write);
    }
  }

  lemma OneMore(log: seq<Call>, c: Call, q: nat, k: nat, write: bool)
    ensures CallsOf(log + [c], q) == CallsOf(log, q) + if c.who == q then [c.req] else []
    ensures Moved(log + [c], k, write) ==
            Moved(log, k, write) +
              if c.req.pipe != k then [] else if write then Put(c.req, c.reply) else Got(c.req, c.reply)
  {
    assert (log + [c])[..|log + [c]| - 1] == log;
  }

  // What a read or write does to its pipe, as a queue of bytes.
  ghost predicate Done(req: Request, r: Reply, p: Pipe, p': Pipe, pipeSize: nat) {
    match req
    case Read(_, nbytes) =>
      if nbytes == 0 then r == Bytes([]) && p' == p
      else if Held(p) == [] then p' == p && r == if p.writers > 0 then Suspended else Bytes([])
      else
        var d := if nbytes < |Held(p)| then nbytes else |Held(p)|;
        r == Bytes(Held(p)[..d]) && Held(p') == Held(p)[d..] && p'.readers == p.readers && p'.writers == p.writers
    case Write(_, data) =>
      if data == [] then r == Count(0) && p' == p
      else if |data| > pipeSize then r == EFBIG && p' == p
      else if p.readers == 0 then r == EPIPE && p' == p
      else if p.wPos + |data| > pipeSize then r == Suspended && p' == p
      else r == Count(|data|) && Held(p') == Held(p) + data && p'.readers == p.readers && p'.writers == p.writers
  }

  // ---------------------------------------------------------------------
  // Sleepers

  // One pipe, and the calls that are put aside.
  datatype Scene = Scene(pipe: Pipe, suspended: seq<bool>, revived: seq<bool>, saved: seq<Request>)

  ghost predicate Sized(v: Scene) {
    |v.suspended| == |v.revived| == |v.saved|
  }

  predicate Hangs(v: Scene, p: nat, i: nat, write: bool) {
    p < |v.suspended| && p < |v.saved| && v.suspended[p] && v.saved[p].Write? == write && v.saved[p].pipe == i
  }

  // Hanging on pipe i, and not to be done again.
  predicate Asleep(v: Scene, p: nat, i: nat, write: bool) {
    Hangs(v, p, i, write) && p < |v.revived| && !v.revived[p]
  }

  predicate FirstHanging(v: Scene, p: nat, i: nat, write: bool) {
    Hangs(v, p, i, write) && forall q :: 0 <= q < p ==> !Hangs(v, q, i, write)
  }

  // One process reads pipe i.  While the pipe holds bytes that process is not
  // asleep on it; and when it is, not all of those who hang on the other end are.
  ghost predicate Lively(v: Scene, i: nat, reader: nat, pipeSize: nat) {
    && Sized(v)
    && (forall p: nat :: Hangs(v, p, i, false) ==> p == reader)
    && (forall p: nat :: Hangs(v, p, i, true) ==> 0 < |v.saved[p].data| <= pipeSize)
    && (Hangs(v, reader, i, false) ==> v.pipe.readers > 0)
    && (Asleep(v, reader, i, false) ==>
          && Held(v.pipe) == [] && v.pipe.wPos == 0
          && ((exists p: nat :: Hangs(v, p, i, true)) ==> exists p: nat :: Hangs(v, p, i, true) && v.revived[p]))
  }

  // Whom a call wakes: a writer, when it reads from an empty pipe and is put
  // aside; a reader, when it is the first to write into an empty pipe.
  predicate Wakes(req: Request, r: Reply, pipe: Pipe, write: bool) {
    if write then req.Read? && r == Suspended
    else req.Write? && r.Count? && req.data != [] && pipe.wPos == 0
  }

  // The call of who has been carried out, or has been put aside, and woke whom
  // such a call wakes; nobody else's call has changed.
  ghost predicate Woken(m: Scene, v': Scene, at: Pipe, who: nat, call: Request, r: Reply) {
    && Sized(m) && Sized(v') && |v'.suspended| == |m.suspended| && who < |m.suspended|
    && (forall q :: 0 <= q < |m.suspended| && q != who ==>
          v'.suspended[q] == m.suspended[q] && v'.saved[q] == m.saved[q])
    && (v'.suspended[who] <==> r == Suspended) && (r == Suspended ==> v'.saved[who] == call)
    && forall q :: 0 <= q < |m.revived| ==>
         (v'.revived[q] <==>
            || m.revived[q]
            || (Wakes(call, r, at, true) && FirstHanging(m, q, call.pipe, true))
            || (Wakes(call, r, at, false) && FirstHanging(m, q, call.pipe, false)))
  }

  // The call of who is taken up.
  ghost function TakenUp(v: Scene, who: nat): Scene
    requires Sized(v) && who < |v.suspended|
  {
    Scene(v.pipe, v.suspended[who := false], v.revived[who := false], v.saved)
  }

  // Before, it was put aside and to be done again, or else no call was.
  ghost predicate Carried(v: Scene, v': Scene, at: Pipe, who: nat, call: Request, r: Reply) {
    && Sized(v) && who < |v.suspended|
    && (if v.suspended[who] then v.revived[who] && v.saved[who] == call
        else forall q :: 0 <= q < |v.revived| ==> !v.revived[q])
    && Woken(TakenUp(v, who), v', at, who, call, r)
  }

  // If one call of a kind hangs, there is a first.
  lemma {:induction false} SomeFirst(v: Scene, p: nat, i: nat, write: bool) returns (q: nat)
    requires Hangs(v, p, i, write)
    ensures q <= p && FirstHanging(v, q, i, write)
    decreases p
  {
    if k :| 0 <= k < p && Hangs(v, k, i, write) {
      q := SomeFirst(v, k, i, write);
    } else {
      q := p;
    }
  }

  // The pipe of the call is as the call leaves it, any other is as it was.
  ghost predicate PipeDone(p: Pipe, p': Pipe, i: nat, call: Request, r: Reply, pipeSize: nat) {
    PipeOk(p, pipeSize) && PipeOk(p', pipeSize) && if call.pipe == i then Done(call, r, p, p', pipeSize) else p' == p
  }

  lemma EmptyPipe(p: Pipe, pipeSize: nat)
    requires PipeOk(p, pipeSize) && Held(p) == [] && p.writers > 0
    ensures p.wPos == 0
  {
    assert |p.bytes[p.rPos..p.size]| == p.size - p.rPos;
  }

  // A read by the one reader of pipe i.
  lemma ReadLively(v: Scene, v': Scene, i: nat, reader: nat, call: Request, r: Reply, pipeSize: nat)
    requires Lively(v, i, reader, pipeSize) && Carried(v, v', v.pipe, reader, call, r)
    requires PipeDone(v.pipe, v'.pipe, i, call, r, pipeSize) && call.Read? && call.pipe == i && v.pipe.readers > 0
    ensures Lively(v', i, reader, pipeSize)
  {
    var m := TakenUp(v, reader);
    forall p: nat | Hangs(v', p, i, true) ensures Hangs(v, p, i, true) && Hangs(m, p, i, true) {}
    forall p: nat | Hangs(v', p, i, false) ensures p == reader {
      assert p != reader ==> Hangs(v, p, i, false);
    }
    if Asleep(v', reader, i, false) {
      EmptyPipe(v.pipe, pipeSize);
      if p: nat :| Hangs(v', p, i, true) {
        var q := SomeFirst(m, p, i, true);
        assert Hangs(v', q, i, true) && v'.revived[q];
      }
    }
  }

  // A write to pipe i: the reader is woken, or it was not asleep.
  lemma WriteLively(v: Scene, v': Scene, i: nat, reader: nat, who: nat, call: Request, r: Reply, pipeSize: nat)
    requires Lively(v, i, reader, pipeSize) && Carried(v, v', v.pipe, who, call, r)
    requires PipeDone(v.pipe, v'.pipe, i, call, r, pipeSize) && call.Write? && call.pipe == i
    ensures Lively(v', i, reader, pipeSize)
  {
    var m := TakenUp(v, who);
    forall p: nat | Hangs(v', p, i, false) ensures p != who && Hangs(v, p, i, false) && Hangs(m, p, i, false) {}
    forall p: nat | Hangs(v', p, i, true) && p != who ensures Hangs(v, p, i, true) {}
    assert v.suspended[who] ==> Hangs(v, who, i, true);
    if Asleep(v', reader, i, false) {
      forall q: nat | q < reader ensures !Hangs(m, q, i, false) {
        assert Hangs(m, q, i, false) ==> Hangs(v, q, i, false);
      }
      assert FirstHanging(m, reader, i, false) && Asleep(v, reader, i, false);
    }
  }

  // A call on another pipe.
  lemma OtherLively(v: Scene, v': Scene, i: nat, reader: nat, at: Pipe, who: nat, call: Request, r: Reply,
                    pipeSize: nat)
    requires Lively(v, i, reader, pipeSize) && Carried(v, v', at, who, call, r)
    requires PipeDone(v.pipe, v'.pipe, i, call, r, pipeSize) && call.pipe != i
    ensures Lively(v', i, reader, pipeSize)
  {
    forall p: nat, write: bool ensures Hangs(v', p, i, write) == Hangs(v, p, i, write) {}
    if Asleep(v', reader, i, false) {
      assert Hangs(v, reader, i, false) && !v.revived[reader];
      if p: nat :| Hangs(v', p, i, true) {
        assert Hangs(v, p, i, true);
        var q: nat :| Hangs(v, q, i, true) && v.revived[q];
        assert Hangs(v', q, i, true) && v'.revived[q];
      }
    }
  }

  // One end of pipe at is closed; everybody hanging on the other is woken.
  lemma CloseLively(v: Scene, v': Scene, i: nat, reader: nat, at: nat, write: bool, pipeSize: nat)
    requires Lively(v, i, reader, pipeSize) && Sized(v') && v'.suspended == v.suspended && v'.saved == v.saved
    requires forall p: nat :: p < |v.revived| ==> (v'.revived[p] <==> v.revived[p] || Hangs(v, p, at, !write))
    requires if i == at then
               && Held(v'.pipe) == Held(v.pipe) && v'.pipe.wPos == v.pipe.wPos
               && (Hangs(v, reader, i, false) ==> v'.pipe.readers > 0)
             else v'.pipe == v.pipe
    ensures Lively(v', i, reader, pipeSize)
  {
    forall p: nat, end: bool ensures Hangs(v', p, i, end) == Hangs(v, p, i, end) {}
    if Asleep(v', reader, i, false) {
      assert Hangs(v, reader, i, false) && !v.revived[reader];
      if p: nat :| Hangs(v', p, i, true) {
        assert Hangs(v, p, i, true);
        var q: nat :| Hangs(v, q, i, true) && v.revived[q];
        assert Hangs(v', q, i, true) && v'.revived[q];
      }
    }
  }

  // Which pipe is looked at does not matter to the calls.
  lemma AnyPipe(at: Pipe, p: Pipe, v: Scene, v': Scene, suspended: seq<bool>, revived: seq<bool>, saved: seq<Request>,
                who: nat, call: Request, r: Reply)
    requires Carried(Scene(at, suspended, revived, saved), v, at, who, call, r)
    requires v' == v.(pipe := v'.pipe)
    ensures Carried(Scene(p, suspended, revived, saved), v', at, who, call, r)
  {
    var m, m' := TakenUp(Scene(at, suspended, revived, saved), who), TakenUp(Scene(p, suspended, revived, saved), who);
    forall q: nat, i: nat, write: bool ensures FirstHanging(m, q, i, write) == FirstHanging(m', q, i, write) {
      assert forall k: nat :: Hangs(m, k, i, write) == Hangs(m', k, i, write);
    }
  }

  lemma TurnLively(v: Scene, v': Scene, i: nat, reader: nat, at: Pipe, who: nat, call: Request, r: Reply, pipeSize: nat)
    requires Lively(v, i, reader, pipeSize) && Carried(v, v', at, who, call, r)
    requires PipeDone(v.pipe, v'.pipe, i, call, r, pipeSize) && (call.pipe == i ==> at == v.pipe)
    requires !v.suspended[who] && call.Read? && call.pipe == i ==> who == reader && v.pipe.readers > 0
    ensures Lively(v', i, reader, pipeSize)
  {
    hide Woken, PipeDone;
    if call.pipe != i {
      OtherLively(v, v', i, reader, at, who, call, r, pipeSize);
    } else if call.Write? {
      WriteLively(v, v', i, reader, who, call, r, pipeSize);
    } else {
      assert v.suspended[who] ==> Hangs(v, who, i, false);
      ReadLively(v, v', i, reader, call, r, pipeSize);
    }
  }

  class PipeTable {
    const pipeSize: nat
    const pipes: array<Pipe>
    // The process table: is a call put aside, is it to be done again, which.
    const suspended: array<bool>
    const revived: array<bool>
    const saved: array<Request>
    var reviving: int
    // Everything ever accepted from writers, and handed to readers.
    ghost var written: seq<seq<int>>
    ghost var delivered: seq<seq<int>>
    // What each process has asked for, and all that has been carried out.
    ghost var asked: seq<seq<Request>>
    ghost var log: seq<Call>

    ghost predicate Valid()
      reads this`reviving, this`written, this`delivered, pipes, suspended, revived, saved
    {
      && suspended != revived && suspended.Length == revived.Length == saved.Length
      && |written| == |delivered| == pipes.Length
      && (forall i {:trigger pipes[i]} :: 0 <= i < pipes.Length ==> PipeOk(pipes[i], pipeSize))
      && (forall i {:trigger Held(pipes[i])} :: 0 <= i < pipes.Length ==> delivered[i] + Held(pipes[i]) == written[i])
      && (forall p :: 0 <= p < suspended.Length && revived[p] ==> suspended[p])
      && (forall p :: 0 <= p < suspended.Length && suspended[p] ==> saved[p].pipe < pipes.Length && HasWriter(saved[p]))
      && reviving == Up(revived[..])
    }

    // Who writes has an end of the pipe open.
    predicate HasWriter(req: Request)
      requires req.pipe < pipes.Length
      reads pipes
    {
      req.Write? ==> pipes[req.pipe].writers > 0
    }

    // Every request has been carried out once, or is put aside.
    ghost predicate Accounted()
      reads this`asked, this`log, this`written, this`delivered, suspended, saved
    {
      Ledger(asked, log, suspended[..], saved[..], written, delivered)
    }

    constructor (pipeSize: nat, nrPipes: nat, nrProcs: nat)
      ensures Valid() && this.pipeSize == pipeSize && pipes.Length == nrPipes && suspended.Length == nrProcs
      ensures (forall p :: 0 <= p < nrProcs ==> !suspended[p] && !revived[p]) && Accounted() && log == []
      ensures forall i :: 0 <= i < nrPipes ==> pipes[i].readers == 0 && pipes[i].writers == 0 && Held(pipes[i]) == []
      ensures fresh(pipes) && fresh(suspended) && fresh(revived) && fresh(saved)
    {
      hide Up;
      this.pipeSize := pipeSize;
      pipes := new Pipe[nrPipes](_ => Pipe(0, 0, 0, seq(pipeSize, _ => 0), 0, 0));
      suspended := new bool[nrProcs](_ => false);
      revived := new bool[nrProcs](_ => false);
      saved := new Request[nrProcs](_ => Read(0, 0));
      reviving := 0;
      written := seq(nrPipes, _ => []);
      delivered := seq(nrPipes, _ => []);
      asked, log := seq(nrProcs, _ => []), [];
      new;
      UpNone(nrProcs);
      assert revived[..] == seq(nrProcs, _ => false);
    }

    // A suspended call that release() is looking for.
    predicate Matches(p: nat, pipe: nat, write: bool)
      requires p < suspended.Length && p < saved.Length
      reads suspended, saved
    {
      suspended[p] && saved[p].Write? == write && saved[p].pipe == pipe
    }

    ghost function Matching(pipe: nat, write: bool): (m: seq<bool>)
      requires suspended.Length == saved.Length
      reads suspended, saved
      ensures |m| == suspended.Length && forall p :: 0 <= p < |m| ==> m[p] == Matches(p, pipe, write)
    {
      seq(suspended.Length, p requires 0 <= p < suspended.Length reads suspended, saved => Matches(p, pipe, write))
    }

    ghost function Here(i: nat): Scene
      requires i < pipes.Length
      reads pipes, suspended, revived, saved
    {
      Scene(pipes[i], suspended[..], revived[..], saved[..])
    }

    // revive(), for pipes.
    method Revive(p: nat)
      requires Valid() && p < suspended.Length
      modifies this`reviving, revived
      ensures Valid()
      ensures revived[..] == old(revived[..])[p := old(revived[p]) || suspended[p]]
      ensures reviving <= old(reviving) + 1
    {
      if !suspended[p] || revived[p] {
        return;
      }
      UpUpdate(revived[..], p, true);
      revived[p] := true;
      reviving := reviving + 1;
      assert revived[..] == old(revived[..])[p := true];
    }

    // release(): the first suspended calls of the kind, count0 of them at most,
    // are to be done again.
    method Release(pipe: nat, write: bool, count0: nat)
      requires Valid() && count0 > 0
      modifies this`reviving, revived
      ensures Valid() && reviving <= old(reviving) + count0
      ensures forall p :: 0 <= p < revived.Length ==>
        (revived[p] <==> old(revived[p]) || (Matches(p, pipe, write) && Up(Matching(pipe, write)[..p]) < count0))
    {
      hide Held, PipeOk, Up;
      ghost var m := Matching(pipe, write);
      var p, count := 0, count0;
      UpStart(m);
      while p < suspended.Length
        invariant 0 <= p <= suspended.Length && Valid() && 0 < count == count0 - Up(m[..p])
        invariant m == Matching(pipe, write) && reviving + count <= old(reviving) + count0
        invariant forall p' :: 0 <= p' < p ==> (revived[p'] <==> old(revived[p']) || (m[p'] && Up(m[..p']) < count0))
        invariant forall p' :: p <= p' < revived.Length ==> revived[p'] == old(revived[p'])
      {
        UpNext(m, p);
        if Matches(p, pipe, write) {
          ghost var was := revived[..];
          Revive(p);
          assert forall p' :: 0 <= p' < revived.Length && p' != p ==> revived[p'] == was[p'];
          count := count - 1;
          if count == 0 {
            forall p' | p < p' < revived.Length ensures Up(m[..p']) >= count0 {
              UpMono(m, p + 1, p');
            }
            return;
          }
        }
        p := p + 1;
      }
    }

    // release() of one call.
    method ReleaseOne(pipe: nat, write: bool)
      requires Valid() && pipe < pipes.Length
      modifies this`reviving, revived
      ensures Valid()
      ensures forall p :: 0 <= p < revived.Length ==>
        (revived[p] <==> old(revived[p]) || FirstHanging(old(Here(pipe)), p, pipe, write))
    {
      hide Held, PipeOk, Up;
      ghost var m, v := Matching(pipe, write), Here(pipe);
      Release(pipe, write, 1);
      forall p | 0 <= p < revived.Length
        ensures revived[p] <==> old(revived[p]) || FirstHanging(v, p, pipe, write)
      {
        UpZero(m, p);
        assert forall j :: 0 <= j < p ==> m[j] == Hangs(v, j, pipe, write);
      }
    }

    // suspend(): the call is put aside, with its parameters.
    method Suspend(p: nat, req: Request)
      requires Valid() && p < suspended.Length && !suspended[p] && req.pipe < pipes.Length && HasWriter(req)
      modifies suspended, saved
      ensures Valid() && suspended[..] == old(suspended[..])[p := true] && saved[..] == old(saved[..])[p := req]
    {
      suspended[p] := true;
      saved[p] := req;
    }

    // read_write() on a pipe: all or nothing, in order, or not at all and the
    // call is put aside.
    method ReadWrite(p: nat, req: Request) returns (r: Reply)
      requires Valid() && p < suspended.Length && !suspended[p] && req.pipe < pipes.Length && HasWriter(req)
      modifies this`reviving, this`written, this`delivered, pipes, suspended, revived, saved
      ensures Valid()
      ensures Done(req, r, old(pipes[req.pipe]), pipes[req.pipe], pipeSize)
      ensures forall i :: 0 <= i < pipes.Length && i != req.pipe ==> pipes[i] == old(pipes[i])
      ensures r == Suspended ==> suspended[..] == old(suspended[..])[p := true] && saved[..] == old(saved[..])[p := req]
      ensures r != Suspended ==> suspended[..] == old(suspended[..]) && saved[..] == old(saved[..])
      ensures written == old(written)[req.pipe := old(written[req.pipe]) + Put(req, r)]
      ensures delivered == old(delivered)[req.pipe := old(delivered[req.pipe]) + Got(req, r)]
      ensures r == Suspended ==> written == old(written) && delivered == old(delivered)
      ensures forall q :: 0 <= q < revived.Length ==>
        (revived[q] <==>
           || old(revived[q])
           || (Wakes(req, r, old(pipes[req.pipe]), true) && FirstHanging(old(Here(req.pipe)), q, req.pipe, true))
           || (Wakes(req, r, old(pipes[req.pipe]), false) && FirstHanging(old(Here(req.pipe)), q, req.pipe, false)))
    {
      assert written[req.pipe] + [] == written[req.pipe] && delivered[req.pipe] + [] == delivered[req.pipe];
      match req
      case Read(i, nbytes) =>
        r := DoRead(p, i, nbytes);
      case Write(i, data) =>
        r := DoWrite(p, i, data);
    }

    method DoRead(p: nat, i: nat, nbytes: nat) returns (r: Reply)
      requires Valid() && p < suspended.Length && !suspended[p] && i < pipes.Length
      modifies this`reviving, this`written, this`delivered, pipes, suspended, revived, saved
      ensures Valid() && r != EFBIG && r != EPIPE && !r.Count?
      ensures Done(Read(i, nbytes), r, old(pipes[i]), pipes[i], pipeSize)
      ensures forall k :: 0 <= k < pipes.Length && k != i ==> pipes[k] == old(pipes[k])
      ensures r == Suspended ==>
        suspended[..] == old(suspended[..])[p := true] && saved[..] == old(saved[..])[p := Read(i, nbytes)]
      ensures r != Suspended ==> suspended[..] == old(suspended[..]) && saved[..] == old(saved[..])
      ensures written == old(written)
      ensures delivered == if r.Bytes? then old(delivered)[i := old(delivered[i]) + r.data] else old(delivered)
      ensures r != Suspended ==> revived[..] == old(revived[..])
      ensures r == Suspended ==> forall q :: 0 <= q < revived.Length ==>
        (revived[q] <==> old(revived[q]) || FirstHanging(old(Here(i)), q, i, true))
    {
      if nbytes == 0 {
        assert delivered[i] + [] == delivered[i];
        return Bytes([]);
      }
      var q := pipes[i];
      // pipe_check()
      if q.rPos >= q.size {
        if q.writers > 0 {
          ghost var v := Here(i);
          Suspend(p, Read(i, nbytes));
          assert forall q: nat :: Hangs(Here(i), q, i, true) == Hangs(v, q, i, true);
          ReleaseOne(i, true);
          return Suspended;
        }
        assert delivered[i] + [] == delivered[i];
        return Bytes([]);
      }
      var n := if nbytes < q.size - q.rPos then nbytes else q.size - q.rPos;
      var data := q.bytes[q.rPos..q.size][..n];
      assert data == Held(q)[..n];
      Take(i, n);
      return Bytes(data);
    }

    // Move the reader on; an empty pipe starts again at the beginning.
    method Take(i: nat, n: nat)
      requires Valid() && i < pipes.Length && 0 < n <= |Held(pipes[i])|
      modifies this`delivered, pipes
      ensures Valid() && Held(pipes[i]) == old(Held(pipes[i]))[n..]
      ensures pipes[i].readers == old(pipes[i].readers) && pipes[i].writers == old(pipes[i].writers)
      ensures forall k :: 0 <= k < pipes.Length && k != i ==> pipes[k] == old(pipes[k])
      ensures delivered == old(delivered)[i := old(delivered[i]) + old(Held(pipes[i]))[..n]]
    {
      var q := pipes[i];
      assert Held(q) == Held(q)[..n] + Held(q)[n..];
      var position := q.rPos + n;
      pipes[i] :=
        if position >= q.size then q.(size := 0, rPos := 0, wPos := if q.writers > 0 then 0 else q.wPos)
        else q.(rPos := position);
      delivered := delivered[i := delivered[i] + Held(q)[..n]];
      assert delivered[i] + Held(pipes[i]) == old(delivered[i]) + (Held(q)[..n] + Held(q)[n..]);
    }

    method DoWrite(p: nat, i: nat, data: seq<int>) returns (r: Reply)
      requires Valid() && p < suspended.Length && !suspended[p] && i < pipes.Length && pipes[i].writers > 0
      modifies this`reviving, this`written, this`delivered, pipes, suspended, revived, saved
      ensures Valid() && !r.Bytes?
      ensures Done(Write(i, data), r, old(pipes[i]), pipes[i], pipeSize)
      ensures forall k :: 0 <= k < pipes.Length && k != i ==> pipes[k] == old(pipes[k])
      ensures r == Suspended ==>
        suspended[..] == old(suspended[..])[p := true] && saved[..] == old(saved[..])[p := Write(i, data)]
      ensures r != Suspended ==> suspended[..] == old(suspended[..]) && saved[..] == old(saved[..])
      ensures delivered == old(delivered)
      ensures written == if r.Count? then old(written)[i := old(written[i]) + data] else old(written)
      ensures !(r.Count? && data != [] && old(pipes[i].wPos) == 0) ==> revived[..] == old(revived[..])
      ensures r.Count? && data != [] && old(pipes[i].wPos) == 0 ==> forall q :: 0 <= q < revived.Length ==>
        (revived[q] <==> old(revived[q]) || FirstHanging(old(Here(i)), q, i, false))
    {
      if data == [] {
        assert written[i] + data == written[i];
        return Count(0);
      }
      var q := pipes[i];
      // pipe_check()
      if |data| > pipeSize {
        return EFBIG;
      }
      if q.readers == 0 {
        return EPIPE;
      }
      if q.wPos + |data| > pipeSize {
        Suspend(p, Write(i, data));
        return Suspended;
      }
      if q.wPos == 0 {
        ReleaseOne(i, false);
      }
      Append(i, data);
      return Count(|data|);
    }

    method Append(i: nat, data: seq<int>)
      requires Valid() && i < pipes.Length && pipes[i].writers > 0 && pipes[i].wPos + |data| <= pipeSize
      modifies this`written, pipes
      ensures Valid() && Held(pipes[i]) == old(Held(pipes[i])) + data
      ensures pipes[i].readers == old(pipes[i].readers) && pipes[i].writers == old(pipes[i].writers)
      ensures forall k :: 0 <= k < pipes.Length && k != i ==> pipes[k] == old(pipes[k])
      ensures written == old(written)[i := old(written[i]) + data]
    {
      var q := pipes[i];
      var position := q.wPos + |data|;
      pipes[i] := q.(bytes := q.bytes[..q.wPos] + data + q.bytes[position..], wPos := position, size := position);
      written := written[i := written[i] + data];
      assert delivered[i] + Held(pipes[i]) == delivered[i] + Held(q) + data;
    }

    // get_work(): a call that is to be done again comes first, just as it was
    // made.  The panic is out of reach.
    method GetWork() returns (w: Work)
      requires Valid()
      modifies this`reviving, suspended, revived
      ensures Valid() && !w.PanicNobody?
      ensures w.NewWork? <==> forall p :: 0 <= p < revived.Length ==> !old(revived[p])
      ensures w.NewWork? ==> suspended[..] == old(suspended[..]) && revived[..] == old(revived[..])
      ensures w.Restart? ==>
        && w.who < suspended.Length && old(revived[w.who]) && old(suspended[w.who])
        && w.req == saved[w.who] && w.req.pipe < pipes.Length && HasWriter(w.req)
        && (forall p :: 0 <= p < w.who ==> !old(revived[p]))
        && suspended[..] == old(suspended[..])[w.who := false] && revived[..] == old(revived[..])[w.who := false]
    {
      UpSome(revived[..]);
      if reviving != 0 {
        var p := 0;
        while p < revived.Length
          invariant 0 <= p <= revived.Length && forall p' :: 0 <= p' < p ==> !revived[p']
        {
          if revived[p] {
            w := Restart(p, saved[p]);
            UpUpdate(revived[..], p, false);
            suspended[p] := false;
            revived[p] := false;
            reviving := reviving - 1;
            assert revived[..] == old(revived[..])[p := false];
            return;
          }
          p := p + 1;
        }
        return PanicNobody;
      }
      return NewWork;
    }

    // A call of process p, which has asked for it, is carried out or put aside.
    method Carry(p: nat, req: Request) returns (r: Reply)
      requires Valid() && p < suspended.Length && !suspended[p] && req.pipe < pipes.Length && HasWriter(req)
      requires Ledger(asked, log, suspended[..][p := true], saved[..][p := req], written, delivered)
      modifies this`reviving, this`written, this`delivered, this`log, pipes, suspended, revived, saved
      ensures Valid() && Accounted()
      ensures Done(req, r, old(pipes[req.pipe]), pipes[req.pipe], pipeSize)
      ensures log == if r == Suspended then old(log) else old(log) + [Call(p, req, r)]
      ensures (suspended[p] <==> r == Suspended) && (r == Suspended ==> saved[p] == req)
      ensures forall k :: 0 <= k < pipes.Length && k != req.pipe ==> pipes[k] == old(pipes[k])
      ensures Woken(old(Here(req.pipe)), Here(req.pipe), old(pipes[req.pipe]), p, req, r)
    {
      hide Ledger, Done, Held, PipeOk, Up, Put, Got;
      LedgerSizes(asked, log, suspended[..][p := true], saved[..][p := req], written, delivered);
      ghost var asides, calls, written0, delivered0 := suspended[..][p := true], saved[..][p := req], written,
        delivered;
      r := ReadWrite(p, req);
      if r != Suspended {
        LedgerCall(asked, log, asides, calls, written0, delivered0, p, r, req.pipe, saved[..]);
        assert suspended[..] == asides[p := false];
        log := log + [Call(p, req, r)];
      } else {
        assert suspended[..] == asides && saved[..] == calls;
      }
    }

    // The loop of main(): a call that is to be done again, or else the next
    // one that arrives, which is from a process that is not put aside.
    method Turn(p: nat, req: Request) returns (w: Work, r: Reply)
      requires Valid() && Accounted()
      requires p < suspended.Length && !suspended[p] && req.pipe < pipes.Length && HasWriter(req)
      modifies this, pipes, suspended, revived, saved
      ensures Valid() && Accounted() && !w.PanicNobody?
      ensures w.NewWork? <==> forall p :: 0 <= p < revived.Length ==> !old(revived[p])
      ensures w.Restart? ==> w.who < suspended.Length && old(suspended[w.who]) && w.req == old(saved[w.who])
      ensures w.Restart? ==> old(revived[w.who]) && forall p :: 0 <= p < w.who ==> !old(revived[p])
      ensures asked == if w.NewWork? then old(asked)[p := old(asked[p]) + [req]] else old(asked)
      ensures var who, call := if w.Restart? then w.who else p, if w.Restart? then w.req else req;
        && call.pipe < pipes.Length && Done(call, r, old(pipes[call.pipe]), pipes[call.pipe], pipeSize)
        && log == (if r == Suspended then old(log) else old(log) + [Call(who, call, r)])
        && (suspended[who] <==> r == Suspended) && (r == Suspended ==> saved[who] == call)
        && Carried(old(Here(call.pipe)), Here(call.pipe), old(pipes[call.pipe]), who, call, r)
        && (forall k :: 0 <= k < pipes.Length && k != call.pipe ==> pipes[k] == old(pipes[k]))
      ensures forall i: nat, reader: nat ::
        && i < pipes.Length && old(Lively(Here(i), i, reader, pipeSize))
        && (w.NewWork? && req.Read? && req.pipe == i ==> p == reader && old(pipes[i].readers) > 0) ==>
          Lively(Here(i), i, reader, pipeSize)
    {
      hide Ledger, Done, Held, PipeOk, Up, Woken, Lively;
      LedgerSizes(asked, log, suspended[..], saved[..], written, delivered);
      ghost var asides, calls, wakes := suspended[..], saved[..], revived[..];
      ghost var pipes0 := pipes[..];
      w := GetWork();
      ghost var who, call := if w.Restart? then w.who else p, if w.Restart? then w.req else req;
      assert suspended[..] == asides[who := false] && revived[..] == wakes[who := false];
      if w.Restart? {
        assert suspended[..][w.who := true] == asides && saved[..][w.who := w.req] == calls;
        r := Carry(w.who, w.req);
      } else {
        LedgerAsk(asked, log, asides, calls, written, delivered, p, req);
        asked := asked[p := asked[p] + [req]];
        r := Carry(p, req);
      }
      assert Carried(Scene(pipes0[call.pipe], asides, wakes, calls), Here(call.pipe), pipes0[call.pipe], who, call, r);
      forall i: nat, reader: nat |
        && i < pipes.Length && Lively(Scene(pipes0[i], asides, wakes, calls), i, reader, pipeSize)
        && (w.NewWork? && req.Read? && req.pipe == i ==> p == reader && pipes0[i].readers > 0)
        ensures Lively(Here(i), i, reader, pipeSize)
      {
        AnyPipe(pipes0[call.pipe], pipes0[i], Here(call.pipe), Here(i), asides, wakes, calls, who, call, r);
        TurnLively(Scene(pipes0[i], asides, wakes, calls), Here(i), i, reader, pipes0[call.pipe], who, call, r,
          pipeSize);
      }
    }

    // release() of every call of the kind.
    method ReleaseAll(pipe: nat, write: bool)
      requires Valid() && pipe < pipes.Length
      modifies this`reviving, revived
      ensures Valid()
      ensures forall p: nat :: p < revived.Length ==>
        (revived[p] <==> old(revived[p]) || Hangs(old(Here(pipe)), p, pipe, write))
    {
      hide Held, PipeOk, Up;
      if suspended.Length > 0 {
        ghost var m, v := Matching(pipe, write), Here(pipe);
        Release(pipe, write, suspended.Length);
        assert forall j: nat :: j < |m| ==> m[j] == Hangs(v, j, pipe, write) && Up(m[..j]) < suspended.Length;
      }
    }

    // do_close() of one end: everybody hanging on the other is to try again.
    method Close(i: nat, write: bool)
      requires Valid() && i < pipes.Length && (if write then pipes[i].writers > 0 else pipes[i].readers > 0)
      requires write && pipes[i].writers == 1 ==> forall p :: 0 <= p < suspended.Length ==> !Matches(p, i, true)
      modifies this`reviving, pipes, revived
      ensures Valid() && Held(pipes[i]) == old(Held(pipes[i])) && Accounted() == old(Accounted())
      ensures forall p: nat :: p < suspended.Length ==>
        (revived[p] <==> old(revived[p]) || Hangs(old(Here(i)), p, i, !write))
      ensures pipes[..] == old(pipes[..])[i :=
        if write then old(pipes[i]).(writers := old(pipes[i].writers) - 1)
        else old(pipes[i]).(readers := old(pipes[i].readers) - 1)]
      ensures forall k: nat, reader: nat ::
        && k < pipes.Length && old(Lively(Here(k), k, reader, pipeSize))
        && (k == i && Hangs(old(Here(i)), reader, i, false) ==> pipes[i].readers > 0) ==>
          Lively(Here(k), k, reader, pipeSize)
    {
      hide Ledger, Up, Lively;
      ghost var asides, wakes, calls, pipes0 := suspended[..], revived[..], saved[..], pipes[..];
      ghost var v := Here(i);
      assert forall k: nat :: k < pipes.Length ==> Here(k) == Scene(pipes0[k], asides, wakes, calls);
      ReleaseAll(i, !write);
      Shut(i, write);
      forall k: nat, reader: nat {:trigger Lively(Here(k), k, reader, pipeSize)} |
        && k < pipes.Length && old(Lively(Here(k), k, reader, pipeSize))
        && (k == i && Hangs(old(Here(i)), reader, i, false) ==> pipes[i].readers > 0)
        ensures Lively(Here(k), k, reader, pipeSize)
      {
        ghost var v0 := Scene(pipes0[k], asides, wakes, calls);
        assert forall p: nat, end: bool :: Hangs(v0, p, i, end) == Hangs(v, p, i, end);
        CloseLively(v0, Here(k), k, reader, i, write, pipeSize);
      }
    }

    // One open file fewer at an end.
    method Shut(i: nat, write: bool)
      requires Valid() && i < pipes.Length && (if write then pipes[i].writers > 0 else pipes[i].readers > 0)
      requires write && pipes[i].writers == 1 ==> forall p :: 0 <= p < suspended.Length ==> !Matches(p, i, true)
      modifies pipes
      ensures Valid() && Held(pipes[i]) == old(Held(pipes[i])) && pipes[i].wPos == old(pipes[i].wPos)
      ensures pipes[..] == old(pipes[..])[i :=
        if write then old(pipes[i]).(writers := old(pipes[i].writers) - 1)
        else old(pipes[i]).(readers := old(pipes[i].readers) - 1)]
    {
      hide Up;
      var q := pipes[i];
      pipes[i] := if write then q.(writers := q.writers - 1) else q.(readers := q.readers - 1);
      assert Held(pipes[i]) == Held(q);
      assert forall p :: 0 <= p < suspended.Length && suspended[p] && saved[p].Write? && saved[p].pipe == i ==>
        Matches(p, i, true);
      assert forall k :: 0 <= k < pipes.Length && k != i ==> pipes[k] == old(pipes[k]);
    }

    // do_pipe(): a pipe with one open file at either end, on a fresh inode.
    method Open(i: nat)
      requires Valid() && i < pipes.Length && pipes[i].readers == 0 && pipes[i].writers == 0 && Held(pipes[i]) == []
      modifies pipes
      ensures Valid() && Held(pipes[i]) == [] && pipes[i].readers == 1 && pipes[i].writers == 1
      ensures Accounted() == old(Accounted())
      ensures forall k :: 0 <= k < pipes.Length && k != i ==> pipes[k] == old(pipes[k])
    {
      pipes[i] := pipes[i].(size := 0, rPos := 0, wPos := 0, readers := 1, writers := 1);
    }
  }
}
