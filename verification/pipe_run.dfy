// Two processes that read the same pipe: a write wakes only one of them, and
// what that one leaves is there while the other sleeps on.

module PipeRun {
  import opened Pipes

  const WRITER := 0
  const FIRST := 1
  const SECOND := 2

  // Three processes, of which these hang on the pipe, and these are to be
  // restarted.
  predicate Looks(v: Scene, suspended: seq<bool>, revived: seq<bool>) {
    && |v.saved| == 3 && v.suspended == suspended && v.revived == revived
    && |suspended| == |revived| == 3 && forall p :: 1 <= p < 3 && suspended[p] ==> v.saved[p] == Read(0, 1)
  }

  // The first reader waits, then the second.
  lemma Waits(v: Scene, v': Scene, p: nat)
    requires 1 <= p < 3 && Looks(v, [false, p == 2, false], [false, false, false])
    requires Carried(v, v', v.pipe, p, Read(0, 1), Suspended)
    ensures Looks(v', [false, true, p == 2], [false, false, false])
  {
    var m := TakenUp(v, p);
    assert forall q: nat :: !Hangs(m, q, 0, true);
    assert v'.suspended == [false, true, p == 2];
    assert v'.revived == [false, false, false];
  }

  // A write into the empty pipe wakes the first.
  lemma Wakes1(v: Scene, v': Scene)
    requires Looks(v, [false, true, true], [false, false, false]) && v.pipe.wPos == 0
    requires Carried(v, v', v.pipe, WRITER, Write(0, [7, 7]), Count(2))
    ensures Looks(v', [false, true, true], [false, true, false])
  {
    var m := TakenUp(v, WRITER);
    assert Hangs(m, FIRST, 0, false) && FirstHanging(m, FIRST, 0, false);
    assert !FirstHanging(m, SECOND, 0, false) && !FirstHanging(m, WRITER, 0, false);
    assert v'.suspended == [false, true, true];
    assert v'.revived == [false, true, false];
  }

  // It takes what it wants.
  lemma Leaves(v: Scene, v': Scene, r: Reply)
    requires Looks(v, [false, true, true], [false, true, false]) && r.Bytes?
    requires Carried(v, v', v.pipe, FIRST, Read(0, 1), r)
    ensures Looks(v', [false, false, true], [false, false, false])
  {
    assert v'.suspended == [false, false, true];
    assert v'.revived == [false, false, false];
  }

  // The writer waits for room.
  lemma Stops(v: Scene, v': Scene, req: Request)
    requires Looks(v, [false, false, true], [false, false, false]) && req.Write? && req.pipe == 0
    requires Carried(v, v', v.pipe, WRITER, req, Suspended)
    ensures Looks(v', [true, false, true], [false, false, false]) && v'.saved[WRITER] == req
  {
    assert v'.suspended == [true, false, true];
    assert v'.revived == [false, false, false];
  }

  lemma Sleep(v: Scene)
    requires Looks(v, [true, false, true], [false, false, false]) && v.saved[WRITER].Write? && v.saved[WRITER].pipe == 0
    ensures |v.revived| == 3 && Asleep(v, SECOND, 0, false) && Asleep(v, WRITER, 0, true)
    ensures forall p :: 0 <= p < 3 ==> !v.revived[p]
  {}

  // What the calls do to the pipe.
  predicate Shared(p: Pipe) {
    p.readers > 0 && p.writers > 0
  }

  lemma ReadsNothing(p: Pipe, p': Pipe, r: Reply)
    requires Shared(p) && Held(p) == [] && Done(Read(0, 1), r, p, p', 4)
    ensures r == Suspended && p' == p
  {}

  lemma WritesTwo(p: Pipe, p': Pipe, r: Reply)
    requires PipeOk(p, 4) && Shared(p) && Held(p) == [] && Done(Write(0, [7, 7]), r, p, p', 4)
    ensures p.wPos == 0 && r == Count(2) && Held(p') == [7, 7] && Shared(p')
  {
    EmptyPipe(p, 4);
  }

  lemma ReadsOne(p: Pipe, p': Pipe, r: Reply)
    requires Shared(p) && Held(p) == [7, 7] && Done(Read(0, 1), r, p, p', 4)
    ensures r == Bytes([7]) && Held(p') == [7] && Shared(p')
  {
    assert [7, 7][..1] == [7] && [7, 7][1..] == [7];
  }

  lemma NoRoom(p: Pipe, p': Pipe, r: Reply)
    requires PipeOk(p, 4) && Shared(p) && Held(p) == [7] && Done(Write(0, [1, 2, 3, 4]), r, p, p', 4)
    ensures r == Suspended && p' == p
  {}

  ghost predicate Ready(t: PipeTable)
    reads t, t.pipes, t.suspended, t.revived, t.saved
  {
    && t.Valid() && t.Accounted() && t.pipeSize == 4 && t.pipes.Length == 1 && t.suspended.Length == 3
    && Shared(t.pipes[0])
  }

  method Make() returns (t: PipeTable)
    ensures Ready(t) && fresh(t) && fresh(t.pipes) && fresh(t.suspended) && fresh(t.revived) && fresh(t.saved)
    ensures Held(t.pipes[0]) == [] && Looks(t.Here(0), [false, false, false], [false, false, false])
  {
    t := new PipeTable(4, 1, 3);
    t.Open(0);
    assert t.suspended[..] == [false, false, false];
    assert t.revived[..] == [false, false, false];
  }

  method Wait(t: PipeTable, p: nat)
    requires Ready(t) && 1 <= p < 3 && Held(t.pipes[0]) == []
    requires Looks(t.Here(0), [false, p == 2, false], [false, false, false])
    modifies t, t.pipes, t.suspended, t.revived, t.saved
    ensures Ready(t) && Held(t.pipes[0]) == [] && Looks(t.Here(0), [false, true, p == 2], [false, false, false])
  {
    hide Carried, Lively, PipeOk, Held, Done;
    ghost var v := t.Here(0);
    var w, r := t.Turn(p, Read(0, 1));
    assert w == NewWork;
    ReadsNothing(v.pipe, t.pipes[0], r);
    Waits(v, t.Here(0), p);
  }

  method Feed(t: PipeTable)
    requires Ready(t) && Held(t.pipes[0]) == [] && Looks(t.Here(0), [false, true, true], [false, false, false])
    modifies t, t.pipes, t.suspended, t.revived, t.saved
    ensures Ready(t) && Held(t.pipes[0]) == [7, 7] && Looks(t.Here(0), [false, true, true], [false, true, false])
  {
    hide Carried, Lively, PipeOk, Held, Done;
    ghost var v := t.Here(0);
    var w, r := t.Turn(WRITER, Write(0, [7, 7]));
    assert w == NewWork;
    WritesTwo(v.pipe, t.pipes[0], r);
    Wakes1(v, t.Here(0));
  }

  // The first reader is restarted, whatever else arrives.
  method Take(t: PipeTable)
    requires Ready(t) && Held(t.pipes[0]) == [7, 7] && Looks(t.Here(0), [false, true, true], [false, true, false])
    modifies t, t.pipes, t.suspended, t.revived, t.saved
    ensures Ready(t) && Held(t.pipes[0]) == [7] && Looks(t.Here(0), [false, false, true], [false, false, false])
  {
    hide Carried, Lively, PipeOk, Held, Done;
    ghost var v := t.Here(0);
    var w, r := t.Turn(WRITER, Read(0, 1));
    assert v.revived[FIRST];
    assert w == Restart(FIRST, Read(0, 1));
    ReadsOne(v.pipe, t.pipes[0], r);
    Leaves(v, t.Here(0), r);
  }

  // In the end the pipe holds a byte, the second reader sleeps, and so does the
  // writer, who finds no room for four more.
  method TwoReaders() returns (t: PipeTable)
    ensures Ready(t) && fresh(t) && Held(t.pipes[0]) == [7]
    ensures Asleep(t.Here(0), SECOND, 0, false) && Asleep(t.Here(0), WRITER, 0, true)
    ensures forall p :: 0 <= p < 3 ==> !t.revived[p]
  {
    hide Looks, Ready, Held, Asleep;
    t := Make();
    Wait(t, FIRST);
    Wait(t, SECOND);
    Feed(t);
    Take(t);
    Stop(t);
    Sleep(t.Here(0));
  }

  method Stop(t: PipeTable)
    requires Ready(t) && Held(t.pipes[0]) == [7] && Looks(t.Here(0), [false, false, true], [false, false, false])
    modifies t, t.pipes, t.suspended, t.revived, t.saved
    ensures Ready(t) && Held(t.pipes[0]) == [7] && Looks(t.Here(0), [true, false, true], [false, false, false])
    ensures t.saved[WRITER] == Write(0, [1, 2, 3, 4])
  {
    hide Carried, Lively, PipeOk, Held, Done;
    ghost var v := t.Here(0);
    var w, r := t.Turn(WRITER, Write(0, [1, 2, 3, 4]));
    assert w == NewWork;
    NoRoom(v.pipe, t.pipes[0], r);
    Stops(v, t.Here(0), Write(0, [1, 2, 3, 4]));
  }
}
