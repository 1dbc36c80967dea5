// The conservation law of messages over whole runs, and first-in first-out
// order for receivers that accept from anybody.

module RendezvousLedger {
  import opened Links
  import opened Rendezvous
  import opened RendezvousInvariants
  import opened RendezvousRuns
  import opened RendezvousDelivery

  // The only three things an event does to the packets bound for d: queue
  // what it accepted, hand it over at once, or hand over a queued one.
  ghost predicate Moves(s: State, e: Event, t: State, d: int)
    requires Good(s) && Legal(s, e) && Sized(t) && |t.procs| == |s.procs| && 0 <= d < |s.procs|
    requires CallersInTable(s) && CallersInTable(t)
  {
    var a := To(Accepted(s, e), d);
    var v := To(Delivered(s, e), d);
    || (v == [] && Waiting(t, d) == Waiting(s, d) + a)
    || (|a| == 1 && v == a && Waiting(t, d) == Waiting(s, d) && Awaits(s, d, a[0].src))
    || (&& a == [] && e.Trap? && e.func == RECEIVE && d == s.cur
        && var i := FirstFrom(s.cfg, s.callers[d], e.src);
           i < |Waiting(s, d)| && v == [Waiting(s, d)[i]] && Waiting(t, d) == Without(Waiting(s, d), i))
  }

  // Steps that change only registers, proc_ptr, ready queues and the counter.
  lemma SameWaiting(s: State, t: State, own: seq<int>)
    requires Sized(s) && Sized(t) && CallersInTable(s) && CallersInTable(t) && OwnedMem(s, own)
    requires t.cfg == s.cfg && t.procs == s.procs && t.callers == s.callers && t.mem == s.mem
    ensures forall d :: 0 <= d < |s.procs| ==> Waiting(t, d) == Waiting(s, d)
    ensures OwnedMem(t, own)
  {
    forall d | 0 <= d < |s.procs| ensures Waiting(t, d) == Waiting(s, d) {
      forall i | 0 <= i < |s.callers[d]| ensures Waiting(t, d)[i] == Waiting(s, d)[i] {}
    }
  }

  lemma StoreMoves(s: State, own: seq<int>, e: Event, d: int)
    requires Good(s) && OwnedMem(s, own) && Legal(s, e) && e.Store? && OwnEvent(s, own, e)
    requires 0 <= d < |s.procs|
    ensures var t := Step(s, e);
      Good(t) && CallersInTable(s) && CallersInTable(t) && OwnedMem(t, own) && Moves(s, e, t, d)
  {
    var t := Step(s, e);
    StepKeeps(s, e);
    QueuedTables(s);
    QueuedTables(t);
    RunningIsReady(s);
    NotQueued(s, s.cur, d);
    WaitingFrame(s, t, own, s.cur, d);
  }

  // Writing the tick message touches kernel memory only.
  lemma TickStart(s: State, own: seq<int>)
    requires Good(s) && OwnedMem(s, own)
    ensures var m := s.cfg.tickBuf;
      var s0 := s.(mem := s.mem[m := HARDWARE][m + 1 := CLOCK_TICK]);
      && Queued(s0) && OneWait(s0) && OwnedMem(s0, own) && CallersInTable(s) && CallersInTable(s0)
      && forall d :: 0 <= d < |s.procs| ==> Waiting(s0, d) == Waiting(s, d)
  {
    var m := s.cfg.tickBuf;
    var c := s.cfg.Hardware();
    var s0 := s.(mem := s.mem[m := HARDWARE][m + 1 := CLOCK_TICK]);
    TickSent(s);
    QueuedTables(s);
    QueuedTables(s0);
    assert own[m] == c && own[m + 1] == c;
    forall d | 0 <= d < |s.procs| ensures Waiting(s0, d) == Waiting(s, d) {
      NotQueued(s, c, d);
      WaitingFrame(s, s0, own, c, d);
    }
  }

  // After the send only the scheduler runs.
  lemma TickEnd(s: State)
    requires Good(s)
    ensures var s1 := Ticked(s);
      var t := Step(s, Tick);
      t.cfg == s1.cfg && t.procs == s1.procs && t.callers == s1.callers && t.mem == s1.mem
  {}

  lemma TickedIs(s: State)
    requires Queued(s)
    ensures var m := s.cfg.tickBuf;
      var s0 := s.(mem := s.mem[m := HARDWARE][m + 1 := CLOCK_TICK]);
      && Sized(s0) && ReadyInTable(s0)
      && Ticked(s) == Send(s0, s.cfg.Hardware(), s.cfg.Slot(s.cfg.clock), m)
  {
    TickSent(s);
  }

  // The message to the clock task.
  lemma TickDelivered(s: State, own: seq<int>)
    requires Good(s) && OwnedMem(s, own)
    ensures var t := Ticked(s);
      var k := s.cfg.Slot(s.cfg.clock);
      && Queued(t) && CallersInTable(s) && CallersInTable(t) && OwnedMem(t, own) && |t.procs| == |s.procs|
      && (forall d :: 0 <= d < |s.procs| ==> Waiting(t, d) == Waiting(s, d))
      && |t.mem| == |s.mem|
      && (Awaits(s, k, s.cfg.Hardware()) ==> Body(t.mem, s.procs[k].messbuf) == TickPacket(s).body)
  {
    TickStart(s, own);
    TickedIs(s);
    var m := s.cfg.tickBuf;
    var s0 := s.(mem := s.mem[m := HARDWARE][m + 1 := CLOCK_TICK]);
    SendMoves(s0, own, s.cfg.Hardware(), s.cfg.Slot(s.cfg.clock), m);
  }

  lemma TickWaiting(s: State, own: seq<int>)
    requires Good(s) && OwnedMem(s, own)
    ensures var t := Step(s, Tick);
      var k := s.cfg.Slot(s.cfg.clock);
      && Good(t) && CallersInTable(s) && CallersInTable(t) && OwnedMem(t, own) && |t.mem| == |s.mem|
      && (forall d :: 0 <= d < |s.procs| ==> Waiting(t, d) == Waiting(s, d))
      && (Awaits(s, k, s.cfg.Hardware()) ==> Body(t.mem, s.procs[k].messbuf) == TickPacket(s).body)
  {
    StepKeeps(s, Tick);
    TickDelivered(s, own);
    TickEnd(s);
    QueuedTables(Step(s, Tick));
    SameWaiting(Ticked(s), Step(s, Tick), own);
  }

  lemma TickMoves(s: State, own: seq<int>, d: int)
    requires Good(s) && OwnedMem(s, own) && 0 <= d < |s.procs|
    ensures var t := Step(s, Tick);
      Good(t) && CallersInTable(s) && CallersInTable(t) && OwnedMem(t, own) && Moves(s, Tick, t, d)
  {
    TickWaiting(s, own);
    var t := Step(s, Tick);
    var k := s.cfg.Slot(s.cfg.clock);
    assert s.procs[k].flags.free ==> !Awaits(s, k, s.cfg.Hardware());
    assert Accepted(s, Tick) == Delivered(s, Tick);
    if Awaits(s, k, s.cfg.Hardware()) {
      assert To(Accepted(s, Tick), d) == if k == d then [TickPacket(s)] else [];
    } else {
      assert To(Accepted(s, Tick), d) == [];
    }
  }

  lemma SendStepMoves(s: State, own: seq<int>, e: Event, d: int)
    requires Good(s) && OwnedMem(s, own) && Legal(s, e) && e.Trap? && OwnEvent(s, own, e)
    requires 0 <= d < |s.procs| && e.func == SEND
    ensures var t := Step(s, e);
      Good(t) && CallersInTable(s) && CallersInTable(t) && OwnedMem(t, own) && Moves(s, e, t, d)
  {
    var t := Step(s, e);
    StepKeeps(s, e);
    StepMem(s, e);
    QueuedTables(s);
    QueuedTables(t);
    RunningIsReady(s);
    var s0 := Trapped(s, e.func, e.src, e.mptr);
    OnlyData(s, s0);
    QueuedTables(s0);
    SameWaiting(s, s0, own);
    var c := s.cur;
    var k := s.cfg.Slot(e.src);
    SendMoves(s0, own, c, k, e.mptr);
    SameWaiting(Send(s0, c, k, e.mptr), t, own);
    var packet := Packet(c, k, Stamped(s.mem, s.cfg.Pid(c), e.mptr));
    assert s.procs[k].flags.free ==> !Awaits(s, k, c);
    if Awaits(s, k, c) {
      assert Accepted(s, e) == Delivered(s, e) == [packet];
      assert To([packet], d) == if k == d then [packet] else [];
    } else {
      assert Delivered(s, e) == [];
      assert Waiting(t, d) == Waiting(s, d) + To(Accepted(s, e), d);
    }
  }

  lemma ReceiveStepMoves(s: State, own: seq<int>, e: Event, d: int)
    requires Good(s) && OwnedMem(s, own) && Legal(s, e) && e.Trap? && OwnEvent(s, own, e)
    requires 0 <= d < |s.procs| && e.func == RECEIVE
    ensures var t := Step(s, e);
      Good(t) && CallersInTable(s) && CallersInTable(t) && OwnedMem(t, own) && Moves(s, e, t, d)
  {
    var t := Step(s, e);
    StepKeeps(s, e);
    StepMem(s, e);
    QueuedTables(s);
    QueuedTables(t);
    RunningIsReady(s);
    var s0 := Trapped(s, e.func, e.src, e.mptr);
    OnlyData(s, s0);
    QueuedTables(s0);
    SameWaiting(s, s0, own);
    ReceiveMoves(s0, own, s.cur, e.src, e.mptr);
    SameWaiting(Receive(s0, s.cur, e.src, e.mptr), t, own);
    assert Accepted(s, e) == [];
    var i := FirstFrom(s.cfg, s.callers[s.cur], e.src);
    if i < |s.callers[s.cur]| {
      assert Delivered(s, e) == [Waiting(s, s.cur)[i]];
      assert To([Waiting(s, s.cur)[i]], d) == if d == s.cur then [Waiting(s, s.cur)[i]] else [];
    } else {
      assert Delivered(s, e) == [];
    }
  }

  lemma TrapMoves(s: State, own: seq<int>, e: Event, d: int)
    requires Good(s) && OwnedMem(s, own) && Legal(s, e) && e.Trap? && OwnEvent(s, own, e)
    requires 0 <= d < |s.procs|
    ensures var t := Step(s, e);
      Good(t) && CallersInTable(s) && CallersInTable(t) && OwnedMem(t, own) && Moves(s, e, t, d)
  {
    if e.func == SEND {
      SendStepMoves(s, own, e, d);
    } else if e.func == RECEIVE {
      ReceiveStepMoves(s, own, e, d);
    } else {
      StepKeeps(s, e);
      QueuedTables(s);
      QueuedTables(Step(s, e));
      SameWaiting(s, Step(s, e), own);
    }
  }

  lemma StepMoves(s: State, own: seq<int>, e: Event, d: int)
    requires Good(s) && OwnedMem(s, own) && Legal(s, e) && OwnEvent(s, own, e)
    requires 0 <= d < |s.procs|
    ensures var t := Step(s, e);
      Good(t) && CallersInTable(s) && CallersInTable(t) && OwnedMem(t, own) && Moves(s, e, t, d)
  {
    match e
    case Tick => TickMoves(s, own, d);
    case Trap(_, _, _) => TrapMoves(s, own, e, d);
    case Store(_, _) => StoreMoves(s, own, e, d);
  }

  // ---------------------------------------------------------------------
  // Accounts of one event

  // No lost wakeup: a sender whose message d awaits has nothing queued there.
  lemma AwaitedNotWaiting(s: State, d: int, c: int)
    requires Queued(s) && CallersInTable(s) && 0 <= d < |s.procs| && Awaits(s, d, c)
    ensures From(Waiting(s, d), c) == []
    ensures s.procs[d].getfrom == s.cfg.Any() ==> Waiting(s, d) == []
  {
    forall i | 0 <= i < |Waiting(s, d)| ensures Waiting(s, d)[i].src != c {
      assert s.callers[d][i] in s.callers[d];
    }
    FromNone(Waiting(s, d), c);
    assert s.callers[d] != [] ==> s.callers[d][0] in s.callers[d] && !Awaits(s, d, s.callers[d][0]);
  }

  lemma FromWithout(q: seq<Packet>, i: nat, c: int)
    requires i < |q|
    requires forall j, k :: 0 <= j < k < |q| ==> q[j].src != q[k].src
    ensures From(q, c) == From([q[i]], c) + From(Without(q, i), c)
  {
    assert q == q[..i] + ([q[i]] + q[i + 1..]);
    FromAppend(q[..i], [q[i]] + q[i + 1..], c);
    FromAppend([q[i]], q[i + 1..], c);
    FromAppend(q[..i], q[i + 1..], c);
    if q[i].src == c {
      FromNone(q[..i], c);
    }
  }

  lemma WaitingApart(s: State, d: int)
    requires Queued(s) && CallersInTable(s) && 0 <= d < |s.procs|
    ensures var q := Waiting(s, d); forall j, k :: 0 <= j < k < |q| ==> q[j].src != q[k].src
  {
    assert SenderQueue(s, d);
  }

  lemma StepConserves(s: State, own: seq<int>, e: Event, c: int, d: int)
    requires Good(s) && OwnedMem(s, own) && Legal(s, e) && OwnEvent(s, own, e)
    requires 0 <= d < |s.procs|
    ensures var t := Step(s, e);
      && Good(t) && CallersInTable(s) && CallersInTable(t) && OwnedMem(t, own) && |t.procs| == |s.procs|
      && From(Waiting(s, d), c) + Between(Accepted(s, e), c, d)
         == Between(Delivered(s, e), c, d) + From(Waiting(t, d), c)
  {
    StepMoves(s, own, e, d);
    StepMem(s, e);
    var a := To(Accepted(s, e), d);
    var v := To(Delivered(s, e), d);
    var t := Step(s, e);
    if v == [] && Waiting(t, d) == Waiting(s, d) + a {
      FromAppend(Waiting(s, d), a, c);
    } else if |a| == 1 && v == a {
      AwaitedNotWaiting(s, d, a[0].src);
      assert From(a, c) == if a[0].src == c then a else [];
    } else {
      WaitingApart(s, d);
      FromWithout(Waiting(s, d), FirstFrom(s.cfg, s.callers[d], e.src), c);
    }
  }

  // d accepts messages from anybody: it is not blocked on a specific source,
  // and this event is not a receive of its own from a specific source.
  ghost predicate AnyOnly(s: State, e: Event, d: int)
    requires Sized(s) && 0 <= d < |s.procs|
  {
    && (s.procs[d].flags.receiving ==> s.procs[d].getfrom == s.cfg.Any())
    && (e.Trap? && e.func == RECEIVE && d == s.cur ==> e.src == s.cfg.Any())
  }

  lemma TakeFirst(w: seq<Packet>)
    requires w != []
    ensures w + [] == [w[0]] + Without(w, 0)
  {}

  // Then a queued message is taken from the front only, and one handed over at
  // once overtakes none.
  lemma MovesFifo(s: State, e: Event, t: State, d: int)
    requires Good(s) && Legal(s, e) && Sized(t) && |t.procs| == |s.procs| && 0 <= d < |s.procs|
    requires CallersInTable(s) && CallersInTable(t) && Moves(s, e, t, d) && AnyOnly(s, e, d)
    ensures Waiting(s, d) + To(Accepted(s, e), d) == To(Delivered(s, e), d) + Waiting(t, d)
  {
    var a, v, w := To(Accepted(s, e), d), To(Delivered(s, e), d), Waiting(s, d);
    if v == [] && Waiting(t, d) == w + a {
      assert v + (w + a) == w + a;
    } else if |a| == 1 && v == a {
      AwaitedNotWaiting(s, d, a[0].src);
      assert [] + a == a + [];
    } else {
      assert FirstFrom(s.cfg, s.callers[d], e.src) == 0;
      TakeFirst(w);
    }
  }

  lemma StepFifo(s: State, own: seq<int>, e: Event, d: int)
    requires Good(s) && OwnedMem(s, own) && Legal(s, e) && OwnEvent(s, own, e)
    requires 0 <= d < |s.procs| && AnyOnly(s, e, d)
    ensures var t := Step(s, e);
      && Good(t) && CallersInTable(s) && CallersInTable(t) && OwnedMem(t, own) && |t.procs| == |s.procs|
      && Waiting(s, d) + To(Accepted(s, e), d) == To(Delivered(s, e), d) + Waiting(t, d)
  {
    StepMoves(s, own, e, d);
    StepMem(s, e);
    MovesFifo(s, e, Step(s, e), d);
  }

  // ---------------------------------------------------------------------
  // Accounts of a run

  ghost function AllAccepted(s: State, es: seq<Event>): seq<Packet>
    requires Good(s)
    decreases |es|
  {
    if es == [] then []
    else if Legal(s, es[0]) then
      StepKeeps(s, es[0]);
      Accepted(s, es[0]) + AllAccepted(Step(s, es[0]), es[1..])
    else AllAccepted(s, es[1..])
  }

  ghost function AllDelivered(s: State, es: seq<Event>): seq<Packet>
    requires Good(s)
    decreases |es|
  {
    if es == [] then []
    else if Legal(s, es[0]) then
      StepKeeps(s, es[0]);
      Delivered(s, es[0]) + AllDelivered(Step(s, es[0]), es[1..])
    else AllDelivered(s, es[1..])
  }

  // Every event of the run keeps to the memory of the process that causes it.
  ghost predicate OwnRun(s: State, own: seq<int>, es: seq<Event>)
    requires Good(s) && |own| == |s.mem|
    decreases |es|
  {
    es != [] ==>
      if Legal(s, es[0]) then
        StepKeeps(s, es[0]);
        StepMem(s, es[0]);
        OwnEvent(s, own, es[0]) && OwnRun(Step(s, es[0]), own, es[1..])
      else OwnRun(s, own, es[1..])
  }

  // Whatever c sent to d and the kernel accepted is delivered exactly once,
  // unaltered and in order, or is still waiting; nothing else is delivered.
  lemma {:induction false} Conservation(s: State, own: seq<int>, es: seq<Event>, c: int, d: int)
    requires Good(s) && OwnedMem(s, own) && OwnRun(s, own, es)
    requires 0 <= d < |s.procs|
    ensures var t := Run(s, es);
      && CallersInTable(s) && CallersInTable(t) && |t.procs| == |s.procs| && OwnedMem(t, own)
      && From(Waiting(s, d), c) + Between(AllAccepted(s, es), c, d)
         == Between(AllDelivered(s, es), c, d) + From(Waiting(t, d), c)
    decreases |es|
  {
    QueuedTables(s);
    if es != [] {
      if Legal(s, es[0]) {
        var t := Step(s, es[0]);
        StepConserves(s, own, es[0], c, d);
        Conservation(t, own, es[1..], c, d);
        BetweenAppend(Accepted(s, es[0]), AllAccepted(t, es[1..]), c, d);
        BetweenAppend(Delivered(s, es[0]), AllDelivered(t, es[1..]), c, d);
        Telescope(From(Waiting(s, d), c), Between(Accepted(s, es[0]), c, d), Between(AllAccepted(t, es[1..]), c, d),
                  Between(Delivered(s, es[0]), c, d), Between(AllDelivered(t, es[1..]), c, d),
                  From(Waiting(t, d), c), From(Waiting(Run(s, es), d), c));
      } else {
        Conservation(s, own, es[1..], c, d);
      }
    }
  }

  lemma BetweenAppend(a: seq<Packet>, b: seq<Packet>, c: int, d: int)
    ensures Between(a + b, c, d) == Between(a, c, d) + Between(b, c, d)
  {
    ToAppend(a, b, d);
    FromAppend(To(a, d), To(b, d), c);
  }

  lemma Telescope(w: seq<Packet>, a: seq<Packet>, a': seq<Packet>, v: seq<Packet>, v': seq<Packet>,
                  w1: seq<Packet>, w2: seq<Packet>)
    requires w + a == v + w1 && w1 + a' == v' + w2
    ensures w + (a + a') == (v + v') + w2
  {
    calc {
      w + (a + a');
      (w + a) + a';
      v + (w1 + a');
      (v + v') + w2;
    }
  }

  ghost predicate AnyRun(s: State, es: seq<Event>, d: int)
    requires Good(s) && 0 <= d < |s.procs|
    decreases |es|
  {
    es != [] ==>
      if Legal(s, es[0]) then
        StepKeeps(s, es[0]);
        StepMem(s, es[0]);
        AnyOnly(s, es[0], d) && AnyRun(Step(s, es[0]), es[1..], d)
      else AnyRun(s, es[1..], d)
  }

  // A process that only ever receives from ANY gets the messages of all its
  // senders together in the order the kernel accepted them.
  lemma {:induction false} FifoFromAny(s: State, own: seq<int>, es: seq<Event>, d: int)
    requires Good(s) && OwnedMem(s, own) && OwnRun(s, own, es)
    requires 0 <= d < |s.procs| && AnyRun(s, es, d)
    ensures var t := Run(s, es);
      && CallersInTable(s) && CallersInTable(t) && |t.procs| == |s.procs|
      && Waiting(s, d) + To(AllAccepted(s, es), d) == To(AllDelivered(s, es), d) + Waiting(t, d)
    decreases |es|
  {
    QueuedTables(s);
    if es != [] {
      if Legal(s, es[0]) {
        var t := Step(s, es[0]);
        StepFifo(s, own, es[0], d);
        FifoFromAny(t, own, es[1..], d);
        ToAppend(Accepted(s, es[0]), AllAccepted(t, es[1..]), d);
        ToAppend(Delivered(s, es[0]), AllDelivered(t, es[1..]), d);
        Telescope(Waiting(s, d), To(Accepted(s, es[0]), d), To(AllAccepted(t, es[1..]), d),
                  To(Delivered(s, es[0]), d), To(AllDelivered(t, es[1..]), d),
                  Waiting(t, d), Waiting(Run(s, es), d));
      } else {
        FifoFromAny(s, own, es[1..], d);
      }
    }
  }
}
