// What a process finds when a call is over: the code in its frame, and the
// message it asked for in the buffer it named.

module RendezvousAnswers {
  import opened Links
  import opened Rendezvous
  import opened RendezvousInvariants
  import opened RendezvousRuns
  import opened RendezvousDelivery

  // ---------------------------------------------------------------------
  // Codes

  // The code of a trap: a send to a free slot is refused.
  function Answer(s: State, e: Event): int
    requires Legal(s, e) && e.Trap?
  {
    if e.func == SEND && s.procs[s.cfg.Slot(e.src)].flags.free then s.cfg.eBadDest else OK
  }

  // mini_send() and mini_rec() touch no frame.
  lemma SendFrames(s: State, c: int, d: int, ptr: int)
    requires Sized(s) && ReadyInTable(s)
    requires 0 <= d < |s.procs| && 0 <= c < |s.procs| && IsBuffer(s.mem, ptr)
    ensures Send(s, c, d, ptr).frames == s.frames
  {}

  lemma ReceiveFrames(s: State, c: int, src: int, ptr: int)
    requires Sized(s) && ReadyInTable(s) && CallersInTable(s) && 0 <= c < |s.procs| && IsBuffer(s.mem, ptr)
    ensures Receive(s, c, src, ptr).frames == s.frames
  {}

  // The code of a trap goes to the process that trapped, blocked or not, and
  // its other registers are as it pushed them; a tick or a store, and the trap
  // of another process, change no frame.
  lemma StepAnswers(s: State, e: Event, p: int)
    requires Good(s) && Legal(s, e) && 0 <= p < |s.procs|
    ensures var t := Step(s, e);
      |t.frames| == |s.frames| == |s.procs| &&
      t.frames[p] == if e.Trap? && p == s.cur then Frame(Answer(s, e), e.src, e.mptr) else s.frames[p]
  {
    QueuedTables(s);
    match e
    case Store(_, _) =>
    case Tick =>
      TickSent(s);
      var m := s.cfg.tickBuf;
      var s0 := s.(mem := s.mem[m := HARDWARE][m + 1 := CLOCK_TICK]);
      SendFrames(s0, s.cfg.Hardware(), s.cfg.Slot(s.cfg.clock), m);
    case Trap(func, src, mptr) =>
      var s0 := Trapped(s, func, src, mptr);
      OnlyData(s, s0);
      QueuedTables(s0);
      if func == SEND {
        SendFrames(s0, s.cur, s.cfg.Slot(src), mptr);
      } else if func == RECEIVE {
        ReceiveFrames(s0, s.cur, src, mptr);
      }
  }

  lemma AnswersAll(s: State, e: Event)
    requires Good(s) && Legal(s, e)
    ensures |Step(s, e).frames| == |s.frames| == |s.procs|
    ensures forall p :: 0 <= p < |s.procs| ==>
      Step(s, e).frames[p] == if e.Trap? && p == s.cur then Frame(Answer(s, e), e.src, e.mptr) else s.frames[p]
  {
    StepAnswers(s, e, s.cur);
    forall p | 0 <= p < |s.procs|
      ensures Step(s, e).frames[p] == if e.Trap? && p == s.cur then Frame(Answer(s, e), e.src, e.mptr) else s.frames[p]
    {
      StepAnswers(s, e, p);
    }
  }

  // The code tells a sender what has become of its message: OK when it has been
  // accepted, E_BAD_DEST when the slot is free, and then nothing has happened.
  lemma AnswerTells(s: State, e: Event)
    requires Good(s) && Legal(s, e) && e.Trap? && e.func == SEND
    ensures var t, d := Step(s, e), s.cfg.Slot(e.src);
      var packet := Packet(s.cur, d, Stamped(s.mem, s.cfg.Pid(s.cur), e.mptr));
      && |t.frames| == |s.procs|
      && (t.frames[s.cur].a == OK <==> Accepted(s, e) == [packet])
      && (t.frames[s.cur].a == s.cfg.eBadDest <==> s.procs[d].flags.free)
      && (s.procs[d].flags.free ==> Accepted(s, e) == [] && t == s.(frames := t.frames))
  {
    StepAnswers(s, e, s.cur);
  }

  // HARDWARE is told of an overrun exactly when the task is there but does not
  // wait, and then the tick is lost.
  lemma TickTells(s: State)
    requires Good(s)
    ensures var d := s.cfg.Slot(s.cfg.clock);
      var n := SendCode(s, s.cfg.Hardware(), d);
      && (n == s.cfg.eOverrun <==> !s.procs[d].flags.free && !Awaits(s, d, s.cfg.Hardware()))
      && (n == s.cfg.eBadDest <==> s.procs[d].flags.free)
      && (n == OK <==> Accepted(s, Tick) == [TickPacket(s)])
      && (n == OK <==> Delivered(s, Tick) != [])
  {
    StepMem(s, Tick);
  }

  // The frame of p after a run that starts with frame f: the last answer.
  ghost function LastAnswer(s: State, es: seq<Event>, p: int, f: Frame): Frame
    requires Good(s) && 0 <= p < |s.procs|
    decreases |es|
  {
    if es == [] then f
    else if Legal(s, es[0]) then
      var e := es[0];
      StepKeeps(s, e);
      StepMem(s, e);
      LastAnswer(Step(s, e), es[1..], p,
                 if e.Trap? && p == s.cur then Frame(Answer(s, e), e.src, e.mptr) else f)
    else LastAnswer(s, es[1..], p, f)
  }

  // Over every run, whoever runs in between: what a process has in its frame is
  // the answer to its own last call.
  lemma {:induction false} FramesHoldAnswers(s: State, es: seq<Event>, p: int)
    requires Good(s) && 0 <= p < |s.procs|
    ensures |Run(s, es).frames| == |s.procs|
    ensures Run(s, es).frames[p] == LastAnswer(s, es, p, s.frames[p])
    decreases |es|
  {
    if es == [] {
    } else if Legal(s, es[0]) {
      StepKeeps(s, es[0]);
      StepMem(s, es[0]);
      StepAnswers(s, es[0], p);
      FramesHoldAnswers(Step(s, es[0]), es[1..], p);
    } else {
      FramesHoldAnswers(s, es[1..], p);
    }
  }

  // ---------------------------------------------------------------------
  // Messages asked for

  // What a process is waiting for: a message from src, in the buffer at ptr.
  datatype Want = Nothing | Message(src: int, ptr: int)

  function Wanted(s: State, p: int): Want
    requires 0 <= p < |s.procs|
  {
    if s.procs[p].flags.receiving then Message(s.procs[p].getfrom, s.procs[p].messbuf) else Nothing
  }

  // What p has asked for and not got, given that it wanted w before.
  function Asked(s: State, e: Event, p: int, w: Want): Want {
    if e.Trap? && e.func == RECEIVE && p == s.cur then Message(e.src, e.mptr) else w
  }

  // One packet from an acceptable sender, and it is in the buffer named.
  predicate Fits(cfg: Config, mem: seq<int>, w: Want, packets: seq<Packet>) {
    && w.Message? && |packets| == 1
    && (w.src == cfg.Any() || w.src == cfg.Pid(packets[0].src))
    && IsBuffer(mem, w.ptr) && packets[0].body == Body(mem, w.ptr)
  }

  // A process gets a message only when it has asked for one, and then one that
  // fits; until then it goes on waiting for just that.
  ghost predicate Served(s: State, e: Event, p: int, w: Want)
    requires Good(s) && Legal(s, e) && 0 <= p < |s.procs|
  {
    StepMem(s, e);
    var packets := To(Delivered(s, e), p);
    if packets == [] then Wanted(Step(s, e), p) == Asked(s, e, p, w)
    else Fits(s.cfg, Step(s, e).mem, Asked(s, e, p, w), packets) && Wanted(Step(s, e), p) == Nothing
  }

  lemma SendServes(s: State, c: int, d: int, ptr: int, p: int)
    requires Queued(s) && OneWait(s) && 0 <= d < |s.procs| && 0 <= c < |s.procs| && 0 <= p < |s.procs|
    requires c == s.cfg.Hardware() || Runnable(s, c)
    requires IsBuffer(s.mem, ptr)
    ensures ReadyInTable(s)
    ensures Wanted(Send(s, c, d, ptr), p) == if p == d && Awaits(s, d, c) then Nothing else Wanted(s, p)
  {
    QueuedTables(s);
  }

  lemma ReceiveServes(s: State, c: int, src: int, ptr: int, p: int)
    requires Queued(s) && 0 <= c < |s.procs| && 0 <= p < |s.procs| && Runnable(s, c) && IsBuffer(s.mem, ptr)
    ensures ReadyInTable(s) && CallersInTable(s)
    ensures Wanted(Receive(s, c, src, ptr), p) ==
      if p == c && FirstFrom(s.cfg, s.callers[c], src) == |s.callers[c]| then Message(src, ptr) else Wanted(s, p)
  {
    QueuedTables(s);
  }

  lemma ToShort(log: seq<Packet>, p: int)
    requires |log| <= 1
    ensures To(log, p) == if log != [] && log[0].dst == p then log else []
  {
    assert log != [] ==> log[1..] == [];
  }

  lemma TickServes(s: State, p: int)
    requires Good(s) && 0 <= p < |s.procs|
    ensures Served(s, Tick, p, Wanted(s, p))
  {
    hide ReadyOk, CallersOk, NoLostWakeup, CopyMess, Stamped;
    StepKeeps(s, Tick);
    StepMem(s, Tick);
    TickSent(s);
    var m := s.cfg.tickBuf;
    var s0 := s.(mem := s.mem[m := HARDWARE][m + 1 := CLOCK_TICK]);
    SendServes(s0, s.cfg.Hardware(), s.cfg.Slot(s.cfg.clock), m, p);
    TickEnds(s);
    ToShort(Delivered(s, Tick), p);
  }

  // The scheduler stops nobody from waiting.
  lemma TickEnds(s: State)
    requires Good(s)
    ensures Step(s, Tick).procs == Ticked(s).procs && Step(s, Tick).mem == Ticked(s).mem
  {}

  lemma SendTrapServes(s: State, e: Event, p: int)
    requires Good(s) && Legal(s, e) && e.Trap? && e.func == SEND && 0 <= p < |s.procs|
    ensures Served(s, e, p, Wanted(s, p))
  {
    hide ReadyOk, CallersOk, NoLostWakeup, CopyMess, Stamped;
    StepKeeps(s, e);
    StepMem(s, e);
    RunningIsReady(s);
    var s0 := Trapped(s, e.func, e.src, e.mptr);
    OnlyData(s, s0);
    SendServes(s0, s.cur, s.cfg.Slot(e.src), e.mptr, p);
    ToShort(Delivered(s, e), p);
  }

  lemma ReceiveTrapServes(s: State, e: Event, p: int)
    requires Good(s) && Legal(s, e) && e.Trap? && e.func == RECEIVE && 0 <= p < |s.procs|
    ensures Served(s, e, p, Wanted(s, p))
  {
    hide ReadyOk, CallersOk, NoLostWakeup, CopyMess, Stamped;
    StepKeeps(s, e);
    StepMem(s, e);
    RunningIsReady(s);
    QueuedTables(s);
    var s0 := Trapped(s, e.func, e.src, e.mptr);
    OnlyData(s, s0);
    ReceiveServes(s0, s.cur, e.src, e.mptr, p);
    ToShort(Delivered(s, e), p);
  }

  lemma StepServes(s: State, e: Event, p: int)
    requires Good(s) && Legal(s, e) && 0 <= p < |s.procs|
    ensures Served(s, e, p, Wanted(s, p))
  {
    hide Queued, Delivered, CopyMess;
    StepKeeps(s, e);
    StepMem(s, e);
    if e.Tick? {
      TickServes(s, p);
    } else if e.Trap? && e.func == SEND {
      SendTrapServes(s, e, p);
    } else if e.Trap? && e.func == RECEIVE {
      ReceiveTrapServes(s, e, p);
    } else {
      OtherServes(s, e, p);
    }
  }

  lemma OtherServes(s: State, e: Event, p: int)
    requires Good(s) && Legal(s, e) && 0 <= p < |s.procs|
    requires e.Store? || (e.Trap? && e.func != SEND && e.func != RECEIVE)
    ensures Served(s, e, p, Wanted(s, p))
  {
    StepKeeps(s, e);
    StepMem(s, e);
    QueuedTables(s);
  }

  // Every step of a run serves p, who wants w to begin with.
  ghost predicate AlwaysServed(s: State, es: seq<Event>, p: int, w: Want)
    requires Good(s) && 0 <= p < |s.procs|
    decreases |es|
  {
    es != [] ==>
      if Legal(s, es[0]) then
        StepKeeps(s, es[0]);
        StepMem(s, es[0]);
        && Served(s, es[0], p, w)
        && AlwaysServed(Step(s, es[0]), es[1..], p,
                        if To(Delivered(s, es[0]), p) == [] then Asked(s, es[0], p, w) else Nothing)
      else AlwaysServed(s, es[1..], p, w)
  }

  // Over every run a process gets one message for each receive, from the source
  // it named and in the buffer it named, and none that it did not ask for.
  lemma {:induction false} GetsWhatItAsks(s: State, es: seq<Event>, p: int)
    requires Good(s) && 0 <= p < |s.procs|
    ensures AlwaysServed(s, es, p, Wanted(s, p))
    decreases |es|
  {
    if es == [] {
    } else if Legal(s, es[0]) {
      StepKeeps(s, es[0]);
      StepMem(s, es[0]);
      StepServes(s, es[0], p);
      GetsWhatItAsks(Step(s, es[0]), es[1..], p);
    } else {
      GetsWhatItAsks(s, es[1..], p);
    }
  }
}
