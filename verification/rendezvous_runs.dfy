// Whole runs of the ported kernel: any interleaving of clock ticks, traps of
// the running process and stores it makes to its own memory.

module RendezvousRuns {
  import opened Links
  import opened Rendezvous
  import opened RendezvousInvariants

  datatype Event =
    | Tick
    | Trap(func: int, src: int, mptr: int)
    | Store(addr: int, value: int)

  // ---------------------------------------------------------------------
  // One entry into the kernel

  // The tick message goes to the clock task, or is lost when that is busy.
  ghost function Ticked(s: State): (t: State)
    requires Queued(s)
    ensures Queued(t) && ReadyInTable(t)
  {
    TickSent(s);
    var m := s.cfg.tickBuf;
    Send(s.(mem := s.mem[m := HARDWARE][m + 1 := CLOCK_TICK]), s.cfg.Hardware(), s.cfg.Slot(s.cfg.clock), m)
  }

  // Rotate when the quantum is over, otherwise merely re-pick.
  ghost function Scheduled(s: State): (t: State)
    requires Sized(s) && ReadyInTable(s)
    ensures Sized(t)
  {
    if s.ticks - 1 == 0 then Sched(s.(ticks := SCHED_RATE)) else Pick(s.(ticks := s.ticks - 1))
  }

  // irq_dispatch()
  ghost function AfterTick(s: State): (t: State)
    requires Queued(s)
    ensures Sized(t)
  {
    Scheduled(Ticked(s))
  }

  lemma OnlyData(s: State, t: State)
    requires Queued(s) && Sized(t)
    requires t.cfg == s.cfg && t.procs == s.procs && t.ready == s.ready
    requires t.callers == s.callers && t.sendto == s.sendto
    ensures Queued(t)
  {
    forall q | 0 <= q < NQ ensures ReadyQueue(t, q) {
      assert ReadyQueue(s, q);
      assert forall x :: 0 <= x < |s.procs| ==> Runnable(t, x) == Runnable(s, x);
    }
    BlockedFrame(s, t);
  }

  lemma TickSent(s: State)
    requires Queued(s)
    ensures var m := s.cfg.tickBuf;
            var s0 := s.(mem := s.mem[m := HARDWARE][m + 1 := CLOCK_TICK]);
            && Queued(s0) && ReadyInTable(s0)
            && var s1 := Send(s0, s.cfg.Hardware(), s.cfg.Slot(s.cfg.clock), m);
               && Queued(s1) && ReadyInTable(s1)
  {
    var m := s.cfg.tickBuf;
    var s0 := s.(mem := s.mem[m := HARDWARE][m + 1 := CLOCK_TICK]);
    OnlyData(s, s0);
    SendKeeps(s0, s.cfg.Hardware(), s.cfg.Slot(s.cfg.clock), m);
    QueuedTables(Send(s0, s.cfg.Hardware(), s.cfg.Slot(s.cfg.clock), m));
  }

  // The running process pushes its registers and traps.
  function Trapped(s: State, func: int, src: int, mptr: int): (t: State)
    requires 0 <= s.cur < |s.frames|
  {
    s.(frames := s.frames[s.cur := Frame(func, src, mptr)])
  }

  predicate TrapOk(s: State, func: int, src: int, mptr: int) {
    && s.cur != s.cfg.Hardware()
    && (func == SEND ==> 0 <= s.cfg.Slot(src) < |s.procs|)
    && (func == SEND || func == RECEIVE ==> IsBuffer(s.mem, mptr))
  }

  function TrapCode(s: State, func: int, src: int): (n: int)
    requires func == SEND ==> 0 <= s.cfg.Slot(src) < |s.procs|
  {
    if func == SEND then SendCode(s, s.cur, s.cfg.Slot(src)) else OK
  }

  // brk_dispatch(): perform the call and put its code in the caller's frame.
  ghost function AfterTrap(s: State, func: int, src: int, mptr: int): (t: State)
    requires Queued(s) && TrapOk(s, func, src, mptr)
    ensures Sized(t)
  {
    QueuedTables(s);
    var s0 := Trapped(s, func, src, mptr);
    var s1 := if func == SEND then Send(s0, s.cur, s.cfg.Slot(src), mptr)
              else if func == RECEIVE then Receive(s0, s.cur, src, mptr)
              else s0;
    s1.(frames := s1.frames[s.cur := s1.frames[s.cur].(a := TrapCode(s, func, src))])
  }

  predicate Legal(s: State, e: Event) {
    match e
    case Tick => true
    case Trap(func, src, mptr) => TrapOk(s, func, src, mptr)
    case Store(addr, _) => s.cur != s.cfg.Hardware() && 0 <= addr < |s.mem|
  }

  ghost function Step(s: State, e: Event): State
    requires Queued(s) && Legal(s, e)
  {
    match e
    case Tick => AfterTick(s)
    case Trap(func, src, mptr) => AfterTrap(s, func, src, mptr)
    case Store(addr, value) => s.(mem := s.mem[addr := value])
  }

  // ---------------------------------------------------------------------
  // The invariant of the port

  // Without BOTH a process waits for one thing at a time.
  ghost predicate OneWait(s: State) {
    forall p :: 0 <= p < |s.procs| ==> !(s.procs[p].flags.sending && s.procs[p].flags.receiving)
  }

  // The tick counter is positive between entries.
  ghost predicate Good(s: State) {
    Queued(s) && CurOk(s) && OneWait(s) && 1 <= s.ticks <= SCHED_RATE
  }

  lemma RunningIsReady(s: State)
    requires Queued(s) && CurOk(s) && s.cur != s.cfg.Hardware()
    ensures Runnable(s, s.cur) && s.cur in s.ready[s.cfg.QueueOf(s.cur)]
  {
    assert ReadyQueue(s, s.cfg.QueueOf(s.cur));
  }

  // Adding to the back of a nonempty or different queue moves no head.
  lemma ReadyCur(s: State, t: State, r: int)
    requires Sized(s) && CurOk(s) && s.cur != s.cfg.Hardware()
    requires Sized(t) && t.cfg == s.cfg && t.ready == s.ready && t.cur == s.cur
    ensures CurOk(Ready(t, r))
  {}

  lemma UnreadyCur(s: State, t: State, c: int)
    requires Queued(s) && CurOk(s) && c == s.cur && c != s.cfg.Hardware()
    requires Sized(t) && t.cfg == s.cfg && t.ready == s.ready && t.cur == s.cur && |t.procs| == |s.procs|
    requires ReadyInTable(t)
    ensures CurOk(Unready(t, c))
  {
    var q := s.cfg.QueueOf(c);
    IndexUnique(s.ready[q], 0) by { assert ReadyQueue(s, q); }
    var u := t.(ready := t.ready[q := Remove(t.ready[q], c)]);
    forall k | 0 <= k < NQ && u.ready[k] != []
      ensures s.cfg.QueueOf(u.ready[k][0]) == k && u.ready[k][0] != s.cfg.Hardware()
    {
      assert ReadyQueue(s, k);
      RemoveMembers(s.ready[k], c);
      assert u.ready[k][0] in u.ready[k];
      assert u.ready[k][0] in s.ready[k];
    }
  }

  lemma SendCur(s: State, d: int, ptr: int)
    requires Queued(s) && CurOk(s) && s.cur != s.cfg.Hardware()
    requires 0 <= d < |s.procs| && IsBuffer(s.mem, ptr)
    ensures ReadyInTable(s)
    ensures CurOk(Send(s, s.cur, d, ptr))
  {
    QueuedTables(s);
    RunningIsReady(s);
    var c := s.cur;
    if s.procs[d].flags.free {
    } else if Awaits(s, d, c) {
      var flags := s.procs[d].flags.(receiving := false);
      var t := s.(mem := CopyMess(s.mem, s.cfg.Pid(c), ptr, s.procs[d].messbuf),
                  procs := s.procs[d := s.procs[d].(flags := flags)]);
      ReadyCur(s, t, d);
    } else {
      var p := s.procs[c].(messbuf := ptr, flags := s.procs[c].flags.(sending := true));
      UnreadyCur(s, s.(procs := s.procs[c := p]), c);
    }
  }

  lemma SendGood(s: State, d: int, ptr: int)
    requires Good(s) && s.cur != s.cfg.Hardware()
    requires 0 <= d < |s.procs| && IsBuffer(s.mem, ptr)
    ensures ReadyInTable(s)
    ensures Good(Send(s, s.cur, d, ptr))
  {
    RunningIsReady(s);
    SendKeeps(s, s.cur, d, ptr);
    SendCur(s, d, ptr);
  }

  lemma ReceiveCur(s: State, src: int, ptr: int)
    requires Good(s) && s.cur != s.cfg.Hardware() && IsBuffer(s.mem, ptr)
    ensures ReadyInTable(s) && CallersInTable(s)
    ensures Good(Receive(s, s.cur, src, ptr))
  {
    QueuedTables(s);
    RunningIsReady(s);
    ReceiveKeeps(s, s.cur, src, ptr);
    var c := s.cur;
    var i := FirstFrom(s.cfg, s.callers[c], src);
    if i < |s.callers[c]| {
      var p := s.callers[c][i];
      var flags := s.procs[p].flags.(sending := false);
      var t := s.(mem := CopyMess(s.mem, s.cfg.Pid(p), s.procs[p].messbuf, ptr),
                  procs := s.procs[p := s.procs[p].(flags := flags)]);
      ReadyCur(s, t, p);
    } else {
      var p := Proc(s.procs[c].flags.(receiving := true), src, ptr);
      UnreadyCur(s, s.(procs := s.procs[c := p]), c);
    }
  }

  lemma TrapKeeps(s: State, func: int, src: int, mptr: int)
    requires Good(s) && TrapOk(s, func, src, mptr)
    ensures Good(AfterTrap(s, func, src, mptr))
  {
    var s0 := Trapped(s, func, src, mptr);
    OnlyData(s, s0);
    QueuedTables(s0);
    var s1 := if func == SEND then Send(s0, s.cur, s.cfg.Slot(src), mptr)
              else if func == RECEIVE then Receive(s0, s.cur, src, mptr)
              else s0;
    if func == SEND {
      SendGood(s0, s.cfg.Slot(src), mptr);
    } else if func == RECEIVE {
      ReceiveCur(s0, src, mptr);
    }
    assert Good(s1);
    OnlyData(s1, AfterTrap(s, func, src, mptr));
  }

  lemma TickedKeeps(s: State)
    requires Good(s)
    ensures var t := Ticked(s); OneWait(t) && 1 <= t.ticks <= SCHED_RATE && t.cfg == s.cfg
  {
    TickSent(s);
  }

  lemma TickKeeps(s: State)
    requires Good(s)
    ensures Good(AfterTick(s))
  {
    TickedKeeps(s);
    var s1 := Ticked(s);
    if s1.ticks - 1 == 0 {
      var s2 := s1.(ticks := SCHED_RATE);
      OnlyData(s1, s2);
      SchedKeeps(s2);
    } else {
      var s2 := s1.(ticks := s1.ticks - 1);
      OnlyData(s1, s2);
      PickKeeps(s2);
    }
  }

  lemma StepKeeps(s: State, e: Event)
    requires Good(s) && Legal(s, e)
    ensures Good(Step(s, e))
  {
    match e
    case Tick => TickKeeps(s);
    case Trap(func, src, mptr) => TrapKeeps(s, func, src, mptr);
    case Store(addr, value) => OnlyData(s, Step(s, e));
  }

  // The run from s through the events that are possible when they come up.
  ghost function Run(s: State, es: seq<Event>): (t: State)
    requires Good(s)
    ensures Good(t)
    decreases |es|
  {
    if es == [] then s
    else if Legal(s, es[0]) then StepKeeps(s, es[0]); Run(Step(s, es[0]), es[1..])
    else Run(s, es[1..])
  }

  // ---------------------------------------------------------------------
  // Start-up

  // kmain(): every slot free and every list empty, then the clock task and
  // the two demo tasks are created and made ready, and the first is picked.
  function Boot(mem: seq<int>, tickBuf: nat): State {
    var free := Proc(Flags(true, false, false), 0, 0);
    var task := Proc(Flags(false, false, false), 0, 0);
    State(Port(tickBuf), [task, task, task] + seq(9, i => free), [[0, 1, 2], [], []],
          seq(12, i => []), seq(12, i => 0), mem, seq(12, i => Frame(0, 0, 0)), 0, SCHED_RATE)
  }

  lemma BootIsGood(mem: seq<int>, tickBuf: nat)
    requires IsBuffer(mem, tickBuf)
    ensures Good(Boot(mem, tickBuf))
  {
    var s := Boot(mem, tickBuf);
    assert |s.procs| == 12;
    assert forall p :: 3 <= p < 12 ==> s.procs[p].flags.free;
    forall q | 0 <= q < NQ ensures ReadyQueue(s, q) {
      forall r ensures r in s.ready[q] <==> 0 <= r < |s.procs| && s.cfg.QueueOf(r) == q && Runnable(s, r) {}
    }
    forall d | 0 <= d < |s.procs| ensures SenderQueue(s, d) {}
  }

  // In every state the port can get into, the queues agree with the flags, no
  // wakeup is lost, and proc_ptr is the head of its ready queue, or the idle
  // slot when all ready queues are empty.
  lemma EveryRun(mem: seq<int>, tickBuf: nat, es: seq<Event>)
    requires IsBuffer(mem, tickBuf)
    ensures Good(Boot(mem, tickBuf)) && Good(Run(Boot(mem, tickBuf), es))
  {
    BootIsGood(mem, tickBuf);
  }
}
