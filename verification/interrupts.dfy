// interrupt() of the original kernel: a message from a device goes to its task
// at once if the task waits for it, and is kept in the busy map otherwise, to
// be tried again at every later interrupt.

module Interrupts {
  import opened Links
  import opened Rendezvous
  import opened RendezvousInvariants
  import opened MinixKernel

  // What devices asked the kernel to tell their tasks, and what it told them.
  datatype Act = Raised(task: int, ptr: int) | Told(task: int, ptr: int)

  // busy: the bits of busy_map that are on; bit i is for task -i.  mess:
  // task_mess.  lost: lost_ticks.
  datatype Machine = Machine(s: State, busy: set<int>, mess: seq<int>, lost: nat, log: seq<Act>)

  // The tasks that devices have.  Number -1 is HARDWARE.
  predicate Device(cfg: Config, task: int) {
    0 <= cfg.Slot(task) < cfg.Hardware()
  }

  // Will mini_send() deliver a message from HARDWARE?
  predicate Takes(s: State, task: int)
    requires 0 <= s.cfg.Slot(task) < |s.procs|
  {
    !s.procs[s.cfg.Slot(task)].flags.free && Awaits(s, s.cfg.Slot(task), s.cfg.Hardware())
  }

  ghost predicate Wired(m: Machine) {
    && Sound(m.s) && Device(m.s.cfg, m.s.cfg.clock)
    && |m.mess| == m.s.cfg.tasks + 1
    && forall i :: i in m.busy ==> Device(m.s.cfg, -i) && -i != m.s.cfg.clock && IsBuffer(m.s.mem, m.mess[i])
  }

  lemma Noted(m: Machine, a: Act)
    requires Wired(m)
    ensures Wired(m.(log := m.log + [a]))
  {}

  // Where task_mess has the message of a task.
  lemma MessAt(m: Machine, task: int)
    requires Wired(m) && Device(m.s.cfg, task)
    ensures 0 <= -task < |m.mess| && (-task in m.busy ==> IsBuffer(m.s.mem, m.mess[-task]))
  {}

  lemma BusyTask(m: Machine, i: int)
    requires Wired(m) && i in m.busy
    ensures Device(m.s.cfg, -i) && 0 <= i < |m.mess| && IsBuffer(m.s.mem, m.mess[i])
  {}

  // ---------------------------------------------------------------------
  // The steps

  ghost function Tell(m: Machine, task: int, ptr: int): (r: Machine)
    requires Wired(m) && Device(m.s.cfg, task) && IsBuffer(m.s.mem, ptr)
  {
    QueuedTables(m.s);
    m.(s := Send(m.s, m.s.cfg.Hardware(), m.s.cfg.Slot(task), ptr), busy := m.busy - {-task},
       log := m.log + [Told(task, ptr)])
  }

  // The interrupt itself.
  ghost function Try(m: Machine, task: int, ptr: int): (r: Machine)
    requires Wired(m) && Device(m.s.cfg, task) && IsBuffer(m.s.mem, ptr)
  {
    var m0 := m.(log := m.log + [Raised(task, ptr)]);
    if Takes(m.s, task) then Tell(m0, task, ptr)
    else if task == m.s.cfg.clock then m0.(lost := m0.lost + 1)
    else m0.(busy := m0.busy + {-task}, mess := m0.mess[-task := ptr])
  }

  // One that was kept.
  ghost function Again(m: Machine, i: int): (r: Machine)
    requires Wired(m) && i in m.busy
  {
    if Takes(m.s, -i) then Tell(m, -i, m.mess[i]) else m
  }

  // The bits of the old map from i on are still on.
  predicate StillOn(m: Machine, oldMap: set<int>, i: int) {
    forall j :: j in oldMap && i <= j ==> j in m.busy
  }

  ghost function Retry(m: Machine, oldMap: set<int>, i: int): (r: Machine)
    requires Wired(m) && StillOn(m, oldMap, i)
    ensures Wired(r) && r.s.cfg == m.s.cfg
    decreases m.s.cfg.tasks + 1 - i
  {
    if i > m.s.cfg.tasks then m
    else
      var m1 := if i in oldMap then Again(m, i) else m;
      AgainKeeps(m, i, i in oldMap);
      Retry(m1, oldMap, i + 1)
  }

  lemma {:induction false} RetryNone(m: Machine, i: int)
    requires Wired(m)
    ensures Retry(m, {}, i) == m
    decreases m.s.cfg.tasks + 1 - i
  {
    if i <= m.s.cfg.tasks {
      RetryNone(m, i + 1);
    }
  }

  // A task that has become ready does not wait for a user or a server.
  ghost function Preempt(s: State): (t: State)
    requires Sized(s) && ReadyInTable(s)
  {
    if s.ready[TASK_Q] != [] && (s.cfg.Pid(s.cur) >= 0 || s.cur == s.cfg.Hardware()) then Pick(s) else s
  }

  ghost function Interrupt(m: Machine, task: int, ptr: int): (r: Machine)
    requires Wired(m) && Device(m.s.cfg, task) && IsBuffer(m.s.mem, ptr)
  {
    var m1 := Try(m, task, ptr);
    TryKeeps(m, task, ptr);
    var m2 := Retry(m1, if Takes(m.s, task) then m1.busy else m.busy, 2);
    QueuedTables(m2.s);
    m2.(s := Preempt(m2.s))
  }

  // ---------------------------------------------------------------------
  // What they keep

  // A message told to one task leaves what the others wait for.
  lemma TellKeeps(m: Machine, task: int, ptr: int)
    requires Wired(m) && Device(m.s.cfg, task) && IsBuffer(m.s.mem, ptr) && Takes(m.s, task)
    ensures var r := Tell(m, task, ptr);
      && Wired(r) && r.s.cfg == m.s.cfg && r.s.cur == m.s.cur && |r.s.mem| == |m.s.mem| && !Takes(r.s, task)
      && forall t :: Device(m.s.cfg, t) && t != task ==> Takes(r.s, t) == Takes(m.s, t)
  {
    QueuedTables(m.s);
    SendKeeps(m.s, m.s.cfg.Hardware(), m.s.cfg.Slot(task), ptr);
    SendHead(m.s, m.s.cfg.Hardware(), m.s.cfg.Slot(task), ptr);
  }

  lemma AgainKeeps(m: Machine, i: int, on: bool)
    requires Wired(m) && (on ==> i in m.busy)
    ensures var r := if on then Again(m, i) else m;
      && Wired(r) && r.s.cfg == m.s.cfg && r.mess == m.mess && m.busy - {i} <= r.busy <= m.busy
  {
    if on && Takes(m.s, -i) {
      TellKeeps(m, -i, m.mess[i]);
    }
  }

  lemma TryKeeps(m: Machine, task: int, ptr: int)
    requires Wired(m) && Device(m.s.cfg, task) && IsBuffer(m.s.mem, ptr)
    ensures var r := Try(m, task, ptr);
      && Wired(r) && r.s.cfg == m.s.cfg && StillOn(r, if Takes(m.s, task) then r.busy else m.busy, 2)
  {
    if Takes(m.s, task) {
      TellKeeps(m.(log := m.log + [Raised(task, ptr)]), task, ptr);
    }
  }

  lemma PreemptKeeps(s: State)
    requires Sound(s)
    ensures ReadyInTable(s)
    ensures var t := Preempt(s);
      && Sound(t) && t == s.(cur := t.cur)
      && (t.ready[TASK_Q] != [] ==> t.cur != t.cfg.Hardware() && t.cfg.QueueOf(t.cur) == TASK_Q)
  {
    QueuedTables(s);
    PickKeeps(s);
    if s.ready[TASK_Q] != [] {
      assert ReadyQueue(s, TASK_Q) && s.ready[TASK_Q][0] in s.ready[TASK_Q];
    }
  }

  // An interrupt keeps the queues sound; afterwards a ready task has the
  // processor, unless another task runs.
  lemma InterruptKeeps(m: Machine, task: int, ptr: int)
    requires Wired(m) && Device(m.s.cfg, task) && IsBuffer(m.s.mem, ptr)
    ensures var r := Interrupt(m, task, ptr);
      && Wired(r) && r.s.cfg == m.s.cfg
      && (r.s.ready[TASK_Q] != [] ==> r.s.cur != r.s.cfg.Hardware() && r.s.cfg.QueueOf(r.s.cur) == TASK_Q)
  {
    hide Preempt;
    TryKeeps(m, task, ptr);
    var m1 := Try(m, task, ptr);
    var m2 := Retry(m1, if Takes(m.s, task) then m1.busy else m.busy, 2);
    PreemptKeeps(m2.s);
  }

  // The task finds the message of the device in its buffer, from HARDWARE.
  lemma TellDelivers(m: Machine, task: int, ptr: int)
    requires Wired(m) && Device(m.s.cfg, task) && IsBuffer(m.s.mem, ptr) && Takes(m.s, task)
    requires var d := m.s.procs[m.s.cfg.Slot(task)].messbuf; d <= ptr || ptr + MESS_WORDS <= d
    ensures var d := m.s.procs[m.s.cfg.Slot(task)].messbuf;
      && |Tell(m, task, ptr).s.mem| == |m.s.mem| && IsBuffer(m.s.mem, d)
      && Body(Tell(m, task, ptr).s.mem, d) == [HARDWARE] + m.s.mem[ptr + 1..ptr + MESS_WORDS]
  {
    QueuedTables(m.s);
    CopyMessDelivers(m.s.mem, HARDWARE, ptr, m.s.procs[m.s.cfg.Slot(task)].messbuf);
  }

  lemma {:induction false} RetryCur(m: Machine, oldMap: set<int>, i: int)
    requires Wired(m) && StillOn(m, oldMap, i)
    ensures Retry(m, oldMap, i).s.cur == m.s.cur
    decreases m.s.cfg.tasks + 1 - i
  {
    if i <= m.s.cfg.tasks {
      var m1 := if i in oldMap then Again(m, i) else m;
      AgainKeeps(m, i, i in oldMap);
      if i in oldMap && Takes(m.s, -i) {
        BusyTask(m, i);
        TellKeeps(m, -i, m.mess[i]);
      }
      RetryCur(m1, oldMap, i + 1);
    }
  }

  // The processor goes only from a user, a server or nobody, and only to the
  // first task that is ready.
  lemma InterruptYields(m: Machine, task: int, ptr: int)
    requires Wired(m) && Device(m.s.cfg, task) && IsBuffer(m.s.mem, ptr)
    ensures var r := Interrupt(m, task, ptr);
      && Wired(r)
      && (r.s.cur != m.s.cur ==>
            && (m.s.cfg.Pid(m.s.cur) >= 0 || m.s.cur == m.s.cfg.Hardware())
            && r.s.ready[TASK_Q] != [] && r.s.cur == r.s.ready[TASK_Q][0])
  {
    hide Retry;
    InterruptKeeps(m, task, ptr);
    TryKeeps(m, task, ptr);
    var m1 := Try(m, task, ptr);
    if Takes(m.s, task) {
      TellKeeps(m.(log := m.log + [Raised(task, ptr)]), task, ptr);
    }
    RetryCur(m1, if Takes(m.s, task) then m1.busy else m.busy, 2);
  }

  // ---------------------------------------------------------------------
  // No device is forgotten

  // The last thing that happened for a task, or -1.
  function Latest(log: seq<Act>, task: int): (k: int)
    ensures -1 <= k < |log| && (k >= 0 ==> log[k].task == task)
    ensures forall j :: k < j < |log| ==> log[j].task != task
  {
    if log == [] then -1
    else if log[|log| - 1].task == task then |log| - 1
    else Latest(log[..|log| - 1], task)
  }

  // It is an interrupt that the task has not been told of.
  predicate Owing(log: seq<Act>, task: int) {
    var k := Latest(log, task);
    k >= 0 && log[k].Raised?
  }

  // How often a device has interrupted, and how often its task was told.
  function Count(log: seq<Act>, task: int, told: bool): nat {
    if log == [] then 0
    else
      var a := log[|log| - 1];
      Count(log[..|log| - 1], task, told) + if a.task == task && a.Told? == told then 1 else 0
  }

  // Before act k, the last thing for its task was an interrupt with that message.
  predicate Answers(log: seq<Act>, k: nat)
    requires k < |log|
  {
    log[k].Told? ==>
      var j := Latest(log[..k], log[k].task);
      j >= 0 && log[j] == Raised(log[k].task, log[k].ptr)
  }

  ghost predicate Honest(log: seq<Act>) {
    forall k :: 0 <= k < |log| ==> Answers(log, k)
  }

  // The busy map says which tasks have an interrupt coming, task_mess which
  // message; and lost_ticks counts the ticks that the clock task was not told.
  ghost predicate Booked(m: Machine)
    requires Wired(m)
  {
    && Honest(m.log)
    && (forall t :: Device(m.s.cfg, t) && t != m.s.cfg.clock ==> Pending(m, t))
    && Count(m.log, m.s.cfg.clock, false) == Count(m.log, m.s.cfg.clock, true) + m.lost
  }

  ghost predicate Pending(m: Machine, t: int)
    requires Wired(m) && Device(m.s.cfg, t)
  {
    && (-t in m.busy <==> Owing(m.log, t))
    && (-t in m.busy ==> m.log[Latest(m.log, t)] == Raised(t, m.mess[-t]))
  }

  lemma LogMore(log: seq<Act>, a: Act)
    ensures forall t :: Latest(log + [a], t) == if a.task == t then |log| else Latest(log, t)
    ensures forall t, told ::
      Count(log + [a], t, told) == Count(log, t, told) + if a.task == t && a.Told? == told then 1 else 0
    ensures Honest(log) && (a.Told? ==> Owing(log, a.task) && log[Latest(log, a.task)].ptr == a.ptr) ==>
      Honest(log + [a])
  {
    var r := log + [a];
    assert r[..|r| - 1] == log;
    if Honest(log) && (a.Told? ==> Owing(log, a.task) && log[Latest(log, a.task)].ptr == a.ptr) {
      forall k | 0 <= k < |r| ensures Answers(r, k) {
        assert k < |log| ==> r[..k] == log[..k] && Answers(log, k);
      }
    }
  }

  lemma TellBooked(m: Machine, task: int, ptr: int)
    requires Wired(m) && Device(m.s.cfg, task) && IsBuffer(m.s.mem, ptr) && Takes(m.s, task)
    requires Honest(m.log) && Owing(m.log, task) && m.log[Latest(m.log, task)].ptr == ptr
    requires forall t :: Device(m.s.cfg, t) && t != m.s.cfg.clock && t != task ==> Pending(m, t)
    requires Count(m.log, m.s.cfg.clock, false) == Count(m.log, m.s.cfg.clock, true) + m.lost +
                                                   if task == m.s.cfg.clock then 1 else 0
    ensures Wired(Tell(m, task, ptr)) && Booked(Tell(m, task, ptr))
  {
    TellKeeps(m, task, ptr);
    LogMore(m.log, Told(task, ptr));
    var r := Tell(m, task, ptr);
    forall t | Device(m.s.cfg, t) && t != m.s.cfg.clock ensures Pending(r, t) {
      assert t != task ==> Pending(m, t);
    }
  }

  lemma TryBooked(m: Machine, task: int, ptr: int)
    requires Wired(m) && Booked(m) && Device(m.s.cfg, task) && IsBuffer(m.s.mem, ptr)
    ensures Wired(Try(m, task, ptr)) && Booked(Try(m, task, ptr))
  {
    TryKeeps(m, task, ptr);
    var m0 := m.(log := m.log + [Raised(task, ptr)]);
    LogMore(m.log, Raised(task, ptr));
    forall t | Device(m.s.cfg, t) && t != m.s.cfg.clock && t != task ensures Pending(m0, t) {
      assert Pending(m, t);
    }
    if Takes(m.s, task) {
      TellBooked(m0, task, ptr);
    } else {
      var r := Try(m, task, ptr);
      forall t | Device(m.s.cfg, t) && t != m.s.cfg.clock ensures Pending(r, t) {
        assert t != task ==> Pending(m0, t);
      }
    }
  }

  lemma AgainBooked(m: Machine, i: int)
    requires Wired(m) && Booked(m) && i in m.busy
    ensures Wired(Again(m, i)) && Booked(Again(m, i))
  {
    AgainKeeps(m, i, true);
    if Takes(m.s, -i) {
      assert Pending(m, -i);
      TellBooked(m, -i, m.mess[i]);
    }
  }

  lemma {:induction false} RetryBooked(m: Machine, oldMap: set<int>, i: int)
    requires Wired(m) && Booked(m) && StillOn(m, oldMap, i)
    ensures Booked(Retry(m, oldMap, i))
    decreases m.s.cfg.tasks + 1 - i
  {
    hide Booked, Again, Sound;
    if i <= m.s.cfg.tasks {
      var m1 := if i in oldMap then Again(m, i) else m;
      AgainKeeps(m, i, i in oldMap);
      if i in oldMap {
        AgainBooked(m, i);
      }
      RetryBooked(m1, oldMap, i + 1);
    }
  }

  lemma InterruptBooked(m: Machine, task: int, ptr: int)
    requires Wired(m) && Booked(m) && Device(m.s.cfg, task) && IsBuffer(m.s.mem, ptr)
    ensures Wired(Interrupt(m, task, ptr)) && Booked(Interrupt(m, task, ptr))
  {
    InterruptKeeps(m, task, ptr);
    TryBooked(m, task, ptr);
    TryKeeps(m, task, ptr);
    var m1 := Try(m, task, ptr);
    RetryBooked(m1, if Takes(m.s, task) then m1.busy else m.busy, 2);
    SameBooks(Retry(m1, if Takes(m.s, task) then m1.busy else m.busy, 2), Interrupt(m, task, ptr));
  }

  // The books do not depend on who runs.
  lemma SameBooks(m: Machine, r: Machine)
    requires Wired(m) && Booked(m) && Wired(r) && r == m.(s := r.s) && r.s.cfg == m.s.cfg
    ensures Booked(r)
  {
    forall t | Device(m.s.cfg, t) && t != m.s.cfg.clock ensures Pending(r, t) {
      assert Pending(m, t);
    }
  }

  // ---------------------------------------------------------------------
  // Promptness

  // No task is left waiting with an interrupt coming, and what was coming to a
  // waiting task has come.
  ghost predicate Prompt(m: Machine, r: Machine, oldMap: set<int>, i: int)
    requires Wired(m) && Wired(r) && r.s.cfg == m.s.cfg
  {
    forall j :: j in r.busy ==> j in m.busy && !Takes(r.s, -j) && (j in oldMap && i <= j ==> !Takes(m.s, -j))
  }

  lemma AgainPrompt(m: Machine, i: int, on: bool)
    requires Wired(m) && (on ==> i in m.busy)
    ensures var r := if on then Again(m, i) else m;
      && Wired(r) && r.s.cfg == m.s.cfg && r.busy <= m.busy
      && (forall j :: j in m.busy && j != i ==> j in r.busy && Takes(r.s, -j) == Takes(m.s, -j))
      && (on && i in r.busy ==> !Takes(r.s, -i) && !Takes(m.s, -i))
      && (!on && i in m.busy ==> Takes(r.s, -i) == Takes(m.s, -i))
  {
    AgainKeeps(m, i, on);
    if on && Takes(m.s, -i) {
      TellKeeps(m, -i, m.mess[i]);
    }
  }

  // Bits that were not in the old map, or come before i, belong to tasks that do
  // not wait.
  ghost predicate OthersBusy(m: Machine, oldMap: set<int>, i: int)
    requires Wired(m)
  {
    forall j :: j in m.busy && (j !in oldMap || j < i) ==> !Takes(m.s, -j)
  }

  lemma PastTasks(m: Machine, i: int)
    requires Wired(m) && i > m.s.cfg.tasks
    ensures forall j :: j in m.busy ==> j < i
  {}

  lemma {:induction false} RetryPrompt(m: Machine, oldMap: set<int>, i: int)
    requires Wired(m) && StillOn(m, oldMap, i) && OthersBusy(m, oldMap, i)
    ensures Prompt(m, Retry(m, oldMap, i), oldMap, i)
    decreases m.s.cfg.tasks + 1 - i
  {
    hide Wired, Again, Takes;
    if i > m.s.cfg.tasks {
      PastTasks(m, i);
    } else {
      var m1 := if i in oldMap then Again(m, i) else m;
      AgainKeeps(m, i, i in oldMap);
      AgainPrompt(m, i, i in oldMap);
      RetryPrompt(m1, oldMap, i + 1);
    }
  }

  lemma TryPrompt(m: Machine, task: int, ptr: int)
    requires Wired(m) && Device(m.s.cfg, task) && IsBuffer(m.s.mem, ptr)
    ensures var r := Try(m, task, ptr);
      && Wired(r) && r.s.cfg == m.s.cfg && OthersBusy(r, if Takes(m.s, task) then r.busy else m.busy, 2)
      && forall j :: j in m.busy && Takes(m.s, -j) && j in r.busy ==> Takes(r.s, -j)
  {
    TryKeeps(m, task, ptr);
    if Takes(m.s, task) {
      TellKeeps(m.(log := m.log + [Raised(task, ptr)]), task, ptr);
    }
  }

  // After any interrupt no task is waiting for an interrupt that is kept for it;
  // and what was kept for a task that was waiting, it has been told.
  lemma InterruptPrompt(m: Machine, task: int, ptr: int)
    requires Wired(m) && Device(m.s.cfg, task) && IsBuffer(m.s.mem, ptr)
    ensures var r := Interrupt(m, task, ptr);
      && Wired(r) && (forall i :: i in r.busy ==> !Takes(r.s, -i))
      && forall i :: i in m.busy && Takes(m.s, -i) ==> i !in r.busy
  {
    hide Try, Retry, Takes, Preempt;
    InterruptKeeps(m, task, ptr);
    TryKeeps(m, task, ptr);
    TryPrompt(m, task, ptr);
    var m1 := Try(m, task, ptr);
    var oldMap := if Takes(m.s, task) then m1.busy else m.busy;
    RetryPrompt(m1, oldMap, 2);
    PreemptTakes(Retry(m1, oldMap, 2).s);
  }

  lemma PreemptTakes(s: State)
    requires Sound(s)
    ensures ReadyInTable(s)
    ensures Preempt(s).cfg == s.cfg && |Preempt(s).procs| == |s.procs|
    ensures forall t :: Device(s.cfg, t) ==> Takes(Preempt(s), t) == Takes(s, t)
  {
    PreemptKeeps(s);
  }

  // ---------------------------------------------------------------------
  // Runs

  // An interrupt, or another entry into the kernel; HARDWARE otherwise only
  // sends to MM.
  datatype Event = Irq(task: int, ptr: int) | Other(e: Entry)

  ghost predicate CanDo(m: Machine, ev: Event)
    requires Wired(m)
  {
    match ev
    case Irq(task, ptr) => Device(m.s.cfg, task) && IsBuffer(m.s.mem, ptr)
    case Other(e) => CanEnter(m.s, e) && !e.Repick? && (e.Hardware? ==> e.task >= 0)
  }

  ghost function Do(m: Machine, ev: Event): (r: Machine)
    requires Wired(m) && CanDo(m, ev)
  {
    match ev
    case Irq(task, ptr) => Interrupt(m, task, ptr)
    case Other(e) => m.(s := Enter(m.s, e))
  }

  lemma DoKeeps(m: Machine, ev: Event)
    requires Wired(m) && Booked(m) && CanDo(m, ev)
    ensures Wired(Do(m, ev)) && Booked(Do(m, ev)) && Do(m, ev).s.cfg == m.s.cfg
  {
    match ev
    case Irq(task, ptr) =>
      InterruptKeeps(m, task, ptr);
      InterruptBooked(m, task, ptr);
    case Other(e) =>
      EnterKeeps(m.s, e);
      EnterFrame(m.s, e);
      SameBooks(m, Do(m, ev));
  }

  lemma EnterFrame(s: State, e: Entry)
    requires Sound(s) && CanEnter(s, e)
    ensures Enter(s, e).cfg == s.cfg && |Enter(s, e).mem| == |s.mem|
  {
    hide ReadyOk, CallersOk, NoLostWakeup, CopyMess;
    QueuedTables(s);
    if e.Call? {
      RunningHead(s);
      if Refusal(s, e.func, s.cur, e.who, e.ptr) == OK {
        CallSent(s, e.func, s.cur, e.who, e.ptr);
      }
    }
  }

  ghost function Run(m: Machine, evs: seq<Event>): (r: Machine)
    requires Wired(m) && Booked(m)
    ensures Wired(r) && Booked(r) && r.s.cfg == m.s.cfg
    decreases |evs|
  {
    if evs == [] then m
    else if CanDo(m, evs[0]) then DoKeeps(m, evs[0]); Run(Do(m, evs[0]), evs[1..])
    else Run(m, evs[1..])
  }

  // A machine that has seen no interrupt yet.
  function Quiet(s: State): Machine {
    Machine(s, {}, seq(s.cfg.tasks + 1, i => 0), 0, [])
  }

  lemma QuietIsWired(s: State)
    requires Sound(s) && Device(s.cfg, s.cfg.clock)
    ensures Wired(Quiet(s)) && Booked(Quiet(s))
  {}

  // Over every run: an interrupt of a device other than the clock is kept in the
  // busy map, with the message of the last one, until its task is told; each
  // thing a task is told answers the last interrupt before it, so none is told
  // twice; and the ticks are those the clock task was told and those counted
  // as lost.
  lemma NoInterruptLost(s: State, evs: seq<Event>, k: nat)
    requires Sound(s) && Device(s.cfg, s.cfg.clock)
    ensures Wired(Quiet(s)) && Booked(Quiet(s))
    ensures var r := Run(Quiet(s), evs);
      && Count(r.log, s.cfg.clock, false) == Count(r.log, s.cfg.clock, true) + r.lost
      && (k < |r.log| && r.log[k].Told? ==> Answers(r.log, k))
      && (k < |r.log| && r.log[k].Raised? && r.log[k].task != s.cfg.clock && Device(s.cfg, r.log[k].task) ==>
            if -r.log[k].task in r.busy
            then r.log[Latest(r.log, r.log[k].task)] == Raised(r.log[k].task, r.mess[-r.log[k].task])
            else exists j :: k < j < |r.log| && r.log[j].Told? && r.log[j].task == r.log[k].task)
  {
    QuietIsWired(s);
    var r := Run(Quiet(s), evs);
    if k < |r.log| && r.log[k].Raised? && r.log[k].task != s.cfg.clock && Device(s.cfg, r.log[k].task) {
      var t := r.log[k].task;
      assert Pending(r, t);
      var j := Latest(r.log, t);
      assert k <= j;
      assert -t !in r.busy ==> r.log[j].Told? && j > k;
    }
  }
}
