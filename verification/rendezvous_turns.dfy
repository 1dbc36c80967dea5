// Round robin among the kernel tasks: how long a ready task can wait.

module RendezvousTurns {
  import opened Links
  import opened Rendezvous
  import opened RendezvousInvariants
  import opened RendezvousRuns

  // A queue that only grew at the back, or lost its head.
  ghost predicate Extends(q: seq<int>, q': seq<int>) {
    q' == q || exists x :: q' == q + [x]
  }

  lemma UnreadyQueue(s: State, t: State)
    requires Good(s) && s.cur != s.cfg.Hardware()
    requires Sized(t) && ReadyInTable(t) && t.cfg == s.cfg && t.ready == s.ready && t.cur == s.cur
    ensures var q := s.ready[TASK_Q];
      var u := Unready(t, s.cur);
      || u.ready[TASK_Q] == q
      || (q != [] && u.ready[TASK_Q] == q[1..] && (q[1..] != [] ==> u.cur == q[1]))
  {
    var k := s.cfg.QueueOf(s.cur);
    assert ReadyQueue(s, k);
    IndexUnique(s.ready[k], 0);
    assert Remove(s.ready[k], s.cur) == s.ready[k][1..];
  }

  // What a trap does to the task queue.
  lemma TrapQueue(s: State, e: Event)
    requires Good(s) && Legal(s, e) && e.Trap?
    ensures var q := s.ready[TASK_Q];
      var t := Step(s, e);
      && Sized(t) && t.ticks == s.ticks && t.cfg == s.cfg
      && (|| Extends(q, t.ready[TASK_Q])
          || (q != [] && t.ready[TASK_Q] == q[1..] && (q[1..] != [] ==> t.cur == q[1])))
  {
    QueuedTables(s);
    var s0 := Trapped(s, e.func, e.src, e.mptr);
    OnlyData(s, s0);
    QueuedTables(s0);
    var c := s.cur;
    if e.func == SEND {
      var d := s.cfg.Slot(e.src);
      if !s0.procs[d].flags.free && !Awaits(s0, d, c) {
        var p := s0.procs[c].(messbuf := e.mptr, flags := s0.procs[c].flags.(sending := true));
        UnreadyQueue(s0, s0.(procs := s0.procs[c := p]));
      }
    } else if e.func == RECEIVE {
      if FirstFrom(s.cfg, s0.callers[c], e.src) == |s0.callers[c]| {
        var p := Proc(s0.procs[c].flags.(receiving := true), e.src, e.mptr);
        UnreadyQueue(s0, s0.(procs := s0.procs[c := p]));
      }
    }
  }

  // What a tick does to it: perhaps the clock task at the back, then perhaps
  // a rotation, and the head runs.
  lemma TickQueue(s: State)
    requires Good(s)
    ensures var q := s.ready[TASK_Q];
      var t := Step(s, Tick);
      && Sized(t) && t.cfg == s.cfg
      && (t.ready[TASK_Q] != [] ==> t.cur == t.ready[TASK_Q][0])
      && (s.ticks > 1 ==> t.ticks == s.ticks - 1 && Extends(q, t.ready[TASK_Q]))
      && (s.ticks == 1 ==> t.ticks == SCHED_RATE)
      && (s.ticks == 1 ==>
            || t.ready[TASK_Q] == Rotate(q)
            || exists x :: t.ready[TASK_Q] == Rotate(q + [x]))
  {
    TickSent(s);
  }

  lemma IndexAppend(q: seq<int>, r: seq<int>, p: int)
    requires NoDup(q) && p in q
    ensures IndexOf(q + r, p) == IndexOf(q, p)
  {
    var i, k := IndexOf(q, p), IndexOf(q + r, p);
    assert (q + r)[i] == p;
  }

  lemma IndexTail(q: seq<int>, p: int)
    requires q != [] && q[0] != p
    ensures IndexOf(q[1..], p) == IndexOf(q, p) - 1
  {}

  // A task that is not at the head never moves back; a tick on which the
  // counter runs out moves it one place up; and when it gets to the head it
  // has the processor.
  lemma NeverMovesBack(s: State, e: Event, p: int)
    requires Good(s) && Legal(s, e)
    requires p in s.ready[TASK_Q] && s.ready[TASK_Q][0] != p
    ensures var t := Step(s, e);
      var k, k' := IndexOf(s.ready[TASK_Q], p), IndexOf(t.ready[TASK_Q], p);
      && Good(t) && p in t.ready[TASK_Q]
      && (k' == k || k' == k - 1)
      && (k' == 0 ==> t.cur == p)
      && (if e.Tick? then
            if s.ticks == 1 then k' == k - 1 && t.ticks == SCHED_RATE else t.ticks == s.ticks - 1
          else t.ticks == s.ticks)
  {
    StepKeeps(s, e);
    var t := Step(s, e);
    var q, q' := s.ready[TASK_Q], t.ready[TASK_Q];
    assert ReadyQueue(s, TASK_Q);
    match e
    case Store(_, _) =>
    case Trap(_, _, _) =>
      TrapQueue(s, e);
      if Extends(q, q') {
        ExtendsIndex(q, q', p);
      } else {
        IndexTail(q, p);
        assert p in q[1..];
      }
    case Tick =>
      TickQueue(s);
      if s.ticks > 1 {
        ExtendsIndex(q, q', p);
      } else if q' == Rotate(q) {
        RotateIndex(q, [], p);
        assert q + [] == q;
      } else {
        var x :| q' == Rotate(q + [x]);
        RotateIndex(q, [x], p);
      }
  }

  lemma ExtendsIndex(q: seq<int>, q': seq<int>, p: int)
    requires NoDup(q) && p in q && Extends(q, q')
    ensures p in q' && IndexOf(q', p) == IndexOf(q, p)
  {
    if q' != q {
      var x :| q' == q + [x];
      IndexAppend(q, [x], p);
    }
  }

  lemma RotateIndex(q: seq<int>, r: seq<int>, p: int)
    requires NoDup(q) && p in q && q[0] != p
    ensures p in Rotate(q + r) && IndexOf(Rotate(q + r), p) == IndexOf(q, p) - 1
  {
    var all := q + r;
    IndexTail(q, p);
    assert all[0] == q[0] && all[1..] + [all[0]] == q[1..] + (r + [q[0]]);
    IndexAppend(q[1..], r + [q[0]], p);
    assert p in q[1..];
  }

  // ---------------------------------------------------------------------
  // The bound over runs

  function Ticks(es: seq<Event>): nat {
    if es == [] then 0 else (if es[0].Tick? then 1 else 0) + Ticks(es[1..])
  }

  // How many more ticks the task at position k >= 1 can be kept waiting.
  function Patience(s: State, k: nat): int
    requires 0 < k
  {
    (k - 1) * SCHED_RATE + s.ticks
  }

  // A ready task at position k >= 1 of TASK_Q gets the processor within
  // k * SCHED_RATE ticks, whatever the other tasks do meanwhile.
  lemma {:induction false} GetsTheProcessor(s: State, es: seq<Event>, p: int)
    requires Good(s) && p in s.ready[TASK_Q] && s.ready[TASK_Q][0] != p
    requires Ticks(es) >= Patience(s, IndexOf(s.ready[TASK_Q], p))
    ensures Patience(s, IndexOf(s.ready[TASK_Q], p)) <= IndexOf(s.ready[TASK_Q], p) * SCHED_RATE
    ensures exists n :: 0 < n <= |es| && Run(s, es[..n]).cur == p
    decreases |es|
  {
    var k := IndexOf(s.ready[TASK_Q], p);
    assert es != [];
    if Legal(s, es[0]) {
      var t := Step(s, es[0]);
      NeverMovesBack(s, es[0], p);
      if IndexOf(t.ready[TASK_Q], p) == 0 {
        assert es[..1][1..] == [];
        assert Run(s, es[..1]) == Run(t, []);
      } else {
        GetsTheProcessor(t, es[1..], p);
        var n :| 0 < n <= |es[1..]| && Run(t, es[1..][..n]).cur == p;
        RunFirst(s, es, n + 1);
      }
    } else {
      GetsTheProcessor(s, es[1..], p);
      var n :| 0 < n <= |es[1..]| && Run(s, es[1..][..n]).cur == p;
      RunFirst(s, es, n + 1);
    }
  }

  lemma RunFirst(s: State, es: seq<Event>, n: nat)
    requires Good(s) && 0 < n <= |es|
    ensures es[..n][1..] == es[1..][..n - 1]
    ensures Legal(s, es[0]) ==> Good(Step(s, es[0])) && Run(s, es[..n]) == Run(Step(s, es[0]), es[1..][..n - 1])
    ensures !Legal(s, es[0]) ==> Run(s, es[..n]) == Run(s, es[1..][..n - 1])
  {
    assert es[..n][1..] == es[1..][..n - 1];
    if Legal(s, es[0]) {
      StepKeeps(s, es[0]);
    }
  }

  // ---------------------------------------------------------------------
  // Any ready task, in any state

  // A task at the head that is not running stays there until it runs or until
  // a tick, which runs it or moves it to the back.
  lemma HeadStays(s: State, e: Event)
    requires Good(s) && Legal(s, e) && s.ready[TASK_Q] != [] && s.cur != s.ready[TASK_Q][0]
    ensures var p := s.ready[TASK_Q][0];
      var t := Step(s, e);
      && Good(t) && p in t.ready[TASK_Q]
      && (t.cur == p
          || (if e.Tick? then t.ticks == SCHED_RATE && t.ready[TASK_Q][0] != p else t.ready[TASK_Q][0] == p))
  {
    StepKeeps(s, e);
    var p, t := s.ready[TASK_Q][0], Step(s, e);
    var q, q' := s.ready[TASK_Q], t.ready[TASK_Q];
    match e
    case Store(_, _) =>
    case Trap(_, _, _) => TrapExtends(s, e);
    case Tick =>
      TickQueue(s);
      assert t.cur == q'[0] || q' == [];
      if s.ticks > 1 {
        assert Extends(q, q');
      } else if q' == Rotate(q) {
        assert Rotate(q)[|q| - 1] == p || q' == q;
        assert p in q';
      } else {
        var x :| q' == Rotate(q + [x]);
        assert q'[|q|] == p;
      }
  }

  // A server that traps takes nobody off the task queue.
  lemma TrapExtends(s: State, e: Event)
    requires Good(s) && Legal(s, e) && e.Trap?
    requires s.ready[TASK_Q] != [] && s.cur != s.ready[TASK_Q][0]
    ensures Extends(s.ready[TASK_Q], Step(s, e).ready[TASK_Q])
  {
    QueuedTables(s);
    var s0 := Trapped(s, e.func, e.src, e.mptr);
    OnlyData(s, s0);
    QueuedTables(s0);
    var c := s.cur;
    assert s.cfg.QueueOf(c) != TASK_Q;
  }

  lemma SomeIn(q: seq<int>)
    ensures q == [] || exists x :: x in q
  {
    if q != [] {
      var x := q[0];
      assert x in q;
    }
  }

  // Tasks are below HARDWARE, so a place in their queue is.
  lemma {:induction false} PlaceBound(q: seq<int>, n: nat)
    requires NoDup(q) && forall x :: x in q ==> 0 <= x < n
    ensures |q| <= n
    decreases n
  {
    if n == 0 {
      SomeIn(q);
    } else {
      var r := Remove(q, n - 1);
      RemoveMembers(q, n - 1);
      PlaceBound(r, n - 1);
    }
  }

  lemma TaskPlace(s: State, p: int)
    requires Queued(s) && p in s.ready[TASK_Q]
    ensures IndexOf(s.ready[TASK_Q], p) + 2 <= s.cfg.tasks
  {
    var q := s.ready[TASK_Q];
    assert ReadyQueue(s, TASK_Q);
    forall x | x in q ensures 0 <= x < s.cfg.tasks - 1 {
      assert x != s.cfg.Hardware();
    }
    PlaceBound(q, s.cfg.tasks - 1);
  }

  // Whatever runs, servers too: a ready task has the processor within one tick
  // more than a turn of all other tasks.
  lemma {:induction false} EveryTaskRuns(s: State, es: seq<Event>, p: int)
    requires Good(s) && p in s.ready[TASK_Q]
    requires Ticks(es) >= 1 + (s.cfg.tasks - 2) * SCHED_RATE
    ensures exists n :: 0 <= n <= |es| && Run(s, es[..n]).cur == p
    decreases |es|
  {
    if s.cur == p {
      assert Run(s, es[..0]).cur == p;
    } else if s.ready[TASK_Q][0] != p {
      TaskPlace(s, p);
      GetsTheProcessor(s, es, p);
    } else if !Legal(s, es[0]) {
      EveryTaskRuns(s, es[1..], p);
      var n :| 0 <= n <= |es[1..]| && Run(s, es[1..][..n]).cur == p;
      RunFirst(s, es, n + 1);
    } else {
      var t := Step(s, es[0]);
      HeadStays(s, es[0]);
      var n := RunsAfter(s, es, p);
      RunFirst(s, es, n + 1);
    }
  }

  // The same, a step later.
  lemma {:induction false} RunsAfter(s: State, es: seq<Event>, p: int) returns (n: nat)
    requires Good(s) && es != [] && Legal(s, es[0]) && Good(Step(s, es[0])) && Step(s, es[0]).cfg == s.cfg
    requires Ticks(es) >= 1 + (s.cfg.tasks - 2) * SCHED_RATE
    requires var t := Step(s, es[0]);
      p in t.ready[TASK_Q] &&
      (t.cur == p
        || (if es[0].Tick? then t.ticks == SCHED_RATE && t.ready[TASK_Q][0] != p else t.ready[TASK_Q][0] == p))
    ensures n <= |es[1..]| && Run(Step(s, es[0]), es[1..][..n]).cur == p
    decreases |es|, 1
  {
    var t := Step(s, es[0]);
    if t.cur == p {
      assert es[1..][..0] == [];
      n := 0;
    } else if es[0].Tick? {
      TaskPlace(t, p);
      GetsTheProcessor(t, es[1..], p);
      n :| 0 < n <= |es[1..]| && Run(t, es[1..][..n]).cur == p;
    } else {
      EveryTaskRuns(t, es[1..], p);
      n :| 0 <= n <= |es[1..]| && Run(t, es[1..][..n]).cur == p;
    }
  }

  // ---------------------------------------------------------------------
  // The machine that kmain() starts

  // Only tasks: every slot from process 0 on is free.
  ghost predicate OnlyTasks(s: State)
    requires Sized(s)
  {
    forall p :: 0 <= p < |s.procs| && s.cfg.Pid(p) >= 0 ==> s.procs[p].flags.free
  }

  // No step makes a slot free or takes one.
  lemma SlotsStay(s: State, e: Event)
    requires Good(s) && Legal(s, e)
    ensures var t := Step(s, e);
      && Good(t) && t.cfg == s.cfg
      && forall p :: 0 <= p < |s.procs| ==> t.procs[p].flags.free == s.procs[p].flags.free
  {
    StepKeeps(s, e);
    QueuedTables(s);
    match e
    case Store(_, _) =>
    case Trap(func, src, mptr) =>
      var s0 := Trapped(s, func, src, mptr);
      OnlyData(s, s0);
      QueuedTables(s0);
      if func == SEND {
        SendSlots(s0, s.cur, s.cfg.Slot(src), mptr);
      } else if func == RECEIVE {
        ReceiveSlots(s0, s.cur, src, mptr);
      }
    case Tick =>
      TickSent(s);
      var m := s.cfg.tickBuf;
      SendSlots(s.(mem := s.mem[m := HARDWARE][m + 1 := CLOCK_TICK]), s.cfg.Hardware(), s.cfg.Slot(s.cfg.clock), m);
  }

  lemma SendSlots(s: State, c: int, d: int, ptr: int)
    requires Sized(s) && ReadyInTable(s)
    requires 0 <= d < |s.procs| && 0 <= c < |s.procs| && IsBuffer(s.mem, ptr)
    ensures Send(s, c, d, ptr).cfg == s.cfg
    ensures forall p :: 0 <= p < |s.procs| ==> Send(s, c, d, ptr).procs[p].flags.free == s.procs[p].flags.free
  {}

  lemma ReceiveSlots(s: State, c: int, src: int, ptr: int)
    requires Sized(s) && ReadyInTable(s) && CallersInTable(s)
    requires 0 <= c < |s.procs| && IsBuffer(s.mem, ptr)
    ensures Receive(s, c, src, ptr).cfg == s.cfg
    ensures forall p :: 0 <= p < |s.procs| ==> Receive(s, c, src, ptr).procs[p].flags.free == s.procs[p].flags.free
  {}

  lemma {:induction false} RunOnlyTasks(s: State, es: seq<Event>)
    requires Good(s) && OnlyTasks(s)
    ensures Run(s, es).cfg == s.cfg && OnlyTasks(Run(s, es))
    decreases |es|
  {
    if es == [] {
    } else if Legal(s, es[0]) {
      SlotsStay(s, es[0]);
      RunOnlyTasks(Step(s, es[0]), es[1..]);
    } else {
      RunOnlyTasks(s, es[1..]);
    }
  }

  // Where a run from kmain() leads.
  ghost function Booted(mem: seq<int>, tickBuf: nat, es: seq<Event>): (s: State)
    requires IsBuffer(mem, tickBuf)
    ensures Good(s)
  {
    BootIsGood(mem, tickBuf);
    Run(Boot(mem, tickBuf), es)
  }

  // There the head of the task queue always has the processor.
  lemma HeadRuns(mem: seq<int>, tickBuf: nat, es: seq<Event>)
    requires IsBuffer(mem, tickBuf)
    ensures var s := Booted(mem, tickBuf, es);
      s.cur == if s.ready[TASK_Q] == [] then s.cfg.Hardware() else s.ready[TASK_Q][0]
  {
    BootIsGood(mem, tickBuf);
    var s0 := Boot(mem, tickBuf);
    assert forall p :: 3 <= p < 12 ==> s0.procs[p].flags.free;
    RunOnlyTasks(s0, es);
    var s := Run(s0, es);
    if s.cur != s.cfg.Hardware() {
      RunningIsReady(s);
    }
    forall q | q == SERVER_Q || q == USER_Q ensures s.ready[q] == [] {
      assert ReadyQueue(s, q);
      SomeIn(s.ready[q]);
    }
  }

  // The round-robin bound of the port, from place 0 on: a task ready at place k
  // has the processor within k * SCHED_RATE ticks, whatever the others do.
  lemma RoundRobin(mem: seq<int>, tickBuf: nat, before: seq<Event>, es: seq<Event>, p: int)
    requires IsBuffer(mem, tickBuf) && p in Booted(mem, tickBuf, before).ready[TASK_Q]
    requires Ticks(es) >= IndexOf(Booted(mem, tickBuf, before).ready[TASK_Q], p) * SCHED_RATE
    ensures exists n :: 0 <= n <= |es| && Run(Booted(mem, tickBuf, before), es[..n]).cur == p
  {
    HeadRuns(mem, tickBuf, before);
    var s := Booted(mem, tickBuf, before);
    if s.ready[TASK_Q][0] == p {
      assert Run(s, es[..0]).cur == p;
    } else {
      GetsTheProcessor(s, es, p);
    }
  }

  // ---------------------------------------------------------------------
  // Who runs

  // No process that can run is more important than the one that does: tasks
  // come before servers, and servers before users.
  ghost predicate Foremost(s: State)
    requires Sized(s)
  {
    forall r :: 0 <= r < |s.procs| && Runnable(s, r) ==>
      && s.cur != s.cfg.Hardware()
      && (s.cfg.Pid(r) < 0 ==> s.cfg.Pid(s.cur) < 0)
      && (s.cfg.Pid(r) < s.cfg.low ==> s.cfg.Pid(s.cur) < s.cfg.low)
  }

  // The same of the queues.
  ghost predicate FirstQueue(s: State)
    requires Sized(s)
  {
    forall q :: 0 <= q < NQ && s.ready[q] != [] ==> s.cur != s.cfg.Hardware() && s.cfg.QueueOf(s.cur) <= q
  }

  lemma FirstForemost(s: State)
    requires Queued(s) && FirstQueue(s)
    ensures Foremost(s)
  {
    forall r | 0 <= r < |s.procs| && Runnable(s, r)
      ensures s.cur != s.cfg.Hardware() && s.cfg.QueueOf(s.cur) <= s.cfg.QueueOf(r)
    {
      assert ReadyQueue(s, s.cfg.QueueOf(r)) && r in s.ready[s.cfg.QueueOf(r)];
    }
  }

  lemma PickFirst(s: State)
    requires Sized(s) && ReadyInTable(s) && ReadyOk(s) && s.procs[s.cfg.Hardware()].flags.free
    ensures FirstQueue(Pick(s)) && Pick(s) == s.(cur := Pick(s).cur)
  {
    forall q | 0 <= q < NQ && s.ready[q] != []
      ensures s.cfg.QueueOf(s.ready[q][0]) == q && s.ready[q][0] != s.cfg.Hardware()
    {
      assert ReadyQueue(s, q) && s.ready[q][0] in s.ready[q];
    }
  }

  // Leaving a ready queue changes who runs only by picking.
  lemma UnreadyFirst(t: State, c: int)
    requires Sized(t) && ReadyInTable(t) && ReadyOk(Unready(t, c)) && t.procs[t.cfg.Hardware()].flags.free
    ensures Unready(t, c).cur == t.cur || FirstQueue(Unready(t, c))
  {
    var q := t.cfg.QueueOf(c);
    var w := t.(ready := t.ready[q := Remove(t.ready[q], c)]);
    var u := Unready(t, c);
    if u.cur != t.cur {
      assert ReadyOk(w) by {
        forall k | 0 <= k < NQ ensures ReadyQueue(w, k) {
          assert ReadyQueue(u, k);
          assert forall x :: 0 <= x < |w.procs| ==> Runnable(w, x) == Runnable(u, x);
        }
      }
      PickFirst(w);
    }
  }

  lemma SendFirst(s: State, c: int, d: int, ptr: int)
    requires Queued(s) && 0 <= c < |s.procs| && 0 <= d < |s.procs| && IsBuffer(s.mem, ptr)
    requires c == s.cfg.Hardware() || Runnable(s, c)
    ensures ReadyInTable(s)
    ensures Send(s, c, d, ptr).cur == s.cur || FirstQueue(Send(s, c, d, ptr))
  {
    QueuedTables(s);
    if !s.procs[d].flags.free && !Awaits(s, d, c) && c != s.cfg.Hardware() {
      var p := s.procs[c].(messbuf := ptr, flags := s.procs[c].flags.(sending := true));
      var t := s.(procs := s.procs[c := p]);
      UnreadyKeeps(s, t, c);
      UnreadyFirst(t, c);
    }
  }

  lemma ReceiveFirst(s: State, c: int, src: int, ptr: int)
    requires Queued(s) && 0 <= c < |s.procs| && IsBuffer(s.mem, ptr) && !s.procs[c].flags.free
    ensures ReadyInTable(s) && CallersInTable(s)
    ensures Receive(s, c, src, ptr).cur == s.cur || FirstQueue(Receive(s, c, src, ptr))
  {
    QueuedTables(s);
    if FirstFrom(s.cfg, s.callers[c], src) == |s.callers[c]| {
      var t := s.(procs := s.procs[c := Proc(s.procs[c].flags.(receiving := true), src, ptr)]);
      UnreadyKeeps(s, t, c);
      UnreadyFirst(t, c);
    }
  }

  // At every step: when the processor changes hands, and at every tick, it goes
  // to a process than which none that can run is more important.
  lemma StepForemost(s: State, e: Event)
    requires Good(s) && Legal(s, e)
    ensures var t := Step(s, e); Good(t) && (e.Tick? || t.cur != s.cur ==> Foremost(t))
  {
    StepKeeps(s, e);
    QueuedTables(s);
    match e
    case Store(_, _) =>
    case Trap(func, src, mptr) => TrapForemost(s, e);
    case Tick => TickForemost(s);
  }

  lemma TrapForemost(s: State, e: Event)
    requires Good(s) && Legal(s, e) && e.Trap?
    ensures var t := Step(s, e); Good(t) && (t.cur != s.cur ==> Foremost(t))
  {
    hide NoLostWakeup, CallersOk, CopyMess;
    StepKeeps(s, e);
    RunningIsReady(s);
    var s0 := Trapped(s, e.func, e.src, e.mptr);
    OnlyData(s, s0);
    if e.func == SEND {
      SendFirst(s0, s.cur, s.cfg.Slot(e.src), e.mptr);
    } else if e.func == RECEIVE {
      ReceiveFirst(s0, s.cur, e.src, e.mptr);
    }
    if Step(s, e).cur != s.cur {
      FirstForemost(Step(s, e));
    }
  }

  lemma TickForemost(s: State)
    requires Good(s)
    ensures Good(Step(s, Tick)) && Foremost(Step(s, Tick))
  {
    hide NoLostWakeup, CallersOk, CopyMess;
    StepKeeps(s, Tick);
    TickSent(s);
    var s1 := Ticked(s);
    var s2 := if s1.ticks - 1 == 0 then s1.(ticks := SCHED_RATE, ready := s1.ready[TASK_Q := Rotate(s1.ready[TASK_Q])])
              else s1.(ticks := s1.ticks - 1);
    assert ReadyOk(s2) by {
      forall q | 0 <= q < NQ ensures ReadyQueue(s2, q) {
        assert ReadyQueue(s1, q);
        RotateMembers(s1.ready[q]);
        assert forall x :: 0 <= x < |s1.procs| ==> Runnable(s2, x) == Runnable(s1, x);
      }
    }
    PickFirst(s2);
    FirstForemost(Step(s, Tick));
  }

  // ---------------------------------------------------------------------
  // The head of the queue

  // A send readies a task without running it, so the head of TASK_Q may be
  // waiting behind a server.  The next tick runs it, except when that tick is
  // a rotation and another task is (or just became) ready: then it goes to
  // the back without having run.
  lemma HeadRunsNext(s: State)
    requires Good(s) && s.ready[TASK_Q] != []
    ensures var p := s.ready[TASK_Q][0];
      var wakes := Awaits(s, s.cfg.Slot(s.cfg.clock), s.cfg.Hardware());
      Step(s, Tick).cur == p <==> !(s.ticks == 1 && (|s.ready[TASK_Q]| > 1 || wakes))
  {
    TickSent(s);
    var q := s.ready[TASK_Q];
    var k := s.cfg.Slot(s.cfg.clock);
    var m := s.cfg.tickBuf;
    var s0 := s.(mem := s.mem[m := HARDWARE][m + 1 := CLOCK_TICK]);
    var s1 := Send(s0, s.cfg.Hardware(), k, m);
    assert ReadyQueue(s, TASK_Q);
    assert Awaits(s, k, s.cfg.Hardware()) ==> k !in q;
    assert s1.ready[TASK_Q] == if Awaits(s, k, s.cfg.Hardware()) then q + [k] else q;
  }

  // The kernel with a server in it, which kmain() does not start: the server
  // has just readied task A, and the clock task waits for the tick that will
  // end the quantum.
  function Overtaken(): State {
    var free := Proc(Flags(true, false, false), 0, 0);
    var ready := Proc(Flags(false, false, false), 0, 0);
    var cfg := Port(0);
    State(cfg,
          [Proc(Flags(false, false, true), cfg.Any(), 8), ready, free, free, ready] + seq(7, i => free),
          [[1], [4], []], seq(12, i => []), seq(12, i => 0), seq(16, i => 0), seq(12, i => Frame(0, 0, 0)), 4, 1)
  }

  lemma OvertakenIsGood()
    ensures Good(Overtaken())
  {
    var s := Overtaken();
    assert |s.procs| == 12;
    assert forall p :: 5 <= p < 12 ==> s.procs[p].flags.free;
    forall q | 0 <= q < NQ ensures ReadyQueue(s, q) {
      forall r ensures r in s.ready[q] <==> 0 <= r < |s.procs| && s.cfg.QueueOf(r) == q && Runnable(s, r) {}
    }
    forall d | 0 <= d < |s.procs| ensures SenderQueue(s, d) {}
  }

  lemma HeadCanMoveBack()
    ensures var s := Overtaken();
      && Good(s) && s.ready[TASK_Q][0] == 1
      && Step(s, Tick).ready[TASK_Q] == [0, 1] && Step(s, Tick).cur == 0
  {
    OvertakenIsGood();
    HeadRunsNext(Overtaken());
    TickSent(Overtaken());
  }
}
