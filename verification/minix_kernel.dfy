// The original kernel: SENDREC, user permissions, process exit and the
// scheduling of users.  One buffer serves both halves of a SENDREC, so what is
// proved here is about the queues, not about what the messages say.

module MinixKernel {
  import opened Links
  import opened Rendezvous
  import opened RendezvousInvariants
  import opened RendezvousRuns

  const MM_PROC_NR := 0
  const FS_PROC_NR := 1

  const E_BAD_SRC := -2
  const E_NO_PERM := -8
  const E_BAD_ADDR := -10
  const E_BAD_PROC := -11

  // Eight tasks, sixteen processes, users from LOW_USER on; CLOCK is task -3.
  function Original(tickBuf: nat): (cfg: Config) {
    Config(8, 16, 2, -3, tickBuf, -4, -1)
  }

  // ---------------------------------------------------------------------
  // System calls

  predicate MaySend(cfg: Config, c: int, d: int) {
    cfg.Pid(c) >= cfg.low ==> cfg.Pid(d) == MM_PROC_NR || cfg.Pid(d) == FS_PROC_NR
  }

  // mini_send(), with its checks on the caller and on the message buffer.
  function CheckedCode(s: State, c: int, d: int, ptr: int): (n: int)
    requires MaySend(s.cfg, c, d) ==> 0 <= d < |s.procs|
  {
    if !MaySend(s.cfg, c, d) || s.procs[d].flags.free then s.cfg.eBadDest
    else if !IsBuffer(s.mem, ptr) then E_BAD_ADDR
    else SendCode(s, c, d)
  }

  ghost function CheckedSend(s: State, c: int, d: int, ptr: int): (t: State)
    requires Sized(s) && ReadyInTable(s) && 0 <= c < |s.procs|
    requires MaySend(s.cfg, c, d) ==> 0 <= d < |s.procs|
    ensures Sized(t)
  {
    if MaySend(s.cfg, c, d) && IsBuffer(s.mem, ptr) then Send(s, c, d, ptr) else s
  }

  predicate BadSource(cfg: Config, who: int) {
    who + cfg.tasks < 0 || (who >= cfg.procs && who != cfg.Any())
  }

  predicate Sends(func: nat) {
    func % 2 == 1
  }

  predicate Receives(func: nat) {
    func / 2 % 2 == 1
  }

  function SetCode(s: State, c: int, n: int): State
    requires 0 <= c < |s.frames|
  {
    s.(frames := s.frames[c := s.frames[c].(a := n)])
  }

  // What the kernel relies on when a task or a server calls: a destination is a
  // process, not ANY, and a buffer to receive into is good (only a send is
  // checked for that).  Of a user it relies on nothing.
  predicate CallOk(s: State, func: nat, c: int, who: int, ptr: int) {
    s.cfg.Pid(c) < s.cfg.low ==>
      && (Sends(func) ==> who != s.cfg.Any())
      && (Receives(func) && !Sends(func) ==> IsBuffer(s.mem, ptr))
  }

  // A refused call only leaves its code in the caller's register.
  function Refusal(s: State, func: nat, c: int, who: int, ptr: int): (n: int)
    requires |s.procs| == s.cfg.Slots() && CallOk(s, func, c, who, ptr)
  {
    if BadSource(s.cfg, who) then E_BAD_SRC
    else if func != BOTH && s.cfg.Pid(c) >= s.cfg.low then E_NO_PERM
    else if Sends(func) then CheckedCode(s, c, s.cfg.Slot(who), ptr)
    else OK
  }

  ghost function FirstHalf(s: State, func: nat, c: int, who: int, ptr: int): (t: State)
    requires Sized(s) && ReadyInTable(s) && 0 <= c < |s.procs|
    requires Sends(func) && MaySend(s.cfg, c, s.cfg.Slot(who)) ==> 0 <= s.cfg.Slot(who) < |s.procs|
    ensures Sized(t)
  {
    if Sends(func) then CheckedSend(s, c, s.cfg.Slot(who), ptr) else s
  }

  ghost function SecondHalf(s: State, func: nat, c: int, who: int, ptr: int): (t: State)
    requires Sized(s) && ReadyInTable(s) && CallersInTable(s) && 0 <= c < |s.procs|
    requires Receives(func) ==> IsBuffer(s.mem, ptr)
    ensures Sized(t)
  {
    var t := if Receives(func) then Receive(s, c, who, ptr) else s;
    if func == SEND || Receives(func) then SetCode(t, c, OK) else t
  }

  ghost function SysCall(s: State, func: nat, c: int, who: int, ptr: int): (t: State)
    requires Queued(s) && 0 <= c < |s.procs| && Runnable(s, c) && CallOk(s, func, c, who, ptr)
    ensures Sized(t)
  {
    var n := Refusal(s, func, c, who, ptr);
    if n != OK then SetCode(s, c, n)
    else CallSent(s, func, c, who, ptr); SecondHalf(FirstHalf(s, func, c, who, ptr), func, c, who, ptr)
  }

  // Between the two halves of a SENDREC the caller may already be blocked.
  lemma CallSent(s: State, func: nat, c: int, who: int, ptr: int)
    requires Queued(s) && 0 <= c < |s.procs| && Runnable(s, c) && CallOk(s, func, c, who, ptr)
    requires Refusal(s, func, c, who, ptr) == OK
    ensures ReadyInTable(s)
    ensures Sends(func) ==> 0 <= s.cfg.Slot(who) < |s.procs| && IsBuffer(s.mem, ptr)
    ensures var s1 := FirstHalf(s, func, c, who, ptr);
      && Queued(s1) && ReadyInTable(s1) && CallersInTable(s1)
      && s1.cfg == s.cfg && |s1.mem| == |s.mem| && |s1.procs| == |s.procs| && !s1.procs[c].flags.free
  {
    QueuedTables(s);
    if Sends(func) {
      SendKeeps(s, c, s.cfg.Slot(who), ptr);
    }
    QueuedTables(FirstHalf(s, func, c, who, ptr));
  }

  lemma SysCallKeeps(s: State, func: nat, c: int, who: int, ptr: int)
    requires Queued(s) && 0 <= c < |s.procs| && Runnable(s, c) && CallOk(s, func, c, who, ptr)
    ensures Queued(SysCall(s, func, c, who, ptr))
  {
    var t := s;
    if Refusal(s, func, c, who, ptr) == OK {
      CallSent(s, func, c, who, ptr);
      t := FirstHalf(s, func, c, who, ptr);
      if Receives(func) {
        ReceiveKeeps(t, c, who, ptr);
        t := Receive(t, c, who, ptr);
      }
    }
    OnlyData(t, SysCall(s, func, c, who, ptr));
  }

  // ---------------------------------------------------------------------
  // proc_ptr

  // Readying somebody moves no head, so proc_ptr stays right, or stays idle.
  lemma ReadyHead(s: State, t: State, r: int)
    requires Sized(s) && CurHead(s)
    requires Sized(t) && t.cfg == s.cfg && t.ready == s.ready && t.cur == s.cur
    ensures CurHead(Ready(t, r))
  {}

  // Blocking somebody either moves no head or picks again.
  lemma UnreadyHead(s: State, t: State, c: int)
    requires Queued(s) && CurHead(s)
    requires Sized(t) && t.cfg == s.cfg && t.ready == s.ready && t.cur == s.cur && |t.procs| == |s.procs|
    requires ReadyInTable(t)
    ensures CurHead(Unready(t, c))
  {
    var q := s.cfg.QueueOf(c);
    var list := s.ready[q];
    var u := t.(ready := t.ready[q := Remove(list, c)]);
    if list != [] && list[0] == c {
      forall k | 0 <= k < NQ && u.ready[k] != [] ensures s.cfg.QueueOf(u.ready[k][0]) == k {
        assert ReadyQueue(s, k);
        RemoveMembers(s.ready[k], c);
        assert u.ready[k][0] in u.ready[k];
        assert u.ready[k][0] in s.ready[k];
      }
    } else if IndexOf(list, c) < |list| {
      assert IndexOf(list, c) > 0;
      assert Remove(list, c)[0] == list[0];
    }
  }

  lemma SendHead(s: State, c: int, d: int, ptr: int)
    requires Queued(s) && CurHead(s) && 0 <= c < |s.procs| && 0 <= d < |s.procs| && IsBuffer(s.mem, ptr)
    requires c == s.cfg.Hardware() || Runnable(s, c)
    ensures ReadyInTable(s)
    ensures CurHead(Send(s, c, d, ptr))
  {
    QueuedTables(s);
    if s.procs[d].flags.free {
    } else if Awaits(s, d, c) {
      var flags := s.procs[d].flags.(receiving := false);
      ReadyHead(s, s.(mem := CopyMess(s.mem, s.cfg.Pid(c), ptr, s.procs[d].messbuf),
                      procs := s.procs[d := s.procs[d].(flags := flags)]), d);
    } else if c != s.cfg.Hardware() {
      var p := s.procs[c].(messbuf := ptr, flags := s.procs[c].flags.(sending := true));
      UnreadyHead(s, s.(procs := s.procs[c := p]), c);
    }
  }

  lemma ReceiveHead(s: State, c: int, src: int, ptr: int)
    requires Queued(s) && CurHead(s) && 0 <= c < |s.procs| && IsBuffer(s.mem, ptr)
    ensures ReadyInTable(s) && CallersInTable(s)
    ensures CurHead(Receive(s, c, src, ptr))
  {
    QueuedTables(s);
    var i := FirstFrom(s.cfg, s.callers[c], src);
    if i < |s.callers[c]| {
      var p := s.callers[c][i];
      var flags := s.procs[p].flags.(sending := false);
      ReadyHead(s, s.(mem := CopyMess(s.mem, s.cfg.Pid(p), s.procs[p].messbuf, ptr),
                      procs := s.procs[p := s.procs[p].(flags := flags)]), p);
    } else {
      var p := Proc(s.procs[c].flags.(receiving := true), src, ptr);
      UnreadyHead(s, s.(procs := s.procs[c := p]), c);
    }
  }

  lemma SysCallHead(s: State, func: nat, c: int, who: int, ptr: int)
    requires Queued(s) && CurHead(s) && 0 <= c < |s.procs| && Runnable(s, c) && CallOk(s, func, c, who, ptr)
    ensures CurHead(SysCall(s, func, c, who, ptr))
  {
    if Refusal(s, func, c, who, ptr) == OK {
      CallSent(s, func, c, who, ptr);
      if Sends(func) {
        SendHead(s, c, s.cfg.Slot(who), ptr);
      }
      if Receives(func) {
        ReceiveHead(FirstHalf(s, func, c, who, ptr), c, who, ptr);
      }
    }
  }

  // ---------------------------------------------------------------------
  // Scheduling and exit

  // The running user has had its quantum.
  ghost function SchedUsers(s: State): (t: State)
    requires Sized(s) && ReadyInTable(s)
    ensures Sized(t)
  {
    if s.ready[USER_Q] == [] then s
    else Pick(s.(ready := s.ready[USER_Q := Rotate(s.ready[USER_Q])]))
  }

  lemma SchedUsersKeeps(s: State)
    requires Queued(s)
    ensures ReadyInTable(s)
    ensures Queued(SchedUsers(s))
    ensures CurHead(s) ==> CurHead(SchedUsers(s))
  {
    QueuedTables(s);
    if s.ready[USER_Q] != [] {
      var t := s.(ready := s.ready[USER_Q := Rotate(s.ready[USER_Q])]);
      assert ReadyQueue(s, USER_Q);
      RotateMembers(s.ready[USER_Q]);
      forall q | 0 <= q < NQ ensures ReadyQueue(t, q) {
        assert ReadyQueue(s, q);
        assert forall x :: 0 <= x < |s.procs| ==> Runnable(t, x) == Runnable(s, x);
      }
      BlockedFrame(s, t);
      PickKeeps(t);
    }
  }

  // do_xit(): the process leaves every queue and its slot becomes free.
  ghost function Kill(s: State, p: int): (t: State)
    requires Queued(s) && 0 <= p < |s.procs| && p != s.cfg.Hardware()
    ensures Sized(t)
  {
    QueuedTables(s);
    var s1 := Unready(s, p);
    var d := s.sendto[p];
    var callers := if s.procs[p].flags.sending then s.callers[d := Remove(s.callers[d], p)] else s.callers;
    s1.(callers := callers, procs := s.procs[p := s.procs[p].(flags := Flags(true, false, false))])
  }

  // After the exit no queue names the process.
  lemma KillLeavesNoTrace(s: State, p: int)
    requires Queued(s) && 0 <= p < |s.procs| && p != s.cfg.Hardware()
    ensures var t := Kill(s, p);
      && (forall q :: 0 <= q < NQ ==> p !in t.ready[q])
      && (forall d :: 0 <= d < |s.procs| ==> p !in t.callers[d])
      && t.procs[p].flags == Flags(true, false, false)
  {
    QueuedTables(s);
    var t := Kill(s, p);
    forall q | 0 <= q < NQ ensures p !in t.ready[q] {
      assert ReadyQueue(s, q);
      RemoveMembers(s.ready[q], p);
    }
    forall d | 0 <= d < |s.procs| ensures p !in t.callers[d] {
      assert SenderQueue(s, d);
      RemoveMembers(s.callers[d], p);
    }
  }

  // Everybody else keeps his place, and the invariant survives.
  lemma KillKeeps(s: State, p: int)
    requires Queued(s) && 0 <= p < |s.procs| && p != s.cfg.Hardware()
    ensures Queued(Kill(s, p))
    ensures CurHead(s) ==> CurHead(Kill(s, p))
  {
    QueuedTables(s);
    var t := Kill(s, p);
    KillLeavesNoTrace(s, p);
    forall q | 0 <= q < NQ ensures ReadyQueue(t, q) {
      assert ReadyQueue(s, q);
      RemoveMembers(s.ready[q], p);
      assert q != s.cfg.QueueOf(p) ==> p !in s.ready[q];
      assert forall x :: 0 <= x < |s.procs| && x != p ==> Runnable(t, x) == Runnable(s, x);
    }
    forall d | 0 <= d < |s.procs| ensures SenderQueue(t, d) {
      assert SenderQueue(s, d);
      RemoveMembers(s.callers[d], p);
    }
    forall r, c | 0 <= r < |s.procs| && t.procs[r].flags.receiving && c in t.callers[r] ensures !Awaits(t, r, c) {
      RemoveMembers(s.callers[r], p) by { assert SenderQueue(s, r); }
      assert !Awaits(s, r, c);
    }
    if CurHead(s) {
      UnreadyHead(s, s, p);
    }
  }

  // ---------------------------------------------------------------------
  // Runs

  // Call: by the running process.  Hardware: mini_send() for an interrupt or
  // for a signal to MM.  Repick: interrupt() found a task ready.
  datatype Entry =
    | Call(func: nat, who: int, ptr: int)
    | Hardware(task: int, ptr: int)
    | Repick
    | Quantum
    | Exit(proc: int)

  predicate CanEnter(s: State, e: Entry)
    requires |s.procs| == s.cfg.Slots()
  {
    match e
    case Call(func, who, ptr) => s.cur != s.cfg.Hardware() && CallOk(s, func, s.cur, who, ptr)
    case Hardware(task, ptr) => 0 <= s.cfg.Slot(task) < |s.procs| && IsBuffer(s.mem, ptr)
    case Exit(p) => 0 <= p < s.cfg.procs
    case _ => true
  }

  ghost predicate Sound(s: State) {
    Queued(s) && CurHead(s)
  }

  lemma RunningHead(s: State)
    requires Sound(s) && s.cur != s.cfg.Hardware()
    ensures Runnable(s, s.cur)
  {
    assert ReadyQueue(s, s.cfg.QueueOf(s.cur));
    assert s.cur in s.ready[s.cfg.QueueOf(s.cur)];
  }

  ghost function Enter(s: State, e: Entry): (t: State)
    requires Sound(s) && CanEnter(s, e)
  {
    QueuedTables(s);
    match e
    case Call(func, who, ptr) => RunningHead(s); SysCall(s, func, s.cur, who, ptr)
    case Hardware(task, ptr) => Send(s, s.cfg.Hardware(), s.cfg.Slot(task), ptr)
    case Repick => Pick(s)
    case Quantum => SchedUsers(s)
    case Exit(p) => Kill(s, s.cfg.Slot(p))
  }

  lemma EnterKeeps(s: State, e: Entry)
    requires Sound(s) && CanEnter(s, e)
    ensures Sound(Enter(s, e))
  {
    QueuedTables(s);
    match e
    case Call(func, who, ptr) =>
      RunningHead(s);
      SysCallKeeps(s, func, s.cur, who, ptr);
      SysCallHead(s, func, s.cur, who, ptr);
    case Hardware(task, ptr) =>
      SendKeeps(s, s.cfg.Hardware(), s.cfg.Slot(task), ptr);
      SendHead(s, s.cfg.Hardware(), s.cfg.Slot(task), ptr);
    case Repick => PickKeeps(s);
    case Quantum => SchedUsersKeeps(s);
    case Exit(p) => KillKeeps(s, s.cfg.Slot(p));
  }

  ghost function Entries(s: State, es: seq<Entry>): (t: State)
    requires Sound(s)
    ensures Sound(t)
    decreases |es|
  {
    if es == [] then s
    else if CanEnter(s, es[0]) then EnterKeeps(s, es[0]); Entries(Enter(s, es[0]), es[1..])
    else Entries(s, es[1..])
  }

  // ---------------------------------------------------------------------
  // Idle with work to do

  predicate AllEmpty(s: State)
    requires |s.ready| == NQ
  {
    s.ready[TASK_Q] == s.ready[SERVER_Q] == s.ready[USER_Q] == []
  }

  // A receive readies a sender without picking, which is wrong only when the
  // machine has already gone idle.
  lemma ReceiveIdle(s: State, c: int, src: int, ptr: int)
    requires Queued(s) && CurOk(s) && 0 <= c < |s.procs| && IsBuffer(s.mem, ptr) && !s.procs[c].flags.free
    requires c == s.cur || !Runnable(s, c)
    ensures ReadyInTable(s) && CallersInTable(s)
    ensures var i := FirstFrom(s.cfg, s.callers[c], src);
      CurOk(Receive(s, c, src, ptr)) <==>
        !(s.cur == s.cfg.Hardware() && i < |s.callers[c]| && !s.procs[s.callers[c][i]].flags.receiving)
  {
    QueuedTables(s);
    var i := FirstFrom(s.cfg, s.callers[c], src);
    if i < |s.callers[c]| {
      var p := s.callers[c][i];
      assert SenderQueue(s, c) && p in s.callers[c];
      var flags := s.procs[p].flags.(sending := false);
      var t := s.(mem := CopyMess(s.mem, s.cfg.Pid(p), s.procs[p].messbuf, ptr),
                  procs := s.procs[p := s.procs[p].(flags := flags)]);
      if s.cur != s.cfg.Hardware() {
        ReadyCur(s, t, p);
      }
    } else {
      var p := Proc(s.procs[c].flags.(receiving := true), src, ptr);
      var t := s.(procs := s.procs[c := p]);
      assert ReadyQueue(s, s.cfg.QueueOf(c));
      if c == s.cur {
        UnreadyCur(s, t, c);
      } else {
        assert Unready(t, c).ready == s.ready;
      }
    }
  }

  lemma SendIdle(s: State, d: int, ptr: int)
    requires Queued(s) && CurOk(s) && s.cur != s.cfg.Hardware()
    requires 0 <= d < |s.procs| && IsBuffer(s.mem, ptr) && !s.procs[d].flags.free
    ensures ReadyInTable(s)
    ensures var t := Send(s, s.cur, d, ptr);
      && CurOk(t) && Queued(t) && !t.procs[s.cur].flags.free
      && (if Awaits(s, d, s.cur) then t.cur == s.cur && t.callers == s.callers
          else !Runnable(t, s.cur) && t.callers == s.callers[d := s.callers[d] + [s.cur]])
      && (t.cur == t.cfg.Hardware() <==>
            !Awaits(s, d, s.cur)
              && AllEmpty(s.(ready := s.ready[s.cfg.QueueOf(s.cur) := s.ready[s.cfg.QueueOf(s.cur)][1..]])))
  {
    QueuedTables(s);
    RunningIsReady(s);
    SendKeeps(s, s.cur, d, ptr);
    SendCur(s, d, ptr);
    var k := s.cfg.QueueOf(s.cur);
    IndexUnique(s.ready[k], 0) by { assert ReadyQueue(s, k); }
    assert Remove(s.ready[k], s.cur) == s.ready[k][1..];
  }

  // A SEND or a RECEIVE alone leaves proc_ptr right.
  lemma OneHalfCur(s: State, func: nat, who: int, ptr: int)
    requires Queued(s) && CurOk(s) && s.cur != s.cfg.Hardware() && CallOk(s, func, s.cur, who, ptr)
    requires Runnable(s, s.cur) && !(Sends(func) && Receives(func))
    ensures CurOk(SysCall(s, func, s.cur, who, ptr))
  {
    var c := s.cur;
    if Refusal(s, func, c, who, ptr) == OK {
      CallSent(s, func, c, who, ptr);
      if Sends(func) {
        SendIdle(s, s.cfg.Slot(who), ptr);
      } else if Receives(func) {
        ReceiveIdle(s, c, who, ptr);
      }
    }
  }

  // When the two halves together do not.
  predicate IdlesWithWork(s: State, d: int)
    requires |s.ready| == NQ && 0 <= s.cur < |s.callers| && 0 <= d < |s.procs|
    requires s.ready[s.cfg.QueueOf(s.cur)] != []
  {
    var k := s.cfg.QueueOf(s.cur);
    && !Awaits(s, d, s.cur) && AllEmpty(s.(ready := s.ready[k := s.ready[k][1..]]))
    && (d == s.cur || d in s.callers[s.cur]) && !s.procs[d].flags.receiving
  }

  lemma BothHalves(s: State, d: int, ptr: int)
    requires Queued(s) && CurOk(s) && s.cur != s.cfg.Hardware() && IsBuffer(s.mem, ptr)
    requires 0 <= d < |s.procs| && s.cfg.Pid(d) != s.cfg.Any() && !s.procs[d].flags.free
    ensures s.ready[s.cfg.QueueOf(s.cur)] != [] && ReadyInTable(s)
    ensures var s1 := Send(s, s.cur, d, ptr);
      && ReadyInTable(s1) && CallersInTable(s1)
      && (CurOk(Receive(s1, s.cur, s.cfg.Pid(d), ptr)) <==> !IdlesWithWork(s, d))
  {
    RunningIsReady(s);
    SendIdle(s, d, ptr);
    var s1 := Send(s, s.cur, d, ptr);
    ReceiveIdle(s1, s.cur, s.cfg.Pid(d), ptr);
    PartnerQueued(s, s1, s.cur, d);
  }

  // Unlike SEND and RECEIVE alone, a SENDREC can leave the machine idle
  // although a process is ready: its first half blocks the only ready process
  // and its second half readies the partner, who was queued sending to the
  // caller (or is the caller), without picking again.  It is the only way.
  lemma SendrecMayIdle(s: State, func: nat, who: int, ptr: int)
    requires Queued(s) && CurOk(s) && s.cur != s.cfg.Hardware() && CallOk(s, func, s.cur, who, ptr)
    ensures Runnable(s, s.cur) && s.ready[s.cfg.QueueOf(s.cur)] != []
    ensures !CurOk(SysCall(s, func, s.cur, who, ptr)) <==>
              && Sends(func) && Receives(func) && Refusal(s, func, s.cur, who, ptr) == OK
              && 0 <= s.cfg.Slot(who) < |s.procs| && IdlesWithWork(s, s.cfg.Slot(who))
  {
    RunningIsReady(s);
    if !(Sends(func) && Receives(func)) {
      OneHalfCur(s, func, who, ptr);
    } else if Refusal(s, func, s.cur, who, ptr) == OK {
      CallSent(s, func, s.cur, who, ptr);
      BothHalves(s, s.cfg.Slot(who), ptr);
    }
  }

  // SYSTASK (slot 6) and FS (slot 9) can run; everybody else waits for a
  // message.
  const SYSTASK := -2

  function TwoReady(): State {
    var ready := Proc(Flags(false, false, false), 0, 0);
    var waits := Proc(Flags(false, false, true), 116, 0);
    var free := Proc(Flags(true, false, false), 0, 0);
    State(Original(0), seq(24, i => if i == 6 || i == 9 then ready else if i == 7 || i > 10 then free else waits),
          [[6], [9], []], seq(24, i => []), seq(24, i => 0), seq(16, i => 0), seq(24, i => Frame(0, 0, 0)), 6,
            SCHED_RATE)
  }

  lemma TwoReadySound()
    ensures Sound(TwoReady()) && CurOk(TwoReady())
  {
    var s := TwoReady();
    forall q | 0 <= q < NQ ensures ReadyQueue(s, q) {
      forall r ensures r in s.ready[q] <==> 0 <= r < |s.procs| && s.cfg.QueueOf(r) == q && Runnable(s, r) {}
    }
    forall d | 0 <= d < |s.procs| ensures SenderQueue(s, d) {}
  }

  // SYSTASK sends to FS, which is busy, so FS gets to run.
  lemma FirstSend(s: State)
    requires Queued(s) && s.cfg == Original(0) && s.ready == [[6], [9], []] && s.cur == 6 && |s.mem| == 16
    requires s.procs[9].flags.None() && s.procs[6].flags.None() && s.callers[9] == []
    ensures Refusal(s, SEND, 6, FS_PROC_NR, 8) == OK && ReadyInTable(s)
    ensures var u := FirstHalf(s, SEND, 6, FS_PROC_NR, 8);
      && u.cfg == s.cfg && u.ready == [[], [9], []] && u.cur == 9 && u.mem == s.mem && u.callers == s.callers[9 := [6]]
      && u.procs == s.procs[6 := s.procs[6].(flags := Flags(false, true, false), messbuf := 8)]
  {
    QueuedTables(s);
    assert Remove([6], 6) == [] && s.callers[9] + [6] == [6];
  }

  lemma FirstCall()
    ensures Sound(TwoReady()) && CanEnter(TwoReady(), Call(SEND, FS_PROC_NR, 8))
    ensures var t := Enter(TwoReady(), Call(SEND, FS_PROC_NR, 8));
      && Sound(t) && t.cfg == Original(0) && t.ready == [[], [9], []] && t.cur == 9 && |t.mem| == 16
      && t.procs[9].flags.None() && t.procs[6].flags == Flags(false, true, false) && t.callers[9] == [6]
  {
    TwoReadySound();
    FirstSend(TwoReady());
    EnterKeeps(TwoReady(), Call(SEND, FS_PROC_NR, 8));
  }

  // FS makes a combined call to SYSTASK: it blocks, nobody is left to run ...
  lemma SecondSend(t: State)
    requires Queued(t) && t.cfg == Original(0) && t.ready == [[], [9], []] && t.cur == 9 && |t.mem| == 16
    requires t.procs[9].flags.None() && t.procs[6].flags == Flags(false, true, false) && t.callers[9] == [6]
    ensures Refusal(t, BOTH, 9, SYSTASK, 8) == OK && ReadyInTable(t)
    ensures var u := FirstHalf(t, BOTH, 9, SYSTASK, 8);
      && u.cfg == t.cfg && u.ready == [[], [], []] && u.cur == 7 && u.callers[9] == [6]
      && u.procs[6] == t.procs[6] && |u.procs| == 24 && |u.callers| == 24
  {
    QueuedTables(t);
    assert Remove([9], 9) == [];
  }

  // ... and SYSTASK becomes ready without being picked.
  lemma SecondCall(t: State)
    requires t == Enter(TwoReady(), Call(SEND, FS_PROC_NR, 8))
    ensures Sound(t) && t.cur == 9 && CanEnter(t, Call(BOTH, SYSTASK, 8))
    ensures var u := Enter(t, Call(BOTH, SYSTASK, 8));
      u.cfg == t.cfg && u.cur == 7 && u.ready == [[6], [], []]
  {
    FirstCall();
    SecondSend(t);
    RunningHead(t);
    CallSent(t, BOTH, 9, SYSTASK, 8);
    var s1 := FirstHalf(t, BOTH, 9, SYSTASK, 8);
    assert s1.callers[9][0] == 6;
    assert FirstFrom(s1.cfg, [6], SYSTASK) == 0;
    assert s1.procs[6].flags == Flags(false, true, false);
    var s2 := Receive(s1, 9, SYSTASK, 8);
    assert s2 == Take(s1, 9, 0, 8);
    assert s2.cur == 7 && s2.ready == [[6], [], []];
  }

  // So the case above happens in a run.
  lemma SendrecIdles()
    ensures Sound(TwoReady()) && CurOk(TwoReady())
    ensures var t := Entries(TwoReady(), [Call(SEND, FS_PROC_NR, 8), Call(BOTH, SYSTASK, 8)]);
      t.cur == t.cfg.Hardware() && t.ready[TASK_Q] == [6] && !CurOk(t)
  {
    TwoReadySound();
    FirstCall();
    var d, e := Call(SEND, FS_PROC_NR, 8), Call(BOTH, SYSTASK, 8);
    var t := Enter(TwoReady(), d);
    SecondCall(t);
    EnterKeeps(t, e);
    TwoEntries(TwoReady(), d, e);
  }

  lemma TwoEntries(s: State, d: Entry, e: Entry)
    requires Sound(s) && CanEnter(s, d) && Sound(Enter(s, d)) && CanEnter(Enter(s, d), e)
    ensures Sound(Enter(Enter(s, d), e)) && Entries(s, [d, e]) == Enter(Enter(s, d), e)
  {
    EnterKeeps(Enter(s, d), e);
    assert [d, e][1..] == [e] && [e][1..] == [];
    assert Entries(Enter(s, d), [e]) == Entries(Enter(Enter(s, d), e), []);
  }

  // After the first half of a SENDREC, who is the sender its second half finds?
  lemma PartnerQueued(s: State, t: State, c: int, d: int)
    requires Queued(s) && Queued(t) && t.cfg == s.cfg && |t.procs| == |s.procs|
    requires 0 <= c < |s.procs| && 0 <= d < |s.procs| && s.cfg.Pid(d) != s.cfg.Any()
    requires t.callers == s.callers || t.callers == s.callers[d := s.callers[d] + [c]]
    ensures var i := FirstFrom(t.cfg, t.callers[c], s.cfg.Pid(d));
      && (i < |t.callers[c]| ==> t.callers[c][i] == d)
      && (t.callers != s.callers ==> (i < |t.callers[c]| <==> d == c || d in s.callers[c]))
  {
    var i := FirstFrom(t.cfg, t.callers[c], s.cfg.Pid(d));
    assert i == |t.callers[c]| ==> d !in t.callers[c] by {
      assert i == |t.callers[c]| ==> forall j :: 0 <= j < |t.callers[c]| ==> t.callers[c][j] != d;
    }
    assert i < |t.callers[c]| ==> t.callers[c][i] == d && d in t.callers[c];
    if t.callers != s.callers {
      assert t.callers[c] == if d == c then s.callers[c] + [c] else s.callers[c];
    }
  }
}
