// The original kernel, as its callers see it: the codes of calls, the turns of
// users, and what an exit leaves of the others.

module MinixAnswers {
  import opened Links
  import opened Rendezvous
  import opened RendezvousInvariants
  import opened RendezvousRuns
  import opened RendezvousTurns
  import opened RendezvousAnswers
  import opened MinixKernel

  // ---------------------------------------------------------------------
  // Codes

  // Who may not be called at all, by whom, and who cannot be sent to.
  predicate OutOfTable(cfg: Config, who: int) {
    !(0 <= cfg.Slot(who) < cfg.Slots()) && who != cfg.Any()
  }

  predicate User(cfg: Config, c: int) {
    cfg.Pid(c) >= cfg.low
  }

  predicate Unreachable(s: State, c: int, who: int)
    requires |s.procs| == s.cfg.Slots()
  {
    || (User(s.cfg, c) && who != MM_PROC_NR && who != FS_PROC_NR)
    || (0 <= s.cfg.Slot(who) < s.cfg.Slots() && s.procs[s.cfg.Slot(who)].flags.free)
  }

  // Each call leaves its code in the frame of its caller, whatever else the
  // kernel does, and touches no other frame.
  lemma SysCallAnswers(s: State, func: nat, c: int, who: int, ptr: int)
    requires Queued(s) && 0 <= c < |s.procs| && Runnable(s, c) && CallOk(s, func, c, who, ptr)
    ensures var t := SysCall(s, func, c, who, ptr);
      && |t.frames| == |s.frames|
      && (forall p :: 0 <= p < |s.frames| && p != c ==> t.frames[p] == s.frames[p])
      && t.frames[c] == s.frames[c].(a :=
           if OutOfTable(s.cfg, who) then E_BAD_SRC
           else if func != BOTH && User(s.cfg, c) then E_NO_PERM
           else if Sends(func) && Unreachable(s, c, who) then s.cfg.eBadDest
           else if Sends(func) && !IsBuffer(s.mem, ptr) then E_BAD_ADDR
           else if func == SEND || Receives(func) then OK
           else s.frames[c].a)
  {
    hide ReadyOk, CallersOk, NoLostWakeup, CopyMess, Deliver, Enqueue, Take, Await;
    var n := Refusal(s, func, c, who, ptr);
    if n == OK {
      CallSent(s, func, c, who, ptr);
      if Sends(func) {
        SendFrames(s, c, s.cfg.Slot(who), ptr);
      }
      if Receives(func) {
        ReceiveFrames(FirstHalf(s, func, c, who, ptr), c, who, ptr);
      }
    }
  }

  // A call that is refused changes nothing but the code; one that is not has
  // taken the message: its destination waits no longer, or the caller is in its
  // queue.
  lemma CallTakesMessage(s: State, func: nat, c: int, who: int, ptr: int)
    requires Queued(s) && 0 <= c < |s.procs| && Runnable(s, c) && CallOk(s, func, c, who, ptr)
    requires Sends(func) && s.cfg.Slot(who) != c
    ensures var t := SysCall(s, func, c, who, ptr);
      var d := s.cfg.Slot(who);
      && |t.frames| == |s.frames| == |s.procs| == |t.procs| == |t.callers|
      && if || OutOfTable(s.cfg, who) || (func != BOTH && User(s.cfg, c))
            || Unreachable(s, c, who) || !IsBuffer(s.mem, ptr)
         then t == s.(frames := t.frames)
         else if Awaits(s, d, c) then t.callers[d] == s.callers[d] && !t.procs[d].flags.receiving
         else t.callers[d] == s.callers[d] + [c] && t.sendto[c] == d && t.procs[c].flags.sending
  {
    hide ReadyOk, CallersOk, NoLostWakeup, CopyMess;
    if Refusal(s, func, c, who, ptr) == OK {
      CallSent(s, func, c, who, ptr);
      SendLeaves(s, c, s.cfg.Slot(who), ptr);
      if Receives(func) {
        ReceiveLeaves(FirstHalf(s, func, c, who, ptr), c, who, ptr, s.cfg.Slot(who));
      }
    }
  }

  lemma SendLeaves(s: State, c: int, d: int, ptr: int)
    requires Sized(s) && ReadyInTable(s) && c != s.cfg.Hardware()
    requires 0 <= d < |s.procs| && 0 <= c < |s.procs| && d != c && IsBuffer(s.mem, ptr) && !s.procs[d].flags.free
    ensures var t := Send(s, c, d, ptr);
      if Awaits(s, d, c) then t.callers[d] == s.callers[d] && !t.procs[d].flags.receiving
      else t.callers[d] == s.callers[d] + [c] && t.sendto[c] == d && t.procs[c].flags.sending
  {}

  lemma ReceiveLeaves(s: State, c: int, src: int, ptr: int, d: int)
    requires Queued(s) && ReadyInTable(s) && CallersInTable(s)
    requires 0 <= c < |s.procs| && 0 <= d < |s.procs| && d != c && IsBuffer(s.mem, ptr)
    ensures var t := Receive(s, c, src, ptr);
      && t.callers[d] == s.callers[d] && t.sendto == s.sendto
      && t.procs[d].flags.receiving == s.procs[d].flags.receiving
      && (c !in s.callers[c] ==> t.procs[c].flags.sending == s.procs[c].flags.sending)
  {}

  // ---------------------------------------------------------------------
  // The turns of users

  // At the end of a quantum the first user goes to the back, all others move up
  // one place, and the processor goes to whoever is most important then.
  lemma QuantumTurns(s: State)
    requires Queued(s)
    ensures ReadyInTable(s)
    ensures var t, q := SchedUsers(s), s.ready[USER_Q];
      var q' := t.ready[USER_Q];
      && Queued(t) && t == s.(ready := t.ready, cur := t.cur) && |q'| == |q|
      && t.ready[TASK_Q] == s.ready[TASK_Q] && t.ready[SERVER_Q] == s.ready[SERVER_Q]
      && (forall i :: 1 <= i < |q| ==> q'[i - 1] == q[i])
      && (q != [] ==> q'[|q| - 1] == q[0] && Foremost(t))
      && (q != [] && s.ready[TASK_Q] == [] && s.ready[SERVER_Q] == [] ==> t.cur == q[if |q| > 1 then 1 else 0])
  {
    QueuedTables(s);
    SchedUsersKeeps(s);
    if s.ready[USER_Q] != [] {
      var w := s.(ready := s.ready[USER_Q := Rotate(s.ready[USER_Q])]);
      var t := SchedUsers(s);
      assert ReadyOk(w) by {
        forall q | 0 <= q < NQ ensures ReadyQueue(w, q) {
          assert ReadyQueue(t, q);
          assert forall x :: 0 <= x < |s.procs| ==> Runnable(w, x) == Runnable(t, x);
        }
      }
      PickFirst(w);
      FirstForemost(t);
    }
  }

  // p is in the queue, and no further back than it was.
  ghost predicate NoFurther(q: seq<int>, q': seq<int>, p: int) {
    p in q' && IndexOf(q', p) <= IndexOf(q, p)
  }

  lemma RemovedPlace(q: seq<int>, c: int, p: int)
    requires NoDup(q) && p in q && c != p
    ensures NoDup(Remove(q, c)) && NoFurther(q, Remove(q, c), p)
  {
    RemoveMembers(q, c);
    var i, k := IndexOf(q, p), IndexOf(q, c);
    if k < |q| {
      var r := Remove(q, c);
      assert r[if i < k then i else i - 1] == p;
    }
  }

  lemma AppendedPlace(q: seq<int>, r: int, p: int)
    requires NoDup(q) && p in q
    ensures NoFurther(q, q + [r], p)
  {
    IndexAppend(q, [r], p);
  }

  lemma SendPlace(s: State, c: int, d: int, ptr: int, p: int)
    requires Queued(s) && 0 <= c < |s.procs| && 0 <= d < |s.procs| && IsBuffer(s.mem, ptr)
    requires p in s.ready[USER_Q] && p != c
    ensures ReadyInTable(s)
    ensures NoFurther(s.ready[USER_Q], Send(s, c, d, ptr).ready[USER_Q], p)
  {
    QueuedTables(s);
    assert ReadyQueue(s, USER_Q);
    RemovedPlace(s.ready[USER_Q], c, p);
    AppendedPlace(s.ready[USER_Q], d, p);
  }

  lemma ReceivePlace(s: State, c: int, src: int, ptr: int, p: int)
    requires Queued(s) && 0 <= c < |s.procs| && IsBuffer(s.mem, ptr) && p in s.ready[USER_Q] && p != c
    ensures ReadyInTable(s) && CallersInTable(s)
    ensures NoFurther(s.ready[USER_Q], Receive(s, c, src, ptr).ready[USER_Q], p)
  {
    QueuedTables(s);
    assert ReadyQueue(s, USER_Q);
    RemovedPlace(s.ready[USER_Q], c, p);
    var i := FirstFrom(s.cfg, s.callers[c], src);
    if i < |s.callers[c]| {
      AppendedPlace(s.ready[USER_Q], s.callers[c][i], p);
    }
  }

  lemma CallPlace(s: State, func: nat, c: int, who: int, ptr: int, p: int)
    requires Queued(s) && 0 <= c < |s.procs| && Runnable(s, c) && CallOk(s, func, c, who, ptr)
    requires p in s.ready[USER_Q] && p != c
    ensures NoFurther(s.ready[USER_Q], SysCall(s, func, c, who, ptr).ready[USER_Q], p)
  {
    hide ReadyOk, CallersOk, NoLostWakeup, CopyMess, Deliver, Enqueue, Take, Await;
    if Refusal(s, func, c, who, ptr) == OK {
      CallSent(s, func, c, who, ptr);
      if Sends(func) {
        SendPlace(s, c, s.cfg.Slot(who), ptr, p);
      }
      if Receives(func) {
        ReceivePlace(FirstHalf(s, func, c, who, ptr), c, who, ptr, p);
      }
    }
  }

  lemma KillPlace(s: State, d: int, p: int)
    requires Queued(s) && 0 <= d < |s.procs| && d != s.cfg.Hardware() && p in s.ready[USER_Q] && p != d
    ensures NoFurther(s.ready[USER_Q], Kill(s, d).ready[USER_Q], p)
  {
    QueuedTables(s);
    assert ReadyQueue(s, USER_Q);
    RemovedPlace(s.ready[USER_Q], d, p);
  }

  // A ready user that is not at the head never moves back, whatever happens to
  // the others, and the end of a quantum moves it up one place.
  lemma UserMovesUp(s: State, e: Entry, p: int)
    requires Sound(s) && CanEnter(s, e) && p in s.ready[USER_Q] && s.ready[USER_Q][0] != p
    requires e != Exit(s.cfg.Pid(p))
    ensures var q, q' := s.ready[USER_Q], Enter(s, e).ready[USER_Q];
      Sound(Enter(s, e)) && NoFurther(q, q', p) && (e.Quantum? ==> IndexOf(q', p) == IndexOf(q, p) - 1)
  {
    hide ReadyOk, CallersOk, NoLostWakeup, CopyMess, Send, Kill, SysCall, Pick;
    EnterKeeps(s, e);
    assert ReadyQueue(s, USER_Q) by { UsersQueue(s); }
    match e
    case Call(func, who, ptr) =>
      RunningHead(s);
      CallPlace(s, func, s.cur, who, ptr, p);
    case Hardware(task, ptr) =>
      SendPlace(s, s.cfg.Hardware(), s.cfg.Slot(task), ptr, p);
    case Repick =>
      PickSame(s);
    case Quantum =>
      QuantumTurns(s);
      RotateIndex(s.ready[USER_Q], [], p);
      QuantumQueue(s);
    case Exit(d) =>
      KillPlace(s, s.cfg.Slot(d), p);
  }

  lemma UsersQueue(s: State)
    requires Queued(s)
    ensures ReadyQueue(s, USER_Q)
  {}

  lemma PickSame(s: State)
    requires Queued(s)
    ensures ReadyInTable(s) && Pick(s).ready == s.ready
  {
    QueuedTables(s);
  }

  lemma QuantumQueue(s: State)
    requires Sized(s) && ReadyInTable(s)
    ensures SchedUsers(s).ready[USER_Q] == Rotate(s.ready[USER_Q] + [])
  {
    assert s.ready[USER_Q] + [] == s.ready[USER_Q];
  }

  function Quanta(es: seq<Entry>): nat {
    if es == [] then 0 else (if es[0].Quantum? then 1 else 0) + Quanta(es[1..])
  }

  // Over every run: a ready user at place k that does not exit is at the head
  // of its queue within k quanta.
  lemma {:induction false} UserGetsItsTurn(s: State, es: seq<Entry>, p: int)
    requires Sound(s) && p in s.ready[USER_Q] && Exit(s.cfg.Pid(p)) !in es
    requires Quanta(es) >= IndexOf(s.ready[USER_Q], p)
    ensures exists n :: 0 <= n <= |es| && AtHead(Entries(s, es[..n]), p)
    decreases |es|
  {
    if s.ready[USER_Q][0] == p {
      UsersQueue(s);
      assert Entries(s, es[..0]) == s && AtHead(s, p);
    } else if !CanEnter(s, es[0]) {
      UserGetsItsTurn(s, es[1..], p);
      var n :| 0 <= n <= |es[1..]| && AtHead(Entries(s, es[1..][..n]), p);
      EntriesFirst(s, es, n + 1);
    } else {
      var t := Enter(s, es[0]);
      assert es[0] in es;
      UserMovesUp(s, es[0], p);
      EnterConfig(s, es[0]);
      UserGetsItsTurn(t, es[1..], p);
      var n :| 0 <= n <= |es[1..]| && AtHead(Entries(t, es[1..][..n]), p);
      EntriesFirst(s, es, n + 1);
    }
  }

  ghost predicate AtHead(s: State, p: int)
    requires Sound(s)
  {
    s.ready[USER_Q] != [] && s.ready[USER_Q][0] == p && 0 <= p < |s.procs| && Runnable(s, p)
  }

  lemma EnterConfig(s: State, e: Entry)
    requires Sound(s) && CanEnter(s, e)
    ensures Enter(s, e).cfg == s.cfg
  {
    hide ReadyOk, CallersOk, NoLostWakeup, CopyMess;
    QueuedTables(s);
    if e.Call? {
      RunningHead(s);
      if Refusal(s, e.func, s.cur, e.who, e.ptr) == OK {
        CallSent(s, e.func, s.cur, e.who, e.ptr);
      }
    }
  }

  lemma EntriesFirst(s: State, es: seq<Entry>, n: nat)
    requires Sound(s) && 0 < n <= |es|
    ensures CanEnter(s, es[0]) ==>
      Sound(Enter(s, es[0])) && Entries(s, es[..n]) == Entries(Enter(s, es[0]), es[1..][..n - 1])
    ensures !CanEnter(s, es[0]) ==> Entries(s, es[..n]) == Entries(s, es[1..][..n - 1])
  {
    assert es[..n][1..] == es[1..][..n - 1];
    if CanEnter(s, es[0]) {
      EnterKeeps(s, es[0]);
    }
  }

  // ---------------------------------------------------------------------
  // Exits

  // What an exit leaves alone: all other processes, and the order of those in
  // every queue.
  lemma KillFrame(s: State, p: int)
    requires Queued(s) && 0 <= p < |s.procs| && p != s.cfg.Hardware()
    ensures var t := Kill(s, p);
      && t == s.(procs := t.procs, ready := t.ready, callers := t.callers, cur := t.cur)
      && |t.procs| == |s.procs| && (forall r :: 0 <= r < |s.procs| && r != p ==> t.procs[r] == s.procs[r])
      && |t.ready| == NQ && (forall q :: 0 <= q < NQ ==> t.ready[q] == Remove(s.ready[q], p))
      && |t.callers| == |s.callers| && (forall d :: 0 <= d < |s.callers| ==> t.callers[d] == Remove(s.callers[d], p))
  {
    QueuedTables(s);
    var t := Kill(s, p);
    forall q | 0 <= q < NQ ensures t.ready[q] == Remove(s.ready[q], p) {
      assert ReadyQueue(s, q);
    }
    forall d | 0 <= d < |s.callers| ensures t.callers[d] == Remove(s.callers[d], p) {
      assert SenderQueue(s, d);
    }
  }
}
