// What every kernel entry keeps: who is on which queue, and that nobody
// sleeps while a message he would accept is already queued for him.

module RendezvousInvariants {
  import opened Links
  import opened Rendezvous

  ghost predicate ReadyQueue(s: State, q: int)
    requires Sized(s) && 0 <= q < NQ
  {
    && NoDup(s.ready[q])
    && forall r :: r in s.ready[q] <==> 0 <= r < |s.procs| && s.cfg.QueueOf(r) == q && Runnable(s, r)
  }

  // A process is on exactly one ready queue, once, iff none of its flags is set.
  ghost predicate ReadyOk(s: State)
    requires Sized(s)
  {
    forall q :: 0 <= q < NQ ==> ReadyQueue(s, q)
  }

  ghost predicate SenderQueue(s: State, d: int)
    requires Sized(s) && 0 <= d < |s.procs|
  {
    && NoDup(s.callers[d])
    && forall c :: c in s.callers[d] <==> 0 <= c < |s.procs| && s.procs[c].flags.sending && s.sendto[c] == d
  }

  // A process is on exactly one sender queue, once, iff it is SENDING.
  ghost predicate CallersOk(s: State)
    requires Sized(s)
  {
    && (forall d :: 0 <= d < |s.procs| ==> SenderQueue(s, d))
    && (forall c :: 0 <= c < |s.procs| && s.procs[c].flags.sending ==> 0 <= s.sendto[c] < |s.procs|)
  }

  // A free slot is not blocked, and the slot of HARDWARE is always free.
  ghost predicate FreeOk(s: State)
    requires Sized(s)
  {
    && s.procs[s.cfg.Hardware()].flags.free
    && forall p :: 0 <= p < |s.procs| && s.procs[p].flags.free ==>
         !s.procs[p].flags.sending && !s.procs[p].flags.receiving
  }

  // A process blocked receiving from ANY has nobody queued; one blocked on a
  // given source does not have that source queued.
  ghost predicate NoLostWakeup(s: State)
    requires Sized(s)
  {
    forall p, c :: 0 <= p < |s.procs| && s.procs[p].flags.receiving && c in s.callers[p] ==> !Awaits(s, p, c)
  }

  // proc_ptr is the head of its ready queue or the idle slot.
  ghost predicate CurHead(s: State)
    requires Sized(s)
  {
    || s.cur == s.cfg.Hardware()
    || (s.ready[s.cfg.QueueOf(s.cur)] != [] && s.ready[s.cfg.QueueOf(s.cur)][0] == s.cur)
  }

  // ... and the machine is idle only when no process can run.
  ghost predicate CurOk(s: State)
    requires Sized(s)
  {
    && CurHead(s)
    && (s.cur == s.cfg.Hardware() <==> s.ready[TASK_Q] == s.ready[SERVER_Q] == s.ready[USER_Q] == [])
  }

  ghost predicate Queued(s: State) {
    Sized(s) && ReadyOk(s) && CallersOk(s) && FreeOk(s) && NoLostWakeup(s)
  }

  lemma QueuedTables(s: State)
    requires Sized(s) && ReadyOk(s) && CallersOk(s)
    ensures ReadyInTable(s) && CallersInTable(s)
  {
    forall q | 0 <= q < NQ ensures InTable(s.ready[q], |s.procs|) {
      assert ReadyQueue(s, q);
      forall i | 0 <= i < |s.ready[q]| ensures 0 <= s.ready[q][i] < |s.procs| {
        assert s.ready[q][i] in s.ready[q];
      }
    }
    forall d | 0 <= d < |s.procs|
      ensures InTable(s.callers[d], |s.procs|)
      ensures forall i :: 0 <= i < |s.callers[d]| ==> s.procs[s.callers[d][i]].flags.sending
    {
      assert SenderQueue(s, d);
      forall i | 0 <= i < |s.callers[d]|
        ensures 0 <= s.callers[d][i] < |s.procs| && s.procs[s.callers[d][i]].flags.sending
      {
        assert s.callers[d][i] in s.callers[d];
      }
    }
  }

  // Lists of callers that stay as they are, while processes may stop receiving.
  lemma BlockedFrame(s: State, t: State)
    requires Sized(s) && Sized(t) && CallersOk(s) && NoLostWakeup(s)
    requires t.cfg == s.cfg && t.callers == s.callers && t.sendto == s.sendto
    requires forall p :: 0 <= p < |s.procs| ==> t.procs[p].flags.sending == s.procs[p].flags.sending
    requires forall p :: 0 <= p < |s.procs| && t.procs[p].flags.receiving ==>
               s.procs[p].flags.receiving && t.procs[p].getfrom == s.procs[p].getfrom
    ensures CallersOk(t) && NoLostWakeup(t)
  {
    forall d | 0 <= d < |t.procs| ensures SenderQueue(t, d) {
      assert SenderQueue(s, d);
    }
    forall p, c | 0 <= p < |t.procs| && t.procs[p].flags.receiving && c in t.callers[p]
      ensures !Awaits(t, p, c)
    {
      assert !Awaits(s, p, c);
    }
  }

  // A process that just lost its last flag goes to the back of its queue.
  lemma ReadyKeeps(s: State, t: State, r: int)
    requires Sized(s) && ReadyOk(s) && Sized(t) && t.cfg == s.cfg && 0 <= r < |s.procs|
    requires !Runnable(s, r) && Runnable(t, r)
    requires forall p :: 0 <= p < |s.procs| && p != r ==> Runnable(t, p) == Runnable(s, p)
    requires t.ready == s.ready
    ensures ReadyOk(Ready(t, r))
  {
    var u := Ready(t, r);
    forall q | 0 <= q < NQ ensures ReadyQueue(u, q) {
      assert ReadyQueue(s, q);
      if q == s.cfg.QueueOf(r) {
        NoDupAppend(s.ready[q], r);
      }
      forall x ensures x in u.ready[q] <==> 0 <= x < |u.procs| && u.cfg.QueueOf(x) == q && Runnable(u, x) {
        assert 0 <= x < |u.procs| ==> Runnable(u, x) == Runnable(t, x);
      }
    }
  }

  // A process that just set a flag leaves its ready queue.
  lemma UnreadyKeeps(s: State, t: State, r: int)
    requires Sized(s) && ReadyOk(s) && Sized(t) && t.cfg == s.cfg && 0 <= r < |s.procs|
    requires !Runnable(t, r)
    requires forall p :: 0 <= p < |s.procs| && p != r ==> Runnable(t, p) == Runnable(s, p)
    requires t.ready == s.ready && ReadyInTable(t)
    ensures ReadyOk(Unready(t, r))
  {
    var u := Unready(t, r);
    forall q | 0 <= q < NQ ensures ReadyQueue(u, q) {
      assert ReadyQueue(s, q);
      RemoveMembers(s.ready[q], r);
      assert q != s.cfg.QueueOf(r) ==> r !in s.ready[q];
      forall x ensures x in u.ready[q] <==> 0 <= x < |u.procs| && u.cfg.QueueOf(x) == q && Runnable(u, x) {
        assert 0 <= x < |u.procs| ==> Runnable(u, x) == Runnable(t, x);
      }
    }
  }

  lemma DeliverKeeps(s: State, d: int, c: int, ptr: int)
    requires Queued(s) && 0 <= d < |s.procs| && Awaits(s, d, c) && IsBuffer(s.mem, ptr)
    ensures Queued(Deliver(s, d, c, ptr))
  {
    var flags := s.procs[d].flags.(receiving := false);
    var t := s.(mem := CopyMess(s.mem, s.cfg.Pid(c), ptr, s.procs[d].messbuf),
                procs := s.procs[d := s.procs[d].(flags := flags)]);
    if flags.None() {
      ReadyKeeps(s, t, d);
    } else {
      assert ReadyOk(t) by {
        forall q | 0 <= q < NQ ensures ReadyQueue(t, q) {
          assert ReadyQueue(s, q);
          assert forall x :: 0 <= x < |s.procs| ==> Runnable(t, x) == Runnable(s, x);
        }
      }
    }
    BlockedFrame(s, Deliver(s, d, c, ptr));
  }

  lemma EnqueueCallers(s: State, u: State, d: int, c: int)
    requires Sized(s) && Sized(u) && CallersOk(s) && NoLostWakeup(s) && u.cfg == s.cfg
    requires 0 <= d < |s.procs| && 0 <= c < |s.procs| && !Awaits(s, d, c)
    requires !s.procs[c].flags.sending
    requires u.callers == s.callers[d := s.callers[d] + [c]] && u.sendto == s.sendto[c := d]
    requires forall p :: 0 <= p < |s.procs| ==>
      && u.procs[p].flags.sending == (s.procs[p].flags.sending || p == c)
      && u.procs[p].flags.receiving == s.procs[p].flags.receiving && u.procs[p].getfrom == s.procs[p].getfrom
    ensures CallersOk(u) && NoLostWakeup(u)
  {
    forall e | 0 <= e < |u.procs| ensures SenderQueue(u, e) {
      assert SenderQueue(s, e);
      assert c !in s.callers[e];
      if e == d {
        NoDupAppend(s.callers[d], c);
      }
    }
    forall p, x | 0 <= p < |s.procs| && u.procs[p].flags.receiving && x in u.callers[p]
      ensures !Awaits(u, p, x)
    {
      if p == d && x == c {
        assert Awaits(u, p, x) == Awaits(s, d, c);
      } else {
        assert x in s.callers[p];
        assert !Awaits(s, p, x);
      }
    }
  }

  lemma EnqueueKeeps(s: State, d: int, c: int, ptr: int)
    requires Queued(s) && 0 <= d < |s.procs| && 0 <= c < |s.procs| && IsBuffer(s.mem, ptr)
    requires Runnable(s, c) && !Awaits(s, d, c)
    ensures ReadyInTable(s)
    ensures Queued(Enqueue(s, d, c, ptr))
  {
    QueuedTables(s);
    var p := s.procs[c].(messbuf := ptr, flags := s.procs[c].flags.(sending := true));
    var t := s.(procs := s.procs[c := p]);
    UnreadyKeeps(s, t, c);
    var v := Unready(t, c);
    var u := Enqueue(s, d, c, ptr);
    assert ReadyOk(u) by {
      forall q | 0 <= q < NQ ensures ReadyQueue(u, q) {
        assert ReadyQueue(v, q);
        assert forall x :: 0 <= x < |s.procs| ==> Runnable(u, x) == Runnable(v, x);
      }
    }
    EnqueueCallers(s, u, d, c);
  }

  // mini_send(), for a running process or an interrupt.
  lemma SendKeeps(s: State, c: int, d: int, ptr: int)
    requires Queued(s) && 0 <= c < |s.procs| && 0 <= d < |s.procs| && IsBuffer(s.mem, ptr)
    requires c == s.cfg.Hardware() || Runnable(s, c)
    ensures ReadyInTable(s)
    ensures Queued(Send(s, c, d, ptr))
  {
    QueuedTables(s);
    if s.procs[d].flags.free {
    } else if Awaits(s, d, c) {
      DeliverKeeps(s, d, c, ptr);
    } else if c != s.cfg.Hardware() {
      EnqueueKeeps(s, d, c, ptr);
    }
  }

  lemma TakeCallers(s: State, t: State, c: int, i: nat)
    requires Sized(s) && CallersOk(s) && NoLostWakeup(s)
    requires Sized(t) && t.cfg == s.cfg && 0 <= c < |s.procs| && i < |s.callers[c]|
    requires t.callers == s.callers[c := RemoveAt(s.callers[c], i)] && t.sendto == s.sendto
    requires forall x :: 0 <= x < |s.procs| ==>
      && t.procs[x].flags.sending == (s.procs[x].flags.sending && x != s.callers[c][i])
      && t.procs[x].flags.receiving == s.procs[x].flags.receiving && t.procs[x].getfrom == s.procs[x].getfrom
    ensures CallersOk(t) && NoLostWakeup(t)
  {
    var p := s.callers[c][i];
    assert p in s.callers[c] && SenderQueue(s, c);
    RemoveAtMembers(s.callers[c], i);
    forall e | 0 <= e < |t.procs| ensures SenderQueue(t, e) {
      assert SenderQueue(s, e);
    }
    forall q, x | 0 <= q < |s.procs| && t.procs[q].flags.receiving && x in t.callers[q]
      ensures !Awaits(t, q, x)
    {
      assert x in s.callers[q];
      assert !Awaits(s, q, x);
    }
  }

  lemma TakeKeeps(s: State, c: int, i: nat, ptr: int)
    requires Queued(s) && 0 <= c < |s.procs| && i < |s.callers[c]| && IsBuffer(s.mem, ptr)
    ensures CallersInTable(s)
    ensures Queued(Take(s, c, i, ptr))
  {
    QueuedTables(s);
    var p := s.callers[c][i];
    assert p in s.callers[c] && SenderQueue(s, c);
    var flags := s.procs[p].flags.(sending := false);
    var t := s.(mem := CopyMess(s.mem, s.cfg.Pid(p), s.procs[p].messbuf, ptr),
                procs := s.procs[p := s.procs[p].(flags := flags)]);
    var v := if flags.None() then Ready(t, p) else t;
    var u := Take(s, c, i, ptr);
    if flags.None() {
      ReadyKeeps(s, t, p);
    } else {
      assert ReadyOk(v) by {
        forall q | 0 <= q < NQ ensures ReadyQueue(v, q) {
          assert ReadyQueue(s, q);
          assert forall x :: 0 <= x < |s.procs| ==> Runnable(v, x) == Runnable(s, x);
        }
      }
    }
    assert ReadyOk(u) by {
      forall q | 0 <= q < NQ ensures ReadyQueue(u, q) {
        assert ReadyQueue(v, q);
        assert forall x :: 0 <= x < |s.procs| ==> Runnable(u, x) == Runnable(v, x);
      }
    }
    TakeCallers(s, u, c, i);
  }

  lemma AwaitKeeps(s: State, c: int, src: int, ptr: int)
    requires Queued(s) && 0 <= c < |s.procs| && IsBuffer(s.mem, ptr)
    requires !s.procs[c].flags.free
    requires FirstFrom(s.cfg, s.callers[c], src) == |s.callers[c]|
    ensures ReadyInTable(s)
    ensures Queued(Await(s, c, src, ptr))
  {
    QueuedTables(s);
    var p := Proc(s.procs[c].flags.(receiving := true), src, ptr);
    var t := s.(procs := s.procs[c := p]);
    UnreadyKeeps(s, t, c);
    var u := Await(s, c, src, ptr);
    forall d | 0 <= d < |u.procs| ensures SenderQueue(u, d) {
      assert SenderQueue(s, d);
    }
    forall q, x | 0 <= q < |s.procs| && u.procs[q].flags.receiving && x in u.callers[q]
      ensures !Awaits(u, q, x)
    {
      if q == c {
        var k :| 0 <= k < |s.callers[c]| && s.callers[c][k] == x;
      } else {
        assert !Awaits(s, q, x);
      }
    }
  }

  // mini_rec(), for a process that is running or has just blocked sending.
  lemma ReceiveKeeps(s: State, c: int, src: int, ptr: int)
    requires Queued(s) && 0 <= c < |s.procs| && IsBuffer(s.mem, ptr)
    requires !s.procs[c].flags.free
    ensures ReadyInTable(s) && CallersInTable(s)
    ensures Queued(Receive(s, c, src, ptr))
  {
    QueuedTables(s);
    var i := FirstFrom(s.cfg, s.callers[c], src);
    if i < |s.callers[c]| {
      TakeKeeps(s, c, i, ptr);
    } else {
      AwaitKeeps(s, c, src, ptr);
    }
  }

  // pick_proc() always leaves proc_ptr right.
  lemma PickKeeps(s: State)
    requires Queued(s)
    ensures ReadyInTable(s)
    ensures Queued(Pick(s)) && CurOk(Pick(s))
  {
    QueuedTables(s);
    var t := Pick(s);
    forall q | 0 <= q < NQ && s.ready[q] != []
      ensures s.cfg.QueueOf(s.ready[q][0]) == q && s.ready[q][0] != s.cfg.Hardware()
    {
      assert ReadyQueue(s, q);
      assert s.ready[q][0] in s.ready[q];
    }
    forall q | 0 <= q < NQ ensures ReadyQueue(t, q) {
      assert ReadyQueue(s, q);
      assert forall x :: 0 <= x < |s.procs| ==> Runnable(t, x) == Runnable(s, x);
    }
    BlockedFrame(s, t);
  }

  lemma RotateMembers(q: seq<int>)
    requires NoDup(q)
    ensures NoDup(Rotate(q))
    ensures forall x :: x in Rotate(q) <==> x in q
  {
    if |q| > 1 {
      assert q == [q[0]] + q[1..];
    }
  }

  lemma SchedKeeps(s: State)
    requires Queued(s)
    ensures ReadyInTable(s)
    ensures Queued(Sched(s)) && CurOk(Sched(s))
  {
    QueuedTables(s);
    var t := s.(ready := s.ready[TASK_Q := Rotate(s.ready[TASK_Q])]);
    assert ReadyQueue(s, TASK_Q);
    RotateMembers(s.ready[TASK_Q]);
    forall q | 0 <= q < NQ ensures ReadyQueue(t, q) {
      assert ReadyQueue(s, q);
      assert forall x :: 0 <= x < |s.procs| ==> Runnable(t, x) == Runnable(s, x);
    }
    BlockedFrame(s, t);
    PickKeeps(t);
  }
}
