// Exactly-once delivery.  A packet is accepted when SEND (or a tick) returns
// OK, and delivered when it has been copied into the receiver's buffer; what
// has been accepted but not delivered is on the receiver's sender queue.

module RendezvousDelivery {
  import opened Links
  import opened Rendezvous
  import opened RendezvousInvariants
  import opened RendezvousRuns

  // src and dst are slots; body is what the receiver finds in its buffer.
  datatype Packet = Packet(src: int, dst: int, body: seq<int>)

  function To(log: seq<Packet>, d: int): (r: seq<Packet>) {
    if log == [] then [] else (if log[0].dst == d then [log[0]] else []) + To(log[1..], d)
  }

  function From(log: seq<Packet>, c: int): (r: seq<Packet>) {
    if log == [] then [] else (if log[0].src == c then [log[0]] else []) + From(log[1..], c)
  }

  // The packets of a log that went from c to d, in order.
  function Between(log: seq<Packet>, c: int, d: int): seq<Packet> {
    From(To(log, d), c)
  }

  lemma {:induction false} ToAppend(a: seq<Packet>, b: seq<Packet>, d: int)
    ensures To(a + b, d) == To(a, d) + To(b, d)
  {
    if a == [] {
      assert a + b == b;
    } else {
      assert (a + b)[1..] == a[1..] + b && (a + b)[0] == a[0];
      ToAppend(a[1..], b, d);
      var first := if a[0].dst == d then [a[0]] else [];
      assert first + (To(a[1..], d) + To(b, d)) == (first + To(a[1..], d)) + To(b, d);
    }
  }

  lemma {:induction false} FromAppend(a: seq<Packet>, b: seq<Packet>, c: int)
    ensures From(a + b, c) == From(a, c) + From(b, c)
  {
    if a == [] {
      assert a + b == b;
    } else {
      assert (a + b)[1..] == a[1..] + b && (a + b)[0] == a[0];
      FromAppend(a[1..], b, c);
      var first := if a[0].src == c then [a[0]] else [];
      assert first + (From(a[1..], c) + From(b, c)) == (first + From(a[1..], c)) + From(b, c);
    }
  }

  lemma {:induction false} FromNone(q: seq<Packet>, c: int)
    requires forall i :: 0 <= i < |q| ==> q[i].src != c
    ensures From(q, c) == []
  {
    if q != [] {
      FromNone(q[1..], c);
    }
  }

  // The message that c, queued on d, has to offer as it stands in memory.
  ghost function Offer(s: State, c: int, d: int): Packet
    requires Sized(s) && 0 <= c < |s.procs| && s.procs[c].flags.sending
  {
    Packet(c, d, Stamped(s.mem, s.cfg.Pid(c), s.procs[c].messbuf))
  }

  ghost function Waiting(s: State, d: int): (r: seq<Packet>)
    requires Sized(s) && CallersInTable(s) && 0 <= d < |s.procs|
    ensures |r| == |s.callers[d]|
  {
    seq(|s.callers[d]|, i requires 0 <= i < |s.callers[d]| => Offer(s, s.callers[d][i], d))
  }

  // ---------------------------------------------------------------------
  // What one event accepts and delivers

  ghost function TickPacket(s: State): Packet
    requires Sized(s)
  {
    var m := s.cfg.tickBuf;
    Packet(s.cfg.Hardware(), s.cfg.Slot(s.cfg.clock),
           Stamped(s.mem[m := HARDWARE][m + 1 := CLOCK_TICK], HARDWARE, m))
  }

  ghost function Accepted(s: State, e: Event): seq<Packet>
    requires Queued(s) && Legal(s, e)
  {
    match e
    case Tick =>
      if SendCode(s, s.cfg.Hardware(), s.cfg.Slot(s.cfg.clock)) == OK then [TickPacket(s)] else []
    case Trap(func, src, mptr) =>
      if func == SEND && SendCode(s, s.cur, s.cfg.Slot(src)) == OK
      then [Packet(s.cur, s.cfg.Slot(src), Stamped(s.mem, s.cfg.Pid(s.cur), mptr))] else []
    case Store(_, _) => []
  }

  // The body is read back from the receiver's buffer after the copy.
  ghost function Delivered(s: State, e: Event): seq<Packet>
    requires Good(s) && Legal(s, e)
  {
    StepKeeps(s, e);
    var t := Step(s, e);
    StepMem(s, e);
    match e
    case Tick =>
      var d := s.cfg.Slot(s.cfg.clock);
      if Awaits(s, d, s.cfg.Hardware()) then [Packet(s.cfg.Hardware(), d, Body(t.mem, s.procs[d].messbuf))] else []
    case Trap(func, src, mptr) =>
      if func == SEND then
        var d := s.cfg.Slot(src);
        if Awaits(s, d, s.cur) then [Packet(s.cur, d, Body(t.mem, s.procs[d].messbuf))] else []
      else if func == RECEIVE then
        var i := FirstFrom(s.cfg, s.callers[s.cur], src);
        if i < |s.callers[s.cur]| then [Packet(s.callers[s.cur][i], s.cur, Body(t.mem, mptr))] else []
      else []
    case Store(_, _) => []
  }

  lemma StepMem(s: State, e: Event)
    requires Good(s) && Legal(s, e)
    ensures |Step(s, e).mem| == |s.mem| && Step(s, e).cfg == s.cfg && |Step(s, e).procs| == |s.procs|
  {
    QueuedTables(s);
    match e
    case Tick => TickSent(s);
    case Trap(func, src, mptr) => OnlyData(s, Trapped(s, func, src, mptr)); QueuedTables(Trapped(s, func, src, mptr));
    case Store(_, _) =>
  }

  // ---------------------------------------------------------------------
  // Memory discipline: a process passes and stores only in words it owns.

  ghost predicate Owns(own: seq<int>, p: int, ptr: int) {
    && 0 <= ptr <= |own| - MESS_WORDS
    && forall a :: ptr <= a < ptr + MESS_WORDS ==> own[a] == p
  }

  ghost predicate OwnedMem(s: State, own: seq<int>)
    requires Sized(s)
  {
    && |own| == |s.mem|
    && Owns(own, s.cfg.Hardware(), s.cfg.tickBuf)
    && forall p :: 0 <= p < |s.procs| && (s.procs[p].flags.sending || s.procs[p].flags.receiving)
                   ==> Owns(own, p, s.procs[p].messbuf)
  }

  ghost predicate OwnEvent(s: State, own: seq<int>, e: Event)
    requires Sized(s) && |own| == |s.mem| && Legal(s, e)
  {
    match e
    case Tick => true
    case Trap(func, _, mptr) => func == SEND || func == RECEIVE ==> Owns(own, s.cur, mptr)
    case Store(addr, _) => own[addr] == s.cur
  }

  // Buffers of different owners do not overlap.
  lemma OwnersApart(own: seq<int>, p: int, a: int, q: int, b: int)
    requires Owns(own, p, a) && Owns(own, q, b)
    ensures p == q || a + MESS_WORDS <= b || b + MESS_WORDS <= a
  {
    assert a <= b < a + MESS_WORDS ==> own[b] == p;
    assert b <= a < b + MESS_WORDS ==> own[a] == q;
  }

  // Words outside p's memory are the same in both.
  ghost predicate Untouched(mem: seq<int>, mem': seq<int>, own: seq<int>, p: int) {
    && |mem| == |mem'| == |own|
    && forall a :: 0 <= a < |mem| && own[a] != p ==> mem'[a] == mem[a]
  }

  lemma CopyUntouched(mem: seq<int>, own: seq<int>, sender: int, src: int, p: int, dst: int)
    requires |mem| == |own| && IsBuffer(mem, src) && Owns(own, p, dst)
    requires src + MESS_WORDS <= dst || dst + MESS_WORDS <= src
    ensures Untouched(mem, CopyMess(mem, sender, src, dst), own, p)
    ensures Body(CopyMess(mem, sender, src, dst), dst) == Stamped(mem, sender, src)
  {
    CopyMessDelivers(mem, sender, src, dst);
  }

  // A queued message survives whatever happens to somebody else's memory.
  lemma WaitingFrame(s: State, t: State, own: seq<int>, p: int, d: int)
    requires Sized(s) && Sized(t) && t.cfg == s.cfg && |t.procs| == |s.procs| && 0 <= d < |s.procs|
    requires CallersInTable(s) && CallersInTable(t) && t.callers[d] == s.callers[d]
    requires p !in s.callers[d]
    requires OwnedMem(s, own) && Untouched(s.mem, t.mem, own, p)
    requires forall c :: c in s.callers[d] ==> t.procs[c].messbuf == s.procs[c].messbuf
    ensures Waiting(t, d) == Waiting(s, d)
  {
    forall i | 0 <= i < |s.callers[d]| ensures Waiting(t, d)[i] == Waiting(s, d)[i] {
      var c := s.callers[d][i];
      assert c in s.callers[d];
      var m := s.procs[c].messbuf;
      assert Owns(own, c, m);
      assert forall a :: m <= a < m + MESS_WORDS ==> t.mem[a] == s.mem[a];
    }
  }

  // ---------------------------------------------------------------------
  // What mini_send() and mini_rec() do to the waiting messages

  // A delivery happens in the memory of the receiver, who is on no queue.
  lemma DeliverMoves(s: State, own: seq<int>, c: int, d: int, ptr: int)
    requires Queued(s) && OneWait(s) && OwnedMem(s, own) && 0 <= d < |s.procs|
    requires Awaits(s, d, c) && c != d && Owns(own, c, ptr)
    ensures CallersInTable(s)
    ensures var t := Deliver(s, d, c, ptr);
      && CallersInTable(t) && OwnedMem(t, own)
      && (forall e :: 0 <= e < |s.procs| ==> Waiting(t, e) == Waiting(s, e))
      && Body(t.mem, s.procs[d].messbuf) == Stamped(s.mem, s.cfg.Pid(c), ptr)
  {
    QueuedTables(s);
    DeliverKeeps(s, d, c, ptr);
    var t := Deliver(s, d, c, ptr);
    QueuedTables(t);
    OwnersApart(own, c, ptr, d, s.procs[d].messbuf);
    CopyUntouched(s.mem, own, s.cfg.Pid(c), ptr, d, s.procs[d].messbuf);
    forall e | 0 <= e < |s.procs| ensures Waiting(t, e) == Waiting(s, e) {
      NotQueued(s, d, e);
      WaitingFrame(s, t, own, d, e);
    }
  }

  // mini_send() by c, with the message at ptr in c's own memory.
  lemma SendMoves(s: State, own: seq<int>, c: int, d: int, ptr: int)
    requires Queued(s) && OneWait(s) && OwnedMem(s, own) && 0 <= d < |s.procs| && 0 <= c < |s.procs|
    requires c == s.cfg.Hardware() || Runnable(s, c)
    requires Owns(own, c, ptr)
    ensures ReadyInTable(s) && CallersInTable(s)
    ensures var t := Send(s, c, d, ptr);
      var packet := Packet(c, d, Stamped(s.mem, s.cfg.Pid(c), ptr));
      && Queued(t) && CallersInTable(t) && OwnedMem(t, own)
      && (forall e :: 0 <= e < |s.procs| ==>
            Waiting(t, e) == Waiting(s, e) +
              if e == d && SendCode(s, c, d) == OK && !Awaits(s, d, c) then [packet] else [])
      && (Awaits(s, d, c) ==> Body(t.mem, s.procs[d].messbuf) == packet.body)
  {
    QueuedTables(s);
    SendKeeps(s, c, d, ptr);
    var t := Send(s, c, d, ptr);
    QueuedTables(t);
    if Awaits(s, d, c) {
      DeliverMoves(s, own, c, d, ptr);
    } else {
      forall e | 0 <= e < |s.procs| && e != d ensures Waiting(t, e) == Waiting(s, e) {
        assert SenderQueue(s, e);
        WaitingFrame(s, t, own, -1, e);
      }
    }
  }

  // A process that is not sending is on no sender queue.
  lemma NotQueued(s: State, d: int, e: int)
    requires Queued(s) && 0 <= d < |s.procs| && 0 <= e < |s.procs|
    requires !s.procs[d].flags.sending
    ensures d !in s.callers[e]
  {
    assert SenderQueue(s, e);
  }

  function Without(q: seq<Packet>, i: nat): seq<Packet>
    requires i < |q|
  {
    q[..i] + q[i + 1..]
  }

  // mini_rec() by the running process c into its own buffer at ptr.
  lemma ReceiveMoves(s: State, own: seq<int>, c: int, src: int, ptr: int)
    requires Queued(s) && OneWait(s) && OwnedMem(s, own) && 0 <= c < |s.procs|
    requires Runnable(s, c) && Owns(own, c, ptr)
    ensures ReadyInTable(s) && CallersInTable(s)
    ensures var t := Receive(s, c, src, ptr);
      var i := FirstFrom(s.cfg, s.callers[c], src);
      && Queued(t) && CallersInTable(t) && OwnedMem(t, own)
      && (forall e :: 0 <= e < |s.procs| && e != c ==> Waiting(t, e) == Waiting(s, e))
      && if i < |s.callers[c]|
         then Body(t.mem, ptr) == Waiting(s, c)[i].body && Waiting(t, c) == Without(Waiting(s, c), i)
         else Waiting(t, c) == Waiting(s, c)
  {
    QueuedTables(s);
    ReceiveKeeps(s, c, src, ptr);
    var t := Receive(s, c, src, ptr);
    QueuedTables(t);
    var i := FirstFrom(s.cfg, s.callers[c], src);
    if i < |s.callers[c]| {
      var p := s.callers[c][i];
      assert SenderQueue(s, c) && p in s.callers[c];
      OwnersApart(own, p, s.procs[p].messbuf, c, ptr);
      CopyUntouched(s.mem, own, s.cfg.Pid(p), s.procs[p].messbuf, c, ptr);
      forall e | 0 <= e < |s.procs| && e != c ensures Waiting(t, e) == Waiting(s, e) {
        NotQueued(s, c, e);
        WaitingFrame(s, t, own, c, e);
      }
      NotQueued(s, c, c);
      TakeWaiting(s, t, own, c, i);
    } else {
      forall e | 0 <= e < |s.procs| ensures Waiting(t, e) == Waiting(s, e) {
        NotQueued(s, c, e);
        WaitingFrame(s, t, own, -1, e);
      }
    }
  }

  lemma TakeWaiting(s: State, t: State, own: seq<int>, c: int, i: nat)
    requires Sized(s) && Sized(t) && t.cfg == s.cfg && |t.procs| == |s.procs| && 0 <= c < |s.procs|
    requires CallersInTable(s) && CallersInTable(t) && i < |s.callers[c]|
    requires t.callers[c] == RemoveAt(s.callers[c], i) && c !in s.callers[c]
    requires OwnedMem(s, own) && Untouched(s.mem, t.mem, own, c)
    requires forall x :: 0 <= x < |s.procs| && s.procs[x].flags.sending ==> t.procs[x].messbuf == s.procs[x].messbuf
    ensures Waiting(t, c) == Without(Waiting(s, c), i)
  {
    forall k | 0 <= k < |t.callers[c]| ensures Waiting(t, c)[k] == Without(Waiting(s, c), i)[k] {
      var j := if k < i then k else k + 1;
      var x := s.callers[c][j];
      assert t.callers[c][k] == x && x in s.callers[c];
      var m := s.procs[x].messbuf;
      assert Owns(own, x, m);
      assert forall a :: m <= a < m + MESS_WORDS ==> t.mem[a] == s.mem[a];
    }
  }
}
