// The rendezvous kernel as a state machine over queues of slot numbers.
// Message passing copies eight words between buffers in one shared bank of
// memory; a process blocks by trapping, and the clock interrupt wakes the
// clock task and rotates the task queue.

module Rendezvous {
  import opened Links

  // Function codes, as found in the A register of a trapping process.
  const SEND := 1
  const RECEIVE := 2
  const BOTH := 3

  // Process numbers that name no ordinary process.
  const HARDWARE := -1
  const CLOCK_TICK := 2

  const OK := 0
  const MESS_WORDS := 8

  // Ready queues, highest priority first.
  const NQ := 3
  const TASK_Q := 0
  const SERVER_Q := 1
  const USER_Q := 2
  const SCHED_RATE := 6

  // Table sizes and the values that differ between the port and the original:
  // the lowest number scheduled as a user, the clock task, where the kernel
  // keeps its tick message, and the error codes.
  datatype Config = Config(tasks: nat, procs: nat, low: nat, clock: int, tickBuf: nat,
                           eOverrun: int, eBadDest: int)
  {
    predicate Valid() {
      && 1 < tasks && 0 <= Slot(clock) < Hardware()
      && eOverrun != OK && eBadDest != OK && eOverrun != eBadDest
    }

    function Slots(): nat {
      tasks + procs
    }

    function Any(): int {
      procs + 100
    }

    function Slot(pid: int): int {
      tasks + pid
    }

    function Pid(slot: int): int {
      slot - tasks
    }

    // The slot that stands for interrupts and, when nothing can run, for the
    // idle machine.
    function Hardware(): int {
      Slot(HARDWARE)
    }

    function QueueOf(slot: int): (q: int)
      ensures 0 <= q < NQ
    {
      if Pid(slot) < 0 then TASK_Q else if Pid(slot) < low then SERVER_Q else USER_Q
    }
  }

  // The port: proc.h fixes four tasks, eight processes, and E_OVERRUN and
  // E_BAD_DEST; every process number is below NR_PROCS, so USER_Q stays empty.
  function Port(tickBuf: nat): (cfg: Config) {
    Config(4, 8, 8, -4, tickBuf, 4, 5)
  }

  datatype Flags = Flags(free: bool, sending: bool, receiving: bool) {
    predicate None() {
      !free && !sending && !receiving
    }
  }

  datatype Proc = Proc(flags: Flags, getfrom: int, messbuf: int)

  // The registers of a trapped process that the kernel looks at.
  datatype Frame = Frame(a: int, x: int, y: int)

  // ready: the three ready queues.  callers: for each slot, the processes
  // blocked sending to it.  cur: the slot proc_ptr points at.  sendto names
  // the process a blocked sender waits for; the kernel itself keeps that only
  // as the queue the sender is on.
  datatype State = State(cfg: Config, procs: seq<Proc>, ready: seq<seq<int>>, callers: seq<seq<int>>,
                         sendto: seq<int>, mem: seq<int>, frames: seq<Frame>, cur: int, ticks: int)

  predicate IsBuffer(mem: seq<int>, ptr: int) {
    0 <= ptr <= |mem| - MESS_WORDS
  }

  ghost predicate Sized(s: State) {
    && s.cfg.Valid()
    && |s.procs| == |s.callers| == |s.sendto| == |s.frames| == s.cfg.Slots()
    && |s.ready| == NQ
    && 0 <= s.cur < |s.procs|
    && IsBuffer(s.mem, s.cfg.tickBuf)
    && forall p :: 0 <= p < |s.procs| && (s.procs[p].flags.sending || s.procs[p].flags.receiving)
                   ==> IsBuffer(s.mem, s.procs[p].messbuf)
  }

  predicate Runnable(s: State, p: int)
    requires 0 <= p < |s.procs|
  {
    s.procs[p].flags.None()
  }

  // ---------------------------------------------------------------------
  // Scheduling

  ghost predicate ReadyInTable(s: State)
    requires |s.ready| == NQ
  {
    forall q :: 0 <= q < NQ ==> InTable(s.ready[q], |s.procs|)
  }

  ghost function Pick(s: State): (t: State)
    requires Sized(s) && ReadyInTable(s)
    ensures Sized(t)
  {
    var q := if s.ready[TASK_Q] != [] then TASK_Q
             else if s.ready[SERVER_Q] != [] then SERVER_Q else USER_Q;
    s.(cur := if s.ready[q] != [] then s.ready[q][0] else s.cfg.Hardware())
  }

  ghost function Ready(s: State, r: int): (t: State)
    requires Sized(s)
    ensures Sized(t)
  {
    var q := s.cfg.QueueOf(r);
    s.(ready := s.ready[q := s.ready[q] + [r]])
  }

  ghost function Unready(s: State, r: int): (t: State)
    requires Sized(s) && ReadyInTable(s)
    ensures Sized(t)
  {
    var q := s.cfg.QueueOf(r);
    var t := s.(ready := s.ready[q := Remove(s.ready[q], r)]);
    if s.ready[q] != [] && s.ready[q][0] == r then Pick(t) else t
  }

  function Rotate(q: seq<int>): (r: seq<int>) {
    if |q| > 1 then q[1..] + [q[0]] else q
  }

  // The port's sched(): one of the tasks has run for SCHED_RATE ticks.
  ghost function Sched(s: State): (t: State)
    requires Sized(s) && ReadyInTable(s)
    ensures Sized(t)
  {
    Pick(s.(ready := s.ready[TASK_Q := Rotate(s.ready[TASK_Q])]))
  }

  // ---------------------------------------------------------------------
  // Messages

  function CopyWords(mem: seq<int>, src: int, dst: int, i: nat): (r: seq<int>)
    requires IsBuffer(mem, src) && IsBuffer(mem, dst) && i <= MESS_WORDS
    ensures |r| == |mem|
    decreases MESS_WORDS - i
  {
    if i == MESS_WORDS then mem else CopyWords(mem[dst + i := mem[src + i]], src, dst, i + 1)
  }

  // cp_mess_from(): the first word becomes the sender's number, the other
  // seven are copied in increasing order.
  function CopyMess(mem: seq<int>, sender: int, src: int, dst: int): (r: seq<int>)
    requires IsBuffer(mem, src) && IsBuffer(mem, dst)
    ensures |r| == |mem|
  {
    CopyWords(mem[dst := sender], src, dst, 1)
  }

  function Body(mem: seq<int>, ptr: int): (r: seq<int>)
    requires IsBuffer(mem, ptr)
    ensures |r| == MESS_WORDS
  {
    mem[ptr..ptr + MESS_WORDS]
  }

  // What a message in the buffer at ptr looks like once sent by that process.
  function Stamped(mem: seq<int>, sender: int, ptr: int): (r: seq<int>)
    requires IsBuffer(mem, ptr)
    ensures |r| == MESS_WORDS
  {
    [sender] + mem[ptr + 1..ptr + MESS_WORDS]
  }

  lemma {:induction false} CopyWordsFrame(mem: seq<int>, src: int, dst: int, i: nat, a: int)
    requires IsBuffer(mem, src) && IsBuffer(mem, dst) && i <= MESS_WORDS
    requires 0 <= a < |mem| && !(dst + i <= a < dst + MESS_WORDS)
    ensures CopyWords(mem, src, dst, i)[a] == mem[a]
    decreases MESS_WORDS - i
  {
    if i < MESS_WORDS {
      CopyWordsFrame(mem[dst + i := mem[src + i]], src, dst, i + 1, a);
    }
  }

  // Each word copied is the word then in its place in the source: the word that
  // was there, or the one the loop has put there.
  lemma {:induction false} CopyWordsAt(mem: seq<int>, src: int, dst: int, i: nat, j: nat)
    requires IsBuffer(mem, src) && IsBuffer(mem, dst) && i <= j < MESS_WORDS
    ensures CopyWords(mem, src, dst, i)[dst + j] ==
            if dst + i <= src + j < dst + j then CopyWords(mem, src, dst, i)[src + j] else mem[src + j]
    decreases MESS_WORDS - i
  {
    var mem' := mem[dst + i := mem[src + i]];
    if i == j {
      CopyWordsFrame(mem', src, dst, i + 1, dst + i);
    } else {
      CopyWordsAt(mem', src, dst, i + 1, j);
      if src + j == dst + i {
        CopyWordsFrame(mem', src, dst, i + 1, dst + i);
      }
    }
  }

  // What cp_mess_from() leaves, for any two buffers: the number of the sender,
  // then the words of the source, or, when the destination begins n words into
  // the source, the first n words of the new message over and over.
  lemma {:induction false} CopyMessAt(mem: seq<int>, sender: int, src: int, dst: int, j: nat)
    requires IsBuffer(mem, src) && IsBuffer(mem, dst) && j < MESS_WORDS
    ensures CopyMess(mem, sender, src, dst)[dst + j] ==
            if j == 0 then sender
            else if src < dst <= src + j then
              (if j % (dst - src) == 0 then sender else mem[src + j % (dst - src)])
            else mem[src + j]
    decreases j
  {
    var mem0 := mem[dst := sender];
    if j == 0 {
      CopyWordsFrame(mem0, src, dst, 1, dst);
    } else {
      CopyWordsAt(mem0, src, dst, 1, j);
      if src < dst <= src + j {
        var n := dst - src;
        CopyMessAt(mem, sender, src, dst, j - n);
        WrapsOnce(j, n);
        assert src + j == dst + (j - n);
      }
    }
  }

  lemma Multiple(k: int, n: nat)
    ensures k > 0 ==> k * n >= n
    ensures k < 0 ==> k * n + n <= 0
  {
    if k > 0 {
      assert (k - 1) * n >= 0;
    } else if k < 0 {
      assert (-k - 1) * n >= 0;
    }
  }

  lemma Remainder(a: int, n: int, q: int, r: int)
    requires 0 <= r < n && a == q * n + r
    ensures a % n == r
  {
    var p := a / n;
    assert (p - q) * n == r - a % n by {
      assert a == p * n + a % n;
    }
    Multiple(p - q, n);
  }

  lemma WrapsOnce(j: int, n: int)
    requires 0 < n <= j
    ensures (j - n) % n == j % n && (j < 2 * n ==> j % n == j - n)
  {
    var p, r := (j - n) / n, (j - n) % n;
    assert j - n == p * n + r;
    assert (p + 1) * n == p * n + n;
    Remainder(j, n, p + 1, r);
    if j < 2 * n {
      Remainder(j, n, 1, j - n);
    }
  }

  // The message is the same when it is moved on by n words.
  predicate Repeats(m: seq<int>, n: nat) {
    forall j :: n <= j < |m| ==> m[j] == m[j - n]
  }

  // The copy touches no word outside the destination, and it delivers the
  // stamped message exactly when the destination does not begin inside the
  // source, or the message repeats itself from there.
  lemma CopyMessDelivers(mem: seq<int>, sender: int, src: int, dst: int)
    requires IsBuffer(mem, src) && IsBuffer(mem, dst)
    ensures Body(CopyMess(mem, sender, src, dst), dst) == Stamped(mem, sender, src) <==>
            (src < dst < src + MESS_WORDS ==> Repeats(Stamped(mem, sender, src), dst - src))
    ensures forall a :: 0 <= a < |mem| && !(dst <= a < dst + MESS_WORDS) ==>
              CopyMess(mem, sender, src, dst)[a] == mem[a]
  {
    forall a | 0 <= a < |mem| && !(dst <= a < dst + MESS_WORDS)
      ensures CopyMess(mem, sender, src, dst)[a] == mem[a]
    {
      CopyWordsFrame(mem[dst := sender], src, dst, 1, a);
    }
    BodyIs(mem, sender, src, dst);
    if src < dst < src + MESS_WORDS {
      RepeatsIff(Body(CopyMess(mem, sender, src, dst), dst), Stamped(mem, sender, src), dst - src);
    }
  }

  // The first n words are right, and the rest repeat them.
  lemma BodyIs(mem: seq<int>, sender: int, src: int, dst: int)
    requires IsBuffer(mem, src) && IsBuffer(mem, dst)
    ensures var body, want := Body(CopyMess(mem, sender, src, dst), dst), Stamped(mem, sender, src);
      if src < dst < src + MESS_WORDS then Starts(body, want, dst - src) && Repeats(body, dst - src) else body == want
  {
    var body, want := Body(CopyMess(mem, sender, src, dst), dst), Stamped(mem, sender, src);
    forall j | 0 <= j < MESS_WORDS ensures body[j] == if src < dst <= src + j then body[j - (dst - src)] else want[j] {
      BodyAt(mem, sender, src, dst, j);
    }
  }

  lemma RepeatsIff(body: seq<int>, want: seq<int>, n: nat)
    requires 0 < n && |body| == |want| && Starts(body, want, n) && Repeats(body, n)
    ensures body == want <==> Repeats(want, n)
  {
    if Repeats(want, n) {
      forall j | 0 <= j < |body| ensures body[j] == want[j] {
        SameWords(body, want, n, j);
      }
    }
  }

  lemma BodyAt(mem: seq<int>, sender: int, src: int, dst: int, j: nat)
    requires IsBuffer(mem, src) && IsBuffer(mem, dst) && j < MESS_WORDS
    ensures var body := Body(CopyMess(mem, sender, src, dst), dst);
      body[j] == if src < dst <= src + j then body[j - (dst - src)] else Stamped(mem, sender, src)[j]
  {
    CopyMessAt(mem, sender, src, dst, j);
    if src < dst <= src + j {
      CopyMessAt(mem, sender, src, dst, j - (dst - src));
      WrapsOnce(j, dst - src);
    }
  }

  lemma {:induction false} SameWords(body: seq<int>, want: seq<int>, n: nat, j: nat)
    requires 0 < n && j < |body| == |want| && Repeats(want, n)
    requires Starts(body, want, n) && Repeats(body, n)
    ensures body[j] == want[j]
  {
    if n <= j {
      SameWords(body, want, n, j - n);
      assert body[j] == body[j - n] && want[j] == want[j - n];
    }
  }

  predicate Starts(body: seq<int>, want: seq<int>, n: nat)
    requires |body| == |want|
  {
    forall j :: 0 <= j < |body| && j < n ==> body[j] == want[j]
  }

  // Nine words and a message that moves on by one: it arrives changed.
  lemma CopyMessChanges()
    ensures var mem := [0, 1, 2, 3, 4, 5, 6, 7, 8];
      Body(CopyMess(mem, 9, 0, 1), 1) != Stamped(mem, 9, 0)
  {
    var mem := [0, 1, 2, 3, 4, 5, 6, 7, 8];
    CopyMessDelivers(mem, 9, 0, 1);
    assert Stamped(mem, 9, 0)[1] != Stamped(mem, 9, 0)[0];
  }

  // ---------------------------------------------------------------------
  // Rendezvous

  // Is d blocked waiting for a message that the process in slot c may send?
  predicate Awaits(s: State, d: int, c: int)
    requires 0 <= d < |s.procs|
  {
    && s.procs[d].flags.receiving
    && (s.procs[d].getfrom == s.cfg.Any() || s.procs[d].getfrom == s.cfg.Pid(c))
  }

  function SendCode(s: State, c: int, d: int): (n: int)
    requires 0 <= d < |s.procs|
  {
    if s.procs[d].flags.free then s.cfg.eBadDest
    else if Awaits(s, d, c) then OK
    else if c == s.cfg.Hardware() then s.cfg.eOverrun
    else OK
  }

  ghost function Deliver(s: State, d: int, c: int, ptr: int): (t: State)
    requires Sized(s) && 0 <= d < |s.procs| && s.procs[d].flags.receiving && IsBuffer(s.mem, ptr)
    ensures Sized(t)
  {
    var flags := s.procs[d].flags.(receiving := false);
    var t := s.(mem := CopyMess(s.mem, s.cfg.Pid(c), ptr, s.procs[d].messbuf),
                procs := s.procs[d := s.procs[d].(flags := flags)]);
    if flags.None() then Ready(t, d) else t
  }

  ghost function Enqueue(s: State, d: int, c: int, ptr: int): (t: State)
    requires Sized(s) && ReadyInTable(s)
    requires 0 <= d < |s.procs| && 0 <= c < |s.procs| && IsBuffer(s.mem, ptr)
    ensures Sized(t)
  {
    var p := s.procs[c].(messbuf := ptr, flags := s.procs[c].flags.(sending := true));
    var t := Unready(s.(procs := s.procs[c := p]), c);
    t.(callers := t.callers[d := t.callers[d] + [c]], sendto := t.sendto[c := d])
  }

  ghost function Send(s: State, c: int, d: int, ptr: int): (t: State)
    requires Sized(s) && ReadyInTable(s)
    requires 0 <= d < |s.procs| && 0 <= c < |s.procs| && IsBuffer(s.mem, ptr)
    ensures Sized(t)
  {
    if s.procs[d].flags.free then s
    else if Awaits(s, d, c) then Deliver(s, d, c, ptr)
    else if c == s.cfg.Hardware() then s
    else Enqueue(s, d, c, ptr)
  }

  // The first queued sender that a receive from src accepts, or |q|.
  function FirstFrom(cfg: Config, q: seq<int>, src: int): (i: nat)
    ensures i <= |q|
    ensures i < |q| ==> src == cfg.Any() || src == cfg.Pid(q[i])
    ensures forall j :: 0 <= j < i ==> src != cfg.Any() && src != cfg.Pid(q[j])
  {
    if q == [] then 0
    else if src == cfg.Any() || src == cfg.Pid(q[0]) then 0
    else 1 + FirstFrom(cfg, q[1..], src)
  }

  // Every queued sender is a live slot with a message to offer.
  ghost predicate CallersInTable(s: State)
    requires Sized(s)
  {
    forall d :: 0 <= d < |s.procs| ==>
      && InTable(s.callers[d], |s.procs|)
      && forall i :: 0 <= i < |s.callers[d]| ==> s.procs[s.callers[d][i]].flags.sending
  }

  ghost function Take(s: State, c: int, i: nat, ptr: int): (t: State)
    requires Sized(s) && CallersInTable(s) && 0 <= c < |s.procs| && i < |s.callers[c]|
    requires IsBuffer(s.mem, ptr)
    ensures Sized(t)
  {
    var p := s.callers[c][i];
    var flags := s.procs[p].flags.(sending := false);
    var t := s.(mem := CopyMess(s.mem, s.cfg.Pid(p), s.procs[p].messbuf, ptr),
                procs := s.procs[p := s.procs[p].(flags := flags)]);
    var u := if flags.None() then Ready(t, p) else t;
    u.(callers := u.callers[c := RemoveAt(u.callers[c], i)])
  }

  ghost function Await(s: State, c: int, src: int, ptr: int): (t: State)
    requires Sized(s) && ReadyInTable(s) && 0 <= c < |s.procs| && IsBuffer(s.mem, ptr)
    ensures Sized(t)
  {
    var p := Proc(s.procs[c].flags.(receiving := true), src, ptr);
    Unready(s.(procs := s.procs[c := p]), c)
  }

  ghost function Receive(s: State, c: int, src: int, ptr: int): (t: State)
    requires Sized(s) && ReadyInTable(s) && CallersInTable(s)
    requires 0 <= c < |s.procs| && IsBuffer(s.mem, ptr)
    ensures Sized(t)
  {
    var i := FirstFrom(s.cfg, s.callers[c], src);
    if i < |s.callers[c]| then Take(s, c, i, ptr) else Await(s, c, src, ptr)
  }
}
