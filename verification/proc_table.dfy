// The process table itself: slots linked into ready queues and sender queues
// by index, as proc.c keeps them.  Every routine is shown to do to the queues
// what the state machine of module Rendezvous says.

module ProcTable {
  import opened Basics
  import opened Links
  import opened Rendezvous
  import opened RendezvousInvariants
  import opened RendezvousRuns
  import opened RendezvousAnswers
  import opened MinixKernel

  // cur_proc when nobody runs.
  const IDLE := -999

  // One ready queue is the list that starts at its head; if it is not empty it
  // ends at its tail pointer.
  ghost predicate ReadyList(cfg: Config, next: seq<int>, head: int, tail: int, list: seq<int>, q: int) {
    && Chain(next, head, list)
    && (list != [] ==> tail == list[|list| - 1])
    && (forall i :: 0 <= i < |list| ==> cfg.QueueOf(list[i]) == q)
  }

  ghost predicate ReadyLinks(cfg: Config, next: seq<int>, head: seq<int>, tail: seq<int>, ready: seq<seq<int>>) {
    && |head| == |tail| == |ready| == NQ
    && forall q :: 0 <= q < NQ ==> ReadyList(cfg, next, head[q], tail[q], ready[q], q)
  }

  // A sender queue likewise; sendto tells the queues apart.
  ghost predicate CallerList(link: seq<int>, head: int, list: seq<int>, sendto: seq<int>, d: int)
    requires |sendto| == |link|
  {
    && Chain(link, head, list)
    && forall i :: 0 <= i < |list| ==> sendto[list[i]] == d
  }

  ghost predicate CallerLinks(link: seq<int>, head: seq<int>, callers: seq<seq<int>>, sendto: seq<int>) {
    && |head| == |callers| == |sendto| == |link|
    && forall d :: 0 <= d < |head| ==> CallerList(link, head[d], callers[d], sendto, d)
  }

  // A list of one queue is not disturbed by a link of another.
  lemma ReadyFrame(cfg: Config, next: seq<int>, head: int, tail: int, list: seq<int>, q: int, x: int, v: int)
    requires ReadyList(cfg, next, head, tail, list, q) && 0 <= x < |next| && cfg.QueueOf(x) != q
    ensures ReadyList(cfg, next[x := v], head, tail, list, q)
  {
    ChainFrame(next, next[x := v], head, list);
  }

  lemma CallerFrame(link: seq<int>, head: int, list: seq<int>, sendto: seq<int>, d: int, x: int, v: int)
    requires |sendto| == |link| && CallerList(link, head, list, sendto, d) && 0 <= x < |link| && x !in list
    ensures CallerList(link[x := v], head, list, sendto, d)
  {
    forall i | 0 <= i < |list| ensures link[x := v][list[i]] == link[list[i]] {
      assert list[i] in list;
    }
    ChainFrame(link, link[x := v], head, list);
  }

  lemma ReadyListAppend(cfg: Config, next: seq<int>, head: int, tail: int, list: seq<int>, r: int)
    requires ReadyList(cfg, next, head, tail, list, cfg.QueueOf(r)) && 0 <= r < |next| && r !in list
    ensures ReadyList(cfg, (if list == [] then next else next[tail := r])[r := NIL],
                      if list == [] then r else head, r, list + [r], cfg.QueueOf(r))
  {
    if list == [] {
      ChainAppendEmpty(next, r);
      assert list + [r] == [r];
    } else {
      ChainAppend(next, head, list, r);
    }
  }

  lemma ReadyLinksAppend(cfg: Config, next: seq<int>, head: seq<int>, tail: seq<int>, ready: seq<seq<int>>, r: int)
    requires ReadyLinks(cfg, next, head, tail, ready) && 0 <= r < |next|
    requires r !in ready[cfg.QueueOf(r)]
    ensures var q := cfg.QueueOf(r);
      var next' := (if ready[q] == [] then next else next[tail[q] := r])[r := NIL];
      var head' := if ready[q] == [] then head[q := r] else head;
      ReadyLinks(cfg, next', head', tail[q := r], ready[q := ready[q] + [r]])
  {
    var q := cfg.QueueOf(r);
    assert ReadyList(cfg, next, head[q], tail[q], ready[q], q);
    ReadyListAppend(cfg, next, head[q], tail[q], ready[q], r);
    var next1 := if ready[q] == [] then next else next[tail[q] := r];
    forall p | 0 <= p < NQ && p != q ensures ReadyList(cfg, next1[r := NIL], head[p], tail[p], ready[p], p) {
      if ready[q] != [] {
        ReadyFrame(cfg, next, head[p], tail[p], ready[p], p, tail[q], r);
      }
      ReadyFrame(cfg, next1, head[p], tail[p], ready[p], p, r, NIL);
    }
  }

  lemma ReadyLinksTail(cfg: Config, next: seq<int>, head: seq<int>, tail: seq<int>, ready: seq<seq<int>>, q: int)
    requires ReadyLinks(cfg, next, head, tail, ready) && 0 <= q < NQ && ready[q] != []
    ensures 0 <= head[q] < |next|
    ensures ReadyLinks(cfg, next, head[q := next[head[q]]], tail, ready[q := ready[q][1..]])
  {
    assert ReadyList(cfg, next, head[q], tail[q], ready[q], q);
    ChainTail(next, head[q], ready[q]);
    assert ReadyList(cfg, next, next[head[q]], tail[q], ready[q][1..], q);
  }

  lemma ReadyListUnlink(cfg: Config, next: seq<int>, head: int, tail: int, list: seq<int>, q: int, i: nat)
    requires ReadyList(cfg, next, head, tail, list, q) && 0 < i < |list|
    ensures var rest := RemoveAt(list, i);
      ReadyList(cfg, next[list[i - 1] := next[list[i]]], head, rest[|rest| - 1], rest, q)
  {
    ChainUnlink(next, head, list, i);
    var rest := RemoveAt(list, i);
    forall j | 0 <= j < |rest| ensures cfg.QueueOf(rest[j]) == q {
      assert rest[j] == list[if j < i then j else j + 1];
    }
  }

  lemma ReadyLinksUnlink(cfg: Config, next: seq<int>, head: seq<int>, tail: seq<int>, ready: seq<seq<int>>,
                         q: int, i: nat)
    requires ReadyLinks(cfg, next, head, tail, ready) && 0 <= q < NQ && 0 < i < |ready[q]|
    ensures 0 <= ready[q][i - 1] < |next| && 0 <= ready[q][i] < |next|
    ensures var rest := RemoveAt(ready[q], i);
      ReadyLinks(cfg, next[ready[q][i - 1] := next[ready[q][i]]], head, tail[q := rest[|rest| - 1]], ready[q := rest])
  {
    assert ReadyList(cfg, next, head[q], tail[q], ready[q], q);
    ReadyListUnlink(cfg, next, head[q], tail[q], ready[q], q, i);
    forall p | 0 <= p < NQ && p != q
      ensures ReadyList(cfg, next[ready[q][i - 1] := next[ready[q][i]]], head[p], tail[p], ready[p], p)
    {
      ReadyFrame(cfg, next, head[p], tail[p], ready[p], p, ready[q][i - 1], next[ready[q][i]]);
    }
  }

  // Moving the head behind the tail, as both kernels' sched() do it.
  lemma ReadyListRotate(cfg: Config, next: seq<int>, head: int, tail: int, list: seq<int>, q: int)
    requires ReadyList(cfg, next, head, tail, list, q) && |list| > 1
    ensures 0 <= head < |next| && 0 <= tail < |next|
    ensures var next' := next[tail := head];
      ReadyList(cfg, next'[head := NIL], next'[head], head, Rotate(list), q)
  {
    ChainTail(next, head, list);
    ChainAppend(next, next[head], list[1..], head);
    assert Rotate(list) == list[1..] + [head];
  }

  lemma ReadyListRotateOne(cfg: Config, next: seq<int>, head: int, tail: int, list: seq<int>, q: int)
    requires ReadyList(cfg, next, head, tail, list, q) && |list| == 1
    ensures 0 <= head < |next| && tail == head
    ensures ReadyList(cfg, next[head := head][head := NIL], head, head, Rotate(list), q)
  {
    assert list == [head];
  }

  lemma ReadyLinksRotate(cfg: Config, next: seq<int>, head: seq<int>, tail: seq<int>, ready: seq<seq<int>>, q: int)
    requires ReadyLinks(cfg, next, head, tail, ready) && 0 <= q < NQ && ready[q] != []
    ensures 0 <= head[q] < |next| && 0 <= tail[q] < |next|
    ensures var h := head[q];
      var next' := next[tail[q] := h];
      ReadyLinks(cfg, next'[h := NIL], head[q := next'[h]], tail[q := h], ready[q := Rotate(ready[q])])
  {
    var h := head[q];
    assert ReadyList(cfg, next, h, tail[q], ready[q], q);
    if |ready[q]| > 1 {
      ReadyListRotate(cfg, next, h, tail[q], ready[q], q);
    } else {
      ReadyListRotateOne(cfg, next, h, tail[q], ready[q], q);
    }
    forall p | 0 <= p < NQ && p != q
      ensures ReadyList(cfg, next[tail[q] := h][h := NIL], head[p], tail[p], ready[p], p)
    {
      assert ReadyList(cfg, next, head[p], tail[p], ready[p], p);
      ReadyFrame(cfg, next, head[p], tail[p], ready[p], p, tail[q], h);
      ReadyFrame(cfg, next[tail[q] := h], head[p], tail[p], ready[p], p, h, NIL);
    }
  }

  lemma CallerListAppend(link: seq<int>, head: int, list: seq<int>, sendto: seq<int>, d: int, c: int)
    requires |sendto| == |link| && CallerList(link, head, list, sendto, d) && 0 <= c < |link| && c !in list
    ensures CallerList((if list == [] then link else link[list[|list| - 1] := c])[c := NIL],
                       if list == [] then c else head, list + [c], sendto[c := d], d)
  {
    if list == [] {
      ChainAppendEmpty(link, c);
      assert list + [c] == [c];
    } else {
      ChainAppend(link, head, list, c);
    }
  }

  lemma CallerLinksAppend(link: seq<int>, head: seq<int>, callers: seq<seq<int>>, sendto: seq<int>, d: int, c: int)
    requires CallerLinks(link, head, callers, sendto) && 0 <= d < |head| && 0 <= c < |link|
    requires forall e :: 0 <= e < |head| ==> c !in callers[e]
    ensures callers[d] != [] ==> 0 <= callers[d][|callers[d]| - 1] < |link|
    ensures var link' := (if callers[d] == [] then link else link[callers[d][|callers[d]| - 1] := c])[c := NIL];
      var head' := if callers[d] == [] then head[d := c] else head;
      CallerLinks(link', head', callers[d := callers[d] + [c]], sendto[c := d])
  {
    assert CallerList(link, head[d], callers[d], sendto, d);
    CallerListAppend(link, head[d], callers[d], sendto, d, c);
    var link1 := if callers[d] == [] then link else link[callers[d][|callers[d]| - 1] := c];
    forall e | 0 <= e < |head| && e != d ensures CallerList(link1[c := NIL], head[e], callers[e], sendto[c := d], e) {
      assert CallerList(link, head[e], callers[e], sendto, e);
      if callers[d] != [] {
        CallerFrame(link, head[e], callers[e], sendto, e, callers[d][|callers[d]| - 1], c);
      }
      CallerFrame(link1, head[e], callers[e], sendto, e, c, NIL);
      assert forall i :: 0 <= i < |callers[e]| ==> callers[e][i] in callers[e];
    }
  }

  lemma CallerListTake(link: seq<int>, head: int, list: seq<int>, sendto: seq<int>, c: int, i: nat)
    requires |sendto| == |link| && CallerList(link, head, list, sendto, c) && i < |list|
    ensures CallerList(if i == 0 then link else link[list[i - 1] := link[list[i]]],
                       if i == 0 then link[head] else head, RemoveAt(list, i), sendto, c)
  {
    hide Chain, RemoveAt;
    if i == 0 {
      ChainTail(link, head, list);
    } else {
      ChainUnlink(link, head, list, i);
    }
    TakenSendto(link, head, list, sendto, c, i);
  }

  lemma TakenSendto(link: seq<int>, head: int, list: seq<int>, sendto: seq<int>, c: int, i: nat)
    requires |sendto| == |link| && CallerList(link, head, list, sendto, c) && i < |list|
    ensures var rest := RemoveAt(list, i);
      InTable(rest, |link|) && forall j :: 0 <= j < |rest| ==> sendto[rest[j]] == c
  {
    var rest := RemoveAt(list, i);
    forall j | 0 <= j < |rest| ensures 0 <= rest[j] < |link| && sendto[rest[j]] == c {
      assert rest[j] == list[if j < i then j else j + 1];
    }
  }

  lemma CallerLinksTake(link: seq<int>, head: seq<int>, callers: seq<seq<int>>, sendto: seq<int>, c: int, i: nat)
    requires CallerLinks(link, head, callers, sendto) && 0 <= c < |head| && i < |callers[c]|
    ensures 0 <= callers[c][i] < |link| && (i > 0 ==> 0 <= callers[c][i - 1] < |link|)
    ensures var p := callers[c][i];
      var link' := if i == 0 then link else link[callers[c][i - 1] := link[p]];
      var head' := if i == 0 then head[c := link[p]] else head;
      CallerLinks(link', head', callers[c := RemoveAt(callers[c], i)], sendto)
  {
    assert CallerList(link, head[c], callers[c], sendto, c);
    CallerListTake(link, head[c], callers[c], sendto, c, i);
    if i > 0 {
      forall e | 0 <= e < |head| && e != c
        ensures CallerList(link[callers[c][i - 1] := link[callers[c][i]]], head[e], callers[e], sendto, e)
      {
        assert CallerList(link, head[e], callers[e], sendto, e);
        CallerFrame(link, head[e], callers[e], sendto, e, callers[c][i - 1], link[callers[c][i]]);
      }
    }
  }

  lemma NoLists(cfg: Config, next: seq<int>, head: seq<int>, tail: seq<int>,
                link: seq<int>, callerq: seq<int>, callers: seq<seq<int>>, sendto: seq<int>)
    requires |next| == |link| == |callerq| == |callers| == |sendto| == cfg.Slots()
    requires head == tail == [NIL, NIL, NIL]
    requires forall d :: 0 <= d < |callers| ==> callers[d] == [] && callerq[d] == NIL
    ensures ReadyLinks(cfg, next, head, tail, [[], [], []])
    ensures CallerLinks(link, callerq, callers, sendto)
  {}

  // create_task() and ready(), on the abstract machine.
  ghost function Started(s: State, rp: int): (t: State)
    requires Sized(s) && 0 <= rp < |s.procs|
    ensures Sized(t)
  {
    Rendezvous.Ready(s.(procs := s.procs[rp := Proc(Flags(false, false, false), 0, 0)]), rp)
  }

  // What proc_init() leaves.
  function Blank(mem: seq<int>, tickBuf: nat): State {
    State(Port(tickBuf), seq(12, i => Proc(Flags(true, false, false), 0, 0)), [[], [], []],
          seq(12, i => []), seq(12, i => 0), mem, seq(12, i => Frame(0, 0, 0)), 3, SCHED_RATE)
  }

  // Three tasks are started and the first is picked.
  lemma BootSteps(mem: seq<int>, tickBuf: nat)
    requires IsBuffer(mem, tickBuf)
    ensures var s := Blank(mem, tickBuf);
      && Sized(s)
      && Started(s, 0).ready == [[0], [], []]
      && Started(Started(s, 0), 1).ready == [[0, 1], [], []]
      && var t := Started(Started(Started(s, 0), 1), 2);
         ReadyInTable(t) && Pick(t) == Boot(mem, tickBuf)
  {
    var s := Blank(mem, tickBuf);
    assert s.ready[TASK_Q] + [0] == [0] && [0] + [1] == [0, 1] && [0, 1] + [2] == [0, 1, 2];
    var t := Started(Started(Started(s, 0), 1), 2);
    var u := Boot(mem, tickBuf);
    assert t.procs == u.procs && t.callers == u.callers && t.sendto == u.sendto && t.frames == u.frames;
  }

  class ProcTable {
    const cfg: Config
    const proc: array<Proc>
    const nextready: array<int>
    const callerq: array<int>
    const sendlink: array<int>
    const rdyHead: array<int>
    const rdyTail: array<int>
    const mem: array<int>
    const frames: array<Frame>
    var procPtr: int
    var curProc: int
    var prevProc: int
    var schedTicks: int

    ghost var ready: seq<seq<int>>
    ghost var callers: seq<seq<int>>
    ghost var sendto: seq<int>

    // The state the table stands for.
    ghost function Abs(): State
      reads this, proc, mem, frames
    {
      State(cfg, proc[..], ready, callers, sendto, mem[..], frames[..], procPtr, schedTicks)
    }

    ghost predicate Apart() {
      && nextready != callerq && nextready != sendlink && nextready != rdyHead && nextready != rdyTail
      && nextready != mem && callerq != sendlink && callerq != rdyHead && callerq != rdyTail && callerq != mem
      && sendlink != rdyHead && sendlink != rdyTail && sendlink != mem
      && rdyHead != rdyTail && rdyHead != mem && rdyTail != mem
    }

    ghost predicate Valid()
      reads this, proc, mem, frames, nextready, callerq, sendlink, rdyHead, rdyTail
    {
      && Apart()
      && Sized(Abs())
      && nextready.Length == callerq.Length == sendlink.Length == proc.Length
      && ReadyLinks(cfg, nextready[..], rdyHead[..], rdyTail[..], ready)
      && CallerLinks(sendlink[..], callerq[..], callers, sendto)
    }

    // proc_init(): every slot free, every list empty, nobody running.
    constructor (cfg: Config, words: nat)
      requires cfg.Valid() && cfg.tickBuf + MESS_WORDS <= words
      ensures Valid() && this.cfg == cfg && mem.Length == words && proc.Length == cfg.Slots()
      ensures fresh(proc) && fresh(mem) && fresh(frames) && fresh(nextready) && fresh(callerq)
      ensures fresh(sendlink) && fresh(rdyHead) && fresh(rdyTail)
      ensures forall i :: 0 <= i < cfg.Slots() ==> proc[i] == Proc(Flags(true, false, false), 0, 0)
      ensures forall i :: 0 <= i < cfg.Slots() ==> frames[i] == Frame(0, 0, 0)
      ensures ready == [[], [], []] && callers == seq(cfg.Slots(), i => [])
      ensures sendto == seq(cfg.Slots(), i => 0)
      ensures procPtr == cfg.Hardware() && schedTicks == SCHED_RATE
    {
      this.cfg := cfg;
      proc := new Proc[cfg.Slots()](i => Proc(Flags(true, false, false), 0, 0));
      nextready := new int[cfg.Slots()](i => NIL);
      callerq := new int[cfg.Slots()](i => NIL);
      sendlink := new int[cfg.Slots()](i => NIL);
      rdyHead := new int[NQ](i => NIL);
      rdyTail := new int[NQ](i => NIL);
      mem := new int[words](i => 0);
      frames := new Frame[cfg.Slots()](i => Frame(0, 0, 0));
      procPtr := cfg.Hardware();
      curProc := IDLE;
      prevProc := IDLE;
      schedTicks := SCHED_RATE;
      ready := [[], [], []];
      callers := seq(cfg.Slots(), i => []);
      sendto := seq(cfg.Slots(), i => 0);
      new;
      NoLists(cfg, nextready[..], rdyHead[..], rdyTail[..], sendlink[..], callerq[..], callers, sendto);
    }

    // create_task() followed by ready()
    method StartTask(rp: int)
      requires Valid() && 0 <= rp < proc.Length && rp !in ready[cfg.QueueOf(rp)]
      modifies this`ready, proc, nextready, rdyHead, rdyTail
      ensures Valid()
      ensures Abs() == Started(old(Abs()), rp)
    {
      proc[rp] := Proc(Flags(false, false, false), 0, 0);
      Ready(rp);
    }

    method PickProc()
      requires Valid()
      modifies this`procPtr, this`curProc, this`prevProc
      ensures Valid() && ReadyInTable(old(Abs())) && Abs() == Pick(old(Abs()))
      ensures prevProc == old(curProc)
      ensures curProc == cfg.Pid(procPtr) || (curProc == IDLE && procPtr == cfg.Hardware())
    {
      var q;
      if rdyHead[TASK_Q] != NIL {
        q := TASK_Q;
      } else if rdyHead[SERVER_Q] != NIL {
        q := SERVER_Q;
      } else {
        q := USER_Q;
      }
      prevProc := curProc;
      assert forall p :: 0 <= p < NQ ==> ReadyList(cfg, nextready[..], rdyHead[p], rdyTail[p], ready[p], p);
      if rdyHead[q] != NIL {
        curProc := cfg.Pid(rdyHead[q]);
        procPtr := rdyHead[q];
      } else {
        curProc := IDLE;
        procPtr := cfg.Hardware();
      }
    }

    // What the head of a ready queue tells about the queue.
    lemma HeadOf(q: int)
      requires Valid() && 0 <= q < NQ
      ensures Chain(nextready[..], rdyHead[q], ready[q])
      ensures rdyHead[q] == NIL <==> ready[q] == []
      ensures ready[q] != [] ==> rdyHead[q] == ready[q][0] && rdyTail[q] == ready[q][|ready[q]| - 1]
      ensures forall i :: 0 <= i < |ready[q]| ==> 0 <= ready[q][i] < proc.Length
    {
      assert ReadyList(cfg, nextready[..], rdyHead[q], rdyTail[q], ready[q], q);
    }

    method Ready(rp: int)
      requires Valid() && 0 <= rp < proc.Length && rp !in ready[cfg.QueueOf(rp)]
      modifies this`ready, nextready, rdyHead, rdyTail
      ensures Valid() && Abs() == Rendezvous.Ready(old(Abs()), rp)
    {
      var q := cfg.QueueOf(rp);
      HeadOf(q);
      ReadyLinksAppend(cfg, nextready[..], rdyHead[..], rdyTail[..], ready, rp);
      if rdyHead[q] == NIL {
        rdyHead[q] := rp;
      } else {
        nextready[rdyTail[q]] := rp;
      }
      rdyTail[q] := rp;
      nextready[rp] := NIL;
      ready := ready[q := ready[q] + [rp]];
    }

    // The links of a list, as a walk along the table meets them.
    ghost predicate Linked(links: array<int>, list: seq<int>)
      reads links
    {
      forall k :: 0 <= k < |list| ==> 0 <= list[k] < links.Length && links[list[k]] == After(list, k)
    }

    // The first loop of unready(): find the predecessor of rp, or run off the end.
    method FindBefore(rp: int, first: int, ghost list: seq<int>) returns (xp: int, ghost i: nat)
      requires Linked(nextready, list) && list != [] && list[0] == first && first != rp && rp != NIL
      ensures xp == NIL ==> rp !in list
      ensures xp != NIL ==> i + 1 < |list| && xp == list[i] && list[i + 1] == rp
    {
      xp := first;
      i := 0;
      while nextready[xp] != rp
        invariant i < |list| && xp == list[i]
        invariant rp !in list[..i + 1]
        decreases |list| - i
      {
        xp := nextready[xp];
        if xp == NIL {
          assert list[..i + 1] == list;
          return;
        }
        i := i + 1;
        assert list[..i + 1] == list[..i] + [list[i]];
      }
    }

    // The rest of it: bypass the member after xp0 and walk on to the last one.
    method Bypass(xp0: int, ghost head: int, ghost list: seq<int>, ghost i: nat) returns (xp: int)
      requires Chain(nextready[..], head, list) && i + 1 < |list| && list[i] == xp0
      modifies nextready
      ensures nextready[..] == old(nextready[..])[list[i] := old(nextready[..])[list[i + 1]]]
      ensures var rest := RemoveAt(list, i + 1); xp == rest[|rest| - 1]
    {
      ghost var next0 := nextready[..];
      ghost var rest := RemoveAt(list, i + 1);
      ChainUnlink(next0, head, list, i + 1);
      assert next0[list[i]] == After(list, i);
      nextready[xp0] := nextready[nextready[xp0]];
      assert nextready[..] == next0[list[i] := next0[list[i + 1]]];
      xp := xp0;
      ghost var k := i;
      while nextready[xp] != NIL
        invariant k < |rest| && xp == rest[k]
        decreases |rest| - k
      {
        assert nextready[..][rest[k]] == After(rest, k);
        xp := nextready[xp];
        k := k + 1;
      }
      assert nextready[..][rest[k]] == After(rest, k);
    }

    method Unready(rp: int)
      requires Valid() && 0 <= rp < proc.Length
      modifies this`ready, this`procPtr, this`curProc, this`prevProc, nextready, rdyHead, rdyTail
      ensures Valid() && ReadyInTable(old(Abs())) && Abs() == Rendezvous.Unready(old(Abs()), rp)
    {
      var q := cfg.QueueOf(rp);
      ReadyTables();
      HeadOf(q);
      ghost var list := ready[q];
      var xp := rdyHead[q];
      if xp == NIL {
        assert ready[q := Remove(ready[q], rp)] == ready;
        return;
      }
      if xp == rp {
        DropHead(q);
        assert Remove(list, rp) == list[1..];
        PickProc();
      } else {
        ghost var i;
        xp, i := FindBefore(rp, xp, list);
        if xp == NIL {
          assert ready[q := Remove(ready[q], rp)] == ready;
          return;
        }
        UnlinkAt(q, xp, list, i);
      }
    }

    lemma ReadyTables()
      requires Valid()
      ensures ReadyInTable(Abs())
    {
      forall q | 0 <= q < NQ ensures InTable(ready[q], proc.Length) {
        HeadOf(q);
      }
    }

    method DropHead(q: int)
      requires Valid() && 0 <= q < NQ && ready[q] != []
      modifies this`ready, rdyHead
      ensures Valid() && Abs() == old(Abs()).(ready := old(ready)[q := old(ready)[q][1..]])
    {
      HeadOf(q);
      ghost var head0 := rdyHead[..];
      ReadyLinksTail(cfg, nextready[..], head0, rdyTail[..], ready, q);
      rdyHead[q] := nextready[rdyHead[q]];
      assert rdyHead[..] == head0[q := nextready[..][head0[q]]];
      ready := ready[q := ready[q][1..]];
    }

    // Take out the member after xp, and look for the new tail.
    method UnlinkAt(q: int, xp0: int, ghost list: seq<int>, ghost i: nat)
      requires Valid() && 0 <= q < NQ && list == ready[q] && i + 1 < |list| && xp0 == list[i]
      modifies this`ready, nextready, rdyTail
      ensures Valid() && Abs() == old(Abs()).(ready := old(ready)[q := Remove(list, list[i + 1])])
    {
      HeadOf(q);
      IndexUnique(list, i + 1);
      ghost var tail0 := rdyTail[..];
      ReadyLinksUnlink(cfg, nextready[..], rdyHead[..], tail0, ready, q, i + 1);
      var xp := Bypass(xp0, rdyHead[q], list, i);
      rdyTail[q] := xp;
      assert rdyTail[..] == tail0[q := xp];
      ready := ready[q := RemoveAt(list, i + 1)];
      assert ReadyLinks(cfg, nextready[..], rdyHead[..], rdyTail[..], ready);
    }

    // Round robin among the tasks: the head of TASK_Q goes to the back.
    method Sched()
      requires Valid()
      modifies this`ready, this`procPtr, this`curProc, this`prevProc, nextready, rdyHead, rdyTail
      ensures Valid() && ReadyInTable(old(Abs())) && Abs() == Rendezvous.Sched(old(Abs()))
    {
      ReadyTables();
      HeadOf(TASK_Q);
      var h := rdyHead[TASK_Q];
      if h != NIL && nextready[h] != NIL {
        RotateTasks(h);
      } else {
        assert h != NIL ==> nextready[..][ready[TASK_Q][0]] == After(ready[TASK_Q], 0);
        assert ready[TASK_Q := Rotate(ready[TASK_Q])] == ready;
      }
      PickProc();
    }

    method RotateTasks(h: int)
      requires Valid() && h == rdyHead[TASK_Q] && h != NIL
      requires 0 <= h < nextready.Length && nextready[h] != NIL
      modifies this`ready, nextready, rdyHead, rdyTail
      ensures Valid() && Abs() == old(Abs()).(ready := old(ready)[TASK_Q := Rotate(old(ready)[TASK_Q])])
    {
      HeadOf(TASK_Q);
      ReadyLinksRotate(cfg, nextready[..], rdyHead[..], rdyTail[..], ready, TASK_Q);
      ghost var next0, head0 := nextready[..], rdyHead[..];
      nextready[rdyTail[TASK_Q]] := h;
      rdyHead[TASK_Q] := nextready[h];
      rdyTail[TASK_Q] := h;
      nextready[h] := NIL;
      ready := ready[TASK_Q := Rotate(ready[TASK_Q])];
      assert nextready[..] == next0[old(rdyTail[TASK_Q]) := h][h := NIL];
    }

    // cp_mess_from()
    method CpMessFrom(caller: int, src: int, dst: int)
      requires IsBuffer(mem[..], src) && IsBuffer(mem[..], dst)
      modifies mem
      ensures mem[..] == CopyMess(old(mem[..]), caller, src, dst)
    {
      mem[dst] := caller;
      var i := 1;
      while i < MESS_WORDS
        invariant 1 <= i <= MESS_WORDS
        invariant CopyWords(mem[..], src, dst, i) == CopyMess(old(mem[..]), caller, src, dst)
      {
        ghost var m := mem[..];
        mem[dst + i] := mem[src + i];
        assert mem[..] == m[dst + i := m[src + i]];
        i := i + 1;
      }
    }

    // Clear one flag of a blocked process that keeps its buffer.
    method SetFlags(p: int, flags: Flags)
      requires Valid() && 0 <= p < proc.Length
      requires flags.sending || flags.receiving ==> IsBuffer(mem[..], proc[p].messbuf)
      modifies proc
      ensures Valid()
      ensures Abs() == old(Abs()).(procs := old(proc[..])[p := old(proc[p]).(flags := flags)])
    {
      proc[p] := proc[p].(flags := flags);
    }

    method HandOver(d: int, caller: int, mPtr: int)
      requires Valid() && 0 <= d < proc.Length && 0 <= cfg.Slot(caller) < proc.Length
      requires IsBuffer(mem[..], mPtr) && proc[d].flags.receiving && d !in ready[cfg.QueueOf(d)]
      modifies this`ready, proc, mem, nextready, rdyHead, rdyTail
      ensures Valid() && Abs() == Deliver(old(Abs()), d, cfg.Slot(caller), mPtr)
    {
      CpMessFrom(caller, mPtr, proc[d].messbuf);
      SetFlags(d, proc[d].flags.(receiving := false));
      if proc[d].flags.None() {
        Ready(d);
      }
    }

    // Walk to the end of a sender queue.
    method LastCaller(first: int, ghost list: seq<int>) returns (nextPtr: int)
      requires Linked(sendlink, list) && list != [] && list[0] == first
      ensures nextPtr == list[|list| - 1]
    {
      nextPtr := first;
      ghost var i := 0;
      while sendlink[nextPtr] != NIL
        invariant 0 <= i < |list| && nextPtr == list[i]
        decreases |list| - i
      {
        nextPtr := sendlink[nextPtr];
        i := i + 1;
      }
    }

    // Link c in at the end.
    method LinkCaller(d: int, c: int, ghost list: seq<int>)
      requires 0 <= d < callerq.Length && 0 <= c < sendlink.Length && callerq != sendlink
      requires Chain(sendlink[..], callerq[d], list)
      modifies callerq, sendlink
      ensures callerq[..] == if list == [] then old(callerq[..])[d := c] else old(callerq[..])
      ensures list != [] ==> 0 <= list[|list| - 1] < sendlink.Length
      ensures var link0 := old(sendlink[..]);
        sendlink[..] == (if list == [] then link0 else link0[list[|list| - 1] := c])[c := NIL]
    {
      assert forall k :: 0 <= k < |list| ==> sendlink[..][list[k]] == After(list, k);
      if callerq[d] == NIL {
        callerq[d] := c;
      } else {
        var last := LastCaller(callerq[d], list);
        sendlink[last] := c;
      }
      sendlink[c] := NIL;
    }

    method JoinCallers(d: int, c: int)
      requires Valid() && 0 <= d < proc.Length && 0 <= c < proc.Length
      requires forall e :: 0 <= e < proc.Length ==> c !in callers[e]
      modifies this`callers, this`sendto, callerq, sendlink
      ensures Valid()
      ensures Abs() == old(Abs()).(callers := old(callers)[d := old(callers)[d] + [c]], sendto := old(sendto)[c := d])
    {
      ghost var list := callers[d];
      assert CallerList(sendlink[..], callerq[..][d], list, sendto, d);
      CallerLinksAppend(sendlink[..], callerq[..], callers, sendto, d, c);
      LinkCaller(d, c, list);
      assert CallerLinks(sendlink[..], callerq[..], callers[d := list + [c]], sendto[c := d]);
      callers := callers[d := list + [c]];
      sendto := sendto[c := d];
    }

    method BlockSending(c: int, mPtr: int)
      requires Valid() && 0 <= c < proc.Length && IsBuffer(mem[..], mPtr)
      modifies this`ready, this`procPtr, this`curProc, this`prevProc, proc, nextready, rdyHead, rdyTail
      ensures var p := old(proc[c]).(messbuf := mPtr, flags := old(proc[c]).flags.(sending := true));
        var s := old(Abs()).(procs := old(proc[..])[c := p]);
        Valid() && Sized(s) && ReadyInTable(s) && Abs() == Rendezvous.Unready(s, c)
    {
      proc[c] := proc[c].(messbuf := mPtr, flags := proc[c].flags.(sending := true));
      Unready(c);
    }

    method MiniSend(caller: int, dest: int, mPtr: int) returns (n: int)
      requires Valid() && Queued(Abs())
      requires 0 <= cfg.Slot(caller) < proc.Length && 0 <= cfg.Slot(dest) < proc.Length && IsBuffer(mem[..], mPtr)
      requires caller == HARDWARE || Runnable(Abs(), cfg.Slot(caller))
      modifies this, proc, mem, nextready, callerq, sendlink, rdyHead, rdyTail
      ensures Valid() && schedTicks == old(schedTicks) && ReadyInTable(old(Abs()))
      ensures Abs() == Send(old(Abs()), cfg.Slot(caller), cfg.Slot(dest), mPtr)
      ensures n == SendCode(old(Abs()), cfg.Slot(caller), cfg.Slot(dest))
      ensures caller == HARDWARE ==> curProc == old(curProc)
    {
      var c := cfg.Slot(caller);
      var d := cfg.Slot(dest);
      ReadyTables();
      if proc[d].flags.free {
        return cfg.eBadDest;
      }
      if proc[d].flags.receiving && (proc[d].getfrom == cfg.Any() || proc[d].getfrom == caller) {
        assert ReadyQueue(Abs(), cfg.QueueOf(d));
        HandOver(d, caller, mPtr);
      } else {
        if caller == HARDWARE {
          return cfg.eOverrun;
        }
        forall e | 0 <= e < proc.Length ensures c !in callers[e] {
          assert SenderQueue(Abs(), e);
        }
        BlockSending(c, mPtr);
        JoinCallers(d, c);
      }
      return OK;
    }

    // The loop of mini_rec(): the first queued sender that src accepts.
    method FindSender(first: int, src: int, ghost list: seq<int>) returns (sender: int, prev: int, ghost i: nat)
      requires Linked(sendlink, list) && first == if list == [] then NIL else list[0]
      ensures i == FirstFrom(cfg, list, src)
      ensures sender == if i < |list| then list[i] else NIL
      ensures 0 < i < |list| ==> prev == list[i - 1]
    {
      sender, prev := first, NIL;
      i := 0;
      while sender != NIL
        invariant i <= |list| && sender == if i < |list| then list[i] else NIL
        invariant 0 < i ==> prev == list[i - 1]
        invariant FirstFrom(cfg, list, src) == i + FirstFrom(cfg, list[i..], src)
        decreases |list| - i
      {
        if src == cfg.Any() || src == cfg.Pid(sender) {
          return;
        }
        assert list[i..][1..] == list[i + 1..];
        prev := sender;
        sender := sendlink[sender];
        i := i + 1;
      }
    }

    // Bypass the sender at position i.
    method BypassSender(c: int, sender: int, prev: int, ghost i: nat)
      requires callerq != sendlink && CallerLinks(sendlink[..], callerq[..], callers, sendto)
      requires 0 <= c < callerq.Length && i < |callers[c]| && sender == callers[c][i]
      requires i > 0 ==> prev == callers[c][i - 1]
      modifies callerq, sendlink
      ensures CallerLinks(sendlink[..], callerq[..], callers[c := RemoveAt(callers[c], i)], sendto)
    {
      ghost var link0, head0 := sendlink[..], callerq[..];
      CallerLinksTake(link0, head0, callers, sendto, c, i);
      assert CallerList(link0, head0[c], callers[c], sendto, c);
      if sender == callerq[c] {
        callerq[c] := sendlink[sender];
        assert callerq[..] == head0[c := link0[sender]];
      } else {
        sendlink[prev] := sendlink[sender];
        assert sendlink[..] == link0[prev := link0[sender]];
      }
    }

    method UnlinkSender(c: int, sender: int, prev: int, ghost i: nat)
      requires Valid() && 0 <= c < proc.Length && i < |callers[c]| && sender == callers[c][i]
      requires i > 0 ==> prev == callers[c][i - 1]
      modifies this`callers, callerq, sendlink
      ensures Valid()
      ensures Abs() == old(Abs()).(callers := old(callers)[c := RemoveAt(old(callers)[c], i)])
    {
      BypassSender(c, sender, prev, i);
      callers := callers[c := RemoveAt(callers[c], i)];
    }

    method FreeSender(c: int, sender: int, mPtr: int)
      requires Valid() && 0 <= c < proc.Length && 0 <= sender < proc.Length
      requires IsBuffer(mem[..], mPtr) && proc[sender].flags.sending && sender !in ready[cfg.QueueOf(sender)]
      modifies this`ready, proc, mem, nextready, rdyHead, rdyTail
      ensures var p := old(proc[sender]);
        var flags := p.flags.(sending := false);
        var t := old(Abs()).(mem := CopyMess(old(mem[..]), cfg.Pid(sender), p.messbuf, mPtr),
                             procs := old(proc[..])[sender := p.(flags := flags)]);
        Valid() && Sized(t) && Abs() == if flags.None() then Rendezvous.Ready(t, sender) else t
    {
      CpMessFrom(cfg.Pid(sender), proc[sender].messbuf, mPtr);
      SetFlags(sender, proc[sender].flags.(sending := false));
      if proc[sender].flags.None() {
        Ready(sender);
      }
    }

    method BlockReceiving(c: int, src: int, mPtr: int)
      requires Valid() && 0 <= c < proc.Length && IsBuffer(mem[..], mPtr)
      modifies this`ready, this`procPtr, this`curProc, this`prevProc, proc, nextready, rdyHead, rdyTail
      ensures Valid() && ReadyInTable(old(Abs())) && Abs() == Await(old(Abs()), c, src, mPtr)
    {
      ReadyTables();
      proc[c] := Proc(proc[c].flags.(receiving := true), src, mPtr);
      Unready(c);
    }

    method MiniRec(caller: int, src: int, mPtr: int) returns (n: int)
      requires Valid() && Queued(Abs()) && 0 <= cfg.Slot(caller) < proc.Length && IsBuffer(mem[..], mPtr)
      modifies this, proc, mem, nextready, callerq, sendlink, rdyHead, rdyTail
      ensures Valid() && schedTicks == old(schedTicks)
      ensures ReadyInTable(old(Abs())) && CallersInTable(old(Abs()))
      ensures Abs() == Receive(old(Abs()), cfg.Slot(caller), src, mPtr) && n == OK
    {
      var c := cfg.Slot(caller);
      QueuedTables(Abs());
      ghost var list := callers[c];
      assert CallerList(sendlink[..], callerq[..][c], list, sendto, c);
      assert Linked(sendlink, list) by {
        assert forall k :: 0 <= k < |list| ==> sendlink[..][list[k]] == After(list, k);
      }
      var sender, prev, i := FindSender(callerq[c], src, list);
      if sender != NIL {
        assert ReadyQueue(Abs(), cfg.QueueOf(sender));
        FreeSender(c, sender, mPtr);
        UnlinkSender(c, sender, prev, i);
      } else {
        BlockReceiving(c, src, mPtr);
      }
      return OK;
    }

    // A code for a process goes into its saved registers.
    method SetReg(rp: int, n: int)
      requires Valid() && 0 <= rp < frames.Length
      modifies frames
      ensures Valid() && Abs() == SetCode(old(Abs()), rp, n)
    {
      frames[rp] := frames[rp].(a := n);
    }

    // brk_dispatch(): the call is in the frame of the process that trapped;
    // its return code goes there even when the call blocks it.
    method BrkDispatch()
      requires Valid() && Good(Abs())
      requires TrapOk(Abs(), frames[procPtr].a, frames[procPtr].x, frames[procPtr].y)
      modifies this, proc, mem, frames, nextready, callerq, sendlink, rdyHead, rdyTail
      ensures Valid() && Good(Abs())
      ensures var f := old(frames[procPtr]); Abs() == AfterTrap(old(Abs()), f.a, f.x, f.y)
      ensures var f := old(frames[procPtr]);
        frames[old(procPtr)] == f.(a := if f.a == SEND && old(proc[cfg.Slot(frames[procPtr].x)].flags.free)
                                        then cfg.eBadDest else OK)
      ensures forall p :: 0 <= p < frames.Length && p != old(procPtr) ==> frames[p] == old(frames[p])
    {
      hide ReadyOk, CallersOk, NoLostWakeup, OneWait, CurOk, Send, Receive, SendCode;
      var rp := procPtr;
      var func, src, mPtr := frames[rp].a, frames[rp].x, frames[rp].y;
      ghost var s := Abs();
      TrapKeeps(s, func, src, mPtr);
      AnswersAll(s, Trap(func, src, mPtr));
      RunningIsReady(s);
      assert Trapped(s, func, src, mPtr) == s;
      var n := 0;
      if func == SEND {
        n := MiniSend(cfg.Pid(rp), src, mPtr);
      } else if func == RECEIVE {
        n := MiniRec(cfg.Pid(rp), src, mPtr);
      }
      SetReg(rp, n);
    }

    // The tick message.
    method StampTick()
      requires Valid() && IsBuffer(mem[..], cfg.tickBuf)
      modifies mem
      ensures Valid()
      ensures Abs() == old(Abs()).(mem := old(mem[..])[cfg.tickBuf := HARDWARE][cfg.tickBuf + 1 := CLOCK_TICK])
    {
      mem[cfg.tickBuf] := HARDWARE;
      mem[cfg.tickBuf + 1] := CLOCK_TICK;
      assert mem[..] == old(mem[..])[cfg.tickBuf := HARDWARE][cfg.tickBuf + 1 := CLOCK_TICK];
    }

    // The first half of irq_dispatch(): tell the clock task, or lose the tick.
    method SendTick()
      requires Valid() && Queued(Abs())
      modifies this, proc, mem, nextready, callerq, sendlink, rdyHead, rdyTail
      ensures Valid() && schedTicks == old(schedTicks)
      ensures Abs() == Ticked(old(Abs()))
    {
      TickSent(Abs());
      StampTick();
      var n := MiniSend(HARDWARE, cfg.clock, cfg.tickBuf);
    }

    // irq_dispatch(): send the tick and re-pick, rotating when it is time.
    method IrqDispatch()
      requires Valid() && Good(Abs())
      modifies this, proc, mem, nextready, callerq, sendlink, rdyHead, rdyTail
      ensures Valid() && Good(Abs()) && Abs() == AfterTick(old(Abs()))
    {
      hide ReadyOk, CallersOk, NoLostWakeup, OneWait, CurOk, Send;
      TickKeeps(Abs());
      SendTick();
      ghost var s1 := Abs();
      schedTicks := schedTicks - 1;
      if schedTicks == 0 {
        schedTicks := SCHED_RATE;
        assert Abs() == s1.(ticks := SCHED_RATE);
        Sched();
      } else {
        assert Abs() == s1.(ticks := s1.ticks - 1);
        PickProc();
      }
      assert Abs() == Scheduled(s1);
    }

    // -----------------------------------------------------------------
    // The original kernel's own entries

    // Its mini_send(): the checks, then the common part.
    method CheckedMiniSend(caller: int, dest: int, mPtr: int) returns (n: int)
      requires Valid() && Queued(Abs())
      requires 0 <= cfg.Slot(caller) < proc.Length
      requires MaySend(cfg, cfg.Slot(caller), cfg.Slot(dest)) ==> 0 <= cfg.Slot(dest) < proc.Length
      requires Runnable(Abs(), cfg.Slot(caller))
      modifies this, proc, mem, nextready, callerq, sendlink, rdyHead, rdyTail
      ensures Valid() && ReadyInTable(old(Abs())) && schedTicks == old(schedTicks)
      ensures n == CheckedCode(old(Abs()), cfg.Slot(caller), cfg.Slot(dest), mPtr)
      ensures Abs() == CheckedSend(old(Abs()), cfg.Slot(caller), cfg.Slot(dest), mPtr)
    {
      ReadyTables();
      if caller >= cfg.low && dest != FS_PROC_NR && dest != MM_PROC_NR {
        return cfg.eBadDest;
      }
      if proc[cfg.Slot(dest)].flags.free {
        return cfg.eBadDest;
      }
      if mPtr < 0 || mPtr + MESS_WORDS > mem.Length {
        return E_BAD_ADDR;
      }
      n := MiniSend(caller, dest, mPtr);
    }

    // The send of sys_call(), whose code is kept unless a receive follows.
    method SendHalf(func: nat, caller: int, dest: int, mPtr: int) returns (n: int)
      requires Valid() && Queued(Abs())
      requires 0 <= cfg.Slot(caller) < proc.Length
      requires MaySend(cfg, cfg.Slot(caller), cfg.Slot(dest)) ==> 0 <= cfg.Slot(dest) < proc.Length
      requires Runnable(Abs(), cfg.Slot(caller))
      modifies this, proc, mem, frames, nextready, callerq, sendlink, rdyHead, rdyTail
      ensures Valid() && ReadyInTable(old(Abs()))
      ensures n == CheckedCode(old(Abs()), cfg.Slot(caller), cfg.Slot(dest), mPtr)
      ensures n != OK ==> Abs() == SetCode(old(Abs()), cfg.Slot(caller), n)
      ensures n == OK ==>
        var t := CheckedSend(old(Abs()), cfg.Slot(caller), cfg.Slot(dest), mPtr);
        Abs() == if func == SEND then SetCode(t, cfg.Slot(caller), n) else t
      ensures n == OK && Receives(func) && Sends(func) ==>
        Abs() == FirstHalf(old(Abs()), func, cfg.Slot(caller), dest, mPtr)
    {
      var rp := cfg.Slot(caller);
      n := CheckedMiniSend(caller, dest, mPtr);
      if func == SEND || n != OK {
        SetReg(rp, n);
      }
    }

    method Perform(func: nat, caller: int, srcDest: int, mPtr: int)
      requires Valid() && Queued(Abs())
      requires 0 <= cfg.Slot(caller) < proc.Length && Runnable(Abs(), cfg.Slot(caller))
      requires CallOk(Abs(), func, cfg.Slot(caller), srcDest, mPtr)
      requires !BadSource(cfg, srcDest) && (func != BOTH ==> caller < cfg.low)
      modifies this, proc, mem, frames, nextready, callerq, sendlink, rdyHead, rdyTail
      ensures Valid()
      ensures Abs() == MinixKernel.SysCall(old(Abs()), func, cfg.Slot(caller), srcDest, mPtr)
    {
      ghost var s, c := Abs(), cfg.Slot(caller);
      assert Sends(func) && MaySend(cfg, c, cfg.Slot(srcDest)) ==> 0 <= cfg.Slot(srcDest) < proc.Length;
      if Sends(func) {
        var n := SendHalf(func, caller, srcDest, mPtr);
        if n != OK {
          return;
        }
      }
      assert Refusal(s, func, c, srcDest, mPtr) == OK;
      if Receives(func) {
        CallSent(s, func, c, srcDest, mPtr);
        RecHalf(caller, srcDest, mPtr, FirstHalf(s, func, c, srcDest, mPtr));
      }
    }

    // sys_call(): SEND, RECEIVE or both, with the code in the caller's register.
    method SysCall(func: nat, caller: int, srcDest: int, mPtr: int)
      requires Valid() && Queued(Abs())
      requires 0 <= cfg.Slot(caller) < proc.Length && Runnable(Abs(), cfg.Slot(caller))
      requires CallOk(Abs(), func, cfg.Slot(caller), srcDest, mPtr)
      modifies this, proc, mem, frames, nextready, callerq, sendlink, rdyHead, rdyTail
      ensures Valid()
      ensures Abs() == MinixKernel.SysCall(old(Abs()), func, cfg.Slot(caller), srcDest, mPtr)
    {
      var rp := cfg.Slot(caller);
      if BadSource(cfg, srcDest) {
        SetReg(rp, E_BAD_SRC);
        return;
      }
      if func != BOTH && caller >= cfg.low {
        SetReg(rp, E_NO_PERM);
        return;
      }
      Perform(func, caller, srcDest, mPtr);
    }

    method RecHalf(caller: int, src: int, mPtr: int, ghost s: State)
      requires Valid() && Queued(s) && Abs() == s && 0 <= cfg.Slot(caller) < proc.Length && IsBuffer(mem[..], mPtr)
      modifies this, proc, mem, frames, nextready, callerq, sendlink, rdyHead, rdyTail
      ensures Valid() && ReadyInTable(old(Abs())) && CallersInTable(old(Abs()))
      ensures Abs() == SetCode(Receive(old(Abs()), cfg.Slot(caller), src, mPtr), cfg.Slot(caller), OK)
    {
      var n := MiniRec(caller, src, mPtr);
      SetReg(cfg.Slot(caller), n);
    }

    // sched(): the running user goes to the back of the user queue.
    method SchedUsers()
      requires Valid()
      modifies this`ready, this`procPtr, this`curProc, this`prevProc, nextready, rdyHead, rdyTail
      ensures Valid() && ReadyInTable(old(Abs())) && Abs() == MinixKernel.SchedUsers(old(Abs()))
    {
      ReadyTables();
      HeadOf(USER_Q);
      if rdyHead[USER_Q] == NIL {
        return;
      }
      RotateUsers();
      PickProc();
    }

    method RotateUsers()
      requires Valid() && ready[USER_Q] != []
      modifies this`ready, nextready, rdyHead, rdyTail
      ensures Valid() && Abs() == old(Abs()).(ready := old(ready)[USER_Q := Rotate(old(ready)[USER_Q])])
    {
      HeadOf(USER_Q);
      ReadyLinksRotate(cfg, nextready[..], rdyHead[..], rdyTail[..], ready, USER_Q);
      ghost var h, next0 := rdyHead[USER_Q], nextready[..];
      nextready[rdyTail[USER_Q]] := rdyHead[USER_Q];
      rdyTail[USER_Q] := rdyHead[USER_Q];
      rdyHead[USER_Q] := nextready[rdyHead[USER_Q]];
      nextready[rdyTail[USER_Q]] := NIL;
      ready := ready[USER_Q := Rotate(ready[USER_Q])];
      assert nextready[..] == next0[old(rdyTail[USER_Q]) := h][h := NIL];
    }

    // The inner loop of do_xit(): find the sender linked to rc.
    method FindSenderBefore(rc: int, first: int, ghost list: seq<int>) returns (np: int, ghost i: nat)
      requires Linked(sendlink, list) && list != [] && list[0] == first && first != rc && rc != NIL
      ensures np == NIL ==> rc !in list
      ensures np != NIL ==> 0 < i < |list| && np == list[i - 1] && list[i] == rc
    {
      np := first;
      i := 1;
      var xp := sendlink[np];
      while xp != NIL
        invariant 0 < i <= |list| && np == list[i - 1] && xp == (if i < |list| then list[i] else NIL)
        invariant rc !in list[..i]
        decreases |list| - i
      {
        if xp == rc {
          return;
        }
        assert list[..i + 1] == list[..i] + [list[i]];
        np := xp;
        i := i + 1;
        xp := sendlink[np];
      }
      assert list[..i] == list;
      np := NIL;
    }

    // One turn of its outer loop: take rc off the queue of rp, if it is there.
    // At the front of a queue the search stops.
    method PurgeQueue(rp: int, rc: int) returns (front: bool)
      requires callerq != sendlink && CallerLinks(sendlink[..], callerq[..], callers, sendto)
      requires 0 <= rp < callerq.Length && 0 <= rc < sendlink.Length
      modifies this`callers, callerq, sendlink
      ensures CallerLinks(sendlink[..], callerq[..], callers, sendto)
      ensures callers == old(callers)[rp := Remove(old(callers)[rp], rc)]
      ensures front ==> rc in old(callers)[rp]
    {
      ghost var list := callers[rp];
      assert CallerList(sendlink[..], callerq[..][rp], list, sendto, rp);
      assert Linked(sendlink, list) by {
        assert forall k :: 0 <= k < |list| ==> sendlink[..][list[k]] == After(list, k);
      }
      if callerq[rp] == NIL {
        assert Remove(list, rc) == list;
        return false;
      }
      front := callerq[rp] == rc;
      if front {
        BypassSender(rp, rc, NIL, 0);
        callers := callers[rp := RemoveAt(list, 0)];
      } else {
        ghost var i;
        var np;
        np, i := FindSenderBefore(rc, callerq[rp], list);
        if np != NIL {
          IndexUnique(list, i);
          BypassSender(rp, rc, np, i);
          callers := callers[rp := RemoveAt(list, i)];
        }
      }
    }

    // The search of do_xit() over all slots.
    method PurgeCallers(rc: int)
      requires callerq != sendlink && CallerLinks(sendlink[..], callerq[..], callers, sendto)
      requires 0 <= rc < sendlink.Length && 0 <= sendto[rc] < |callers|
      modifies this`callers, callerq, sendlink
      ensures CallerLinks(sendlink[..], callerq[..], callers, sendto)
      ensures callers == old(callers)[sendto[rc] := Remove(old(callers)[sendto[rc]], rc)]
    {
      ghost var d := sendto[rc];
      ghost var done := callers[d := Remove(callers[d], rc)];
      var rp := 0;
      while rp < callerq.Length
        invariant 0 <= rp <= callerq.Length
        invariant CallerLinks(sendlink[..], callerq[..], callers, sendto)
        invariant callers == if d < rp then done else old(callers)
      {
        NotOnOther(rp, rc);
        var front := PurgeQueue(rp, rc);
        if front {
          break;
        }
        rp := rp + 1;
      }
    }

    lemma NotOnOther(rp: int, rc: int)
      requires CallerLinks(sendlink[..], callerq[..], callers, sendto)
      requires 0 <= rp < callerq.Length && 0 <= rc < sendlink.Length
      ensures rp != sendto[rc] ==> rc !in callers[rp] && callers[rp := Remove(callers[rp], rc)] == callers
    {
      assert CallerList(sendlink[..], callerq[..][rp], callers[rp], sendto, rp);
    }

    // After unready(): off the sender queue, and the slot is free.
    method Vacate(rc: int)
      requires Valid() && 0 <= rc < proc.Length
      requires proc[rc].flags.sending ==> 0 <= sendto[rc] < |callers|
      modifies this`callers, proc, callerq, sendlink
      ensures Valid()
      ensures var d := sendto[rc];
        Abs() == old(Abs()).(
          callers :=
            if old(proc[rc]).flags.sending then old(callers)[d := Remove(old(callers)[d], rc)] else old(callers),
          procs := old(proc[..])[rc := old(proc[rc]).(flags := Flags(true, false, false))])
    {
      if proc[rc].flags.sending {
        PurgeCallers(rc);
      }
      proc[rc] := proc[rc].(flags := Flags(true, false, false));
    }

    // do_xit(): the process leaves every queue and its slot becomes free.
    method DoXit(parent: int, procNr: int) returns (r: int)
      requires Valid() && Queued(Abs())
      modifies this, proc, nextready, callerq, sendlink, rdyHead, rdyTail
      ensures Valid()
      ensures if parent < 0 || parent >= cfg.procs || procNr < 0 || procNr >= cfg.procs
              then r == E_BAD_PROC && Abs() == old(Abs())
              else r == OK && Abs() == Kill(old(Abs()), cfg.Slot(procNr))
    {
      if parent < 0 || parent >= cfg.procs || procNr < 0 || procNr >= cfg.procs {
        return E_BAD_PROC;
      }
      var rc := cfg.Slot(procNr);
      Unready(rc);
      Vacate(rc);
      return OK;
    }

    // kmain(): the three kernel tasks are started in turn and the first runs.
    static method Kmain(tickBuf: nat, words: nat) returns (k: ProcTable)
      requires tickBuf + MESS_WORDS <= words
      ensures fresh(k) && k.Valid() && k.Abs() == Boot(k.mem[..], tickBuf) && Good(k.Abs())
    {
      k := new ProcTable(Port(tickBuf), words);
      assert k.Abs() == Blank(k.mem[..], tickBuf);
      BootSteps(k.mem[..], tickBuf);
      BootIsGood(k.mem[..], tickBuf);
      k.StartTask(0);
      k.StartTask(1);
      k.StartTask(2);
      k.PickProc();
    }
  }
}
