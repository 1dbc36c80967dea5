// The clock task.  Interrupts that find it busy are counted and made up for;
// alarms go off in time although the table is searched only now and then.

module ClockTicks {
  // Where the clock task is.  A tick that was delivered counts one more than
  // the ticks missed before it; t holds their number while they are made up.
  datatype Point =
    | Waiting
    | Ticked
    | Copied(t: nat)
    | Added(t: nat)
    | Settled
    | Serving

  datatype Clock = Clock(at: Point, realtime: nat, lostTicks: nat)

  // A clock interrupt; the next statement of do_clocktick(); a request from a
  // process, and the reply to it.
  datatype Event = Interrupt | Statement | Request | Reply

  function Step(c: Clock, e: Event): Clock {
    match e
    case Interrupt =>
      // The message goes to a task that waits for one.
      if c.at == Waiting then c.(at := Ticked) else c.(lostTicks := c.lostTicks + 1)
    case Statement =>
      (match c.at
       case Ticked => c.(at := Copied(c.lostTicks))
       case Copied(t) => c.(at := Added(t), realtime := c.realtime + t + 1)
       case Added(t) => if t <= c.lostTicks then c.(at := Settled, lostTicks := c.lostTicks - t) else c
       case Settled => c.(at := Waiting)
       case _ => c)
    case Request => if c.at == Waiting then c.(at := Serving) else c
    case Reply => if c.at == Serving then c.(at := Waiting) else c
  }

  function Run(c: Clock, es: seq<Event>): Clock
    decreases |es|
  {
    if es == [] then c else Step(Run(c, es[..|es| - 1]), es[|es| - 1])
  }

  function Interrupts(es: seq<Event>): nat
    decreases |es|
  {
    if es == [] then 0 else Interrupts(es[..|es| - 1]) + if es[|es| - 1] == Interrupt then 1 else 0
  }

  const BOOT := Clock(Waiting, 0, 0)

  // Ticks that are neither in the time nor missed, less those that are both.
  function Owed(at: Point): int {
    match at
    case Ticked => 1
    case Copied(_) => 1
    case Added(t) => 0 - t as int
    case _ => 0
  }

  // No tick is lost and none counted twice, wherever the interrupts fall; the
  // missed ones never fall below the number about to be subtracted.
  lemma {:induction false} EveryTickCounts(es: seq<Event>)
    ensures var c := Run(BOOT, es);
      && c.realtime + c.lostTicks + Owed(c.at) == Interrupts(es)
      && (c.at.Copied? || c.at.Added? ==> c.at.t <= c.lostTicks)
    decreases |es|
  {
    if es != [] {
      EveryTickCounts(es[..|es| - 1]);
    }
  }

  // Left alone, the task makes the time right in four statements.
  lemma TimeCatchesUp(es: seq<Event>)
    requires Run(BOOT, es).at == Ticked
    ensures var c := Run(BOOT, es + [Statement, Statement, Statement, Statement]);
      c.at == Waiting && c.lostTicks == 0 && c.realtime == Interrupts(es)
  {
    EveryTickCounts(es);
    var s := [Statement, Statement, Statement, Statement];
    assert (es + s)[..|es| + 3] == es + s[..3];
    assert (es + s[..3])[..|es| + 2] == es + s[..2];
    assert (es + s[..2])[..|es| + 1] == es + s[..1];
    assert (es + s[..1])[..|es|] == es;
    var c := Run(BOOT, es);
    assert Run(BOOT, es + s[..1]) == Step(c, Statement);
    assert Run(BOOT, es + s[..2]) == Step(Step(c, Statement), Statement);
    assert Run(BOOT, es + s[..3]) == Step(Step(Step(c, Statement), Statement), Statement);
  }
}

module ClockAlarms {
  const MAX_P_LONG := 0x7FFFFFFF

  // Ticks per second.
  const HZ := 60

  // No alarm.
  const NONE := 0

  class Alarms {
    var realtime: nat
    var nextAlarm: int
    const alarm: array<int>
    // The slots whose alarms have gone off, in order.
    ghost var fired: seq<int>

    // The next alarm is not after any that is set.
    ghost predicate Valid()
      reads this, alarm
    {
      forall p :: 0 <= p < alarm.Length && alarm[p] != NONE ==> nextAlarm <= alarm[p]
    }

    // Alarm p is due.
    ghost predicate Due(p: int)
      requires 0 <= p < alarm.Length
      reads this, alarm
    {
      alarm[p] != NONE && alarm[p] <= realtime
    }

    constructor (procs: nat)
      ensures Valid() && alarm.Length == procs && realtime == 0 && fired == []
    {
      realtime := 0;
      nextAlarm := MAX_P_LONG;
      alarm := new int[procs](_ => NONE);
      fired := [];
    }

    // The smallest alarm set among the first n, in slot w, or else the largest
    // time there is.
    ghost predicate Earliest(next: int, n: int, w: int)
      requires 0 <= n <= alarm.Length
      reads this, alarm
    {
      && next <= MAX_P_LONG
      && (forall p :: 0 <= p < n && alarm[p] != NONE ==> next <= alarm[p])
      && (next == MAX_P_LONG || (0 <= w < n && alarm[w] == next != NONE))
    }

    // do_setalarm(); the reply says how many seconds were left of the last one.
    method SetAlarm(p: nat, deltaTicks: int) returns (secondsLeft: int)
      requires p < alarm.Length
      modifies this`nextAlarm, alarm
      ensures Valid() && exists w :: Earliest(nextAlarm, alarm.Length, w)
      ensures alarm[..] == old(alarm[..])[p := if deltaTicks == 0 then NONE else realtime + deltaTicks]
      ensures old(alarm[p]) == NONE ==> secondsLeft == 0
      ensures old(alarm[p]) >= realtime && old(alarm[p]) != NONE ==>
        0 <= old(alarm[p]) - realtime - secondsLeft * HZ < HZ
      ensures old(alarm[p]) <= realtime && old(alarm[p]) != NONE ==>
        0 <= realtime + secondsLeft * HZ - old(alarm[p]) < HZ
    {
      // Division truncates toward zero.
      var left := alarm[p] - realtime;
      secondsLeft := if alarm[p] == NONE then 0 else if left >= 0 then left / HZ else -(-left / HZ);
      alarm[p] := if deltaTicks == 0 then NONE else realtime + deltaTicks;
      nextAlarm := MAX_P_LONG;
      var rp := 0;
      ghost var w, now := 0, alarm[..];
      while rp < alarm.Length
        invariant 0 <= rp <= alarm.Length && Earliest(nextAlarm, rp, w) && alarm[..] == now
      {
        if alarm[rp] != NONE && alarm[rp] < nextAlarm {
          nextAlarm := alarm[rp];
          w := rp;
        }
        rp := rp + 1;
      }
    }

    // do_xit() turns the alarm of a process off.
    method TurnOff(p: nat)
      requires Valid() && p < alarm.Length
      modifies alarm
      ensures Valid() && alarm[..] == old(alarm[..])[p := NONE]
    {
      alarm[p] := NONE;
    }

    // do_clocktick(): the alarms that are due go off, once each and in table
    // order, and afterwards none is due.
    method ClockTick(missed: nat)
      requires Valid()
      modifies this, alarm
      ensures Valid() && realtime == old(realtime) + missed + 1
      ensures forall p :: 0 <= p < alarm.Length ==> !Due(p)
      ensures forall p :: 0 <= p < alarm.Length ==>
        alarm[p] == if old(alarm[p]) <= realtime then NONE else old(alarm[p])
      ensures fired == old(fired) + GoneOff(old(alarm[..]), realtime)
    {
      hide GoneOff;
      realtime := realtime + missed + 1;
      if nextAlarm <= realtime {
        GoneOffNone(old(alarm[..]), realtime);
        nextAlarm := MAX_P_LONG;
        var rp := 0;
        ghost var w := 0;
        while rp < alarm.Length
          invariant 0 <= rp <= alarm.Length && Earliest(nextAlarm, rp, w) && realtime == old(realtime) + missed + 1
          invariant forall p :: 0 <= p < rp ==> alarm[p] == if old(alarm[p]) <= realtime then NONE else old(alarm[p])
          invariant forall p :: rp <= p < alarm.Length ==> alarm[p] == old(alarm[p])
          invariant fired == old(fired) + GoneOff(old(alarm[..])[..rp], realtime)
        {
          GoneOffNext(old(alarm[..]), realtime, rp);
          if alarm[rp] != NONE {
            if alarm[rp] <= realtime {
              fired := fired + [rp];
              alarm[rp] := NONE;
            }
            if alarm[rp] != NONE && alarm[rp] < nextAlarm {
              nextAlarm := alarm[rp];
              w := rp;
            }
          }
          rp := rp + 1;
        }
        assert old(alarm[..])[..alarm.Length] == old(alarm[..]);
      } else {
        NoneDue(alarm[..], realtime);
      }
    }
  }

  // The slots whose alarms are due, in table order.
  function GoneOff(alarm: seq<int>, now: int): seq<int> {
    if alarm == [] then []
    else
      var n := |alarm| - 1;
      GoneOff(alarm[..n], now) + if alarm[n] != NONE && alarm[n] <= now then [n] else []
  }

  lemma GoneOffNone(alarm: seq<int>, now: int)
    ensures GoneOff(alarm[..0], now) == []
  {}

  lemma GoneOffNext(alarm: seq<int>, now: int, n: nat)
    requires n < |alarm|
    ensures GoneOff(alarm[..n + 1], now) == GoneOff(alarm[..n], now) +
      if alarm[n] != NONE && alarm[n] <= now then [n] else []
  {
    assert alarm[..n + 1][..n] == alarm[..n];
  }

  lemma {:induction false} GoneOffIff(alarm: seq<int>, now: int, p: int)
    ensures p in GoneOff(alarm, now) <==> 0 <= p < |alarm| && alarm[p] != NONE && alarm[p] <= now
    decreases |alarm|
  {
    if alarm != [] {
      GoneOffIff(alarm[..|alarm| - 1], now, p);
    }
  }

  // A slot goes off at most once.
  lemma {:induction false} GoneOffOnce(alarm: seq<int>, now: int)
    ensures forall i, j :: 0 <= i < j < |GoneOff(alarm, now)| ==> GoneOff(alarm, now)[i] < GoneOff(alarm, now)[j]
    ensures forall i :: 0 <= i < |GoneOff(alarm, now)| ==> GoneOff(alarm, now)[i] < |alarm|
    decreases |alarm|
  {
    if alarm != [] {
      GoneOffOnce(alarm[..|alarm| - 1], now);
    }
  }

  lemma {:induction false} NoneDue(alarm: seq<int>, now: int)
    requires forall p :: 0 <= p < |alarm| && alarm[p] != NONE ==> now < alarm[p]
    ensures GoneOff(alarm, now) == []
    decreases |alarm|
  {
    if alarm != [] {
      NoneDue(alarm[..|alarm| - 1], now);
    }
  }
}
