// interrupt() over the process table.

module InterruptTable {
  import opened Basics
  import opened Links
  import opened Rendezvous
  import opened RendezvousInvariants
  import opened MinixKernel
  import opened ProcTable
  import opened Interrupts

  class Controller {
    const table: ProcTable
    const taskMess: array<int>
    var busyMap: set<int>
    var lostTicks: nat
    ghost var log: seq<Act>

    ghost function Abs(): Machine
      reads this, taskMess, table, table.proc, table.mem, table.frames
    {
      Machine(table.Abs(), busyMap, taskMess[..], lostTicks, log)
    }

    ghost function Repr(): set<object> {
      {table, table.proc, table.mem, table.frames, table.nextready, table.callerq, table.sendlink, table.rdyHead,
        table.rdyTail}
    }

    // cur_proc names the process that proc_ptr points at.
    ghost predicate Named()
      reads table
    {
      table.curProc == if table.procPtr == table.cfg.Hardware() then IDLE else table.cfg.Pid(table.procPtr)
    }

    ghost predicate Valid()
      reads this, taskMess, Repr()
    {
      && {this, taskMess} !! Repr() && taskMess != table.mem
      && table.Valid() && Named() && Wired(Abs())
    }

    constructor (table: ProcTable)
      requires table.Valid() && Sound(table.Abs()) && Device(table.cfg, table.cfg.clock)
      requires table.curProc == if table.procPtr == table.cfg.Hardware() then IDLE else table.cfg.Pid(table.procPtr)
      ensures Valid() && this.table == table && Abs() == Quiet(table.Abs())
    {
      this.table := table;
      taskMess := new int[table.cfg.tasks + 1](_ => 0);
      busyMap, lostTicks, log := {}, 0, [];
      new;
      assert taskMess[..] == seq(table.cfg.tasks + 1, i => 0);
      QuietIsWired(table.Abs());
    }

    // mini_send(HARDWARE, ...): did the task take the message?
    method Send(task: int, mPtr: int) returns (ok: bool)
      requires Valid() && Device(table.cfg, task) && IsBuffer(table.mem[..], mPtr)
      modifies Repr(), this`log
      ensures Valid() && ok == Takes(old(table.Abs()), task)
      ensures busyMap == old(busyMap)
      ensures ok ==> Abs().(busy := busyMap - {-task}) == Tell(old(Abs()), task, mPtr)
      ensures !ok ==> Abs() == old(Abs())
    {
      ghost var m := Abs();
      var n := table.MiniSend(HARDWARE, task, mPtr);
      ok := n == OK;
      if ok {
        TellKeeps(m, task, mPtr);
        log := log + [Told(task, mPtr)];
      }
    }

    // Is there a message kept for a task that waits for one?
    method RetryOne(i: int)
      requires Valid() && i in busyMap
      modifies Repr(), this`log, this`busyMap
      ensures Valid() && Abs() == Again(old(Abs()), i)
    {
      hide Wired, Takes;
      BusyTask(Abs(), i);
      AgainKeeps(Abs(), i, true);
      var ok := Send(-i, taskMess[i]);
      if ok {
        busyMap := busyMap - {i};
      }
    }

    // The loop over the tasks that were busy before.
    method RetryAll(oldMap: set<int>)
      requires Valid() && StillOn(Abs(), oldMap, 2)
      modifies Repr(), this`log, this`busyMap
      ensures Valid() && Abs() == Retry(old(Abs()), oldMap, 2)
    {
      var i := 2;
      while i <= table.cfg.tasks
        invariant 2 <= i <= table.cfg.tasks + 1 && Valid() && StillOn(Abs(), oldMap, i)
        invariant Retry(Abs(), oldMap, i) == Retry(old(Abs()), oldMap, 2)
      {
        ghost var m := Abs();
        AgainKeeps(m, i, i in oldMap);
        if i in oldMap {
          RetryOne(i);
        }
        i := i + 1;
      }
    }

    // interrupt()
    method Interrupt(task: int, mPtr: int)
      requires Valid() && Device(table.cfg, task) && IsBuffer(table.mem[..], mPtr)
      modifies Repr(), this, taskMess
      ensures Valid() && Abs() == Interrupts.Interrupt(old(Abs()), task, mPtr)
    {
      hide Wired, Retry, Try, Preempt, Again, Tell;
      ghost var m := Abs();
      TryKeeps(m, task, mPtr);
      RetryNone(Try(m, task, mPtr), 2);
      var oldMap := Attempt(task, mPtr);
      if oldMap != {} {
        RetryAll(oldMap);
      }
      RunTask();
    }

    // If a task is ready and a user or a server is running, run the task.
    method RunTask()
      requires Valid()
      modifies table`procPtr, table`curProc, table`prevProc
      ensures Valid() && ReadyInTable(old(table.Abs())) && Abs() == old(Abs()).(s := Preempt(old(table.Abs())))
    {
      PreemptKeeps(table.Abs());
      assert ReadyList(table.cfg, table.nextready[..], table.rdyHead[..][TASK_Q], table.rdyTail[..][TASK_Q],
        table.ready[TASK_Q], TASK_Q);
      if table.rdyHead[TASK_Q] != NIL && (table.curProc >= 0 || table.curProc == IDLE) {
        table.PickProc();
      }
    }

    // The message of the interrupt; the map of those busy before.
    method Attempt(task: int, mPtr: int) returns (oldMap: set<int>)
      requires Valid() && Device(table.cfg, task) && IsBuffer(table.mem[..], mPtr)
      modifies Repr(), this, taskMess
      ensures Valid() && Abs() == Try(old(Abs()), task, mPtr)
      ensures oldMap == if Takes(old(table.Abs()), task) then busyMap else old(busyMap)
    {
      hide Wired, Takes;
      MessAt(Abs(), task);
      TryKeeps(Abs(), task, mPtr);
      Noted(Abs(), Raised(task, mPtr));
      log := log + [Raised(task, mPtr)];
      var ok := Send(task, mPtr);
      if !ok {
        oldMap := busyMap;
        if task == table.cfg.clock {
          lostTicks := lostTicks + 1;
        } else {
          busyMap := busyMap + {-task};
          taskMess[-task] := mPtr;
        }
      } else {
        busyMap := busyMap - {-task};
        oldMap := busyMap;
      }
    }
  }
}
