/**
 The turn-driven scheduler of the guest library (rusty-corelib/src/async_rt.rs:129-242):
 what one tick polls and keeps although finished tasks are removed by moving the last
 one into their place.
 */
module Scheduler {
  import opened Common

  /** What polling a task gives. */
  datatype Poll = Pending | Done | Failed(error: int)

  /** A task in its slot. Tasks are told apart by the order they were spawned in. */
  datatype Slot = Slot(handle: u32, task: nat)

  datatype TaskResult = NoTurnAdvance | PendingTasks(count: nat) | CompletedAll

  function HandleOf(task: nat): u32 {
    (1 + task) % 0x1_0000_0000
  }

  function SwapRemove<T>(s: seq<T>, i: nat): seq<T>
    requires i < |s|
  {
    if i == |s| - 1 then s[..i] else s[..i] + [s[|s| - 1]] + s[i + 1..|s| - 1]
  }

  ghost predicate DistinctTasks(slots: seq<Slot>) {
    forall i, j :: 0 <= i < j < |slots| ==> slots[i].task != slots[j].task
  }

  ghost function TasksOf(slots: seq<Slot>): set<nat> {
    set i | 0 <= i < |slots| :: slots[i].task
  }

  // ---- One tick ----

  /** In the middle of a tick: the slots before idx have been polled and are pending, those
      from idx on have not been polled; all others that were polled are done. */
  ghost predicate Polling(answer: nat -> Poll, before: set<nat>, slots: seq<Slot>, idx: nat, polled: seq<nat>) {
    && idx <= |slots| && DistinctTasks(slots) && Distinct(polled)
    && (forall i :: 0 <= i < idx ==> slots[i].task in polled && answer(slots[i].task) == Pending)
    && (forall i :: idx <= i < |slots| ==> slots[i].task !in polled && slots[i].task in before)
    && (forall t :: t in before <==> t in polled || t in TasksOf(slots[idx..]))
    && (forall t :: t in polled && t !in TasksOf(slots[..idx]) ==> answer(t) == Done)
  }

  lemma StartPolling(answer: nat -> Poll, slots: seq<Slot>)
    requires DistinctTasks(slots)
    ensures Polling(answer, TasksOf(slots), slots, 0, [])
  {
    assert slots[0..] == slots;
  }

  lemma FirstOfRest(slots: seq<Slot>, idx: nat)
    requires idx < |slots|
    ensures TasksOf(slots[idx..]) == {slots[idx].task} + TasksOf(slots[idx + 1..])
    ensures TasksOf(slots[..idx + 1]) == TasksOf(slots[..idx]) + {slots[idx].task}
  {
    var rest := slots[idx..];
    forall t | t in TasksOf(rest)
      ensures t in {slots[idx].task} + TasksOf(slots[idx + 1..])
    {
      var i :| 0 <= i < |rest| && rest[i].task == t;
      assert i > 0 ==> slots[idx + 1..][i - 1] == rest[i];
    }
    forall t | t in TasksOf(slots[idx + 1..])
      ensures t in TasksOf(rest)
    {
      var i :| 0 <= i < |slots[idx + 1..]| && slots[idx + 1..][i].task == t;
      assert rest[i + 1].task == t;
    }
    assert rest[0].task in TasksOf(rest);
    TakeOneMore(slots, idx);
    forall t | t in TasksOf(slots[..idx])
      ensures t in TasksOf(slots[..idx + 1])
    {
      var i :| 0 <= i < idx && slots[..idx][i].task == t;
      assert slots[..idx + 1][i].task == t;
    }
    assert slots[..idx + 1][idx].task == slots[idx].task;
  }

  /** Removing slot idx moves the last slot there, if there is another. */
  lemma RestAfterRemoval(slots: seq<Slot>, idx: nat)
    requires idx < |slots|
    ensures var after := SwapRemove(slots, idx);
            && |after| == |slots| - 1 && after[..idx] == slots[..idx]
            && TasksOf(after[idx..]) == TasksOf(slots[idx + 1..])
            && forall i :: idx <= i < |after| ==> exists j :: idx < j < |slots| && after[i] == slots[j]
  {
    var after := SwapRemove(slots, idx);
    var n := |slots| - 1;
    forall t | t in TasksOf(slots[idx + 1..])
      ensures t in TasksOf(after[idx..])
    {
      var i :| 0 <= i < |slots[idx + 1..]| && slots[idx + 1..][i].task == t;
      var j := idx + 1 + i;
      if j == n {
        assert after[idx..][0].task == t;
      } else {
        assert after[idx..][j - idx].task == t;
      }
    }
    forall i | idx <= i < |after|
      ensures exists j :: idx < j < |slots| && after[i] == slots[j]
    {
      assert after[i] == slots[if i == idx then n else i];
    }
    forall t | t in TasksOf(after[idx..])
      ensures t in TasksOf(slots[idx + 1..])
    {
      var i :| 0 <= i < |after[idx..]| && after[idx..][i].task == t;
      var j :| idx < j < |slots| && after[idx + i] == slots[j];
      assert slots[idx + 1..][j - idx - 1] == slots[j];
    }
  }

  lemma RemovalKeepsDistinct(slots: seq<Slot>, idx: nat)
    requires idx < |slots| && DistinctTasks(slots)
    ensures DistinctTasks(SwapRemove(slots, idx))
  {
  }

  lemma PolledPending(answer: nat -> Poll, before: set<nat>, slots: seq<Slot>, idx: nat, polled: seq<nat>)
    requires Polling(answer, before, slots, idx, polled) && idx < |slots| && answer(slots[idx].task) == Pending
    ensures Polling(answer, before, slots, idx + 1, polled + [slots[idx].task])
  {
    FirstOfRest(slots, idx);
    NotLater(slots, idx);
  }

  lemma NotLater(slots: seq<Slot>, idx: nat)
    requires idx < |slots| && DistinctTasks(slots)
    ensures slots[idx].task !in TasksOf(slots[idx + 1..]) && slots[idx].task !in TasksOf(slots[..idx])
  {
  }

  lemma PolledDone(answer: nat -> Poll, before: set<nat>, slots: seq<Slot>, idx: nat, polled: seq<nat>)
    requires Polling(answer, before, slots, idx, polled) && idx < |slots| && answer(slots[idx].task) == Done
    ensures Polling(answer, before, SwapRemove(slots, idx), idx, polled + [slots[idx].task])
  {
    FirstOfRest(slots, idx);
    NotLater(slots, idx);
    RestAfterRemoval(slots, idx);
    RemovalKeepsDistinct(slots, idx);
    var after := SwapRemove(slots, idx);
    forall i | 0 <= i < idx
      ensures after[i] == slots[i]
    {
      assert after[..idx][i] == slots[..idx][i];
    }
    forall i | idx <= i < |after|
      ensures after[i].task !in polled + [slots[idx].task] && after[i].task in before
    {
      var j :| idx < j < |slots| && after[i] == slots[j];
    }
  }

  /** What a tick that got through did: every task present at its start was polled once,
      and exactly the pending ones are left. */
  ghost predicate PolledAll(answer: nat -> Poll, before: seq<Slot>, after: seq<Slot>, polled: seq<nat>) {
    && DistinctTasks(after) && Distinct(polled)
    && (forall t :: t in polled <==> t in TasksOf(before))
    && (forall t :: t in TasksOf(after) <==> t in TasksOf(before) && answer(t) == Pending)
    && (forall t :: t in TasksOf(before) ==> !answer(t).Failed?)
  }

  /** What a tick that met an error did: it removed the failed task and those done before
      it, and left the others, among them all that it did not come to. */
  ghost predicate StoppedAt(answer: nat -> Poll, before: seq<Slot>, after: seq<Slot>, polled: seq<nat>, error: int) {
    && DistinctTasks(after) && Distinct(polled) && polled != []
    && answer(polled[|polled| - 1]) == Failed(error)
    && (forall i :: 0 <= i < |polled| - 1 ==> !answer(polled[i]).Failed?)
    && (forall t :: t in polled ==> t in TasksOf(before))
    && (forall t :: t in TasksOf(after) <==> t in TasksOf(before) && (t in polled ==> answer(t) == Pending))
  }

  lemma AllPolled(answer: nat -> Poll, before: seq<Slot>, slots: seq<Slot>, polled: seq<nat>)
    requires Polling(answer, TasksOf(before), slots, |slots|, polled)
    ensures PolledAll(answer, before, slots, polled)
  {
    assert slots[..|slots|] == slots && slots[|slots|..] == [];
    forall t | t in TasksOf(slots)
      ensures t in TasksOf(before) && answer(t) == Pending
    {
      var i :| 0 <= i < |slots| && slots[i].task == t;
    }
  }

  lemma FailureStops(answer: nat -> Poll, before: seq<Slot>, slots: seq<Slot>, idx: nat, polled: seq<nat>, error: int)
    requires Polling(answer, TasksOf(before), slots, idx, polled) && idx < |slots| && answer(slots[idx].task) == Failed(error)
    ensures StoppedAt(answer, before, SwapRemove(slots, idx), polled + [slots[idx].task], error)
  {
    FirstOfRest(slots, idx);
    NotLater(slots, idx);
    RestAfterRemoval(slots, idx);
    RemovalKeepsDistinct(slots, idx);
    var after, more := SwapRemove(slots, idx), polled + [slots[idx].task];
    WholeIsParts(after, idx);
    forall i | 0 <= i < |polled|
      ensures !answer(polled[i]).Failed?
    {
      if polled[i] in TasksOf(slots[..idx]) {
        var j :| 0 <= j < idx && slots[..idx][j].task == polled[i];
      }
    }
    forall t | t in TasksOf(slots[..idx])
      ensures t in polled && answer(t) == Pending
    {
      var j :| 0 <= j < idx && slots[..idx][j].task == t;
    }
    forall t | t in TasksOf(slots[idx + 1..])
      ensures t in TasksOf(before) && t !in more
    {
      var j :| 0 <= j < |slots[idx + 1..]| && slots[idx + 1..][j].task == t;
      assert slots[idx + 1 + j].task == t;
    }
  }

  lemma WholeIsParts(slots: seq<Slot>, idx: nat)
    requires idx <= |slots|
    ensures TasksOf(slots) == TasksOf(slots[..idx]) + TasksOf(slots[idx..])
  {
    forall t | t in TasksOf(slots)
      ensures t in TasksOf(slots[..idx]) + TasksOf(slots[idx..])
    {
      var i :| 0 <= i < |slots| && slots[i].task == t;
      if i < idx {
        assert slots[..idx][i].task == t;
      } else {
        assert slots[idx..][i - idx].task == t;
      }
    }
    forall t | t in TasksOf(slots[..idx]) || t in TasksOf(slots[idx..])
      ensures t in TasksOf(slots)
    {
      if t in TasksOf(slots[..idx]) {
        var i :| 0 <= i < idx && slots[..idx][i].task == t;
        assert slots[i].task == t;
      } else {
        var i :| 0 <= i < |slots| - idx && slots[idx..][i].task == t;
        assert slots[idx + i].task == t;
      }
    }
  }

  // ---- Handles ----

  /** The slots hold tasks spawned so far, each under its handle. */
  ghost predicate SlotsOk(slots: seq<Slot>, spawned: nat) {
    DistinctTasks(slots) && forall i :: 0 <= i < |slots| ==> slots[i].task < spawned && slots[i].handle == HandleOf(slots[i].task)
  }

  ghost predicate HasHandle(slots: seq<Slot>, handle: u32) {
    exists i :: 0 <= i < |slots| && slots[i].handle == handle
  }

  /** The numbers of two tasks agree up to multiples of 2^32. */
  predicate Coincide(a: nat, b: nat) {
    a % 0x1_0000_0000 == b % 0x1_0000_0000
  }

  lemma SameHandle(a: nat, b: nat)
    ensures HandleOf(a) == HandleOf(b) <==> Coincide(a, b)
  {
  }

  /** Handles count up from 1 and go on with 0 after 2^32 - 1. */
  lemma HandlesCountUp(task: nat)
    ensures HandleOf(0) == 1
    ensures HandleOf(task + 1) == if HandleOf(task) == 0xffff_ffff then 0 else HandleOf(task) + 1
  {
  }

  /** A handle is present exactly if the number of a listed task coincides with that of
      its own. */
  lemma HandleIsSharedBy(slots: seq<Slot>, spawned: nat, task: nat)
    requires SlotsOk(slots, spawned)
    ensures HasHandle(slots, HandleOf(task)) <==> exists other :: other in TasksOf(slots) && Coincide(other, task)
  {
    hide HandleOf, Coincide;
    if i :| 0 <= i < |slots| && slots[i].handle == HandleOf(task) {
      assert slots[i].task in TasksOf(slots);
      SameHandle(slots[i].task, task);
    }
    if other :| other in TasksOf(slots) && Coincide(other, task) {
      var i :| 0 <= i < |slots| && slots[i].task == other;
      SameHandle(other, task);
      assert slots[i].handle == HandleOf(task);
    }
  }

  /** While fewer than 2^32 tasks have been spawned, a handle is present exactly as long
      as its own task is. */
  lemma HandleMeansTask(slots: seq<Slot>, spawned: nat, task: nat)
    requires SlotsOk(slots, spawned) && task < spawned <= 0x1_0000_0000
    ensures HasHandle(slots, HandleOf(task)) <==> task in TasksOf(slots)
  {
    HandleIsSharedBy(slots, spawned, task);
    if task in TasksOf(slots) {
      assert Coincide(task, task);
    }
  }

  /** After that, a finished task can seem to be present. */
  lemma HandlesComeAgain()
    ensures var slots := [Slot(HandleOf(0x1_0000_0000), 0x1_0000_0000)];
            SlotsOk(slots, 0x1_0000_0001) && HasHandle(slots, HandleOf(0)) && 0 !in TasksOf(slots)
  {
    var slots := [Slot(HandleOf(0x1_0000_0000), 0x1_0000_0000)];
    assert slots[0].handle == HandleOf(0);
  }

  // ---- The scheduler ----

  class Scheduler {
    var tasks: seq<Slot>
    var nextId: u32
    var lastTurn: int
    /** How many tasks were spawned; the next one is known by this number. */
    var spawned: nat

    /** turn is the turn at creation; the first tick may come in the same turn. */
    constructor (turn: int)
      requires -0x8000_0000 <= turn <= 0x7fff_ffff
      ensures Valid() && tasks == [] && lastTurn != turn && spawned == 0
    {
      tasks, nextId, spawned := [], 1, 0;
      lastTurn := if turn == -0x8000_0000 then 0x7fff_ffff else turn - 1;
    }

    ghost predicate Valid()
      reads this
    {
      SlotsOk(tasks, spawned) && nextId == HandleOf(spawned)
    }

    method Spawn() returns (handle: u32)
      requires Valid()
      modifies this
      ensures Valid() && spawned == old(spawned) + 1 && handle == HandleOf(old(spawned))
      ensures tasks == old(tasks) + [Slot(handle, old(spawned))] && lastTurn == old(lastTurn)
    {
      handle := nextId;
      nextId := (nextId + 1) % 0x1_0000_0000;
      tasks := tasks + [Slot(handle, spawned)];
      spawned := spawned + 1;
    }

    method Contains(handle: u32) returns (r: bool)
      requires Valid()
      ensures r <==> HasHandle(tasks, handle)
      ensures forall task: nat :: task < spawned <= 0x1_0000_0000 && handle == HandleOf(task) ==> (r <==> task in TasksOf(tasks))
    {
      r := false;
      for i := 0 to |tasks|
        invariant r <==> HasHandle(tasks[..i], handle)
      {
        TakeOneMore(tasks, i);
        if tasks[i].handle == handle {
          r := true;
          assert tasks[..i + 1][i].handle == handle;
        } else if r {
          var j :| 0 <= j < i && tasks[..i][j].handle == handle;
          assert tasks[..i + 1][j].handle == handle;
        }
      }
      assert tasks[..|tasks|] == tasks;
      forall task: nat | task < spawned <= 0x1_0000_0000 && handle == HandleOf(task)
        ensures r <==> task in TasksOf(tasks)
      {
        HandleMeansTask(tasks, spawned, task);
      }
    }

    /** answer says what polling each task would give in this tick. */
    method Tick(turn: int, answer: nat -> Poll) returns (r: Result<TaskResult, int>, ghost polled: seq<nat>)
      requires Valid()
      modifies this
      ensures Valid() && spawned == old(spawned) && nextId == old(nextId) && lastTurn == turn
      ensures turn == old(lastTurn) ==> r == Success(NoTurnAdvance) && tasks == old(tasks) && polled == []
      ensures turn != old(lastTurn) ==>
                match r
                case Success(result) =>
                  PolledAll(answer, old(tasks), tasks, polled)
                  && result == if tasks == [] then CompletedAll else PendingTasks(|tasks|)
                case Failure(error) => StoppedAt(answer, old(tasks), tasks, polled, error)
    {
      hide Polling, TasksOf, PolledAll, StoppedAt, DistinctTasks;
      polled := [];
      if turn == lastTurn {
        return Success(NoTurnAdvance), polled;
      }
      lastTurn := turn;
      var idx := 0;
      StartPolling(answer, tasks);
      while idx < |tasks|
        invariant idx <= |tasks| && Polling(answer, TasksOf(old(tasks)), tasks, idx, polled)
        invariant SlotsOk(tasks, spawned) && lastTurn == turn && nextId == old(nextId) && spawned == old(spawned)
        decreases |tasks| - idx
      {
        var slot := tasks[idx];
        SlotsAfterRemoval(tasks, spawned, idx);
        match answer(slot.task) {
          case Done =>
            PolledDone(answer, TasksOf(old(tasks)), tasks, idx, polled);
            tasks := SwapRemove(tasks, idx);
            polled := polled + [slot.task];
          case Failed(error) =>
            FailureStops(answer, old(tasks), tasks, idx, polled, error);
            tasks := SwapRemove(tasks, idx);
            polled := polled + [slot.task];
            return Failure(error), polled;
          case Pending =>
            PolledPending(answer, TasksOf(old(tasks)), tasks, idx, polled);
            polled := polled + [slot.task];
            idx := idx + 1;
        }
      }
      AllPolled(answer, old(tasks), tasks, polled);
      return Success(if tasks == [] then CompletedAll else PendingTasks(|tasks|)), polled;
    }
  }

  lemma SlotsAfterRemoval(slots: seq<Slot>, spawned: nat, idx: nat)
    requires SlotsOk(slots, spawned) && idx < |slots|
    ensures SlotsOk(SwapRemove(slots, idx), spawned) && |SwapRemove(slots, idx)| == |slots| - 1
  {
    RemovalKeepsDistinct(slots, idx);
    var after := SwapRemove(slots, idx);
    forall i | 0 <= i < |after|
      ensures after[i] == slots[if i == idx then |slots| - 1 else i]
    {
    }
  }
}
