/**
  The cooperative scheduler: a table of task slots per level, the search for the next task to run
  from the highest level down and round-robin within a level, and the loop of SchedulerYield that
  repeats the search until it finds one.
 */
module Scheduler {

  const U32: nat := 0x1_0000_0000
  const HALF: nat := 0x8000_0000
  const MAX_TASKS: nat := 20
  const LEVELS: nat := 10

  datatype State = Ready | Blocked | Sleeping | Terminated

  datatype Task = Task(state: State, wake: nat, level: nat)

  // Sleeping

  /** A 32-bit difference read as a signed number is not positive. */
  predicate Due(wake: nat, ticks: nat) {
    var d := (wake - ticks) % U32;
    d == 0 || HALF <= d
  }

  /** The clock reading when `jiffies` milliseconds have passed. */
  function Micros(jiffies: nat): nat {
    jiffies * 1000 % U32
  }

  lemma WrappedDifference(a: nat, b: nat, t: nat)
    requires t < U32
    ensures ((a % U32 + t) % U32 - b % U32) % U32 == (a + t - b) % U32
  {
  }

  lemma Residue(d: int)
    requires 0 <= d + HALF && d < HALF
    ensures d % U32 == if 0 <= d then d else d + U32
  {
  }

  lemma WholeTurn(d: int)
    ensures (d + U32) % U32 == d % U32
  {
  }

  lemma TimeLeft(start: nat, now: nat, micros: nat)
    requires start <= now && micros < U32
    ensures ((Micros(start) + micros) % U32 - Micros(now)) % U32 == (micros - (now - start) * 1000) % U32
  {
    WrappedDifference(start * 1000, now * 1000, micros);
    assert start * 1000 + micros - now * 1000 == micros - (now - start) * 1000;
  }

  /** A task that goes to sleep for fewer than 2^31 microseconds may run again exactly when that
      time has passed, however often the 32-bit clock wraps, provided it is looked at within 2^31
      microseconds of its waking time. */
  lemma SleepIsExact(start: nat, now: nat, micros: nat)
    requires start <= now && 0 < micros < HALF
    requires (now - start) * 1000 <= micros + HALF
    ensures Due((Micros(start) + micros) % U32, Micros(now)) <==> micros <= (now - start) * 1000
  {
    hide Micros;
    TimeLeft(start, now, micros);
    Residue(micros - (now - start) * 1000);
  }

  /** Looked at later than that, it is taken for one that still has to wait. */
  lemma LateLook(start: nat, now: nat, micros: nat)
    requires start <= now && 0 < micros < HALF
    requires micros <= (now - start) * 1000 < micros + U32
    ensures Due((Micros(start) + micros) % U32, Micros(now)) <==> (now - start) * 1000 <= micros + HALF
  {
    hide Micros;
    TimeLeft(start, now, micros);
    var left := micros - (now - start) * 1000;
    if 0 <= left + HALF {
      Residue(left);
    } else {
      Residue(left + U32);
      WholeTurn(left);
    }
  }

  function Sum(s: seq<nat>): nat {
    if s == [] then 0 else Sum(s[..|s| - 1]) + s[|s| - 1]
  }

  lemma SumSnoc(s: seq<nat>, x: nat)
    ensures Sum(s + [x]) == Sum(s) + x
  {
    assert (s + [x])[..|s|] == s;
  }

  lemma NoPieces()
    ensures Sum([]) == 0
  {
  }

  lemma PieceFits(seconds: nat)
    requires seconds <= 1800
    ensures seconds * 1000000 % U32 == seconds * 1000000 <= 1800000000
  {
  }

  /** SchedulerSleep: the sleep is cut into pieces, none of which overflows when it is turned into
      microseconds, and which add up to the time asked for. */
  method SleepPieces(seconds: nat) returns (pieces: seq<nat>)
    requires seconds < U32
    ensures Sum(pieces) == seconds * 1000000
    ensures forall i :: 0 <= i < |pieces| ==> pieces[i] <= 1800000000 < HALF
  {
    hide Sum;
    NoPieces();
    pieces := [];
    var left: nat := seconds;
    while left > 1800
      invariant left <= seconds && Sum(pieces) + left * 1000000 == seconds * 1000000
      invariant forall i :: 0 <= i < |pieces| ==> pieces[i] <= 1800000000
    {
      SumSnoc(pieces, 1800000000);
      PieceFits(1800);
      pieces := pieces + [1800 * 1000000 % U32];
      left := left - 1800;
    }
    SumSnoc(pieces, left * 1000000);
    PieceFits(left);
    pieces := pieces + [left * 1000000 % U32];
  }

  // The order of the search within a level

  /** The slot searched first, when slot `c` was the last one run (or none, -1). */
  function First(c: int, n: nat): nat
    requires -1 <= c && 0 < n
  {
    if c + 1 >= n then 0 else c + 1
  }

  /** How many slots are searched before slot k. */
  function Dist(c: int, n: nat, k: nat): (d: nat)
    requires -1 <= c && k < n
    ensures d < n
  {
    if First(c, n) <= k then k - First(c, n) else k + n - First(c, n)
  }

  /** Each slot has its own place in the order. */
  lemma DistInjective(c: int, n: nat, j: nat, k: nat)
    requires -1 <= c && j < n && k < n && Dist(c, n, j) == Dist(c, n, k)
    ensures j == k
  {
  }

  /** Slot k is the first one in the order that is not skipped. */
  ghost predicate IsFirst(c: int, skip: seq<bool>, k: nat)
    requires -1 <= c
  {
    && k < |skip| && !skip[k]
    && forall m: nat :: m < |skip| && Dist(c, |skip|, m) < Dist(c, |skip|, k) ==> skip[m]
  }

  /** Running another slot first brings a waiting slot nearer. */
  lemma Nearer(c: int, skip: seq<bool>, k: nat, j: nat)
    requires -1 <= c && IsFirst(c, skip, k) && j < |skip| && !skip[j] && j != k
    ensures Dist(k, |skip|, j) < Dist(c, |skip|, j)
  {
    if Dist(c, |skip|, j) <= Dist(c, |skip|, k) {
      DistInjective(c, |skip|, j, k);
    }
  }

  /** What one pick sees of a level: the slot run last and the slots that it skips. */
  datatype View = View(last: int, skip: seq<bool>)

  /** The slot run last at the second pick is the one that the first pick chose. */
  ghost predicate Follows(v: View, w: View) {
    -1 <= v.last && 0 <= w.last && IsFirst(v.last, v.skip, w.last)
  }

  /** Successive picks at a level of n slots, throughout which slot j is never skipped; the other
      slots may come and go. */
  ghost predicate Picks(run: seq<View>, n: nat, j: nat) {
    && j < n
    && (forall t :: 0 <= t < |run| ==> -1 <= run[t].last && |run[t].skip| == n && !run[t].skip[j])
    && (forall t :: 1 <= t < |run| ==> Follows(run[t - 1], run[t]))
  }

  /** After t picks that passed slot j over, it is at most n - 1 - t places away. */
  lemma {:induction false} Approach(run: seq<View>, n: nat, j: nat, t: nat)
    requires Picks(run, n, j) && t < |run|
    requires forall u :: 1 <= u <= t ==> run[u].last != j
    ensures Dist(run[t].last, n, j) + t < n
  {
    if t == 0 {
    } else {
      Approach(run, n, j, t - 1);
      assert Follows(run[t - 1], run[t]);
      Nearer(run[t - 1].last, run[t - 1].skip, run[t].last, j);
    }
  }

  /** Fairness: a task that stays ready is run within as many picks as its level has slots. */
  lemma Fair(run: seq<View>, n: nat, j: nat)
    requires Picks(run, n, j) && n < |run|
    ensures exists t :: 1 <= t <= n && run[t].last == j
  {
    if forall t :: 1 <= t <= n ==> run[t].last != j {
      Approach(run, n, j, n);
    }
  }

  // The table

  /** What the search does at a slot. */
  datatype Verdict = Skip | Pick | Reap

  function Judge(tasks: map<nat, Task>, id: nat, ticks: nat): Verdict {
    if id == 0 || id !in tasks then Skip
    else match tasks[id].state
      case Ready => Pick
      case Blocked => Skip
      case Sleeping => if Due(tasks[id].wake, ticks) then Pick else Skip
      case Terminated => Reap
  }

  /** A task that could run now. */
  predicate Runnable(t: Task, ticks: nat) {
    t.state.Ready? || (t.state.Sleeping? && Due(t.wake, ticks))
  }

  /** One level: the slots in use are the first n, each task has this level and one slot. */
  ghost predicate RowOk(row: seq<nat>, n: nat, level: nat, tasks: map<nat, Task>) {
    && |row| == MAX_TASKS && n <= MAX_TASKS
    && (forall i :: 0 <= i < MAX_TASKS && row[i] != 0 ==> i < n)
    && (forall i :: 0 <= i < MAX_TASKS && row[i] != 0 ==> row[i] in tasks && tasks[row[i]].level == level)
    && (forall i, j :: 0 <= i < j < MAX_TASKS && row[i] != 0 ==> row[i] != row[j])
  }

  ghost predicate Rows(slot: seq<seq<nat>>, count: seq<nat>, tasks: map<nat, Task>) {
    |slot| == |count| == LEVELS && forall l: nat :: l < LEVELS ==> RowOk(slot[l], count[l], l, tasks)
  }

  /** Every task is in the slots of its level. */
  ghost predicate Placed(slot: seq<seq<nat>>, tasks: map<nat, Task>) {
    forall id :: id in tasks ==> id != 0 && tasks[id].level < |slot| && id in slot[tasks[id].level]
  }

  ghost predicate TableOk(slot: seq<seq<nat>>, count: seq<nat>, tasks: map<nat, Task>) {
    Rows(slot, count, tasks) && Placed(slot, tasks)
  }

  /** Nothing to run and nothing to delete at a level. */
  ghost predicate Quiet(row: seq<nat>, n: nat, tasks: map<nat, Task>, ticks: nat) {
    forall i :: 0 <= i < n && i < |row| ==> Judge(tasks, row[i], ticks).Skip?
  }

  /** The search reaches slot k: everything before it in the order is skipped. */
  ghost predicate Reaches(row: seq<nat>, n: nat, c: int, k: nat, tasks: map<nat, Task>, ticks: nat)
    requires -1 <= c && n <= |row|
  {
    k < n && forall m: nat :: m < n && Dist(c, n, m) < Dist(c, n, k) ==> Judge(tasks, row[m], ticks).Skip?
  }

  lemma NotNull(slot: seq<seq<nat>>, tasks: map<nat, Task>, id: nat)
    requires Placed(slot, tasks) && id in tasks
    ensures id != 0
  {
  }

  /** Quiet levels hold no task that could run. */
  lemma QuietLevel(slot: seq<seq<nat>>, count: seq<nat>, tasks: map<nat, Task>, l: nat, ticks: nat)
    requires TableOk(slot, count, tasks) && l < LEVELS && Quiet(slot[l], count[l], tasks, ticks)
    ensures forall id :: id in tasks && tasks[id].level == l ==> !Runnable(tasks[id], ticks) && !tasks[id].state.Terminated?
  {
    forall id | id in tasks && tasks[id].level == l
      ensures !Runnable(tasks[id], ticks) && !tasks[id].state.Terminated?
    {
      var i :| 0 <= i < |slot[l]| && slot[l][i] == id;
      assert Judge(tasks, slot[l][i], ticks).Skip?;
    }
  }

  /** No task at level l or above could run or waits to be deleted. */
  ghost predicate Clear(tasks: map<nat, Task>, clock: seq<nat>, l: nat) {
    forall id :: id in tasks && l <= tasks[id].level < |clock| ==>
      !Runnable(tasks[id], clock[tasks[id].level]) && !tasks[id].state.Terminated?
  }

  lemma NothingAbove(slot: seq<seq<nat>>, tasks: map<nat, Task>, clock: seq<nat>)
    requires Placed(slot, tasks) && |slot| == LEVELS
    ensures Clear(tasks, clock, LEVELS)
  {
  }

  lemma ClearMore(slot: seq<seq<nat>>, count: seq<nat>, tasks: map<nat, Task>, clock: seq<nat>, l: nat)
    requires TableOk(slot, count, tasks) && l < LEVELS == |clock| && Clear(tasks, clock, l + 1)
    requires count[l] == 0 || Quiet(slot[l], count[l], tasks, clock[l])
    ensures Clear(tasks, clock, l)
  {
    QuietLevel(slot, count, tasks, l, clock[l]);
  }

  lemma RowAt(slot: seq<seq<nat>>, count: seq<nat>, tasks: map<nat, Task>, l: nat)
    requires Rows(slot, count, tasks) && l < LEVELS
    ensures |slot| == |count| == LEVELS && count[l] <= MAX_TASKS == |slot[l]|
  {
    assert RowOk(slot[l], count[l], l, tasks);
  }

  /** Changing a task's state leaves the table in order. */
  lemma SetStateKeeps(slot: seq<seq<nat>>, count: seq<nat>, tasks: map<nat, Task>, id: nat, t: Task)
    requires TableOk(slot, count, tasks) && id in tasks && t.level == tasks[id].level
    ensures TableOk(slot, count, tasks[id := t])
  {
    forall l: nat | l < LEVELS
      ensures RowOk(slot[l], count[l], l, tasks[id := t])
    {
      assert RowOk(slot[l], count[l], l, tasks);
    }
  }

  /** The number of slots in use once slot i is empty. */
  function Shrunk(n: nat, i: nat): nat
    requires i < n
  {
    if i == n - 1 then n - 1 else n
  }

  lemma ShrunkIs(n: nat, i: nat)
    requires i < n
    ensures Shrunk(n, i) == 0 <==> n == 1
  {
  }

  /** The number of slots in use once slot i is taken. */
  function Grown(n: nat, i: nat): nat {
    if i < n then n else i + 1
  }

  function Put(slot: seq<seq<nat>>, l: nat, i: nat, id: nat): seq<seq<nat>>
    requires l < |slot| && i < |slot[l]|
  {
    var row: seq<nat> := slot[l];
    slot[l := row[i := id]]
  }

  lemma PutElsewhere(slot: seq<seq<nat>>, l: nat, i: nat, id: nat)
    requires l < |slot| && i < |slot[l]|
    ensures |Put(slot, l, i, id)| == |slot|
    ensures forall m :: 0 <= m < |slot| && m != l ==> Put(slot, l, i, id)[m] == slot[m]
  {
  }

  lemma RemoveKeeps(slot: seq<seq<nat>>, count: seq<nat>, tasks: map<nat, Task>, id: nat, i: nat)
    requires TableOk(slot, count, tasks) && id in tasks
    requires var l := tasks[id].level; l < LEVELS && i < count[l] && i < |slot[l]| && slot[l][i] == id
    ensures var l := tasks[id].level;
      TableOk(Put(slot, l, i, 0), count[l := Shrunk(count[l], i)], tasks - {id})
  {
    var l := tasks[id].level;
    var slot', count', tasks' := Put(slot, l, i, 0), count[l := Shrunk(count[l], i)], tasks - {id};
    forall m: nat | m < LEVELS
      ensures RowOk(slot'[m], count'[m], m, tasks')
    {
      assert RowOk(slot[m], count[m], m, tasks);
      assert forall k :: 0 <= k < MAX_TASKS && slot'[m][k] != 0 ==> slot'[m][k] == slot[m][k] && slot[m][k] != id;
    }
    forall x | x in tasks'
      ensures x != 0 && tasks'[x].level < |slot'| && x in slot'[tasks'[x].level]
    {
      var m := tasks[x].level;
      var k :| 0 <= k < |slot[m]| && slot[m][k] == x;
      assert slot'[m][k] == x;
    }
  }

  lemma AddKeeps(slot: seq<seq<nat>>, count: seq<nat>, tasks: map<nat, Task>, id: nat, t: Task, i: nat)
    requires TableOk(slot, count, tasks) && id !in tasks && id != 0 && t.level < LEVELS
    requires i < MAX_TASKS && i <= count[t.level] && slot[t.level][i] == 0
    ensures var l := t.level;
      TableOk(Put(slot, l, i, id), count[l := Grown(count[l], i)], tasks[id := t])
  {
    var l := t.level;
    var slot', tasks' := Put(slot, l, i, id), tasks[id := t];
    var count' := count[l := Grown(count[l], i)];
    forall m: nat | m < LEVELS
      ensures RowOk(slot'[m], count'[m], m, tasks')
    {
      assert RowOk(slot[m], count[m], m, tasks);
      assert forall k :: 0 <= k < MAX_TASKS && slot[m][k] != 0 ==> slot[m][k] != id;
    }
    forall x | x in tasks'
      ensures x != 0 && tasks'[x].level < |slot'| && x in slot'[tasks'[x].level]
    {
      if x == id {
        assert slot'[l][i] == id;
      } else {
        var m := tasks[x].level;
        var k :| 0 <= k < |slot[m]| && slot[m][k] == x;
        assert slot'[m][k] == x;
      }
    }
  }

  /** The level has an empty slot. */
  predicate HasRoom(slot: seq<seq<nat>>, count: seq<nat>, l: nat) {
    l < |slot| && l < |count| && (count[l] < MAX_TASKS || 0 in slot[l])
  }

  lemma TooMany(slot: seq<seq<nat>>, count: seq<nat>, tasks: map<nat, Task>, l: nat)
    requires l < |count| && l < LEVELS && MAX_TASKS < count[l]
    ensures !TableOk(slot, count, tasks)
  {
    assert l < |slot| ==> !RowOk(slot[l], count[l], l, tasks);
  }

  /** The tasks waiting to be deleted. */
  ghost function Dead(tasks: map<nat, Task>): set<nat> {
    set id | id in tasks && tasks[id].state.Terminated?
  }

  /** What a search of one level finds. */
  datatype Found = Nobody | Chosen(at: nat) | Reaped(at: nat)

  /** Slot n of the level is chosen: its task could run and becomes ready; it is the next in turn,
      and no level above has a task that could run. */
  ghost predicate Picked(before: map<nat, Task>, after: map<nat, Task>, slot: seq<seq<nat>>, count: seq<nat>,
                         last: seq<int>, level: nat, n: nat, clock: seq<nat>)
  {
    && level < LEVELS == |clock| == |slot| == |count| == |last| && -1 <= last[level]
    && n < count[level] <= |slot[level]| && slot[level][n] in before && slot[level][n] != 0
    && var id := slot[level][n];
    && before[id].level == level && Runnable(before[id], clock[level])
    && after == before[id := before[id].(state := Ready)]
    && Reaches(slot[level], count[level], last[level], n, before, clock[level])
    && Clear(before, clock, level + 1)
  }

  /** Which slots a search skips. */
  ghost function Skips(row: seq<nat>, n: nat, tasks: map<nat, Task>, ticks: nat): seq<bool>
    requires n <= |row|
  {
    seq(n, (i: nat) requires i < n => Judge(tasks, row[i], ticks).Skip?)
  }

  /** The tasks of `now` are those of `before` without some terminated ones. */
  ghost predicate OnlyDeadGone(now: map<nat, Task>, before: map<nat, Task>) {
    && (forall id :: id in now ==> id in before && now[id] == before[id])
    && (forall id :: id in before && id !in now ==> before[id].state.Terminated?)
  }

  lemma NobodyGone(tasks: map<nat, Task>)
    ensures OnlyDeadGone(tasks, tasks)
  {
  }

  lemma OneGone(now: map<nat, Task>, before: map<nat, Task>, id: nat)
    requires OnlyDeadGone(now, before) && id in now && now[id].state.Terminated?
    ensures OnlyDeadGone(now - {id}, before) && |Dead(now - {id})| + 1 == |Dead(now)|
  {
    assert Dead(now - {id}) == Dead(now) - {id};
  }

  /** With a task that could run, a search that chooses none has deleted one. */
  lemma StillRunnable(tasks: map<nat, Task>, clock: seq<nat>, who: nat, reaped: nat)
    requires who in tasks && tasks[who].level < |clock| && Runnable(tasks[who], clock[tasks[who].level])
    requires reaped == 0 ==> Clear(tasks, clock, 0)
    ensures reaped != 0
  {
  }

  /** Level l has no task waiting to be deleted. */
  ghost predicate NoneDead(tasks: map<nat, Task>, l: nat) {
    forall id :: id in tasks && tasks[id].level == l ==> !tasks[id].state.Terminated?
  }

  /** Only the slots of levels with a terminated task have changed. */
  ghost predicate RowsKept(slot: seq<seq<nat>>, count: seq<nat>, slot': seq<seq<nat>>, count': seq<nat>, tasks: map<nat, Task>) {
    |slot| == |slot'| == |count| == |count'| == LEVELS
    && forall l: nat :: l < LEVELS && NoneDead(tasks, l) ==> slot'[l] == slot[l] && count'[l] == count[l]
  }

  lemma ReapKeepsRows(slot: seq<seq<nat>>, count: seq<nat>, slot1: seq<seq<nat>>, count1: seq<nat>, slot2: seq<seq<nat>>,
                      count2: seq<nat>, tasks: map<nat, Task>, reaped: nat, level: nat)
    requires RowsKept(slot, count, slot1, count1, tasks) && |slot2| == |count2| == LEVELS
    requires reaped in tasks && tasks[reaped].state.Terminated? && tasks[reaped].level == level
    requires forall l :: 0 <= l < LEVELS && l != level ==> slot2[l] == slot1[l] && count2[l] == count1[l]
    ensures RowsKept(slot, count, slot2, count2, tasks)
  {
  }

  /** Tasks that are gone make no difference to what is skipped, for they are in no slot. */
  lemma SkipsSame(row: seq<nat>, n: nat, now: map<nat, Task>, all: map<nat, Task>, ticks: nat)
    requires n <= |row| && OnlyDeadGone(now, all)
    requires forall i :: 0 <= i < |row| && row[i] != 0 ==> row[i] in now
    ensures Skips(row, n, now, ticks) == Skips(row, n, all, ticks)
  {
    assert forall i :: 0 <= i < n ==> Judge(now, row[i], ticks) == Judge(all, row[i], ticks);
  }

  lemma PickedFacts(before: map<nat, Task>, after: map<nat, Task>, all: map<nat, Task>, slot: seq<seq<nat>>,
                    count: seq<nat>, last: seq<int>, level: nat, n: nat, clock: seq<nat>)
    requires Picked(before, after, slot, count, last, level, n, clock) && OnlyDeadGone(before, all)
    ensures level < LEVELS == |clock| == |slot| == |count| == |last| && n < count[level] <= |slot[level]|
    ensures -1 <= last[level]
    ensures var id := slot[level][n];
      && id in all && id in after && after[id].state.Ready?
      && all[id].level == level && Runnable(all[id], clock[level])
      && OnlyDeadGone(after - {id}, all - {id})
    ensures forall id :: id in all && level < all[id].level < LEVELS ==> !Runnable(all[id], clock[all[id].level])
    ensures IsFirst(last[level], Skips(slot[level], count[level], before, clock[level]), n)
    ensures forall id :: id in before <==> id in after
  {
  }

  lemma RowAtTable(slot: seq<seq<nat>>, count: seq<nat>, tasks: map<nat, Task>)
    requires TableOk(slot, count, tasks)
    ensures |slot| == |count| == LEVELS
  {
  }

  lemma SameRows(slot: seq<seq<nat>>, count: seq<nat>, tasks: map<nat, Task>)
    requires |slot| == |count| == LEVELS
    ensures RowsKept(slot, count, slot, count, tasks)
  {
  }

  lemma RunnableLives(t: Task, ticks: nat)
    requires Runnable(t, ticks)
    ensures !t.state.Terminated?
  {
  }

  lemma GoneWas(now: map<nat, Task>, all: map<nat, Task>, id: nat)
    requires OnlyDeadGone(now, all) && id in now
    ensures id in all && all[id] == now[id]
  {
  }

  lemma RowInTasks(slot: seq<seq<nat>>, count: seq<nat>, tasks: map<nat, Task>, l: nat)
    requires TableOk(slot, count, tasks) && l < LEVELS
    ensures |slot| == |count| == LEVELS && forall i :: 0 <= i < |slot[l]| && slot[l][i] != 0 ==> slot[l][i] in tasks
  {
    assert RowOk(slot[l], count[l], l, tasks);
  }

  class Table {
    /** Task identifiers by level and slot; 0 is an empty slot. */
    var slot: seq<seq<nat>>
    /** The number of slots in use at each level. */
    var count: seq<nat>
    /** The slot of each level that was run last, or -1. */
    var last: seq<int>
    var tasks: map<nat, Task>
    /** The task now running: its level and slot. */
    var level: nat
    var current: nat

    ghost predicate Valid()
      reads this
    {
      TableOk(slot, count, tasks) && |last| == LEVELS && forall l :: 0 <= l < LEVELS ==> -1 <= last[l] < MAX_TASKS
    }

    constructor ()
      ensures Valid() && tasks == map[]
    {
      slot := seq(LEVELS, (l: nat) => seq(MAX_TASKS, (i: nat) => 0));
      count := seq(LEVELS, (l: nat) => 0);
      last := seq(LEVELS, (l: nat) => -1);
      tasks := map[];
      level, current := 0, 0;
    }

    /** SchedulerAddTask: the task goes to the first empty slot of its level. If there is none, the
        code writes behind the level's row: into the first slot of the next level, or, at the last
        level, over the first count. The table is in order afterwards exactly if there was room. */
    method AddTask(id: nat, t: Task) returns (at: nat)
      requires Valid() && id != 0 && id !in tasks && t.level < LEVELS
      modifies `slot, `count, `tasks
      ensures tasks == old(tasks)[id := t]
      ensures Valid() <==> HasRoom(old(slot), old(count), t.level)
      ensures HasRoom(old(slot), old(count), t.level) ==>
        && at < MAX_TASKS && old(slot)[t.level][at] == 0 && (forall j :: 0 <= j < at ==> old(slot)[t.level][j] != 0)
        && slot == Put(old(slot), t.level, at, id)
        && count == old(count)[t.level := Grown(old(count)[t.level], at)]
      ensures !HasRoom(old(slot), old(count), t.level) ==>
        && at == MAX_TASKS && |count| == LEVELS && count[t.level] == MAX_TASKS + 1
        && (t.level + 1 < LEVELS ==> |slot| == LEVELS && slot[t.level + 1] != [] && slot[t.level + 1][0] == id)
        && (t.level + 1 == LEVELS ==> slot == old(slot) && count[0] == id)
    {
      hide Placed;
      var l := t.level;
      assert RowOk(slot[l], count[l], l, tasks);
      var i: nat := 0;
      while i < count[l] && slot[l][i] != 0
        invariant i <= count[l]
        invariant forall j :: 0 <= j < i ==> slot[l][j] != 0
      {
        i := i + 1;
      }
      if i < MAX_TASKS {
        AddKeeps(slot, count, tasks, id, t, i);
        hide TableOk;
        slot := Put(slot, l, i, id);
        count := count[l := Grown(count[l], i)];
      } else {
        assert count[l] == MAX_TASKS;
        if l + 1 < LEVELS {
          assert RowOk(slot[l + 1], count[l + 1], l + 1, tasks);
          slot := Put(slot, l + 1, 0, id);
        } else {
          count := count[0 := id];
        }
        count := count[l := count[l] + 1];
        TooMany(slot, count, tasks[id := t], l);
      }
      tasks := tasks[id := t];
      at := i;
    }

    /** SchedulerRemoveTask, followed by the deletion of the task. */
    method RemoveTask(id: nat, ghost at: nat)
      requires Valid() && id in tasks && tasks[id].level < LEVELS && at < MAX_TASKS && slot[tasks[id].level][at] == id
      modifies `slot, `count, `tasks
      ensures Valid() && tasks == old(tasks) - {id}
      ensures var l := old(tasks)[id].level;
        && at < old(count)[l] && slot == Put(old(slot), l, at, 0)
        && count == old(count)[l := Shrunk(old(count)[l], at)]
    {
      hide Placed;
      var l := tasks[id].level;
      assert RowOk(slot[l], count[l], l, tasks);
      NotNull(slot, tasks, id);
      var i: nat := 0;
      while slot[l][i] != id
        invariant i <= at
        decreases at - i
      {
        i := i + 1;
      }
      assert i == at;
      RemoveKeeps(slot, count, tasks, id, i);
      hide TableOk;
      slot := Put(slot, l, i, 0);
      count := count[l := Shrunk(count[l], i)];
      tasks := tasks - {id};
    }

    /** The search of one level, at the given clock reading. */
    method SearchLevel(l: nat, ticks: nat) returns (found: Found)
      requires Valid() && l < LEVELS && 0 < count[l] <= |slot[l]|
      modifies `slot, `count, `tasks
      ensures Valid()
      ensures found.Nobody? ==> unchanged(this) && Quiet(slot[l], count[l], tasks, ticks)
      ensures !found.Nobody? ==>
        && found.at < old(count)[l] <= |old(slot)[l]|
        && Reaches(old(slot)[l], old(count)[l], last[l], found.at, old(tasks), ticks)
        && old(slot)[l][found.at] != 0 && old(slot)[l][found.at] in old(tasks)
        && old(tasks)[old(slot)[l][found.at]].level == l
      ensures found.Chosen? ==> var id := old(slot)[l][found.at];
        && Runnable(old(tasks)[id], ticks) && tasks == old(tasks)[id := old(tasks)[id].(state := Ready)]
        && slot == old(slot) && count == old(count)
      ensures found.Reaped? ==> var id := old(slot)[l][found.at];
        && old(tasks)[id].state.Terminated? && tasks == old(tasks) - {id}
        && slot == Put(old(slot), l, found.at, 0) && count == old(count)[l := Shrunk(old(count)[l], found.at)]
    {
      hide Placed;
      assert RowOk(slot[l], count[l], l, tasks);
      var n := count[l];
      var at := last[l];
      var i := 0;
      while i < n
        invariant 0 <= i <= n && unchanged(this)
        invariant i == 0 ==> at == last[l]
        invariant 0 < i ==> 0 <= at < n && Dist(last[l], n, at) == i - 1
        invariant forall m: nat :: m < n && Dist(last[l], n, m) < i ==> Judge(tasks, slot[l][m], ticks).Skip?
      {
        at := at + 1;
        if at >= n {
          at := 0;
        }
        assert Dist(last[l], n, at) == i;
        ghost var upto := i;
        i := i + 1;
        var id := slot[l][at];
        if id != 0 {
          match tasks[id].state
          case Ready =>
            SetStateKeeps(slot, count, tasks, id, tasks[id]);
            assert tasks[id := tasks[id]] == tasks;
            return Chosen(at);
          case Blocked =>
          case Sleeping =>
            if Due(tasks[id].wake, ticks) {
              SetStateKeeps(slot, count, tasks, id, tasks[id].(state := Ready));
              tasks := tasks[id := tasks[id].(state := Ready)];
              return Chosen(at);
            }
          case Terminated =>
            RemoveTask(id, at);
            return Reaped(at);
        }
        forall m: nat | m < n && Dist(last[l], n, m) < i
          ensures Judge(tasks, slot[l][m], ticks).Skip?
        {
          if Dist(last[l], n, m) == upto {
            DistInjective(last[l], n, m, at);
          }
        }
      }
      return Nobody;
    }

    /** SchedulerUsSleep, up to the switch to another task: the running task sleeps, and could run
        again exactly from the time asked for. */
    method UsSleep(micros: nat, jiffies: nat)
      requires Valid() && micros < U32 && level < LEVELS == |slot| && current < MAX_TASKS == |slot[level]|
      requires slot[level][current] in tasks && tasks[slot[level][current]].state.Ready?
      modifies `tasks
      ensures Valid() && slot[level][current] in tasks && (micros == 0 ==> unchanged(this))
      ensures forall id :: id != slot[level][current] ==> (id in tasks <==> id in old(tasks))
      ensures forall id :: id != slot[level][current] && id in tasks ==> tasks[id] == old(tasks)[id]
      ensures forall now: nat :: 0 < micros < HALF && jiffies <= now && (now - jiffies) * 1000 <= micros + HALF ==>
        (Runnable(tasks[slot[level][current]], Micros(now)) <==> micros <= (now - jiffies) * 1000)
    {
      hide TableOk, Due, Micros;
      var id := slot[level][current];
      if micros > 0 {
        var t := tasks[id].(wake := (Micros(jiffies) + micros) % U32, state := Sleeping);
        SetStateKeeps(slot, count, tasks, id, t);
        tasks := tasks[id := t];
        forall now: nat | micros < HALF && jiffies <= now && (now - jiffies) * 1000 <= micros + HALF
          ensures Runnable(t, Micros(now)) <==> micros <= (now - jiffies) * 1000
        {
          SleepIsExact(jiffies, now, micros);
        }
      }
    }

    /** SchedulerGetNextTask: searches the levels from the highest down; `clock[l]` is what the clock
        shows when level l is searched. The result MAX_TASKS says that no task was chosen. */
    method GetNextTask(clock: seq<nat>) returns (n: nat, ghost reaped: nat)
      requires Valid() && |clock| == LEVELS
      modifies `slot, `count, `tasks, `level
      ensures Valid() && n <= MAX_TASKS
      // A task is chosen.
      ensures n < MAX_TASKS ==>
        slot == old(slot) && count == old(count) && Picked(old(tasks), tasks, slot, count, last, level, n, clock)
      // Otherwise a terminated task has been deleted, or no task could run.
      ensures n == MAX_TASKS && reaped != 0 ==>
        && reaped in old(tasks) && old(tasks)[reaped].state.Terminated? && tasks == old(tasks) - {reaped}
        && level < LEVELS && (count[level] == 0 <==> old(count)[level] == 1) && old(tasks)[reaped].level == level
        && forall l :: 0 <= l < LEVELS && l != level ==> slot[l] == old(slot)[l] && count[l] == old(count)[l]
      ensures n == MAX_TASKS && reaped == 0 ==>
        && slot == old(slot) && count == old(count) && tasks == old(tasks) && Clear(tasks, clock, 0)
    {
      hide Placed, Rows, Reaches, Quiet, Runnable, Put, Shrunk, Clear;
      RowAt(slot, count, tasks, 0);
      NothingAbove(slot, tasks, clock);
      var l: nat := LEVELS;
      while l > 0
        invariant l <= LEVELS && slot == old(slot) && count == old(count) && tasks == old(tasks)
        invariant Clear(tasks, clock, l)
      {
        l := l - 1;
        RowAt(slot, count, tasks, l);
        if count[l] != 0 {
          level := l;
          var found := SearchLevel(l, clock[l]);
          match found
          case Chosen(at) =>
            n, reaped := at, 0;
            return;
          case Reaped(at) =>
            reaped := old(slot)[l][at];
            NotNull(old(slot), old(tasks), reaped);
            ShrunkIs(old(count)[l], at);
            PutElsewhere(old(slot), l, at, 0);
            n := MAX_TASKS;
            return;
          case Nobody =>
        }
        ClearMore(slot, count, tasks, clock, l);
      }
      n, reaped := MAX_TASKS, 0;
    }

    /** The selection loop of SchedulerYield; `clock(k)` gives the clock readings of the k-th search.
        The loop ends if there is a task, `who`, that could run from some search on: a ready one from
        the first. */
    method Select(clock: nat -> seq<nat>, ghost who: nat, ghost when: nat) returns (calls: nat)
      requires Valid() && who in tasks && tasks[who].level < LEVELS
      requires forall k: nat :: |clock(k)| == LEVELS
      requires forall k: nat :: when <= k ==> Runnable(tasks[who], clock(k)[tasks[who].level])
      modifies this
      ensures Valid()
      // One search for each terminated task that was in the way, and one more.
      ensures 1 <= calls <= when + |Dead(old(tasks))| + 1
      // The task chosen could run, and no task of a higher level could.
      ensures level < LEVELS && current < count[level] <= |slot[level]| && slot[level][current] in old(tasks)
      ensures var t := old(tasks)[slot[level][current]];
        t.level == level && Runnable(t, clock(calls - 1)[level])
      ensures forall id :: id in old(tasks) && level < old(tasks)[id].level < LEVELS ==>
        !Runnable(old(tasks)[id], clock(calls - 1)[old(tasks)[id].level])
      // Within its level it is the next one in turn.
      ensures last == old(last)[level := current]
      ensures IsFirst(old(last)[level], Skips(slot[level], count[level], old(tasks), clock(calls - 1)[level]), current)
      // Apart from terminated tasks that are gone, only the chosen one has changed: it is ready.
      ensures slot[level][current] in tasks && tasks[slot[level][current]].state.Ready?
      ensures OnlyDeadGone(tasks - {slot[level][current]}, old(tasks) - {slot[level][current]})
      ensures RowsKept(old(slot), old(count), slot, count, old(tasks))
    {
      hide TableOk, Picked, OnlyDeadGone, Dead, Skips, IsFirst, Runnable, RowsKept, Clear;
      calls := 0;
      var n: nat := MAX_TASKS;
      ghost var before: map<nat, Task> := tasks;
      ghost var idle: nat := 0;
      NobodyGone(tasks);
      RowAtTable(slot, count, tasks);
      SameRows(slot, count, tasks);
      while n == MAX_TASKS
        invariant Valid() && last == old(last) && n <= MAX_TASKS && (n == MAX_TASKS ==> before == tasks)
        invariant OnlyDeadGone(before, old(tasks)) && who in before && before[who] == old(tasks)[who]
        invariant idle <= when && idle <= calls
        invariant calls + |Dead(before)| == idle + |Dead(old(tasks))| + if n == MAX_TASKS then 0 else 1
        invariant n < MAX_TASKS ==> 1 <= calls && Picked(before, tasks, slot, count, last, level, n, clock(calls - 1))
        invariant RowsKept(old(slot), old(count), slot, count, old(tasks))
        decreases if n == MAX_TASKS then 1 else 0, |Dead(before)| + (when - idle)
      {
        ghost var reaped, slot1, count1 := 0, slot, count;
        n, reaped := GetNextTask(clock(calls));
        RowAtTable(slot, count, tasks);
        if n == MAX_TASKS {
          if when <= calls {
            StillRunnable(before, clock(calls), who, reaped);
          }
          if reaped == 0 {
            idle := idle + 1;
          } else {
            RunnableLives(before[who], clock(if when <= calls then calls else when)[before[who].level]);
            OneGone(before, old(tasks), reaped);
            GoneWas(before, old(tasks), reaped);
            ReapKeepsRows(old(slot), old(count), slot1, count1, slot, count, old(tasks), reaped, level);
          }
          before := tasks;
        }
        calls := calls + 1;
      }
      PickedFacts(before, tasks, old(tasks), slot, count, last, level, n, clock(calls - 1));
      RowInTasks(slot, count, tasks, level);
      SkipsSame(slot[level], count[level], before, old(tasks), clock(calls - 1)[level]);
      current := n;
      last := last[level := current];
    }
  }

  // Fairness of the scheduler

  /** The table as a pick finds it, and the clock readings of that pick. */
  datatype World = World(slot: seq<seq<nat>>, count: seq<nat>, tasks: map<nat, Task>, clock: nat -> seq<nat>)

  /** At level l the slots are as given, no task waits to be deleted and the one in slot j is ready;
      no task of a higher level can run. Everything else is arbitrary. */
  ghost predicate Calm(w: World, l: nat, j: nat, row: seq<nat>, n: nat) {
    && TableOk(w.slot, w.count, w.tasks) && l < |w.slot| && w.slot[l] == row && w.count[l] == n
    && j < n <= |row| && row[j] in w.tasks && w.tasks[row[j]].state.Ready? && NoneDead(w.tasks, l)
    && (forall k: nat :: |w.clock(k)| == LEVELS)
    && (forall k: nat, id :: id in w.tasks && l < w.tasks[id].level < LEVELS ==>
          !Runnable(w.tasks[id], w.clock(k)[w.tasks[id].level]))
  }

  lemma CalmFacts(w: World, l: nat, j: nat, row: seq<nat>, n: nat)
    requires Calm(w, l, j, row, n)
    ensures row[j] != 0 && w.tasks[row[j]].level == l < LEVELS
    ensures forall ticks: nat :: |Skips(row, n, w.tasks, ticks)| == n && !Skips(row, n, w.tasks, ticks)[j]
    ensures forall k: nat :: Runnable(w.tasks[row[j]], w.clock(k)[l])
  {
    NotNull(w.slot, w.tasks, row[j]);
    assert RowOk(w.slot[l], w.count[l], l, w.tasks);
  }

  /** The choice falls on level l. */
  lemma ChosenLevel(w: World, l: nat, j: nat, row: seq<nat>, n: nat, level: nat, chosen: nat, k: nat)
    requires Calm(w, l, j, row, n) && level < LEVELS
    requires chosen in w.tasks && w.tasks[chosen].level == level && Runnable(w.tasks[chosen], w.clock(k)[level])
    requires forall id :: id in w.tasks && level < w.tasks[id].level < LEVELS ==>
      !Runnable(w.tasks[id], w.clock(k)[w.tasks[id].level])
    ensures level == l
  {
    CalmFacts(w, l, j, row, n);
    hide Skips, TableOk;
    assert level <= l;
    assert row[j] in w.tasks && Runnable(w.tasks[row[j]], w.clock(k)[l]);
    assert l <= level;
  }

  /** Fairness: whatever happens to the other tasks between the picks, a task that stays ready at a
      level whose slots stay, with nothing to run above it, is chosen within as many picks as its
      level has slots. */
  method FairPicks(t: Table, l: nat, j: nat, worlds: seq<World>) returns (picks: seq<nat>)
    requires t.Valid() && l < LEVELS == |t.slot| == |t.count| && |worlds| == t.count[l]
    requires 0 < |worlds| && forall k :: 0 <= k < |worlds| ==> Calm(worlds[k], l, j, t.slot[l], t.count[l])
    modifies t
    ensures |picks| == |worlds| && j in picks
    ensures t.Valid() && t.level == l && t.current == picks[|picks| - 1]
  {
    hide TableOk, Calm, IsFirst, Skips, Picks, RowsKept;
    ghost var row, n, views: seq<View> := t.slot[l], t.count[l], [];
    picks := [];
    var k := 0;
    while k < |worlds|
      invariant 0 <= k == |picks| == |views| <= |worlds| && t.Valid()
      invariant k > 0 ==> t.level == l && t.current == picks[k - 1] && t.last[l] == picks[k - 1]
      invariant forall v :: 0 <= v < k ==> Waits(views[v], n, j) && IsFirst(views[v].last, views[v].skip, picks[v])
      invariant forall v :: 0 < v < k ==> views[v].last == picks[v - 1]
    {
      var w := worlds[k];
      assert Calm(w, l, j, row, n);
      CalmParts(w, l, j, row, n);
      CalmFacts(w, l, j, row, n);
      t.slot, t.count, t.tasks := w.slot, w.count, w.tasks;
      ghost var c := t.last[l];
      var calls := t.Select(w.clock, row[j], 0);
      RowAtTable(t.slot, t.count, t.tasks);
      ChosenLevel(w, l, j, row, n, t.level, t.slot[t.level][t.current], calls - 1);
      KeptRow(w.slot, w.count, t.slot, t.count, w.tasks, l);
      views := views + [View(c, Skips(row, n, w.tasks, w.clock(calls - 1)[l]))];
      picks := picks + [t.current];
      k := k + 1;
    }
    FairViews(views, picks, n, j);
  }

  lemma CalmParts(w: World, l: nat, j: nat, row: seq<nat>, n: nat)
    requires Calm(w, l, j, row, n)
    ensures TableOk(w.slot, w.count, w.tasks) && l < |w.slot| == |w.count| == LEVELS && w.slot[l] == row && w.count[l] == n
    ensures j < n <= |row| && row[j] in w.tasks && NoneDead(w.tasks, l) && forall k: nat :: |w.clock(k)| == LEVELS
  {
  }

  lemma KeptRow(slot: seq<seq<nat>>, count: seq<nat>, slot': seq<seq<nat>>, count': seq<nat>, tasks: map<nat, Task>, l: nat)
    requires RowsKept(slot, count, slot', count', tasks) && l < LEVELS && NoneDead(tasks, l)
    ensures slot'[l] == slot[l] && count'[l] == count[l]
  {
  }

  /** Slot j waits in this view. */
  predicate Waits(v: View, n: nat, j: nat) {
    -1 <= v.last && |v.skip| == n && j < n && !v.skip[j]
  }

  lemma FairViews(views: seq<View>, picks: seq<nat>, n: nat, j: nat)
    requires |views| == |picks| == n && 0 < n
    requires forall v :: 0 <= v < n ==> Waits(views[v], n, j) && IsFirst(views[v].last, views[v].skip, picks[v])
    requires forall v :: 0 < v < n ==> views[v].last == picks[v - 1]
    ensures j in picks
  {
    hide IsFirst;
    var run := views + [View(picks[n - 1], seq(n, (i: nat) => false))];
    assert Waits(views[0], n, j);
    forall v | 1 <= v < |run|
      ensures Follows(run[v - 1], run[v])
    {
      assert run[v].last == picks[v - 1];
      assert IsFirst(views[v - 1].last, views[v - 1].skip, picks[v - 1]);
    }
    assert Picks(run, n, j);
    Fair(run, n, j);
    var v :| 1 <= v <= n && run[v].last == j;
    assert picks[v - 1] == j;
  }
}
