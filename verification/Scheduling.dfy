module Scheduling {
  // The priority scheduler of experiment/os/exp3/priority.c as steps on the table of tasks.

  import opened Sums

  datatype State = READY | RUNNING | BLOCK | FINISH

  datatype Task = Task(id: int, priority: int, cputime: int, needtime: int, startblock: int, blocktime: int, state: State)

  // ---- one slice of time ----

  /** What a slice does to the task that runs. A task that is to block does so even when it has just finished. */
  function Ran(t: Task): Task {
    var need := if t.needtime > 0 then t.needtime - 1 else t.needtime;
    var cpu := if t.needtime > 0 then t.cputime + 1 else t.cputime;
    var start := if t.startblock >= 0 then t.startblock - 1 else t.startblock;
    t.(needtime := need, cputime := cpu, priority := t.priority - 3, startblock := start,
       state := if start == 0 then BLOCK else if need == 0 then FINISH else RUNNING)
  }

  function Waited(t: Task): Task {
    var time := if t.blocktime > 0 then t.blocktime - 1 else t.blocktime;
    t.(blocktime := time, state := if time == 0 then READY else BLOCK)
  }

  function Tick(t: Task): Task {
    match t.state
    case READY => t.(priority := t.priority + 1)
    case RUNNING => Ran(t)
    case BLOCK => Waited(t)
    case FINISH => t
  }

  predicate Idle(s: seq<Task>) {
    forall j :: 0 <= j < |s| ==> s[j].state != RUNNING
  }

  predicate NoneReady(s: seq<Task>) {
    forall j :: 0 <= j < |s| ==> s[j].state != READY
  }

  /** k is ready, and no task that is ready has a higher priority. */
  predicate TopReady(s: seq<Task>, k: int) {
    0 <= k < |s| && s[k].state == READY && forall j :: 0 <= j < |s| && s[j].state == READY ==> s[j].priority <= s[k].priority
  }

  /** The task that gets the slice: the running one, else a ready one of the highest priority, else none (-1). */
  predicate Chosen(s: seq<Task>, k: int) {
    if !Idle(s) then 0 <= k < |s| && s[k].state == RUNNING
    else if NoneReady(s) then k == -1
    else TopReady(s, k)
  }

  function Dispatched(s: seq<Task>, k: int): (r: seq<Task>)
    ensures |r| == |s|
  {
    if 0 <= k < |s| then s[k := s[k].(state := RUNNING)] else s
  }

  function Slice(s: seq<Task>, k: int): (r: seq<Task>)
    ensures |r| == |s|
  {
    Map(Dispatched(s, k), Tick)
  }

  lemma SliceAt(s: seq<Task>, k: int, j: nat)
    requires j < |s|
    ensures Slice(s, k)[j] == if j == k then Tick(s[j].(state := RUNNING)) else Tick(s[j])
  {
  }

  // ---- runs ----

  // The task will never finish: it needs a negative time, which no slice brings to zero, or it waits for a
  // negative time, or it will, because the slice in which it blocks comes before its last one or is its last.
  predicate NeverDone(t: Task) {
    t.state != FINISH &&
    (t.needtime < 0 ||
     (t.blocktime < 0 && (t.state == BLOCK || 0 < t.startblock <= if t.needtime > 1 then t.needtime else 1)))
  }

  predicate OneRunning(s: seq<Task>) {
    forall i, j :: 0 <= i < j < |s| ==> s[i].state != RUNNING || s[j].state != RUNNING
  }

  /** Every task can finish, and at most one is running. */
  predicate Good(s: seq<Task>) {
    (forall j :: 0 <= j < |s| ==> !NeverDone(s[j])) && OneRunning(s)
  }

  predicate AllFinished(s: seq<Task>) {
    forall j :: 0 <= j < |s| ==> s[j].state == FINISH
  }

  predicate StepAt(r: seq<seq<Task>>, ks: seq<int>, i: nat) {
    i < |ks| && i + 1 < |r| && Chosen(r[i], ks[i]) && r[i + 1] == Slice(r[i], ks[i])
  }

  /** r is the table before and after each slice, ks the tasks that got the slices. */
  ghost predicate Slices(r: seq<seq<Task>>, ks: seq<int>) {
    |r| == |ks| + 1 && forall i: nat :: i < |ks| ==> StepAt(r, ks, i)
  }

  /** The same from a table in which every task can finish. */
  ghost predicate Run(r: seq<seq<Task>>, ks: seq<int>) {
    Slices(r, ks) && Good(r[0])
  }

  lemma GoodStep(s: seq<Task>, k: int)
    requires Good(s) && Chosen(s, k)
    ensures Good(Dispatched(s, k)) && Good(Slice(s, k))
  {
    var d := Dispatched(s, k);
    assert Good(d);
    forall j | 0 <= j < |s| ensures Slice(s, k)[j] == Tick(d[j]) && !NeverDone(Slice(s, k)[j]) {
      DoneKept(d[j]);
    }
  }

  /** No slice, with the processor or without, changes whether a task can finish. */
  lemma DoneKept(t: Task)
    ensures NeverDone(t) <==> NeverDone(Tick(t))
    ensures t.state == READY ==> (NeverDone(t) <==> NeverDone(t.(state := RUNNING)))
  {
  }

  /** At most one task is running, before and during each slice. */
  lemma {:induction false} OneRunsAlways(r: seq<seq<Task>>, ks: seq<int>, i: nat)
    requires Run(r, ks) && i < |r|
    ensures Good(r[i]) && |r[i]| == |r[0]| && (i < |ks| ==> Good(Dispatched(r[i], ks[i])))
  {
    hide Good, Chosen, Slice, Dispatched;
    if i > 0 {
      OneRunsAlways(r, ks, i - 1);
      assert StepAt(r, ks, i - 1);
      GoodStep(r[i - 1], ks[i - 1]);
    }
    if i < |ks| {
      assert StepAt(r, ks, i);
      GoodStep(r[i], ks[i]);
    }
  }

  /** A step of a run, task by task. */
  lemma TaskStep(r: seq<seq<Task>>, ks: seq<int>, i: nat, k: nat)
    requires Run(r, ks) && i < |ks| && k < |r[0]|
    ensures |r[i]| == |r[i + 1]| == |r[0]| && Good(r[i]) && Chosen(r[i], ks[i])
    ensures r[i + 1][k] == if ks[i] == k then Ran(r[i][k].(state := RUNNING)) else Tick(r[i][k])
    ensures r[i][k].state == RUNNING ==> ks[i] == k
  {
    hide Good, Slice, Dispatched;
    OneRunsAlways(r, ks, i);
    OneRunsAlways(r, ks, i + 1);
    assert StepAt(r, ks, i);
    SliceAt(r[i], ks[i], k);
    OnlyOne(r[i], ks[i], k);
  }

  lemma OnlyOne(s: seq<Task>, c: int, k: nat)
    requires Good(s) && Chosen(s, c) && k < |s|
    ensures s[k].state == RUNNING ==> c == k
  {
  }

  /** Another task gets a slice only when the one that had the processor has blocked or finished in between. */
  lemma {:induction false} NeverPreempted(r: seq<seq<Task>>, ks: seq<int>, i: nat, j: nat) returns (m: nat)
    requires Run(r, ks) && i < j < |ks| && ks[i] >= 0 && ks[j] != ks[i]
    ensures i < m <= j && ks[i] < |r[m]| && r[m][ks[i]].state in {BLOCK, FINISH}
    decreases j - i
  {
    OneRunsAlways(r, ks, i);
    assert StepAt(r, ks, i);
    var k := ks[i];
    TaskStep(r, ks, i, k);
    TaskStep(r, ks, i + 1, k);
    if r[i + 1][k].state == RUNNING {
      m := NeverPreempted(r, ks, i + 1, j);
    } else {
      m := i + 1;
    }
  }

  /** Time that is used is time that was needed: their sum never changes, nor does the name of a task. */
  lemma {:induction false} WorkKept(r: seq<seq<Task>>, ks: seq<int>, i: nat, k: nat)
    requires Run(r, ks) && i < |r| && k < |r[0]|
    ensures |r[i]| == |r[0]| && r[i][k].id == r[0][k].id
    ensures r[i][k].cputime + r[i][k].needtime == r[0][k].cputime + r[0][k].needtime
  {
    if i > 0 {
      WorkKept(r, ks, i - 1, k);
      TaskStep(r, ks, i - 1, k);
    }
  }

  // ---- blocking ----

  predicate EntersBlock(r: seq<seq<Task>>, i: nat, k: nat) {
    i + 1 < |r| && k < |r[i]| && k < |r[i + 1]| && r[i][k].state != BLOCK && r[i + 1][k].state == BLOCK
  }

  lemma {:induction false} StartFalls(r: seq<seq<Task>>, ks: seq<int>, i: nat, j: nat, k: nat)
    requires Run(r, ks) && i <= j < |r| && k < |r[0]|
    ensures |r[i]| == |r[j]| == |r[0]| && (r[i][k].startblock <= 0 ==> r[j][k].startblock <= 0)
    decreases j
  {
    OneRunsAlways(r, ks, i);
    if i < j {
      StartFalls(r, ks, i, j - 1, k);
      TaskStep(r, ks, j - 1, k);
    }
  }

  /** A task blocks at most once after the start. */
  lemma BlocksOnce(r: seq<seq<Task>>, ks: seq<int>, i: nat, j: nat, k: nat)
    requires Run(r, ks) && k < |r[0]| && EntersBlock(r, i, k) && EntersBlock(r, j, k)
    ensures i == j
  {
    TaskStep(r, ks, i, k);
    TaskStep(r, ks, j, k);
    if i < j {
      StartFalls(r, ks, i + 1, j, k);
    } else if j < i {
      StartFalls(r, ks, j + 1, i, k);
    }
  }

  // ---- the fields of a task, from what they were at the start ----

  /** How many of the first i slices the task k has got. */
  function Slots(ks: seq<int>, k: nat, i: nat): nat
    requires i <= |ks|
  {
    if i == 0 then 0 else Slots(ks, k, i - 1) + if ks[i - 1] == k then 1 else 0
  }

  /** In how many of the first i slices it was in that state and did not get the processor. */
  function Spent(r: seq<seq<Task>>, ks: seq<int>, k: nat, i: nat, state: State): nat
    requires i <= |ks| <= |r| && forall j :: 0 <= j < |r| ==> k < |r[j]|
  {
    if i == 0 then 0
    else Spent(r, ks, k, i - 1, state) + if ks[i - 1] != k && r[i - 1][k].state == state then 1 else 0
  }

  /** n counted down, but not below zero. */
  function Down(n: int, m: nat): int {
    if n <= 0 then n else if n <= m then 0 else n - m
  }

  /** A time to block goes below zero, once. */
  function DownOnce(n: int, m: nat): int {
    if n < 0 then n else if n < m then -1 else n - m
  }

  lemma {:induction false} AllThere(r: seq<seq<Task>>, ks: seq<int>, k: nat)
    requires Run(r, ks) && k < |r[0]|
    ensures forall j :: 0 <= j < |r| ==> k < |r[j]|
  {
    forall j | 0 <= j < |r| ensures k < |r[j]| {
      OneRunsAlways(r, ks, j);
    }
  }

  // Waiting for the processor raises the priority by one a slice, having it costs three, and being blocked or
  // finished changes nothing. The times count down with the slices that they are about.
  lemma {:induction false} FieldsAfter(r: seq<seq<Task>>, ks: seq<int>, i: nat, k: nat)
    requires Run(r, ks) && i < |r| && k < |r[0]| && forall j :: 0 <= j < |r| ==> k < |r[j]|
    ensures var t, u, n := r[0][k], r[i][k], Slots(ks, k, i);
      u.id == t.id &&
      u.priority == t.priority + Spent(r, ks, k, i, READY) - 3 * n &&
      u.needtime == Down(t.needtime, n) && u.cputime == t.cputime + t.needtime - u.needtime &&
      u.startblock == DownOnce(t.startblock, n) &&
      u.blocktime == Down(t.blocktime, Spent(r, ks, k, i, BLOCK))
  {
    if i > 0 {
      FieldsAfter(r, ks, i - 1, k);
      TaskStep(r, ks, i - 1, k);
    }
  }

  // The state after a slice. A task that has got its n-th slice is blocked if that is the one in which it is to
  // block, else it has finished if it needed no more than n, else it goes on; a blocked one is ready again when
  // it has been blocked for as long as it is to be.
  lemma StateAfter(r: seq<seq<Task>>, ks: seq<int>, i: nat, k: nat)
    requires Run(r, ks) && i < |ks| && k < |r[0]| && forall j :: 0 <= j < |r| ==> k < |r[j]|
    ensures var t, n := r[0][k], Slots(ks, k, i + 1);
      r[i + 1][k].state ==
        if ks[i] == k then if n == t.startblock then BLOCK else if n >= t.needtime then FINISH else RUNNING
        else if r[i][k].state == BLOCK && Spent(r, ks, k, i + 1, BLOCK) >= t.blocktime then READY
        else r[i][k].state
  {
    FieldsAfter(r, ks, i, k);
    FieldsAfter(r, ks, i + 1, k);
    TaskStep(r, ks, i, k);
  }

  // Who gets a slice: the task that is running, else one with the highest priority of all that are ready, and
  // none only if there is no such task.
  lemma PriorityDecides(r: seq<seq<Task>>, ks: seq<int>, i: nat, k: nat)
    requires Run(r, ks) && i < |ks| && k < |r[0]| && forall j :: 0 <= j < |r| ==> k < |r[j]|
    ensures r[i][k].state == RUNNING ==> ks[i] == k
    ensures ks[i] == k ==> r[i][k].state in {RUNNING, READY}
    ensures ks[i] == k && r[i][k].state == READY ==> forall j :: 0 <= j < |r[i]| ==>
      r[i][j].state != RUNNING && (r[i][j].state == READY ==> r[i][j].priority <= r[i][k].priority)
    ensures r[i][k].state == READY ==> 0 <= ks[i] < |r[i]|
  {
    TaskStep(r, ks, i, k);
  }

  // ---- the end ----

  function Rank(st: State): nat {
    match st
    case BLOCK => 3
    case READY => 2
    case RUNNING => 1
    case FINISH => 0
  }

  function Positive(x: int): nat {
    if x < 0 then 0 else x
  }

  function Left(t: Task): nat {
    4 * (Positive(t.needtime) + Positive(t.startblock)) + Positive(t.blocktime) + Rank(t.state)
  }

  lemma TickLeft(t: Task)
    requires !NeverDone(t)
    ensures Left(Tick(t)) <= Left(t) && (t.state in {RUNNING, BLOCK} ==> Left(Tick(t)) < Left(t))
  {
  }

  lemma {:induction false} TickAllLeft(s: seq<Task>)
    requires forall j :: 0 <= j < |s| ==> !NeverDone(s[j])
    ensures Sum(Map(s, Tick), Left) <= Sum(s, Left)
    ensures (exists j :: 0 <= j < |s| && s[j].state in {RUNNING, BLOCK}) ==> Sum(Map(s, Tick), Left) < Sum(s, Left)
  {
    hide Tick, Left;
    if s != [] {
      TickLeft(s[0]);
      TickAllLeft(s[1..]);
      assert Map(s, Tick)[1..] == Map(s[1..], Tick);
      forall j | 1 <= j < |s| && s[j].state in {RUNNING, BLOCK} ensures Sum(Map(s, Tick), Left) < Sum(s, Left) {
        assert s[1..][j - 1].state in {RUNNING, BLOCK};
      }
    }
  }

  lemma {:induction false} DispatchLeft(s: seq<Task>, k: int)
    requires Chosen(s, k)
    ensures Sum(Dispatched(s, k), Left) <= Sum(s, Left)
  {
    if 0 <= k < |s| {
      SumUpdate(s, k, s[k].(state := RUNNING), Left);
    }
  }

  /** Each slice brings the end nearer, unless all tasks have finished; then it changes nothing. */
  lemma {:induction false} SliceLeft(s: seq<Task>, k: int)
    requires Good(s) && Chosen(s, k)
    ensures AllFinished(s) ==> Slice(s, k) == s
    ensures !AllFinished(s) ==> Sum(Slice(s, k), Left) < Sum(s, Left)
  {
    hide Sum, Left;
    var d := Dispatched(s, k);
    GoodStep(s, k);
    DispatchLeft(s, k);
    TickAllLeft(d);
    if AllFinished(s) {
      assert Slice(s, k) == s;
    } else if k >= 0 {
      assert d[k].state == RUNNING;
    } else {
      var j :| 0 <= j < |s| && s[j].state != FINISH;
      assert d[j].state == BLOCK;
    }
  }

  lemma StillFinished(s: seq<Task>, k: int)
    requires Chosen(s, k)
    ensures AllFinished(Dispatched(s, k)) <==> AllFinished(s)
  {
    if k >= 0 {
      assert Dispatched(s, k)[k].state == RUNNING && s[k].state != FINISH;
    }
  }

  lemma RunStarts(s: seq<Task>)
    requires Good(s)
    ensures Run([s], []) && (|s| == 0 ==> AllFinished(s))
  {
  }

  /** One more slice makes a longer run, and either brings the end nearer or finds it reached. */
  lemma RunGoesOn(r: seq<seq<Task>>, ks: seq<int>, k: int)
    requires Run(r, ks) && Chosen(r[|ks|], k)
    ensures Run(r + [Slice(r[|ks|], k)], ks + [k])
    ensures AllFinished(r[|ks|]) ==> Slice(r[|ks|], k) == r[|ks|]
    ensures !AllFinished(r[|ks|]) ==> Sum(Slice(r[|ks|], k), Left) < Sum(r[|ks|], Left)
  {
    hide Chosen, Slice, Sum, Left;
    var r', ks' := r + [Slice(r[|ks|], k)], ks + [k];
    forall i: nat | i < |ks'| ensures StepAt(r', ks', i) {
      if i < |ks| {
        assert StepAt(r, ks, i);
      }
    }
    OneRunsAlways(r, ks, |ks|);
    SliceLeft(r[|ks|], k);
  }

  lemma StepOfRun(r: seq<seq<Task>>, ks: seq<int>, i: nat)
    requires Run(r, ks) && i + 1 < |r|
    ensures i < |ks| && Chosen(r[i], ks[i]) && r[i + 1] == Slice(r[i], ks[i])
  {
    hide Chosen, Slice, Good;
    assert StepAt(r, ks, i);
  }

  /** So all tasks have finished after so many slices as the initial table has work, waits and states left. */
  lemma {:induction false} RunEnds(r: seq<seq<Task>>, ks: seq<int>, i: nat)
    requires Run(r, ks) && i < |r|
    ensures AllFinished(r[i]) || Sum(r[i], Left) + i <= Sum(r[0], Left)
  {
    if i > 0 {
      hide *;
      RunEnds(r, ks, i - 1);
      OneRunsAlways(r, ks, i - 1);
      StepOfRun(r, ks, i - 1);
      SliceLeft(r[i - 1], ks[i - 1]);
    }
  }

  lemma {:induction false} FinishedIsDone(r: seq<seq<Task>>, ks: seq<int>, i: nat, k: nat)
    requires Run(r, ks) && i < |r| && k < |r[0]| && r[0][k].state != FINISH
    ensures |r[i]| == |r[0]| && (r[i][k].state == FINISH ==> r[i][k].needtime == 0)
  {
    if i > 0 {
      FinishedIsDone(r, ks, i - 1, k);
      TaskStep(r, ks, i - 1, k);
    }
  }

  /** A task that has finished, and had not at the start, has used exactly the time that it needed. */
  lemma FinishedUsedItsTime(r: seq<seq<Task>>, ks: seq<int>, i: nat, k: nat)
    requires Run(r, ks) && i < |r| && k < |r[0]| && r[0][k].state != FINISH
    ensures k < |r[i]| && (r[i][k].state == FINISH ==> r[i][k].cputime == r[0][k].cputime + r[0][k].needtime)
  {
    FinishedIsDone(r, ks, i, k);
    WorkKept(r, ks, i, k);
  }

  lemma {:induction false} SameLength(r: seq<seq<Task>>, ks: seq<int>, i: nat)
    requires Slices(r, ks) && i < |r|
    ensures |r[i]| == |r[0]|
  {
    if i > 0 {
      SameLength(r, ks, i - 1);
      assert StepAt(r, ks, i - 1);
    }
  }

  /** The condition on the times is exact: one task that can never finish keeps the scheduler running for ever. */
  lemma {:induction false} NeverEnds(r: seq<seq<Task>>, ks: seq<int>, i: nat, k: nat)
    requires Slices(r, ks) && i < |r| && k < |r[0]| && NeverDone(r[0][k])
    ensures k < |r[i]| && NeverDone(r[i][k]) && !AllFinished(r[i])
  {
    hide Tick, Slice, Chosen;
    SameLength(r, ks, i);
    if i > 0 {
      NeverEnds(r, ks, i - 1, k);
      SameLength(r, ks, i - 1);
      assert StepAt(r, ks, i - 1);
      StaysUndone(r[i - 1], ks[i - 1], k);
    }
  }

  lemma StaysUndone(s: seq<Task>, c: int, k: nat)
    requires Chosen(s, c) && k < |s| && NeverDone(s[k])
    ensures NeverDone(Slice(s, c)[k])
  {
    hide Tick, NeverDone;
    SliceAt(s, c, k);
    DoneKept(s[k]);
    if c == k {
      assert s[k].state == READY || s[k] == s[k].(state := RUNNING);
      DoneKept(s[k].(state := RUNNING));
    }
  }
}
