/** sort_tasklist and run_tasklist of experiment/os/exp3/priority.c, on a list of process control blocks. */
module TaskList {
  import opened Sums
  import opened Scheduling

  class Pcb {
    const id: int
    var priority: int
    var cputime: int
    var needtime: int
    var startblock: int
    var blocktime: int
    var state: State

    constructor (id: int, priority: int, cputime: int, needtime: int, startblock: int, blocktime: int, state: State)
      ensures Value() == Task(id, priority, cputime, needtime, startblock, blocktime, state)
    {
      this.id, this.priority, this.cputime, this.needtime := id, priority, cputime, needtime;
      this.startblock, this.blocktime, this.state := startblock, blocktime, state;
    }

    function Value(): Task
      reads this
    {
      Task(id, priority, cputime, needtime, startblock, blocktime, state)
    }

    /** What one slice does to the block, and whether it is counted as finished. */
    method Tick() returns (finished: bool)
      modifies this
      ensures Value() == Scheduling.Tick(old(Value())) && finished == old(state.FINISH?)
    {
      finished := false;
      if state == READY {
        priority := priority + 1;
      } else if state == RUNNING {
        if needtime > 0 {
          needtime := needtime - 1;
          cputime := cputime + 1;
        }
        if needtime == 0 {
          state := FINISH;
        }
        priority := priority - 3;
        if startblock >= 0 {
          startblock := startblock - 1;
        }
        if startblock == 0 {
          state := BLOCK;
        }
      } else if state == BLOCK {
        if blocktime > 0 {
          blocktime := blocktime - 1;
        }
        if blocktime == 0 {
          state := READY;
        }
      } else if state == FINISH {
        finished := true;
      }
    }
  }

  ghost predicate Different(tasks: seq<Pcb>) {
    forall i, j :: 0 <= i < j < |tasks| ==> tasks[i] != tasks[j]
  }

  ghost function Blocks(tasks: seq<Pcb>): set<Pcb> {
    set p | p in tasks
  }

  /** The table of tasks, in the order in which they were created. */
  ghost function Table(tasks: seq<Pcb>): (r: seq<Task>)
    reads Blocks(tasks)
    ensures |r| == |tasks| && forall k :: 0 <= k < |r| ==> r[k] == tasks[k].Value()
  {
    seq(|tasks|, k requires 0 <= k < |tasks| reads Blocks(tasks) => tasks[k].Value())
  }

  /** cmp(x, y) <= 0 as far as it is consistent: the running task first, then the ready ones by falling priority. */
  ghost predicate NotBehind(x: Pcb, y: Pcb)
    reads x, y
  {
    x.state == RUNNING || (y.state != RUNNING &&
    (x.state == READY ==> y.state != READY || x.priority >= y.priority) && (x.state != READY ==> y.state != READY))
  }

  ghost predicate Sorted(s: seq<Pcb>)
    reads Blocks(s)
  {
    forall i, j :: 0 <= i < j < |s| ==> NotBehind(s[i], s[j])
  }

  /** t holds the same blocks as s, each once. */
  ghost predicate Reordered(s: seq<Pcb>, t: seq<Pcb>) {
    |s| == |t| && Different(s) && Different(t) && Blocks(s) == Blocks(t)
  }

  lemma Swapped(tasks: seq<Pcb>, s: seq<Pcb>, i: nat, k: nat)
    requires Reordered(tasks, s) && i < |s| && k < |s|
    ensures Reordered(tasks, s[i := s[k]][k := s[i]])
  {
    var t := s[i := s[k]][k := s[i]];
    forall x | x in s ensures x in t {
      var j :| 0 <= j < |s| && s[j] == x;
      assert t[if j == i then k else if j == k then i else j] == x;
    }
    forall x | x in t ensures x in s {
    }
  }

  lemma IndexOf(tasks: seq<Pcb>, s: seq<Pcb>, i: nat) returns (k: nat)
    requires Reordered(tasks, s) && i < |s|
    ensures k < |tasks| && tasks[k] == s[i]
  {
    assert s[i] in Blocks(s);
    k :| k < |tasks| && tasks[k] == s[i];
  }

  /** In a sorted table the first ready task has the highest priority of all, and no task is running behind it. */
  lemma ChosenReady(tasks: seq<Pcb>, order: seq<Pcb>, i: nat, k: nat)
    requires Reordered(tasks, order) && Sorted(order) && i < |order| && order[0].state != RUNNING && order[i].state == READY
    requires forall j :: 0 <= j < i ==> order[j].state != READY
    requires k < |tasks| && tasks[k] == order[i]
    ensures Chosen(Table(tasks), k)
  {
    forall j | 0 <= j < |tasks|
      ensures tasks[j].state != RUNNING && (tasks[j].state == READY ==> tasks[j].priority <= tasks[k].priority)
    {
      var x := IndexOf(order, tasks, j);
      assert x > 0 ==> NotBehind(order[0], order[x]);
      assert i < x ==> NotBehind(order[i], order[x]);
    }
    assert Table(tasks)[k].state == READY;
  }

  lemma ChosenNone(tasks: seq<Pcb>, order: seq<Pcb>)
    requires Reordered(tasks, order) && Sorted(order) && |order| > 0 && order[0].state != RUNNING
    requires forall j :: 0 <= j < |order| ==> order[j].state != READY
    ensures Chosen(Table(tasks), -1)
  {
    forall j | 0 <= j < |tasks| ensures tasks[j].state != RUNNING && tasks[j].state != READY {
      var x := IndexOf(order, tasks, j);
      assert x > 0 ==> NotBehind(order[0], order[x]);
    }
  }

  lemma OnlyOnce(tasks: seq<Pcb>, order: seq<Pcb>, i: nat)
    requires Reordered(tasks, order) && i < |order|
    ensures order[i] in Blocks(tasks) && forall j :: 0 <= j < |order| && j != i ==> order[j] != order[i]
  {
    assert order[i] in Blocks(order);
  }

  lemma SameBlocks(tasks: seq<Pcb>, order: seq<Pcb>)
    requires Reordered(tasks, order)
    ensures forall p :: p in tasks <==> p in order
  {
    assert forall p :: p in tasks <==> p in Blocks(tasks);
    assert forall p :: p in order <==> p in Blocks(order);
  }

  /** In no table before a slice have all tasks finished, but for the last of them if `done` says so. */
  ghost predicate FirstSeen(r: seq<seq<Task>>, now: nat, done: bool) {
    now <= |r| && forall i :: 0 <= i < now ==> (AllFinished(r[i]) <==> done && i == now - 1)
  }

  lemma NotYetSeen(r: seq<seq<Task>>)
    ensures FirstSeen(r, 0, false) && FirstSeen(r, 0, true)
  {
  }

  lemma SeenNext(r: seq<seq<Task>>, now: nat, next: seq<Task>)
    requires FirstSeen(r, now, false) && |r| == now + 1
    ensures FirstSeen(r + [next], now + 1, AllFinished(r[now]))
  {
  }

  class Tasks {
    const at: array<Pcb>
    const length: nat
    var finished: nat
    /** The tasks as they were read in. */
    ghost const tasks: seq<Pcb>

    constructor (at: array<Pcb>)
      requires Different(at[..])
      ensures Valid() && this.at == at && tasks == at[..] && finished == 0
    {
      this.at, this.length, this.finished, this.tasks := at, at.Length, 0, at[..];
    }

    ghost predicate Valid()
      reads at
    {
      length <= at.Length && Reordered(tasks, at[..length])
    }

    /** qsort with cmp; how it orders tasks that are blocked or finished, or ready with equal priorities, is left open. */
    method SortTasklist()
      requires Valid()
      modifies at
      ensures Valid() && Sorted(at[..length])
    {
      var i := 0;
      while i < length
        invariant i <= length && Valid()
        invariant forall x, y :: 0 <= x < i && x < y < length ==> NotBehind(at[x], at[y])
      {
        hide NotBehind, Reordered;
        var k := FirstOf(i);
        Swap(i, k);
        i := i + 1;
      }
    }

    method Swap(i: nat, k: nat)
      requires Valid() && i <= k < length
      modifies at
      ensures Valid() && at[i] == old(at[k]) && at[k] == old(at[i])
      ensures forall x :: 0 <= x < length && x != i && x != k ==> at[x] == old(at[x])
    {
      Swapped(tasks, at[..length], i, k);
      ghost var s := at[..length];
      at[i], at[k] := at[k], at[i];
      assert at[..length] == s[i := s[k]][k := s[i]];
    }

    method FirstOf(i: nat) returns (k: nat)
      requires Valid() && i < length
      ensures i <= k < length && forall y :: i <= y < length ==> NotBehind(at[k], at[y])
    {
      k := i;
      for j := i + 1 to length
        invariant i <= k < j && forall y :: i <= y < j ==> NotBehind(at[k], at[y])
      {
        if at[k].state != RUNNING &&
           (at[j].state == RUNNING || (at[j].state == READY && (at[k].state != READY || at[j].priority > at[k].priority))) {
          k := j;
        }
      }
    }
  
    /** The first ready task starts to run, unless there is a running one. */
    method Dispatch() returns (ghost k: int)
      requires Valid() && Sorted(at[..length]) && length > 0
      modifies Blocks(tasks)
      ensures Chosen(old(Table(tasks)), k) && Table(tasks) == Dispatched(old(Table(tasks)), k)
    {
      ghost var order := at[..length];
      if at[0].state != RUNNING {
        var i := FirstReady();
        if i < length {
          k := IndexOf(tasks, order, i);
          ChosenReady(tasks, order, i, k);
          at[i].state := RUNNING;
          assert Table(tasks) == Dispatched(old(Table(tasks)), k);
        } else {
          k := -1;
          ChosenNone(tasks, order);
        }
      } else {
        k := IndexOf(tasks, order, 0);
        assert Table(tasks)[k].state == RUNNING;
        assert Table(tasks) == Dispatched(Table(tasks), k);
      }
    }

    method FirstReady() returns (i: nat)
      requires Valid()
      ensures i <= length && (i < length ==> at[i].state == READY)
      ensures forall j :: 0 <= j < i ==> at[j].state != READY
    {
      i := 0;
      while i < length
        invariant i <= length && forall j :: 0 <= j < i ==> at[j].state != READY
      {
        if at[i].state == READY {
          break;
        }
        i := i + 1;
      }
    }

    /** Each task goes through its slice; those that had finished before are counted. */
    method TickAll()
      requires Valid()
      modifies this`finished, Blocks(tasks)
      ensures Valid() && forall p :: p in tasks ==> p.Value() == Scheduling.Tick(old(p.Value()))
      ensures finished <= length && (finished == length <==> forall p :: p in tasks ==> old(p.state) == FINISH)
    {
      hide Different;
      var count := 0;
      ghost var order := at[..length];
      for i := 0 to length
        invariant at[..length] == order && count <= i
        invariant forall j :: 0 <= j < i ==> order[j].Value() == Scheduling.Tick(old(order[j].Value()))
        invariant forall j :: i <= j < length ==> order[j].Value() == old(order[j].Value())
        invariant count == i <==> forall j :: 0 <= j < i ==> old(order[j].state) == FINISH
      {
        OnlyOnce(tasks, order, i);
        var done := at[i].Tick();
        count := if done then count + 1 else count;
      }
      finished := count;
      SameBlocks(tasks, order);
    }

    /** One turn of the loop. */
    method RunSlice() returns (ghost k: int)
      requires Valid() && length > 0
      modifies this`finished, at, Blocks(tasks)
      ensures Valid() && Chosen(old(Table(tasks)), k) && Table(tasks) == Slice(old(Table(tasks)), k)
      ensures finished <= length && (finished == length <==> AllFinished(old(Table(tasks))))
    {
      hide Scheduling.Tick, Reordered, Chosen, Sorted;
      ghost var before := Table(tasks);
      SortTasklist();
      assert Table(tasks) == before;
      k := Dispatch();
      ghost var d := Table(tasks);
      assert forall j :: 0 <= j < |d| ==> tasks[j] in tasks && d[j] == tasks[j].Value();
      TickAll();
      assert Table(tasks) == Map(d, Scheduling.Tick);
      StillFinished(before, k);
      assert finished == length <==> AllFinished(d);
    }

    /** r is the table at each turn so far, ks who got the slices. */
    ghost predicate Going(r: seq<seq<Task>>, ks: seq<int>)
      reads this, at, Blocks(tasks)
    {
      Valid() && Run(r, ks) && |r| == |ks| + 1 && r[|ks|] == Table(tasks) && finished <= length &&
      (ks == [] ==> finished == 0) && (length == 0 ==> ks == []) && FirstSeen(r, |ks|, finished == length) &&
      |ks| <= Sum(r[0], Left) + 1 &&
      if finished < length then Sum(r[|ks|], Left) + |ks| <= Sum(r[0], Left) else AllFinished(r[|ks|])
    }

    /** One turn of the loop. */
    method Turn(ghost r: seq<seq<Task>>, ghost ks: seq<int>) returns (ghost rr: seq<seq<Task>>, ghost kks: seq<int>)
      requires Going(r, ks) && finished < length
      modifies this`finished, at, Blocks(tasks)
      ensures Going(rr, kks) && |kks| == |ks| + 1 && |rr| > 0 && |r| > 0 && rr[0] == r[0]
    {
      hide AllFinished, Sum, Good, Run, FirstSeen, Chosen, Slice, Reordered;
      var k := RunSlice();
      RunGoesOn(r, ks, k);
      SeenNext(r, |ks|, Table(tasks));
      rr, kks := r + [Table(tasks)], ks + [k];
    }

    lemma GoingStarts()
      requires Valid() && Good(Table(tasks)) && finished == 0
      ensures Going([Table(tasks)], [])
    {
      hide Sum, Run, Good, Different;
      RunStarts(Table(tasks));
      NotYetSeen([Table(tasks)]);
    }

    lemma GoingEnds(r: seq<seq<Task>>, ks: seq<int>)
      requires Going(r, ks)
      ensures |r| > 0 && Valid() && Run(r, ks) && |ks| <= Sum(r[0], Left) + 1 && |r| == |ks| + 1 && r[|ks|] == Table(tasks)
      ensures finished >= length ==> AllFinished(r[|ks|]) && FirstSeen(r, |ks|, true) && (ks == [] <==> length == 0)
    {
      hide Sum, Reordered, AllFinished, Run;
    }

    /** Slice after slice until all tasks are found finished; r is the table at each turn, ks who got the slices. */
    method RunTasklist() returns (now: nat, ghost r: seq<seq<Task>>, ghost ks: seq<int>)
      requires Valid() && Good(Table(tasks)) && finished == 0
      modifies this`finished, at, Blocks(tasks)
      ensures Valid() && Run(r, ks) && now == |ks|
      ensures |r| == now + 1 && r[0] == old(Table(tasks)) && r[now] == Table(tasks) && AllFinished(Table(tasks))
      ensures now <= Sum(r[0], Left) + 1
      ensures (now == 0 <==> length == 0) && FirstSeen(r, now, true)
    {
      hide *;
      now, r, ks := 0, [Table(tasks)], [];
      GoingStarts();
      GoingEnds(r, ks);
      while finished < length
        invariant Going(r, ks) && now == |ks| && |r| > 0 && r[0] == old(Table(tasks)) && now <= Sum(r[0], Left) + 1
        decreases Sum(r[0], Left) + 1 - now
      {
        r, ks := Turn(r, ks);
        now := now + 1;
        GoingEnds(r, ks);
      }
      GoingEnds(r, ks);
    }
  }
}
