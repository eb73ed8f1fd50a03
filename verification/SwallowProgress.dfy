module SwallowProgress {
  // The protocol of SwallowProtocol comes to rest, and then nothing is left to do.

  import opened Sums
  import opened SwallowQueue
  import opened SwallowProtocol
  import opened SwallowPackets

  /** How much a thread has to do, counted so that every step but a look at numPktInDefer takes some of it. */
  function Cost(pc: Pc): nat {
    match pc
    case Checking => 6
    case Calling => 2
    case Due => 1
    case Draining(who) => Base(who) + 1
    case Injecting(who, todo) => Base(who) + 4 * |todo|
    case InHand(who, _, todo) => Base(who) + 4 * |todo| + 3
    case CountingDown(who, _, todo) => Base(who) + 4 * |todo| + 2
    case Waking(who, _, todo) => Base(who) + 4 * |todo| + 1
    case Finished => 1
    case Freeing(_) => 1
    case _ => 0
  }

  function Base(who: Runner): nat {
    if who == Timer then 2 else 1
  }

  function TimerCost(timer: TimerState): nat {
    if timer == Pending then 3 else 0
  }

  function IsWaiting(pc: Pc): nat {
    if pc.Waiting? then 1 else 0
  }

  function Work(s: State): nat {
    Sum(s.threads, Cost) + 4 * |s.g.queue| + TimerCost(s.g.timer)
  }

  /** No run of the threads alone is longer than this. */
  function Bound(s: State): nat {
    Work(s) * (|s.threads| + 1) + Sum(s.threads, IsWaiting)
  }

  /** The work of one thread and of what it shares with the others. */
  function WorkOf(g: Shared, pc: Pc): nat {
    Cost(pc) + 4 * |g.queue| + TimerCost(g.timer)
  }

  lemma CostMove(g: Shared, pc: Pc)
    requires CanMove(pc) && (Scheduled(pc) ==> g.timer == Pending) && (pc.Finished? ==> g.timer != Inactive)
    ensures !pc.Waiting? ==> WorkOf(MoveOf(g, pc).g, MoveOf(g, pc).pc) < WorkOf(g, pc)
    ensures pc.Waiting? ==>
      (WorkOf(MoveOf(g, pc).g, MoveOf(g, pc).pc) == WorkOf(g, pc) &&
      !MoveOf(g, pc).pc.Waiting? && MoveOf(g, pc).wake == None)
  {
    hide Keep, AddAll, Deferred;
    match pc
    case Draining(who) => KeepSplits(g.queue, if who == Timer then None else Some(who.so));
    case Freeing(e) => KeepSplits(g.queue, Some(e.so));
    case _ =>
  }

  lemma {:induction false} AtMostAll(threads: seq<Pc>)
    ensures Sum(threads, IsWaiting) <= |threads|
  {
    if threads != [] {
      AtMostAll(threads[1..]);
    }
  }

  /** Every step of a thread takes something away. */
  lemma StepsCost(s: State, t: nat)
    requires TimerOk(s) && CanDo(s, Run(t))
    ensures Bound(Do(s, Run(t))) < Bound(s)
  {
    hide MoveOf, Cost, Token, Bound;
    var m, r := MoveOf(s.g, s.threads[t]), Do(s, Run(t));
    CostIgnoresSleep();
    SumAtLeast(s.threads, t, Token);
    FinishedIsToken();
    CostMove(s.g, s.threads[t]);
    SumRan(s, t, m, Cost);
    if Work(r) == Work(s) {
      SumUpdate(s.threads, t, m.pc, IsWaiting);
    } else {
      AtMostAll(r.threads);
    }
    BoundGoesDown(s, r);
  }

  lemma FinishedIsToken()
    ensures Token(Finished) == 1
  {
  }

  lemma CostIgnoresSleep()
    ensures IgnoresSleep(Cost)
  {
  }

  lemma BoundGoesDown(s: State, r: State)
    requires |r.threads| == |s.threads|
    requires if Work(r) == Work(s) then Sum(r.threads, IsWaiting) < Sum(s.threads, IsWaiting)
      else Work(r) < Work(s) && Sum(r.threads, IsWaiting) <= |r.threads|
    ensures Bound(r) < Bound(s)
  {
    hide Work;
    if Work(r) != Work(s) {
      LessTimes(Work(r), Work(s), |s.threads| + 1);
    }
  }

  lemma {:induction false} LessTimes(a: nat, b: nat, n: nat)
    requires a < b
    ensures a * n + n <= b * n
    decreases b
  {
    OneTimesMore(b - 1, n);
    if a < b - 1 {
      LessTimes(a, b - 1, n);
    }
  }

  lemma OneTimesMore(m: nat, n: nat)
    ensures (m + 1) * n == m * n + n
  {
  }

  /** The threads run on, and nothing arrives from outside. */
  predicate Internal(run: seq<Action>) {
    forall i :: 0 <= i < |run| ==> run[i].Run?
  }

  predicate AtRest(s: State) {
    forall t :: 0 <= t < |s.threads| ==> !CanMove(s.threads[t])
  }

  /** No run of the threads alone goes on for ever. */
  lemma {:induction false} RunsEnd(s: State, run: seq<Action>)
    requires Invariant(s) && Possible(s, run) && Internal(run)
    ensures |run| + Bound(After(s, run)) <= Bound(s)
    decreases |run|
  {
    hide CanDo, Do, Bound, TimerOk, QueueOk, CountOk, SleepOk, PlaceOk;
    if run != [] {
      assert run[0].Run?;
      StepsCost(s, run[0].t);
      InvariantAlways(s, [run[0]]);
      assert [run[0]][1..] == [];
      RunsEnd(Do(s, run[0]), run[1..]);
    }
  }

  /** When no thread can go on, nothing is left to do. */
  lemma RestIsComplete(s: State)
    requires Invariant(s) && AtRest(s)
    ensures s.g.queue == [] && s.g.timer == Inactive
    ensures forall t :: 0 <= t < |s.threads| ==> s.threads[t].Returned? || s.threads[t].Done?
    ensures forall x :: x in s.swallowed ==> x in s.injected || x in s.freed
  {
    hide TimerOk, QueueOk, CountOk, SleepOk, PlaceOk, InFlight, Holding, Token;
    RestingTimer(s);
    forall t | 0 <= t < |s.threads| ensures s.threads[t].Returned? || s.threads[t].Done? {
      NobodySleeps(s, t);
    }
    forall x | x in s.swallowed ensures x in s.injected || x in s.freed {
      NothingHeld(s, x);
    }
  }

  lemma RestingTimer(s: State)
    requires TimerOk(s) && QueueOk(s) && AtRest(s)
    ensures s.g.queue == [] && s.g.timer == Inactive
  {
    OneActivation(s);
    forall t | 0 <= t < |s.threads| ensures Token(s.threads[t]) == 0 && !DrainAhead(s.g, s.threads[t]) {
      assert !CanMove(s.threads[t]);
    }
  }

  lemma NobodySleeps(s: State, t: nat)
    requires CountOk(s) && SleepOk(s) && AtRest(s) && t < |s.threads|
    ensures !s.threads[t].Asleep?
  {
    hide InFlight;
    if s.threads[t].Asleep? {
      NothingInFlight(s, s.threads[t].tlp);
      NobodyWakes(s, s.threads[t].tlp);
    }
  }

  lemma NobodyWakes(s: State, e: LogEntry)
    requires CountOk(s) && Sum(s.threads, InFlightOf(e)) == 0
    requires forall u :: 0 <= u < |s.threads| ==> !Wakes(s.threads[u], e)
    ensures !WillWake(s, e)
  {
    assert Deferred(s.g.defer, e) == 0;
  }

  lemma NothingInFlight(s: State, e: LogEntry)
    requires AtRest(s)
    ensures Sum(s.threads, InFlightOf(e)) == 0
    ensures forall u :: 0 <= u < |s.threads| ==> !Wakes(s.threads[u], e)
  {
    assert forall u :: 0 <= u < |s.threads| ==> !CanMove(s.threads[u]) && InFlightOf(e)(s.threads[u]) == 0;
    SumZero(s.threads, InFlightOf(e));
  }

  lemma NothingHeld(s: State, x: Packet)
    requires PlaceOk(s) && AtRest(s) && s.g.queue == [] && x in s.swallowed
    ensures x in s.injected || x in s.freed
  {
    assert Places(s, x) == 1;
    assert forall u :: 0 <= u < |s.threads| ==> !CanMove(s.threads[u]) && HoldingOf(x)(s.threads[u]) == 0;
    SumZero(s.threads, HoldingOf(x));
  }

  // After any run, when nothing more arrives: the threads stop after a bounded number of further steps, and
  // at rest the timer is inactive, every detach has returned, and every packet is injected or freed.
  lemma {:induction false} EverythingIsDone(run: seq<Action>, rest: seq<Action>)
    requires Possible(START, run) && Possible(After(START, run), rest) && Internal(rest)
    ensures |rest| <= Bound(After(START, run))
    ensures var s := After(After(START, run), rest);
      AtRest(s) ==>
        s.g.timer == Inactive && (forall t :: 0 <= t < |s.threads| ==> s.threads[t].Returned? || s.threads[t].Done?) &&
        (forall x :: x in s.swallowed ==> x in s.injected || x in s.freed)
  {
    hide TimerOk, QueueOk, CountOk, SleepOk, PlaceOk, AtRest, Bound;
    InvariantAtStart();
    InvariantAlways(START, run);
    InvariantAlways(After(START, run), rest);
    RunsEnd(After(START, run), rest);
    var s := After(After(START, run), rest);
    if AtRest(s) {
      RestIsComplete(s);
    }
  }
}
