module SwallowPackets {
  // What becomes of the packets in the protocol of SwallowProtocol: counters, sleepers, places, detached sockets.

  import opened Sums
  import opened SwallowQueue
  import opened SwallowProtocol

  // ---- numPktInDefer is exact ----

  /** The packets of e that a thread has taken from the queue and not yet counted down. */
  function InFlight(pc: Pc, e: LogEntry): nat {
    match pc
    case Injecting(_, todo) => OfEntry(todo, e)
    case InHand(_, x, todo) => (if x.tlp == e then 1 else 0) + OfEntry(todo, e)
    case CountingDown(_, tlp, todo) => (if tlp == e then 1 else 0) + OfEntry(todo, e)
    case Waking(_, _, todo) => OfEntry(todo, e)
    case _ => 0
  }

  function InFlightOf(e: LogEntry): Pc -> nat {
    pc => InFlight(pc, e)
  }

  ghost predicate CountOk(s: State) {
    forall e :: Deferred(s.g.defer, e) == Sum(s.threads, InFlightOf(e))
  }

  lemma {:induction false} HeadOfEntry(q: seq<Packet>, e: LogEntry)
    ensures q != [] ==> OfEntry(q, e) == (if q[0].tlp == e then 1 else 0) + OfEntry(q[1..], e)
  {
    if q != [] {
      assert q == [q[0]] + q[1..];
      OfEntryAppend([q[0]], q[1..], e);
      assert [q[0]][..0] == [];
    }
  }

  lemma CountMove(g: Shared, pc: Pc, e: LogEntry)
    requires CanMove(pc)
    ensures var m := MoveOf(g, pc);
      Deferred(m.g.defer, e) - Deferred(g.defer, e) == InFlight(m.pc, e) - InFlight(pc, e)
  {
    match pc
    case Draining(who) =>
      AddAllCounts(g.defer, Drain(g, if who == Timer then None else Some(who.so)).1, e);
    case Injecting(_, todo) =>
      HeadOfEntry(todo, e);
    case _ =>
  }

  lemma CountKept(s: State, a: Action)
    requires CountOk(s) && CanDo(s, a)
    ensures CountOk(Do(s, a))
  {
    hide MoveOf, InFlight;
    var r := Do(s, a);
    forall e ensures Deferred(r.g.defer, e) == Sum(r.threads, InFlightOf(e)) {
      FlightIgnoresSleep(e);
      assert Deferred(s.g.defer, e) == Sum(s.threads, InFlightOf(e));
      match a
      case Swallow(x) =>
        SumMore(s.threads, Checking, InFlightOf(e));
      case Disconnect(so) =>
        SumMore(s.threads, Draining(Event(so)), InFlightOf(e));
        NotInFlight(so, e, e);
      case Detach(u) =>
        SumMore(s.threads, Freeing(u), InFlightOf(e));
        NotInFlight(0, u, e);
      case WakeUp(t) =>
        SumWoken(s, t, InFlightOf(e));
      case Run(t) =>
        SumRan(s, t, MoveOf(s.g, s.threads[t]), InFlightOf(e));
        CountMove(s.g, s.threads[t], e);
    }
  }

  lemma FlightIgnoresSleep(e: LogEntry)
    ensures IgnoresSleep(InFlightOf(e)) && InFlight(Checking, e) == 0
  {
  }

  lemma NotInFlight(so: nat, u: LogEntry, e: LogEntry)
    ensures InFlight(Draining(Event(so)), e) == 0 && InFlight(Freeing(u), e) == 0
  {
  }

  // ---- no sleeping detach is forgotten ----

  predicate Wakes(pc: Pc, e: LogEntry) {
    pc.Waking? && pc.tlp == e
  }

  /** Packets of e are still in flight and their runner knows of the sleeper, or a wakeup is on its way. */
  ghost predicate WillWake(s: State, e: LogEntry) {
    e in s.g.inDetach &&
    (Deferred(s.g.defer, e) > 0 || exists u :: 0 <= u < |s.threads| && Wakes(s.threads[u], e))
  }

  ghost predicate SleepOk(s: State) {
    forall t :: 0 <= t < |s.threads| && s.threads[t].Asleep? ==> WillWake(s, s.threads[t].tlp)
  }

  lemma SleepMove(g: Shared, pc: Pc, e: LogEntry)
    requires CanMove(pc) && Deferred(g.defer, e) >= 0
    ensures var m := MoveOf(g, pc);
      (e in g.inDetach ==> e in m.g.inDetach) &&
      (e in g.inDetach && Deferred(g.defer, e) > 0 ==> Deferred(m.g.defer, e) > 0 || Wakes(m.pc, e)) &&
      (Wakes(pc, e) ==> m.wake == Some(e)) &&
      (m.pc == Asleep(e) ==> e in m.g.inDetach && Deferred(m.g.defer, e) > 0)
  {
    if pc.Draining? {
      AddAllCounts(g.defer, Drain(g, if pc.who == Timer then None else Some(pc.who.so)).1, e);
    }
  }

  lemma SleepKept(s: State, a: Action)
    requires CountOk(s) && SleepOk(s) && CanDo(s, a)
    ensures SleepOk(Do(s, a))
  {
    hide MoveOf;
    var r := Do(s, a);
    forall t | 0 <= t < |r.threads| && r.threads[t].Asleep? ensures WillWake(r, r.threads[t].tlp) {
      var e := r.threads[t].tlp;
      match a
      case Run(u) => SleepRan(s, u, t);
      case _ =>
        assert r.threads[t] == s.threads[t] && WillWake(s, e);
        if u :| 0 <= u < |s.threads| && Wakes(s.threads[u], e) {
          assert Wakes(r.threads[u], e);
        }
    }
  }

  lemma SleepRan(s: State, u: nat, t: nat)
    requires CountOk(s) && SleepOk(s) && CanDo(s, Run(u))
    requires t < |s.threads| && Do(s, Run(u)).threads[t].Asleep?
    ensures WillWake(Do(s, Run(u)), Do(s, Run(u)).threads[t].tlp)
  {
    hide MoveOf, InFlight;
    var m, r := MoveOf(s.g, s.threads[u]), Do(s, Run(u));
    var e := r.threads[t].tlp;
    assert Deferred(s.g.defer, e) == Sum(s.threads, InFlightOf(e));
    SleepMove(s.g, s.threads[u], e);
    assert m.wake != Some(e);
    if t != u {
      assert WillWake(s, e);
      if v :| 0 <= v < |s.threads| && Wakes(s.threads[v], e) {
        assert v != u;
        assert Wakes(r.threads[v], e);
      }
      if Wakes(m.pc, e) {
        assert Wakes(r.threads[u], e);
      }
    }
  }

  // ---- every packet is in one place ----

  function Times(x: Packet, q: seq<Packet>): nat {
    multiset(q)[x]
  }

  /** How often a thread holds the packet x. */
  function Holding(pc: Pc, x: Packet): nat {
    match pc
    case Injecting(_, todo) => Times(x, todo)
    case InHand(_, y, todo) => (if y == x then 1 else 0) + Times(x, todo)
    case CountingDown(_, _, todo) => Times(x, todo)
    case Waking(_, _, todo) => Times(x, todo)
    case _ => 0
  }

  function HoldingOf(x: Packet): Pc -> nat {
    pc => Holding(pc, x)
  }

  /** In how many places the packet is. */
  function Places(s: State, x: Packet): nat {
    Times(x, s.g.queue) + Sum(s.threads, HoldingOf(x)) + Times(x, s.injected) + Times(x, s.freed)
  }

  /** Every swallowed packet is in exactly one place: the queue, one thread, injected or freed; others are nowhere. */
  ghost predicate PlaceOk(s: State) {
    forall x :: Places(s, x) == Times(x, s.swallowed) == if x in s.swallowed then 1 else 0
  }

  lemma {:induction false} KeptCount(q: seq<Packet>, so: Option<nat>, x: Packet)
    ensures Times(x, q) == Times(x, Keep(q, so, true)) + Times(x, Keep(q, so, false))
  {
    hide Keep;
    KeepSplits(q, so);
  }

  lemma HeadCount(q: seq<Packet>, x: Packet)
    ensures q != [] ==> Times(x, q) == (if q[0] == x then 1 else 0) + Times(x, q[1..])
  {
    if q != [] {
      assert q == [q[0]] + q[1..];
    }
  }

  lemma FewCount(x: Packet)
    ensures Times(x, []) == 0 && forall y :: Times(x, [y]) == if y == x then 1 else 0
  {
  }

  lemma PlaceMove(g: Shared, pc: Pc, x: Packet)
    requires CanMove(pc)
    ensures var m := MoveOf(g, pc);
      Times(x, m.g.queue) + Holding(m.pc, x) + Times(x, m.injected) + Times(x, m.freed)
      == Times(x, g.queue) + Holding(pc, x)
  {
    hide Keep, AddAll, Deferred, Times;
    FewCount(x);
    match pc
    case Draining(who) =>
      KeptCount(g.queue, if who == Timer then None else Some(who.so), x);
    case Freeing(e) =>
      KeptCount(g.queue, Some(e.so), x);
    case Injecting(_, todo) =>
      HeadCount(todo, x);
    case _ =>
  }

  lemma PlaceKept(s: State, a: Action)
    requires PlaceOk(s) && CanDo(s, a)
    ensures PlaceOk(Do(s, a))
  {
    hide MoveOf, Holding;
    var r := Do(s, a);
    forall x ensures Places(r, x) == Times(x, r.swallowed) == if x in r.swallowed then 1 else 0 {
      HoldingIgnoresSleep(x);
      assert Places(s, x) == Times(x, s.swallowed);
      match a
      case Swallow(y) =>
        SumMore(s.threads, Checking, HoldingOf(x));
        assert x in r.swallowed <==> x in s.swallowed || x == y;
      case Disconnect(so) =>
        SumMore(s.threads, Draining(Event(so)), HoldingOf(x));
        HoldsNothing(so, LogEntry(0, 0), x);
      case Detach(u) =>
        SumMore(s.threads, Freeing(u), HoldingOf(x));
        HoldsNothing(0, u, x);
      case WakeUp(t) =>
        SumWoken(s, t, HoldingOf(x));
      case Run(t) =>
        SumRan(s, t, MoveOf(s.g, s.threads[t]), HoldingOf(x));
        PlaceMove(s.g, s.threads[t], x);
    }
  }

  lemma HoldingIgnoresSleep(x: Packet)
    ensures IgnoresSleep(HoldingOf(x)) && Holding(Checking, x) == 0
  {
  }

  lemma HoldsNothing(so: nat, u: LogEntry, x: Packet)
    ensures Holding(Draining(Event(so)), x) == 0 && Holding(Freeing(u), x) == 0
  {
  }

  // ---- a detach leaves no packet behind ----

  /** The thread runs detach for a socket. */
  predicate Detaching(pc: Pc, so: nat) {
    (pc.Freeing? || pc.Waiting? || pc.Asleep? || pc.Returned?) && pc.tlp.so == so
  }

  /** No packet of a socket arrives once its detach has begun. */
  predicate Quiet(s: State, a: Action) {
    a.Swallow? ==> forall t :: 0 <= t < |s.threads| ==> !Detaching(s.threads[t], a.x.tlp.so)
  }

  predicate Cleared(pc: Pc) {
    pc.Waiting? || pc.Asleep? || pc.Returned?
  }

  ghost predicate DetachOk(s: State) {
    (forall t :: 0 <= t < |s.threads| && Cleared(s.threads[t]) ==> NoneQueued(s.g.queue, s.threads[t].tlp.so)) &&
    (forall t :: 0 <= t < |s.threads| && s.threads[t].Returned? ==> Deferred(s.g.defer, s.threads[t].tlp) == 0)
  }

  predicate NoneQueued(q: seq<Packet>, so: nat) {
    forall x :: x in q ==> x.tlp.so != so
  }

  lemma DetachMove(g: Shared, pc: Pc, e: LogEntry)
    requires CanMove(pc)
    ensures var m := MoveOf(g, pc);
      (NoneQueued(g.queue, e.so) ==> NoneQueued(m.g.queue, e.so)) &&
      (m.pc == Waiting(e) ==> NoneQueued(m.g.queue, e.so)) &&
      (NoneQueued(g.queue, e.so) ==> Deferred(m.g.defer, e) <= Deferred(g.defer, e)) &&
      (m.pc == Returned(e) ==> Deferred(m.g.defer, e) == 0) &&
      (Cleared(m.pc) && m.pc.tlp == e && m.pc != Waiting(e) ==> pc == Waiting(e))
  {
    if pc.Draining? {
      var list := Drain(g, if pc.who == Timer then None else Some(pc.who.so)).1;
      AddAllCounts(g.defer, list, e);
      OfEntryPositive(list, e);
    }
  }

  lemma DetachKept(s: State, a: Action)
    requires CountOk(s) && DetachOk(s) && CanDo(s, a) && Quiet(s, a)
    ensures DetachOk(Do(s, a))
  {
    hide MoveOf, InFlight, NoneQueued;
    CountKept(s, a);
    var r := Do(s, a);
    forall t | 0 <= t < |r.threads| && Cleared(r.threads[t])
      ensures NoneQueued(r.g.queue, r.threads[t].tlp.so)
      ensures r.threads[t].Returned? ==> Deferred(r.g.defer, r.threads[t].tlp) == 0
    {
      var e := r.threads[t].tlp;
      match a
      case Swallow(x) => StillNoneQueued(s, x, t);
      case Run(u) =>
        assert Deferred(r.g.defer, e) == Sum(r.threads, InFlightOf(e));
        DetachMove(s.g, s.threads[u], e);
      case _ =>
    }
  }

  lemma StillNoneQueued(s: State, x: Packet, t: nat)
    requires DetachOk(s) && Quiet(s, Swallow(x)) && t < |s.threads| && Cleared(s.threads[t])
    ensures NoneQueued(s.g.queue + [x], s.threads[t].tlp.so)
  {
    assert !Detaching(s.threads[t], x.tlp.so);
    forall y | y in s.g.queue + [x] ensures y.tlp.so != s.threads[t].tlp.so {
      if y != x {
        assert y in s.g.queue;
      }
    }
  }

  predicate Holds(pc: Pc, x: Packet) {
    Holding(pc, x) > 0
  }

  lemma HeldIsInFlight(pc: Pc, x: Packet)
    ensures Holds(pc, x) ==> InFlight(pc, x.tlp) > 0
  {
    match pc
    case Injecting(_, todo) => OfEntryPositive(todo, x.tlp);
    case InHand(_, _, todo) => OfEntryPositive(todo, x.tlp);
    case CountingDown(_, _, todo) => OfEntryPositive(todo, x.tlp);
    case Waking(_, _, todo) => OfEntryPositive(todo, x.tlp);
    case _ =>
  }

  /** After detach has returned, no packet of its entry is queued, listed for injection or being injected. */
  lemma DetachedIsGone(s: State, t: nat, x: Packet)
    requires CountOk(s) && DetachOk(s) && t < |s.threads| && s.threads[t].Returned? && x.tlp == s.threads[t].tlp
    ensures x !in s.g.queue && forall u :: 0 <= u < |s.threads| ==> !Holds(s.threads[u], x)
  {
    hide InFlight, Holding;
    var e := x.tlp;
    assert Sum(s.threads, InFlightOf(e)) == Deferred(s.g.defer, e) == 0;
    forall u | 0 <= u < |s.threads| ensures !Holds(s.threads[u], x) {
      SumAtLeast(s.threads, u, InFlightOf(e));
      HeldIsInFlight(s.threads[u], x);
    }
    assert Cleared(s.threads[t]) && NoneQueued(s.g.queue, e.so);
  }

  // ---- over every run ----

  ghost predicate Invariant(s: State) {
    TimerOk(s) && QueueOk(s) && CountOk(s) && SleepOk(s) && PlaceOk(s)
  }

  lemma InvariantAtStart()
    ensures Invariant(START) && DetachOk(START)
  {
    assert forall e :: Sum(START.threads, InFlightOf(e)) == 0;
    assert forall x :: Sum(START.threads, HoldingOf(x)) == 0;
  }

  /** The invariant holds after every run, however the threads interleave. */
  lemma {:induction false} InvariantAlways(s: State, run: seq<Action>)
    requires Invariant(s) && Possible(s, run)
    ensures Invariant(After(s, run))
    decreases |run|
  {
    hide CanDo, Do, TimerOk, QueueOk, CountOk, SleepOk, PlaceOk;
    if run != [] {
      TimerKept(s, run[0]);
      QueueKept(s, run[0]);
      CountKept(s, run[0]);
      SleepKept(s, run[0]);
      PlaceKept(s, run[0]);
      InvariantAlways(Do(s, run[0]), run[1..]);
    }
  }

  predicate QuietRun(s: State, run: seq<Action>)
    requires Possible(s, run)
    decreases |run|
  {
    run == [] || (Quiet(s, run[0]) && QuietRun(Do(s, run[0]), run[1..]))
  }

  lemma {:induction false} DetachOkAlways(s: State, run: seq<Action>)
    requires Invariant(s) && DetachOk(s) && Possible(s, run) && QuietRun(s, run)
    ensures DetachOk(After(s, run))
    decreases |run|
  {
    hide CanDo, Do, TimerOk, QueueOk, CountOk, SleepOk, PlaceOk, DetachOk, Quiet;
    if run != [] {
      InvariantAlways(s, [run[0]]);
      assert [run[0]][1..] == [];
      DetachKept(s, run[0]);
      DetachOkAlways(Do(s, run[0]), run[1..]);
    }
  }

  /** What the protocol promises in every state that it can reach. */
  lemma {:induction false} Safety(run: seq<Action>)
    requires Possible(START, run)
    ensures var s := After(START, run);
      && (s.g.timer == Inactive <==> forall t :: 0 <= t < |s.threads| ==> Token(s.threads[t]) == 0)
      && (forall t, u :: 0 <= t < u < |s.threads| ==> Token(s.threads[t]) + Token(s.threads[u]) <= 1)
      && QueueOk(s) && CountOk(s) && SleepOk(s) && PlaceOk(s)
  {
    hide TimerOk, QueueOk, CountOk, SleepOk, PlaceOk, Token;
    InvariantAtStart();
    InvariantAlways(START, run);
    OneActivation(After(START, run));
  }

  /** A detach that has returned leaves nothing behind, if no new packet of its socket came in. */
  lemma {:induction false} DetachSafety(run: seq<Action>, t: nat, x: Packet)
    requires Possible(START, run) && QuietRun(START, run)
    requires t < |After(START, run).threads| && After(START, run).threads[t] == Returned(x.tlp)
    ensures var s := After(START, run);
      x !in s.g.queue && (forall u :: 0 <= u < |s.threads| ==> !Holds(s.threads[u], x)) &&
      (x in s.swallowed ==> x in s.injected || x in s.freed)
  {
    hide TimerOk, QueueOk, SleepOk, DetachOk, CountOk, Holds;
    InvariantAtStart();
    InvariantAlways(START, run);
    DetachOkAlways(START, run);
    var s := After(START, run);
    DetachedIsGone(s, t, x);
    assert Places(s, x) == Times(x, s.swallowed);
    NobodyHolds(s, x);
  }

  lemma NobodyHolds(s: State, x: Packet)
    requires forall u :: 0 <= u < |s.threads| ==> !Holds(s.threads[u], x)
    ensures Sum(s.threads, HoldingOf(x)) == 0
  {
    hide Holding;
    assert forall u :: 0 <= u < |s.threads| ==> !Holds(s.threads[u], x) && HoldingOf(x)(s.threads[u]) == 0;
    SumZero(s.threads, HoldingOf(x));
  }
}
