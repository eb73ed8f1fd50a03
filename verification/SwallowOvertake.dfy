module SwallowOvertake {
  // The condition under which SwallowOrder proves the order of a socket cannot be weakened: from any state in
  // which two threads hold packets of one socket, the threads alone can bring a later packet in before an
  // earlier one. The disconnecting event leads to such a state.

  import opened Sums
  import opened SwallowQueue
  import opened SwallowProtocol
  import opened SwallowPackets
  import opened SwallowProgress
  import opened SwallowOrder

  lemma HolderMove(g: Shared, pc: Pc, x: Packet)
    requires Holds(pc, x)
    ensures CanMove(pc)
    ensures var m := MoveOf(g, pc);
      m.freed == [] && Cost(m.pc) < Cost(pc) && (x in m.injected || Holds(m.pc, x)) && !m.pc.Asleep?
  {
    hide AddAll, Keep, Times;
    FewCount(x);
    match pc
    case Injecting(_, todo) => HeadCount(todo, x);
    case _ =>
  }

  /** One more action at the front of a run. */
  lemma {:induction false} Prepend(s: State, a: Action, rest: seq<Action>)
    requires CanDo(s, a) && Possible(Do(s, a), rest)
    ensures Possible(s, [a] + rest) && After(s, [a] + rest) == After(Do(s, a), rest)
  {
    hide CanDo, Do;
    assert ([a] + rest)[1..] == rest;
  }

  /** Nothing but thread u has moved, and nothing was freed. */
  ghost predicate OnlyMoved(s: State, r: State, u: nat) {
    r.swallowed == s.swallowed && r.freed == s.freed && |r.threads| == |s.threads| &&
    forall t :: 0 <= t < |s.threads| && t != u ==> HeldBy(r.threads[t]) == HeldBy(s.threads[t])
  }

  lemma HolderRan(s: State, u: nat, x: Packet)
    requires u < |s.threads| && Holds(s.threads[u], x)
    ensures CanDo(s, Run(u))
    ensures var r := Do(s, Run(u));
      OnlyMoved(s, r, u) && (x in r.injected || Holds(r.threads[u], x)) && Cost(r.threads[u]) < Cost(s.threads[u])
  {
    hide MoveOf, Holding, Cost;
    HolderMove(s.g, s.threads[u], x);
  }

  /** A thread that holds a packet can go on, all by itself, until it has injected it. */
  lemma {:induction false} RunUntilInjected(s: State, u: nat, x: Packet) returns (run: seq<Action>)
    requires u < |s.threads| && Holds(s.threads[u], x)
    ensures Possible(s, run) && Internal(run)
    ensures x in After(s, run).injected && OnlyMoved(s, After(s, run), u)
    decreases Cost(s.threads[u])
  {
    hide Do, CanDo, Holding, Cost;
    HolderRan(s, u, x);
    var r := Do(s, Run(u));
    if x in r.injected {
      run := [Run(u)];
      Prepend(s, Run(u), []);
      assert [Run(u)] + [] == [Run(u)];
    } else {
      var rest := RunUntilInjected(r, u, x);
      Prepend(s, Run(u), rest);
      run := [Run(u)] + rest;
    }
  }

  /** Packets in two threads are two packets, both swallowed and neither injected nor freed. */
  lemma HeldTwice(s: State, t: nat, x: Packet, u: nat, y: Packet)
    requires PlaceOk(s) && t < u < |s.threads| && Holds(s.threads[t], x) && Holds(s.threads[u], y)
    ensures x != y && x in s.swallowed && x !in s.freed && y in s.swallowed && y !in s.freed
  {
    hide Holding;
    assert Places(s, x) == Times(x, s.swallowed) <= 1;
    assert Places(s, y) == Times(y, s.swallowed) <= 1;
    SumAtLeast(s.threads, t, HoldingOf(x));
    SumAtLeast(s.threads, u, HoldingOf(y));
    SumAtLeastTwo(s.threads, t, u, HoldingOf(x));
  }

  lemma HeldIsNotInjected(s: State, t: nat, x: Packet)
    requires PlaceOk(s) && t < |s.threads| && Holds(s.threads[t], x)
    ensures x !in s.injected
  {
    hide Holding;
    assert Places(s, x) <= 1;
    SumAtLeast(s.threads, t, HoldingOf(x));
  }

  lemma SomeHeld(pc: Pc, so: nat) returns (x: Packet)
    requires !HoldsNone(pc, so)
    ensures Holds(pc, x) && x.tlp.so == so
  {
    x := Of(HeldBy(pc), so)[0];
    assert x in Of(HeldBy(pc), so);
    HeldHolds(pc, x);
  }

  /** Thread u injects y while thread t still holds the earlier x. */
  lemma Overtake(s: State, so: nat, t: nat, x: Packet, u: nat, y: Packet, i: nat, j: nat) returns (run: seq<Action>)
    requires Invariant(s) && t < |s.threads| && u < |s.threads| && t != u
    requires Holds(s.threads[t], x) && Holds(s.threads[u], y) && x.tlp.so == so && y.tlp.so == so
    requires i < j < |s.swallowed| && s.swallowed[i] == x && s.swallowed[j] == y && x !in s.freed
    ensures Possible(s, run) && Internal(run) && OutOfOrder(After(s, run), so)
  {
    hide After, Possible, TimerOk, QueueOk, CountOk, SleepOk, PlaceOk, Holds;
    run := RunUntilInjected(s, u, y);
    InvariantAlways(s, run);
    var r := After(s, run);
    HeldHolds(s.threads[t], x);
    HeldHolds(r.threads[t], x);
    HeldIsNotInjected(r, t, x);
    assert r.swallowed[i] == x && r.swallowed[j] == y;
  }

  // Whenever two threads hold packets of one socket, some run of the threads alone injects a later packet
  // of that socket while an earlier one is still to come.
  lemma NotSoleCanOvertake(s: State, so: nat) returns (run: seq<Action>)
    requires Invariant(s) && !Sole(s, so)
    ensures Possible(s, run) && Internal(run) && OutOfOrder(After(s, run), so)
  {
    hide After, Possible, OutOfOrder, Holds, HoldsNone, TimerOk, QueueOk, CountOk, SleepOk, PlaceOk;
    var t, u :| 0 <= t < u < |s.threads| && !HoldsNone(s.threads[t], so) && !HoldsNone(s.threads[u], so);
    var x := SomeHeld(s.threads[t], so);
    var y := SomeHeld(s.threads[u], so);
    HeldTwice(s, t, x, u, y);
    var i :| 0 <= i < |s.swallowed| && s.swallowed[i] == x;
    var j :| 0 <= j < |s.swallowed| && s.swallowed[j] == y;
    if i < j {
      run := Overtake(s, so, t, x, u, y, i, j);
    } else {
      run := Overtake(s, so, u, y, t, x, j, i);
    }
  }

  // ---- the disconnecting event ----

  const SOCKET := LogEntry(0, 7)

  lemma {:induction false} Chain(s: State, run: seq<Action>, more: seq<Action>)
    requires Possible(s, run) && Possible(After(s, run), more)
    ensures Possible(s, run + more) && After(s, run + more) == After(After(s, run), more)
    decreases |run|
  {
    hide CanDo, Do;
    if run == [] {
      assert run + more == more;
    } else {
      assert (run + more)[1..] == run[1..] + more;
      Chain(Do(s, run[0]), run[1..], more);
    }
  }

  /** One action at the end of a run. */
  lemma {:induction false} Append(s: State, run: seq<Action>, a: Action)
    requires Possible(s, run) && CanDo(After(s, run), a)
    ensures Possible(s, run + [a]) && After(s, run + [a]) == Do(After(s, run), a)
  {
    hide CanDo, Do;
    assert [a][1..] == [];
    Chain(s, run, [a]);
  }

  function First(): Packet { Packet(0, SOCKET, true) }

  function Second(): Packet { Packet(1, SOCKET, true) }

  /** data_timer has taken the first packet. */
  lemma FirstTaken() returns (run: seq<Action>)
    ensures Possible(START, run)
    ensures var s := After(START, run);
      s.threads == [Injecting(Timer, [First()])] && s.g.queue == [] && s.swallowed == [First()]
  {
    hide AddAll, Possible, After;
    assert Possible(START, []) && After(START, []) == START by { Nothing(START); }
    Append(START, [], Swallow(First()));
    Append(START, [] + [Swallow(First())], Run(0));
    Append(START, [] + [Swallow(First())] + [Run(0)], Run(0));
    Append(START, [] + [Swallow(First())] + [Run(0)] + [Run(0)], Run(0));
    Append(START, [] + [Swallow(First())] + [Run(0)] + [Run(0)] + [Run(0)], Run(0));
    run := [] + [Swallow(First())] + [Run(0)] + [Run(0)] + [Run(0)] + [Run(0)];
    KeepAll([First()], None, true);
  }

  lemma {:induction false} Nothing(s: State)
    ensures Possible(s, []) && After(s, []) == s
  {
  }

  lemma SecondTaken(s: State)
    requires s.threads == [Injecting(Timer, [First()])] && s.g.queue == [] && s.swallowed == [First()]
    ensures CanDo(s, Swallow(Second()))
    ensures var r := Do(s, Swallow(Second()));
      CanDo(r, Disconnect(7)) && CanDo(Do(r, Disconnect(7)), Run(2)) &&
      Do(Do(r, Disconnect(7)), Run(2)).threads ==
        [Injecting(Timer, [First()]), Checking, Injecting(Event(7), [Second()])]
  {
    hide AddAll, Keep;
    KeepAll([Second()], Some(7), true);
    var r := Do(Do(s, Swallow(Second())), Disconnect(7));
    assert r.g.queue == [Second()];
    assert r.threads == [Injecting(Timer, [First()]), Checking, Draining(Event(7))];
    var m := MoveOf(r.g, r.threads[2]);
    assert m.pc == Injecting(Event(7), [Second()]) && m.wake == None;
  }

  lemma BothHold(s: State)
    requires s.threads == [Injecting(Timer, [First()]), Checking, Injecting(Event(7), [Second()])]
    ensures !Sole(s, 7)
  {
    KeepAll([Second()], Some(7), true);
    KeepAll([First()], Some(7), true);
    assert !HoldsNone(s.threads[0], 7) && !HoldsNone(s.threads[2], 7);
  }

  /** Then a second packet comes in, and the disconnecting event takes it. */
  lemma BothTaken() returns (run: seq<Action>)
    ensures Possible(START, run) && !Sole(After(START, run), 7)
  {
    hide *;
    run := FirstTaken();
    SecondTaken(After(START, run));
    Append(START, run, Swallow(Second()));
    Append(START, run + [Swallow(Second())], Disconnect(7));
    Append(START, run + [Swallow(Second())] + [Disconnect(7)], Run(2));
    run := run + [Swallow(Second())] + [Disconnect(7)] + [Run(2)];
    BothHold(After(START, run));
  }

  /** The disconnecting event can bring packets of one socket out of order. */
  lemma EventBreaksOrder() returns (run: seq<Action>)
    ensures Possible(START, run) && OutOfOrder(After(START, run), 7)
  {
    hide Sole, OutOfOrder, TimerOk, QueueOk, CountOk, SleepOk, PlaceOk, After, Possible;
    var before := BothTaken();
    InvariantAtStart();
    InvariantAlways(START, before);
    var rest := NotSoleCanOvertake(After(START, before), 7);
    Chain(START, before, rest);
    run := before + rest;
  }
}
