module SwallowOrder {
  // In which order packets are re-injected. The order of a socket is kept as long as no two threads hold
  // packets of it at the same time, which is so when data_timer alone re-injects. As soon as two threads hold
  // packets of one socket, the later packet can overtake the earlier one.

  import opened Sums
  import opened SwallowQueue
  import opened SwallowProtocol
  import opened SwallowPackets
  import opened SwallowProgress

  /** The packets of a socket. */
  function Of(q: seq<Packet>, so: nat): seq<Packet> {
    Keep(q, Some(so), true)
  }

  /** The packets a thread has taken from the queue and not yet injected, in the order in which it will. */
  function HeldBy(pc: Pc): seq<Packet> {
    match pc
    case Injecting(_, todo) => todo
    case InHand(_, x, todo) => [x] + todo
    case CountingDown(_, _, todo) => todo
    case Waking(_, _, todo) => todo
    case _ => []
  }

  function HeldAll(threads: seq<Pc>, so: nat): seq<Packet> {
    if threads == [] then [] else HeldAll(threads[..|threads| - 1], so) + Of(HeldBy(threads[|threads| - 1]), so)
  }

  function Drop(q: seq<Packet>, out: seq<Packet>): seq<Packet> {
    if q == [] then []
    else
      var rest := Drop(q[..|q| - 1], out);
      var x := q[|q| - 1];
      if x in out then rest else rest + [x]
  }

  /** The packets of a socket in the order in which they were swallowed, without those that were freed. */
  function Expected(s: State, so: nat): seq<Packet> {
    Drop(Of(s.swallowed, so), s.freed)
  }

  /** What was injected comes first, then what is held, then what is queued. */
  ghost predicate InOrder(s: State, so: nat) {
    Expected(s, so) == Of(s.injected, so) + HeldAll(s.threads, so) + Of(s.g.queue, so)
  }

  /** A packet was injected while an earlier one of its socket was neither injected nor freed. */
  ghost predicate OutOfOrder(s: State, so: nat) {
    exists i, j :: 0 <= i < j < |s.swallowed| && s.swallowed[i].tlp.so == so && s.swallowed[j].tlp.so == so &&
      s.swallowed[j] in s.injected && s.swallowed[i] !in s.injected && s.swallowed[i] !in s.freed
  }

  ghost predicate HoldsNone(pc: Pc, so: nat) {
    Of(HeldBy(pc), so) == []
  }

  /** No two threads hold packets of the socket. */
  ghost predicate Sole(s: State, so: nat) {
    forall t, u :: 0 <= t < u < |s.threads| ==> HoldsNone(s.threads[t], so) || HoldsNone(s.threads[u], so)
  }

  // ---- what the threads hold ----

  lemma {:induction false} HeldNone(threads: seq<Pc>, so: nat)
    requires forall u :: 0 <= u < |threads| ==> HoldsNone(threads[u], so)
    ensures HeldAll(threads, so) == []
  {
    if threads != [] {
      assert HoldsNone(threads[|threads| - 1], so);
      HeldNone(threads[..|threads| - 1], so);
    }
  }

  lemma {:induction false} HeldOnly(threads: seq<Pc>, so: nat, t: nat)
    requires t < |threads| && forall u :: 0 <= u < |threads| && u != t ==> HoldsNone(threads[u], so)
    ensures HeldAll(threads, so) == Of(HeldBy(threads[t]), so)
  {
    hide Of;
    var n := |threads| - 1;
    if t == n {
      HeldNone(threads[..n], so);
    } else {
      assert HoldsNone(threads[n], so);
      HeldOnly(threads[..n], so, t);
    }
  }

  lemma {:induction false} HeldSame(a: seq<Pc>, b: seq<Pc>, so: nat)
    requires |a| == |b| && forall u :: 0 <= u < |a| ==> Of(HeldBy(a[u]), so) == Of(HeldBy(b[u]), so)
    ensures HeldAll(a, so) == HeldAll(b, so)
  {
    hide Of;
    if a != [] {
      HeldSame(a[..|a| - 1], b[..|b| - 1], so);
    }
  }

  lemma {:induction false} HeldMore(threads: seq<Pc>, pc: Pc, so: nat)
    requires HoldsNone(pc, so)
    ensures HeldAll(threads + [pc], so) == HeldAll(threads, so)
  {
    hide Of;
    assert (threads + [pc])[..|threads|] == threads;
  }

  // ---- dropping packets ----

  lemma {:induction false} DropLast(q: seq<Packet>, x: Packet, out: seq<Packet>)
    ensures Drop(q + [x], out) == Drop(q, out) + if x in out then [] else [x]
  {
    assert (q + [x])[..|q|] == q;
  }

  lemma {:induction false} DropAppend(p: seq<Packet>, q: seq<Packet>, out: seq<Packet>)
    ensures Drop(p + q, out) == Drop(p, out) + Drop(q, out)
  {
    if q == [] {
      assert p + q == p;
    } else {
      var n := |q| - 1;
      DropAppend(p, q[..n], out);
      DropLast(p + q[..n], q[n], out);
      assert p + q == p + q[..n] + [q[n]];
    }
  }

  lemma {:induction false} DropTwice(q: seq<Packet>, out: seq<Packet>, more: seq<Packet>)
    ensures Drop(q, out + more) == Drop(Drop(q, out), more)
  {
    if q != [] {
      var n := |q| - 1;
      DropTwice(q[..n], out, more);
      DropLast(Drop(q[..n], out), q[n], more);
    }
  }

  lemma {:induction false} DropOther(q: seq<Packet>, out: seq<Packet>)
    requires forall x :: x in q ==> x !in out
    ensures Drop(q, out) == q
  {
    if q != [] {
      DropOther(q[..|q| - 1], out);
    }
  }

  lemma {:induction false} DropSelf(q: seq<Packet>, out: seq<Packet>)
    requires forall x :: x in q ==> x in out
    ensures Drop(q, out) == []
  {
    if q != [] {
      DropSelf(q[..|q| - 1], out);
    }
  }

  lemma {:induction false} DropTimes(q: seq<Packet>, out: seq<Packet>, x: Packet)
    ensures Times(x, Drop(q, out)) <= Times(x, q)
  {
    if q != [] {
      var n := |q| - 1;
      DropTimes(q[..n], out, x);
      assert q == q[..n] + [q[n]];
    }
  }

  // ---- a step keeps the order ----

  /** What a step of a thread does to the packets of a socket. */
  datatype Shift = Pass | Take | Free

  ghost predicate Shifts(g: Shared, pc: Pc, so: nat, shift: Shift)
    requires CanMove(pc)
  {
    var m := MoveOf(g, pc);
    match shift
    case Pass => Of(m.g.queue, so) == Of(g.queue, so) && Of(m.injected, so) + Of(HeldBy(m.pc), so) == Of(HeldBy(pc), so) &&
      (forall x :: x in m.freed ==> x.tlp.so != so)
    case Take => Of(m.g.queue, so) == [] && Of(HeldBy(m.pc), so) == Of(g.queue, so) && HoldsNone(pc, so) &&
      m.injected == [] && m.freed == []
    case Free => (Of(m.g.queue, so) == [] && HoldsNone(pc, so) && HoldsNone(m.pc, so) &&
      m.injected == [] && m.freed == Of(g.queue, so))
  }

  lemma {:induction false} KeepOther(q: seq<Packet>, so: nat, other: nat)
    requires so != other
    ensures Of(Keep(q, Some(other), false), so) == Of(q, so) && Of(Keep(q, Some(other), true), so) == []
  {
    if q != [] {
      var n := |q| - 1;
      KeepOther(q[..n], so, other);
      KeepLast(Keep(q[..n], Some(other), false), q[n], Some(so), true);
      KeepLast(Keep(q[..n], Some(other), true), q[n], Some(so), true);
    }
  }

  lemma {:induction false} KeepOwn(q: seq<Packet>, so: nat)
    ensures Of(Of(q, so), so) == Of(q, so) && Of(Keep(q, Some(so), false), so) == []
    ensures Keep(q, None, true) == q && Keep(q, None, false) == []
  {
    KeepAll(Of(q, so), Some(so), true);
    KeepAll(Keep(q, Some(so), false), Some(so), false);
    KeepAll(q, None, true);
  }

  lemma OfOne(so: nat)
    ensures Of([], so) == [] && forall x :: Of([x], so) == if x.tlp.so == so then [x] else []
  {
    forall x ensures Of([x], so) == if x.tlp.so == so then [x] else [] {
      KeepLast([], x, Some(so), true);
      assert [] + [x] == [x];
    }
  }

  lemma ShiftOf(g: Shared, pc: Pc, so: nat) returns (shift: Shift)
    requires CanMove(pc)
    ensures Shifts(g, pc, so, shift)
  {
    hide AddAll, Deferred, Matches, Keep;
    OfOne(so);
    shift := Pass;
    match pc
    case Draining(who) =>
      KeepOwn(g.queue, so);
      if who == Timer || who.so == so {
        shift := Take;
      } else {
        KeepOther(g.queue, so, who.so);
      }
    case Freeing(e) =>
      KeepOwn(g.queue, so);
      if e.so == so {
        shift := Free;
      } else {
        KeepOther(g.queue, so, e.so);
        NoneOfOther(g.queue, so, e.so);
      }
    case InHand(_, x, todo) =>
      KeepAppend([x], todo, Some(so), true);
    case Injecting(_, todo) =>
      assert todo != [] ==> todo == [todo[0]] + todo[1..];
    case _ =>
  }

  lemma {:induction false} NoneOfOther(q: seq<Packet>, so: nat, other: nat)
    requires so != other
    ensures forall x :: x in Keep(q, Some(other), true) ==> x.tlp.so != so
  {
  }

  /** Thread t alone holds packets of the socket, before and after. */
  lemma {:induction false} HeldRan(s: State, t: nat, m: Move, so: nat)
    requires t < |s.threads|
    requires forall u :: 0 <= u < |s.threads| && u != t ==> HoldsNone(s.threads[u], so)
    ensures HeldAll(s.threads, so) == Of(HeldBy(s.threads[t]), so)
    ensures HeldAll(Ran(s, t, m).threads, so) == Of(HeldBy(m.pc), so)
  {
    hide Of;
    var r := Ran(s, t, m);
    HeldOnly(s.threads, so, t);
    assert HeldBy(r.threads[t]) == HeldBy(m.pc);
    forall u | 0 <= u < |s.threads| && u != t ensures HoldsNone(r.threads[u], so) {
      assert HoldsNone(s.threads[u], so) && HeldBy(r.threads[u]) == HeldBy(s.threads[u]);
    }
    HeldOnly(r.threads, so, t);
  }

  /** The other threads hold nothing of the socket if t does, before or after its step. */
  lemma {:induction false} OthersHoldNone(s: State, t: nat, m: Move, so: nat)
    requires t < |s.threads| && Sole(s, so) && Sole(Ran(s, t, m), so)
    ensures HoldsNone(s.threads[t], so) && HoldsNone(m.pc, so) ==>
      HeldAll(Ran(s, t, m).threads, so) == HeldAll(s.threads, so)
    ensures !HoldsNone(s.threads[t], so) || !HoldsNone(m.pc, so) ==>
      HeldAll(s.threads, so) == Of(HeldBy(s.threads[t]), so) &&
      HeldAll(Ran(s, t, m).threads, so) == Of(HeldBy(m.pc), so)
  {
    hide Of;
    var r := Ran(s, t, m);
    assert HeldBy(r.threads[t]) == HeldBy(m.pc);
    forall u | 0 <= u < |s.threads| && u != t ensures HeldBy(r.threads[u]) == HeldBy(s.threads[u]) {}
    if HoldsNone(s.threads[t], so) && HoldsNone(m.pc, so) {
      HeldSame(s.threads, r.threads, so);
    } else {
      forall u | 0 <= u < |s.threads| && u != t ensures HoldsNone(s.threads[u], so) {
        assert HeldBy(r.threads[u]) == HeldBy(s.threads[u]);
        if u < t {
          assert HoldsNone(s.threads[u], so) || HoldsNone(s.threads[t], so);
          assert HoldsNone(r.threads[u], so) || HoldsNone(r.threads[t], so);
        } else {
          assert HoldsNone(s.threads[t], so) || HoldsNone(s.threads[u], so);
          assert HoldsNone(r.threads[t], so) || HoldsNone(r.threads[u], so);
        }
      }
      HeldRan(s, t, m, so);
    }
  }

  lemma OrderRan(s: State, t: nat, so: nat)
    requires PlaceOk(s) && InOrder(s, so) && CanDo(s, Run(t)) && Sole(s, so) && Sole(Do(s, Run(t)), so)
    ensures InOrder(Do(s, Run(t)), so)
  {
    hide MoveOf, PlaceOk, Sole, HoldsNone, Ran, Of, Drop, HeldAll, HeldBy, Shifts, Expected;
    var m, r := MoveOf(s.g, s.threads[t]), Do(s, Run(t));
    var shift := ShiftOf(s.g, s.threads[t], so);
    OthersHoldNone(s, t, m, so);
    AfterRan(s, t, m);
    InjectedMore(s.injected, m.injected, so);
    FreedMore(s, so, t, m);
    NoneHeld(s.threads[t], so);
    NoneHeld(m.pc, so);
    UseShift(s.g, s.threads[t], so, shift);
    var i, h, k := Of(s.injected, so), HeldAll(s.threads, so), HeldAll(r.threads, so);
    var q := Of(s.g.queue, so);
    match shift
    case Pass =>
      if k != h {
        assert i + Of(m.injected, so) + k + q == i + (Of(m.injected, so) + k) + q;
      }
    case Take =>
    case Free =>
      QueuedElsewhere(s, so);
      DropAppend(i + h, q, q);
      DropOther(i + h, q);
      DropSelf(q, q);
  }

  lemma UseShift(g: Shared, pc: Pc, so: nat, shift: Shift)
    requires CanMove(pc) && Shifts(g, pc, so, shift)
    ensures var m := MoveOf(g, pc);
      match shift
      case Pass => Of(m.g.queue, so) == Of(g.queue, so) && Of(m.injected, so) + Of(HeldBy(m.pc), so) == Of(HeldBy(pc), so) &&
        (forall x :: x in m.freed ==> x.tlp.so != so)
      case Take => Of(m.g.queue, so) == [] && Of(HeldBy(m.pc), so) == Of(g.queue, so) && Of(HeldBy(pc), so) == [] &&
        Of(m.injected, so) == [] && m.freed == []
      case Free => (Of(m.g.queue, so) == [] && Of(HeldBy(pc), so) == [] && Of(HeldBy(m.pc), so) == [] &&
        Of(m.injected, so) == [] && m.freed == Of(g.queue, so))
  {
    hide MoveOf;
  }

  lemma {:induction false} HeldInThread(threads: seq<Pc>, so: nat, x: Packet)
    ensures x in HeldAll(threads, so) ==> exists u :: 0 <= u < |threads| && Holds(threads[u], x)
  {
    if x in HeldAll(threads, so) {
      var n := |threads| - 1;
      if x in Of(HeldBy(threads[n]), so) {
        HeldHolds(threads[n], x);
        assert Holds(threads[n], x);
      } else {
        HeldInThread(threads[..n], so, x);
        var u :| 0 <= u < n && Holds(threads[..n][u], x);
        assert Holds(threads[u], x);
      }
    }
  }

  lemma HeldHolds(pc: Pc, x: Packet)
    ensures Times(x, HeldBy(pc)) == Holding(pc, x) && (x in HeldBy(pc) <==> Holds(pc, x))
  {
  }

  /** A queued packet is neither injected nor held. */
  lemma {:induction false} QueuedElsewhere(s: State, so: nat)
    requires PlaceOk(s)
    ensures forall x :: x in Of(s.injected, so) + HeldAll(s.threads, so) ==> x !in Of(s.g.queue, so)
  {
    hide Holding, HeldAll, HeldBy;
    forall x | x in Of(s.injected, so) + HeldAll(s.threads, so) ensures x !in Of(s.g.queue, so) {
      assert Places(s, x) <= 1;
      if x in HeldAll(s.threads, so) {
        HeldInThread(s.threads, so, x);
        var u :| 0 <= u < |s.threads| && Holds(s.threads[u], x);
        SumAtLeast(s.threads, u, HoldingOf(x));
      }
    }
  }

  lemma NoneHeld(pc: Pc, so: nat)
    ensures HoldsNone(pc, so) <==> Of(HeldBy(pc), so) == []
  {
  }

  lemma AfterRan(s: State, t: nat, m: Move)
    requires t < |s.threads|
    ensures var r := Ran(s, t, m);
      r.g == m.g && r.swallowed == s.swallowed && r.injected == s.injected + m.injected && r.freed == s.freed + m.freed
  {
  }

  lemma InjectedMore(p: seq<Packet>, q: seq<Packet>, so: nat)
    ensures Of(p + q, so) == Of(p, so) + Of(q, so)
  {
    KeepAppend(p, q, Some(so), true);
  }

  lemma FreedMore(s: State, so: nat, t: nat, m: Move)
    requires t < |s.threads|
    ensures Expected(Ran(s, t, m), so) == Drop(Expected(s, so), m.freed)
    ensures m.freed == [] || (forall x :: x in m.freed ==> x.tlp.so != so) ==>
      Drop(Expected(s, so), m.freed) == Expected(s, so)
  {
    DropTwice(Of(s.swallowed, so), s.freed, m.freed);
    forall x | x in Expected(s, so) ensures x.tlp.so == so {
      DropIsOf(s.swallowed, s.freed, so, x);
    }
    if m.freed == [] || forall x :: x in m.freed ==> x.tlp.so != so {
      DropOther(Expected(s, so), m.freed);
    }
  }

  lemma {:induction false} DropSubset(q: seq<Packet>, out: seq<Packet>, x: Packet)
    ensures x in Drop(q, out) <==> x in q && x !in out
  {
    if q != [] {
      DropSubset(q[..|q| - 1], out, x);
      assert q == q[..|q| - 1] + [q[|q| - 1]];
    }
  }

  lemma {:induction false} DropIsOf(q: seq<Packet>, out: seq<Packet>, so: nat, x: Packet)
    ensures x in Drop(Of(q, so), out) ==> x.tlp.so == so
  {
    DropSubset(Of(q, so), out, x);
  }

  lemma OrderKept(s: State, a: Action, so: nat)
    requires PlaceOk(s) && InOrder(s, so) && CanDo(s, a) && Sole(s, so) && Sole(Do(s, a), so)
    ensures InOrder(Do(s, a), so)
  {
    hide Of, Drop, Sole, PlaceOk, Ran, MoveOf;
    OfOne(so);
    match a
    case Swallow(x) =>
      HeldMore(s.threads, Checking, so);
      InjectedMore(s.swallowed, [x], so);
      InjectedMore(s.g.queue, [x], so);
      NewIsNotFreed(s, x);
      if x.tlp.so == so {
        DropLast(Of(s.swallowed, so), x, s.freed);
      } else {
        assert Of(s.swallowed, so) + [] == Of(s.swallowed, so) && Of(s.g.queue, so) + [] == Of(s.g.queue, so);
      }
    case Disconnect(u) =>
      HeldMore(s.threads, Draining(Event(u)), so);
    case Detach(e) =>
      HeldMore(s.threads, Freeing(e), so);
    case WakeUp(t) =>
      HeldSame(s.threads, Do(s, a).threads, so);
    case Run(t) =>
      OrderRan(s, t, so);
  }

  lemma NewIsNotFreed(s: State, x: Packet)
    requires PlaceOk(s) && x !in s.swallowed
    ensures x !in s.freed
  {
    assert Places(s, x) == 0;
  }

  /** No two threads hold packets of the socket, in any state of the run. */
  ghost predicate SoleRun(s: State, run: seq<Action>, so: nat)
    requires Possible(s, run)
    decreases |run|
  {
    Sole(s, so) && (run == [] || SoleRun(Do(s, run[0]), run[1..], so))
  }

  lemma {:induction false} OrderAlways(s: State, run: seq<Action>, so: nat)
    requires Invariant(s) && InOrder(s, so) && Possible(s, run) && SoleRun(s, run, so)
    ensures InOrder(After(s, run), so)
    decreases |run|
  {
    hide CanDo, Do, TimerOk, QueueOk, CountOk, SleepOk, PlaceOk, InOrder, Sole;
    if run != [] {
      assert Sole(Do(s, run[0]), so);
      OrderKept(s, run[0], so);
      InvariantAlways(s, [run[0]]);
      assert [run[0]][1..] == [];
      OrderAlways(Do(s, run[0]), run[1..], so);
    }
  }

  // ---- in order means that nothing was overtaken ----

  lemma TwiceIn(q: seq<Packet>, a: nat, b: nat)
    requires a < b < |q| && q[a] == q[b]
    ensures Times(q[a], q) >= 2
  {
    assert q == q[..b] + q[b..] && q[a] in q[..b] && q[b] in q[b..];
  }

  /** The places of two elements of a sequence in what is left of it. */
  lemma {:induction false} StillBefore(s: State, so: nat, i: nat, j: nat) returns (a: nat, b: nat)
    requires i < j < |s.swallowed| && s.swallowed[i].tlp.so == so && s.swallowed[j].tlp.so == so
    requires s.swallowed[i] !in s.freed && s.swallowed[j] !in s.freed
    ensures a < b < |Expected(s, so)| && Expected(s, so)[a] == s.swallowed[i] && Expected(s, so)[b] == s.swallowed[j]
  {
    hide Of, Drop, Expected;
    var q := s.swallowed;
    var p, m, n := q[..i + 1], q[i + 1..j], q[j..];
    assert q == p + (m + n);
    ExpectedOf(q, s, so, p, m + n);
    ExpectedOf(m + n, s, so, m, n);
    var (p0, n0) := (Drop(Of(p, so), s.freed), Drop(Of(n, so), s.freed));
    ExpectedLast(p, s.freed, so);
    ExpectedFirst(n, s.freed, so);
    a := |p0| - 1;
    b := |p0| + |Drop(Of(m, so), s.freed)|;
    ExpectedIs(s, so);
  }

  lemma ExpectedIs(s: State, so: nat)
    ensures Expected(s, so) == Drop(Of(s.swallowed, so), s.freed)
  {
  }

  lemma ExpectedOf(q: seq<Packet>, s: State, so: nat, x: seq<Packet>, y: seq<Packet>)
    requires q == x + y
    ensures Drop(Of(q, so), s.freed) == Drop(Of(x, so), s.freed) + Drop(Of(y, so), s.freed)
  {
    InjectedMore(x, y, so);
    DropAppend(Of(x, so), Of(y, so), s.freed);
  }

  lemma {:induction false} ExpectedLast(p: seq<Packet>, freed: seq<Packet>, so: nat)
    requires p != [] && p[|p| - 1].tlp.so == so && p[|p| - 1] !in freed
    ensures var r := Drop(Of(p, so), freed); r != [] && r[|r| - 1] == p[|p| - 1]
  {
    var n := |p| - 1;
    assert p == p[..n] + [p[n]];
    InjectedMore(p[..n], [p[n]], so);
    OfOne(so);
    DropLast(Of(p[..n], so), p[n], freed);
  }

  lemma {:induction false} ExpectedFirst(p: seq<Packet>, freed: seq<Packet>, so: nat)
    requires p != [] && p[0].tlp.so == so && p[0] !in freed
    ensures var r := Drop(Of(p, so), freed); r != [] && r[0] == p[0]
  {
    assert p == [p[0]] + p[1..];
    InjectedMore([p[0]], p[1..], so);
    OfOne(so);
    DropAppend([p[0]], Of(p[1..], so), freed);
    DropOther([p[0]], freed);
  }

  /** While the order is kept, no packet is injected before an earlier one that is still to come. */
  lemma InOrderIsNotOut(s: State, so: nat)
    requires PlaceOk(s) && InOrder(s, so)
    ensures !OutOfOrder(s, so)
  {
    hide Of, Drop, HeldAll, Holding;
    forall i, j | 0 <= i < j < |s.swallowed| && s.swallowed[i].tlp.so == so && s.swallowed[j].tlp.so == so &&
      s.swallowed[j] in s.injected && s.swallowed[i] !in s.freed
      ensures s.swallowed[i] in s.injected
    {
      NotOvertaken(s, so, i, j);
    }
  }

  lemma NotOvertaken(s: State, so: nat, i: nat, j: nat)
    requires PlaceOk(s) && InOrder(s, so)
    requires i < j < |s.swallowed| && s.swallowed[i].tlp.so == so && s.swallowed[j].tlp.so == so
    requires s.swallowed[j] in s.injected && s.swallowed[i] !in s.freed
    ensures s.swallowed[i] in s.injected
  {
    hide Drop, HeldAll, Holding, Expected, Keep;
    var x := s.swallowed[j];
    assert Places(s, x) <= 1;
    var a, b := StillBefore(s, so, i, j);
    assert x in Of(s.injected, so);
    var p :| 0 <= p < |Of(s.injected, so)| && Of(s.injected, so)[p] == x;
    ExpectedOnce(s, so, x);
    if p < b {
      TwiceIn(Expected(s, so), p, b);
    }
    assert Of(s.injected, so)[a] in Of(s.injected, so);
  }

  lemma ExpectedOnce(s: State, so: nat, x: Packet)
    requires PlaceOk(s)
    ensures Times(x, Expected(s, so)) <= 1
  {
    assert Places(s, x) == Times(x, s.swallowed) <= 1;
    DropTimes(Of(s.swallowed, so), s.freed, x);
    KeptCount(s.swallowed, Some(so), x);
  }

  // ---- data_timer as the only re-injector ----

  predicate IsEvent(pc: Pc) {
    match pc
    case Draining(who) => who != Timer
    case Injecting(who, _) => who != Timer
    case InHand(who, _, _) => who != Timer
    case CountingDown(who, _, _) => who != Timer
    case Waking(who, _, _) => who != Timer
    case _ => false
  }

  ghost predicate TimerAlone(s: State) {
    forall t :: 0 <= t < |s.threads| ==> !IsEvent(s.threads[t])
  }

  lemma TimerStaysAlone(s: State, a: Action)
    requires TimerAlone(s) && CanDo(s, a) && !a.Disconnect?
    ensures TimerAlone(Do(s, a))
  {
    hide MoveOf;
    if a.Run? {
      NoEventMove(s.g, s.threads[a.t]);
    }
  }

  lemma NoEventMove(g: Shared, pc: Pc)
    requires CanMove(pc)
    ensures !IsEvent(pc) ==> !IsEvent(MoveOf(g, pc).pc)
  {
  }

  lemma AloneIsSole(s: State, so: nat)
    requires TimerOk(s) && TimerAlone(s)
    ensures Sole(s, so)
  {
    hide Token, TimerOk;
    OneActivation(s);
    forall t | 0 <= t < |s.threads| ensures HoldsNone(s.threads[t], so) || Token(s.threads[t]) == 1 {
      HoldersAre(s.threads[t], so);
    }
  }

  lemma HoldersAre(pc: Pc, so: nat)
    ensures !IsEvent(pc) ==> HoldsNone(pc, so) || Token(pc) == 1
  {
  }

  lemma {:induction false} AloneRun(s: State, run: seq<Action>, so: nat)
    requires Invariant(s) && TimerAlone(s) && Possible(s, run) && forall a :: a in run ==> !a.Disconnect?
    ensures SoleRun(s, run, so)
    decreases |run|
  {
    hide CanDo, Do, TimerOk, QueueOk, CountOk, SleepOk, PlaceOk, TimerAlone, Sole;
    AloneIsSole(s, so);
    if run != [] {
      TimerStaysAlone(s, run[0]);
      InvariantAlways(s, [run[0]]);
      assert [run[0]][1..] == [];
      AloneRun(Do(s, run[0]), run[1..], so);
    }
  }

  lemma StartInOrder(so: nat)
    ensures InOrder(START, so) && TimerAlone(START)
  {
  }

  /** As long as no two threads hold packets of a socket, its packets are injected in the order they came in. */
  lemma {:induction false} SoleKeepsOrder(run: seq<Action>, so: nat)
    requires Possible(START, run) && SoleRun(START, run, so)
    ensures Of(After(START, run).injected, so) <= Expected(After(START, run), so)
    ensures !OutOfOrder(After(START, run), so)
  {
    hide Of, Expected, HeldAll, SoleRun, After, TimerOk, QueueOk, CountOk, SleepOk, PlaceOk, OutOfOrder;
    InvariantAtStart();
    StartInOrder(so);
    InvariantAlways(START, run);
    OrderAlways(START, run, so);
    InOrderIsNotOut(After(START, run), so);
  }

  /** Without disconnecting events every socket's packets are injected in the order they came in. */
  lemma {:induction false} TimerKeepsOrder(run: seq<Action>, so: nat)
    requires Possible(START, run) && forall a :: a in run ==> !a.Disconnect?
    ensures Of(After(START, run).injected, so) <= Expected(After(START, run), so)
    ensures !OutOfOrder(After(START, run), so)
  {
    hide Of, Expected, OutOfOrder, TimerOk, QueueOk, CountOk, SleepOk, PlaceOk, TimerAlone;
    InvariantAtStart();
    StartInOrder(so);
    AloneRun(START, run, so);
    SoleKeepsOrder(run, so);
  }
}
