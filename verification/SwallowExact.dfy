module SwallowExact {
  // What the steps of the protocol of SwallowProtocol touch and what they leave alone: which packets a drain
  // takes and a detach frees, when a thread that counts down calls wakeup, when a detach sleeps.

  import opened Sums
  import opened SwallowQueue
  import opened SwallowProtocol
  import opened SwallowPackets

  // ---- the two sides of a scan, by position ----

  /** How many of the packets of q match, or do not. */
  function Rank(q: seq<Packet>, so: Option<nat>, matching: bool): nat {
    if q == [] then 0 else Rank(q[..|q| - 1], so, matching) + if Matches(q[|q| - 1], so) == matching then 1 else 0
  }

  lemma {:induction false} RankIsLength(q: seq<Packet>, so: Option<nat>, matching: bool)
    ensures |Keep(q, so, matching)| == Rank(q, so, matching)
  {
    if q != [] {
      RankIsLength(q[..|q| - 1], so, matching);
    }
  }

  /** Every packet goes to its side of the scan and stands there behind those of its side that were before it. */
  lemma {:induction false} KeptAt(q: seq<Packet>, so: Option<nat>, i: nat)
    requires i < |q|
    ensures var b := Matches(q[i], so);
      |Keep(q, so, b)| == Rank(q, so, b) > Rank(q[..i], so, b) && Keep(q, so, b)[Rank(q[..i], so, b)] == q[i]
  {
    var b := Matches(q[i], so);
    var p, x := q[..|q| - 1], q[|q| - 1];
    RankIsLength(q, so, b);
    RankIsLength(p, so, b);
    if i < |p| {
      KeptAt(p, so, i);
      assert p[..i] == q[..i];
    } else {
      assert q[..i] == p;
    }
  }

  // ---- whose packets a thread takes ----

  function RunnerOf(pc: Pc): Option<Runner> {
    match pc
    case Draining(who) => Some(who)
    case Injecting(who, _) => Some(who)
    case InHand(who, _, _) => Some(who)
    case CountingDown(who, _, _) => Some(who)
    case Waking(who, _, _) => Some(who)
    case _ => None
  }

  /** A disconnecting event holds only packets of its socket. */
  ghost predicate OwnOnly(pc: Pc) {
    forall x :: Holds(pc, x) && RunnerOf(pc).Some? && RunnerOf(pc).value.Event? ==> x.tlp.so == RunnerOf(pc).value.so
  }

  /** The sockets of the detaches that a run has begun. */
  function Detached(run: seq<Action>): set<nat> {
    set a | a in run && a.Detach? :: a.e.so
  }

  /** Events hold their own packets, and the freed packets and those to be freed are of detached sockets. */
  ghost predicate TakesOwn(s: State, gone: set<nat>) {
    (forall t :: 0 <= t < |s.threads| ==> OwnOnly(s.threads[t])) &&
    (forall t :: 0 <= t < |s.threads| && s.threads[t].Freeing? ==> s.threads[t].tlp.so in gone) &&
    (forall x :: x in s.freed ==> x.tlp.so in gone)
  }

  lemma HeldIsIn(pc: Pc, x: Packet)
    ensures Holds(pc, x) <==>
      (((pc.Injecting? || pc.InHand? || pc.CountingDown? || pc.Waking?) && x in pc.todo) || (pc.InHand? && x == pc.packet))
  {
  }

  lemma OwnMove(g: Shared, pc: Pc)
    requires CanMove(pc) && OwnOnly(pc)
    ensures OwnOnly(MoveOf(g, pc).pc)
    ensures MoveOf(g, pc).pc.Freeing? ==> pc == MoveOf(g, pc).pc
    ensures forall x :: x in MoveOf(g, pc).freed ==> pc.Freeing? && x.tlp.so == pc.tlp.so
  {
    hide Holding, AddAll, Deferred;
    var m := MoveOf(g, pc);
    forall x | Holds(m.pc, x) && RunnerOf(m.pc).Some? && RunnerOf(m.pc).value.Event?
      ensures x.tlp.so == RunnerOf(m.pc).value.so
    {
      HeldIsIn(m.pc, x);
      HeldIsIn(pc, x);
    }
  }

  lemma OwnNew(pc: Pc)
    requires pc.Checking? || pc.Draining? || pc.Freeing? || pc.Waiting?
    ensures OwnOnly(pc)
  {
  }

  lemma OwnKept(s: State, a: Action, gone: set<nat>)
    requires TakesOwn(s, gone) && CanDo(s, a)
    ensures TakesOwn(Do(s, a), gone + if a.Detach? then {a.e.so} else {})
  {
    hide MoveOf, OwnOnly;
    match a
    case Swallow(_) => OwnNew(Checking);
    case Disconnect(so) => OwnNew(Draining(Event(so)));
    case Detach(e) => OwnNew(Freeing(e));
    case WakeUp(t) => OwnNew(Waiting(s.threads[t].tlp));
    case Run(t) =>
      OwnMove(s.g, s.threads[t]);
      forall e {
        OwnNew(Waiting(e));
      }
  }

  lemma {:induction false} OwnAlways(s: State, run: seq<Action>, gone: set<nat>)
    requires TakesOwn(s, gone) && Possible(s, run)
    ensures TakesOwn(After(s, run), gone + Detached(run))
    decreases |run|
  {
    hide Do, CanDo, TakesOwn;
    if run == [] {
      assert gone + Detached(run) == gone;
    } else {
      var more := gone + if run[0].Detach? then {run[0].e.so} else {};
      OwnKept(s, run[0], gone);
      OwnAlways(Do(s, run[0]), run[1..], more);
      assert run == [run[0]] + run[1..];
      assert more + Detached(run[1..]) == gone + Detached(run);
    }
  }

  /** A disconnecting event never holds a packet of another socket, and only the packets of detached sockets are freed. */
  lemma {:induction false} OnlyItsOwn(run: seq<Action>, x: Packet)
    requires Possible(START, run)
    ensures var s := After(START, run);
      (forall t, so :: (0 <= t < |s.threads| && Holds(s.threads[t], x) && RunnerOf(s.threads[t]) == Some(Event(so)) ==>
        x.tlp.so == so)) &&
      (x in s.freed ==> exists e :: Detach(e) in run && e.so == x.tlp.so)
  {
    hide Holds;
    OwnAlways(START, run, {});
    var s := After(START, run);
    assert forall t :: 0 <= t < |s.threads| ==> OwnOnly(s.threads[t]);
    if x in s.freed {
      var a :| a in run && a.Detach? && a.e.so == x.tlp.so;
      assert Detach(a.e) in run;
    }
  }

  /** A drain takes all packets of its sockets and no others, and a detach frees those of its socket and no others. */
  lemma TakesAllOfThem(s: State, t: nat, x: Packet)
    requires CanDo(s, Run(t)) && x in s.g.queue
    ensures var r := Do(s, Run(t));
      match s.threads[t]
      case Draining(who) =>
        if who == Timer || x.tlp.so == who.so then x !in r.g.queue && Holds(r.threads[t], x) && x !in r.freed[|s.freed|..]
        else x in r.g.queue && !Holds(r.threads[t], x)
      case Freeing(e) =>
        if x.tlp.so == e.so then x !in r.g.queue && x in r.freed[|s.freed|..]
        else x in r.g.queue && x !in r.freed[|s.freed|..]
      case _ => r.g.queue == s.g.queue && r.freed == s.freed
  {
    hide AddAll, Deferred, Holding;
    var m, r := MoveOf(s.g, s.threads[t]), Do(s, Run(t));
    assert r.freed[|s.freed|..] == m.freed;
    HeldIsIn(m.pc, x);
  }

  // ---- who sleeps and who wakes ----

  /** Counting down the last packet in flight of an entry calls wakeup exactly if a detach of it was announced. */
  lemma WakesAtTheLast(s: State, t: nat, e: LogEntry)
    requires CountOk(s) && CanDo(s, Run(t)) && s.threads[t].CountingDown? && s.threads[t].tlp == e
    ensures var r := Do(s, Run(t));
      r.threads[t] == if e in s.g.inDetach && Sum(r.threads, InFlightOf(e)) == 0 then
          Waking(s.threads[t].who, e, s.threads[t].todo)
        else Injecting(s.threads[t].who, s.threads[t].todo)
  {
    hide InFlight, CountOk;
    CountKept(s, Run(t));
    CountOf(Do(s, Run(t)), e);
  }

  lemma CountOf(s: State, e: LogEntry)
    requires CountOk(s)
    ensures Deferred(s.g.defer, e) == Sum(s.threads, InFlightOf(e))
  {
  }

  /** A detach returns exactly if no packet of its entry is in flight; otherwise it is announced and sleeps. */
  lemma SleepsWhileInFlight(s: State, t: nat, e: LogEntry)
    requires CountOk(s) && CanDo(s, Run(t)) && s.threads[t] == Waiting(e)
    ensures var r := Do(s, Run(t));
      if Sum(s.threads, InFlightOf(e)) == 0 then r == s.(threads := s.threads[t := Returned(e)])
      else r == s.(g := s.g.(inDetach := s.g.inDetach + {e}), threads := s.threads[t := Asleep(e)])
  {
    hide InFlight;
    CountOf(s, e);
  }

  /** No other step announces a detach or takes an announcement back. */
  lemma AnnouncedBySleep(s: State, a: Action, e: LogEntry)
    requires CountOk(s) && CanDo(s, a)
    ensures e in Do(s, a).g.inDetach <==>
      e in s.g.inDetach || (a.Run? && s.threads[a.t] == Waiting(e) && Sum(s.threads, InFlightOf(e)) > 0)
  {
    hide InFlight, Keep, AddAll;
    CountOf(s, e);
  }
}
