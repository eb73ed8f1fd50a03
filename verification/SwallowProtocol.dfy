module SwallowProtocol {
  // The swallow and re-inject protocol of inlonlife/socks5exp/tcplognke1/tcplognke.c as a state machine.
  // Every region under g_swallowQ_mutex is one atomic step, and so is every call of the kernel; the steps of
  // the threads interleave in any order.

  import opened Sums
  import opened SwallowQueue

  /** Who runs ReinjectDeferredData: data_timer for all sockets, or the disconnecting event for one. */
  datatype Runner = Timer | Event(so: nat)

  /** What a thread does next. */
  datatype Pc =
    | Checking                                                     // producer: the packet is queued, the timer not checked
    | Calling                                                      // producer: bsd_timeout has to be called
    | Due                                                          // data_timer is scheduled
    | Draining(who: Runner)                                        // ReinjectDeferredData before its scan
    | Injecting(who: Runner, todo: seq<Packet>)                    // at the head of its loop
    | InHand(who: Runner, packet: Packet, todo: seq<Packet>)       // sock_inject_data_in or _out is running
    | CountingDown(who: Runner, tlp: LogEntry, todo: seq<Packet>)  // the packet is injected, numPktInDefer still counts it
    | Waking(who: Runner, tlp: LogEntry, todo: seq<Packet>)        // the lock is released, wakeup has to be called
    | Finished                                                     // data_timer before it checks the timer state
    | Freeing(tlp: LogEntry)                                       // detach before FreeDeferredData
    | Waiting(tlp: LogEntry)                                       // detach before it checks numPktInDefer
    | Asleep(tlp: LogEntry)                                        // detach in msleep
    | Returned(tlp: LogEntry)                                      // detach has returned
    | Done

  /** The shared data, the threads, and what has happened to the packets so far. */
  datatype State = State(g: Shared, threads: seq<Pc>, swallowed: seq<Packet>, injected: seq<Packet>, freed: seq<Packet>)

  const START := State(Shared([], Inactive, map[], {}), [], [], [], [])

  /** What a thread does in one step. */
  datatype Move = Move(g: Shared, pc: Pc, injected: seq<Packet>, freed: seq<Packet>, wake: Option<LogEntry>)

  predicate CanMove(pc: Pc) {
    !pc.Asleep? && !pc.Returned? && !pc.Done?
  }

  /** bsd_timeout turns the place of the producer that calls it into that of the scheduled data_timer. */
  function MoveOf(g: Shared, pc: Pc): Move
    requires CanMove(pc)
  {
    match pc
    case Checking =>
      var (h, call) := Schedule(g);
      Move(h, if call then Calling else Done, [], [], None)
    case Calling => Move(g, Due, [], [], None)
    case Due => Move(StartTimer(g), Draining(Timer), [], [], None)
    case Draining(who) =>
      var (h, list) := Drain(g, if who == Timer then None else Some(who.so));
      Move(h, Injecting(who, list), [], [], None)
    case Injecting(who, todo) =>
      Move(g, if todo != [] then InHand(who, todo[0], todo[1..]) else if who == Timer then Finished else Done,
           [], [], None)
    case InHand(who, x, todo) => Move(g, CountingDown(who, x.tlp, todo), [x], [], None)
    case CountingDown(who, e, todo) =>
      var (h, wake) := CountDown(g, e);
      Move(h, if wake then Waking(who, e, todo) else Injecting(who, todo), [], [], None)
    case Waking(who, e, todo) => Move(g, Injecting(who, todo), [], [], Some(e))
    case Finished =>
      var (h, done) := CheckTimer(g);
      Move(h, if done then Done else Draining(Timer), [], [], None)
    case Freeing(e) =>
      var (h, freed) := Discard(g, e.so);
      Move(h, Waiting(e), [], freed, None)
    case Waiting(e) =>
      var (h, done) := CheckDetach(g, e);
      Move(h, if done then Returned(e) else Asleep(e), [], [], None)
  }

  /** wakeup: every thread that sleeps on the entry goes on. */
  function Awaken(threads: seq<Pc>, e: LogEntry): (r: seq<Pc>)
    ensures |r| == |threads|
    ensures forall t :: 0 <= t < |r| ==> r[t] == if threads[t] == Asleep(e) then Waiting(e) else threads[t]
  {
    seq(|threads|, t requires 0 <= t < |threads| => if threads[t] == Asleep(e) then Waiting(e) else threads[t])
  }

  datatype Action =
    | Swallow(x: Packet)     // a new packet arrives and is queued
    | Disconnect(so: nat)    // a disconnecting event arrives
    | Detach(e: LogEntry)    // the socket is detached
    | WakeUp(t: nat)         // a sleeping thread wakes without being called
    | Run(t: nat)            // a thread makes its next step

  predicate CanDo(s: State, a: Action) {
    match a
    case Swallow(x) => x !in s.swallowed
    case Disconnect(_) => true
    case Detach(_) => true
    case WakeUp(t) => t < |s.threads| && s.threads[t].Asleep?
    case Run(t) => t < |s.threads| && CanMove(s.threads[t])
  }

  function Ran(s: State, t: nat, m: Move): State
    requires t < |s.threads|
  {
    var threads := s.threads[t := m.pc];
    State(m.g, if m.wake == None then threads else Awaken(threads, m.wake.value),
          s.swallowed, s.injected + m.injected, s.freed + m.freed)
  }

  function Do(s: State, a: Action): State
    requires CanDo(s, a)
  {
    match a
    case Swallow(x) => s.(g := Enqueue(s.g, x), threads := s.threads + [Checking], swallowed := s.swallowed + [x])
    case Disconnect(so) => s.(threads := s.threads + [Draining(Event(so))])
    case Detach(e) => s.(threads := s.threads + [Freeing(e)])
    case WakeUp(t) => s.(threads := s.threads[t := Waiting(s.threads[t].tlp)])
    case Run(t) => Ran(s, t, MoveOf(s.g, s.threads[t]))
  }

  predicate Possible(s: State, run: seq<Action>)
    decreases |run|
  {
    run == [] || (CanDo(s, run[0]) && Possible(Do(s, run[0]), run[1..]))
  }

  function After(s: State, run: seq<Action>): State
    requires Possible(s, run)
    decreases |run|
  {
    if run == [] then s else After(Do(s, run[0]), run[1..])
  }

  // ---- sums over the threads ----

  /** f does not tell a sleeping thread from one that was woken. */
  ghost predicate IgnoresSleep(f: Pc -> nat) {
    forall e :: f(Asleep(e)) == f(Waiting(e))
  }

  lemma SumRan(s: State, t: nat, m: Move, f: Pc -> nat)
    requires t < |s.threads| && IgnoresSleep(f)
    ensures Sum(Ran(s, t, m).threads, f) + f(s.threads[t]) == Sum(s.threads, f) + f(m.pc)
  {
    SumUpdate(s.threads, t, m.pc, f);
    SumPointwise(s.threads[t := m.pc], Ran(s, t, m).threads, f);
  }

  lemma {:induction false} SumMore(threads: seq<Pc>, pc: Pc, f: Pc -> nat)
    ensures Sum(threads + [pc], f) == Sum(threads, f) + f(pc)
  {
    SumConcat(threads, [pc], f);
    SumSingle(pc, f);
  }

  lemma SumWoken(s: State, t: nat, f: Pc -> nat)
    requires CanDo(s, WakeUp(t)) && IgnoresSleep(f)
    ensures Sum(Do(s, WakeUp(t)).threads, f) == Sum(s.threads, f)
  {
    SumUpdate(s.threads, t, Waiting(s.threads[t].tlp), f);
  }

  // ---- the timer ----

  /** The thread is an activation of data_timer, from the decision to schedule it to its end. */
  function Token(pc: Pc): nat {
    match pc
    case Calling => 1
    case Due => 1
    case Finished => 1
    case Draining(who) => if who == Timer then 1 else 0
    case Injecting(who, _) => if who == Timer then 1 else 0
    case InHand(who, _, _) => if who == Timer then 1 else 0
    case CountingDown(who, _, _) => if who == Timer then 1 else 0
    case Waking(who, _, _) => if who == Timer then 1 else 0
    case _ => 0
  }

  function Active(timer: TimerState): nat {
    if timer == Inactive then 0 else 1
  }

  predicate Scheduled(pc: Pc) {
    pc.Calling? || pc.Due?
  }

  /** There is one activation when the timer is not inactive, and none otherwise. */
  ghost predicate TimerOk(s: State) {
    Sum(s.threads, Token) == Active(s.g.timer) &&
    forall t :: 0 <= t < |s.threads| && Scheduled(s.threads[t]) ==> s.g.timer == Pending
  }

  lemma TokenMove(g: Shared, pc: Pc)
    requires CanMove(pc) && Token(pc) <= Active(g.timer) && (Scheduled(pc) ==> g.timer == Pending)
    ensures var m := MoveOf(g, pc);
      Token(m.pc) + Active(g.timer) == Token(pc) + Active(m.g.timer) &&
      (Scheduled(m.pc) ==> m.g.timer == Pending) &&
      (g.timer == Pending && m.g.timer != Pending ==> Token(pc) == 1)
  {
  }

  lemma TimerKept(s: State, a: Action)
    requires TimerOk(s) && CanDo(s, a)
    ensures TimerOk(Do(s, a))
  {
    hide MoveOf, Token;
    TokensIgnoreSleep();
    var r := Do(s, a);
    match a
    case Swallow(x) =>
      SumMore(s.threads, Checking, Token);
      NoTokens(s.g, 0, LogEntry(0, 0));
    case Disconnect(so) =>
      SumMore(s.threads, Draining(Event(so)), Token);
      NoTokens(s.g, so, LogEntry(0, 0));
    case Detach(e) =>
      SumMore(s.threads, Freeing(e), Token);
      NoTokens(s.g, 0, e);
    case WakeUp(t) =>
      SumWoken(s, t, Token);
    case Run(t) =>
      var m := MoveOf(s.g, s.threads[t]);
      SumRan(s, t, m, Token);
      SumAtLeast(s.threads, t, Token);
      TokenMove(s.g, s.threads[t]);
      forall u | 0 <= u < |r.threads| && Scheduled(r.threads[u]) ensures m.g.timer == Pending {
        if u != t {
          TokenOfScheduled(s.threads[u]);
          if u < t {
            SumAtLeastTwo(s.threads, u, t, Token);
          } else {
            SumAtLeastTwo(s.threads, t, u, Token);
          }
        }
      }
  }

  lemma TokensIgnoreSleep()
    ensures IgnoresSleep(Token)
  {
  }

  lemma NoTokens(g: Shared, so: nat, e: LogEntry)
    ensures Token(Checking) == 0 && Token(Draining(Event(so))) == 0 && Token(Freeing(e)) == 0
  {
  }

  lemma TokenOfScheduled(pc: Pc)
    ensures Scheduled(pc) ==> Token(pc) == 1
  {
  }

  /** At most one activation of data_timer is outstanding, and none exactly when the timer is inactive. */
  lemma OneActivation(s: State)
    requires TimerOk(s)
    ensures forall t, u ::
      (0 <= t < u < |s.threads| ==> Token(s.threads[t]) + Token(s.threads[u]) <= 1)
    ensures s.g.timer == Inactive <==> forall t :: 0 <= t < |s.threads| ==> Token(s.threads[t]) == 0
  {
    hide Token;
    forall t, u | 0 <= t < u < |s.threads| ensures Token(s.threads[t]) + Token(s.threads[u]) <= 1 {
      SumAtLeastTwo(s.threads, t, u, Token);
    }
    if s.g.timer == Inactive {
      forall t | 0 <= t < |s.threads| ensures Token(s.threads[t]) == 0 {
        SumAtLeast(s.threads, t, Token);
      }
    } else {
      var t := SumPositive(s.threads, Token);
    }
  }

  // ---- no packet is forgotten in the queue ----

  /** The thread is going to drain the whole queue. */
  predicate DrainAhead(g: Shared, pc: Pc) {
    pc.Calling? || pc.Due? || pc == Draining(Timer) || (Token(pc) == 1 && g.timer == Pending)
  }

  /** While a packet is queued, its producer is about to check the timer or a drain is still to come. */
  ghost predicate QueueOk(s: State) {
    s.g.queue != [] ==>
      exists t :: 0 <= t < |s.threads| && (s.threads[t].Checking? || DrainAhead(s.g, s.threads[t]))
  }

  lemma QueueMove(g: Shared, pc: Pc)
    requires CanMove(pc) && (Scheduled(pc) ==> g.timer == Pending)
    ensures var m := MoveOf(g, pc);
      (m.g.queue != [] ==> g.queue != []) &&
      (DrainAhead(g, pc) ==> m.g.queue == [] || DrainAhead(m.g, m.pc)) &&
      (pc.Checking? ==> m.g.timer == Pending) &&
      (g.timer == Pending && m.g.timer != Pending ==> Token(pc) == 1)
  {
    if pc == Draining(Timer) {
      KeepAll(g.queue, None, true);
    }
  }

  lemma QueueKept(s: State, a: Action)
    requires TimerOk(s) && QueueOk(s) && CanDo(s, a)
    ensures QueueOk(Do(s, a))
  {
    hide MoveOf, Token;
    TimerKept(s, a);
    var r := Do(s, a);
    if r.g.queue != [] {
      match a
      case Swallow(x) => assert r.threads[|s.threads|].Checking?;
      case Disconnect(so) => QueueWitness(s, r, -1);
      case Detach(e) => QueueWitness(s, r, -1);
      case WakeUp(t) => QueueWitness(s, r, t);
      case Run(t) =>
        QueueMove(s.g, s.threads[t]);
        QueueRan(s, t);
    }
  }

  /** Adding threads or waking one does not matter for the queue. */
  lemma QueueWitness(s: State, r: State, w: int)
    requires QueueOk(s) && r.g == s.g && s.g.queue != [] && |r.threads| >= |s.threads|
    requires forall t :: 0 <= t < |s.threads| && t != w ==> r.threads[t] == s.threads[t]
    requires 0 <= w < |s.threads| ==> s.threads[w].Asleep?
    ensures QueueOk(r)
  {
    var t :| 0 <= t < |s.threads| && (s.threads[t].Checking? || DrainAhead(s.g, s.threads[t]));
    assert r.threads[t] == s.threads[t];
  }

  lemma QueueRan(s: State, t: nat)
    requires TimerOk(s) && QueueOk(s) && CanDo(s, Run(t)) && TimerOk(Do(s, Run(t)))
    requires Do(s, Run(t)).g.queue != []
    ensures QueueOk(Do(s, Run(t)))
  {
    hide MoveOf, Token, TimerOk;
    var m, r := MoveOf(s.g, s.threads[t]), Do(s, Run(t));
    UseTimer(s, t);
    QueueMove(s.g, s.threads[t]);
    var u :| 0 <= u < |s.threads| && (s.threads[u].Checking? || DrainAhead(s.g, s.threads[u]));
    if u == t {
      if s.threads[t].Checking? {
        var v := ActivationExists(r);
        assert DrainAhead(r.g, r.threads[v]);
      } else {
        AheadIsAwake(m.g, m.pc);
        assert DrainAhead(r.g, r.threads[t]);
      }
    } else {
      AheadIsAwake(s.g, s.threads[u]);
      assert r.threads[u] == s.threads[u];
      if !s.threads[u].Checking? && s.g.timer == Pending && m.g.timer != Pending {
        AheadIsToken(s.g, s.threads[u]);
        OneActivation(s);
      }
    }
  }

  lemma UseTimer(s: State, t: nat)
    requires TimerOk(s) && t < |s.threads|
    ensures Scheduled(s.threads[t]) ==> s.g.timer == Pending
  {
  }

  lemma AheadIsAwake(g: Shared, pc: Pc)
    ensures DrainAhead(g, pc) || pc.Checking? ==> !pc.Asleep?
  {
  }

  lemma AheadIsToken(g: Shared, pc: Pc)
    ensures DrainAhead(g, pc) ==> Token(pc) == 1
  {
  }

  lemma ActivationExists(s: State) returns (t: nat)
    requires TimerOk(s) && s.g.timer != Inactive
    ensures t < |s.threads| && Token(s.threads[t]) == 1
  {
    t := SumPositive(s.threads, Token);
  }
}
