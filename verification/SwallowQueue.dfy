// The shared data of inlonlife/socks5exp/tcplognke1/tcplognke.c that g_swallowQ_mutex protects, and what
// each region between taking and releasing that lock does to it.
module SwallowQueue {

  /** A TCPLogEntry is identified by a number; so is its socket. */
  datatype LogEntry = LogEntry(id: nat, so: nat)

  /** A swallowed packet. tlq->so is the socket of tlq->tlp. */
  datatype Packet = Packet(id: nat, tlp: LogEntry, inbound: bool)

  datatype TimerState = Inactive | Pending | Running

  /** swallow_queue, gTimerState, and numPktInDefer and tle_in_detach of every entry. */
  datatype Shared = Shared(queue: seq<Packet>, timer: TimerState, defer: map<LogEntry, int>, inDetach: set<LogEntry>)

  datatype Option<T> = None | Some(value: T)

  function Deferred(defer: map<LogEntry, int>, e: LogEntry): int {
    if e in defer then defer[e] else 0
  }

  /** so == NULL || tlq->so == so */
  predicate Matches(x: Packet, so: Option<nat>) {
    so == None || x.tlp.so == so.value
  }

  /** The packets of q that match, or those that do not. */
  function Keep(q: seq<Packet>, so: Option<nat>, matching: bool): (r: seq<Packet>)
    ensures forall x :: x in r <==> x in q && Matches(x, so) == matching
  {
    if q == [] then []
    else
      var rest := Keep(q[..|q| - 1], so, matching);
      var x := q[|q| - 1];
      if Matches(x, so) == matching then rest + [x] else rest
  }

  function Increment(defer: map<LogEntry, int>, e: LogEntry): map<LogEntry, int> {
    defer[e := Deferred(defer, e) + 1]
  }

  function AddAll(defer: map<LogEntry, int>, q: seq<Packet>): map<LogEntry, int> {
    if q == [] then defer else Increment(AddAll(defer, q[..|q| - 1]), q[|q| - 1].tlp)
  }

  /** How many packets of q belong to e. */
  function OfEntry(q: seq<Packet>, e: LogEntry): nat {
    if q == [] then 0 else OfEntry(q[..|q| - 1], e) + if q[|q| - 1].tlp == e then 1 else 0
  }

  lemma {:induction false} AddAllCounts(defer: map<LogEntry, int>, q: seq<Packet>, e: LogEntry)
    ensures Deferred(AddAll(defer, q), e) == Deferred(defer, e) + OfEntry(q, e)
  {
    if q != [] {
      AddAllCounts(defer, q[..|q| - 1], e);
    }
  }

  lemma {:induction false} OfEntryAppend(p: seq<Packet>, q: seq<Packet>, e: LogEntry)
    ensures OfEntry(p + q, e) == OfEntry(p, e) + OfEntry(q, e)
  {
    if q == [] {
      assert p + q == p;
    } else {
      assert (p + q)[..|p + q| - 1] == p + q[..|q| - 1];
      OfEntryAppend(p, q[..|q| - 1], e);
    }
  }

  lemma {:induction false} OfEntryPositive(q: seq<Packet>, e: LogEntry)
    ensures OfEntry(q, e) > 0 <==> exists x :: x in q && x.tlp == e
  {
    if q != [] {
      OfEntryPositive(q[..|q| - 1], e);
      assert q == q[..|q| - 1] + [q[|q| - 1]];
    }
  }

  lemma {:induction false} KeepAppend(p: seq<Packet>, q: seq<Packet>, so: Option<nat>, matching: bool)
    ensures Keep(p + q, so, matching) == Keep(p, so, matching) + Keep(q, so, matching)
  {
    if q == [] {
      assert p + q == p;
    } else {
      assert (p + q)[..|p + q| - 1] == p + q[..|q| - 1];
      KeepAppend(p, q[..|q| - 1], so, matching);
    }
  }

  lemma {:induction false} KeepLast(q: seq<Packet>, x: Packet, so: Option<nat>, matching: bool)
    ensures Keep(q + [x], so, matching) == Keep(q, so, matching) + if Matches(x, so) == matching then [x] else []
  {
    hide Matches;
    assert (q + [x])[..|q|] == q;
  }

  /** Every packet is kept on exactly one of the two sides. */
  lemma {:induction false} KeepSplits(q: seq<Packet>, so: Option<nat>)
    ensures multiset(q) == multiset(Keep(q, so, true)) + multiset(Keep(q, so, false))
    ensures |q| == |Keep(q, so, true)| + |Keep(q, so, false)|
  {
    if q == [] {
    } else {
      hide *;
      var p, x := q[..|q| - 1], q[|q| - 1];
      KeepSplits(p, so);
      assert q == p + [x];
      KeepLast(p, x, so, true);
      KeepLast(p, x, so, false);
    }
  }

  lemma {:induction false} KeepAll(q: seq<Packet>, so: Option<nat>, matching: bool)
    requires forall x :: x in q ==> Matches(x, so) == matching
    ensures Keep(q, so, matching) == q && Keep(q, so, !matching) == []
  {
    if q != [] {
      KeepAll(q[..|q| - 1], so, matching);
      assert q == q[..|q| - 1] + [q[|q| - 1]];
    }
  }

  // ---- the locked regions ----

  /** tl_data_in_fn, tl_data_out_fn: the packet goes to the end of the queue. */
  function Enqueue(g: Shared, x: Packet): Shared {
    g.(queue := g.queue + [x])
  }

  /** The check of the timer state that follows; whether bsd_timeout has to be called. */
  function Schedule(g: Shared): (Shared, bool) {
    (g.(timer := Pending), g.timer == Inactive)
  }

  /** data_timer begins. */
  function StartTimer(g: Shared): Shared {
    g.(timer := Running)
  }

  /** The check at the end of the loop of data_timer; whether it is done. */
  function CheckTimer(g: Shared): (Shared, bool) {
    if g.timer == Running then (g.(timer := Inactive), true) else (g.(timer := Running), false)
  }

  /** ReinjectDeferredData: the matching packets move to a private list. */
  function Drain(g: Shared, so: Option<nat>): (Shared, seq<Packet>) {
    var list := Keep(g.queue, so, true);
    (g.(queue := Keep(g.queue, so, false), defer := AddAll(g.defer, list)), list)
  }

  /** ReinjectDeferredData after an injection; whether wakeup has to be called. */
  function CountDown(g: Shared, e: LogEntry): (Shared, bool) {
    var n := Deferred(g.defer, e) - 1;
    (g.(defer := g.defer[e := n]), e in g.inDetach && n <= 0)
  }

  /** FreeDeferredData; the packets it frees. */
  function Discard(g: Shared, so: nat): (Shared, seq<Packet>) {
    (g.(queue := Keep(g.queue, Some(so), false)), Keep(g.queue, Some(so), true))
  }

  /** The check in tl_detach_fn4 and tl_detach_fn6; whether it is done. Otherwise it goes to sleep. */
  function CheckDetach(g: Shared, e: LogEntry): (Shared, bool) {
    if Deferred(g.defer, e) == 0 then (g, true) else (g.(inDetach := g.inDetach + {e}), false)
  }

  // ---- the same regions as the program runs them ----

  /** The walk has passed k packets of q: those that match are in list, the others are before tlq. */
  ghost predicate Scanned(q: seq<Packet>, k: nat, so: Option<nat>, queue: seq<Packet>, tlq: nat, list: seq<Packet>) {
    k <= |q| && tlq <= |queue| && queue[..tlq] == Keep(q[..k], so, false) && queue[tlq..] == q[k..] &&
    list == Keep(q[..k], so, true)
  }

  lemma ScanStart(q: seq<Packet>, so: Option<nat>)
    ensures Scanned(q, 0, so, q, 0, [])
  {
    assert q[..0] == [] && q[0..] == q;
  }

  lemma ScanStep(q: seq<Packet>, k: nat, so: Option<nat>, queue: seq<Packet>, tlq: nat, list: seq<Packet>)
    requires Scanned(q, k, so, queue, tlq, list) && tlq < |queue|
    ensures k < |q|
    ensures Matches(queue[tlq], so) ==>
      Scanned(q, k + 1, so, queue[..tlq] + queue[tlq + 1..], tlq, list + [queue[tlq]])
    ensures !Matches(queue[tlq], so) ==> Scanned(q, k + 1, so, queue, tlq + 1, list)
  {
    hide Matches;
    assert |queue[tlq..]| == |q[k..]|;
    var x := queue[tlq];
    assert x == queue[tlq..][0] == q[k..][0] == q[k];
    assert queue[tlq + 1..] == queue[tlq..][1..] == q[k..][1..] == q[k + 1..];
    var p := q[..k + 1];
    assert p[..|p| - 1] == q[..k] && p[|p| - 1] == x;
    if Matches(x, so) {
      var r := queue[..tlq] + queue[tlq + 1..];
      assert r[..tlq] == queue[..tlq] && r[tlq..] == queue[tlq + 1..];
    } else {
      assert queue[..tlq + 1] == queue[..tlq] + [x];
    }
  }

  lemma {:induction false} ScanEnd(q: seq<Packet>, k: nat, so: Option<nat>, queue: seq<Packet>, tlq: nat, list: seq<Packet>)
    requires Scanned(q, k, so, queue, tlq, list) && tlq == |queue|
    ensures queue == Keep(q, so, false) && list == Keep(q, so, true)
  {
    assert |queue[tlq..]| == |q[k..]|;
    assert q[..k] == q && queue[..tlq] == queue;
  }

  lemma {:induction false} AddLast(defer: map<LogEntry, int>, q: seq<Packet>, x: Packet)
    ensures AddAll(defer, q + [x]) == Increment(AddAll(defer, q), x.tlp) && AddAll(defer, []) == defer
  {
    assert (q + [x])[..|q|] == q;
  }

  class Globals {
    var queue: seq<Packet>
    var timer: TimerState
    var numPktInDefer: map<LogEntry, int>
    var inDetach: set<LogEntry>

    ghost function Value(): Shared
      reads this
    {
      Shared(queue, timer, numPktInDefer, inDetach)
    }

    constructor ()
      ensures Value() == Shared([], Inactive, map[], {})
    {
      queue, timer, numPktInDefer, inDetach := [], Inactive, map[], {};
    }

    method InsertTail(x: Packet)
      modifies this
      ensures Value() == Enqueue(old(Value()), x)
    {
      queue := queue + [x];
    }

    method SetPending() returns (callTimeout: bool)
      modifies this
      ensures (Value(), callTimeout) == Schedule(old(Value()))
    {
      callTimeout := timer == Inactive;
      timer := Pending;
    }

    method SetRunning()
      modifies this
      ensures Value() == StartTimer(old(Value()))
    {
      timer := Running;
    }

    method TimerDone() returns (done: bool)
      modifies this
      ensures (Value(), done) == CheckTimer(old(Value()))
    {
      if timer == Running {
        timer := Inactive;
        done := true;
      } else {
        timer := Running;
        done := false;
      }
    }

    /** Walks along the queue and moves every matching packet to the private list. */
    method MoveToInject(so: Option<nat>) returns (packetsToInject: seq<Packet>)
      modifies this
      ensures (Value(), packetsToInject) == Drain(old(Value()), so)
    {
      hide Matches, Deferred, AddAll, Keep, Scanned, Increment;
      packetsToInject := [];
      ghost var q := queue;
      ScanStart(q, so);
      AddLast(numPktInDefer, [], Packet(0, LogEntry(0, 0), false));
      var tlq := 0;
      ghost var k := 0;
      while tlq < |queue|
        invariant tlq <= |queue| && k <= |q| && Scanned(q, k, so, queue, tlq, packetsToInject)
        invariant numPktInDefer == AddAll(old(numPktInDefer), packetsToInject)
        invariant timer == old(timer) && inDetach == old(inDetach)
        decreases |q| - k
      {
        var x := queue[tlq];
        ScanStep(q, k, so, queue, tlq, packetsToInject);
        if Matches(x, so) {
          AddLast(old(numPktInDefer), packetsToInject, x);
          queue := queue[..tlq] + queue[tlq + 1..];
          packetsToInject := packetsToInject + [x];
          numPktInDefer := Increment(numPktInDefer, x.tlp);
        } else {
          tlq := tlq + 1;
        }
        k := k + 1;
      }
      ScanEnd(q, k, so, queue, tlq, packetsToInject);
    }

    method FinishPacket(tlp: LogEntry) returns (wake: bool)
      modifies this
      ensures (Value(), wake) == CountDown(old(Value()), tlp)
    {
      numPktInDefer := numPktInDefer[tlp := Deferred(numPktInDefer, tlp) - 1];
      wake := tlp in inDetach && numPktInDefer[tlp] <= 0;
    }

    /** Walks along the queue and frees every packet of the socket. */
    method FreeDeferredData(so: nat) returns (ghost freed: seq<Packet>)
      modifies this`queue
      ensures (Value(), freed) == Discard(old(Value()), so)
    {
      hide Matches, Keep, Scanned;
      freed := [];
      ghost var q := queue;
      ScanStart(q, Some(so));
      var tlq := 0;
      ghost var k := 0;
      while tlq < |queue|
        invariant tlq <= |queue| && k <= |q| && Scanned(q, k, Some(so), queue, tlq, freed)
        decreases |q| - k
      {
        var x := queue[tlq];
        ScanStep(q, k, Some(so), queue, tlq, freed);
        if Matches(x, Some(so)) {
          queue := queue[..tlq] + queue[tlq + 1..];
          freed := freed + [x];
        } else {
          tlq := tlq + 1;
        }
        k := k + 1;
      }
      ScanEnd(q, k, Some(so), queue, tlq, freed);
    }

    method DetachDone(tlp: LogEntry) returns (done: bool)
      modifies this`inDetach
      ensures (Value(), done) == CheckDetach(old(Value()), tlp)
    {
      var numPktsInDefer := Deferred(numPktInDefer, tlp);
      if numPktsInDefer == 0 {
        done := true;
      } else {
        inDetach := inDetach + {tlp};
        done := false;
      }
    }
  }
}
