// The page replacement simulations of experiment/os/exp5/page.c, on page tables and linked frames.
module Paging {
  import opened PagingPolicy
  import opened PagingOrder

  const INT_MAX: int := 0x7FFF_FFFF

  class Frame {
    var id: int
    var number: int
    var next: Frame?
  }

  ghost predicate Different(fs: seq<Frame>) {
    forall i, j :: 0 <= i < j < |fs| ==> fs[i] != fs[j]
  }

  /** The first frame goes to the end. */
  ghost function Rotate(fs: seq<Frame>): (r: seq<Frame>)
    requires fs != []
    ensures |r| == |fs| && forall i :: 0 <= i < |r| ==> r[i] == if i + 1 < |fs| then fs[i + 1] else fs[0]
  {
    fs[1..] + [fs[0]]
  }

  lemma Rotated(fs: seq<Frame>)
    requires Different(fs) && fs != []
    ensures Different(Rotate(fs)) && forall f :: f in Rotate(fs) ==> f in fs
  {
    hide Rotate;
  }

  /** The frame after the i-th, when the first n are one list and the others another. */
  function NextOf(n: nat, order: seq<Frame>, i: nat): Frame?
    requires i < |order|
  {
    if i + 1 == n || i + 1 == |order| then null else order[i + 1]
  }

  /** The first n frames are linked in their order, and so are the others. */
  ghost predicate Links(n: nat, order: seq<Frame>)
    reads order`next
  {
    forall i :: 0 <= i < |order| ==> order[i].next == NextOf(n, order, i)
  }

  /** The pages in r were used one after the other, before now. */
  ghost predicate Rising(r: seq<nat>, time: seq<int>, now: int) {
    (forall i :: 0 <= i < |r| ==> r[i] < |time| && 0 <= time[r[i]] < now) &&
    forall i, j :: 0 <= i < j < |r| ==> time[r[i]] < time[r[j]]
  }

  lemma MovedRising(r: seq<nat>, i: nat, s: seq<nat>, time: seq<int>, now: int)
    requires Rising(r, time, now) && now >= 0 && i < |r| == |s| && forall j :: 0 <= j < |s| - 1 ==> s[j] != r[i]
    requires forall j :: 0 <= j < |s| ==> s[j] == AfterMove(r, i, j)
    ensures Rising(s, time[r[i] := now], now + 1)
  {
    var after := time[r[i] := now];
    forall a, b | 0 <= a < b < |s| ensures after[s[a]] < after[s[b]] {
      assert s[a] == AfterMove(r, i, a) && s[b] == AfterMove(r, i, b);
    }
  }

  class Memory {
    const number: array<int>      // pages[..].number
    const time: array<int>        // pages[..].time
    const pager: seq<Frame>
    var freeHead: Frame?
    var busyHead: Frame?
    var busyTail: Frame?

    ghost predicate Valid()
      reads this, pager
    {
      number.Length == time.Length && number != time && Different(pager) &&
      forall i :: 0 <= i < |pager| ==> pager[i].number == i
    }

    ghost predicate Empty()
      reads this, number, time, pager
    {
      Valid() && Links(0, pager) && freeHead == (if |pager| > 0 then pager[0] else null) && busyHead == null && busyTail == null &&
      forall p :: 0 <= p < number.Length ==> number[p] == -1 && time[p] == -1
    }

    /** init */
    constructor (pages: nat, memSize: nat)
      requires memSize > 0
      ensures Empty() && number.Length == pages && |pager| == memSize
      ensures fresh(number) && fresh(time) && forall i :: 0 <= i < |pager| ==> fresh(pager[i])
    {
      var frames := NewFrames(memSize);
      number := new int[pages](_ => -1);
      time := new int[pages](_ => -1);
      pager := frames;
      freeHead := frames[0];
      busyHead, busyTail := null, null;
    }

    static method NewFrames(n: nat) returns (fs: seq<Frame>)
      requires n > 0
      ensures |fs| == n && Different(fs) && Links(0, fs) && forall i :: 0 <= i < n ==> fresh(fs[i]) && fs[i].number == i
    {
      fs := [];
      for i := 0 to n
        invariant |fs| == i && Different(fs) && forall j :: 0 <= j < i ==> fresh(fs[j])
      {
        var f := new Frame;
        fs := fs + [f];
      }
      for i := 0 to n
        invariant |fs| == n && forall j :: 0 <= j < i ==> fs[j].number == j && fs[j].next == NextOf(0, fs, j)
      {
        fs[i].number := i;
        fs[i].next := if i + 1 == n then null else fs[i + 1];
      }
    }

    // ---- FIFO ----

    /** The first |q| frames hold the pages in q, in the order in which they came in; the others are free. */
    ghost predicate Queued(q: seq<nat>, order: seq<Frame>)
      reads this, number, pager, order
    {
      Valid() && Different(order) && |order| == |pager| && (forall f :: f in order ==> f in pager) && |q| <= |order| &&
      Table(q, order) && Links(|q|, order) &&
      freeHead == (if |q| < |order| then order[|q|] else null) &&
      busyHead == (if |q| > 0 then order[0] else null) && busyTail == (if |q| > 0 then order[|q| - 1] else null)
    }

    /** The page table says which frame holds which page. */
    ghost predicate Table(q: seq<nat>, order: seq<Frame>)
      reads number, order`id, order`number
    {
      |q| <= |order| && NoDup(q) && (forall i :: 0 <= i < |q| ==> q[i] < number.Length) &&
      (forall i :: 0 <= i < |q| ==> order[i].id == q[i] && number[q[i]] == order[i].number >= 0) &&
      forall p :: 0 <= p < number.Length && p !in q ==> number[p] == -1
    }

    lemma NothingQueued()
      requires Empty()
      ensures Queued([], pager)
    {
    }

    /** The page of the oldest frame is no longer resident. */
    method Unmap(p: int, ghost q: seq<nat>, ghost order: seq<Frame>)
      requires Table(q, order) && |q| == |order| > 0 && p == q[0] && Different(order)
      modifies number
      ensures Table(q[1..], Rotate(order))
    {
      hide Rotate;
      assert q == [q[0]] + q[1..];
      number[p] := -1;
    }

    /** The head of a busy list of all frames becomes the only free frame. */
    method DetachHead(first: Frame, ghost order: seq<Frame>)
      requires Different(order) && |order| >= 2 && Links(|order|, order) && busyHead == order[0] == first
      modifies `freeHead, `busyHead, first`next
      ensures Links(|order| - 1, Rotate(order)) && freeHead == order[0] && busyHead == order[1]
    {
      hide Rotate;
      var p := busyHead.next;
      freeHead := busyHead;
      freeHead.next := null;
      busyHead := p;
    }

    /** The frame at the head of the busy list becomes free. */
    method Evict(first: Frame, ghost q: seq<nat>, ghost order: seq<Frame>)
      requires Queued(q, order) && |q| == |order| >= 2 && busyHead == first
      modifies `freeHead, `busyHead, number, first`next
      ensures Queued(q[1..], Rotate(order))
    {
      hide Table, NoDup, Rotate, Links;
      Rotated(order);
      UseTable(q, order);
      Unmap(busyHead.id, q, order);
      DetachHead(first, order);
    }

    lemma UseTable(q: seq<nat>, order: seq<Frame>)
      requires Table(q, order)
      ensures forall i :: 0 <= i < |q| ==> order[i].id == q[i]
    {
    }

    /** The page p is resident in the frame f. */
    method MapPage(f: Frame, p: nat, ghost q: seq<nat>, ghost order: seq<Frame>)
      requires Table(q, order) && |q| < |order| && f == order[|q|] && p !in q && p < number.Length && Different(order)
      requires f.number >= 0
      modifies f`id, number
      ensures Table(q + [p], order)
    {
      f.id := p;
      number[p] := f.number;
    }

    /** The first free frame goes to the end of the busy list. */
    method AppendBusy(ghost n: nat, ghost order: seq<Frame>)
      requires Different(order) && n < |order| && Links(n, order) && (forall f :: f in order ==> f in pager)
      requires freeHead == order[n] && busyHead == (if n > 0 then order[0] else null)
      requires busyTail == (if n > 0 then order[n - 1] else null)
      modifies `freeHead, `busyHead, `busyTail, pager`next
      ensures Links(n + 1, order) && freeHead == (if n + 1 < |order| then order[n + 1] else null)
      ensures busyHead == order[0] && busyTail == order[n]
    {
      assert order[n] in pager && (n > 0 ==> order[n - 1] in pager);
      var next := freeHead.next;
      freeHead.next := null;
      if busyTail == null {
        busyHead := freeHead;
        busyTail := freeHead;
      } else {
        busyTail.next := freeHead;
        busyTail := freeHead;
      }
      freeHead := next;
    }

    /** A free frame takes the page p and goes to the end of the busy list. */
    method Load(p: nat, ghost q: seq<nat>, ghost order: seq<Frame>)
      requires Queued(q, order) && |q| < |order| && p !in q && p < number.Length
      modifies this, number, pager
      ensures Queued(q + [p], order)
    {
      hide Table, NoDup, Links;
      assert order[|q|] in pager;
      InPager(order[|q|]);
      MapPage(freeHead, p, q, order);
      AppendBusy(|q|, order);
    }

    lemma InPager(f: Frame)
      requires Valid() && f in pager
      ensures f.number >= 0
    {
    }

    /** One reference under FIFO. */
    method FifoStep(p: nat, ghost q: seq<nat>, ghost order: seq<Frame>) returns (miss: bool, ghost after: seq<Frame>)
      requires Queued(q, order) && p < number.Length && |pager| >= 2
      modifies this, number, pager
      ensures Queued(Touch(Fifo, q, p, |pager|), after) && (miss <==> p !in q)
    {
      after := order;
      TableSays(q, order, p);
      miss := number[p] == -1;
      if miss {
        if freeHead == null {
          assert order[0] in pager;
          Evict(busyHead, q, order);
          after := Rotate(order);
          Load(p, q[1..], after);
        } else {
          Load(p, q, order);
        }
      }
    }

    lemma TableSays(q: seq<nat>, order: seq<Frame>, p: nat)
      requires Table(q, order) && p < number.Length
      ensures number[p] == -1 <==> p !in q
    {
    }

    // ---- LRU ----

    /** The pages in r are resident in different frames, and their times ascend to below now. */
    ghost predicate Timed(r: seq<nat>, now: int)
      reads number, time
    {
      number.Length == time.Length && NoDup(r) && (forall i :: 0 <= i < |r| ==> r[i] < number.Length) &&
      (forall i :: 0 <= i < |r| ==> 0 <= number[r[i]] < |pager| && 0 <= time[r[i]] < now) &&
      (forall i, j :: 0 <= i < j < |r| ==> number[r[i]] != number[r[j]] && time[r[i]] < time[r[j]]) &&
      forall p :: 0 <= p < number.Length && p !in r ==> number[p] == -1
    }

    /** As long as not all frames are used, those behind the used ones are linked. */
    ghost predicate Spare(r: seq<nat>)
      reads this`freeHead, number, pager`next, pager`number
    {
      if |r| < |pager| then
        freeHead == pager[|r|] && (forall i :: |r| <= i < |pager| ==> pager[i].next == NextOf(0, pager, i)) &&
        forall i :: 0 <= i < |r| && r[i] < number.Length ==> number[r[i]] < |r|
      else freeHead == null
    }

    ghost predicate Recent(r: seq<nat>, now: int)
      reads this, number, time, pager
    {
      Valid() && |r| <= |pager| && Timed(r, now) && Spare(r)
    }

    lemma NothingRecent()
      requires Empty()
      ensures Recent([], 0)
    {
    }

    /** The resident page with the smallest time. */
    method Oldest(ghost r: seq<nat>, now: int) returns (index: int)
      requires Timed(r, now) && now <= INT_MAX && |r| > 0
      ensures index == r[0]
    {
      var min := INT_MAX;
      index := -1;
      for j := 0 to number.Length
        invariant min < INT_MAX ==> 0 <= index < j && number[index] != -1 && min == time[index]
        invariant min == INT_MAX || min < INT_MAX
        invariant forall i :: 0 <= i < j && number[i] != -1 ==> min <= time[i] && min < INT_MAX
      {
        TimeBelow(r, now, j);
        if min > time[j] && number[j] != -1 {
          min := time[j];
          index := j;
        }
      }
      assert number[r[0]] != -1 && time[r[0]] < now;
      FirstIsOldest(r, now, index);
    }

    lemma TimeBelow(r: seq<nat>, now: int, p: nat)
      requires Timed(r, now) && p < number.Length
      ensures number[p] != -1 ==> time[p] < now
    {
      if p in r {
        var i :| 0 <= i < |r| && r[i] == p;
      }
    }

    lemma FirstIsOldest(r: seq<nat>, now: int, p: int)
      requires Timed(r, now) && |r| > 0 && 0 <= p < number.Length && number[p] != -1 && time[p] <= time[r[0]]
      ensures p == r[0]
    {
      assert p in r;
      var i :| 0 <= i < |r| && r[i] == p;
    }

    /** The page that was not used for longest is no longer resident. */
    method Forget(ghost r: seq<nat>, index: int, now: int)
      requires Timed(r, now) && number != time && |r| > 0 && index == r[0]
      modifies number, time
      ensures Timed(r[1..], now) && forall i :: 0 <= i < |r[1..]| ==> number[r[1..][i]] != old(number[index])
    {
      assert r == [r[0]] + r[1..];
      number[index] := -1;
      time[index] := -1;
    }

    /** The frame of the page that was not used for longest becomes free. */
    method EvictOldest(ghost r: seq<nat>, now: int)
      requires Recent(r, now) && now <= INT_MAX && |r| == |pager| > 0
      modifies `freeHead, number, time, pager`next
      ensures Valid() && Timed(r[1..], now) && freeHead != null && freeHead in pager && freeHead.next == null
      ensures forall i :: 0 <= i < |r[1..]| ==> number[r[1..][i]] != freeHead.number
    {
      hide NoDup, Different;
      var index := Oldest(r, now);
      freeHead := pager[number[index]];
      Forget(r, index, now);
      freeHead.next := null;
    }

    /** The page p is resident in the first free frame and was used now. */
    method TakeFrame(p: nat, now: int, ghost r: seq<nat>)
      requires Valid() && Timed(r, now) && p !in r && p < number.Length && now >= 0
      requires freeHead != null && freeHead in pager && forall i :: 0 <= i < |r| ==> number[r[i]] != freeHead.number
      modifies `freeHead, number, time
      ensures Timed(r + [p], now + 1) && freeHead == old(freeHead.next)
      ensures number[p] == old(freeHead.number) && forall i :: 0 <= i < |r| ==> number[r[i]] == old(number[r[i]])
    {
      number[p] := freeHead.number;
      time[p] := now;
      freeHead := freeHead.next;
    }

    /** A resident page was used now. */
    method Touched(p: nat, now: int, ghost r: seq<nat>)
      requires number != time && Timed(r, now) && p in r && now >= 0
      modifies time
      ensures Timed(Without(r, p) + [p], now + 1)
    {
      hide Without, NoDup, AfterMove, Rising, Housed;
      UseTimed(r, now);
      ghost var i, s := MovedToEnd(r, p);
      MovedHoused(r, i, s);
      MovedRising(r, i, s, time[..], now);
      time[p] := now;
      assert time[..] == old(time[..])[p := now];
      MakeTimed(s, now + 1);
    }

    /** The pages in r are in different frames, and no others are in frames. */
    ghost predicate Housed(r: seq<nat>)
      reads number
    {
      (forall i :: 0 <= i < |r| ==> r[i] < number.Length && 0 <= number[r[i]] < |pager|) &&
      (forall i, j :: 0 <= i < j < |r| ==> number[r[i]] != number[r[j]]) &&
      forall p :: 0 <= p < number.Length && p !in r ==> number[p] == -1
    }

    lemma UseTimed(r: seq<nat>, now: int)
      requires Timed(r, now)
      ensures NoDup(r) && number.Length == time.Length && Housed(r) && Rising(r, time[..], now)
    {
    }

    lemma MakeTimed(r: seq<nat>, now: int)
      requires NoDup(r) && number.Length == time.Length && Housed(r) && Rising(r, time[..], now)
      ensures Timed(r, now)
    {
    }

    lemma MovedHoused(r: seq<nat>, i: nat, s: seq<nat>)
      requires Housed(r) && i < |r| == |s| && forall x :: x in s <==> x in r
      requires forall j :: 0 <= j < |s| ==> s[j] == AfterMove(r, i, j)
      ensures Housed(s)
    {
      forall a, b | 0 <= a < b < |s| ensures number[s[a]] != number[s[b]] {
        assert s[a] == AfterMove(r, i, a) && s[b] == AfterMove(r, i, b);
      }
    }

    lemma StillSpare(r: seq<nat>, s: seq<nat>)
      requires Spare(r) && |s| == |r| <= |pager| && (forall x :: x in s ==> x in r) && forall x :: x in r ==> x < number.Length
      ensures Spare(s)
    {
      forall i | 0 <= i < |s| ensures |s| < |pager| ==> s[i] < number.Length && number[s[i]] < |s| {
        assert s[i] in r;
        var j :| 0 <= j < |r| && r[j] == s[i];
      }
    }

    /** A page that is resident. */
    method Hit(p: nat, now: int, ghost r: seq<nat>)
      requires Recent(r, now) && p in r && now >= 0
      modifies time
      ensures Recent(Without(r, p) + [p], now + 1)
    {
      hide Without, Spare;
      WithoutNoDup(r, p);
      Touched(p, now, r);
      StillSpare(r, Without(r, p) + [p]);
    }

    /** A page that is not resident while a frame is still unused. */
    method FillFrame(p: nat, now: int, ghost r: seq<nat>)
      requires Recent(r, now) && p !in r && |r| < |pager| && p < number.Length && now >= 0
      modifies `freeHead, number, time
      ensures Recent(r + [p], now + 1)
    {
      TakeFrame(p, now, r);
    }

    /** A page that is not resident while all frames are used. */
    method ReplaceFrame(p: nat, now: int, ghost r: seq<nat>)
      requires Recent(r, now) && p !in r && |r| == |pager| > 0 && p < number.Length && 0 <= now <= INT_MAX
      modifies `freeHead, number, time, pager`next
      ensures Recent(r[1..] + [p], now + 1)
    {
      hide NoDup, Different;
      EvictOldest(r, now);
      hide Timed;
      assert p !in r[1..];
      TakeFrame(p, now, r[1..]);
    }

    /** One reference under LRU. */
    method LruStep(p: nat, now: int, ghost r: seq<nat>) returns (miss: bool)
      requires Recent(r, now) && 0 <= now <= INT_MAX && p < number.Length && |pager| > 0
      modifies `freeHead, number, time, pager`next
      ensures Recent(Touch(Lru, r, p, |pager|), now + 1) && (miss <==> p !in r)
    {
      hide Without, Timed, NoDup;
      TimedSays(r, now, p);
      miss := number[p] == -1;
      if !miss {
        Hit(p, now, r);
      } else if freeHead == null {
        ReplaceFrame(p, now, r);
      } else {
        FillFrame(p, now, r);
      }
    }

    lemma TimedSays(r: seq<nat>, now: int, p: nat)
      requires Timed(r, now) && p < number.Length
      ensures number[p] == -1 <==> p !in r
    {
    }
  }

  /** FIFO: the number of faults, with at least two frames and only valid pages. */
  method RunFifo(stream: seq<nat>, pages: nat, memSize: nat) returns (lossEffects: nat)
    requires memSize >= 2 && forall i :: 0 <= i < |stream| ==> stream[i] < pages
    ensures lossEffects == Faults(Fifo, [], stream, memSize) == |Loads(stream, memSize)|
  {
    hide *;
    lossEffects := 0;
    var m := new Memory(pages, memSize);
    ghost var q: seq<nat>, order := [], m.pager;
    m.NothingQueued();
    NoReference(Fifo, stream, memSize);
    for i := 0 to |stream|
      invariant fresh(m) && fresh(m.number) && m.number.Length == pages && |m.pager| == memSize
      invariant forall j :: 0 <= j < |m.pager| ==> fresh(m.pager[j])
      invariant m.Queued(q, order) && q == After(Fifo, [], stream[..i], memSize)
      invariant lossEffects == Faults(Fifo, [], stream[..i], memSize)
    {
      OneReference(Fifo, [], stream, i, memSize);
      var miss;
      miss, order := m.FifoStep(stream[i], q, order);
      q := Touch(Fifo, q, stream[i], memSize);
      if miss {
        lossEffects := lossEffects + 1;
      }
    }
    assert stream[..|stream|] == stream;
    FifoIsLoads(stream, memSize);
  }

  /** LRU: the number of faults; the references are counted in an int. */
  method RunLru(stream: seq<nat>, pages: nat, memSize: nat) returns (lossEffects: nat)
    requires memSize >= 1 && |stream| <= INT_MAX && forall i :: 0 <= i < |stream| ==> stream[i] < pages
    ensures lossEffects == Faults(Lru, [], stream, memSize) == LruMisses(stream, memSize)
  {
    hide *;
    lossEffects := 0;
    var m := new Memory(pages, memSize);
    ghost var r: seq<nat> := [];
    m.NothingRecent();
    NoReference(Lru, stream, memSize);
    for i := 0 to |stream|
      invariant fresh(m) && fresh(m.number) && fresh(m.time) && m.number.Length == pages && |m.pager| == memSize
      invariant forall j :: 0 <= j < |m.pager| ==> fresh(m.pager[j])
      invariant m.Recent(r, i) && r == After(Lru, [], stream[..i], memSize)
      invariant lossEffects == Faults(Lru, [], stream[..i], memSize)
    {
      OneReference(Lru, [], stream, i, memSize);
      var miss := m.LruStep(stream[i], i, r);
      r := Touch(Lru, r, stream[i], memSize);
      if miss {
        lossEffects := lossEffects + 1;
      }
    }
    assert stream[..|stream|] == stream;
    LruFaultsAre(stream, memSize);
  }
}
