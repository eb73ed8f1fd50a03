module PagingPolicy {
  // The replacement policies of experiment/os/exp5/page.c as lists of resident pages: FIFO in the order of
  // loading, LRU in the order of the last use, oldest first.

  datatype Policy = Fifo | Lru

  function Without(q: seq<nat>, p: nat): seq<nat> {
    if q == [] then []
    else
      var n := |q| - 1;
      if q[n] == p then Without(q[..n], p) else Without(q[..n], p) + [q[n]]
  }

  lemma {:induction false} WithoutMembers(q: seq<nat>, p: nat)
    ensures forall x :: x in Without(q, p) <==> x in q && x != p
    ensures p !in q ==> Without(q, p) == q
  {
    if q != [] {
      var n := |q| - 1;
      WithoutMembers(q[..n], p);
      assert q == q[..n] + [q[n]];
    }
  }

  lemma {:induction false} WithoutLast(q: seq<nat>, x: nat, p: nat)
    ensures Without(q + [x], p) == Without(q, p) + if x == p then [] else [x]
  {
    assert (q + [x])[..|q|] == q;
  }

  lemma {:induction false} WithoutAppend(a: seq<nat>, b: seq<nat>, p: nat)
    ensures Without(a + b, p) == Without(a, p) + Without(b, p)
  {
    if b == [] {
      assert a + b == a;
    } else {
      hide *;
      var c, x := b[..|b| - 1], b[|b| - 1];
      assert a + b == a + c + [x] && b == c + [x];
      WithoutAppend(a, c, p);
      WithoutLast(a + c, x, p);
      WithoutLast(c, x, p);
    }
  }

  /** The resident pages after a reference to p, with k frames. */
  function Touch(policy: Policy, q: seq<nat>, p: nat, k: nat): (r: seq<nat>)
    requires k > 0
  {
    if p in q then if policy == Fifo then q else Without(q, p) + [p]
    else if |q| >= k then q[1..] + [p]
    else q + [p]
  }

  function Miss(q: seq<nat>, p: nat): nat {
    if p in q then 0 else 1
  }

  /** The resident pages after a stream of references. */
  function After(policy: Policy, q: seq<nat>, stream: seq<nat>, k: nat): seq<nat>
    requires k > 0
  {
    if stream == [] then q
    else Touch(policy, After(policy, q, stream[..|stream| - 1], k), stream[|stream| - 1], k)
  }

  /** How many references of the stream miss. */
  function Faults(policy: Policy, q: seq<nat>, stream: seq<nat>, k: nat): nat
    requires k > 0
  {
    if stream == [] then 0
    else
      var n := |stream| - 1;
      Faults(policy, q, stream[..n], k) + Miss(After(policy, q, stream[..n], k), stream[n])
  }

  lemma {:induction false} NoReference(policy: Policy, stream: seq<nat>, k: nat)
    requires k > 0
    ensures After(policy, [], stream[..0], k) == [] && Faults(policy, [], stream[..0], k) == 0
  {
  }

  lemma {:induction false} OneReference(policy: Policy, q: seq<nat>, stream: seq<nat>, i: nat, k: nat)
    requires k > 0 && i < |stream|
    ensures After(policy, q, stream[..i + 1], k) == Touch(policy, After(policy, q, stream[..i], k), stream[i], k)
    ensures Faults(policy, q, stream[..i + 1], k) ==
      Faults(policy, q, stream[..i], k) + if stream[i] in After(policy, q, stream[..i], k) then 0 else 1
  {
    hide Touch;
    assert stream[..i + 1][..i] == stream[..i];
  }

  predicate NoDup(q: seq<nat>) {
    forall i, j :: 0 <= i < j < |q| ==> q[i] != q[j]
  }

  /** The resident pages: none twice, and not more than there are frames. */
  predicate Resident(q: seq<nat>, k: nat) {
    NoDup(q) && |q| <= k
  }

  lemma {:induction false} WithoutNoDup(q: seq<nat>, p: nat)
    requires NoDup(q)
    ensures NoDup(Without(q, p)) && |Without(q, p)| == |q| - if p in q then 1 else 0
    ensures forall x :: x in Without(q, p) <==> x in q && x != p
    ensures p !in q ==> Without(q, p) == q
  {
    WithoutMembers(q, p);
    if q != [] {
      var n := |q| - 1;
      WithoutNoDup(q[..n], p);
      assert q == q[..n] + [q[n]];
      assert q[n] !in q[..n];
    }
  }

  ghost function RemoveAt(q: seq<nat>, i: nat): (r: seq<nat>)
    requires i < |q|
    ensures |r| == |q| - 1 && forall j :: 0 <= j < |r| ==> r[j] == if j < i then q[j] else q[j + 1]
  {
    q[..i] + q[i + 1..]
  }

  /** Taking out the only occurrence of p. */
  lemma WithoutAt(q: seq<nat>, p: nat) returns (i: nat)
    requires NoDup(q) && p in q
    ensures i < |q| && q[i] == p && Without(q, p) == RemoveAt(q, i)
  {
    i :| 0 <= i < |q| && q[i] == p;
    var (a, b) := (q[..i], q[i + 1..]);
    assert forall j :: 0 <= j < |a| ==> a[j] == q[j];
    assert forall j :: 0 <= j < |b| ==> b[j] == q[i + 1 + j];
    assert q == a + [p] + b;
    WithoutOne(a, b, p);
  }

  /** What stands at j after the element at i has moved to the end. */
  function AfterMove(q: seq<nat>, i: nat, j: nat): nat
    requires i < |q| && j < |q|
  {
    if j < i then q[j] else if j + 1 < |q| then q[j + 1] else q[i]
  }

  /** Moving p to the young end. */
  lemma MovedToEnd(q: seq<nat>, p: nat) returns (i: nat, r: seq<nat>)
    requires NoDup(q) && p in q
    ensures r == Without(q, p) + [p] && i < |q| == |r| && q[i] == p && NoDup(r)
    ensures forall j :: 0 <= j < |r| ==> r[j] == AfterMove(q, i, j)
    ensures (forall x :: x in r <==> x in q) && forall j :: 0 <= j < |r| - 1 ==> r[j] != p
  {
    i := WithoutAt(q, p);
    WithoutNoDup(q, p);
    r := RemoveAt(q, i) + [p];
  }

  lemma {:induction false} WithoutOne(a: seq<nat>, b: seq<nat>, p: nat)
    requires p !in a && p !in b
    ensures Without(a + [p] + b, p) == a + b
  {
    hide *;
    WithoutAppend(a + [p], b, p);
    WithoutLast(a, p, p);
    WithoutMembers(a, p);
    WithoutMembers(b, p);
    assert a + [] == a;
  }

  lemma TouchResident(policy: Policy, q: seq<nat>, p: nat, k: nat)
    requires k > 0 && Resident(q, k)
    ensures Resident(Touch(policy, q, p, k), k) && p in Touch(policy, q, p, k)
  {
    WithoutNoDup(q, p);
  }

  lemma {:induction false} AfterResident(policy: Policy, q: seq<nat>, stream: seq<nat>, k: nat)
    requires k > 0 && Resident(q, k)
    ensures Resident(After(policy, q, stream, k), k)
    decreases |stream|
  {
    hide Resident, Touch;
    if stream != [] {
      AfterResident(policy, q, stream[..|stream| - 1], k);
      TouchResident(policy, After(policy, q, stream[..|stream| - 1], k), stream[|stream| - 1], k);
    }
  }

  lemma {:induction false} AfterAppend(policy: Policy, q: seq<nat>, a: seq<nat>, b: seq<nat>, k: nat)
    requires k > 0
    ensures After(policy, q, a + b, k) == After(policy, After(policy, q, a, k), b, k)
    ensures Faults(policy, q, a + b, k) == Faults(policy, q, a, k) + Faults(policy, After(policy, q, a, k), b, k)
    decreases |b|
  {
    hide Touch;
    if b == [] {
      assert a + b == a;
    } else {
      var n := |b| - 1;
      assert (a + b)[..|a| + n] == a + b[..n];
      AfterAppend(policy, q, a, b[..n], k);
    }
  }

  // ---- few faults where few pages are used ----

  ghost function Pages(stream: seq<nat>): set<nat> {
    set p | p in stream
  }

  lemma {:induction false} NoDupSize(f: seq<nat>, s: set<nat>)
    requires NoDup(f) && forall p :: p in f ==> p in s
    ensures |f| <= |s|
    decreases |f|
  {
    if f != [] {
      var n := |f| - 1;
      NoDupSize(f[..n], s - {f[n]});
    }
  }

  /** f is the end of q. */
  predicate EndsWith(q: seq<nat>, f: seq<nat>) {
    |f| <= |q| && q[|q| - |f|..] == f
  }

  lemma {:induction false} WithoutEnd(q: seq<nat>, f: seq<nat>, p: nat)
    requires EndsWith(q, f)
    ensures EndsWith(Without(q, p), Without(f, p))
  {
    hide Without;
    assert q == q[..|q| - |f|] + f;
    WithoutAppend(q[..|q| - |f|], f, p);
  }

  // The pages that the segment has brought in (FIFO) or used (LRU) so far stand together at the young end of
  // the list, and there are at least as many of them as faults.
  lemma {:induction false} SegmentFaults(policy: Policy, q: seq<nat>, segment: seq<nat>, k: nat) returns (f: seq<nat>)
    requires k > 0 && Resident(q, k) && |Pages(segment)| <= k
    ensures NoDup(f) && EndsWith(After(policy, q, segment, k), f) && forall p :: p in f ==> p in segment
    ensures policy == Lru ==> forall p :: p in segment ==> p in f
    ensures Faults(policy, q, segment, k) <= |f|
    decreases |segment|
  {
    if segment == [] {
      f := [];
    } else {
      var n := |segment| - 1;
      var p := segment[n];
      assert segment == segment[..n] + [p];
      assert Pages(segment) == Pages(segment[..n]) + {p};
      SubsetSize(Pages(segment[..n]), Pages(segment));
      var g := SegmentFaults(policy, q, segment[..n], k);
      AfterResident(policy, q, segment[..n], k);
      f := SegmentStep(policy, After(policy, q, segment[..n], k), segment[..n], p, g, k);
    }
  }

  lemma SegmentStep(policy: Policy, q: seq<nat>, done: seq<nat>, p: nat, g: seq<nat>, k: nat) returns (f: seq<nat>)
    requires k > 0 && Resident(q, k) && NoDup(g) && EndsWith(q, g) && |Pages(done) + {p}| <= k
    requires (forall x :: x in g ==> x in done) && (policy == Lru ==> forall x :: x in done ==> x in g)
    ensures NoDup(f) && EndsWith(Touch(policy, q, p, k), f) && forall x :: x in f ==> x in done + [p]
    ensures policy == Lru ==> forall x :: x in done + [p] ==> x in f
    ensures |g| + Miss(q, p) <= |f|
  {
    if p in q {
      if policy == Fifo {
        f := g;
      } else {
        f := Without(g, p) + [p];
        WithoutEnd(q, g, p);
        WithoutNoDup(g, p);
        EndMore(Without(q, p), Without(g, p), p);
      }
    } else {
      f := g + [p];
      assert p !in g by { EndIn(q, g, p); }
      NoDupSize(f, Pages(done) + {p});
      EndMore(q, g, p);
      if |q| >= k {
        EndMore(q[1..], g, p);
      }
    }
  }

  lemma EndIn(q: seq<nat>, f: seq<nat>, p: nat)
    requires EndsWith(q, f)
    ensures p in f ==> p in q
  {
    if p in f {
      assert p in q[|q| - |f|..];
    }
  }

  lemma EndMore(q: seq<nat>, f: seq<nat>, p: nat)
    requires EndsWith(q, f)
    ensures EndsWith(q + [p], f + [p])
  {
  }

  /** A stretch of the stream that uses at most k pages misses at most k times, wherever it stands. */
  lemma {:induction false} Conservative(policy: Policy, q: seq<nat>, segment: seq<nat>, k: nat)
    requires k > 0 && Resident(q, k) && |Pages(segment)| <= k
    ensures Faults(policy, q, segment, k) <= k
  {
    var f := SegmentFaults(policy, q, segment, k);
    NoDupSize(f, Pages(segment));
  }

  // ---- against every other schedule ----

  /** What a schedule keeps before each reference and at the end: k pages at most, and none but those referred to come in. */
  ghost predicate Schedule(kept: seq<set<nat>>, stream: seq<nat>, k: nat) {
    |kept| == |stream| + 1 && (forall i :: 0 <= i < |kept| ==> |kept[i]| <= k) &&
    forall i :: 0 <= i < |stream| ==> stream[i] in kept[i + 1] && kept[i + 1] <= kept[i] + {stream[i]}
  }

  ghost function ScheduleFaults(kept: seq<set<nat>>, stream: seq<nat>): nat
    requires |kept| == |stream| + 1
  {
    if stream == [] then 0
    else (if stream[0] in kept[0] then 0 else 1) + ScheduleFaults(kept[1..], stream[1..])
  }

  lemma {:induction false} ScheduleAppend(kept: seq<set<nat>>, stream: seq<nat>, n: nat)
    requires |kept| == |stream| + 1 && n <= |stream|
    ensures ScheduleFaults(kept, stream) == ScheduleFaults(kept[..n + 1], stream[..n]) + ScheduleFaults(kept[n..], stream[n..])
  {
    if n == 0 {
      assert kept[0..] == kept && stream[0..] == stream;
    } else {
      ScheduleAppend(kept[1..], stream[1..], n - 1);
      assert kept[1..][..n] == kept[..n + 1][1..] && stream[1..][..n - 1] == stream[..n][1..];
      assert kept[1..][n - 1..] == kept[n..] && stream[1..][n - 1..] == stream[n..];
    }
  }

  /** Without a miss nothing new comes in. */
  lemma {:induction false} NoMiss(kept: seq<set<nat>>, stream: seq<nat>, k: nat)
    requires Schedule(kept, stream, k) && ScheduleFaults(kept, stream) == 0
    ensures forall p :: p in stream ==> p in kept[0]
    decreases |stream|
  {
    if stream != [] {
      ScheduleTail(kept, stream, k, 1, |stream|);
      assert kept[1..|stream| + 1] == kept[1..] && stream[1..|stream|] == stream[1..];
      NoMiss(kept[1..], stream[1..], k);
      assert stream == [stream[0]] + stream[1..];
      assert kept[1] <= kept[0] + {stream[0]};
    }
  }

  /** A schedule that holds x must miss in a stretch with k pages other than x. */
  lemma {:induction false} MustMiss(kept: seq<set<nat>>, stream: seq<nat>, x: nat, k: nat)
    requires Schedule(kept, stream, k) && x in kept[0] && |Pages(stream) - {x}| >= k
    ensures ScheduleFaults(kept, stream) >= 1
  {
    if ScheduleFaults(kept, stream) == 0 {
      NoMiss(kept, stream, k);
      assert Pages(stream) - {x} <= kept[0] - {x};
      SubsetSize(Pages(stream) - {x}, kept[0] - {x});
    }
  }

  lemma {:induction false} SubsetSize(a: set<nat>, b: set<nat>)
    requires a <= b
    ensures |a| <= |b|
  {
    if a != {} {
      var x :| x in a;
      SubsetSize(a - {x}, b - {x});
    }
  }

  /** The longest beginning of the stream that uses at most k pages. */
  lemma {:induction false} FirstPhase(stream: seq<nat>, k: nat, n: nat) returns (j: nat)
    requires k > 0 && n <= |stream| && |Pages(stream[..n])| <= k
    ensures n <= j <= |stream| && |Pages(stream[..j])| <= k
    ensures j < |stream| ==> |Pages(stream[..j + 1])| == k + 1
    decreases |stream| - n
  {
    j := n;
    if n < |stream| {
      assert stream[..n + 1] == stream[..n] + [stream[n]];
      assert Pages(stream[..n + 1]) == Pages(stream[..n]) + {stream[n]};
      if |Pages(stream[..n + 1])| <= k {
        j := FirstPhase(stream, k, n + 1);
      }
    }
  }

  lemma ScheduleTail(kept: seq<set<nat>>, stream: seq<nat>, k: nat, a: nat, b: nat)
    requires Schedule(kept, stream, k) && a <= b <= |stream|
    ensures Schedule(kept[a..b + 1], stream[a..b], k)
  {
    var (ks, s) := (kept[a..b + 1], stream[a..b]);
    forall i | 0 <= i < |s| ensures s[i] in ks[i + 1] && ks[i + 1] <= ks[i] + {s[i]} {
      assert s[i] == stream[a + i] && ks[i + 1] == kept[a + i + 1] && ks[i] == kept[a + i];
    }
  }

  /** With the first reference left out for the schedule. */
  lemma {:induction false} Phases(policy: Policy, q: seq<nat>, kept: seq<set<nat>>, stream: seq<nat>, k: nat)
    requires k > 0 && Resident(q, k) && Schedule(kept, stream, k) && stream != []
    ensures Faults(policy, q, stream, k) <= k * ScheduleFaults(kept[1..], stream[1..]) + k
    decreases |stream|
  {
    hide After, Faults, ScheduleFaults, Resident;
    assert stream[..1] == [stream[0]] && Pages([stream[0]]) == {stream[0]};
    var j := FirstPhase(stream, k, 1);
    if j == |stream| {
      assert stream[..j] == stream;
      Conservative(policy, q, stream, k);
      NotNegative(k, ScheduleFaults(kept[1..], stream[1..]));
    } else {
      Conservative(policy, q, stream[..j], k);
      assert stream == stream[..j] + stream[j..];
      AfterAppend(policy, q, stream[..j], stream[j..], k);
      AfterResident(policy, q, stream[..j], k);
      ScheduleTail(kept, stream, k, j, |stream|);
      assert kept[j..|stream| + 1] == kept[j..] && stream[j..|stream|] == stream[j..];
      Phases(policy, After(policy, q, stream[..j], k), kept[j..], stream[j..], k);
      PhaseMiss(kept, stream, k, j);
      assert kept[j..][1..] == kept[j + 1..] && stream[j..][1..] == stream[j + 1..];
      OneMore(k, ScheduleFaults(kept[j + 1..], stream[j + 1..]), ScheduleFaults(kept[1..], stream[1..]));
    }
  }

  lemma {:induction false} NotNegative(k: nat, a: nat)
    ensures k * a >= 0
  {
    if a > 0 {
      OneTimesMore(k, a - 1);
      NotNegative(k, a - 1);
    }
  }

  lemma {:induction false} OneMore(k: nat, a: nat, b: nat)
    requires a + 1 <= b
    ensures k * a + k <= k * b
    decreases b
  {
    OneTimesMore(k, b - 1);
    if a < b - 1 {
      OneMore(k, a, b - 1);
    }
  }

  lemma OneTimesMore(k: nat, m: nat)
    ensures k * (m + 1) == k * m + k
  {
  }

  /** After the first reference of a phase, k other pages follow up to the first of the next. */
  lemma PhasePages(stream: seq<nat>, k: nat, j: nat)
    requires 0 < j < |stream| && |Pages(stream[..j + 1])| == k + 1
    ensures |Pages(stream[1..j + 1]) - {stream[0]}| >= k
  {
    var x := stream[0];
    assert stream[..j + 1] == [x] + stream[1..j + 1];
    assert Pages(stream[..j + 1]) == {x} + Pages(stream[1..j + 1]);
    assert Pages(stream[..j + 1]) - {x} == Pages(stream[1..j + 1]) - {x};
  }

  lemma SplitFaults(kept: seq<set<nat>>, stream: seq<nat>, j: nat)
    requires |kept| == |stream| + 1 && j < |stream|
    ensures ScheduleFaults(kept[1..], stream[1..]) ==
      ScheduleFaults(kept[1..j + 2], stream[1..j + 1]) + ScheduleFaults(kept[j + 1..], stream[j + 1..])
  {
    hide ScheduleFaults;
    ScheduleAppend(kept[1..], stream[1..], j);
    assert kept[1..][..j + 1] == kept[1..j + 2] && stream[1..][..j] == stream[1..j + 1];
    assert kept[1..][j..] == kept[j + 1..] && stream[1..][j..] == stream[j + 1..];
  }

  lemma FirstIsKept(kept: seq<set<nat>>, stream: seq<nat>, k: nat)
    requires Schedule(kept, stream, k) && stream != []
    ensures |kept| == |stream| + 1 && stream[0] in kept[1]
  {
  }

  /** Between the first reference of a phase and that of the next, every schedule misses. */
  lemma PhaseMiss(kept: seq<set<nat>>, stream: seq<nat>, k: nat, j: nat)
    requires k > 0 && Schedule(kept, stream, k) && 0 < j < |stream| && |Pages(stream[..j + 1])| == k + 1
    ensures |kept| == |stream| + 1
    ensures ScheduleFaults(kept[1..], stream[1..]) >= 1 + ScheduleFaults(kept[j + 1..], stream[j + 1..])
  {
    hide *;
    PhasePages(stream, k, j);
    FirstIsKept(kept, stream, k);
    ScheduleTail(kept, stream, k, 1, j + 1);
    MustMiss(kept[1..j + 2], stream[1..j + 1], stream[0], k);
    SplitFaults(kept, stream, j);
  }

  /** FIFO and LRU miss at most k times as often as any schedule with k frames, and k times more. */
  lemma {:induction false} Competitive(policy: Policy, kept: seq<set<nat>>, stream: seq<nat>, k: nat)
    requires k > 0 && Schedule(kept, stream, k)
    ensures Faults(policy, [], stream, k) <= k * ScheduleFaults(kept, stream) + k
  {
    if stream == [] {
      NotNegative(k, ScheduleFaults(kept, stream));
    } else {
      Phases(policy, [], kept, stream, k);
      var (a, b) := (ScheduleFaults(kept[1..], stream[1..]), ScheduleFaults(kept, stream));
      if a < b {
        OneMore(k, a, b);
      }
    }
  }

  // ---- more frames never hurt LRU ----

  /** The n youngest of q. */
  function Youngest(q: seq<nat>, n: nat): seq<nat> {
    if |q| <= n then q else q[|q| - n..]
  }

  /** All pages used so far, in the order of their last use. */
  function Recency(stream: seq<nat>): seq<nat> {
    if stream == [] then [] else Without(Recency(stream[..|stream| - 1]), stream[|stream| - 1]) + [stream[|stream| - 1]]
  }

  lemma {:induction false} RecencyNoDup(stream: seq<nat>)
    ensures NoDup(Recency(stream))
    decreases |stream|
  {
    if stream != [] {
      RecencyNoDup(stream[..|stream| - 1]);
      WithoutNoDup(Recency(stream[..|stream| - 1]), stream[|stream| - 1]);
    }
  }

  /** The young end of a list, and the rest. */
  lemma YoungestParts(a: seq<nat>, b: seq<nat>, n: nat)
    requires n > 0 && (|b| == n || (a == [] && |b| < n))
    ensures Youngest(a + b, n) == b
    ensures |b| == n ==> Youngest(a + b, n - 1) == b[1..]
    ensures forall c: seq<nat> :: |c| == |b| - 1 ==> Youngest(a + c, n - 1) == c
    ensures a == [] ==> a + b == b
  {
  }

  lemma Apart(a: seq<nat>, b: seq<nat>)
    requires NoDup(a + b)
    ensures NoDup(b) && forall p :: p in b ==> p !in a
  {
    forall i, j | 0 <= i < |a| && 0 <= j < |b| ensures a[i] != b[j] {
      assert (a + b)[i] == a[i] && (a + b)[|a| + j] == b[j];
    }
    forall i, j | 0 <= i < j < |b| ensures b[i] != b[j] {
      assert (a + b)[|a| + i] == b[i] && (a + b)[|a| + j] == b[j];
    }
  }

  /** Taking p out of a list and looking at its young end. */
  lemma {:induction false} WithoutYoungest(a: seq<nat>, b: seq<nat>, p: nat, n: nat)
    requires NoDup(a + b) && n > 0 && (|b| == n || (a == [] && |b| < n))
    ensures p in b ==> Without(b, p) == Youngest(Without(a + b, p), n - 1)
    ensures p !in b && |b| == n ==> b[1..] == Youngest(Without(a + b, p), n - 1)
    ensures p !in b && |b| < n ==> b == Without(a + b, p)
  {
    hide Without, Youngest;
    WithoutAppend(a, b, p);
    Apart(a, b);
    WithoutNoDup(b, p);
    YoungestParts(a, b, n);
    if p in b {
      WithoutMembers(a, p);
    } else if |b| == n {
      YoungestParts(Without(a, p), b, n);
    } else {
      WithoutMembers(a, p);
    }
  }

  lemma YoungestLast(q: seq<nat>, x: nat, n: nat)
    requires n > 0
    ensures Youngest(q + [x], n) == Youngest(q, n - 1) + [x]
  {
  }

  lemma SplitYoungest(q: seq<nat>, n: nat) returns (a: seq<nat>)
    requires n > 0
    ensures q == a + Youngest(q, n) && (|Youngest(q, n)| == n || (a == [] && |Youngest(q, n)| < n))
  {
    a := q[..|q| - |Youngest(q, n)|];
  }

  /** A reference with k frames does to the young end of the list what it does to the whole list. */
  lemma {:induction false} LruStep(r: seq<nat>, p: nat, k: nat)
    requires NoDup(r) && k > 0
    ensures Touch(Lru, Youngest(r, k), p, k) == Youngest(Without(r, p) + [p], k)
  {
    hide NoDup, Without, Youngest;
    var a := SplitYoungest(r, k);
    var b := Youngest(r, k);
    WithoutYoungest(a, b, p, k);
    YoungestLast(Without(r, p), p, k);
    if p !in b && |b| < k {
      YoungestShort(b, k);
    }
  }

  lemma YoungestShort(q: seq<nat>, k: nat)
    requires |q| < k
    ensures Youngest(q, k - 1) == q
  {
  }

  /** LRU with k frames holds the k pages that were used last. */
  lemma {:induction false} LruIsRecency(stream: seq<nat>, k: nat)
    requires k > 0
    ensures After(Lru, [], stream, k) == Youngest(Recency(stream), k)
    decreases |stream|
  {
    hide Touch, Youngest, NoDup, Without;
    if stream == [] {
      YoungestShort([], k + 1);
    } else {
      var n := |stream| - 1;
      LruIsRecency(stream[..n], k);
      RecencyNoDup(stream[..n]);
      LruStep(Recency(stream[..n]), stream[n], k);
    }
  }

  lemma YoungestIn(q: seq<nat>, k: nat, m: nat)
    requires k <= m
    ensures forall p :: p in Youngest(q, k) ==> p in Youngest(q, m)
  {
    var (y, z) := (Youngest(q, k), Youngest(q, m));
    assert z == z[..|z| - |y|] + y;
  }

  /** With more frames LRU keeps all the pages that it keeps with fewer. */
  lemma {:induction false} LruInclusion(stream: seq<nat>, k: nat, m: nat)
    requires 0 < k <= m
    ensures forall p :: p in After(Lru, [], stream, k) ==> p in After(Lru, [], stream, m)
  {
    hide After, Recency, Youngest;
    LruIsRecency(stream, k);
    LruIsRecency(stream, m);
    YoungestIn(Recency(stream), k, m);
  }

  /** And it never misses more often. */
  lemma {:induction false} LruFaultsMonotone(stream: seq<nat>, k: nat, m: nat)
    requires 0 < k <= m
    ensures Faults(Lru, [], stream, m) <= Faults(Lru, [], stream, k)
    decreases |stream|
  {
    hide After;
    if stream != [] {
      LruFaultsMonotone(stream[..|stream| - 1], k, m);
      LruInclusion(stream[..|stream| - 1], k, m);
    }
  }
}
