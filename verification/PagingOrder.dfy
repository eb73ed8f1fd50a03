module PagingOrder {
  // Which pages are resident under the policies of experiment/os/exp5/page.c, told from the references alone:
  // under FIFO the last k that were loaded, under LRU those since whose last use fewer than k others were used.

  import opened PagingPolicy

  // ---- FIFO ----

  /** The pages in the order in which they are loaded: a reference loads its page unless that is one of the last k loaded. */
  function Loads(stream: seq<nat>, k: nat): seq<nat> {
    if stream == [] then []
    else
      var n := |stream| - 1;
      var before := Loads(stream[..n], k);
      if stream[n] in Youngest(before, k) then before else before + [stream[n]]
  }

  // FIFO holds the k pages that were loaded last, oldest first, and every fault is a load: a hit changes
  // nothing, and the page whose load is the oldest goes.
  lemma {:induction false} FifoIsLoads(stream: seq<nat>, k: nat)
    requires k > 0
    ensures After(Fifo, [], stream, k) == Youngest(Loads(stream, k), k)
    ensures Faults(Fifo, [], stream, k) == |Loads(stream, k)|
    decreases |stream|
  {
    hide Touch, Youngest;
    if stream == [] {
      YoungestShort([], k + 1);
    } else {
      var n := |stream| - 1;
      FifoIsLoads(stream[..n], k);
      FifoStep(Loads(stream[..n], k), stream[n], k);
    }
  }

  lemma FifoStep(loads: seq<nat>, p: nat, k: nat)
    requires k > 0
    ensures Touch(Fifo, Youngest(loads, k), p, k) ==
      Youngest(if p in Youngest(loads, k) then loads else loads + [p], k)
  {
  }

  // ---- LRU ----

  /** The page p is still resident before the next reference: fewer than k pages were used since a use of it. */
  ghost predicate UsedLately(stream: seq<nat>, p: nat, k: nat) {
    exists j :: 0 <= j < |stream| && stream[j] == p && |Pages(stream[j + 1..])| < k
  }

  /** How many references are to a page that was not used lately. */
  ghost function LruMisses(stream: seq<nat>, k: nat): nat {
    if stream == [] then 0
    else
      var n := |stream| - 1;
      LruMisses(stream[..n], k) + if UsedLately(stream[..n], stream[n], k) then 0 else 1
  }

  function WithoutAll(q: seq<nat>, b: seq<nat>): seq<nat> {
    if b == [] then q else Without(WithoutAll(q, b[..|b| - 1]), b[|b| - 1])
  }

  lemma {:induction false} WithoutAllOf(q: seq<nat>, b: seq<nat>, p: nat)
    requires p !in b
    ensures WithoutAll(q + [p], b) == WithoutAll(q, b) + [p]
  {
    hide Without;
    if b != [] {
      var n := |b| - 1;
      assert p !in b[..n] && p != b[n];
      WithoutAllOf(q, b[..n], p);
      WithoutLast(WithoutAll(q, b[..n]), p, b[n]);
    }
  }

  /** The order of last use after a + b: the pages of b stand behind those of a that are not used in b. */
  lemma {:induction false} RecencyAppend(a: seq<nat>, b: seq<nat>)
    ensures Recency(a + b) == WithoutAll(Recency(a), b) + Recency(b)
    decreases |b|
  {
    hide Without;
    if b == [] {
      assert a + b == a;
    } else {
      var n := |b| - 1;
      var c, p := b[..n], b[n];
      assert (a + b)[..|a| + n] == a + c && (a + b)[|a| + n] == p;
      RecencyAppend(a, c);
      WithoutAppend(WithoutAll(Recency(a), c), Recency(c), p);
    }
  }

  lemma {:induction false} RecencyPages(s: seq<nat>)
    ensures NoDup(Recency(s)) && (forall p :: p in Recency(s) <==> p in s) && |Recency(s)| == |Pages(s)|
    decreases |s|
  {
    hide Without;
    RecencyNoDup(s);
    if s == [] {
    } else {
      var n := |s| - 1;
      RecencyPages(s[..n]);
      WithoutMembers(Recency(s[..n]), s[n]);
      assert s == s[..n] + [s[n]];
    }
    SameSize(Recency(s), Pages(s));
  }

  lemma {:induction false} SameSize(q: seq<nat>, s: set<nat>)
    requires NoDup(q) && forall p :: p in q <==> p in s
    ensures |q| == |s|
    decreases |q|
  {
    if q == [] {
      assert s == {};
    } else {
      var n := |q| - 1;
      assert q == q[..n] + [q[n]];
      SameSize(q[..n], s - {q[n]});
    }
  }

  /** Where a page stands whose last use is at j. */
  lemma {:induction false} PlaceOf(s: seq<nat>, j: nat, k: nat)
    requires j < |s| && s[j] !in s[j + 1..]
    ensures s[j] in Youngest(Recency(s), k) <==> |Pages(s[j + 1..])| < k
  {
    hide Without, NoDup;
    var p, a, b := s[j], s[..j], s[j + 1..];
    assert s == a + [p] + b;
    RecencyAppend(a + [p], b);
    assert (a + [p])[..j] == a;
    WithoutAllOf(Without(Recency(a), p), b, p);
    RecencyPages(b);
    RecencyNoDup(s);
    YoungestHolds(WithoutAll(Without(Recency(a), p), b), p, Recency(b), k);
  }

  lemma YoungestHolds(a: seq<nat>, p: nat, b: seq<nat>, k: nat)
    requires NoDup(a + [p] + b)
    ensures p in Youngest(a + [p] + b, k) <==> |b| < k
  {
    var q := a + [p] + b;
    assert q[|a|] == p;
    if |b| < k {
      var y := Youngest(q, k);
      assert y[|y| - |b| - 1] == p;
    }
  }

  lemma {:induction false} LastUse(s: seq<nat>, p: nat) returns (j: nat)
    requires p in s
    ensures j < |s| && s[j] == p && p !in s[j + 1..] && forall i :: j < i < |s| ==> s[i] != p
  {
    var n := |s| - 1;
    if s[n] == p {
      j := n;
    } else {
      assert s == s[..n] + [s[n]];
      j := LastUse(s[..n], p);
      assert s[j + 1..] == s[..n][j + 1..] + [s[n]];
    }
  }

  /** A page is resident under LRU if and only if fewer than k others were used since it was. */
  lemma {:induction false} ResidentIfUsedLately(s: seq<nat>, p: nat, k: nat)
    requires k > 0
    ensures p in After(Lru, [], s, k) <==> UsedLately(s, p, k)
  {
    hide After, Without, Recency;
    LruIsRecency(s, k);
    RecencyPages(s);
    if p in s {
      var j := LastUse(s, p);
      PlaceOf(s, j, k);
      forall i | 0 <= i < |s| && s[i] == p ensures Pages(s[j + 1..]) <= Pages(s[i + 1..]) {
        assert s[i + 1..][j - i..] == s[j + 1..];
      }
      forall i | 0 <= i < |s| && s[i] == p && |Pages(s[i + 1..])| < k ensures p in After(Lru, [], s, k) {
        SubsetSize(Pages(s[j + 1..]), Pages(s[i + 1..]));
      }
    }
  }

  /** So that is what the faults are. */
  lemma {:induction false} LruFaultsAre(stream: seq<nat>, k: nat)
    requires k > 0
    ensures Faults(Lru, [], stream, k) == LruMisses(stream, k)
    decreases |stream|
  {
    hide After, UsedLately;
    if stream != [] {
      var n := |stream| - 1;
      LruFaultsAre(stream[..n], k);
      ResidentIfUsedLately(stream[..n], stream[n], k);
    }
  }
}
