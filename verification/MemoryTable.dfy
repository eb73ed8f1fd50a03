// The block table of experiment/os/exp4/memory.c as a list of blocks.
module MemoryTable {
  const FREE: int := -1
  const INT_MAX: int := 0x7FFF_FFFF
  const MEMMAN_N: nat := 4096

  /** A memory block: its address, its size, and the process that has it, or FREE. */
  datatype Block = Block(addr: int, size: int, proc: int)

  predicate IsFree(b: Block) {
    b.proc == FREE
  }

  function End(b: Block): int {
    b.addr + b.size
  }

  /** The blocks cover the addresses from base to limit without gaps, in order, and none is empty. */
  predicate Tiles(s: seq<Block>, base: int, limit: int) {
    if s == [] then base == limit
    else s[|s| - 1].size > 0 && End(s[|s| - 1]) == limit && Tiles(s[..|s| - 1], base, s[|s| - 1].addr)
  }

  predicate BothFree(b: Block, c: Block) {
    IsFree(b) && IsFree(c)
  }

  /** No two neighbouring blocks are both free. */
  predicate Merged(s: seq<Block>) {
    forall i :: 0 <= i < |s| - 1 ==> !BothFree(s[i], s[i + 1])
  }

  predicate Fits(b: Block, size: int) {
    IsFree(b) && b.size >= size
  }

  // ---- operations ----

  function Insert(s: seq<Block>, index: int, b: Block): (r: seq<Block>)
  {
    var i := if index > |s| then |s| else if index < 0 then 0 else index;
    s[..i] + [b] + s[i..]
  }

  /** An index one past the end is let through, and then the last block is lost. */
  function Erase(s: seq<Block>, index: int): seq<Block>
    requires s != []
  {
    if index > |s| || index < 0 then s
    else if index == |s| then s[..|s| - 1]
    else s[..index] + s[index + 1..]
  }

  /** The first part of block i, or all of it, goes to the process. */
  function Alloc(s: seq<Block>, i: nat, pid: int, size: int): seq<Block>
    requires i < |s| && s[i].size >= size
  {
    if s[i].size > size then
      s[..i] + [Block(s[i].addr, size, pid), Block(s[i].addr + size, s[i].size - size, s[i].proc)] + s[i + 1..]
    else s[i := s[i].(proc := pid)]
  }

  function MergeLeft(s: seq<Block>, i: nat): seq<Block>
    requires 0 < i < |s|
  {
    s[..i - 1] + [s[i - 1].(size := s[i - 1].size + s[i].size)] + s[i + 1..]
  }

  /** Block i is freed, joined to a free block before it and to a free block after it. */
  function Release(s: seq<Block>, i: nat): seq<Block>
    requires i < |s|
  {
    var freed := s[i := s[i].(proc := FREE)];
    var left := i > 0 && IsFree(s[i - 1]);
    var joined := if left then MergeLeft(freed, i) else freed;
    var j := if left then i - 1 else i;
    if j + 1 < |joined| && IsFree(joined[j + 1]) then MergeLeft(joined, j + 1) else joined
  }

  /** The first block of the process, or the length of the table. */
  function Find(s: seq<Block>, pid: int): (i: nat)
    ensures i <= |s| && (i < |s| ==> s[i].proc == pid) && forall j :: 0 <= j < i ==> s[j].proc != pid
  {
    if s == [] then 0
    else
      var i := Find(s[..|s| - 1], pid);
      if i < |s| - 1 then i else if s[|s| - 1].proc == pid then |s| - 1 else |s|
  }

  function Free(s: seq<Block>, pid: int): seq<Block> {
    if Find(s, pid) < |s| then Release(s, Find(s, pid)) else s
  }

  // ---- tilings ----

  lemma {:induction false} TilesAppend(a: seq<Block>, b: seq<Block>, base: int, limit: int)
    ensures Tiles(a + b, base, limit) <==> exists m :: Tiles(a, base, m) && Tiles(b, m, limit)
    decreases |b|
  {
    if b == [] {
      assert a + b == a;
      assert Tiles(b, limit, limit);
    } else {
      var n := |b| - 1;
      assert (a + b)[..|a| + n] == a + b[..n];
      TilesAppend(a, b[..n], base, b[n].addr);
    }
  }

  lemma {:induction false} TilesForward(s: seq<Block>, base: int, limit: int)
    requires Tiles(s, base, limit)
    ensures base <= limit && (base == limit <==> s == [])
    decreases |s|
  {
    if s != [] {
      TilesForward(s[..|s| - 1], base, s[|s| - 1].addr);
    }
  }

  lemma {:induction false} TilesOne(b: Block, base: int, limit: int)
    ensures Tiles([b], base, limit) <==> b.size > 0 && b.addr == base && End(b) == limit
  {
    assert [b][..0] == [];
  }

  lemma {:induction false} TilesTwo(b: Block, c: Block, base: int, limit: int)
    ensures Tiles([b, c], base, limit) <==>
      b.size > 0 && c.size > 0 && b.addr == base && End(b) == c.addr && End(c) == limit
  {
    assert [b, c][..1] == [b];
    TilesOne(b, base, c.addr);
  }

  /** A stretch of the table may be replaced by another that covers the same addresses. */
  lemma {:induction false} TilesReplace(a: seq<Block>, b: seq<Block>, c: seq<Block>, x: seq<Block>, base: int, limit: int)
    requires Tiles(a + b + c, base, limit) && forall l, h :: Tiles(b, l, h) ==> Tiles(x, l, h)
    ensures Tiles(a + x + c, base, limit)
  {
    TilesAppend(a + b, c, base, limit);
    var h :| Tiles(a + b, base, h) && Tiles(c, h, limit);
    TilesAppend(a, b, base, h);
    var l :| Tiles(a, base, l) && Tiles(b, l, h);
    TilesAppend(a, x, base, h);
    TilesAppend(a + x, c, base, limit);
  }

  /** Who has an address: the process, or FREE, or nobody outside the table. */
  function Owner(s: seq<Block>, x: int): (r: (bool, int)) {
    if s == [] then (false, 0)
    else
      var b := s[|s| - 1];
      if b.addr <= x < End(b) then (true, b.proc) else Owner(s[..|s| - 1], x)
  }

  lemma {:induction false} OwnerAppend(a: seq<Block>, b: seq<Block>, x: int)
    ensures Owner(a + b, x) == if Owner(b, x).0 then Owner(b, x) else Owner(a, x)
    decreases |b|
  {
    if b == [] {
      assert a + b == a;
    } else {
      assert (a + b)[..|a| + |b| - 1] == a + b[..|b| - 1];
      OwnerAppend(a, b[..|b| - 1], x);
    }
  }

  lemma {:induction false} OwnerInside(s: seq<Block>, base: int, limit: int, x: int)
    requires Tiles(s, base, limit)
    ensures Owner(s, x).0 <==> base <= x < limit
    decreases |s|
  {
    TilesForward(s, base, limit);
    if s != [] {
      TilesForward(s[..|s| - 1], base, s[|s| - 1].addr);
      OwnerInside(s[..|s| - 1], base, s[|s| - 1].addr, x);
    }
  }

  /** The addresses of block i belong to its process. */
  lemma {:induction false} OwnerOfBlock(s: seq<Block>, base: int, limit: int, i: nat, x: int)
    requires Tiles(s, base, limit) && i < |s| && s[i].addr <= x < End(s[i])
    ensures Owner(s, x) == (true, s[i].proc) && base <= x < limit
    decreases |s|
  {
    var n := |s| - 1;
    TilesForward(s[..n], base, s[n].addr);
    if i < n {
      OwnerOfBlock(s[..n], base, s[n].addr, i, x);
    }
  }

  /** And every address belongs to some block. */
  lemma {:induction false} BlockOfOwner(s: seq<Block>, x: int) returns (i: nat)
    requires Owner(s, x).0
    ensures i < |s| && s[i].addr <= x < End(s[i]) && Owner(s, x).1 == s[i].proc
    decreases |s|
  {
    var n := |s| - 1;
    if s[n].addr <= x < End(s[n]) {
      i := n;
    } else {
      i := BlockOfOwner(s[..n], x);
    }
  }

  /** Each block begins where the one before it ends. */
  lemma {:induction false} Neighbours(s: seq<Block>, base: int, limit: int, i: nat)
    requires Tiles(s, base, limit) && i < |s|
    ensures s[i].size > 0 && base <= s[i].addr && End(s[i]) == if i + 1 < |s| then s[i + 1].addr else limit
    decreases |s|
  {
    var n := |s| - 1;
    TilesForward(s[..n], base, s[n].addr);
    if i < n {
      Neighbours(s[..n], base, s[n].addr, i);
    }
  }

  // ---- allocation ----

  lemma {:induction false} AllocTiles(s: seq<Block>, base: int, limit: int, i: nat, pid: int, size: int)
    requires Tiles(s, base, limit) && i < |s| && 0 < size <= s[i].size
    ensures Tiles(Alloc(s, i, pid, size), base, limit)
  {
    hide Tiles;
    var b := s[i];
    var x := if b.size > size then [Block(b.addr, size, pid), Block(b.addr + size, b.size - size, b.proc)] else [b.(proc := pid)];
    assert s == s[..i] + [b] + s[i + 1..];
    assert Alloc(s, i, pid, size) == s[..i] + x + s[i + 1..];
    forall l, h | Tiles([b], l, h) ensures Tiles(x, l, h) {
      TilesOne(b, l, h);
      if b.size > size {
        TilesTwo(x[0], x[1], l, h);
      } else {
        TilesOne(x[0], l, h);
      }
    }
    TilesReplace(s[..i], [b], s[i + 1..], x, base, limit);
  }

  lemma AllocMerged(s: seq<Block>, i: nat, pid: int, size: int)
    requires Merged(s) && i < |s| && Fits(s[i], size) && pid != FREE
    ensures Merged(Alloc(s, i, pid, size))
  {
    var r := Alloc(s, i, pid, size);
    if s[i].size > size {
      forall j | 0 <= j < |r| - 1 ensures !BothFree(r[j], r[j + 1]) {
        assert r[j] == if j < i then s[j] else if j == i then r[i] else if j == i + 1 then r[i + 1] else s[j - 1];
        if j + 1 < i {
          assert !BothFree(s[j], s[j + 1]);
        } else if j > i {
          assert !BothFree(s[j - 1], s[j]);
        }
      }
    }
  }

  lemma {:induction false} OwnerOfOne(b: Block, x: int)
    ensures Owner([b], x) == if b.addr <= x < End(b) then (true, b.proc) else (false, 0)
  {
    assert [b][..0] == [];
  }

  /** The owner in a table whose middle is known. */
  lemma {:induction false} OwnerAround(a: seq<Block>, b: seq<Block>, c: seq<Block>, x: int)
    ensures Owner(a + b + c, x) ==
      if Owner(c, x).0 then Owner(c, x) else if Owner(b, x).0 then Owner(b, x) else Owner(a, x)
  {
    OwnerAppend(a + b, c, x);
    OwnerAppend(a, b, x);
  }

  lemma {:induction false} TilesAround(a: seq<Block>, b: Block, c: seq<Block>, base: int, limit: int)
    requires Tiles(a + [b] + c, base, limit)
    ensures Tiles(a, base, b.addr) && b.size > 0 && Tiles(c, End(b), limit)
  {
    TilesAppend(a + [b], c, base, limit);
    var h :| Tiles(a + [b], base, h) && Tiles(c, h, limit);
    assert (a + [b])[..|a|] == a;
  }

  /** Allocating gives the process the first addresses of the block, and changes no other owner. */
  lemma {:induction false} AllocOwner(s: seq<Block>, base: int, limit: int, i: nat, pid: int, size: int, x: int)
    requires Tiles(s, base, limit) && i < |s| && 0 < size <= s[i].size
    ensures Owner(Alloc(s, i, pid, size), x) ==
      if s[i].addr <= x < s[i].addr + size then (true, pid) else Owner(s, x)
  {
    hide Tiles, Owner;
    var b := s[i];
    var (a, c) := (s[..i], s[i + 1..]);
    assert s == a + [b] + c;
    TilesAround(a, b, c, base, limit);
    OwnerInside(a, base, b.addr, x);
    OwnerInside(c, End(b), limit, x);
    OwnerOfOne(b, x);
    OwnerAround(a, [b], c, x);
    if b.size > size {
      var (p, q) := (Block(b.addr, size, pid), Block(b.addr + size, b.size - size, b.proc));
      assert Alloc(s, i, pid, size) == a + ([p] + [q]) + c;
      OwnerAround(a, [p] + [q], c, x);
      OwnerAppend([p], [q], x);
      OwnerOfOne(p, x);
      OwnerOfOne(q, x);
    } else {
      assert Alloc(s, i, pid, size) == a + [b.(proc := pid)] + c;
      OwnerAround(a, [b.(proc := pid)], c, x);
      OwnerOfOne(b.(proc := pid), x);
    }
  }

  // ---- release ----

  lemma {:induction false} MergeTiles(s: seq<Block>, base: int, limit: int, i: nat)
    requires Tiles(s, base, limit) && 0 < i < |s|
    ensures Tiles(MergeLeft(s, i), base, limit)
  {
    hide Tiles;
    var (a, p, q, c) := (s[..i - 1], s[i - 1], s[i], s[i + 1..]);
    var m := p.(size := p.size + q.size);
    assert s == a + [p, q] + c && MergeLeft(s, i) == a + [m] + c;
    forall l, h | Tiles([p, q], l, h) ensures Tiles([m], l, h) {
      TilesTwo(p, q, l, h);
      TilesOne(m, l, h);
    }
    TilesReplace(a, [p, q], c, [m], base, limit);
  }

  lemma {:induction false} MergeOwner(s: seq<Block>, base: int, limit: int, i: nat, x: int)
    requires Tiles(s, base, limit) && 0 < i < |s| && s[i].proc == s[i - 1].proc
    ensures Owner(MergeLeft(s, i), x) == Owner(s, x)
  {
    hide Owner, Tiles;
    var (a, p, q, c) := (s[..i - 1], s[i - 1], s[i], s[i + 1..]);
    var m := p.(size := p.size + q.size);
    assert s == a + ([p] + [q]) + c && MergeLeft(s, i) == a + [m] + c;
    Neighbours(s, base, limit, i - 1);
    Neighbours(s, base, limit, i);
    OwnerAround(a, [p] + [q], c, x);
    OwnerAround(a, [m], c, x);
    OwnerAppend([p], [q], x);
    OwnerOfOne(p, x);
    OwnerOfOne(q, x);
    OwnerOfOne(m, x);
  }

  lemma FreedTiles(s: seq<Block>, base: int, limit: int, i: nat, proc: int)
    requires Tiles(s, base, limit) && i < |s|
    ensures Tiles(s[i := s[i].(proc := proc)], base, limit)
  {
    hide Tiles;
    var b := s[i];
    assert s == s[..i] + [b] + s[i + 1..];
    assert s[i := b.(proc := proc)] == s[..i] + [b.(proc := proc)] + s[i + 1..];
    forall l, h | Tiles([b], l, h) ensures Tiles([b.(proc := proc)], l, h) {
      TilesOne(b, l, h);
      TilesOne(b.(proc := proc), l, h);
    }
    TilesReplace(s[..i], [b], s[i + 1..], [b.(proc := proc)], base, limit);
  }

  lemma FreedOwner(s: seq<Block>, base: int, limit: int, i: nat, proc: int, x: int)
    requires Tiles(s, base, limit) && i < |s|
    ensures Owner(s[i := s[i].(proc := proc)], x) == if s[i].addr <= x < End(s[i]) then (true, proc) else Owner(s, x)
  {
    hide Owner, Tiles;
    var b := s[i];
    var (a, c) := (s[..i], s[i + 1..]);
    assert s == a + [b] + c && s[i := b.(proc := proc)] == a + [b.(proc := proc)] + c;
    TilesAround(a, b, c, base, limit);
    OwnerInside(a, base, b.addr, x);
    OwnerInside(c, End(b), limit, x);
    OwnerAround(a, [b], c, x);
    OwnerAround(a, [b.(proc := proc)], c, x);
    OwnerOfOne(b, x);
    OwnerOfOne(b.(proc := proc), x);
  }

  /** Releasing a block frees its addresses, changes no other owner, and keeps the tiling. */
  lemma {:induction false} ReleaseTiles(s: seq<Block>, base: int, limit: int, i: nat, x: int)
    requires Tiles(s, base, limit) && i < |s|
    ensures Tiles(Release(s, i), base, limit)
    ensures Owner(Release(s, i), x) == if s[i].addr <= x < End(s[i]) then (true, FREE) else Owner(s, x)
  {
    hide Owner, Tiles, MergeLeft;
    var freed := s[i := s[i].(proc := FREE)];
    FreedTiles(s, base, limit, i, FREE);
    FreedOwner(s, base, limit, i, FREE, x);
    var left := i > 0 && IsFree(s[i - 1]);
    var joined := if left then MergeLeft(freed, i) else freed;
    if left {
      MergeTiles(freed, base, limit, i);
      MergeOwner(freed, base, limit, i, x);
      MergedBlock(freed, i);
    }
    var j := if left then i - 1 else i;
    if j + 1 < |joined| && IsFree(joined[j + 1]) {
      MergeTiles(joined, base, limit, j + 1);
      MergeOwner(joined, base, limit, j + 1, x);
    }
  }

  lemma MergedBlock(s: seq<Block>, i: nat)
    requires 0 < i < |s|
    ensures |MergeLeft(s, i)| == |s| - 1 && MergeLeft(s, i)[i - 1].proc == s[i - 1].proc
    ensures forall j :: 0 <= j < |s| - 1 && j != i - 1 ==> MergeLeft(s, i)[j] == Shifted(s, i, j)
  {
  }

  /** What stands at j when block i is gone. */
  function Shifted(s: seq<Block>, i: nat, j: nat): Block
    requires j + 1 < |s|
  {
    if j < i then s[j] else s[j + 1]
  }

  /** After a release no two neighbouring blocks are free. */
  lemma ReleaseMerged(s: seq<Block>, i: nat)
    requires Merged(s) && i < |s| && !IsFree(s[i])
    ensures Merged(Release(s, i))
  {
    hide MergeLeft;
    var freed := s[i := s[i].(proc := FREE)];
    var left := i > 0 && IsFree(s[i - 1]);
    var joined := if left then MergeLeft(freed, i) else freed;
    var j := if left then i - 1 else i;
    if left {
      MergedBlock(freed, i);
    }
    assert forall k :: 0 <= k < |joined| - 1 && IsFree(joined[k]) && IsFree(joined[k + 1]) ==> k == j by {
      forall k | 0 <= k < |joined| - 1 && k != j ensures !BothFree(joined[k], joined[k + 1]) {
        PairBefore(s, i, left, joined, k);
      }
    }
    if j + 1 < |joined| && IsFree(joined[j + 1]) {
      MergedBlock(joined, j + 1);
      var r := MergeLeft(joined, j + 1);
      forall k | 0 <= k < |r| - 1 ensures !BothFree(r[k], r[k + 1]) {
        if k == j {
          assert r[k + 1] == joined[k + 2] && !BothFree(joined[j + 1], joined[j + 2]);
        } else if k > j {
          assert r[k] == joined[k + 1] && r[k + 1] == joined[k + 2];
        } else {
          assert r[k] == joined[k] && r[k + 1].proc == joined[k + 1].proc;
        }
      }
    }
  }

  lemma PairBefore(s: seq<Block>, i: nat, left: bool, joined: seq<Block>, k: nat)
    requires Merged(s) && i < |s| && !IsFree(s[i]) && left == (i > 0 && IsFree(s[i - 1]))
    requires joined == if left then MergeLeft(s[i := s[i].(proc := FREE)], i) else s[i := s[i].(proc := FREE)]
    requires k < |joined| - 1 && k != if left then i - 1 else i
    ensures !BothFree(joined[k], joined[k + 1])
  {
    var freed := s[i := s[i].(proc := FREE)];
    if left {
      if k + 1 < i {
        assert joined[k] == s[k] && joined[k + 1].proc == s[k + 1].proc;
      } else {
        assert joined[k] == s[k + 1] && joined[k + 1] == s[k + 2];
      }
    }
  }

  /** Freeing a process frees the addresses of its first block and of no other; without a block nothing changes. */
  lemma {:induction false} FreesFirst(s: seq<Block>, base: int, limit: int, pid: int, i: nat, x: int)
    requires Tiles(s, base, limit) && i <= |s| && (i < |s| ==> s[i].proc == pid) && forall j :: 0 <= j < i ==> s[j].proc != pid
    ensures i == |s| ==> Free(s, pid) == s
    ensures Tiles(Free(s, pid), base, limit)
    ensures Owner(Free(s, pid), x) == if i < |s| && s[i].addr <= x < End(s[i]) then (true, FREE) else Owner(s, x)
  {
    hide Tiles, Owner, Release;
    if i < |s| {
      FindIs(s, pid, i);
      ReleaseTiles(s, base, limit, i, x);
    }
  }

  /** Inserting puts the block at the index, or at the end that is nearer, and erasing it there undoes that. */
  lemma InsertedAndErased(s: seq<Block>, index: int, b: Block, k: nat)
    requires k == if index < 0 then 0 else if index > |s| then |s| else index
    ensures var r := Insert(s, index, b);
      |r| == |s| + 1 && r[k] == b && (forall j :: 0 <= j < |s| ==> s[j] == Shifted(r, k, j)) && Erase(r, k) == s
  {
    var r := Insert(s, index, b);
    assert r[..k] == s[..k] && r[k + 1..] == s[k..];
    assert s == s[..k] + s[k..];
  }

  /** Erasing takes the block out; one past the end the last one is lost, and beyond that nothing happens. */
  lemma ErasedAt(s: seq<Block>, index: int)
    requires s != []
    ensures 0 <= index <= |s| ==>
      |Erase(s, index)| == |s| - 1 && forall j :: 0 <= j < |s| - 1 ==> Erase(s, index)[j] == Shifted(s, index, j)
    ensures !(0 <= index <= |s|) ==> Erase(s, index) == s
  {
  }

  // ---- freeing what was just allocated ----

  lemma {:induction false} FindIs(s: seq<Block>, pid: int, i: nat)
    requires i < |s| && s[i].proc == pid && forall j :: 0 <= j < i ==> s[j].proc != pid
    ensures Find(s, pid) == i
  {
  }

  lemma FreeNeighbours(s: seq<Block>, i: nat)
    requires Merged(s) && i < |s| && IsFree(s[i])
    ensures i > 0 ==> !IsFree(s[i - 1])
    ensures i + 1 < |s| ==> !IsFree(s[i + 1])
  {
    if i > 0 {
      var j := i - 1;
      assert !BothFree(s[j], s[j + 1]);
    }
    if i + 1 < |s| {
      assert !BothFree(s[i], s[i + 1]);
    }
  }

  lemma MergeParts(a: seq<Block>, p: Block, q: Block, c: seq<Block>)
    ensures MergeLeft(a + [p, q] + c, |a| + 1) == a + [p.(size := p.size + q.size)] + c
  {
    var s := a + [p, q] + c;
    assert s[..|a|] == a && s[|a| + 2..] == c;
  }

  lemma FreedParts(a: seq<Block>, p: Block, q: Block, c: seq<Block>)
    ensures (a + [p, q] + c)[|a| := p.(proc := FREE)] == a + [p.(proc := FREE), q] + c
    ensures (a + [p, q] + c)[|a|] == p && (a + [p, q] + c)[|a| + 1] == q
    ensures |a| > 0 ==> (a + [p, q] + c)[|a| - 1] == a[|a| - 1]
  {
  }

  lemma FreeUndoesSplit(s: seq<Block>, i: nat, pid: int, size: int)
    requires Merged(s) && i < |s| && Fits(s[i], size) && s[i].size > size && pid != FREE
    ensures Release(Alloc(s, i, pid, size), i) == s
  {
    hide MergeLeft, Merged;
    FreeNeighbours(s, i);
    var (a, b, c) := (s[..i], s[i], s[i + 1..]);
    var (p, q) := (Block(b.addr, size, pid), Block(b.addr + size, b.size - size, b.proc));
    FreedParts(a, p, q, c);
    FreedParts(a, p.(proc := FREE), q, c);
    MergeParts(a, p.(proc := FREE), q, c);
    assert s == a + [b] + c;
  }

  lemma FreeUndoesWhole(s: seq<Block>, i: nat, pid: int, size: int)
    requires Merged(s) && i < |s| && Fits(s[i], size) && s[i].size == size && pid != FREE
    ensures Release(Alloc(s, i, pid, size), i) == s
  {
    FreeNeighbours(s, i);
    assert s[i := s[i].(proc := pid)][i := s[i].(proc := FREE)] == s;
  }

  /** Freeing the process that has just got memory restores the table exactly. */
  lemma FreeUndoesAlloc(s: seq<Block>, i: nat, pid: int, size: int)
    requires Merged(s) && i < |s| && Fits(s[i], size) && pid != FREE && forall j :: 0 <= j < |s| ==> s[j].proc != pid
    ensures Free(Alloc(s, i, pid, size), pid) == s
  {
    hide Release, Merged;
    var r := Alloc(s, i, pid, size);
    assert r[i].proc == pid && forall j :: 0 <= j < i ==> r[j] == s[j];
    FindIs(r, pid, i);
    if s[i].size > size {
      FreeUndoesSplit(s, i, pid, size);
    } else {
      FreeUndoesWhole(s, i, pid, size);
    }
  }

  // ---- free addresses ----

  /** Size addresses from a on, all free. */
  ghost predicate FreeRun(s: seq<Block>, a: int, size: int) {
    forall x :: a <= x < a + size ==> Owner(s, x) == (true, FREE)
  }

  /** A block fits a request exactly if somewhere so many consecutive addresses are free. */
  lemma {:induction false} RunIsBlock(s: seq<Block>, base: int, limit: int, size: int)
    requires Tiles(s, base, limit) && Merged(s) && size > 0
    ensures (exists a :: FreeRun(s, a, size)) <==> exists i :: 0 <= i < |s| && Fits(s[i], size)
  {
    hide Tiles, Owner;
    if a :| FreeRun(s, a, size) {
      assert Owner(s, a) == (true, FREE);
      var i := BlockOfOwner(s, a);
      RunEndsInBlock(s, base, limit, a, size, i);
      assert Fits(s[i], size);
    }
    if i :| 0 <= i < |s| && Fits(s[i], size) {
      forall x | s[i].addr <= x < s[i].addr + size ensures Owner(s, x) == (true, FREE) {
        OwnerOfBlock(s, base, limit, i, x);
      }
      assert FreeRun(s, s[i].addr, size);
    }
  }

  lemma {:induction false} RunEndsInBlock(s: seq<Block>, base: int, limit: int, a: int, size: int, i: nat)
    requires Tiles(s, base, limit) && Merged(s) && FreeRun(s, a, size) && i < |s| && s[i].addr <= a < End(s[i]) && IsFree(s[i])
    ensures a + size <= End(s[i])
  {
    hide Tiles, Owner;
    if a + size > End(s[i]) {
      var x := End(s[i]);
      Neighbours(s, base, limit, i);
      OwnerInside(s, base, limit, x);
      assert Owner(s, x) == (true, FREE);
      Neighbours(s, base, limit, i + 1);
      OwnerOfBlock(s, base, limit, i + 1, x);
    }
  }

  // ---- the policies ----

  datatype Policy = FirstFit | BestFit | WorstFit

  /** The first block that fits, or the length of the table. */
  function First(s: seq<Block>, size: int): (i: nat)
    ensures i <= |s|
  {
    if s == [] then 0
    else
      var i := First(s[..|s| - 1], size);
      if i < |s| - 1 then i else if Fits(s[|s| - 1], size) then |s| - 1 else |s|
  }

  /** The first of the smallest that fit; a block of the size INT_MAX is passed over. */
  function Best(s: seq<Block>, size: int): (i: nat)
    ensures i <= |s|
  {
    if s == [] then 0
    else
      var n := |s| - 1;
      var i := Best(s[..n], size);
      if Fits(s[n], size) && s[n].size < (if i < n then s[i].size else INT_MAX) then n
      else if i < n then i else |s|
  }

  /** The first of the largest that fit. */
  function Worst(s: seq<Block>, size: int): (i: nat)
    ensures i <= |s|
  {
    if s == [] then 0
    else
      var n := |s| - 1;
      var i := Worst(s[..n], size);
      if Fits(s[n], size) && (i < n ==> s[n].size > s[i].size) then n
      else if i < n then i else |s|
  }

  function Choose(policy: Policy, s: seq<Block>, size: int): (i: nat)
    ensures i <= |s|
  {
    match policy
    case FirstFit => First(s, size)
    case BestFit => Best(s, size)
    case WorstFit => Worst(s, size)
  }

  lemma {:induction false} FirstIsFirst(s: seq<Block>, size: int)
    ensures First(s, size) < |s| ==> Fits(s[First(s, size)], size)
    ensures forall j :: 0 <= j < First(s, size) ==> !Fits(s[j], size)
  {
    if s != [] {
      FirstIsFirst(s[..|s| - 1], size);
    }
  }

  lemma {:induction false} BestIsSmallest(s: seq<Block>, size: int)
    ensures Best(s, size) < |s| ==> Fits(s[Best(s, size)], size) && s[Best(s, size)].size < INT_MAX
    ensures Best(s, size) == |s| ==> forall j :: 0 <= j < |s| && Fits(s[j], size) ==> s[j].size >= INT_MAX
    ensures Best(s, size) < |s| ==> forall j :: 0 <= j < |s| && Fits(s[j], size) ==> s[j].size >= s[Best(s, size)].size
    ensures Best(s, size) < |s| ==> forall j :: 0 <= j < Best(s, size) && Fits(s[j], size) ==> s[j].size > s[Best(s, size)].size
  {
    if s != [] {
      BestIsSmallest(s[..|s| - 1], size);
    }
  }

  lemma {:induction false} WorstIsLargest(s: seq<Block>, size: int)
    ensures Worst(s, size) < |s| ==> Fits(s[Worst(s, size)], size)
    ensures Worst(s, size) == |s| ==> forall j :: 0 <= j < |s| ==> !Fits(s[j], size)
    ensures Worst(s, size) < |s| ==> forall j :: 0 <= j < |s| && Fits(s[j], size) ==> s[j].size <= s[Worst(s, size)].size
    ensures Worst(s, size) < |s| ==> forall j :: 0 <= j < Worst(s, size) && Fits(s[j], size) ==> s[j].size < s[Worst(s, size)].size
  {
    if s != [] {
      WorstIsLargest(s[..|s| - 1], size);
    }
  }

  // A request is refused exactly if there is no run of free addresses of its size; except that best fit
  // also refuses it when all blocks that fit have the size INT_MAX.
  lemma {:induction false} RefusedOnlyIfFull(policy: Policy, s: seq<Block>, base: int, limit: int, size: int)
    requires Tiles(s, base, limit) && Merged(s) && size > 0
    ensures policy != BestFit ==> (Choose(policy, s, size) == |s| <==> !exists a :: FreeRun(s, a, size))
    ensures policy == BestFit ==>
      (Choose(policy, s, size) == |s| <==> forall i :: 0 <= i < |s| && Fits(s[i], size) ==> s[i].size >= INT_MAX)
    ensures Choose(policy, s, size) < |s| ==> Fits(s[Choose(policy, s, size)], size)
  {
    hide Tiles, Merged, First, Best, Worst;
    RunIsBlock(s, base, limit, size);
    FirstIsFirst(s, size);
    BestIsSmallest(s, size);
    WorstIsLargest(s, size);
  }

  /** Best fit refuses what fits the only block there is, if that has the size INT_MAX. */
  lemma BestFitRefuses(size: int)
    requires 0 < size <= INT_MAX
    ensures var s := [Block(0, INT_MAX, FREE)];
      Choose(BestFit, s, size) == |s| && FreeRun(s, 0, size)
  {
    var s := [Block(0, INT_MAX, FREE)];
    assert s[..0] == [];
    forall x | 0 <= x < size ensures Owner(s, x) == (true, FREE) {
      OwnerOfOne(s[0], x);
    }
  }

  // ---- whole runs ----

  datatype Op = Request(policy: Policy, pid: int, size: int) | Return(pid: int)

  function Apply(s: seq<Block>, op: Op): seq<Block> {
    match op
    case Request(policy, pid, size) =>
      var i := Choose(policy, s, size);
      if i < |s| && s[i].size >= size then Alloc(s, i, pid, size) else s
    case Return(pid) => Free(s, pid)
  }

  /** Requests are for new processes and not for nothing. */
  predicate Proper(s: seq<Block>, op: Op) {
    match op
    case Request(_, pid, size) => pid >= 0 && size > 0 && forall j :: 0 <= j < |s| ==> s[j].proc != pid
    case Return(pid) => pid >= 0
  }

  lemma {:induction false} ApplyKeeps(s: seq<Block>, op: Op, base: int, limit: int)
    requires Tiles(s, base, limit) && Merged(s) && Proper(s, op)
    ensures Tiles(Apply(s, op), base, limit) && Merged(Apply(s, op))
  {
    hide Tiles, Merged, Alloc, Release, Choose;
    match op
    case Request(policy, pid, size) =>
      RefusedOnlyIfFull(policy, s, base, limit, size);
      var i := Choose(policy, s, size);
      if i < |s| {
        AllocTiles(s, base, limit, i, pid, size);
        AllocMerged(s, i, pid, size);
      }
    case Return(pid) =>
      var i := Find(s, pid);
      if i < |s| {
        ReleaseTiles(s, base, limit, i, 0);
        ReleaseMerged(s, i);
      }
  }

  predicate ProperRun(s: seq<Block>, ops: seq<Op>)
    decreases |ops|
  {
    ops == [] || (Proper(s, ops[0]) && ProperRun(Apply(s, ops[0]), ops[1..]))
  }

  function AfterRun(s: seq<Block>, ops: seq<Op>): seq<Block>
    decreases |ops|
  {
    if ops == [] then s else AfterRun(Apply(s, ops[0]), ops[1..])
  }

  /** From one free block on, every run keeps the table a tiling of the same addresses with joined free blocks. */
  lemma {:induction false} RunKeeps(s: seq<Block>, ops: seq<Op>, base: int, limit: int)
    requires Tiles(s, base, limit) && Merged(s) && ProperRun(s, ops)
    ensures Tiles(AfterRun(s, ops), base, limit) && Merged(AfterRun(s, ops))
    decreases |ops|
  {
    hide Tiles, Merged, Apply, Proper;
    if ops != [] {
      ApplyKeeps(s, ops[0], base, limit);
      RunKeeps(Apply(s, ops[0]), ops[1..], base, limit);
    }
  }

  lemma {:induction false} StartsTiled(base: int, total: int)
    requires total > 0
    ensures Tiles([Block(base, total, FREE)], base, base + total) && Merged([Block(base, total, FREE)])
  {
    TilesOne(Block(base, total, FREE), base, base + total);
  }

  function TotalSize(s: seq<Block>): int {
    if s == [] then 0 else TotalSize(s[..|s| - 1]) + s[|s| - 1].size
  }

  lemma {:induction false} TilesTotal(s: seq<Block>, base: int, limit: int)
    requires Tiles(s, base, limit)
    ensures TotalSize(s) == limit - base
    decreases |s|
  {
    if s != [] {
      TilesTotal(s[..|s| - 1], base, s[|s| - 1].addr);
    }
  }

  /** The sizes always add up to the memory there is. */
  lemma {:induction false} TotalIsConstant(base: int, total: int, ops: seq<Op>)
    requires total > 0 && ProperRun([Block(base, total, FREE)], ops)
    ensures TotalSize(AfterRun([Block(base, total, FREE)], ops)) == total
  {
    hide Tiles, AfterRun, TotalSize, ProperRun;
    StartsTiled(base, total);
    RunKeeps([Block(base, total, FREE)], ops, base, base + total);
    TilesTotal(AfterRun([Block(base, total, FREE)], ops), base, base + total);
  }

  /** How many blocks are in use. */
  function Live(s: seq<Block>): nat {
    if s == [] then 0 else Live(s[..|s| - 1]) + if IsFree(s[|s| - 1]) then 0 else 1
  }

  /** There is at most one free block more than there are used ones, so 2047 processes never fill the table. */
  lemma {:induction false} FewBlocks(s: seq<Block>)
    requires Merged(s)
    ensures |s| <= 2 * Live(s) + if s != [] && IsFree(s[|s| - 1]) then 1 else 0
  {
    if s != [] {
      var n := |s| - 1;
      assert Merged(s[..n]) by {
        assert forall i :: 0 <= i < n - 1 ==> s[..n][i] == s[i] && !BothFree(s[i], s[i + 1]);
      }
      FewBlocks(s[..n]);
      if n > 0 {
        assert s[..n][n - 1] == s[n - 1] && !BothFree(s[n - 1], s[n - 1 + 1]);
      }
    }
  }
}
