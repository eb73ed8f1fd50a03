// The memory manager of experiment/os/exp4/memory.c: an array of blocks that memman_insert and memman_erase
// shift in place, with its length. Each method says which function of MemoryTable it computes on the entries
// that are in use; what those functions keep is proved there. The bounds are those of the program: an index
// out of range is first put into range, or refused, in the way in which the program does it.
module MemoryManager {
  import opened MemoryTable

  const INT_MIN: int := -0x8000_0000

  class MemMan {
    var length: nat
    const at: array<Block>

    ghost predicate Valid()
      reads this
    {
      length <= at.Length == MEMMAN_N
    }

    ghost function Table(): seq<Block>
      reads this, at
      requires Valid()
    {
      at[..length]
    }

    /** memman_init with one free block */
    constructor (addr: int, size: int)
      ensures Valid() && Table() == [Block(addr, size, FREE)] && fresh(at)
    {
      at := new Block[MEMMAN_N](_ => Block(0, 0, FREE));
      length := 1;
      new;
      at[0] := Block(addr, size, FREE);
    }

    /** The loop of memman_insert: the blocks from the index on move up by one. */
    method ShiftUp(k: nat)
      requires k <= length < at.Length
      modifies at
      ensures at[..k] == old(at[..k]) && at[k + 1..length + 1] == old(at[k..length])
    {
      ghost var was := at[..];
      var i := length - 1;
      while i >= k
        invariant k - 1 <= i <= length - 1
        invariant at[..i + 2] == was[..i + 2] && at[i + 2..length + 1] == was[i + 1..length]
      {
        at[i + 1] := at[i];
        assert at[i + 1..length + 1] == [at[i + 1]] + at[i + 2..length + 1];
        assert was[i..length] == [was[i]] + was[i + 1..length];
        assert at[..i + 1] == was[..i + 2][..i + 1];
        i := i - 1;
      }
      assert at[..k] == at[..i + 2][..k];
    }

    /** memman_insert */
    method InsertBlock(index: int, b: Block)
      requires Valid() && length < MEMMAN_N
      modifies `length, at
      ensures Valid() && Table() == Insert(old(Table()), index, b)
    {
      var k := index;
      if k > length {
        k := length;
      }
      if k < 0 {
        k := 0;
      }
      ghost var was := at[..];
      ShiftUp(k);
      ghost var moved := at[..];
      InsertParts(was, moved, k, length, b);
      length := length + 1;
      at[k] := b;
      assert at[..] == moved[k := b];
    }

    static lemma InsertParts(was: seq<Block>, moved: seq<Block>, k: nat, len: nat, b: Block)
      requires k <= len < |was| == |moved| && moved[..k] == was[..k] && moved[k + 1..len + 1] == was[k..len]
      ensures moved[k := b][..len + 1] == Insert(was[..len], k, b)
    {
      assert moved[k := b][..len + 1] == moved[..k] + [b] + moved[k + 1..len + 1];
      assert was[..len][..k] == was[..k] && was[..len][k..] == was[k..len];
    }

    /** The loop of memman_erase: the blocks after the index move down by one. */
    method ShiftDown(index: nat)
      requires length < at.Length
      modifies at
      ensures at[..length] == if index <= length then old(at[..index] + at[index + 1..length + 1]) else old(at[..length])
    {
      ghost var was := at[..];
      var i := index;
      if index <= length {
        assert at[..i] == was[..index] + was[index + 1..i + 1];
      }
      while i < length
        invariant index <= i
        invariant index <= length ==> i <= length && at[..i] == was[..index] + was[index + 1..i + 1] && at[i..] == was[i..]
        invariant index > length ==> at[..] == was
        decreases length - i
      {
        at[i] := at[i + 1];
        assert was[index + 1..i + 2] == was[index + 1..i + 1] + [was[i + 1]];
        assert at[..i + 1] == at[..i] + [at[i]];
        assert at[i + 1..] == was[i..][1..];
        i := i + 1;
      }
    }

    /** memman_erase */
    method EraseBlock(index: int) returns (rc: int)
      requires Valid() && length > 0
      modifies `length, at
      ensures Valid() && Table() == Erase(old(Table()), index)
      ensures rc == if index > old(length) || index < 0 then -1 else 0
    {
      if index > length || index < 0 {
        return -1;
      }
      ghost var was := Table();
      length := length - 1;
      assert index <= length ==> at[..index] == was[..index] && at[index + 1..length + 1] == was[index + 1..];
      ShiftDown(index);
      rc := 0;
    }

    /** The block at i takes a size and a process, and the one after it what is left. */
    method SplitBlock(i: nat, pid: int, size: int)
      requires Valid() && i < length < MEMMAN_N && at[i].size > size
      modifies `length, at
      ensures Valid() && Table() == Alloc(old(Table()), i, pid, size)
    {
      ghost var was := Table();
      InsertBlock(i, at[i]);
      assert Table() == was[..i] + [was[i], was[i]] + was[i + 1..];
      at[i] := at[i].(size := size);
      at[i + 1] := at[i + 1].(addr := at[i].addr + size);
      at[i + 1] := at[i + 1].(size := at[i + 1].size - size);
      at[i] := at[i].(proc := pid);
      assert Table() == was[..i] + [at[i], at[i + 1]] + was[i + 1..];
    }

    /** memman_alloc */
    method AllocBlock(i: nat, pid: int, size: int)
      requires Valid() && i < length && (at[i].size > size ==> length < MEMMAN_N)
      modifies `length, at
      ensures Valid() && Table() == if old(at[i].size) >= size then Alloc(old(Table()), i, pid, size) else old(Table())
    {
      ghost var was := Table();
      if at[i].size > size {
        SplitBlock(i, pid, size);
        assert Table()[i] == Block(was[i].addr, size, pid);
      }
      if at[i].size == size {
        at[i] := at[i].(proc := pid);
      }
    }

    /** The block at i joins the one before it. */
    method JoinBlock(i: nat)
      requires Valid() && 0 < i < length
      modifies `length, at
      ensures Valid() && Table() == MergeLeft(old(Table()), i)
    {
      ghost var was := Table();
      at[i - 1] := at[i - 1].(size := at[i - 1].size + at[i].size);
      assert Table() == was[i - 1 := was[i - 1].(size := was[i - 1].size + was[i].size)];
      var rc := EraseBlock(i);
    }

    /** The part of memman_free that is done once the process is found. */
    method ReleaseBlock(k: nat)
      requires Valid() && k < length
      modifies `length, at
      ensures Valid() && Table() == Release(old(Table()), k)
    {
      hide MergeLeft;
      var i: nat := k;
      ghost var was := Table();
      at[i] := at[i].(proc := FREE);
      assert Table() == was[k := was[k].(proc := FREE)];
      if i > 0 && at[i - 1].proc == FREE {
        JoinBlock(i);
        MergedBlock(was[k := was[k].(proc := FREE)], i);
        i := i - 1;
      }
      if i < length - 1 && at[i + 1].proc == FREE {
        JoinBlock(i + 1);
      }
    }

    /** memman_free */
    method FreeProcess(pid: int)
      requires Valid()
      modifies `length, at
      ensures Valid() && Table() == Free(old(Table()), pid)
    {
      hide Release, Find;
      var i: nat := 0;
      while i < length
        invariant i <= length && Valid() && Table() == old(Table()) && forall j :: 0 <= j < i ==> at[j].proc != pid
      {
        if at[i].proc == pid {
          FindIs(Table(), pid, i);
          ReleaseBlock(i);
          return;
        }
        i := i + 1;
      }
      FindNone(Table(), pid);
    }

    /** first_fit with op 1 */
    method FirstFitAlloc(pid: int, size: int) returns (ok: bool)
      requires Valid() && length < MEMMAN_N
      modifies `length, at
      ensures Valid() && Table() == Apply(old(Table()), Request(FirstFit, pid, size))
      ensures ok <==> Choose(FirstFit, old(Table()), size) < old(length)
    {
      hide First, Alloc;
      var i: nat := 0;
      while i < length
        invariant i <= length < MEMMAN_N && Table() == old(Table()) && forall j :: 0 <= j < i ==> !Fits(at[j], size)
      {
        if at[i].proc == FREE && at[i].size >= size {
          FirstIs(Table(), size, i);
          AllocBlock(i, pid, size);
          return true;
        }
        i := i + 1;
      }
      FirstIs(Table(), size, i);
      ok := false;
    }

    /** best_fit with op 1 */
    method BestFitAlloc(pid: int, size: int) returns (ok: bool)
      requires Valid() && length < MEMMAN_N
      modifies `length, at
      ensures Valid() && Table() == Apply(old(Table()), Request(BestFit, pid, size))
      ensures ok <==> Choose(BestFit, old(Table()), size) < old(length)
    {
      hide Alloc;
      var min, index := INT_MAX, -1;
      ghost var s := Table();
      for i := 0 to length
        invariant Best(s[..i], size) == (if index == -1 then i else index) && -1 <= index < i
        invariant min == if index == -1 then INT_MAX else s[index].size
      {
        assert s[..i + 1][..i] == s[..i];
        if at[i].proc == FREE && at[i].size >= size && at[i].size < min {
          min := at[i].size;
          index := i;
        }
      }
      assert s[..length] == s;
      ok := index != -1;
      if ok {
        BestIsSmallest(s, size);
        AllocBlock(index, pid, size);
      }
    }

    /** worst_fit with op 1; all sizes are ints. */
    method WorstFitAlloc(pid: int, size: int) returns (ok: bool)
      requires Valid() && length < MEMMAN_N && forall j :: 0 <= j < length ==> at[j].size > INT_MIN
      modifies `length, at
      ensures Valid() && Table() == Apply(old(Table()), Request(WorstFit, pid, size))
      ensures ok <==> Choose(WorstFit, old(Table()), size) < old(length)
    {
      hide Alloc;
      var max, index := INT_MIN, -1;
      ghost var s := Table();
      for i := 0 to length
        invariant Worst(s[..i], size) == (if index == -1 then i else index) && -1 <= index < i
        invariant max == if index == -1 then INT_MIN else s[index].size
      {
        assert s[..i + 1][..i] == s[..i];
        if at[i].proc == FREE && at[i].size >= size && at[i].size > max {
          max := at[i].size;
          index := i;
        }
      }
      assert s[..length] == s;
      ok := index != -1;
      if ok {
        WorstIsLargest(s, size);
        AllocBlock(index, pid, size);
      }
    }
  }

  lemma {:induction false} FindNone(s: seq<Block>, pid: int)
    requires forall j :: 0 <= j < |s| ==> s[j].proc != pid
    ensures Find(s, pid) == |s|
  {
  }

  lemma {:induction false} FirstIs(s: seq<Block>, size: int, i: nat)
    requires i <= |s| && (i < |s| ==> Fits(s[i], size)) && forall j :: 0 <= j < i ==> !Fits(s[j], size)
    ensures First(s, size) == i
  {
    FirstIsFirst(s, size);
  }
}
