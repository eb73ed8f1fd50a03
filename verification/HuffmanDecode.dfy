// read_code_table and huffman_decode_file of coursedesign/zip/program/huffman.c, on heap nodes. A ghost map
// from positions to nodes describes the nodes as a trie; each method that links a node in ties the trie
// afterwards to the function of HuffmanTrie that makes the same step. The files may hold any bytes, so every
// early end of a file, every step through a null child and every one through a leaf is a result of its own.
module HuffmanDecode {
  import opened BitBytes
  import opened HuffmanTree
  import opened HuffmanFile
  import opened HuffmanTrie

  // ---- the trie on the heap ----

  ghost predicate ChildLink(m: PathMap, p: Bits, b: bool)
    requires p in m
    reads m.Values`zero, m.Values`one
  {
    (if b then m[p].one else m[p].zero) == if p + [b] in m then m[p + [b]] else null
  }

  /** The nodes of m form a trie: no node twice, links to the children that exist and null elsewhere. */
  ghost predicate IsTrie(m: PathMap)
    reads m.Values`leaf, m.Values`zero, m.Values`one
  {
    && [] in m
    && (forall q :: q in m && q != [] ==> q[..|q| - 1] in m)
    && (forall p, q :: p in m && q in m && m[p] == m[q] ==> p == q)
    && (forall p :: p in m && !m[p].leaf ==> ChildLink(m, p, false) && ChildLink(m, p, true))
  }

  /** The trie as a value. */
  ghost function Content(m: PathMap): Trie
    reads m.Values`leaf, m.Values`symbol
  {
    Trie(m.Keys, map p | p in m && m[p].leaf :: m[p].symbol)
  }

  lemma NodesOf(m: PathMap, p: Bits)
    requires p in m
    ensures m[p] in m.Values && m[p].leaf == (p in Content(m).labels)
    ensures m[p].leaf ==> m[p].symbol == Content(m).labels[p]
    ensures forall q :: q in m <==> q in Content(m).paths
  {
  }

  /** Hanging a new node n below p, at the position r. */
  lemma Hung(m: PathMap, p: HNode, q: Bits, b: bool, n: HNode)
    requires [] in m && q in m && m[q] == p && !p.leaf && q + [b] !in m && n !in m.Values
    requires forall x :: x in m && x != [] ==> x[..|x| - 1] in m
    requires forall x, y :: x in m && y in m && m[x] == m[y] ==> x == y
    requires (if b then p.one else p.zero) == n && ChildLink(m, q, !b)
    requires forall x :: x in m && x != q && !m[x].leaf ==> ChildLink(m, x, false) && ChildLink(m, x, true)
    requires n.zero == null && n.one == null
    ensures IsTrie(m[q + [b] := n])
  {
    var r := q + [b];
    var more := m[r := n];
    assert r[..|r| - 1] == q;
    forall x, c: bool | x in more && !more[x].leaf ensures ChildLink(more, x, c) {
      assert (x + [c])[..|x|] == x && (x + [c])[|x|] == c && r[|q|] == b;
      assert x == r ==> x + [c] !in more;
      assert x + [c] == r ==> x == q && c == b;
    }
    forall x, y | x in more && y in more && more[x] == more[y] ensures x == y {
      assert x != r ==> m[x] in m.Values;
      assert y != r ==> m[y] in m.Values;
    }
  }

  /** p->zero = n or p->one = n */
  method Attach(p: HNode, bit: bool, n: HNode, ghost m: PathMap, ghost q: Bits)
    requires IsTrie(m) && q in m && m[q] == p && !p.leaf && q + [bit] !in m && n !in m.Values
    requires n.zero == null && n.one == null
    modifies p`zero, p`one
    ensures IsTrie(m[q + [bit] := n]) && (if bit then p.one else p.zero) == n
  {
    assert ChildLink(m, q, !bit);
    assert forall x :: x in m && x != q ==> m[x] != p && m[x] in m.Values;
    if bit {
      p.one := n;
    } else {
      p.zero := n;
    }
    forall x | x in m && x != q && !m[x].leaf ensures ChildLink(m, x, false) && ChildLink(m, x, true) {
      assert old(ChildLink(m, x, false)) && old(ChildLink(m, x, true));
    }
    Hung(m, p, q, bit, n);
  }

  lemma GrownContent(m: PathMap, r: Bits, n: HNode, last: bool, s: Byte)
    requires r !in m && n.leaf == last && (last ==> n.symbol == s)
    ensures Content(m[r := n]) == Grow(Content(m), r, last, s)
  {
    var more := m[r := n];
    assert more.Keys == m.Keys + {r};
    var labels := Content(m).labels;
    assert Content(more).labels == if last then labels[r := s] else labels;
  }

  lemma ChildAt(m: PathMap, q: Bits, b: bool)
    requires IsTrie(m) && q in m && !m[q].leaf
    ensures (if b then m[q].one else m[q].zero) == if q + [b] in m then m[q + [b]] else null
  {
    assert ChildLink(m, q, false) && ChildLink(m, q, true);
  }

  lemma GrownAlready(m: PathMap, r: Bits, last: bool, s: Byte)
    requires r in m
    ensures Content(m) == Grow(Content(m), r, last, s)
  {
  }

  /** Makes the child on the given side unless there is one, and goes there. */
  method StepTo(p: HNode, bit: bool, last: bool, symbol: Byte, ghost m: PathMap, ghost q: Bits)
    returns (child: HNode, ghost more: PathMap)
    requires [] in m && IsTrie(m) && q in m && m[q] == p && !p.leaf
    modifies p`zero, p`one
    ensures [] in more && IsTrie(more) && q + [bit] in more && more[q + [bit]] == child && more[[]] == m[[]]
    ensures Content(more) == Grow(old(Content(m)), q + [bit], last, symbol)
    ensures forall x :: x in more.Values ==> x in m.Values || fresh(x)
  {
    hide *;
    ghost var r := q + [bit];
    ChildAt(m, q, bit);
    if bit {
      if p.one == null {
        var n := NewChild(p, last, symbol);
        Attach(p, true, n, m, q);
      }
      child := p.one;
    } else {
      if p.zero == null {
        var n := NewChild(p, last, symbol);
        Attach(p, false, n, m, q);
      }
      child := p.zero;
    }
    more := m[r := child];
    if r in m {
      assert more == m;
      GrownAlready(m, r, last, symbol);
    } else {
      GrownContent(m, r, child, last, symbol);
    }
  }

  method NewChild(p: HNode, last: bool, symbol: Byte) returns (n: HNode)
    ensures fresh(n) && n.leaf == last && (last ==> n.symbol == symbol)
    ensures n.zero == null && n.one == null && n.parent == p
  {
    if last {
      n := new HNode.NewLeaf(symbol);
    } else {
      n := new HNode.NewNode(0, null, null);
    }
    n.parent := p;
  }

  // ---- reading the table ----

  /** root is the top of the trie m. */
  ghost predicate TopOf(root: HNode, m: PathMap)
    reads m.Values`leaf, m.Values`zero, m.Values`one
  {
    [] in m && m[[]] == root && IsTrie(m) && !root.leaf
  }

  lemma InsertStep(tr: Trie, code: Bits, i: nat, s: Byte)
    requires i < |code|
    ensures code[..i] in tr.labels ==> InsertFrom(tr, code, i, s) == None
    ensures code[..i] !in tr.labels ==>
      InsertFrom(tr, code, i, s) == InsertFrom(Grow(tr, code[..i + 1], i + 1 == |code|, s), code, i + 1, s)
    ensures code[..i] + [code[i]] == code[..i + 1]
  {
  }

  lemma {:induction false} InsertDone(tr: Trie, code: Bits, s: Byte)
    ensures InsertFrom(tr, code, |code|, s) == Some(tr)
  {
  }

  lemma BitIsSet(bytes: seq<Byte>, len: nat, i: nat)
    requires i < len <= 8 * |bytes|
    ensures (GetBit(bytes, i) != ZERO) == Unpack(bytes)[..len][i]
  {
    GetBitIsBit(bytes, i);
  }

  /** p is the node at the position q of the trie under root. */
  ghost predicate NodeOf(p: HNode, root: HNode, m: PathMap, q: Bits)
    reads m.Values`leaf, m.Values`zero, m.Values`one
  {
    [] in m && m[[]] == root && IsTrie(m) && q in m && m[q] == p
  }

  /** p is the node at which i bits of the code end; the trie is in order. */
  ghost predicate Reached(p: HNode, root: HNode, m: PathMap, code: Bits, i: nat)
    reads m.Values`leaf, m.Values`zero, m.Values`one
  {
    i <= |code| && NodeOf(p, root, m, code[..i]) && NodeOf(root, root, m, [])
  }

  // One step along a code, unless the way leads through a leaf: there the program would take the symbol,
  // which a leaf holds in the same place, for its children.
  method InsertBit(p: HNode, symbol: Byte, len: nat, bytes: seq<Byte>, cBit: nat, ghost root: HNode, ghost m: PathMap, ghost code: Bits)
    returns (ok: bool, next: HNode, ghost more: PathMap)
    requires len <= 8 * |bytes| && code == Unpack(bytes)[..len] && cBit < |code| && Reached(p, root, m, code, cBit)
    modifies p`zero, p`one
    ensures NodeOf(root, root, more, []) && (ok ==> Reached(next, root, more, code, cBit + 1))
    ensures forall x :: x in more.Values ==> x in m.Values || fresh(x)
    ensures InsertFrom(old(Content(m)), code, cBit, symbol) ==
      if ok then InsertFrom(Content(more), code, cBit + 1, symbol) else None
  {
    hide Content, IsTrie, InsertFrom, Unpack;
    NodesOf(m, code[..cBit]);
    InsertStep(Content(m), code, cBit, symbol);
    more := m;
    if p.leaf {
      return false, p, more;
    }
    BitIsSet(bytes, len, cBit);
    next, more := StepTo(p, GetBit(bytes, cBit) != ZERO, cBit == len - 1, symbol, m, code[..cBit]);
    ok := true;
  }

  lemma UseReached(p: HNode, root: HNode, m: PathMap, code: Bits, i: nat)
    requires Reached(p, root, m, code, i)
    ensures i <= |code| && p in m.Values && NodeOf(root, root, m, [])
  {
  }

  lemma StartNode(root: HNode, m: PathMap, code: Bits)
    requires TopOf(root, m)
    ensures Reached(root, root, m, code, 0)
  {
  }

  /** Walks down along a code and makes the nodes that are missing; stops if the way leads through a leaf. */
  method InsertCode(root: HNode, symbol: Byte, len: nat, bytes: seq<Byte>, ghost m: PathMap)
    returns (ok: bool, ghost more: PathMap)
    requires TopOf(root, m) && len <= 8 * |bytes|
    modifies m.Values`zero, m.Values`one
    ensures NodeOf(root, root, more, [])
    ensures forall x :: x in more.Values ==> x in m.Values || fresh(x)
    ensures InsertFrom(old(Content(m)), Unpack(bytes)[..len], 0, symbol) == if ok then Some(Content(more)) else None
  {
    hide *;
    ghost var code := Unpack(bytes)[..len];
    ghost var goal := InsertFrom(Content(m), code, 0, symbol);
    StartNode(root, m, code);
    var p := root;
    more := m;
    var cBit := 0;
    while cBit < len
      invariant cBit <= len == |code| && Reached(p, root, more, code, cBit)
      invariant forall x :: x in more.Values ==> x in m.Values || fresh(x)
      invariant InsertFrom(Content(more), code, cBit, symbol) == goal
    {
      UseReached(p, root, more, code, cBit);
      ok, p, more := InsertBit(p, symbol, len, bytes, cBit, root, more, code);
      if !ok {
        return;
      }
      cBit := cBit + 1;
    }
    UseReached(p, root, more, code, cBit);
    InsertDone(Content(more), code, symbol);
    ok := true;
  }

  lemma UseTop(root: HNode, m: PathMap)
    requires TopOf(root, m)
    ensures [] in m && m[[]] == root && IsTrie(m) && !root.leaf && root in m.Values
  {
  }

  datatype Status = Fine | Eof | Undefined

  /** What is left to read. */
  ghost function Left(input: File): seq<Byte>
    reads input
    requires input.Valid()
  {
    input.data[input.pos..]
  }

  /** Reads an entry: symbol, length, code bytes. */
  method GetEntry(input: File) returns (r: Option<(Byte, nat, seq<Byte>)>)
    requires input.Valid()
    modifies input`pos
    ensures input.Valid()
    ensures match ParseEntry(old(Left(input)))
      case None => r == None
      case Some(e) => r == Some((e.symbol, e.len, e.code)) && e.rest == Left(input)
  {
    hide Index;
    ghost var bytes := Left(input);
    var c := input.Getc();
    if c == None {
      return None;
    }
    var symbol := c.value;
    c := input.Getc();
    if c == None {
      return None;
    }
    var len := Index(c.value);
    var code := input.Read(ByteLength(len));
    if code == None {
      return None;
    }
    r := Some((symbol, len, code.value));
    assert bytes[0] == symbol && Index(bytes[1]) == len;
    assert bytes[2..2 + ByteLength(len)] == code.value && bytes[2 + ByteLength(len)..] == Left(input);
  }

  lemma EntryStep(bytes: seq<Byte>, count: nat, tr: Trie)
    requires count > 0
    ensures ReadEntries(bytes, count, tr) ==
      match ParseEntry(bytes)
      case None => TableEof
      case Some(e) =>
        match InsertFrom(tr, Unpack(e.code)[..e.len], 0, e.symbol)
        case None => TableUndefined
        case Some(more) => ReadEntries(e.rest, count - 1, more)
  {
  }

  /** count entries are left to read, and reading the whole table gives goal. */
  ghost predicate Reading(input: File, root: HNode, m: PathMap, count: nat, goal: TableResult)
    reads input, m.Values
  {
    input.Valid() && TopOf(root, m) && ReadEntries(Left(input), count, Content(m)) == goal
  }

  /** The entries have been read, or the reading has stopped. */
  ghost predicate ReadingEnds(input: File, root: HNode, m: PathMap, status: Status, goal: TableResult)
    reads input, m.Values
  {
    input.Valid() && NodeOf(root, root, m, []) && !root.leaf &&
    match status
    case Fine => goal == TableRead(Content(m), Left(input))
    case Eof => goal == TableEof
    case Undefined => goal == TableUndefined
  }

  lemma {:induction false} ReadingNext(input: File, root: HNode, m: PathMap, count: nat, goal: TableResult)
    requires Reading(input, root, m, count, goal) && count > 0
    ensures input.Valid() && TopOf(root, m) && NodeOf(root, root, m, []) && !root.leaf && root in m.Values
    ensures goal ==
      match ParseEntry(Left(input))
      case None => TableEof
      case Some(e) =>
        match InsertFrom(Content(m), Unpack(e.code)[..e.len], 0, e.symbol)
        case None => TableUndefined
        case Some(more) => ReadEntries(e.rest, count - 1, more)
  {
    hide IsTrie, ReadEntries, Content, InsertFrom, ParseEntry, Left;
    UseTop(root, m);
    EntryStep(Left(input), count, Content(m));
  }

  lemma ReadingStops(input: File, root: HNode, m: PathMap, status: Status, goal: TableResult)
    requires input.Valid() && NodeOf(root, root, m, []) && !root.leaf
    ensures goal == TableEof ==> ReadingEnds(input, root, m, Eof, goal)
    ensures goal == TableUndefined ==> ReadingEnds(input, root, m, Undefined, goal)
  {
  }

  lemma {:induction false} ReadingGoesOn(input: File, root: HNode, m: PathMap, count: nat, goal: TableResult)
    requires input.Valid() && NodeOf(root, root, m, []) && !root.leaf
    requires ReadEntries(Left(input), count, Content(m)) == goal
    ensures Reading(input, root, m, count, goal)
  {
    hide IsTrie, ReadEntries, Content, Left;
  }

  /** Reads one entry of the table and adds its code. */
  method ReadEntry(input: File, root: HNode, ghost m: PathMap, ghost count: nat, ghost goal: TableResult)
    returns (status: Status, ghost more: PathMap)
    requires Reading(input, root, m, count, goal) && count > 0
    modifies input`pos, m.Values`zero, m.Values`one
    ensures forall x :: x in more.Values ==> x in m.Values || fresh(x)
    ensures status == Fine ==> Reading(input, root, more, count - 1, goal)
    ensures status != Fine ==> ReadingEnds(input, root, more, status, goal)
  {
    hide *;
    more := m;
    ReadingNext(input, root, m, count, goal);
    var r := GetEntry(input);
    if r == None {
      ReadingStops(input, root, m, Eof, goal);
      return Eof, more;
    }
    var (symbol, len, code) := r.value;
    var ok;
    ok, more := InsertCode(root, symbol, len, code, m);
    if ok {
      ReadingGoesOn(input, root, more, count - 1, goal);
      status := Fine;
    } else {
      ReadingStops(input, root, more, Undefined, goal);
      status := Undefined;
    }
  }

  lemma ReadingDone(input: File, root: HNode, m: PathMap, goal: TableResult)
    requires Reading(input, root, m, 0, goal)
    ensures ReadingEnds(input, root, m, Fine, goal)
  {
    NothingToRead(Content(m), Left(input));
  }

  /** Reads the entries of the table. */
  method ReadAllEntries(input: File, root: HNode, total: nat, ghost m: PathMap, ghost goal: TableResult)
    returns (status: Status, ghost more: PathMap)
    requires Reading(input, root, m, total, goal)
    modifies input`pos, m.Values`zero, m.Values`one
    ensures ReadingEnds(input, root, more, status, goal)
  {
    hide *;
    more := m;
    status := Fine;
    var count: nat := total;
    while count > 0
      invariant status == Fine && Reading(input, root, more, count, goal)
      invariant forall x :: x in more.Values ==> x in m.Values || fresh(x)
    {
      status, more := ReadEntry(input, root, more, count, goal);
      if status != Fine {
        return;
      }
      count := count - 1;
    }
    ReadingDone(input, root, more, goal);
  }

  method NewRoot() returns (root: HNode, ghost m: PathMap)
    ensures fresh(root) && m == map[[] := root] && TopOf(root, m) && Content(m) == EMPTY
  {
    root := new HNode.NewNode(0, null, null);
    m := map[[] := root];
    assert forall b: bool :: [b] !in m;
    assert Content(m).labels == map[];
  }

  /** read_code_table: number of entries, number of symbols to come, entries. */
  method ReadCodeTable(input: File) returns (status: Status, root: HNode, pdb: nat, ghost m: PathMap)
    requires input.Valid() && input.pos == 0
    modifies input`pos
    ensures |input.data| < 8 ==> status == Eof
    ensures |input.data| >= 8 ==> pdb == Host32(input.data[4..8])
    ensures |input.data| >= 8 ==>
      ReadingEnds(input, root, m, status, ReadEntries(input.data[8..], Host32(input.data[..4]), EMPTY))
  {
    hide ReadEntries, Content, Host32, ReadingEnds, TopOf;
    pdb := 0;
    root, m := NewRoot();
    var count := input.Read(4);
    if count == None {
      return Eof, root, pdb, m;
    }
    var size := input.Read(4);
    if size == None {
      return Eof, root, pdb, m;
    }
    pdb := Host32(size.value);
    assert count.value == input.data[..4] && size.value == input.data[4..8];
    status, m := ReadAllEntries(input, root, Host32(count.value), m,
                                ReadEntries(input.data[8..], Host32(input.data[..4]), EMPTY));
  }

  // ---- decoding the data ----

  /** The decoder stands at the node p. */
  ghost predicate Standing(p: HNode, root: HNode, m: PathMap, w: Walk)
    reads m.Values`leaf, m.Values`zero, m.Values`one
  {
    NodeOf(root, root, m, []) && NodeOf(p, root, m, w.at) && !root.leaf && !p.leaf && !w.crashed
  }

  lemma StepOf(p: HNode, root: HNode, m: PathMap, w: Walk, b: bool)
    requires Standing(p, root, m, w) && w.missing > 0
    ensures var child := if b then p.one else p.zero;
      var f := Feed(Content(m), w, b);
      f.crashed == (child == null) &&
      (child != null && child.leaf ==> f == Walk([], w.text + [child.symbol], w.missing - 1, false)) &&
      (child != null && child.leaf ==> Standing(root, root, m, f)) &&
      (child != null && !child.leaf ==> f == w.(at := w.at + [b]) && Standing(child, root, m, f))
  {
    hide IsTrie, Content;
    ChildAt(m, w.at, b);
    var r := w.at + [b];
    if r in m {
      NodesOf(m, r);
    } else {
      NodesOf(m, w.at);
    }
  }

  /** One bit: a step down, and back to the root with a symbol written when it ends at a leaf. */
  method TakeBit(p: HNode, root: HNode, out: File, bit: bool, dataCount: nat, ghost m: PathMap, ghost w: Walk)
    returns (crashed: bool, next: HNode, left: nat)
    requires Standing(p, root, m, w) && w.missing == dataCount > 0 && w.text == out.data
    modifies out`data
    ensures crashed == Feed(Content(m), w, bit).crashed
    ensures !crashed ==> Standing(next, root, m, Feed(Content(m), w, bit))
    ensures !crashed ==> left == Feed(Content(m), w, bit).missing && out.data == Feed(Content(m), w, bit).text
  {
    hide *;
    StepOf(p, root, m, w, bit);
    var child := if bit then p.one else p.zero;
    if child == null {
      return true, p, dataCount;
    }
    crashed, next, left := false, child, dataCount;
    if next.leaf {
      out.Write([next.symbol]);
      next := root;
      left := left - 1;
    }
  }

  /** What is left of a byte from its bit j on, and the bytes after it. */
  ghost function Remaining(byte: Byte, j: nat, bytes: seq<Byte>): Bits
    requires j <= 8
  {
    BitsOf(byte)[j..] + Unpack(bytes)
  }

  /** The decoder stands at p, with the walk w done, and the remaining bits lead on to goal. */
  ghost predicate Decoding(p: HNode, root: HNode, out: File, dataCount: nat, m: PathMap, w: Walk, bits: Bits, goal: Walk)
    reads m.Values, out
  {
    Standing(p, root, m, w) && w.missing == dataCount && w.text == out.data && FeedAll(Content(m), w, bits) == goal
  }

  lemma RemainingStep(byte: Byte, j: nat, bytes: seq<Byte>)
    requires j < 8
    ensures Remaining(byte, j, bytes) == [byte.v & Mask(j) != 0] + Remaining(byte, j + 1, bytes)
  {
    hide Mask;
  }

  lemma RemainingEnds(byte: Byte, bytes: seq<Byte>)
    ensures Remaining(byte, 8, bytes) == Unpack(bytes)
  {
  }

  lemma NextByte(bytes: seq<Byte>)
    requires bytes != []
    ensures Unpack(bytes) == Remaining(bytes[0], 0, bytes[1..])
  {
    hide BitOf;
  }

  lemma {:induction false} FeedStep(tr: Trie, w: Walk, bit: bool, rest: Bits)
    ensures FeedAll(tr, w, [bit] + rest) == FeedAll(tr, Feed(tr, w, bit), rest)
    ensures Feed(tr, w, bit).crashed ==> FeedAll(tr, w, [bit] + rest).crashed
  {
    hide Feed;
    assert ([bit] + rest)[1..] == rest;
    if Feed(tr, w, bit).crashed {
      FeedNothing(tr, Feed(tr, w, bit), rest);
    }
  }

  /** One turn of the inner loop, on the bit under the mask. */
  method DecodeBit(p: HNode, root: HNode, out: File, bit: bool, dataCount: nat,
                   ghost m: PathMap, ghost w: Walk, ghost rest: Bits, ghost goal: Walk)
    returns (crashed: bool, next: HNode, left: nat, ghost v: Walk)
    requires Decoding(p, root, out, dataCount, m, w, [bit] + rest, goal) && dataCount > 0
    modifies out`data
    ensures crashed ==> goal.crashed
    ensures !crashed ==> Decoding(next, root, out, left, m, v, rest, goal)
  {
    hide Standing, Feed, FeedAll, Content;
    FeedStep(Content(m), w, bit, rest);
    crashed, next, left := TakeBit(p, root, out, bit, dataCount, m, w);
    v := Feed(Content(m), w, bit);
  }

  /** The inner loop: the bits of one byte, until the data is complete. */
  method DecodeByte(p: HNode, root: HNode, out: File, byte: Byte, dataCount: nat,
                    ghost m: PathMap, ghost w: Walk, ghost bytes: seq<Byte>, ghost goal: Walk)
    returns (crashed: bool, next: HNode, left: nat, ghost v: Walk)
    requires Decoding(p, root, out, dataCount, m, w, Remaining(byte, 0, bytes), goal)
    modifies out`data
    ensures crashed ==> goal.crashed
    ensures !crashed && left > 0 ==> Decoding(next, root, out, left, m, v, Unpack(bytes), goal)
    ensures !crashed && left == 0 ==> goal == v && out.data == v.text && !v.crashed
  {
    hide *;
    crashed, next, left, v := false, p, dataCount, w;
    var mask: bv8 := 1;
    ghost var j: nat := 0;
    FirstMask();
    while left > 0 && mask != 0
      invariant j <= 8 && mask == if j < 8 then Mask(j) else 0
      invariant !crashed && Decoding(next, root, out, left, m, v, Remaining(byte, j, bytes), goal)
      decreases 8 - j
    {
      RemainingStep(byte, j, bytes);
      MaskShift(j);
      crashed, next, left, v :=
        DecodeBit(next, root, out, byte.v & mask != 0, left, m, v, Remaining(byte, j + 1, bytes), goal);
      if crashed {
        return;
      }
      mask := mask << 1;
      j := j + 1;
    }
    NoMask(j);
    if left > 0 {
      RemainingEnds(byte, bytes);
    } else {
      AllDecoded(next, root, out, m, v, Remaining(byte, j, bytes), goal);
    }
  }

  lemma FirstMask()
    ensures Mask(0) == 1
  {
  }

  lemma NoMask(j: nat)
    ensures j < 8 ==> Mask(j) != 0
  {
  }

  lemma AllDecoded(p: HNode, root: HNode, out: File, m: PathMap, w: Walk, bits: Bits, goal: Walk)
    requires Decoding(p, root, out, 0, m, w, bits, goal)
    ensures goal == w && out.data == w.text && !w.crashed
  {
    FeedNothing(Content(m), w, bits);
  }

  lemma {:induction false} StartDecoding(root: HNode, out: File, m: PathMap, dataCount: nat, bits: Bits)
    requires NodeOf(root, root, m, []) && !root.leaf && out.data == []
    ensures Decoding(root, root, out, dataCount, m, Walk([], [], dataCount, false), bits,
                     FeedAll(Content(m), Walk([], [], dataCount, false), bits))
  {
    hide IsTrie, Content, FeedAll;
  }

  lemma NoMoreBytes(p: HNode, root: HNode, out: File, dataCount: nat, m: PathMap, w: Walk, bytes: seq<Byte>, goal: Walk)
    requires Decoding(p, root, out, dataCount, m, w, Unpack(bytes), goal) && bytes == []
    ensures goal == w && out.data == w.text && !w.crashed
  {
    assert Unpack(bytes) == [];
  }

  /** Walks through the trie with the rest of the file, until the data is complete or the file ends. */
  method DecodeData(input: File, out: File, root: HNode, dataCount: nat, ghost m: PathMap, ghost goal: Walk)
    returns (crashed: bool)
    requires input.Valid() && input != out && out.data == []
    requires NodeOf(root, root, m, []) && !root.leaf
    requires goal == FeedAll(Content(m), Walk([], [], dataCount, false), Unpack(Left(input)))
    modifies input`pos, out`data
    ensures crashed == goal.crashed && (!crashed ==> out.data == goal.text)
  {
    hide *;
    ghost var w := Walk([], [], dataCount, false);
    StartDecoding(root, out, m, dataCount, Unpack(Left(input)));
    var p, left := root, dataCount;
    while left > 0
      invariant input.Valid() && Decoding(p, root, out, left, m, w, Unpack(Left(input)), goal)
      decreases |Left(input)|
    {
      ghost var bytes := Left(input);
      var c := GetByte(input);
      if c == None {
        NoMoreBytes(p, root, out, left, m, w, bytes, goal);
        return false;
      }
      NextByte(bytes);
      crashed, p, left, w := DecodeByte(p, root, out, c.value, left, m, w, bytes[1..], goal);
      if crashed || left == 0 {
        return;
      }
    }
    AllDecoded(p, root, out, m, w, Unpack(Left(input)), goal);
    crashed := false;
  }

  /** fgetc */
  method GetByte(input: File) returns (c: Option<Byte>)
    requires input.Valid()
    modifies input`pos
    ensures input.Valid()
    ensures c == if old(Left(input)) == [] then None else Some(old(Left(input))[0])
    ensures c != None ==> Left(input) == old(Left(input))[1..]
  {
    c := input.Getc();
  }

  // huffman_decode_file, writing to a new file. The result None stands for a step through a null pointer
  // or through the children of a leaf, the others are the return codes.
  method DecodeFile(input: File, out: File) returns (rc: Option<int>)
    requires input.Valid() && input.pos == 0 && input != out && out.data == []
    modifies input`pos, out`data
    ensures match DecodeBytes(input.data)
      case BadTable => rc == Some(1) && out.data == []
      case Crash => rc == None
      case Text(text) => rc == Some(0) && out.data == text
  {
    hide ReadEntries, Content, Host32, FeedAll, NodeOf;
    var status, root, dataCount, m := ReadCodeTable(input);
    match status
    case Eof =>
      rc := Some(1);
    case Undefined =>
      rc := None;
    case Fine =>
      ghost var goal := FeedAll(Content(m), Walk([], [], dataCount, false), Unpack(Left(input)));
      var crashed := DecodeData(input, out, root, dataCount, m, goal);
      rc := if crashed then None else Some(0);
  }
}
