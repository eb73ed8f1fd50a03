// The encoder's tree of heap nodes (coursedesign/zip/program/huffman.c): nodes are linked upwards by
// `parent` and downwards by `zero` and `one`. A ghost map from paths to nodes describes a whole tree.
module HuffmanTree {
  import opened BitBytes
  import opened MergeTree
  import opened HuffmanCode

  class HNode {
    var leaf: bool
    var count: nat
    var parent: HNode?
    var zero: HNode?
    var one: HNode?
    var symbol: Byte

    constructor NewLeaf(symbol: Byte)
      ensures leaf && this.symbol == symbol && count == 0 && parent == null
      ensures zero == null && one == null
    {
      this.leaf, this.symbol, this.count, this.parent := true, symbol, 0, null;
      this.zero, this.one := null, null;
    }

    constructor NewNode(count: nat, zero: HNode?, one: HNode?)
      ensures !leaf && this.count == count && this.zero == zero && this.one == one && parent == null
    {
      this.leaf, this.count, this.zero, this.one, this.parent := false, count, zero, one, null;
      this.symbol := ZERO;
    }
  }

  type PathMap = map<Bits, HNode>

  ghost predicate Holds(x: HNode, t: CodeTree)
    reads x`leaf, x`count, x`symbol
  {
    match t
    case Leaf(s, w) => x.leaf && x.symbol == s && x.count == w
    case Node(_, _) => !x.leaf && x.count == Weight(t)
  }

  /** The node at q is the child, on the side of its last bit, of the node one step above. */
  ghost predicate DownLink(m: PathMap, q: Bits)
    requires q in m && q != []
    reads m.Values`zero, m.Values`one
  {
    var up := q[..|q| - 1];
    up in m && (if q[|q| - 1] then m[up].one else m[up].zero) == m[q]
  }

  ghost predicate UpLink(m: PathMap, q: Bits)
    requires q in m && q != []
    reads m.Values`parent
  {
    var up := q[..|q| - 1];
    up in m && m[q].parent == m[up]
  }

  /** The nodes of m, reached downwards from m[[]], have exactly the shape of t. */
  ghost predicate Down(m: PathMap, t: CodeTree)
    reads m.Values`leaf, m.Values`count, m.Values`symbol, m.Values`zero, m.Values`one
  {
    && (forall p :: p in m <==> IsPath(t, p))
    && (forall p, q :: p in m && q in m && m[p] == m[q] ==> p == q)
    && (forall p :: p in m ==> Holds(m[p], At(t, p)))
    && (forall q :: q in m && q != [] ==> DownLink(m, q))
  }

  ghost predicate Up(m: PathMap)
    reads m.Values`parent
  {
    forall q :: q in m && q != [] ==> UpLink(m, q)
  }

  ghost predicate Shapes(m: PathMap, t: CodeTree)
    reads m.Values
  {
    Down(m, t) && Up(m)
  }

  // ---- codes ----

  /** A code: its length in bits and the bytes that hold them. */
  datatype Code = Code(len: nat, bits: seq<Byte>)

  datatype Option<T> = None | Some(value: T)

  function MakeCode(p: Bits): Code {
    Code(|p|, Pack(p))
  }

  function Reverse(bs: Bits): (r: Bits)
    ensures |r| == |bs| && forall k :: 0 <= k < |r| ==> r[k] == bs[|bs| - 1 - k]
  {
    seq(|bs|, k requires 0 <= k < |bs| => bs[|bs| - 1 - k])
  }

  function GetBit(bits: seq<Byte>, i: nat): (r: Byte)
    requires i < 8 * |bits|
  {
    Byte((bits[i / 8].v >> (i % 8)) & 1)
  }

  lemma GetBitIsBit(bits: seq<Byte>, i: nat)
    requires i < 8 * |bits|
    ensures GetBit(bits, i) == BitValue(Unpack(bits)[i])
  {
    hide BitOf, BitValue;
    ShiftDown(bits[i / 8], i % 8);
  }

  /** Packing one more bit opens a new byte or completes the last one. */
  lemma PackAppend(bs: Bits, b: bool)
    ensures |bs| % 8 == 0 ==> Pack(bs + [b]) == Pack(bs) + [BitValue(b)]
    ensures |bs| % 8 != 0 ==> |Pack(bs)| == |bs| / 8 + 1
    ensures |bs| % 8 != 0 ==>
      Pack(bs + [b]) == Pack(bs)[|bs| / 8 := OrShifted(Pack(bs)[|bs| / 8], BitValue(b), |bs| % 8)]
  {
    hide FullBytes, Rest, BitValue, ByteOf, OrShifted;
    PackBit(bs, b);
    var v := ByteOf(Rest(bs) + [b]);
    assert Pack(bs + [b]) == FullBytes(bs) + [v];
    if |bs| % 8 == 0 {
      EmptyByte(Rest(bs), b);
    }
  }

  lemma {:induction false} EmptyByte(bs: Bits, b: bool)
    requires bs == []
    ensures OrShifted(ByteOf(bs), BitValue(b), 0) == BitValue(b)
  {
  }

  lemma OrZero(x: Byte, i: nat)
    requires i < 8
    ensures OrShifted(x, BitValue(false), i) == x
  {
    ShiftIsMask(i);
    OrThenAnd(x.v, 0, 0);
  }

  lemma FirstBit(b: bool)
    ensures OrShifted(ZERO, BitValue(b), 0) == BitValue(b)
  {
  }

  lemma ByteLengthStep(n: nat)
    ensures ByteLength(n) <= ByteLength(n + 1)
    ensures n % 8 == 0 ==> ByteLength(n) == n / 8 && ByteLength(n + 1) == n / 8 + 1
    ensures n % 8 != 0 ==> ByteLength(n) == n / 8 + 1 && ByteLength(n + 1) == n / 8 + 1
  {
  }

  lemma {:induction false} ByteLengthMonotone(a: nat, b: nat)
    requires a <= b
    ensures ByteLength(a) <= ByteLength(b)
    decreases b - a
  {
    if a < b {
      ByteLengthStep(a);
      ByteLengthMonotone(a + 1, b);
    }
  }

  lemma ReverseStep(bs: Bits, k: nat)
    requires k < |bs|
    ensures Reverse(bs)[..k + 1] == Reverse(bs)[..k] + [bs[|bs| - 1 - k]]
  {
  }

  /** buf starts with the packed bits bs and is zero after them. */
  ghost predicate Starts(buf: seq<Byte>, bs: Bits) {
    ByteLength(|bs|) <= |buf| && buf[..ByteLength(|bs|)] == Pack(bs) &&
    forall k :: ByteLength(|bs|) <= k < |buf| ==> buf[k] == ZERO
  }

  lemma StartsStep(buf: seq<Byte>, bs: Bits, b: bool)
    requires Starts(buf, bs) && ByteLength(|bs| + 1) <= |buf|
    ensures |bs| / 8 < |buf|
    ensures Starts(buf[|bs| / 8 := OrShifted(buf[|bs| / 8], BitValue(b), |bs| % 8)], bs + [b])
  {
    hide Pack, BitValue, ByteLength, OrShifted;
    var n := |bs|;
    ByteLengthStep(n);
    PackAppend(bs, b);
    FirstBit(b);
    var x := OrShifted(buf[n / 8], BitValue(b), n % 8);
    var r := buf[n / 8 := x];
    var before := buf[..ByteLength(n)];
    if n % 8 == 0 {
      assert r[..ByteLength(n + 1)] == before + [x];
    } else {
      assert r[..ByteLength(n + 1)] == before[n / 8 := x];
    }
  }

  /** The byte that holds the last of n bits. */
  function LastByte(n: nat): nat {
    if n == 0 then 0 else (n - 1) / 8
  }

  lemma LastByteStep(n: nat)
    ensures LastByte(n) + (if n > 0 && n % 8 == 0 then 1 else 0) == n / 8 == LastByte(n + 1)
  {
  }

  /** The first n bits, in reverse order, of the len bits in bytes. */
  function LastBits(bytes: seq<Byte>, len: nat, n: nat): (r: Bits)
    requires n <= len <= 8 * |bytes|
    ensures |r| == n
  {
    Reverse(Unpack(bytes)[..len])[..n]
  }

  lemma ReverseOneBit(bytes: seq<Byte>, len: nat, n: nat, buf: seq<Byte>)
    requires n < len && ByteLength(len) == |bytes| == |buf| && len <= 8 * |bytes| && Starts(buf, LastBits(bytes, len, n))
    ensures n / 8 < |buf|
    ensures Starts(buf[n / 8 := OrShifted(buf[n / 8], GetBit(bytes, len - n - 1), n % 8)], LastBits(bytes, len, n + 1))
  {
    hide Starts, ByteLength, GetBit, OrShifted, Unpack;
    ByteLengthMonotone(n + 1, len);
    var src := Unpack(bytes)[..len];
    GetBitIsBit(bytes, len - n - 1);
    ReverseStep(src, n);
    StartsStep(buf, Reverse(src)[..n], src[len - n - 1]);
  }

  /** Reverses the first len bits in place, through a zeroed copy. */
  method ReverseBits(bits: array<Byte>, len: nat)
    requires bits.Length == ByteLength(len)
    modifies bits
    ensures bits[..] == Pack(Reverse(Unpack(old(bits[..]))[..len]))
  {
    ghost var bytes := bits[..];
    var tmp := ZeroedBytes(bits.Length);
    var cByte := 0;
    PackedNothing(LastBits(bytes, len, 0));
    assert Starts(tmp[..], LastBits(bytes, len, 0)) && LastByte(0) == 0;
    hide *;
    for cBit := 0 to len
      invariant cByte == LastByte(cBit)
      invariant bits[..] == bytes && tmp.Length == bits.Length && Starts(tmp[..], LastBits(bytes, len, cBit))
    {
      cByte := CopyBit(bits, tmp, cByte, cBit, len);
    }
    AllReversed(bytes, len, tmp[..]);
    CopyBytes(bits, tmp);
  }

  /** One turn of the reversing loop: bit len - cBit - 1 of bits becomes bit cBit of tmp. */
  method CopyBit(bits: array<Byte>, tmp: array<Byte>, cByte: nat, cBit: nat, len: nat) returns (r: nat)
    requires cBit < len <= 8 * bits.Length && bits.Length == ByteLength(len) == tmp.Length && bits != tmp
    requires cByte == LastByte(cBit) && Starts(tmp[..], LastBits(bits[..], len, cBit))
    modifies tmp
    ensures r == LastByte(cBit + 1) && Starts(tmp[..], LastBits(bits[..], len, cBit + 1))
  {
    hide Starts, LastBits, LastByte, ByteLength, GetBit;
    ReverseOneBit(bits[..], len, cBit, tmp[..]);
    LastByteStep(cBit);
    r := cByte;
    if cBit > 0 && cBit % 8 == 0 {
      r := r + 1;
    }
    OrInto(tmp, r, GetBit(bits[..], len - cBit - 1), cBit % 8);
  }

  lemma AllReversed(bytes: seq<Byte>, len: nat, buf: seq<Byte>)
    requires |buf| == ByteLength(len) && len <= 8 * |bytes| && Starts(buf, LastBits(bytes, len, len))
    ensures buf == Pack(Reverse(Unpack(bytes)[..len]))
  {
    hide Pack, Unpack;
    assert buf == Pack(LastBits(bytes, len, len));
    assert LastBits(bytes, len, len) == Reverse(Unpack(bytes)[..len]);
  }

  /** alloca and memset to zero */
  method ZeroedBytes(n: nat) returns (r: array<Byte>)
    ensures fresh(r) && r.Length == n && forall k :: 0 <= k < n ==> r[k] == ZERO
  {
    r := new Byte[n](_ => ZERO);
  }

  /** buf[i] |= bit << bitPos */
  method OrInto(buf: array<Byte>, i: nat, bit: Byte, bitPos: nat)
    requires i < buf.Length && bitPos < 8
    modifies buf
    ensures buf[..] == old(buf[..])[i := OrShifted(old(buf[i]), bit, bitPos)]
  {
    buf[i] := OrShifted(buf[i], bit, bitPos);
  }

  /** memcpy of the whole array */
  method CopyBytes(dst: array<Byte>, src: array<Byte>)
    requires dst.Length == src.Length && dst != src
    modifies dst
    ensures dst[..] == src[..]
  {
    forall k | 0 <= k < src.Length {
      dst[k] := src[k];
    }
  }

  lemma PackedNothing(bs: Bits)
    requires bs == []
    ensures Pack(bs) == []
  {
  }

  /** The bits collected after climbing n steps from the end of the path p. */
  function Climbed(p: Bits, n: nat): (r: Bits)
    requires n <= |p|
    ensures |r| == n
  {
    Reverse(p)[..n]
  }

  function Collected(bits: seq<Byte>, n: nat, one: bool): seq<Byte>
    requires |bits| == ByteLength(n)
  {
    ByteLengthStep(n);
    var more := if n % 8 == 0 then bits + [ZERO] else bits;
    if one then more[n / 8 := OrShifted(more[n / 8], ONE, n % 8)] else more
  }

  /** Collecting one more bit: a zero byte is added when none is open, and a one is put in. */
  lemma ClimbStep(p: Bits, n: nat, bits: seq<Byte>)
    requires n < |p| && bits == Pack(Climbed(p, n))
    ensures |bits| == ByteLength(n)
    ensures Collected(bits, n, p[|p| - 1 - n]) == Pack(Climbed(p, n + 1))
  {
    hide Pack, OrShifted, Reverse;
    var b := p[|p| - 1 - n];
    ReverseStep(p, n);
    PackAppend(Climbed(p, n), b);
    var more := if n % 8 == 0 then bits + [ZERO] else bits;
    FirstBit(b);
    OrZero(more[n / 8], n % 8);
  }

  lemma AllClimbed(p: Bits, bits: seq<Byte>)
    requires bits == Pack(Climbed(p, |p|))
    ensures Pack(Reverse(Unpack(bits)[..|p|])) == Pack(p) && |bits| == ByteLength(|p|)
  {
    hide Pack, Unpack;
    PackedBits(Reverse(p));
    assert Climbed(p, |p|) == Reverse(p);
    assert Unpack(bits)[..|p|] == Reverse(p);
    assert Reverse(Reverse(p)) == p;
  }

  /** x is the node at the path q of a tree whose root has no parent. */
  ghost predicate OnPath(x: HNode, m: PathMap, t: CodeTree, q: Bits)
    reads m.Values
  {
    Shapes(m, t) && [] in m && m[[]].parent == null && q in m && m[q] == x
  }

  lemma StepUp(x: HNode, m: PathMap, t: CodeTree, q: Bits)
    requires OnPath(x, m, t, q)
    ensures (x.parent == null) == (q == [])
    ensures q != [] ==>
      OnPath(x.parent, m, t, q[..|q| - 1]) && x.parent in m.Values && ((x == x.parent.one) == q[|q| - 1])
  {
    assert q != [] ==> UpLink(m, q);
    if q != [] {
      OnlyOneIsOne(m, t, q);
    }
  }

  /** The code of a leaf, read off by climbing to the root. */
  method NewCode(start: HNode, ghost m: PathMap, ghost t: CodeTree, ghost p: Bits) returns (c: Code)
    requires OnPath(start, m, t, p)
    ensures c == MakeCode(p)
  {
    hide *;
    PackedNothing(Climbed(p, 0));
    var len, bits := 0, new Byte[0];
    ghost var q := p;
    var leaf: HNode? := start;
    StepUp(leaf, m, t, q);
    while leaf != null && leaf.parent != null
      invariant leaf != null && OnPath(leaf, m, t, q) && (leaf.parent == null) == (q == [])
      invariant len + |q| == |p| && q <= p
      invariant fresh(bits) && bits[..] == Pack(Climbed(p, len))
      decreases |q|
    {
      StepUp(leaf, m, t, q);
      ClimbStep(p, len, bits[..]);
      var parent := leaf.parent;
      bits := CollectBit(bits, len, leaf == parent.one);
      len := len + 1;
      leaf := parent;
      q := q[..|q| - 1];
      StepUp(leaf, m, t, q);
    }
    c := FinishCode(bits, len, p);
  }

  /** Turns the collected bits round and makes the code of them. */
  method FinishCode(bits: array<Byte>, len: nat, ghost p: Bits) returns (c: Code)
    requires len == |p| && bits[..] == Pack(Climbed(p, len))
    modifies bits
    ensures c == MakeCode(p)
  {
    hide Pack, Climbed, Reverse, Unpack;
    AllClimbed(p, bits[..]);
    if bits.Length > 0 {
      ReverseBits(bits, len);
    } else {
      assert len == 0 && p == [];
      PackedNothing(p);
    }
    c := Code(len, bits[..]);
  }

  /** Adds a zero byte when none is open, and puts a one in if there is one. */
  method CollectBit(bits: array<Byte>, len: nat, one: bool) returns (r: array<Byte>)
    requires bits.Length == ByteLength(len)
    modifies bits
    ensures r == bits || fresh(r)
    ensures r[..] == Collected(old(bits[..]), len, one)
  {
    hide OrShifted;
    ByteLengthStep(len);
    var cBit := len % 8;
    var cByte := len / 8;
    r := bits;
    if cBit == 0 {
      r := Enlarge(bits);
    }
    if one {
      OrInto(r, cByte, ONE, cBit);
    }
  }

  /** realloc by one byte, which is then set to zero. */
  method Enlarge(bits: array<Byte>) returns (r: array<Byte>)
    ensures fresh(r) && r[..] == bits[..] + [ZERO]
  {
    r := ZeroedBytes(bits.Length + 1);
    forall k | 0 <= k < bits.Length {
      r[k] := bits[k];
    }
  }

  lemma OnlyOneIsOne(m: PathMap, t: CodeTree, q: Bits)
    requires Shapes(m, t) && q in m && q != []
    ensures q[..|q| - 1] in m && m[q].parent == m[q[..|q| - 1]] && ((m[q] == m[q].parent.one) == q[|q| - 1])
  {
    assert DownLink(m, q) && UpLink(m, q);
    var up := q[..|q| - 1];
    if !q[|q| - 1] {
      assert q == up + [false];
      PathStep(t, up, false);
      PathStep(t, up, true);
      var r := up + [true];
      assert r in m && DownLink(m, r) && r[..|r| - 1] == up;
      assert m[r] == m[up].one;
      assert r[|r| - 1] != q[|q| - 1];
    }
  }
}
