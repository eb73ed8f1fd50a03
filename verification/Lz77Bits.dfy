/** The bit streams of algorithms/maic/bit.c: most significant bit first. */
module Lz77Bits {
  import opened BitBytes

  /** All bits of a byte string, most significant bit first. */
  function Flat(bytes: seq<Byte>): (r: Bits)
    ensures |r| == 8 * |bytes|
  {
    seq(8 * |bytes|, k requires 0 <= k < 8 * |bytes| => BitOf(bytes[k / 8], 7 - k % 8))
  }

  lemma HalfMask(i: nat)
    requires i < 7
    ensures Mask(7 - i) >> 1 == Mask(7 - (i + 1))
  {
  }

  /** The mask of a bit position, shifted into place as the program does. */
  method MaskFor(pos: nat) returns (mask: bv8)
    ensures mask == Mask(7 - pos % 8)
  {
    mask := 0x80;
    for i := 0 to pos % 8
      invariant mask == Mask(7 - i)
    {
      HalfMask(i);
      mask := mask >> 1;
    }
  }

  lemma MaskedIsMask(x: bv8, j: nat)
    requires j < 8
    ensures (Mask(j) & x == Mask(j)) == (x & Mask(j) != 0)
  {
    if j == 0 {} else if j == 1 {} else if j == 2 {} else if j == 3 {}
    else if j == 4 {} else if j == 5 {} else if j == 6 {} else {}
  }

  /** bit_get */
  method BitGet(bits: seq<Byte>, pos: nat) returns (state: bool)
    requires pos < 8 * |bits|
    ensures state == Flat(bits)[pos]
  {
    hide Mask;
    var mask := MaskFor(pos);
    MaskedIsMask(bits[pos / 8].v, 7 - pos % 8);
    state := mask & bits[pos / 8].v == mask;
  }

  function WithBit(x: bv8, m: bv8, state: bool): bv8 {
    if state then x | m else x & !m
  }

  lemma ClearThenAnd(x: bv8, m: bv8, k: bv8)
    ensures (x & !m) & k == (x & k) & !(m & k)
  {
  }

  lemma SetOneBit(x: bv8, i: nat, j: nat, state: bool)
    requires i < 8 && j < 8
    ensures BitOf(Byte(WithBit(x, Mask(i), state)), j) == if i == j then state else BitOf(Byte(x), j)
  {
    hide Mask;
    MasksApart(i, j);
    OrThenAnd(x, Mask(i), Mask(j));
    ClearThenAnd(x, Mask(i), Mask(j));
    SameMask(x, Mask(j));
  }

  lemma SameMask(x: bv8, m: bv8)
    ensures (x & m) & !m == 0 && (x & m) & !0 == x & m && (m != 0 ==> (x & m) | m != 0)
    ensures (x & m) | 0 == x & m
  {
  }

  /** What bit_set makes of a byte string. */
  function SetBit(bits: seq<Byte>, pos: nat, state: bool): (r: seq<Byte>)
    requires pos < 8 * |bits|
    ensures |r| == |bits|
  {
    bits[pos / 8 := Byte(WithBit(bits[pos / 8].v, Mask(7 - pos % 8), state))]
  }

  /** It changes one bit. */
  lemma SetBitIsSet(bits: seq<Byte>, pos: nat, state: bool)
    requires pos < 8 * |bits|
    ensures Flat(SetBit(bits, pos, state)) == Flat(bits)[pos := state]
  {
    hide Mask, WithBit, BitOf;
    forall k | 0 <= k < 8 * |bits| ensures Flat(SetBit(bits, pos, state))[k] == Flat(bits)[pos := state][k] {
      SetOneBit(bits[pos / 8].v, 7 - pos % 8, 7 - k % 8, state);
    }
  }

  /** bit_set */
  method BitSet(bits: seq<Byte>, pos: nat, state: bool) returns (r: seq<Byte>)
    requires pos < 8 * |bits|
    ensures |r| == |bits| && Flat(r) == Flat(bits)[pos := state]
  {
    SetBitIsSet(bits, pos, state);
    hide Mask;
    var mask := MaskFor(pos);
    r := bits[pos / 8 := Byte(WithBit(bits[pos / 8].v, mask, state))];
  }

  // ---- numbers ----

  /** The k lowest binary digits of n, most significant first. */
  function Big(n: nat, k: nat): (bs: Bits)
    ensures |bs| == k
  {
    if k == 0 then [] else Big(n / 2, k - 1) + [n % 2 == 1]
  }

  /** The number that a bit string writes. */
  function BigValue(bs: Bits): nat {
    if bs == [] then 0 else BigValue(bs[..|bs| - 1]) * 2 + if bs[|bs| - 1] then 1 else 0
  }

  lemma {:induction false} BigRoundTrip(n: nat, k: nat)
    requires n < Power(k)
    ensures BigValue(Big(n, k)) == n
  {
    if k > 0 {
      BigRoundTrip(n / 2, k - 1);
      assert Big(n, k)[..k - 1] == Big(n / 2, k - 1);
    }
  }

  lemma {:induction false} BigValueAppend(a: Bits, b: Bits)
    ensures BigValue(a + b) == BigValue(a) * Power(|b|) + BigValue(b)
  {
    hide *;
    if b == [] {
      NoBits();
      assert a + b == a;
    } else {
      var n := |b| - 1;
      BigValueAppend(a, b[..n]);
      AppendOne(a, b[..n], b[n]);
      assert b == b[..n] + [b[n]];
    }
  }

  lemma NoBits()
    ensures BigValue([]) == 0 && Power(0) == 1
  {
  }

  lemma {:induction false} AppendOne(a: Bits, b: Bits, last: bool)
    requires BigValue(a + b) == BigValue(a) * Power(|b|) + BigValue(b)
    ensures BigValue(a + (b + [last])) == BigValue(a) * Power(|b| + 1) + BigValue(b + [last])
  {
    hide BigValue, Power;
    assert a + (b + [last]) == (a + b) + [last];
    LastBit(a + b, last);
    LastBit(b, last);
    PowerStep(|b|);
    Doubled(BigValue(a), Power(|b|));
  }

  lemma PowerStep(k: nat)
    ensures Power(k + 1) == 2 * Power(k)
  {
  }

  lemma {:induction false} LastBit(bs: Bits, b: bool)
    ensures BigValue(bs + [b]) == BigValue(bs) * 2 + if b then 1 else 0
  {
    assert (bs + [b])[..|bs|] == bs;
  }

  lemma Doubled(a: nat, p: nat)
    ensures a * p * 2 == a * (2 * p)
  {
  }

  lemma {:induction false} BigAppend(a: nat, b: nat, j: nat, k: nat)
    requires b < Power(k)
    ensures Big(a * Power(k) + b, j + k) == Big(a, j) + Big(b, k)
  {
    if k == 0 {
      assert Big(a, j) + [] == Big(a, j);
    } else {
      Doubled(a, Power(k - 1));
      var n := a * Power(k) + b;
      assert n == 2 * (a * Power(k - 1)) + b;
      assert n / 2 == a * Power(k - 1) + b / 2 && n % 2 == b % 2;
      BigAppend(a, b / 2, j, k - 1);
    }
  }

  // ---- bytes and numbers ----

  lemma FlatAppend(a: seq<Byte>, b: seq<Byte>)
    ensures Flat(a + b) == Flat(a) + Flat(b)
  {
    hide BitOf;
    forall k | 0 <= k < 8 * |b| ensures (8 * |a| + k) / 8 == |a| + k / 8 && (8 * |a| + k) % 8 == k % 8 {}
  }

  lemma {:induction false} BigIsReversed(n: nat, k: nat, i: nat)
    requires i < k
    ensures Big(n, k)[i] == Digits(n, k)[k - 1 - i]
  {
    if i < k - 1 {
      BigIsReversed(n / 2, k - 1, i);
    }
  }

  lemma {:induction false} ByteBits(m: nat)
    requires m < 256
    ensures Flat([ByteFrom(m)]) == Big(m, 8)
  {
    hide BitOf, ByteOf;
    forall k | 0 <= k < 8 ensures Flat([ByteFrom(m)])[k] == Big(m, 8)[k] {
      ByteOfBits(Digits(m, 8), 7 - k);
      BigIsReversed(m, 8, k);
    }
  }

  lemma ByteOfIndex(b: Byte)
    ensures ByteFrom(Index(b)) == b
  {
    hide ByteFrom, Index;
    NumberOfByte(Index(b));
    IndexIsUnique(ByteFrom(Index(b)), b);
  }

  /** The bits of a byte write its number. */
  lemma FlatByte(b: Byte)
    ensures Flat([b]) == Big(Index(b), 8) && BigValue(Flat([b])) == Index(b)
  {
    hide ByteFrom, Index, Big, Flat, Power;
    ByteOfIndex(b);
    ByteBits(Index(b));
    Power8();
    BigRoundTrip(Index(b), 8);
  }

  lemma {:induction false} Powers()
    ensures Power(5) == 32 && Power(8) == 256 && Power(12) == 4096 && Power(13) == 8192 && Power(16) == 65536
    ensures Power(24) == 0x1000000 && Power(32) == TWO32
  {
    assert Power(4) == 16;
    assert Power(8) == 256;
    assert Power(12) == 4096;
    assert Power(16) == 65536;
    assert Power(20) == 0x100000;
    assert Power(24) == 0x1000000;
    assert Power(28) == 0x10000000;
  }

  /** htonl lays the bits of a number out in order. */
  lemma {:induction false} Net32Bits(n: nat)
    requires n < TWO32
    ensures Flat(Net32(n)) == Big(n, 32)
  {
    hide ByteFrom, Big, Flat, Power;
    Powers();
    var (a, b, c, d) := (n / 256 / 256 / 256, n / 256 / 256 % 256, n / 256 % 256, n % 256);
    ByteBits(a);
    ByteBits(b);
    ByteBits(c);
    ByteBits(d);
    var (p, q, r, t) := (ByteFrom(a), ByteFrom(b), ByteFrom(c), ByteFrom(d));
    assert Net32(n) == [p] + [q] + [r] + [t];
    FlatAppend([p] + [q] + [r], [t]);
    FlatAppend([p] + [q], [r]);
    FlatAppend([p], [q]);
    BigAppend(a, b, 8, 8);
    BigAppend(a * 256 + b, c, 16, 8);
    BigAppend((a * 256 + b) * 256 + c, d, 24, 8);
  }

  lemma {:induction false} AppendByte(bits: Bits, b: Byte)
    ensures BigValue(bits + Flat([b])) == BigValue(bits) * 256 + Index(b)
  {
    hide *;
    FlatByte(b);
    Powers();
    BigValueAppend(bits, Flat([b]));
    EightBits(b);
  }

  lemma EightBits(b: Byte)
    ensures |Flat([b])| == 8
  {
  }

  lemma {:induction false} HostIs(bytes: seq<Byte>)
    requires |bytes| == 4
    ensures Host32(bytes) == ((Index(bytes[0]) * 256 + Index(bytes[1])) * 256 + Index(bytes[2])) * 256 + Index(bytes[3])
  {
    hide Index;
  }

  /** ntohl reads them. */
  lemma Host32Value(bytes: seq<Byte>)
    requires |bytes| == 4
    ensures Host32(bytes) == BigValue(Flat(bytes))
  {
    hide *;
    var (p, q, r, t) := (bytes[0], bytes[1], bytes[2], bytes[3]);
    assert bytes == [p] + [q] + [r] + [t];
    FlatAppend([p] + [q] + [r], [t]);
    FlatAppend([p] + [q], [r]);
    FlatAppend([p], [q]);
    FlatByte(p);
    AppendByte(Flat([p]), q);
    AppendByte(Flat([p]) + Flat([q]), r);
    AppendByte(Flat([p]) + Flat([q]) + Flat([r]), t);
    HostIs(bytes);
  }

  function Zeros(k: nat): (bs: Bits)
    ensures |bs| == k
  {
    seq(k, i => false)
  }

  lemma {:induction false} ZerosValue(k: nat)
    ensures BigValue(Zeros(k)) == 0
  {
    if k > 0 {
      assert Zeros(k)[..k - 1] == Zeros(k - 1);
      ZerosValue(k - 1);
    }
  }

  lemma {:induction false} LeadingZeros(k: nat, bs: Bits)
    ensures BigValue(Zeros(k) + bs) == BigValue(bs)
  {
    ZerosValue(k);
    BigValueAppend(Zeros(k), bs);
  }

  /** The bitwise or of two numbers. */
  function Or(x: nat, y: nat): nat {
    if x == 0 then y
    else if y == 0 then x
    else 2 * Or(x / 2, y / 2) + if x % 2 == 1 || y % 2 == 1 then 1 else 0
  }

  /** Or-ing a number into bits that are zero adds it. */
  lemma {:induction false} OrIsSum(a: nat, k: nat, y: nat)
    requires y < Power(k)
    ensures Or(a * Power(k), y) == a * Power(k) + y
  {
    if k > 0 && a > 0 && y > 0 {
      var h := a * Power(k - 1);
      PowerStep(k - 1);
      assert a * Power(k) == 2 * h by {
        Twice(a, Power(k - 1));
      }
      assert h > 0 && y / 2 < Power(k - 1);
      OrIsSum(a, k - 1, y / 2);
      assert (2 * h) / 2 == h && (2 * h) % 2 == 0;
    }
  }

  lemma Twice(a: nat, b: nat)
    ensures a * (2 * b) == 2 * (a * b)
    ensures a > 0 && b > 0 ==> a * b > 0
  {
  }
}
