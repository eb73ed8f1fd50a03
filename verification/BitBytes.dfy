/** Bytes and the bits in them, least significant bit first as huffman.c packs them. */
module BitBytes {

  type Bits = seq<bool>

  datatype Byte = Byte(v: bv8)

  const ZERO: Byte := Byte(0)
  const ONE: Byte := Byte(1)

  function BitValue(b: bool): Byte {
    if b then ONE else ZERO
  }

  /** Bit i of a byte, counted from the least significant one. */
  function BitOf(byte: Byte, i: nat): bool
    requires i < 8
  {
    byte.v & Mask(i) != 0
  }

  /** The byte in which only bit i is set. */
  function Mask(i: nat): bv8
    requires i < 8
  {
    if i == 0 then 1 else if i == 1 then 2 else if i == 2 then 4 else if i == 3 then 8
    else if i == 4 then 16 else if i == 5 then 32 else if i == 6 then 64 else 128
  }

  lemma ShiftIsMask(i: nat)
    requires i < 8
    ensures (1 as bv8) << i == Mask(i) && (0 as bv8) << i == 0
  {
    if i == 0 {} else if i == 1 {} else if i == 2 {} else if i == 3 {}
    else if i == 4 {} else if i == 5 {} else if i == 6 {} else {}
  }

  /** Shifting bit i down to the bottom and masking it there. */
  lemma ShiftDown(byte: Byte, i: nat)
    requires i < 8
    ensures Byte((byte.v >> i) & 1) == BitValue(BitOf(byte, i))
  {
    if i == 0 {} else if i == 1 {} else if i == 2 {} else if i == 3 {}
    else if i == 4 {} else if i == 5 {} else if i == 6 {} else {}
  }

  /** byte |= bit << i */
  function OrShifted(byte: Byte, bit: Byte, i: nat): Byte
    requires i < 8
  {
    Byte(byte.v | (bit.v << i))
  }

  /** The byte whose bits, from the least significant one, are bs, and zero above them. */
  function ByteOf(bs: Bits): Byte
    requires |bs| <= 8
  {
    if bs == [] then ZERO else OrShifted(ByteOf(bs[..|bs| - 1]), BitValue(bs[|bs| - 1]), |bs| - 1)
  }

  lemma PutBit(byte: Byte, i: nat, v: bool, j: nat)
    requires i < 8 && j < 8
    ensures BitOf(OrShifted(byte, BitValue(v), i), j) == (BitOf(byte, j) || (i == j && v))
  {
    ShiftIsMask(i);
    MasksApart(i, j);
    var m := if v then Mask(i) else 0;
    assert OrShifted(byte, BitValue(v), i) == Byte(byte.v | m);
    OrThenAnd(byte.v, m, Mask(j));
  }

  lemma MasksApart(i: nat, j: nat)
    requires i < 8 && j < 8
    ensures Mask(i) & Mask(j) == if i == j then Mask(i) else 0
    ensures Mask(i) != 0
  {
  }

  lemma OrThenAnd(x: bv8, m: bv8, k: bv8)
    ensures (x | m) & k == (x & k) | (m & k)
    ensures x & 0 == 0 && 0 & x == 0 && x | 0 == x
  {
  }

  lemma ZeroByte(j: nat)
    requires j < 8
    ensures !BitOf(ZERO, j)
  {
  }

  lemma {:induction false} ByteOfBits(bs: Bits, j: nat)
    requires |bs| <= 8 && j < 8
    ensures BitOf(ByteOf(bs), j) == (j < |bs| && bs[j])
  {
    if bs == [] {
      ZeroByte(j);
    } else {
      var n := |bs| - 1;
      hide OrShifted, BitOf;
      ByteOfBits(bs[..n], j);
      PutBit(ByteOf(bs[..n]), n, bs[n], j);
    }
  }

  /** Shifting a mask out of the byte leaves zero. */
  lemma MaskShift(j: nat)
    requires j < 8
    ensures Mask(j) << 1 == if j == 7 then 0 else Mask(j + 1)
  {
  }

  // ---- bytes as numbers ----

  /** The number whose binary digits, least significant first, are bs. */
  function Value(bs: Bits): (n: nat) {
    if bs == [] then 0 else (if bs[0] then 1 else 0) + 2 * Value(bs[1..])
  }

  /** The k lowest binary digits of n. */
  function Digits(n: nat, k: nat): (bs: Bits)
    ensures |bs| == k
  {
    if k == 0 then [] else [n % 2 == 1] + Digits(n / 2, k - 1)
  }

  function Power(k: nat): (r: nat)
    ensures r >= 1
  {
    if k == 0 then 1 else 2 * Power(k - 1)
  }

  lemma {:induction false} DigitsOfValue(bs: Bits)
    ensures Digits(Value(bs), |bs|) == bs && Value(bs) < Power(|bs|)
  {
    if bs != [] {
      DigitsOfValue(bs[1..]);
      assert bs == [bs[0]] + bs[1..];
    }
  }

  lemma {:induction false} ValueOfDigits(n: nat, k: nat)
    requires n < Power(k)
    ensures Value(Digits(n, k)) == n
  {
    if k > 0 {
      ValueOfDigits(n / 2, k - 1);
      assert Digits(n, k)[1..] == Digits(n / 2, k - 1);
    }
  }

  function BitsOf(b: Byte): (bs: Bits)
    ensures |bs| == 8
  {
    seq(8, i requires 0 <= i < 8 => BitOf(b, i))
  }

  lemma SameBits(b: Byte, c: Byte)
    requires BitsOf(b) == BitsOf(c)
    ensures b == c
  {
    assert BitsOf(b)[0] == BitsOf(c)[0] && BitsOf(b)[1] == BitsOf(c)[1];
    assert BitsOf(b)[2] == BitsOf(c)[2] && BitsOf(b)[3] == BitsOf(c)[3];
    assert BitsOf(b)[4] == BitsOf(c)[4] && BitsOf(b)[5] == BitsOf(c)[5];
    assert BitsOf(b)[6] == BitsOf(c)[6] && BitsOf(b)[7] == BitsOf(c)[7];
    BytesEqual(b.v, c.v);
  }

  lemma BytesEqual(x: bv8, y: bv8)
    requires (x & 1 == 0) == (y & 1 == 0) && (x & 2 == 0) == (y & 2 == 0)
    requires (x & 4 == 0) == (y & 4 == 0) && (x & 8 == 0) == (y & 8 == 0)
    requires (x & 16 == 0) == (y & 16 == 0) && (x & 32 == 0) == (y & 32 == 0)
    requires (x & 64 == 0) == (y & 64 == 0) && (x & 128 == 0) == (y & 128 == 0)
    ensures x == y
  {
  }

  /** A byte as an array index. */
  function Index(b: Byte): (i: nat)
    ensures i < 256
  {
    DigitsOfValue(BitsOf(b));
    assert Power(8) == 256 by { Power8(); }
    Value(BitsOf(b))
  }

  lemma Power8()
    ensures Power(8) == 256
  {
    assert Power(4) == 16;
    assert Power(6) == 64;
  }

  function ByteFrom(n: nat): Byte
    requires n < 256
  {
    ByteOf(Digits(n, 8))
  }

  lemma {:induction false} BitsOfByte(bs: Bits)
    requires |bs| == 8
    ensures BitsOf(ByteOf(bs)) == bs
  {
    hide ByteOf, BitOf;
    forall i | 0 <= i < 8 ensures BitsOf(ByteOf(bs))[i] == bs[i] {
      ByteOfBits(bs, i);
    }
  }

  lemma NumberOfByte(n: nat)
    requires n < 256
    ensures Index(ByteFrom(n)) == n
  {
    hide ByteOf, BitOf, Digits, Value, BitsOf, Power;
    BitsOfByte(Digits(n, 8));
    Power8();
    ValueOfDigits(n, 8);
  }

  lemma IndexIsUnique(s: Byte, u: Byte)
    ensures Index(s) == Index(u) ==> s == u
  {
    hide ByteOf, BitOf, Digits, Value, BitsOf, Power;
    DigitsOfValue(BitsOf(s));
    DigitsOfValue(BitsOf(u));
    if Index(s) == Index(u) {
      SameBits(s, u);
    }
  }

  /** A byte without its i lowest bits. */
  function Upper(v: bv8, i: nat): bv8 {
    if i == 0 then v else if i == 1 then v >> 1 else if i == 2 then v >> 2 else if i == 3 then v >> 3
    else if i == 4 then v >> 4 else if i == 5 then v >> 5 else if i == 6 then v >> 6 else if i == 7 then v >> 7 else 0
  }

  lemma UpperHalf(v: bv8, i: nat)
    requires i < 8
    ensures Upper(v, i + 1) == Upper(v, i) >> 1
  {
    if i == 0 {} else if i == 1 {} else if i == 2 {} else if i == 3 {}
    else if i == 4 {} else if i == 5 {} else if i == 6 {} else {}
  }

  lemma UpperLowest(v: bv8, i: nat)
    requires i < 8
    ensures (Upper(v, i) & 1 != 0) == (v & Mask(i) != 0)
  {
    if i == 0 {} else if i == 1 {} else if i == 2 {} else if i == 3 {}
    else if i == 4 {} else if i == 5 {} else if i == 6 {} else {}
  }

  lemma UpperEnds(v: bv8)
    ensures Upper(v, 8) as nat == 0 && Upper(v, 0) == v
  {
  }

  lemma Halved(v: bv8)
    ensures v as nat == 2 * ((v >> 1) as nat) + if v & 1 != 0 then 1 else 0
  {
  }

  lemma {:induction false} UpperValue(b: Byte, i: nat)
    requires i <= 8
    ensures Value(BitsOf(b)[i..]) == Upper(b.v, i) as nat
    decreases 8 - i
  {
    hide Mask, Upper;
    if i < 8 {
      UpperValue(b, i + 1);
      UpperHalf(b.v, i);
      UpperLowest(b.v, i);
      Halved(Upper(b.v, i));
      var bs := BitsOf(b)[i..];
      assert bs[0] == BitOf(b, i) && bs[1..] == BitsOf(b)[i + 1..];
    } else {
      UpperEnds(b.v);
    }
  }

  /** The index of a byte is its value, so that its bits are counted from the least significant one. */
  lemma {:induction false} IndexIsNumber(b: Byte)
    ensures Index(b) == b.v as nat
  {
    hide Upper;
    UpperValue(b, 0);
    UpperEnds(b.v);
    assert BitsOf(b)[0..] == BitsOf(b);
  }

  // ---- htonl and ntohl ----

  const TWO32 := 0x1_0000_0000

  /** A 32-bit number in network byte order. */
  function Net32(n: nat): (r: seq<Byte>)
    requires n < TWO32
    ensures |r| == 4
  {
    [ByteFrom(n / 256 / 256 / 256), ByteFrom(n / 256 / 256 % 256), ByteFrom(n / 256 % 256), ByteFrom(n % 256)]
  }

  function Host32(bytes: seq<Byte>): (n: nat)
    requires |bytes| == 4
    ensures n < TWO32
  {
    ((Index(bytes[0]) * 256 + Index(bytes[1])) * 256 + Index(bytes[2])) * 256 + Index(bytes[3])
  }

  lemma {:induction false} NetHost(n: nat)
    requires n < TWO32
    ensures Host32(Net32(n)) == n
  {
    hide ByteFrom, Index;
    NumberOfByte(n / 256 / 256 / 256);
    NumberOfByte(n / 256 / 256 % 256);
    NumberOfByte(n / 256 % 256);
    NumberOfByte(n % 256);
  }

  // ---- bit strings in byte strings ----

  /** How many bytes hold len bits. */
  function ByteLength(len: nat): nat {
    len / 8 + if len % 8 != 0 then 1 else 0
  }

  /** The bits of a byte string, byte after byte. */
  function Unpack(bytes: seq<Byte>): (r: Bits)
    ensures |r| == 8 * |bytes|
  {
    seq(8 * |bytes|, k requires 0 <= k < 8 * |bytes| => BitOf(bytes[k / 8], k % 8))
  }

  /** The bytes that are completely filled by bs. */
  function FullBytes(bs: Bits): (r: seq<Byte>)
    ensures |r| == |bs| / 8
  {
    seq(|bs| / 8, k requires 0 <= k < |bs| / 8 => ByteOf(bs[8 * k..8 * k + 8]))
  }

  function Rest(bs: Bits): (r: Bits)
    ensures |r| == |bs| % 8
  {
    bs[8 * (|bs| / 8)..]
  }

  /** bs packed into bytes, the last one padded with zeros. */
  function Pack(bs: Bits): (r: seq<Byte>)
    ensures |r| == ByteLength(|bs|)
  {
    FullBytes(bs) + if |bs| % 8 != 0 then [ByteOf(Rest(bs))] else []
  }

  /** Adding a bit to a partly filled byte. */
  lemma PackBit(bs: Bits, b: bool)
    ensures |Rest(bs)| < 8
    ensures ByteOf(Rest(bs) + [b]) == OrShifted(ByteOf(Rest(bs)), BitValue(b), |bs| % 8)
    ensures |bs| % 8 < 7 ==> FullBytes(bs + [b]) == FullBytes(bs) && Rest(bs + [b]) == Rest(bs) + [b]
    ensures |bs| % 8 == 7 ==> FullBytes(bs + [b]) == FullBytes(bs) + [ByteOf(Rest(bs) + [b])] && Rest(bs + [b]) == []
  {
    hide OrShifted, BitValue;
    var r := Rest(bs) + [b];
    assert r[..|r| - 1] == Rest(bs);
    var n := |bs| / 8;
    forall k | 0 <= k < n ensures (bs + [b])[8 * k..8 * k + 8] == bs[8 * k..8 * k + 8] {}
    if |bs| % 8 == 7 {
      assert (bs + [b])[8 * n..8 * n + 8] == r;
    }
  }

  /** Packing loses nothing. */
  lemma PackedBit(bs: Bits, k: nat)
    requires k < |bs|
    ensures Unpack(Pack(bs))[k] == bs[k]
  {
    var n := k / 8;
    if n < |bs| / 8 {
      ByteOfBits(bs[8 * n..8 * n + 8], k % 8);
    } else {
      ByteOfBits(Rest(bs), k % 8);
    }
  }

  lemma PackedBits(bs: Bits)
    ensures bs <= Unpack(Pack(bs))
  {
    forall k | 0 <= k < |bs| ensures Unpack(Pack(bs))[k] == bs[k] {
      PackedBit(bs, k);
    }
  }
}
