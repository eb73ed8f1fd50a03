module Lz77Layout {
  // Where the bits of a token and of the header stand in the compressed data of algorithms/maic/lz77.c.

  import opened BitBytes
  import opened Lz77Bits
  import opened Lz77

  /** The binary digit of n with the weight 2^i. */
  predicate Digit(n: nat, i: nat) {
    n / Power(i) % 2 == 1
  }

  lemma HalfDigit(n: nat, i: nat)
    ensures Digit(n / 2, i) == Digit(n, i + 1)
  {
    DivideTwice(n, Power(i));
  }

  lemma DivideTwice(n: nat, p: nat)
    requires p > 0
    ensures n / 2 / p == n / (2 * p)
  {
    var q := n / (2 * p);
    var r := n % (2 * p);
    assert n == 2 * p * q + r;
    assert n / 2 == p * q + r / 2 && r / 2 < p;
    QuotientIs(n / 2, p, q, r / 2);
  }

  lemma QuotientIs(n: nat, p: nat, q: nat, r: nat)
    requires p > 0 && n == p * q + r && r < p
    ensures n / p == q
  {
    assert n == p * (n / p) + n % p;
    SmallMultiple(n / p - q, p, r - n % p);
  }

  lemma SmallMultiple(d: int, p: int, r: int)
    requires d * p == r && -p < r < p
    ensures d == 0
  {
  }

  lemma {:induction false} BigDigit(n: nat, k: nat, i: nat)
    requires i < k
    ensures Big(n, k)[i] == Digit(n, k - 1 - i)
  {
    hide Digit;
    if i < k - 1 {
      BigDigit(n / 2, k - 1, i);
      HalfDigit(n, k - 2 - i);
    } else {
      LowestDigit(n);
    }
  }

  lemma LowestDigit(n: nat)
    ensures Digit(n, 0) == (n % 2 == 1)
  {
  }

  lemma {:induction false} DigitsAt(n: nat, k: nat, i: nat)
    requires i < k
    ensures Digits(n, k)[i] == Digit(n, i)
  {
    hide Digit;
    if i > 0 {
      DigitsAt(n / 2, k - 1, i - 1);
      HalfDigit(n, i - 1);
    } else {
      LowestDigit(n);
    }
  }

  /** Bit k of a byte string is a digit of the number in its byte, the most significant digit first. */
  lemma {:induction false} FlatDigit(bytes: seq<Byte>, k: nat)
    requires k < 8 * |bytes|
    ensures Flat(bytes)[k] == Digit(bytes[k / 8].v as nat, 7 - k % 8)
  {
    hide BitOf, Value, Digits, Digit;
    var b := bytes[k / 8];
    IndexIsNumber(b);
    DigitsOfValue(BitsOf(b));
    DigitsAt(Index(b), 8, 7 - k % 8);
  }

  /** Bit i of a phrase: a one, twelve digits of the offset, five of the length and eight of the byte. */
  predicate PhraseBit(offset: nat, length: nat, next: nat, i: nat) {
    if i == 0 then true
    else if i < 13 then Digit(offset, 12 - i)
    else if i < 18 then Digit(length, 17 - i)
    else i < 26 && Digit(next, 25 - i)
  }

  lemma {:induction false} TokenParts(t: Token)
    ensures t.Phrase? ==>
      TokenBits(t) == [true] + Big(t.offset, 12) + Big(t.length, 5) + Big(t.next.v as nat, 8)
    ensures t.Symbol? ==> TokenBits(t) == [false] + Big(t.next.v as nat, 8)
  {
    hide Index, Big;
    IndexIsNumber(t.next);
  }

  lemma {:induction false} PhraseLayout(offset: nat, length: nat, next: nat, i: nat)
    requires i < 26
    ensures ([true] + Big(offset, 12) + Big(length, 5) + Big(next, 8))[i] == PhraseBit(offset, length, next, i)
  {
    hide Big, Digit;
    if 0 < i < 13 {
      BigDigit(offset, 12, i - 1);
    } else if 13 <= i < 18 {
      BigDigit(length, 5, i - 13);
    } else if 18 <= i {
      BigDigit(next, 8, i - 18);
    }
  }

  /** Where the fields of a token stand; a symbol is a zero and the eight digits of the byte. */
  lemma {:induction false} TokenLayout(t: Token, i: nat)
    requires i < |TokenBits(t)|
    ensures t.Phrase? ==> TokenBits(t)[i] == PhraseBit(t.offset, t.length, t.next.v as nat, i)
    ensures t.Symbol? ==> TokenBits(t)[i] == (i > 0 && Digit(t.next.v as nat, 8 - i))
  {
    hide *;
    TokenParts(t);
    if t.Phrase? {
      LengthOfToken(t);
      PhraseLayout(t.offset, t.length, t.next.v as nat, i);
    } else if i > 0 {
      BigDigit(t.next.v as nat, 8, i - 1);
    }
  }

  lemma LengthOfToken(t: Token)
    ensures |TokenBits(t)| == if t.Phrase? then 26 else 9
  {
  }

  lemma {:induction false} ByteNumber(n: nat)
    requires n < 256
    ensures ByteFrom(n).v as nat == n
  {
    hide ByteFrom, Index;
    NumberOfByte(n);
    IndexIsNumber(ByteFrom(n));
  }

  lemma {:induction false} HeaderParts(n: nat)
    requires n < TWO32
    ensures n / 256 / 256 / 256 < 256
    ensures HostBytes(n) ==
      [ByteFrom(n % 256), ByteFrom(n / 256 % 256), ByteFrom(n / 256 / 256 % 256), ByteFrom(n / 256 / 256 / 256)]
  {
    hide ByteFrom;
  }

  /** The header holds the size with its lowest byte first. */
  lemma {:induction false} HeaderLayout(n: nat)
    requires n < TWO32
    ensures HostBytes(n)[0].v as nat == n % 256 && HostBytes(n)[1].v as nat == n / 256 % 256
    ensures HostBytes(n)[2].v as nat == n / 256 / 256 % 256 && HostBytes(n)[3].v as nat == n / 256 / 256 / 256
  {
    hide *;
    HeaderParts(n);
    ByteNumber(n % 256);
    ByteNumber(n / 256 % 256);
    ByteNumber(n / 256 / 256 % 256);
    ByteNumber(n / 256 / 256 / 256);
  }

  /** What the header says: the four bytes as a signed number. */
  lemma {:induction false} HeaderReads(bytes: seq<Byte>)
    requires |bytes| == 4
    ensures HostInt(bytes) == bytes[0].v as nat + 0x100 * (bytes[1].v as nat) + 0x1_0000 * (bytes[2].v as nat)
      + 0x100_0000 * (if bytes[3].v as nat < 128 then bytes[3].v as nat else bytes[3].v as nat - 256)
  {
    hide Index;
    IndexIsNumber(bytes[0]);
    IndexIsNumber(bytes[1]);
    IndexIsNumber(bytes[2]);
    IndexIsNumber(bytes[3]);
  }

  /** Data that announces a size of zero or a negative one decompresses to nothing. */
  lemma {:induction false} NothingAnnounced(compressed: seq<Byte>)
    requires |compressed| >= 4 && HostInt(compressed[..4]) <= 0
    ensures DecodeBytes(compressed) == Some([])
  {
    hide HostInt, Flat;
  }
}
