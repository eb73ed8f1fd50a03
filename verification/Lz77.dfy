module Lz77 {
  // What the decompressor of algorithms/maic/lz77.c computes, as a function of the bits that it reads: tokens of
  // 9 and 26 bits that extend the output and slide a window over it.

  import opened BitBytes
  import opened Lz77Bits

  const WINDOW_SIZE: nat := 4096
  const BUFFER_SIZE: nat := 32
  const WINOFF_BITS: nat := 12
  const BUFLEN_BITS: nat := 5
  const NEXT_BITS: nat := 8
  const PHRASE_BITS: nat := 26
  const SYMBOL_BITS: nat := 9

  datatype Option<T> = None | Some(value: T)

  /** A phrase from the window with the byte after it, or a byte alone. */
  datatype Token = Phrase(offset: nat, length: nat, next: Byte) | Symbol(next: Byte)

  predicate ValidToken(t: Token) {
    t.Phrase? ==> t.length < BUFFER_SIZE && t.offset + t.length <= WINDOW_SIZE && t.offset < WINDOW_SIZE
  }

  function TokenBits(t: Token): (bs: Bits)
    ensures |bs| == if t.Phrase? then PHRASE_BITS else SYMBOL_BITS
  {
    match t
    case Phrase(offset, length, next) =>
      [true] + Big(offset, WINOFF_BITS) + Big(length, BUFLEN_BITS) + Big(Index(next), NEXT_BITS)
    case Symbol(next) => [false] + Big(Index(next), NEXT_BITS)
  }

  /** The byte that eight bits write. */
  function ByteOfBits8(bs: Bits): Byte
    requires |bs| == 8
  {
    ByteFrom(BigValue(bs) % 256)
  }

  /** The token at the beginning of the bits. */
  function ReadToken(bits: Bits): (t: Option<Token>)
    ensures t.Some? ==> |TokenBits(t.value)| <= |bits|
  {
    if |bits| < SYMBOL_BITS then None
    else if !bits[0] then Some(Symbol(ByteOfBits8(bits[1..9])))
    else if |bits| < PHRASE_BITS then None
    else Some(Phrase(BigValue(bits[1..13]), BigValue(bits[13..18]), ByteOfBits8(bits[18..26])))
  }

  /** The window, the output so far and how many bytes are missing. */
  datatype State = State(window: seq<Byte>, out: seq<Byte>, remaining: nat)

  ghost predicate Valid(s: State) {
    |s.window| == WINDOW_SIZE
  }

  /** The bytes that a token stands for. */
  function Expansion(s: State, t: Token): seq<Byte>
    requires |s.window| == WINDOW_SIZE && ValidToken(t)
  {
    match t
    case Phrase(offset, length, next) => s.window[offset..offset + length] + [next]
    case Symbol(next) => [next]
  }

  /** Shifts bytes into a window. */
  function Slide(window: seq<Byte>, bytes: seq<Byte>): (r: seq<Byte>)
    requires |bytes| <= |window|
    ensures |r| == |window|
  {
    window[|bytes|..] + bytes
  }

  /** A token extends the output, but not beyond the announced size; then the window no longer matters. */
  function Apply(s: State, t: Token): (r: State)
    requires |s.window| == WINDOW_SIZE && ValidToken(t) && s.remaining > 0
    ensures |r.window| == WINDOW_SIZE && r.remaining < s.remaining
    ensures |r.out| + r.remaining == |s.out| + s.remaining
  {
    var e := Expansion(s, t);
    if |e| <= s.remaining then State(Slide(s.window, e), s.out + e, s.remaining - |e|)
    else State(s.window, s.out + e[..s.remaining], 0)
  }

  /** All tokens that the bits hold, until the output is complete; None when bits are missing or a token is not valid. */
  function Decode(s: State, bits: Bits): Option<seq<Byte>>
    requires |s.window| == WINDOW_SIZE
    decreases s.remaining
  {
    if s.remaining == 0 then Some(s.out)
    else
      match ReadToken(bits)
      case None => None
      case Some(t) => if ValidToken(t) then Decode(Apply(s, t), bits[|TokenBits(t)|..]) else None
  }

  function ZeroWindow(): (r: seq<Byte>)
    ensures |r| == WINDOW_SIZE && forall i :: 0 <= i < |r| ==> r[i] == ZERO
  {
    seq(WINDOW_SIZE, i => ZERO)
  }

  /** The four bytes of an int in memory, least significant first. */
  function HostBytes(n: nat): (r: seq<Byte>)
    requires n < TWO32
    ensures |r| == 4
  {
    var net := Net32(n);
    [net[3], net[2], net[1], net[0]]
  }

  function HostValue(bytes: seq<Byte>): (n: nat)
    requires |bytes| == 4
    ensures n < TWO32
  {
    Host32([bytes[3], bytes[2], bytes[1], bytes[0]])
  }

  lemma {:induction false} HeaderRoundTrip(n: nat)
    requires n < TWO32
    ensures HostValue(HostBytes(n)) == n
  {
    hide Net32, Host32;
    NetHost(n);
    var net := Net32(n);
    assert [net[0], net[1], net[2], net[3]] == net;
  }

  /** The size in the header, a signed 32-bit int. */
  function HostInt(bytes: seq<Byte>): (n: int)
    requires |bytes| == 4
  {
    if HostValue(bytes) < 0x8000_0000 then HostValue(bytes) else HostValue(bytes) - TWO32
  }

  /** How many bytes it announces; with a negative size the loop is not entered. */
  function Announced(bytes: seq<Byte>): nat
    requires |bytes| == 4
  {
    if HostInt(bytes) > 0 then HostInt(bytes) else 0
  }

  /** lz77_uncompress on any bytes. */
  function DecodeBytes(compressed: seq<Byte>): Option<seq<Byte>> {
    if |compressed| < 4 then None
    else Decode(State(ZeroWindow(), [], Announced(compressed[..4])), Flat(compressed[4..]))
  }

  // ---- writing and reading tokens ----

  lemma {:induction false} ByteRead(b: Byte)
    ensures ByteOfBits8(Big(Index(b), 8)) == b
  {
    hide ByteFrom, Index;
    Powers();
    BigRoundTrip(Index(b), 8);
    ByteOfIndex(b);
  }

  /** The bits of a token read as the token. */
  lemma {:induction false} TokenRoundTrip(t: Token, more: Bits)
    requires ValidToken(t)
    ensures ReadToken(TokenBits(t) + more) == Some(t)
    ensures (TokenBits(t) + more)[|TokenBits(t)|..] == more
  {
    hide Big, BigValue, ByteOfBits8, Index, Power;
    var bits := TokenBits(t) + more;
    ByteRead(t.next);
    match t
    case Symbol(next) =>
      assert bits[1..9] == Big(Index(next), 8);
    case Phrase(offset, length, next) =>
      Powers();
      BigRoundTrip(offset, 12);
      BigRoundTrip(length, 5);
      assert bits[1..13] == Big(offset, 12);
      assert bits[13..18] == Big(length, 5);
      assert bits[18..26] == Big(Index(next), 8);
  }

  /** The bits of a list of tokens. */
  function AllBits(ts: seq<Token>): Bits {
    if ts == [] then [] else AllBits(ts[..|ts| - 1]) + TokenBits(ts[|ts| - 1])
  }

  /** Applying all tokens, each while bytes are missing. */
  function ApplyAll(s: State, ts: seq<Token>): (r: Option<State>)
    requires |s.window| == WINDOW_SIZE
    ensures r.Some? ==> |r.value.window| == WINDOW_SIZE
  {
    if ts == [] then Some(s)
    else
      match ApplyAll(s, ts[..|ts| - 1])
      case None => None
      case Some(q) =>
        if q.remaining > 0 && ValidToken(ts[|ts| - 1]) then Some(Apply(q, ts[|ts| - 1])) else None
  }

  /** Decoding written tokens applies them, whatever bits follow. */
  lemma {:induction false} DecodeApplies(s: State, ts: seq<Token>, more: Bits)
    requires |s.window| == WINDOW_SIZE && ApplyAll(s, ts).Some?
    ensures Decode(s, AllBits(ts) + more) == Decode(ApplyAll(s, ts).value, more)
    decreases |ts|
  {
    hide TokenBits, Apply, ReadToken;
    if ts == [] {
      assert [] + more == more;
    } else {
      var n := |ts| - 1;
      assert AllBits(ts) + more == AllBits(ts[..n]) + (TokenBits(ts[n]) + more);
      DecodeApplies(s, ts[..n], TokenBits(ts[n]) + more);
      TokenRoundTrip(ts[n], more);
    }
  }
}
