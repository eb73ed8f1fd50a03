// lz77_compress and lz77_uncompress of algorithms/maic/lz77.c as they run, on a window and a look-ahead buffer.
module Lz77Codec {
  import opened BitBytes
  import opened Lz77Bits
  import opened Lz77
  import opened Lz77Greedy

  // ---- the search ----

  /** How many bytes at k in the window match the buffer. */
  method CountMatch(window: array<Byte>, buffer: array<Byte>, k: nat) returns (count: nat)
    requires window.Length == WINDOW_SIZE && buffer.Length == BUFFER_SIZE && k < WINDOW_SIZE
    ensures count < BUFFER_SIZE && MatchesAt(window[..], buffer[..], k, count)
    ensures forall m :: count < m < BUFFER_SIZE ==> !MatchesAt(window[..], buffer[..], k, m)
  {
    var i, j := k, 0;
    count := 0;
    while i < WINDOW_SIZE && j < BUFFER_SIZE - 1
      invariant count == j <= BUFFER_SIZE - 1 && i == k + j <= WINDOW_SIZE
      invariant forall t :: 0 <= t < j ==> window[k + t] == buffer[t]
    {
      if window[i] != buffer[j] {
        break;
      }
      count := count + 1;
      i := i + 1;
      j := j + 1;
    }
    forall m | count < m < BUFFER_SIZE ensures !MatchesAt(window[..], buffer[..], k, m) {
      MatchedByte(window[..], buffer[..], k, m, count);
    }
  }

  lemma MatchedByte(window: seq<Byte>, buffer: seq<Byte>, k: nat, m: nat, j: nat)
    ensures MatchesAt(window, buffer, k, m) && j < m ==> k + j < |window| && window[k + j] == buffer[j]
  {
    if MatchesAt(window, buffer, k, m) && j < m {
      assert window[k..k + m][j] == buffer[..m][j];
    }
  }

  /** compare_win: the longest match, and the first of those. */
  method CompareWin(window: array<Byte>, buffer: array<Byte>) returns (longest: nat, offset: nat, next: Byte)
    requires window.Length == WINDOW_SIZE && buffer.Length == BUFFER_SIZE
    ensures longest < BUFFER_SIZE && offset < WINDOW_SIZE && MatchesAt(window[..], buffer[..], offset, longest)
    ensures next == buffer[longest]
    ensures NoneLonger(window[..], buffer[..], WINDOW_SIZE, longest)
    ensures forall k, m :: 0 <= k < offset && longest <= m < BUFFER_SIZE ==> !MatchesAt(window[..], buffer[..], k, m)
  {
    hide MatchesAt;
    offset, longest, next := 0, 0, buffer[0];
    assert MatchesAt(window[..], buffer[..], 0, 0) by { EmptyMatch(window[..], buffer[..]); }
    for k := 0 to WINDOW_SIZE
      invariant longest < BUFFER_SIZE && offset < WINDOW_SIZE && MatchesAt(window[..], buffer[..], offset, longest)
      invariant next == buffer[longest] && NoneLonger(window[..], buffer[..], k, longest)
      invariant forall i, m :: 0 <= i < offset && longest <= m < BUFFER_SIZE ==> !MatchesAt(window[..], buffer[..], i, m)
    {
      var count := CountMatch(window, buffer, k);
      if count > longest {
        offset := k;
        longest := count;
        next := buffer[count];
      }
    }
  }

  lemma EmptyMatch(window: seq<Byte>, buffer: seq<Byte>)
    ensures MatchesAt(window, buffer, 0, 0)
  {
  }

  // ---- the compressor ----

  /** A phrase token as a number. */
  function PhraseNumber(offset: nat, length: nat, next: Byte): (n: nat)
    requires offset < WINDOW_SIZE && length < BUFFER_SIZE
    ensures n < 0x400_0000
  {
    0x200_0000 + offset * 0x2000 + length * 0x100 + Index(next)
  }

  lemma {:induction false} PhraseNumberBits(offset: nat, length: nat, next: Byte)
    requires offset < WINDOW_SIZE && length < BUFFER_SIZE
    ensures Flat(Net32(PhraseNumber(offset, length, next)))[6..] == TokenBits(Phrase(offset, length, next))
  {
    hide Flat, Net32, Index, Big, Power;
    Powers();
    var n := PhraseNumber(offset, length, next);
    Net32Bits(n);
    BigAppend((1 * 4096 + offset) * 32 + length, Index(next), 24, 8);
    BigAppend(1 * 4096 + offset, length, 19, 5);
    BigAppend(1, offset, 7, 12);
    OneBits();
    var bits := Big(1, 7) + Big(offset, 12) + Big(length, 5) + Big(Index(next), 8);
    assert n == ((1 * 4096 + offset) * 32 + length) * 256 + Index(next);
    assert bits[6..] == [true] + Big(offset, 12) + Big(length, 5) + Big(Index(next), 8);
  }

  /** The fields of a token do not overlap, so or-ing them one after the other adds them. */
  lemma {:induction false} OredFields(offset: nat, length: nat, next: Byte)
    requires offset < WINDOW_SIZE && length < BUFFER_SIZE
    ensures Or(Or(Or(0x200_0000, offset * 0x2000), length * 0x100), Index(next)) == PhraseNumber(offset, length, next)
    ensures Or(0, Index(next)) == Index(next)
  {
    hide Or, Index, Power;
    Powers();
    PowerOf25();
    OrIsSum(1, 25, offset * 0x2000);
    OrIsSum(0x1000 + offset, 13, length * 0x100);
    OrIsSum((0x1000 + offset) * 32 + length, 8, Index(next));
    OrIsSum(0, 8, Index(next));
  }

  lemma {:induction false} PowerOf25()
    ensures Power(25) == 0x200_0000
  {
    Powers();
    PowerStep(24);
  }

  lemma OneBits()
    ensures Big(1, 7)[6] && Big(0, 24)[23] == false
  {
    assert Big(0, 24) == Big(0, 23) + [false];
  }

  lemma {:induction false} SymbolNumberBits(next: Byte)
    ensures Flat(Net32(Index(next)))[23..] == TokenBits(Symbol(next))
  {
    hide Flat, Net32, Index, Big, Power;
    Powers();
    Net32Bits(Index(next));
    BigAppend(0, Index(next), 24, 8);
    OneBits();
    assert (Big(0, 24) + Big(Index(next), 8))[23..] == [false] + Big(Index(next), 8);
  }

  /** The compressed data up to the bit opos; the rest of its last byte is arbitrary. */
  ghost predicate Holds(comp: seq<Byte>, opos: nat, bits: Bits) {
    opos <= 8 * |comp| < opos + 8 && Flat(comp)[..opos] == bits
  }

  /** One bit more, in a new byte whose other bits are arbitrary if need be. */
  method AppendBit(comp: seq<Byte>, opos: nat, bit: bool, ghost bits: Bits) returns (r: seq<Byte>)
    requires Holds(comp, opos, bits)
    ensures Holds(r, opos + 1, bits + [bit])
  {
    r := comp;
    if opos % 8 == 0 {
      var garbage: Byte := *;
      FlatAppend(comp, [garbage]);
      r := r + [garbage];
    }
    assert Flat(r)[..opos] == bits;
    r := BitSet(r, opos, bit);
  }

  /** Writes the last tbits bits of a token. */
  method AppendToken(comp: seq<Byte>, opos: nat, token: nat, tbits: nat, ghost bits: Bits)
    returns (r: seq<Byte>, ropos: nat)
    requires Holds(comp, opos, bits) && token < TWO32 && tbits <= 32
    ensures ropos == opos + tbits && Holds(r, ropos, bits + Flat(Net32(token))[32 - tbits..])
  {
    hide Holds, Flat, Net32;
    var bytes := Net32(token);
    ghost var source := Flat(bytes)[32 - tbits..];
    r, ropos := comp, opos;
    assert bits + source[..0] == bits;
    for i := 0 to tbits
      invariant ropos == opos + i && Holds(r, ropos, bits + source[..i])
    {
      var bit := BitGet(bytes, 32 - tbits + i);
      r := AppendBit(r, ropos, bit, bits + source[..i]);
      assert bits + source[..i] + [source[i]] == bits + source[..i + 1];
      ropos := ropos + 1;
    }
    assert source[..tbits] == source;
  }

  /** memmove twice: the first n bytes of the buffer are shifted into the window. */
  method SlideWindow(window: array<Byte>, buffer: array<Byte>, n: nat)
    requires window.Length == WINDOW_SIZE && buffer.Length == BUFFER_SIZE && window != buffer && n <= BUFFER_SIZE
    modifies window
    ensures window[..] == Slide(old(window[..]), buffer[..n])
  {
    forall i | 0 <= i < WINDOW_SIZE - n {
      window[i] := window[i + n];
    }
    forall i | 0 <= i < n {
      window[WINDOW_SIZE - n + i] := buffer[i];
    }
  }

  /** The buffer holds the next bytes of the input, as far as there are any; old bytes may stand behind them. */
  ghost predicate LooksAhead(buffer: seq<Byte>, original: seq<Byte>, done: nat, ipos: nat) {
    |buffer| == BUFFER_SIZE && done <= |original| && ipos == done + Min(BUFFER_SIZE, |original| - done) &&
    buffer[..ipos - done] == original[done..ipos]
  }

  /** memmove: the bytes of the buffer move n places to the front. */
  method ShiftBuffer(buffer: array<Byte>, n: nat)
    requires n <= buffer.Length
    modifies buffer
    ensures forall i :: 0 <= i < buffer.Length ==> buffer[i] == old(buffer[if i < buffer.Length - n then i + n else i])
  {
    forall i | 0 <= i < buffer.Length - n {
      buffer[i] := buffer[i + n];
    }
  }

  /** Fills the buffer from a place on with the next bytes of the input, as far as there are any. */
  method FillBuffer(buffer: array<Byte>, start: nat, original: seq<Byte>, pos: nat) returns (ipos: nat)
    requires start <= buffer.Length && pos <= |original|
    modifies buffer
    ensures ipos == pos + Min(buffer.Length - start, |original| - pos)
    ensures forall t :: 0 <= t < buffer.Length && !(start <= t < start + (ipos - pos)) ==> buffer[t] == old(buffer[t])
    ensures buffer[start..start + (ipos - pos)] == original[pos..ipos]
  {
    ipos := pos;
    var i := start;
    while i < buffer.Length && ipos < |original|
      invariant start <= i <= buffer.Length && pos <= ipos <= |original| && ipos - pos == i - start
      invariant forall t :: 0 <= t < buffer.Length && !(start <= t < i) ==> buffer[t] == old(buffer[t])
      invariant buffer[start..i] == original[pos..ipos]
    {
      buffer[i] := original[ipos];
      assert original[pos..ipos + 1] == original[pos..ipos] + [original[ipos]];
      ipos := ipos + 1;
      i := i + 1;
    }
  }

  /** Moves the buffer n bytes on and fills it up from the input. */
  method RefillBuffer(buffer: array<Byte>, original: seq<Byte>, pos: nat, n: nat, ghost done: nat) returns (ipos: nat)
    requires 0 < n <= BUFFER_SIZE == buffer.Length && LooksAhead(buffer[..], original, done, pos)
    modifies buffer
    ensures done + n <= |original| ==> LooksAhead(buffer[..], original, done + n, ipos)
    ensures pos <= |original| && buffer[..] == Refilled(old(buffer[..]), original, pos, n)
  {
    ghost var was := buffer[..];
    ShiftBuffer(buffer, n);
    ghost var moved := buffer[..];
    ipos := FillBuffer(buffer, BUFFER_SIZE - n, original, pos);
    IsRefilled(was, moved, buffer[..], original, pos, n, ipos);
    if done + n <= |original| {
      StillLooksAhead(was, buffer[..], original, done, pos, n, ipos);
    }
  }

  lemma IsRefilled(was: seq<Byte>, moved: seq<Byte>, now: seq<Byte>, original: seq<Byte>, pos: nat, n: nat, ipos: nat)
    requires |was| == |moved| == |now| == BUFFER_SIZE && n <= BUFFER_SIZE && pos <= |original|
    requires forall i :: 0 <= i < BUFFER_SIZE ==> moved[i] == was[if i < BUFFER_SIZE - n then i + n else i]
    requires ipos == pos + Min(n, |original| - pos)
    requires forall i :: 0 <= i < BUFFER_SIZE && !(BUFFER_SIZE - n <= i < BUFFER_SIZE - n + (ipos - pos)) ==> now[i] == moved[i]
    requires now[BUFFER_SIZE - n..BUFFER_SIZE - n + (ipos - pos)] == original[pos..ipos]
    ensures now == Refilled(was, original, pos, n)
  {
    var r, a := Refilled(was, original, pos, n), BUFFER_SIZE - n;
    forall i | 0 <= i < BUFFER_SIZE ensures now[i] == r[i] {
      if a <= i < a + (ipos - pos) {
        assert now[i] == now[a..a + (ipos - pos)][i - a];
      }
    }
  }

  lemma StillLooksAhead(was: seq<Byte>, now: seq<Byte>, original: seq<Byte>, done: nat, pos: nat, n: nat, ipos: nat)
    requires 0 < n <= BUFFER_SIZE == |now| && LooksAhead(was, original, done, pos) && done + n <= |original|
    requires forall i :: 0 <= i < BUFFER_SIZE - n ==> now[i] == was[i + n]
    requires ipos == pos + Min(n, |original| - pos) && now[BUFFER_SIZE - n..BUFFER_SIZE - n + (ipos - pos)] == original[pos..ipos]
    ensures LooksAhead(now, original, done + n, ipos)
  {
    var m := done + n;
    forall i | 0 <= i < ipos - m ensures now[i] == original[m + i] {
      if i < BUFFER_SIZE - n {
        assert was[i + n] == was[..pos - done][i + n] == original[done..pos][i + n];
      } else {
        var k := i - (BUFFER_SIZE - n);
        assert now[i] == now[BUFFER_SIZE - n..BUFFER_SIZE - n + (ipos - pos)][k] == original[pos..ipos][k];
      }
    }
  }

  /** memset and the first bytes of the input. */
  method LoadBuffer(buffer: array<Byte>, original: seq<Byte>) returns (ipos: nat)
    requires buffer.Length == BUFFER_SIZE && forall i :: 0 <= i < buffer.Length ==> buffer[i] == ZERO
    modifies buffer
    ensures LooksAhead(buffer[..], original, 0, ipos) && buffer[..] == FirstBuffer(original)
  {
    ipos := FillBuffer(buffer, 0, original, 0);
    assert buffer[..][..ipos] == buffer[0..0 + ipos];
    assert buffer[..] == buffer[..ipos] + buffer[ipos..];
  }

  /** The compressor and the decompressor of what has been written so far agree. */
  ghost predicate InStep(s: State, window: seq<Byte>, buffer: seq<Byte>, original: seq<Byte>, remaining: int, ipos: nat) {
    s.window == window && |window| == WINDOW_SIZE && s.remaining == remaining && remaining <= |original| &&
    s.out == original[..|original| - remaining] && LooksAhead(buffer, original, |original| - remaining, ipos)
  }

  /** What a token found by the search does: its bytes are the first in the buffer. */
  lemma SearchedToken(s: State, buffer: seq<Byte>, t: Token, length: nat)
    requires |s.window| == WINDOW_SIZE && |buffer| == BUFFER_SIZE && length < BUFFER_SIZE && t.next == buffer[length]
    requires if length == 0 then t.Symbol? else t.Phrase? && t.length == length && t.offset < WINDOW_SIZE
    requires t.Phrase? ==> MatchesAt(s.window, buffer, t.offset, length)
    ensures ValidToken(t) && Expansion(s, t) == buffer[..length + 1]
  {
  }

  /** It is the greedy one. */
  lemma SearchedIsGreedy(window: seq<Byte>, buffer: seq<Byte>, t: Token, length: nat, offset: nat)
    requires |window| == WINDOW_SIZE && |buffer| == BUFFER_SIZE && length < BUFFER_SIZE && t.next == buffer[length]
    requires if length == 0 then t.Symbol? else t.Phrase? && t.length == length && t.offset == offset < WINDOW_SIZE
    requires MatchesAt(window, buffer, offset, length) && NoneLonger(window, buffer, WINDOW_SIZE, length)
    requires forall k, m :: 0 <= k < offset && length <= m < BUFFER_SIZE ==> !MatchesAt(window, buffer, k, m)
    ensures Greedy(window, buffer, t) && Covers(t) == length + 1
  {
    hide NoneLonger;
  }

  /** Applying that token completes the output, or keeps the two in step. */
  lemma TokenInStep(s: State, window: seq<Byte>, buffer: seq<Byte>, original: seq<Byte>, remaining: int, ipos: nat, t: Token, length: nat)
    requires InStep(s, window, buffer, original, remaining, ipos) && remaining > 0 && length < BUFFER_SIZE
    requires ValidToken(t) && Expansion(s, t) == buffer[..length + 1]
    ensures length + 1 <= remaining ==>
      Apply(s, t) == State(Slide(window, buffer[..length + 1]), original[..|original| - remaining + length + 1], remaining - length - 1)
    ensures length + 1 >= remaining ==> Apply(s, t).remaining == 0 && Apply(s, t).out == original
  {
    hide Expansion, Slide;
    var done := |original| - remaining;
    var n := if length + 1 <= remaining then length + 1 else remaining;
    assert n <= ipos - done;
    assert buffer[..ipos - done][..n] == buffer[..n];
    assert original[done..ipos][..n] == original[done..done + n];
    assert original[..done] + original[done..done + n] == original[..done + n];
    assert buffer[..length + 1][..n] == buffer[..n];
    assert original[..|original|] == original;
  }

  lemma {:induction false} AppendTokens(s: State, ts: seq<Token>, q: State, t: Token)
    requires |s.window| == WINDOW_SIZE && ApplyAll(s, ts) == Some(q) && q.remaining > 0 && ValidToken(t)
    ensures ApplyAll(s, ts + [t]) == Some(Apply(q, t)) && AllBits(ts + [t]) == AllBits(ts) + TokenBits(t)
  {
    assert (ts + [t])[..|ts|] == ts;
  }

  /** One token: the search, and the writing of its bits. */
  method WriteToken(window: array<Byte>, buffer: array<Byte>, comp: seq<Byte>, opos: nat, ghost s: State, ghost bits: Bits)
    returns (length: nat, r: seq<Byte>, ropos: nat, ghost t: Token)
    requires window.Length == WINDOW_SIZE && buffer.Length == BUFFER_SIZE && s.window == window[..]
    requires Holds(comp, opos, bits)
    ensures length < BUFFER_SIZE && ValidToken(t) && Expansion(s, t) == buffer[..length + 1]
    ensures Holds(r, ropos, bits + TokenBits(t)) && ropos <= opos + 13 * (length + 1)
    ensures Greedy(window[..], buffer[..], t) && Covers(t) == length + 1
  {
    hide Holds, MatchesAt, NoneLonger, Flat, Net32, TokenBits, PhraseNumber, Expansion, Index, Or, Greedy;
    var offset, next;
    length, offset, next := CompareWin(window, buffer);
    if length != 0 {
      var token := 0x200_0000;
      token := Or(token, offset * 0x2000);
      token := Or(token, length * 0x100);
      token := Or(token, Index(next));
      t := Phrase(offset, length, next);
      OredFields(offset, length, next);
      PhraseNumberBits(offset, length, next);
      r, ropos := AppendToken(comp, opos, token, PHRASE_BITS, bits);
    } else {
      t := Symbol(next);
      OredFields(offset, length, next);
      SymbolNumberBits(next);
      r, ropos := AppendToken(comp, opos, Or(0, Index(next)), SYMBOL_BITS, bits);
    }
    SearchedToken(s, buffer[..], t, length);
    SearchedIsGreedy(window[..], buffer[..], t, length, offset);
  }

  /** The header and the tokens in ts have been written, and lead from the first state to s. */
  ghost predicate Written(comp: seq<Byte>, opos: nat, size: nat, ts: seq<Token>, s: State)
    requires size < TWO32
  {
    Holds(comp, opos, Flat(HostBytes(size)) + AllBits(ts)) && ApplyAll(State(ZeroWindow(), [], size), ts) == Some(s)
  }

  /** What was written decodes to the output of the last state. */
  lemma {:induction false} WrittenDecodes(comp: seq<Byte>, opos: nat, size: nat, ts: seq<Token>, s: State)
    requires size < 0x8000_0000 && Written(comp, opos, size, ts, s) && s.remaining == 0
    ensures DecodeBytes(comp) == Some(s.out)
  {
    hide Flat, HostBytes, AllBits, ApplyAll, HostValue, ZeroWindow, Apply, ReadToken;
    var head := Flat(HostBytes(size));
    FlatStarts(comp, HostBytes(size), opos, AllBits(ts));
    HeaderRoundTrip(size);
    var more := Flat(comp[4..])[|AllBits(ts)|..];
    assert Flat(comp[4..]) == AllBits(ts) + more;
    DecodeApplies(State(ZeroWindow(), [], size), ts, more);
  }

  lemma {:induction false} SameBytes(a: seq<Byte>, b: seq<Byte>)
    requires |a| == |b| && Flat(a) == Flat(b)
    ensures a == b
  {
    forall i | 0 <= i < |a| ensures a[i] == b[i] {
      forall j | 0 <= j < 8 ensures BitOf(a[i], j) == BitOf(b[i], j) {
        assert Flat(a)[8 * i + (7 - j)] == BitOf(a[i], j);
        assert Flat(b)[8 * i + (7 - j)] == BitOf(b[i], j);
      }
      assert BitsOf(a[i]) == BitsOf(b[i]);
      SameBits(a[i], b[i]);
    }
  }

  lemma FlatStarts(comp: seq<Byte>, head: seq<Byte>, opos: nat, bits: Bits)
    requires |head| == 4 && Holds(comp, opos, Flat(head) + bits)
    ensures |comp| >= 4 && comp[..4] == head && |bits| <= |Flat(comp[4..])| && Flat(comp[4..])[..|bits|] == bits
  {
    hide Flat;
    assert comp == comp[..4] + comp[4..];
    FlatAppend(comp[..4], comp[4..]);
    assert Flat(comp)[..opos][..32] == Flat(head) && Flat(comp)[..32] == Flat(comp[..4]);
    SameBytes(comp[..4], head);
    assert Flat(comp)[..opos][32..] == bits;
  }

  lemma {:induction false} StartsWritten(size: nat)
    requires size < TWO32
    ensures Written(HostBytes(size), 32, size, [], State(ZeroWindow(), [], size))
  {
    hide Flat, HostBytes;
    assert Flat(HostBytes(size))[..32] == Flat(HostBytes(size));
    assert Flat(HostBytes(size)) + [] == Flat(HostBytes(size));
  }

  lemma {:induction false} WrittenMore(comp: seq<Byte>, opos: nat, size: nat, ts: seq<Token>, s: State, r: seq<Byte>, ropos: nat, t: Token)
    requires size < TWO32 && Written(comp, opos, size, ts, s) && s.remaining > 0 && ValidToken(t)
    requires |s.window| == WINDOW_SIZE && Holds(r, ropos, Flat(HostBytes(size)) + AllBits(ts) + TokenBits(t))
    ensures Written(r, ropos, size, ts + [t], Apply(s, t))
  {
    hide Flat, HostBytes, Apply, TokenBits, Holds;
    AppendTokens(State(ZeroWindow(), [], size), ts, s, t);
    assert Flat(HostBytes(size)) + AllBits(ts) + TokenBits(t) == Flat(HostBytes(size)) + (AllBits(ts) + TokenBits(t));
  }

  // lz77_compress. For every input the output decodes to it; the size has to fit an int. A token takes at most
  // 13 bits for each of its bytes, so the bit position stays below 32 + 13 * (size + 32).
  method Compress(original: seq<Byte>) returns (comp: seq<Byte>, ghost ts: seq<Token>)
    requires |original| < 0x8000_0000
    ensures DecodeBytes(comp) == Some(original)
    ensures 8 * |comp| < 40 + 13 * (|original| + BUFFER_SIZE)
    ensures Factors(original, ts) && Holds(comp, 32 + |AllBits(ts)|, Flat(HostBytes(|original|)) + AllBits(ts))
  {
    hide Flat, HostBytes, Written, InStep, DecodeBytes, ZeroWindow, Slide, Apply, Holds, TokenBits, AllBits, LooksAhead,
      Expansion, OnTrack, FirstBuffer, GreedyTokens, Position;
    var size := |original|;
    var window := new Byte[WINDOW_SIZE](_ => ZERO);
    var buffer := new Byte[BUFFER_SIZE](_ => ZERO);
    comp := HostBytes(size);
    var ipos := LoadBuffer(buffer, original);
    var opos: nat := 32;
    var remaining := size;
    ghost var s := State(ZeroWindow(), [], size);
    ts := [];
    StartsWritten(size);
    AtFirst(window[..], buffer[..], original, ipos);
    while remaining > 0
      invariant fresh(window) && fresh(buffer) && window.Length == WINDOW_SIZE && buffer.Length == BUFFER_SIZE
      invariant Written(comp, opos, size, ts, s) && |s.window| == WINDOW_SIZE
      invariant remaining > 0 ==> InStep(s, window[..], buffer[..], original, remaining, ipos)
      invariant remaining <= 0 ==> s.remaining == 0 && s.out == original
      invariant OnTrack(original, ts, window[..], buffer[..], remaining)
      invariant remaining > -32 && opos <= 32 + 13 * (size - remaining)
      decreases remaining
    {
      comp, opos, remaining, ipos, ts, s := CompressStep(window, buffer, original, comp, opos, remaining, ipos, ts, s);
    }
    WrittenDecodes(comp, opos, size, ts, s);
    WrittenLength(comp, opos, size, ts, s);
    TrackEnds(original, ts, window[..], buffer[..], remaining);
  }

  // The tokens so far are the greedy ones, window and buffer hold what they should at the position behind them.
  // At the end the last token may reach beyond the input.
  ghost predicate OnTrack(original: seq<Byte>, ts: seq<Token>, window: seq<Byte>, buffer: seq<Byte>, remaining: int) {
    GreedyTokens(original, ts) && Position(ts) == |original| - remaining &&
    (remaining > 0 ==> window == Past(original, Position(ts)) && buffer == Ahead(original, ts))
  }

  lemma TrackEnds(original: seq<Byte>, ts: seq<Token>, window: seq<Byte>, buffer: seq<Byte>, remaining: int)
    requires OnTrack(original, ts, window, buffer, remaining) && remaining <= 0
    ensures Factors(original, ts)
  {
    hide GreedyTokens;
  }

  lemma PastSlides(original: seq<Byte>, p: nat, n: nat)
    requires p + n <= |original| && n <= BUFFER_SIZE
    ensures Slide(Past(original, p), original[p..p + n]) == Past(original, p + n)
  {
    var z := ZeroWindow();
    assert z + original[..p + n] == z + original[..p] + original[p..p + n];
    assert (z + original[..p + n])[p + n..] == (z + original[..p])[p + n..] + original[p..p + n];
    assert (z + original[..p])[p..][n..] == (z + original[..p])[p + n..];
  }

  lemma LooksAtInput(buffer: seq<Byte>, original: seq<Byte>, p: nat, ipos: nat, n: nat)
    requires LooksAhead(buffer, original, p, ipos) && p + n <= |original| && n <= BUFFER_SIZE
    ensures buffer[..n] == original[p..p + n]
  {
    forall i | 0 <= i < n ensures buffer[i] == original[p + i] {
      assert buffer[..ipos - p][i] == original[p..ipos][i];
    }
  }

  lemma StaysOnTrack(original: seq<Byte>, ts: seq<Token>, window: seq<Byte>, buffer: seq<Byte>, remaining: int, ipos: nat, t: Token)
    requires OnTrack(original, ts, window, buffer, remaining) && 0 < remaining <= |original| && Greedy(window, buffer, t)
    requires LooksAhead(buffer, original, |original| - remaining, ipos) && ValidToken(t)
    ensures |window| == WINDOW_SIZE && |buffer| == BUFFER_SIZE && ipos <= |original| && Covers(t) <= BUFFER_SIZE
    ensures var n := Covers(t);
      OnTrack(original, ts + [t], Slide(window, buffer[..n]), Refilled(buffer, original, ipos, n), remaining - n)
  {
    hide Greedy, Past, Slide, Refilled, Position, GreedyTokens, Ahead;
    var p, n := |original| - remaining, Covers(t);
    UsePosition(original, ts, window, buffer, remaining);
    GreedyMore(original, ts, t);
    if n < remaining {
      LooksAtInput(buffer, original, p, ipos, n);
      PastSlides(original, p, n);
    }
  }

  lemma UsePosition(original: seq<Byte>, ts: seq<Token>, window: seq<Byte>, buffer: seq<Byte>, remaining: int)
    requires OnTrack(original, ts, window, buffer, remaining) && 0 < remaining <= |original|
    ensures GreedyTokens(original, ts) && AllValid(ts) && Position(ts) == |original| - remaining
    ensures window == Past(original, Position(ts)) && buffer == Ahead(original, ts)
  {
  }

  lemma {:induction false} WrittenLength(comp: seq<Byte>, opos: nat, size: nat, ts: seq<Token>, s: State)
    requires size < TWO32 && Written(comp, opos, size, ts, s)
    ensures 8 * |comp| < opos + 8
    ensures Holds(comp, 32 + |AllBits(ts)|, Flat(HostBytes(size)) + AllBits(ts))
  {
    assert opos == |Flat(HostBytes(size)) + AllBits(ts)|;
  }

  lemma AtFirst(window: seq<Byte>, buffer: seq<Byte>, original: seq<Byte>, ipos: nat)
    requires |window| == WINDOW_SIZE && (forall i :: 0 <= i < |window| ==> window[i] == ZERO) && LooksAhead(buffer, original, 0, ipos)
    requires buffer == FirstBuffer(original)
    ensures InStep(State(ZeroWindow(), [], |original|), window, buffer, original, |original|, ipos)
    ensures OnTrack(original, [], window, buffer, |original|)
  {
    assert window == ZeroWindow();
    assert original[..0] == [] && ZeroWindow() + [] == ZeroWindow();
  }

  /** One turn of the loop. */
  method CompressStep(window: array<Byte>, buffer: array<Byte>, original: seq<Byte>, comp: seq<Byte>, opos: nat,
                      remaining: int, ipos: nat, ghost ts: seq<Token>, ghost s: State)
    returns (rcomp: seq<Byte>, ropos: nat, left: int, ripos: nat, ghost rts: seq<Token>, ghost rs: State)
    requires window.Length == WINDOW_SIZE && buffer.Length == BUFFER_SIZE && window != buffer && |original| < TWO32
    requires remaining > 0 && InStep(s, window[..], buffer[..], original, remaining, ipos)
    requires |s.window| == WINDOW_SIZE && Written(comp, opos, |original|, ts, s)
    requires OnTrack(original, ts, window[..], buffer[..], remaining)
    modifies window, buffer
    ensures |rs.window| == WINDOW_SIZE && Written(rcomp, ropos, |original|, rts, rs)
    ensures left < remaining && left >= remaining - 32 && ropos <= opos + 13 * (remaining - left)
    ensures left > 0 ==> InStep(rs, window[..], buffer[..], original, left, ripos)
    ensures left <= 0 ==> rs.remaining == 0 && rs.out == original
    ensures OnTrack(original, rts, window[..], buffer[..], left)
  {
    hide Flat, HostBytes, Written, InStep, ZeroWindow, Apply, Holds, TokenBits, AllBits, LooksAhead, Expansion, MatchesAt, Slide,
      OnTrack, Greedy, Refilled;
    UseInStep(s, window[..], buffer[..], original, remaining, ipos);
    UseWritten(comp, opos, |original|, ts, s);
    var length;
    ghost var t;
    length, rcomp, ropos, t := WriteToken(window, buffer, comp, opos, s, Flat(HostBytes(|original|)) + AllBits(ts));
    WrittenMore(comp, opos, |original|, ts, s, rcomp, ropos, t);
    rts, rs := ts + [t], Apply(s, t);
    TokenInStep(s, window[..], buffer[..], original, remaining, ipos, t, length);
    StaysOnTrack(original, ts, window[..], buffer[..], remaining, ipos, t);
    length := length + 1;
    SlideWindow(window, buffer, length);
    left := remaining - length;
    ripos := RefillBuffer(buffer, original, ipos, length, |original| - remaining);
    if left >= 0 {
      StillInStep(rs, window[..], buffer[..], original, left, ripos);
    }
  }

  lemma UseInStep(s: State, window: seq<Byte>, buffer: seq<Byte>, original: seq<Byte>, remaining: int, ipos: nat)
    requires InStep(s, window, buffer, original, remaining, ipos)
    ensures s.window == window && s.remaining == remaining && remaining <= |original|
    ensures LooksAhead(buffer, original, |original| - remaining, ipos)
  {
  }

  lemma {:induction false} UseWritten(comp: seq<Byte>, opos: nat, size: nat, ts: seq<Token>, s: State)
    requires size < TWO32 && Written(comp, opos, size, ts, s)
    ensures Holds(comp, opos, Flat(HostBytes(size)) + AllBits(ts))
  {
  }

  lemma StillInStep(s: State, window: seq<Byte>, buffer: seq<Byte>, original: seq<Byte>, remaining: int, ipos: nat)
    requires 0 <= remaining <= |original| && |window| == WINDOW_SIZE && LooksAhead(buffer, original, |original| - remaining, ipos)
    requires s == State(window, original[..|original| - remaining], remaining)
    ensures InStep(s, window, buffer, original, remaining, ipos)
  {
  }

  // ---- the decompressor ----

  /** Reads k bits into the last bits of a big-endian int. */
  method ReadNumber(bits: seq<Byte>, pos: nat, k: nat) returns (n: nat)
    requires k <= 32 && pos + k <= 8 * |bits|
    ensures n == BigValue(Flat(bits)[pos..pos + k])
  {
    hide Flat, Host32, BigValue;
    var bytes := [ZERO, ZERO, ZERO, ZERO];
    ghost var source := Flat(bits)[pos..pos + k];
    ZeroBits(bytes);
    assert Zeros(32) == Zeros(32 - k) + source[..0] + Zeros(k);
    for i := 0 to k
      invariant |bytes| == 4 && Flat(bytes) == Zeros(32 - k) + source[..i] + Zeros(k - i)
    {
      var bit := BitGet(bits, pos + i);
      bytes := BitSet(bytes, 32 - k + i, bit);
      assert (Zeros(32 - k) + source[..i] + Zeros(k - i))[32 - k + i := source[i]]
          == Zeros(32 - k) + source[..i + 1] + Zeros(k - i - 1);
    }
    assert Zeros(32 - k) + source[..k] + Zeros(0) == Zeros(32 - k) + source;
    Host32Value(bytes);
    LeadingZeros(32 - k, source);
    n := Host32(bytes);
  }

  lemma ZeroBits(bytes: seq<Byte>)
    requires forall i :: 0 <= i < |bytes| ==> bytes[i] == ZERO
    ensures Flat(bytes) == Zeros(8 * |bytes|)
  {
    forall k | 0 <= k < 8 * |bytes| ensures !Flat(bytes)[k] {
      ZeroByte(7 - k % 8);
    }
  }

  lemma OneBitMore(source: Bits, i: nat)
    requires i < |source|
    ensures (source[..i] + Zeros(|source| - i))[i := source[i]] == source[..i + 1] + Zeros(|source| - i - 1)
  {
  }

  /** Reads the eight bits of a byte. */
  method ReadByte(bits: seq<Byte>, pos: nat) returns (next: Byte)
    requires pos + 8 <= 8 * |bits|
    ensures next == ByteOfBits8(Flat(bits)[pos..pos + 8])
  {
    hide Flat, ByteOfBits8;
    var bytes := [ZERO];
    ghost var source := Flat(bits)[pos..pos + 8];
    ZeroBits(bytes);
    for i := 0 to 8
      invariant |bytes| == 1 && Flat(bytes) == source[..i] + Zeros(8 - i)
    {
      var bit := BitGet(bits, pos + i);
      bytes := BitSet(bytes, i, bit);
      OneBitMore(source, i);
    }
    assert source[..8] + Zeros(0) == source;
    next := bytes[0];
    assert bytes == [next];
    EightBitsRead(next);
  }

  lemma {:induction false} EightBitsRead(b: Byte)
    ensures ByteOfBits8(Flat([b])) == b
  {
    hide Flat, BigValue, ByteFrom, Index;
    FlatByte(b);
    ByteOfIndex(b);
  }

  /** Copies a phrase and the byte after it to the output and the buffer, as far as bytes are missing. */
  method CopyPhrase(window: array<Byte>, buffer: array<Byte>, orig: seq<Byte>, remaining: nat,
                    offset: nat, length: nat, next: Byte, ghost s: State)
    returns (r: seq<Byte>, left: nat)
    requires window.Length == WINDOW_SIZE && buffer.Length == BUFFER_SIZE && window != buffer && remaining > 0
    requires ValidToken(Phrase(offset, length, next)) && s == State(window[..], orig, remaining)
    modifies buffer
    ensures r == Apply(s, Phrase(offset, length, next)).out && left == Apply(s, Phrase(offset, length, next)).remaining
    ensures length + 1 <= remaining ==> buffer[..length + 1] == Expansion(s, Phrase(offset, length, next))
  {
    var i := 0;
    r, left := orig, remaining;
    ghost var e := Expansion(s, Phrase(offset, length, next));
    assert orig + e[..0] == orig;
    while i < length && left > 0
      invariant i <= length && left == remaining - i && r == orig + e[..i]
      invariant forall t :: 0 <= t < i ==> buffer[t] == e[t]
    {
      r := r + [window[offset + i]];
      buffer[i] := window[offset + i];
      assert e[..i] + [e[i]] == e[..i + 1] && e[i] == window[offset + i];
      i := i + 1;
      left := left - 1;
    }
    if left > 0 {
      r := r + [next];
      buffer[i] := next;
      assert e[..length] + [next] == e;
      left := left - 1;
    }
  }

  /** The decompressor has read the bits before ipos, and the rest leads to goal. */
  ghost predicate Reading(compressed: seq<Byte>, ipos: nat, s: State, goal: seq<Byte>) {
    |s.window| == WINDOW_SIZE && ipos <= 8 * |compressed| && Decode(s, Flat(compressed)[ipos..]) == Some(goal)
  }

  /** The bits at ipos are those of the token. */
  ghost predicate TokenAt(bits: Bits, ipos: nat, t: Token) {
    ipos + SYMBOL_BITS <= |bits| && ValidToken(t) &&
    if bits[ipos] then
      ipos + PHRASE_BITS <= |bits| &&
      t == Phrase(BigValue(bits[ipos + 1..ipos + 13]), BigValue(bits[ipos + 13..ipos + 18]), ByteOfBits8(bits[ipos + 18..ipos + 26]))
    else t == Symbol(ByteOfBits8(bits[ipos + 1..ipos + 9]))
  }

  lemma NextToken(compressed: seq<Byte>, ipos: nat, s: State, goal: seq<Byte>) returns (t: Token)
    requires Reading(compressed, ipos, s, goal) && s.remaining > 0
    ensures TokenAt(Flat(compressed), ipos, t) && Reading(compressed, ipos + |TokenBits(t)|, Apply(s, t), goal)
  {
    hide Flat, BigValue, ByteOfBits8, TokenBits, Apply;
    var bits := Flat(compressed)[ipos..];
    t := ReadToken(bits).value;
    var n := |TokenBits(t)|;
    assert bits[n..] == Flat(compressed)[ipos + n..];
    assert bits[1..9] == Flat(compressed)[ipos + 1..ipos + 9];
    if bits[0] {
      assert bits[1..13] == Flat(compressed)[ipos + 1..ipos + 13];
      assert bits[13..18] == Flat(compressed)[ipos + 13..ipos + 18];
      assert bits[18..26] == Flat(compressed)[ipos + 18..ipos + 26];
    }
  }

  /** The fields of a phrase, one after the other. */
  method ReadPhrase(compressed: seq<Byte>, ipos: nat, ghost t: Token) returns (offset: nat, length: nat, next: Byte, ripos: nat)
    requires TokenAt(Flat(compressed), ipos, t) && t.Phrase?
    ensures t == Phrase(offset, length, next) && ripos == ipos + PHRASE_BITS
  {
    hide Flat, BigValue, ByteOfBits8, ValidToken;
    ripos := ipos + 1;
    offset := ReadNumber(compressed, ripos, WINOFF_BITS);
    ripos := ripos + WINOFF_BITS;
    length := ReadNumber(compressed, ripos, BUFLEN_BITS);
    ripos := ripos + BUFLEN_BITS;
    next := ReadByte(compressed, ripos);
    ripos := ripos + NEXT_BITS;
  }

  method ReadSymbol(compressed: seq<Byte>, ipos: nat, ghost t: Token) returns (next: Byte, ripos: nat)
    requires TokenAt(Flat(compressed), ipos, t) && t.Symbol?
    ensures t == Symbol(next) && ripos == ipos + SYMBOL_BITS
  {
    hide Flat, BigValue, ByteOfBits8, ValidToken;
    next := ReadByte(compressed, ipos + 1);
    ripos := ipos + 1 + NEXT_BITS;
  }

  /** What a single byte does to the output, as far as the next window is concerned. */
  lemma OneSymbol(s: State, next: Byte)
    requires s.remaining > 0 && |s.window| == WINDOW_SIZE
    ensures Apply(s, Symbol(next)).out == s.out + [next] && Apply(s, Symbol(next)).remaining == s.remaining - 1
    ensures Expansion(s, Symbol(next)) == [next]
  {
    hide Slide;
    assert [next][..1] == [next];
  }

  /** A byte alone goes to the output and to the buffer. */
  method CopySymbol(buffer: array<Byte>, orig: seq<Byte>, remaining: nat, next: Byte, ghost s: State) returns (r: seq<Byte>, left: nat)
    requires buffer.Length == BUFFER_SIZE && remaining > 0 && |s.window| == WINDOW_SIZE && s.out == orig && s.remaining == remaining
    modifies buffer
    ensures r == Apply(s, Symbol(next)).out && left == Apply(s, Symbol(next)).remaining
    ensures buffer[..1] == Expansion(s, Symbol(next))
  {
    hide Apply, Expansion;
    r := orig + [next];
    buffer[0] := next;
    left := remaining - 1;
    assert buffer[..1] == [next];
    OneSymbol(s, next);
  }

  lemma SlidTo(s: State, t: Token)
    requires ValidToken(t) && |s.window| == WINDOW_SIZE && s.remaining > 0 && Apply(s, t).remaining > 0
    ensures |Expansion(s, t)| == (if t.Phrase? then t.length + 1 else 1) <= s.remaining
    ensures Apply(s, t).window == Slide(s.window, Expansion(s, t))
  {
    hide Slide;
  }

  lemma Shrinks(s: State, t: Token)
    requires ValidToken(t) && |s.window| == WINDOW_SIZE && s.remaining > 0
    ensures Apply(s, t).remaining < s.remaining
  {
    hide Slide;
  }

  lemma TokenSize(t: Token, bits: Bits, ipos: nat)
    requires TokenAt(bits, ipos, t)
    ensures ipos < |bits| && ValidToken(t) && t.Phrase? == bits[ipos] && (if t.Phrase? then t.length + 1 else 1) <= BUFFER_SIZE
    ensures |TokenBits(t)| == if bits[ipos] then PHRASE_BITS else SYMBOL_BITS
  {
    hide BigValue, ByteOfBits8;
  }

  lemma FlatSize(bytes: seq<Byte>)
    ensures |Flat(bytes)| == 8 * |bytes|
  {
  }

  lemma UseReading(compressed: seq<Byte>, ipos: nat, s: State, goal: seq<Byte>)
    requires Reading(compressed, ipos, s, goal)
    ensures |s.window| == WINDOW_SIZE
  {
  }

  /** One turn of the loop. */
  method UncompressStep(compressed: seq<Byte>, window: array<Byte>, buffer: array<Byte>, orig: seq<Byte>, ipos: nat,
                        remaining: nat, ghost s: State, ghost goal: seq<Byte>)
    returns (r: seq<Byte>, ripos: nat, left: nat, ghost rs: State)
    requires window.Length == WINDOW_SIZE && buffer.Length == BUFFER_SIZE && window != buffer && remaining > 0
    requires Reading(compressed, ipos, s, goal) && s == State(window[..], orig, remaining)
    modifies window, buffer
    ensures Reading(compressed, ripos, rs, goal) && rs.out == r && rs.remaining == left < remaining
    ensures left > 0 ==> rs == State(window[..], r, left)
  {
    hide *;
    UseReading(compressed, ipos, s, goal);
    ghost var t := NextToken(compressed, ipos, s, goal);
    TokenSize(t, Flat(compressed), ipos);
    rs := Apply(s, t);
    FlatSize(compressed);
    var state := BitGet(compressed, ipos);
    Shrinks(s, t);
    var length;
    if state {
      var offset, next;
      offset, length, next, ripos := ReadPhrase(compressed, ipos, t);
      r, left := CopyPhrase(window, buffer, orig, remaining, offset, length, next, s);
      length := length + 1;
    } else {
      var next;
      next, ripos := ReadSymbol(compressed, ipos, t);
      r, left := CopySymbol(buffer, orig, remaining, next, s);
      length := 1;
    }
    if left > 0 {
      SlidTo(s, t);
    }
    SlideWindow(window, buffer, length);
  }

  // lz77_uncompress. It has no length of its input, so the input must hold all the bits that the announced
  // size takes, and phrases must lie in the window.
  method Uncompress(compressed: seq<Byte>) returns (orig: seq<Byte>)
    requires DecodeBytes(compressed).Some?
    ensures Some(orig) == DecodeBytes(compressed)
  {
    hide Flat, Reading, ZeroWindow, HostValue;
    var window := new Byte[WINDOW_SIZE](_ => ZERO);
    var buffer := new Byte[BUFFER_SIZE](_ => ZERO);
    orig := [];
    var remaining := HostInt(compressed[..4]);
    var ipos: nat := 32;
    ghost var s := State(ZeroWindow(), [], Announced(compressed[..4]));
    ghost var goal := DecodeBytes(compressed).value;
    AllZero(window[..]);
    StartReading(compressed);
    while remaining > 0
      invariant fresh(window) && fresh(buffer) && window.Length == WINDOW_SIZE && buffer.Length == BUFFER_SIZE
      invariant Reading(compressed, ipos, s, goal) && s.out == orig && s.remaining == if remaining > 0 then remaining else 0
      invariant remaining > 0 ==> s == State(window[..], orig, remaining)
    {
      orig, ipos, remaining, s := UncompressStep(compressed, window, buffer, orig, ipos, remaining, s, goal);
    }
    ReadingDone(compressed, ipos, s, goal);
  }

  lemma AllZero(window: seq<Byte>)
    requires |window| == WINDOW_SIZE && forall i :: 0 <= i < |window| ==> window[i] == ZERO
    ensures window == ZeroWindow()
  {
  }

  lemma StartReading(compressed: seq<Byte>)
    requires DecodeBytes(compressed).Some?
    ensures |compressed| >= 4
    ensures Reading(compressed, 32, State(ZeroWindow(), [], Announced(compressed[..4])), DecodeBytes(compressed).value)
  {
    hide Decode, Announced, ZeroWindow;
    assert compressed == compressed[..4] + compressed[4..];
    FlatAppend(compressed[..4], compressed[4..]);
    assert Flat(compressed)[32..] == Flat(compressed[4..]);
  }

  lemma ReadingDone(compressed: seq<Byte>, ipos: nat, s: State, goal: seq<Byte>)
    requires Reading(compressed, ipos, s, goal) && s.remaining == 0
    ensures s.out == goal
  {
  }

  /** Decompressing what was compressed gives the input back, for every input and also the empty one. */
  method RoundTrip(original: seq<Byte>) returns (restored: seq<Byte>)
    requires |original| < 0x8000_0000
    ensures restored == original
  {
    hide DecodeBytes;
    var compressed, _ := Compress(original);
    restored := Uncompress(compressed);
  }
}
