module Lz77Greedy {
  // Which tokens the compressor of algorithms/maic/lz77.c writes: at each position the longest match that the
  // window has for the look-ahead buffer, with the first place where it occurs, and a byte alone if there is none.

  import opened BitBytes
  import opened Lz77Bits
  import opened Lz77

  /** The m bytes at k in the window are the first m in the buffer. */
  predicate MatchesAt(window: seq<Byte>, buffer: seq<Byte>, k: nat, m: nat) {
    k + m <= |window| && m <= |buffer| && window[k..k + m] == buffer[..m]
  }

  /** No match of more than longest bytes before k. */
  ghost predicate NoneLonger(window: seq<Byte>, buffer: seq<Byte>, k: nat, longest: nat) {
    forall i, m :: 0 <= i < k && longest < m < BUFFER_SIZE ==> !MatchesAt(window, buffer, i, m)
  }

  /** How many bytes the token covers. */
  function Covers(t: Token): nat {
    if t.Phrase? then t.length + 1 else 1
  }

  /** The token is the choice for what is in the window and in the buffer. */
  ghost predicate Greedy(window: seq<Byte>, buffer: seq<Byte>, t: Token) {
    |window| == WINDOW_SIZE && |buffer| == BUFFER_SIZE && ValidToken(t) && t.next == buffer[Covers(t) - 1] &&
    NoneLonger(window, buffer, WINDOW_SIZE, Covers(t) - 1) &&
    (t.Phrase? ==> t.length > 0 && MatchesAt(window, buffer, t.offset, t.length) &&
                   forall k :: 0 <= k < t.offset ==> !MatchesAt(window, buffer, k, t.length))
  }

  lemma GreedyLength(window: seq<Byte>, buffer: seq<Byte>, t: Token, u: Token)
    requires Greedy(window, buffer, t) && Greedy(window, buffer, u)
    ensures Covers(t) >= Covers(u)
  {
    if u.Phrase? {
      assert MatchesAt(window, buffer, u.offset, u.length);
    }
  }

  /** There is one such token. */
  lemma GreedyIsUnique(window: seq<Byte>, buffer: seq<Byte>, t: Token, u: Token)
    requires Greedy(window, buffer, t) && Greedy(window, buffer, u)
    ensures t == u
  {
    hide MatchesAt, NoneLonger;
    GreedyLength(window, buffer, t, u);
    GreedyLength(window, buffer, u, t);
  }

  // ---- the whole input ----

  function Min(a: int, b: int): int {
    if a < b then a else b
  }

  /** The window before position p: the last bytes of the input, with zeros before its beginning. */
  function Past(original: seq<Byte>, p: nat): (r: seq<Byte>)
    requires p <= |original|
    ensures |r| == WINDOW_SIZE
  {
    (ZeroWindow() + original[..p])[p..]
  }

  /** The look-ahead buffer at the start: the first bytes of the input, and zeros behind them. */
  function FirstBuffer(original: seq<Byte>): (r: seq<Byte>)
    ensures |r| == BUFFER_SIZE
  {
    var m := Min(BUFFER_SIZE, |original|);
    original[..m] + ZeroWindow()[..BUFFER_SIZE - m]
  }

  /** The buffer n bytes further on. The end of a buffer that the input no longer fills keeps its bytes. */
  function Refilled(buffer: seq<Byte>, original: seq<Byte>, ipos: nat, n: nat): (r: seq<Byte>)
    requires |buffer| == BUFFER_SIZE && n <= BUFFER_SIZE && ipos <= |original|
    ensures |r| == BUFFER_SIZE
  {
    var m := Min(n, |original| - ipos);
    buffer[n..] + original[ipos..ipos + m] + buffer[BUFFER_SIZE - n + m..]
  }

  predicate AllValid(ts: seq<Token>) {
    forall i :: 0 <= i < |ts| ==> ValidToken(ts[i])
  }

  /** The position behind the tokens. */
  function Position(ts: seq<Token>): nat {
    if ts == [] then 0 else Position(ts[..|ts| - 1]) + Covers(ts[|ts| - 1])
  }

  /** What is in the buffer there. */
  function Ahead(original: seq<Byte>, ts: seq<Token>): (r: seq<Byte>)
    requires AllValid(ts)
    ensures |r| == BUFFER_SIZE
  {
    if ts == [] then FirstBuffer(original)
    else
      var n := |ts| - 1;
      Refilled(Ahead(original, ts[..n]), original, Min(Position(ts[..n]) + BUFFER_SIZE, |original|), Covers(ts[n]))
  }

  /** Every token is the choice at its position, and the input was not over before it. */
  ghost predicate GreedyTokens(original: seq<Byte>, ts: seq<Token>) {
    AllValid(ts) && forall j :: 0 <= j < |ts| ==> GreedyAt(original, ts, j)
  }

  ghost predicate GreedyAt(original: seq<Byte>, ts: seq<Token>, j: nat)
    requires AllValid(ts) && j < |ts|
  {
    Position(ts[..j]) < |original| && Greedy(Past(original, Position(ts[..j])), Ahead(original, ts[..j]), ts[j])
  }

  /** The greedy tokens for the whole input. */
  ghost predicate Factors(original: seq<Byte>, ts: seq<Token>) {
    GreedyTokens(original, ts) && Position(ts) >= |original|
  }

  lemma {:induction false} GreedyMore(original: seq<Byte>, ts: seq<Token>, t: Token)
    requires GreedyTokens(original, ts) && Position(ts) < |original| && ValidToken(t)
    requires Greedy(Past(original, Position(ts)), Ahead(original, ts), t)
    ensures GreedyTokens(original, ts + [t]) && Position(ts + [t]) == Position(ts) + Covers(t)
    ensures Ahead(original, ts + [t]) ==
      Refilled(Ahead(original, ts), original, Min(Position(ts) + BUFFER_SIZE, |original|), Covers(t))
  {
    hide Greedy, Past, Refilled;
    var us := ts + [t];
    assert us[..|ts|] == ts;
    forall j | 0 <= j < |us| ensures GreedyAt(original, us, j) {
      assert us[..j] == ts[..j];
      assert j == |ts| || GreedyAt(original, ts, j);
      assert ts[..|ts|] == ts;
    }
  }

  lemma {:induction false} CommonStart(original: seq<Byte>, ts: seq<Token>, us: seq<Token>, j: nat)
    requires GreedyTokens(original, ts) && GreedyTokens(original, us) && j <= |ts| && j <= |us|
    ensures ts[..j] == us[..j]
    decreases j
  {
    if j > 0 {
      CommonStart(original, ts, us, j - 1);
      assert GreedyAt(original, ts, j - 1) && GreedyAt(original, us, j - 1);
      GreedyIsUnique(Past(original, Position(ts[..j - 1])), Ahead(original, ts[..j - 1]), ts[j - 1], us[j - 1]);
    }
  }

  /** There is one list of greedy tokens for an input. */
  lemma {:induction false} FactorsAreUnique(original: seq<Byte>, ts: seq<Token>, us: seq<Token>)
    requires Factors(original, ts) && Factors(original, us)
    ensures ts == us
  {
    hide Position, GreedyTokens, GreedyAt;
    var j := Min(|ts|, |us|);
    CommonStart(original, ts, us, j);
    if |ts| > j {
      assert us[..j] == us;
      NoLonger(original, ts, j);
    } else if |us| > j {
      assert ts[..j] == ts;
      NoLonger(original, us, j);
    } else {
      assert ts == ts[..j] && us == us[..j];
    }
  }

  lemma NoLonger(original: seq<Byte>, ts: seq<Token>, j: nat)
    requires GreedyTokens(original, ts) && j < |ts|
    ensures Position(ts[..j]) < |original|
  {
    assert GreedyAt(original, ts, j);
  }

  // ---- what that is good for ----

  predicate AllZero(s: seq<Byte>) {
    forall i :: 0 <= i < |s| ==> s[i] == ZERO
  }

  const ZERO_PHRASE := Phrase(0, 31, ZERO)

  function Phrases(n: nat): (r: seq<Token>)
    ensures |r| == n && AllValid(r)
  {
    seq(n, i => ZERO_PHRASE)
  }

  lemma ZeroPhraseIsGreedy(window: seq<Byte>, buffer: seq<Byte>)
    requires |window| == WINDOW_SIZE && |buffer| == BUFFER_SIZE && AllZero(window) && AllZero(buffer)
    ensures Greedy(window, buffer, ZERO_PHRASE)
  {
    assert window[0..31] == buffer[..31];
  }

  lemma {:induction false} ZerosAhead(original: seq<Byte>, n: nat)
    requires AllZero(original)
    ensures AllZero(Ahead(original, Phrases(n))) && Position(Phrases(n)) == 32 * n
  {
    hide Refilled, AllZero;
    if n > 0 {
      ZerosAhead(original, n - 1);
      assert Phrases(n)[..n - 1] == Phrases(n - 1);
      ZerosRefilled(Ahead(original, Phrases(n - 1)), original, Min(32 * (n - 1) + BUFFER_SIZE, |original|), 32);
    } else {
      ZerosFirst(original);
    }
  }

  lemma ZerosRefilled(buffer: seq<Byte>, original: seq<Byte>, ipos: nat, n: nat)
    requires |buffer| == BUFFER_SIZE && n <= BUFFER_SIZE && ipos <= |original| && AllZero(buffer) && AllZero(original)
    ensures AllZero(Refilled(buffer, original, ipos, n))
  {
  }

  lemma ZerosFirst(original: seq<Byte>)
    requires AllZero(original)
    ensures AllZero(FirstBuffer(original)) && Phrases(0) == []
  {
  }

  lemma {:induction false} BitsOfPhrases(n: nat)
    ensures |AllBits(Phrases(n))| == PHRASE_BITS * n
  {
    hide TokenBits;
    if n > 0 {
      BitsOfPhrases(n - 1);
      assert Phrases(n)[..n - 1] == Phrases(n - 1);
    }
  }

  lemma PastZeros(original: seq<Byte>, p: nat)
    requires AllZero(original) && p <= |original|
    ensures AllZero(Past(original, p))
  {
  }

  /** Zeros shrink to 26 bits for every 32 bytes. */
  lemma {:induction false} ZerosShrink(original: seq<Byte>, ts: seq<Token>, n: nat)
    requires AllZero(original) && |original| == 32 * n && Factors(original, ts)
    ensures ts == Phrases(n) && |AllBits(ts)| == PHRASE_BITS * n
  {
    hide Greedy, Past, Ahead, Position, AllBits, AllZero;
    var us := Phrases(n);
    forall j | 0 <= j < |us| ensures GreedyAt(original, us, j) {
      ZerosAhead(original, j);
      assert us[..j] == Phrases(j);
      PastZeros(original, 32 * j);
      ZeroPhraseIsGreedy(Past(original, 32 * j), Ahead(original, Phrases(j)));
    }
    ZerosAhead(original, n);
    FactorsAreUnique(original, ts, us);
    BitsOfPhrases(n);
  }
}
