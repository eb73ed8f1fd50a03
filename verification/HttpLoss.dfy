module HttpLoss {
  // Which data depends on the cut. When the parser fails in a call, that call does not deliver the bytes since
  // its open mark; a call that ended earlier has delivered its part of them. Whether this happens can be told
  // before the second call, from the fields of the parser and the bytes that follow.

  import opened HttpSpec
  import opened HttpSplit
  import opened HttpBody

  /** Where the name ends that goes on in b: its first byte that is no token character, or the end of b. */
  function TokenEnd(b: seq<Octet>): (k: nat)
    ensures k <= |b| && (k < |b| ==> Token(b[k]) == 0) && forall i :: 0 <= i < k ==> Token(b[i]) != 0
  {
    if b == [] || Token(b[0]) == 0 then 0 else 1 + TokenEnd(b[1..])
  }

  /** Where the value ends that goes on in b: its first CR or LF, or the end of b. */
  function LineEnd(b: seq<Octet>): (k: nat)
    ensures k <= |b| && (k < |b| ==> b[k] == CR || b[k] == LF) && forall i :: 0 <= i < k ==> b[i] != CR && b[i] != LF
  {
    if b == [] || b[0] == CR || b[0] == LF then 0 else 1 + LineEnd(b[1..])
  }

  predicate AllSpaces(v: seq<Octet>) {
    forall i :: 0 <= i < |v| ==> v[i] == SP
  }

  /** The number that results from writing the digits of v behind those of n. */
  function Continued(n: nat, v: seq<Octet>): (r: nat)
    requires AllDigitsOrSpaces(v)
    ensures r >= n
    decreases |v|
  {
    if v == [] then n
    else if v[0] == SP then Continued(n, v[1..])
    else Continued(n * 10 + (v[0] - 48), v[1..])
  }

  /** A Content-Length that has been read as n may go on with v. */
  predicate MayGoOn(n: nat, v: seq<Octet>) {
    AllDigitsOrSpaces(v) && (AllSpaces(v) || Continued(n, v) <= MAX_CONTENT_LENGTH)
  }

  // With the fields c, a second call with b loses data that one call for everything would not have delivered:
  // a name that does not end in a colon, a length that is not one, a chunk with something else behind it.
  predicate Breaks(c: Core, b: seq<Octet>)
    requires b != []
  {
    match c.st
    case Field => TokenEnd(b) < |b| && b[TokenEnd(b)] != COLON
    case Value => c.hs == ContentLength && !MayGoOn(c.length, b[..LineEnd(b)])
    case ChunkData => var n := Less(c.length) + 1; |b| > n && b[n] != CR
    case ChunkDataAlmostDone => b[0] != CR
    case _ => false
  }

  // ---- what happens to the open mark ----

  lemma {:induction false} RunCut(cfg: Config, r: Parser, b: seq<Octet>, k: nat)
    requires k <= |b|
    ensures Run(cfg, r, b) == Run(cfg, Run(cfg, r, b[..k]), b[k..])
  {
    hide Run;
    assert b == b[..k] + b[k..];
    RunAppend(cfg, r, b[..k], b[k..]);
  }

  lemma {:induction false} RunTo(cfg: Config, r: Parser, b: seq<Octet>, k: nat)
    requires k < |b|
    ensures var q := Run(cfg, r, b[..k]);
      !Stopped(q.core) ==> Run(cfg, r, b[..k + 1]) == Step(cfg, q, b[k])
  {
    hide Run, Step, Stopped;
    assert b[..k + 1] == b[..k] + [b[k]];
    RunAppend(cfg, r, b[..k], [b[k]]);
    var q := Run(cfg, r, b[..k]);
    if !Stopped(q.core) {
      OneStep(cfg, q, b[k]);
    }
  }

  /** The parser fails on the byte at k, without having delivered anything since r. */
  lemma {:induction false} FailsAt(cfg: Config, r: Parser, b: seq<Octet>, k: nat)
    requires k < |b|
    requires var q := Run(cfg, r, b[..k]); !Stopped(q.core) && q.out == r.out && StepCore(cfg, q.core, b[k]).core.errno != Ok
    ensures Run(cfg, r, b).core.errno != Ok && Run(cfg, r, b).out == r.out
  {
    hide Run, StepCore, Stopped;
    var q := Run(cfg, r, b[..k]);
    RunTo(cfg, r, b, k);
    StepIsOrderly(cfg, q.core, b[k]);
    assert q.out + [] == q.out;
    RunCut(cfg, r, b, k + 1);
    FailedTakesNone(cfg, Run(cfg, r, b[..k + 1]), b[k + 1..]);
  }

  /** Once the mark has been delivered, nothing tells whether there has been a cut. */
  lemma {:induction false} SameIfClosed(cfg: Config, s: Parser, a: seq<Octet>, b: seq<Octet>, k: nat)
    requires s.pend == [] && a != [] && b != [] && k <= |b|
    requires Run(cfg, s, a).core.errno == Ok && Run(cfg, Run(cfg, s, a), b[..k]).pend == []
    ensures Whole(cfg, s, a, b) == InTwo(cfg, s, a, b)
  {
    hide Run, Taken;
    var r, d := Run(cfg, s, a), Call(cfg, s, a);
    RunWellMarked(cfg, s, a);
    assert d.out + d.pend == r.out + r.pend;
    RunAhead(cfg, r, d, b[..k], 0);
    var x, y := Run(cfg, r, b[..k]), Run(cfg, d, b[..k]);
    assert x.out + x.pend == x.out && y.out + y.pend == y.out;
    assert x == y;
    RunCut(cfg, r, b, k);
    RunCut(cfg, d, b, k);
    RunAppend(cfg, s, a, b);
  }

  lemma {:induction false} RunGrows(cfg: Config, s: Parser, data: seq<Octet>)
    ensures |Run(cfg, s, data).out| >= |s.out|
    decreases |data|
  {
    hide StepCore, Stopped;
    if data != [] && !Stopped(s.core) {
      RunGrows(cfg, Step(cfg, s, data[0]), data[1..]);
    }
  }

  /** If the parser fails before the mark has been delivered, the part before the cut makes the difference. */
  lemma {:induction false} LostIfOpen(cfg: Config, s: Parser, a: seq<Octet>, b: seq<Octet>)
    requires s.pend == [] && a != [] && b != [] && Run(cfg, s, a).core.errno == Ok && Run(cfg, s, a).pend != []
    requires var r := Run(cfg, s, a); Run(cfg, r, b).core.errno != Ok && Run(cfg, r, b).out == r.out
    ensures Whole(cfg, s, a, b).out != InTwo(cfg, s, a, b).out
  {
    hide Run;
    var r, d := Run(cfg, s, a), Call(cfg, s, a);
    RunAppend(cfg, s, a, b);
    RunGrows(cfg, d, b);
    assert |d.out| == |r.out| + |r.pend|;
  }

  // ---- names and values that go on ----

  lemma {:induction false} NameGoesOn(cfg: Config, r: Parser, v: seq<Octet>)
    requires r.core.errno == Ok && r.core.st == Field && forall i :: 0 <= i < |v| ==> Token(v[i]) != 0
    ensures var q := Run(cfg, r, v); q.core.errno == Ok && q.core.st == Field && q.out == r.out
    decreases |v|
  {
    hide NameChar, Token;
    if v != [] {
      assert r.out + [] == r.out;
      NameGoesOn(cfg, Step(cfg, r, v[0]), v[1..]);
    }
  }

  lemma NotLength(hs: HeaderState, index: nat, ch: Octet, c: Octet)
    ensures ValueChar(hs, index, ch, c).0 == ContentLength ==> hs == ContentLength
  {
    hide Token;
  }

  lemma {:induction false} OtherValueGoesOn(cfg: Config, r: Parser, v: seq<Octet>)
    requires r.core.errno == Ok && r.core.st == Value && r.core.hs != ContentLength && CR !in v && LF !in v
    ensures var q := Run(cfg, r, v); q.core.errno == Ok && q.core.st == Value && q.out == r.out
    decreases |v|
  {
    hide ValueChar, Lower, SetConnection;
    if v != [] {
      assert r.out + [] == r.out;
      NotLength(r.core.hs, r.core.index, v[0], Lower(v[0]));
      OtherValueGoesOn(cfg, Step(cfg, r, v[0]), v[1..]);
    }
  }

  lemma MayGoOnStep(n: nat, v: seq<Octet>)
    requires v != []
    ensures MayGoOn(n, v) <==>
      if v[0] == SP then MayGoOn(n, v[1..]) else IsDigit(v[0]) && !TooLong(n, 10) && MayGoOn(n * 10 + (v[0] - 48), v[1..])
  {
    assert AllDigitsOrSpaces(v) <==> DigitOrSpace(v[0]) && AllDigitsOrSpaces(v[1..]) by {
      assert v == [v[0]] + v[1..];
    }
    assert AllSpaces(v) <==> v[0] == SP && AllSpaces(v[1..]) by {
      assert v == [v[0]] + v[1..];
    }
    if AllDigitsOrSpaces(v) && AllSpaces(v[1..]) {
      SpacesAdd(if v[0] == SP then n else n * 10 + (v[0] - 48), v[1..]);
    }
  }

  lemma {:induction false} SpacesAdd(n: nat, v: seq<Octet>)
    requires AllSpaces(v)
    ensures AllDigitsOrSpaces(v) && Continued(n, v) == n
    decreases |v|
  {
    if v != [] {
      SpacesAdd(n, v[1..]);
    }
  }

  /** Going on with a number is the same as reading it all at once. */
  lemma {:induction false} ContinuedIsDecimal(w: seq<Octet>, v: seq<Octet>)
    requires AllDigitsOrSpaces(w) && AllDigitsOrSpaces(v)
    ensures AllDigitsOrSpaces(w + v) && Continued(Decimal(w), v) == Decimal(w + v)
    decreases |v|
  {
    hide Decimal, AllDigitsOrSpaces;
    if v == [] {
      assert w + v == w;
    } else {
      Parts(v);
      DecimalStep(w, v[0]);
      assert w + v == (w + [v[0]]) + v[1..];
      ContinuedIsDecimal(w + [v[0]], v[1..]);
    }
  }

  lemma Parts(v: seq<Octet>)
    requires AllDigitsOrSpaces(v) && v != []
    ensures DigitOrSpace(v[0]) && AllDigitsOrSpaces(v[1..])
  {
  }

  lemma {:induction false} LengthGoesOn(cfg: Config, r: Parser, v: seq<Octet>)
    requires r.core.errno == Ok && r.core.st == Value && r.core.hs == ContentLength && CR !in v && LF !in v
    ensures var q := Run(cfg, r, v);
      q.out == r.out && (q.core.errno == Ok <==> MayGoOn(r.core.length, v)) && (q.core.errno == Ok ==> q.core.st == Value)
    decreases |v|
  {
    hide MayGoOn, SetConnection, TooLong, Step;
    if v == [] {
      NothingMore(r.core.length);
    } else {
      MayGoOnStep(r.core.length, v);
      LengthByte(cfg, r, v[0]);
      var q := Step(cfg, r, v[0]);
      if q.core.errno == Ok {
        LengthGoesOn(cfg, q, v[1..]);
      } else {
        FailedTakesNone(cfg, q, v[1..]);
      }
    }
  }

  lemma NothingMore(n: nat)
    ensures MayGoOn(n, [])
  {
  }

  lemma LengthByte(cfg: Config, r: Parser, ch: Octet)
    requires r.core.errno == Ok && r.core.st == Value && r.core.hs == ContentLength && ch != CR && ch != LF
    ensures var q := Step(cfg, r, ch);
      q.out == r.out && (q.core.errno == Ok <==> ch == SP || (IsDigit(ch) && !TooLong(r.core.length, 10))) &&
      (q.core.errno == Ok ==> q.core == r.core.(length := if ch == SP then r.core.length else r.core.length * 10 + (ch - 48)))
  {
    hide TooLong, SetConnection;
    NoComma(r.core.flags);
    assert r.out + [] == r.out;
  }

  // ---- the decision, state by state ----

  // Either the second call breaks what is open, or the parser does not fail at all, or the mark has been
  // delivered after k of its bytes.
  ghost predicate Decided(cfg: Config, r: Parser, b: seq<Octet>, k: nat)
    requires b != [] && k <= |b|
  {
    if Breaks(r.core, b) then Run(cfg, r, b).core.errno != Ok && Run(cfg, r, b).out == r.out
    else Run(cfg, r, b).core.errno == Ok || Run(cfg, r, b[..k]).pend == []
  }

  lemma NameDecides(cfg: Config, r: Parser, b: seq<Octet>) returns (k: nat)
    requires r.core.errno == Ok && r.core.st == Field && b != []
    ensures k <= |b| && Decided(cfg, r, b, k)
  {
    hide Run, TokenEnd, Token;
    k := TokenEnd(b);
    NameGoesOn(cfg, r, b[..k]);
    if k == |b| {
      assert b[..k] == b;
    } else {
      RunTo(cfg, r, b, k);
      if b[k] != COLON {
        FailsAt(cfg, r, b, k);
      } else {
        k := k + 1;
      }
    }
  }

  lemma ValueDecides(cfg: Config, r: Parser, b: seq<Octet>) returns (k: nat)
    requires r.core.errno == Ok && r.core.st == Value && b != []
    ensures k <= |b| && Decided(cfg, r, b, k)
  {
    hide Run, LineEnd, MayGoOn;
    k := LineEnd(b);
    var v := b[..k];
    if r.core.hs == ContentLength {
      LengthGoesOn(cfg, r, v);
    } else {
      OtherValueGoesOn(cfg, r, v);
    }
    if Breaks(r.core, b) {
      RunCut(cfg, r, b, k);
      FailedTakesNone(cfg, Run(cfg, r, v), b[k..]);
    } else if k == |b| {
      assert v == b;
    } else {
      RunTo(cfg, r, b, k);
      k := k + 1;
    }
  }

  lemma BodyDecides(cfg: Config, r: Parser, b: seq<Octet>) returns (k: nat)
    requires r.core.errno == Ok && r.core.st == BodyIdentity && b != []
    ensures k <= |b| && Decided(cfg, r, b, k)
  {
    hide Run, NewMessage;
    if |b| < r.core.length {
      PartOfBody(cfg, r, b);
      k := 0;
    } else if r.core.length > 0 {
      k := r.core.length;
      WholeBody(cfg, r, b[..k]);
    } else {
      RunTo(cfg, r, b, 0);
      EmptyRuns(cfg, r, b);
      k := 1;
    }
  }

  lemma {:induction false} EmptyRuns(cfg: Config, r: Parser, b: seq<Octet>)
    ensures Run(cfg, r, b[..0]) == r
  {
  }

  lemma {:induction false} ChunkDecides(cfg: Config, r: Parser, b: seq<Octet>) returns (k: nat)
    requires r.core.errno == Ok && r.core.st == ChunkData && b != []
    ensures k <= |b| && Decided(cfg, r, b, k)
  {
    hide Run;
    k := Less(r.core.length) + 1;
    if |b| < k {
      PartOfChunk(cfg, r, b);
      k := 0;
    } else {
      ChunkBytesTaken(cfg, r, b[..k]);
      if |b| == k {
        assert b[..k] == b;
      } else {
        RunTo(cfg, r, b, k);
        if b[k] != CR {
          FailsAt(cfg, r, b, k);
        } else {
          k := k + 1;
        }
      }
    }
  }

  lemma {:induction false} ChunkBytesTaken(cfg: Config, r: Parser, b: seq<Octet>)
    requires r.core.errno == Ok && r.core.st == ChunkData && |b| == Less(r.core.length) + 1
    ensures var q := Run(cfg, r, b); q.core.errno == Ok && q.core.st == ChunkDataAlmostDone && q.out == r.out
  {
    hide Run;
    if r.core.length > 0 {
      ChunkDataRuns(cfg, r, b);
    } else {
      OneStep(cfg, r, b[0]);
      assert b == [b[0]] && r.out + [] == r.out;
    }
  }

  lemma ChunkEndDecides(cfg: Config, r: Parser, b: seq<Octet>) returns (k: nat)
    requires r.core.errno == Ok && r.core.st == ChunkDataAlmostDone && b != []
    ensures k <= |b| && Decided(cfg, r, b, k)
  {
    hide Run;
    k := 1;
    EmptyRuns(cfg, r, b);
    RunTo(cfg, r, b, 0);
    if b[0] != CR {
      FailsAt(cfg, r, b, 0);
    }
  }

  lemma AllDecide(cfg: Config, r: Parser, b: seq<Octet>) returns (k: nat)
    requires r.core.errno == Ok && b != [] && WellMarked(r)
    ensures k <= |b| && Decided(cfg, r, b, k)
  {
    hide Run, TokenEnd, LineEnd, MayGoOn;
    k := 0;
    EmptyRuns(cfg, r, b);
    if r.core.st == Field {
      k := NameDecides(cfg, r, b);
    } else if r.core.st == Value {
      k := ValueDecides(cfg, r, b);
    } else if r.core.st == BodyIdentity {
      k := BodyDecides(cfg, r, b);
    } else if r.core.st == BodyIdentityEof {
      EofBodyRuns(cfg, r, b);
    } else if r.core.st == ChunkData {
      k := ChunkDecides(cfg, r, b);
    } else if r.core.st == ChunkDataAlmostDone {
      k := ChunkEndDecides(cfg, r, b);
    }
  }

  // One call and two calls deliver the same data if and only if the second does not break what is open: the
  // parser is fine after the first call, a mark is open, and the fields and the next bytes say that it fails.
  lemma {:induction false} LostData(cfg: Config, s: Parser, a: seq<Octet>, b: seq<Octet>)
    requires s.pend == [] && a != [] && b != []
    ensures var r := Run(cfg, s, a);
      Whole(cfg, s, a, b).out == InTwo(cfg, s, a, b).out <==> !(r.core.errno == Ok && r.pend != [] && Breaks(r.core, b))
  {
    hide Run, Breaks, WellMarked;
    var r := Run(cfg, s, a);
    SplitIndependence(cfg, s, a, b);
    RunAppend(cfg, s, a, b);
    if r.core.errno != Ok {
      FailedTakesNone(cfg, r, b);
      FailedTakesNone(cfg, EndCall(r), b);
    } else if r.pend == [] {
      EmptyRuns(cfg, r, b);
      SameIfClosed(cfg, s, a, b, 0);
    } else {
      StartMarked(s);
      RunWellMarked(cfg, s, a);
      var k := AllDecide(cfg, r, b);
      if Breaks(r.core, b) {
        LostIfOpen(cfg, s, a, b);
      } else if Run(cfg, r, b).core.errno != Ok {
        SameIfClosed(cfg, s, a, b, k);
      }
    }
  }

  lemma StartMarked(s: Parser)
    requires s.pend == []
    ensures WellMarked(s)
  {
  }

  /** The second byte of a chunk is missing its line end: one call loses the body byte, two calls deliver it. */
  lemma LostDataExample(cfg: Config, s: Parser)
    requires s.core.st == ChunkData && s.core.errno == Ok && s.core.length == 1 && s.pend == []
    ensures Whole(cfg, s, [65], [66]).core.errno == Strict
    ensures InTwo(cfg, s, [65], [66]).out == Whole(cfg, s, [65], [66]).out + [Data(BodyData, 65)]
  {
    var data: seq<Octet> := [65, 66];
    assert [65] + [66] == data && data[1..] == [66];
    var r := Step(cfg, s, 65);
    assert r == Parser(s.core.(st := ChunkDataAlmostDone, length := 0), s.out, [Data(BodyData, 65)]);
    assert Step(cfg, r, 66).core.errno == Strict;
  }
}
