module HttpSplit {
  // The parser does not depend on how its input is cut into calls: the same fields, the same notifications,
  // and the same data in the same order. The exception is the data of a call that fails: what it lost since the
  // last mark, it has delivered if the input was cut in between.

  import opened HttpSpec

  /** The states in which a mark can be open. */
  predicate Marking(st: St) {
    st in {Field, Value, BodyIdentity, BodyIdentityEof, ChunkData, ChunkDataAlmostDone}
  }

  ghost predicate WellMarked(s: Parser) {
    s.pend != [] && s.core.errno == Ok ==> Marking(s.core.st)
  }

  ghost predicate OnlyData(out: seq<Event>) {
    forall i :: 0 <= i < |out| ==> out[i].Data?
  }

  /** A byte fails, or it joins the open mark, or it closes the mark, or no mark is open before and after. */
  ghost predicate Orderly(c: Core, d: Did) {
    OnlyData(d.act.mark) && d.core.errno != HeaderOverflow &&
    if d.core.errno != Ok then d.act == NOTHING
    else if d.act.flush then |d.act.mark| <= 1
    else if |d.act.mark| == 1 then d.act.events == [] && Marking(d.core.st)
    else d.act.mark == [] && !Marking(c.st)
  }

  lemma HeadersAreOrderly(cfg: Config, c: Core, ch: Octet)
    requires c.errno == Ok && !Marking(c.st)
    ensures Orderly(c, StepHeadersDone(cfg, c)) && Orderly(c, StepHeadersAlmostDone(cfg, c, ch))
    ensures StepHeadersDone(cfg, c).act.mark == []
  {
    hide NewMessage, NeedsEof, HasBody;
  }

  lemma FieldStartIsOrderly(cfg: Config, c: Core, ch: Octet)
    requires c.errno == Ok && !Marking(c.st)
    ensures Orderly(c, StepFieldStart(cfg, c, ch)) && Orderly(c, StepFieldStart(cfg, EndHeader(c).(st := FieldStart), ch))
  {
    hide NameStart, Token, StepHeadersAlmostDone, SetConnection;
    HeadersAreOrderly(cfg, c.(st := HeadersAlmostDone), ch);
    HeadersAreOrderly(cfg, EndHeader(c).(st := HeadersAlmostDone), ch);
  }

  lemma ValueStartIsOrderly(c: Core, ch: Octet)
    requires c.errno == Ok && !Marking(c.st)
    ensures Orderly(c, StepValueStart(c, ch)) && Orderly(c, StepValueStart(c.(st := ValueStart), ch))
  {
    hide ValueFirst, Lower;
  }

  lemma StepIsOrderly(cfg: Config, c: Core, ch: Octet)
    requires !Stopped(c)
    ensures Orderly(c, StepCore(cfg, c, ch))
  {
    hide NameChar, ValueChar, SetConnection, NewMessage, Token, Lower, Unhex, TooLong, EndHeader,
      StepHeadersDone, StepHeadersAlmostDone, StepFieldStart, StepValueStart;
    if !Marking(c.st) {
      HeadersAreOrderly(cfg, c, ch);
      FieldStartIsOrderly(cfg, c, ch);
      ValueStartIsOrderly(c, ch);
    }
  }

  /** d is like s, but has delivered a part of the data of the open mark already. */
  ghost predicate Ahead(s: Parser, d: Parser) {
    s.core == d.core && s.out + s.pend == d.out + d.pend && |d.pend| <= |s.pend|
  }

  /** k bytes ago d has delivered all: its open mark cannot be older, and it is that of s unless s has an older one. */
  ghost predicate Since(s: Parser, d: Parser, k: nat) {
    Ahead(s, d) && WellMarked(s) && WellMarked(d) && |d.pend| <= k && (|s.pend| == |d.pend| || |s.pend| > |d.pend| == k)
  }

  lemma PerformAhead(s: Parser, d: Parser, k: nat, did: Did)
    requires Since(s, d, k) && s.core.errno == Ok && Orderly(s.core, did)
    ensures Since(Perform(s, did), Perform(d, did), if did.core.errno == Ok then k + 1 else k)
  {
    var mark := did.act.mark;
    assert (s.out + s.pend) + mark == s.out + (s.pend + mark);
    assert (d.out + d.pend) + mark == d.out + (d.pend + mark);
    assert s.out + [] == s.out && d.out + [] == d.out && s.pend + [] == s.pend && d.pend + [] == d.pend;
  }

  lemma {:induction false} RunAhead(cfg: Config, s: Parser, d: Parser, data: seq<Octet>, k: nat)
    requires Since(s, d, k)
    ensures Since(Run(cfg, s, data), Run(cfg, d, data), k + Taken(cfg, d, data))
    decreases |data|
  {
    hide StepCore, Perform, Since, Outside;
    SameCore(s, d, k);
    if data != [] && !Stopped(s.core) {
      StepIsOrderly(cfg, s.core, data[0]);
      PerformAhead(s, d, k, StepCore(cfg, s.core, data[0]));
      var s1, d1 := Step(cfg, s, data[0]), Step(cfg, d, data[0]);
      PerformCore(s, StepCore(cfg, s.core, data[0]));
      PerformCore(d, StepCore(cfg, s.core, data[0]));
      if s1.core.errno == Ok {
        RunAhead(cfg, s1, d1, data[1..], k + 1);
      } else {
        RunAhead(cfg, s1, d1, data[1..], k);
        FailedTakesNone(cfg, d1, data[1..]);
      }
    }
  }

  lemma SameCore(s: Parser, d: Parser, k: nat)
    requires Since(s, d, k)
    ensures s.core == d.core
  {
  }

  lemma PerformCore(s: Parser, did: Did)
    ensures Perform(s, did).core == did.core
  {
  }

  lemma {:induction false} FailedTakesNone(cfg: Config, s: Parser, data: seq<Octet>)
    requires s.core.errno != Ok
    ensures Taken(cfg, s, data) == 0 && Run(cfg, s, data) == s
  {
  }

  lemma {:induction false} RunWellMarked(cfg: Config, s: Parser, data: seq<Octet>)
    requires WellMarked(s)
    ensures WellMarked(Run(cfg, s, data))
    decreases |data|
  {
    hide StepCore, Outside;
    if data != [] && !Stopped(s.core) {
      StepIsOrderly(cfg, s.core, data[0]);
      RunWellMarked(cfg, Step(cfg, s, data[0]), data[1..]);
    }
  }

  /** The notifications among the callbacks. */
  function Notifications(out: seq<Event>): seq<Event> {
    if out == [] then []
    else
      var rest, e := Notifications(out[..|out| - 1]), out[|out| - 1];
      if e.Data? then rest else rest + [e]
  }

  /** The concatenated data of one callback. */
  function DataOf(out: seq<Event>, kind: Kind): seq<Octet> {
    if out == [] then []
    else
      var rest, e := DataOf(out[..|out| - 1], kind), out[|out| - 1];
      if e.Data? && e.kind == kind then rest + [e.b] else rest
  }

  lemma {:induction false} DataNotifiesNothing(out: seq<Event>, more: seq<Event>)
    requires OnlyData(more)
    ensures Notifications(out + more) == Notifications(out)
  {
    if more == [] {
      assert out + more == out;
    } else {
      var n := |more| - 1;
      assert (out + more)[..|out| + n] == out + more[..n];
      DataNotifiesNothing(out, more[..n]);
    }
  }

  lemma {:induction false} PendIsData(cfg: Config, s: Parser, data: seq<Octet>)
    requires OnlyData(s.pend)
    ensures OnlyData(Run(cfg, s, data).pend)
    decreases |data|
  {
    hide StepCore, Outside;
    if data != [] && !Stopped(s.core) {
      StepIsOrderly(cfg, s.core, data[0]);
      PendIsData(cfg, Step(cfg, s, data[0]), data[1..]);
    }
  }

  /** What one call makes of a + b, and what a call with a and then one with b make of it. */
  function Whole(cfg: Config, s: Parser, a: seq<Octet>, b: seq<Octet>): Parser {
    Call(cfg, s, a + b)
  }

  function InTwo(cfg: Config, s: Parser, a: seq<Octet>, b: seq<Octet>): Parser {
    Call(cfg, Call(cfg, s, a), b)
  }

  lemma {:induction false} CutRuns(cfg: Config, s: Parser, a: seq<Octet>, b: seq<Octet>)
    requires s.pend == [] && a != [] && Run(cfg, s, a).core.errno == Ok
    ensures Since(Run(cfg, s, a + b), Run(cfg, Call(cfg, s, a), b), Taken(cfg, Call(cfg, s, a), b))
  {
    hide Run, Taken;
    var r, d := Run(cfg, s, a), Call(cfg, s, a);
    RunWellMarked(cfg, s, a);
    RunAppend(cfg, s, a, b);
    assert d.out + d.pend == r.out + r.pend;
    RunAhead(cfg, r, d, b, 0);
  }

  // Cutting the input at any place changes neither the fields of the parser nor its notifications, and as
  // long as the parser does not fail, it does not change the data either.
  lemma SplitIndependence(cfg: Config, s: Parser, a: seq<Octet>, b: seq<Octet>)
    requires s.pend == [] && a != [] && b != []
    ensures Whole(cfg, s, a, b).core == InTwo(cfg, s, a, b).core
    ensures Notifications(Whole(cfg, s, a, b).out) == Notifications(InTwo(cfg, s, a, b).out)
    ensures Whole(cfg, s, a, b).core.errno == Ok ==> Whole(cfg, s, a, b) == InTwo(cfg, s, a, b)
    ensures Whole(cfg, s, a, b).out <= InTwo(cfg, s, a, b).out
  {
    hide Run, Taken, Notifications;
    var r, d := Run(cfg, s, a), Call(cfg, s, a);
    if r.core.errno == Ok {
      CutRuns(cfg, s, a, b);
      var x, y := Run(cfg, s, a + b), Run(cfg, d, b);
      assert x.out <= y.out by { PrefixOf(x.out, x.pend, y.out, y.pend); }
      PendIsData(cfg, s, a + b);
      PendIsData(cfg, d, b);
      DataNotifiesNothing(x.out, x.pend);
      DataNotifiesNothing(y.out, y.pend);
    } else {
      RunAppend(cfg, s, a, b);
      FailedTakesNone(cfg, r, b);
      FailedTakesNone(cfg, d, b);
    }
  }

  lemma PrefixOf(a: seq<Event>, b: seq<Event>, c: seq<Event>, d: seq<Event>)
    requires a + b == c + d && |d| <= |b|
    ensures a <= c
  {
    assert |a| <= |c|;
    forall i | 0 <= i < |a| ensures a[i] == c[i] {
      assert (a + b)[i] == (c + d)[i];
    }
  }

  // ---- any number of cuts ----

  function Calls(cfg: Config, s: Parser, parts: seq<seq<Octet>>): Parser {
    if parts == [] then s else Call(cfg, Calls(cfg, s, parts[..|parts| - 1]), parts[|parts| - 1])
  }

  function Join(parts: seq<seq<Octet>>): seq<Octet> {
    if parts == [] then [] else Join(parts[..|parts| - 1]) + parts[|parts| - 1]
  }

  /** No call is empty: an empty one would end the connection. */
  predicate NonEmpty(parts: seq<seq<Octet>>) {
    forall i :: 0 <= i < |parts| ==> parts[i] != []
  }

  /** However the input is cut into calls with data: if the parser does not fail, all is as in one call. */
  lemma {:induction false} AnyCutting(cfg: Config, s: Parser, parts: seq<seq<Octet>>)
    requires s.pend == [] && NonEmpty(parts) && Run(cfg, s, Join(parts)).core.errno == Ok
    ensures Calls(cfg, s, parts) == EndCall(Run(cfg, s, Join(parts)))
    ensures parts != [] ==> Join(parts) != [] && Calls(cfg, s, parts) == Call(cfg, s, Join(parts))
    decreases |parts|
  {
    hide Run;
    if parts == [] {
      NothingRead(cfg, s);
    } else {
      var n := |parts| - 1;
      var a, b := Join(parts[..n]), parts[n];
      RunAppend(cfg, s, a, b);
      OkBefore(cfg, Run(cfg, s, a), b);
      AnyCutting(cfg, s, parts[..n]);
      if n == 0 {
        assert a + b == b && parts[..n] == [];
      } else {
        SplitIndependence(cfg, s, a, b);
      }
    }
  }

  lemma {:induction false} NothingRead(cfg: Config, s: Parser)
    requires s.pend == []
    ensures EndCall(Run(cfg, s, [])) == s
  {
    assert s.out + [] == s.out;
  }

  // An empty call changes nothing exactly when no message is being read. It completes a body that lasts until the
  // connection ends; in every other place the end of the connection is an error.
  lemma {:induction false} EmptyCall(cfg: Config, s: Parser)
    ensures Call(cfg, s, []) == s <==> s.core.errno != Ok || s.core.st in {Dead, StartReq, StartRes}
    ensures s.core.errno == Ok && s.core.st == BodyIdentityEof ==> Call(cfg, s, []) == s.(out := s.out + [MessageComplete])
    ensures s.core.errno == Ok && s.core.st !in {Dead, StartReq, StartRes, BodyIdentityEof} ==>
      Call(cfg, s, []) == s.(core := s.core.(errno := InvalidEofState))
  {
    assert |s.out + [MessageComplete]| == |s.out| + 1;
  }

  lemma {:induction false} OkBefore(cfg: Config, s: Parser, data: seq<Octet>)
    requires Run(cfg, s, data).core.errno == Ok
    ensures s.core.errno == Ok
  {
  }
}
