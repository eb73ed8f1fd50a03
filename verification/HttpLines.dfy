module HttpLines {
  // Header lines in every form that http_parser.c takes: any name, blanks and line breaks before the value, a
  // value that is empty or goes on over several lines, lines that end in CRLF or in LF alone. What each of them
  // delivers, and what it says about the body and the connection.

  import opened HttpSpec
  import opened HttpSplit
  import opened HttpBody
  import opened HttpHeaders
  import opened HttpConnection

  /** A line of a value, with what ends it. */
  datatype Seg = Seg(text: seq<Octet>, end: seq<Octet>)

  /** A header: its name, what stands between the colon and the value, and the lines of the value. */
  datatype Line = Line(name: seq<Octet>, gap: seq<Octet>, segs: seq<Seg>)

  predicate Eol(e: seq<Octet>) {
    e == CRLF || e == [LF]
  }

  predicate BlankOrTab(ch: Octet) {
    ch == SP || ch == TAB
  }

  /** Blanks, and ends of lines that the next line continues. */
  predicate Gap(g: seq<Octet>) {
    g == [] ||
    (BlankOrTab(g[0]) && Gap(g[1..])) ||
    (g[0] == LF && |g| > 1 && BlankOrTab(g[1]) && Gap(g[2..])) ||
    (g[0] == CR && |g| > 2 && g[1] == LF && BlankOrTab(g[2]) && Gap(g[3..]))
  }

  function SegBytes(segs: seq<Seg>): seq<Octet> {
    if segs == [] then [] else segs[0].text + segs[0].end + SegBytes(segs[1..])
  }

  function Texts(segs: seq<Seg>): seq<Octet> {
    if segs == [] then [] else segs[0].text + Texts(segs[1..])
  }

  function LineBytes(l: Line): seq<Octet> {
    l.name + [COLON] + l.gap + SegBytes(l.segs)
  }

  function Lines(ls: seq<Line>): seq<Octet> {
    if ls == [] then [] else LineBytes(ls[0]) + Lines(ls[1..])
  }

  predicate ValidSeg(g: Seg) {
    CR !in g.text && LF !in g.text && Eol(g.end)
  }

  /** Lines that continue a value. */
  predicate Continues(segs: seq<Seg>) {
    forall i :: 0 <= i < |segs| ==> ValidSeg(segs[i]) && segs[i].text != [] && BlankOrTab(segs[i].text[0])
  }

  predicate HasValue(l: Line) {
    l.segs != [] && l.segs[0].text != []
  }

  predicate AboutConnection(l: Line) {
    Equals(Lowered(l.name), "connection") || Equals(Lowered(l.name), "proxy-connection")
  }

  predicate AboutUpgrade(l: Line) {
    Equals(Lowered(l.name), "upgrade")
  }

  predicate AboutCoding(l: Line) {
    Equals(Lowered(l.name), "transfer-encoding")
  }

  predicate AboutLength(l: Line) {
    Equals(Lowered(l.name), "content-length")
  }

  /** The value of a Content-Length has to be one. */
  ghost predicate ValidLine(l: Line) {
    IsName(l.name) && Gap(l.gap) && l.segs != [] && ValidSeg(l.segs[0]) && Continues(l.segs[1..]) &&
    (if HasValue(l) then !BlankOrTab(l.segs[0].text[0]) else |l.segs| == 1) &&
    (AboutLength(l) && HasValue(l) ==> |l.segs| == 1 && IsDigit(l.segs[0].text[0]) && Acceptable(l.segs[0].text))
  }

  ghost predicate ValidLines(ls: seq<Line>) {
    forall i :: 0 <= i < |ls| ==> ValidLine(ls[i])
  }

  // ---- what lines say ----

  /** The flags, and the length that was given, if one was. */
  datatype Meaning = Meaning(flags: Flags, length: nat)

  /** The lines of a value, the continuing ones without the blank in front. */
  function Pieces(segs: seq<Seg>): seq<seq<Octet>> {
    if segs == [] then [] else [segs[0].text] + Rest(segs[1..])
  }

  function Rest(segs: seq<Seg>): (r: seq<seq<Octet>>)
    ensures |r| == |segs|
  {
    if segs == [] then []
    else [if segs[0].text == [] then [] else segs[0].text[1..]] + Rest(segs[1..])
  }

  predicate SaysChunked(l: Line) {
    AboutCoding(l) && |l.segs| == 1 && IsChunked(l.segs[0].text)
  }

  ghost predicate SaysLength(l: Line) {
    AboutLength(l) && HasValue(l)
  }

  /** An empty value says nothing. */
  ghost function Told(m: Meaning, l: Line): Meaning
    requires ValidLine(l)
  {
    if !HasValue(l) then m
    else if AboutConnection(l) then m.(flags := NotedAll(m.flags, First, Pieces(l.segs)))
    else if AboutUpgrade(l) then m.(flags := m.flags.(upgrade := true))
    else if SaysChunked(l) then m.(flags := m.flags.(chunked := true))
    else if SaysLength(l) then m.(length := Decimal(l.segs[0].text))
    else m
  }

  ghost function ToldAll(m: Meaning, ls: seq<Line>): Meaning
    requires ValidLines(ls)
    decreases |ls|
  {
    if ls == [] then m else ToldAll(Told(m, ls[0]), ls[1..])
  }

  /** The header gives the connection this option. */
  predicate Gives(l: Line, word: string) {
    HasValue(l) && AboutConnection(l) && HeardInAll(First, Pieces(l.segs), word)
  }

  /** Some header does. */
  ghost predicate Tells(ls: seq<Line>, word: string) {
    exists i :: 0 <= i < |ls| && Gives(ls[i], word)
  }

  ghost predicate AsksUpgrade(ls: seq<Line>) {
    exists i :: 0 <= i < |ls| && HasValue(ls[i]) && AboutUpgrade(ls[i])
  }

  ghost predicate TellsChunked(ls: seq<Line>) {
    exists i :: 0 <= i < |ls| && SaysChunked(ls[i])
  }

  /** The length in the last header that gives one. */
  ghost predicate LastLength(ls: seq<Line>, before: nat, n: nat)
    requires ValidLines(ls)
  {
    (n == before && forall i :: 0 <= i < |ls| ==> !SaysLength(ls[i])) ||
    exists i :: 0 <= i < |ls| && SaysLength(ls[i]) && n == Decimal(ls[i].segs[0].text) && forall j :: i < j < |ls| ==> !SaysLength(ls[j])
  }

  lemma Names(l: Line)
    ensures AboutConnection(l) ==> !AboutUpgrade(l) && !AboutCoding(l) && !AboutLength(l)
    ensures AboutUpgrade(l) ==> !AboutCoding(l) && !AboutLength(l)
    ensures AboutCoding(l) ==> !AboutLength(l)
  {
    hide Lowered;
  }

  lemma ChunkedHasValue(l: Line)
    ensures SaysChunked(l) ==> HasValue(l)
  {
  }

  /** One header: which flags it sets. */
  lemma {:induction false} ToldOne(m: Meaning, l: Line)
    requires ValidLine(l)
    ensures var r := Told(m, l).flags;
      r == m.flags.(close := m.flags.close || Gives(l, "close"), keepAlive := m.flags.keepAlive || Gives(l, "keep-alive"),
        connUpgrade := m.flags.connUpgrade || Gives(l, "upgrade"), upgrade := m.flags.upgrade || (HasValue(l) && AboutUpgrade(l)),
        chunked := m.flags.chunked || SaysChunked(l))
    ensures Told(m, l).length == if SaysLength(l) then Decimal(l.segs[0].text) else m.length
  {
    hide AboutConnection, AboutUpgrade, AboutCoding, AboutLength, HeardInAll, ValidLine, Pieces, IsChunked, Decimal;
    Names(l);
    ChunkedHasValue(l);
  }

  lemma {:induction false} ExistsMore(ls: seq<Line>, word: string)
    requires ls != []
    ensures Tells(ls, word) <==> Gives(ls[0], word) || Tells(ls[1..], word)
    ensures AsksUpgrade(ls) <==> (HasValue(ls[0]) && AboutUpgrade(ls[0])) || AsksUpgrade(ls[1..])
    ensures TellsChunked(ls) <==> SaysChunked(ls[0]) || TellsChunked(ls[1..])
  {
    hide Gives, HasValue, AboutUpgrade, SaysChunked;
    var rest := ls[1..];
    forall i | 0 < i < |ls| ensures ls[i] == rest[i - 1] {}
    forall i | 0 <= i < |rest| ensures rest[i] == ls[i + 1] {}
  }

  /** What all headers together have said: every flag that some header sets, and the last length. */
  lemma {:induction false} ToldTogether(m: Meaning, ls: seq<Line>)
    requires ValidLines(ls)
    ensures var r := ToldAll(m, ls).flags;
      r == m.flags.(close := m.flags.close || Tells(ls, "close"), keepAlive := m.flags.keepAlive || Tells(ls, "keep-alive"),
        connUpgrade := m.flags.connUpgrade || Tells(ls, "upgrade"), upgrade := m.flags.upgrade || AsksUpgrade(ls),
        chunked := m.flags.chunked || TellsChunked(ls))
    decreases |ls|
  {
    hide ValidLine, Told, Tells, AsksUpgrade, TellsChunked, Gives, HasValue, AboutUpgrade, SaysChunked;
    if ls == [] {
      NobodyTells();
    } else {
      ToldOne(m, ls[0]);
      ToldTogether(Told(m, ls[0]), ls[1..]);
      ExistsMore(ls, "close");
      ExistsMore(ls, "keep-alive");
      ExistsMore(ls, "upgrade");
    }
  }

  lemma NobodyTells()
    ensures !AsksUpgrade([]) && !TellsChunked([]) && forall word :: !Tells([], word)
  {
  }

  lemma {:induction false} LengthTold(m: Meaning, ls: seq<Line>)
    requires ValidLines(ls)
    ensures LastLength(ls, m.length, ToldAll(m, ls).length)
    decreases |ls|
  {
    hide ValidLine, Told, SaysLength, Decimal;
    if ls != [] {
      var rest := ls[1..];
      ToldOne(m, ls[0]);
      LengthTold(Told(m, ls[0]), rest);
      forall i | 0 < i < |ls| ensures ls[i] == rest[i - 1] {}
      forall i | 0 <= i < |rest| ensures rest[i] == ls[i + 1] {}
    }
  }

  lemma {:induction false} ToldAppend(m: Meaning, a: seq<Line>, b: seq<Line>)
    requires ValidLines(a) && ValidLines(b)
    ensures ValidLines(a + b) && ToldAll(m, a + b) == ToldAll(ToldAll(m, a), b)
    decreases |a|
  {
    hide ValidLine, Told;
    if a == [] {
      assert a + b == b;
    } else {
      assert (a + b)[0] == a[0] && (a + b)[1..] == a[1..] + b;
      ToldAppend(Told(m, a[0]), a[1..], b);
    }
  }

  // ---- between lines ----

  /** Between two lines; the parser has not yet recorded what the last one said. */
  ghost predicate AtLine(s: Parser) {
    s.core.errno == Ok && s.core.st in {FieldStart, ValueLws, DiscardLws} && s.pend == []
  }

  /** The parser with that recorded. */
  function Settled(s: Parser): Parser {
    if s.core.st == FieldStart then s else s.(core := EndHeader(s.core).(st := FieldStart))
  }

  /** The lines up to here have said this. */
  ghost predicate Says(s: Parser, m: Meaning) {
    AtLine(s) && Settled(s).core.flags == m.flags && s.core.length == m.length
  }

  lemma {:induction false} SettledRuns(cfg: Config, s: Parser, data: seq<Octet>)
    requires AtLine(s) && data != [] && !BlankOrTab(data[0])
    ensures Run(cfg, s, data) == Run(cfg, Settled(s), data)
    ensures AtLine(Settled(s)) && Settled(s).core.st == FieldStart && Settled(s).out == s.out && Settled(s).core.length == s.core.length
    ensures Settled(s).core.upgrade == s.core.upgrade
  {
    hide StepFieldStart, SetConnection, Run;
    if s.core.st != FieldStart {
      assert Step(cfg, s, data[0]) == Step(cfg, Settled(s), data[0]);
      RunHead(cfg, s, data);
      RunHead(cfg, Settled(s), data);
    }
  }

  // ---- up to the value ----

  lemma {:induction false} GapRuns(cfg: Config, s: Parser, gap: seq<Octet>)
    requires s.core.errno == Ok && s.core.st == DiscardWs && Gap(gap)
    ensures Run(cfg, s, gap) == s
    decreases |gap|
  {
    hide Step, Run;
    if gap == [] {
      EmptyRun(cfg, s, gap);
    } else if BlankOrTab(gap[0]) {
      GapStep(cfg, s, gap[0]);
      RunHead(cfg, s, gap);
      GapRuns(cfg, s, gap[1..]);
    } else if gap[0] == LF {
      GapStep(cfg, s, gap[1]);
      assert gap == [LF, gap[1]] + gap[2..];
      RunAppend(cfg, s, [LF, gap[1]], gap[2..]);
      GapRuns(cfg, s, gap[2..]);
    } else {
      GapStep(cfg, s, gap[2]);
      assert gap == [CR, LF, gap[2]] + gap[3..];
      RunAppend(cfg, s, [CR, LF, gap[2]], gap[3..]);
      GapRuns(cfg, s, gap[3..]);
    }
  }

  lemma GapBytes(cfg: Config, s: Parser, r: Parser, q: Parser, ch: Octet)
    requires s.core.errno == Ok && s.core.st == DiscardWs && BlankOrTab(ch)
    requires r == s.(core := s.core.(st := DiscardLws)) && q == s.(core := s.core.(st := DiscardWsAlmostDone))
    ensures Step(cfg, s, ch) == s && Step(cfg, s, LF) == r && Step(cfg, s, CR) == q
    ensures Step(cfg, q, LF) == r && Step(cfg, r, ch) == s
    ensures !Stopped(s.core) && !Stopped(r.core) && !Stopped(q.core)
  {
    hide StepFieldStart, EndHeader, StepValueStart;
    assert s.out + [] == s.out && s.pend + [] == s.pend;
  }

  lemma {:induction false} GapStep(cfg: Config, s: Parser, ch: Octet)
    requires s.core.errno == Ok && s.core.st == DiscardWs && BlankOrTab(ch)
    ensures Step(cfg, s, ch) == s
    ensures Run(cfg, s, [LF, ch]) == s && Run(cfg, s, [CR, LF, ch]) == s
    ensures Run(cfg, s, [LF]) == s.(core := s.core.(st := DiscardLws)) == Run(cfg, s, CRLF)
  {
    hide *;
    var r, q := s.(core := s.core.(st := DiscardLws)), s.(core := s.core.(st := DiscardWsAlmostDone));
    GapBytes(cfg, s, r, q, ch);
    OneStep(cfg, s, LF);
    OneStep(cfg, s, CR);
    OneStep(cfg, q, LF);
    OneStep(cfg, r, ch);
    LineEnd();
    assert CRLF == [CR] + [LF] && [LF, ch] == [LF] + [ch] && [CR, LF, ch] == CRLF + [ch];
    RunAppend(cfg, s, [CR], [LF]);
    RunAppend(cfg, s, [LF], [ch]);
    RunAppend(cfg, s, CRLF, [ch]);
  }

  lemma LineEnd()
    ensures CRLF == [CR] + [LF] && CRLF == [CR, LF]
  {
  }

  /** Up to the value of a line. */
  lemma LineBegins(cfg: Config, s: Parser, l: Line) returns (t: Parser)
    requires AtLine(s) && ValidLine(l)
    ensures t == Run(cfg, s, l.name + [COLON] + l.gap)
    ensures t.core.errno == Ok && t.core.st == DiscardWs && t.pend == [] && t.out == s.out + DataEvents(FieldData, l.name)
    ensures t.core.flags == Settled(s).core.flags && t.core.length == s.core.length && t.core.upgrade == s.core.upgrade
    ensures (t.core.hs == TransferEncoding <==> AboutCoding(l)) && (t.core.hs == ContentLength <==> AboutLength(l)) &&
      (t.core.hs == Upgrade <==> AboutUpgrade(l)) && (t.core.hs == Connection <==> AboutConnection(l)) &&
      t.core.hs !in {ConnTokenStart, Chunked, ConnKeepAlive, ConnClose, ConnUpgrade}
  {
    hide Run, Lowered, Equals, AtLine, Settled, Known, DataEvents, Gap;
    t := Run(cfg, s, l.name + [COLON] + l.gap);
    NameFirst(l);
    SettledRuns(cfg, s, l.name + [COLON] + l.gap);
    var q := Settled(s);
    UseAtLine(q);
    HeaderName(cfg, q, l.name);
    RunAppend(cfg, q, l.name + [COLON], l.gap);
    GapRuns(cfg, Run(cfg, q, l.name + [COLON]), l.gap);
  }

  lemma UseAtLine(s: Parser)
    requires AtLine(s)
    ensures s.core.errno == Ok && s.pend == []
  {
  }

  lemma NameFirst(l: Line)
    requires ValidLine(l)
    ensures l.name + [COLON] + l.gap != [] && (l.name + [COLON] + l.gap)[0] == l.name[0] && !BlankOrTab(l.name[0])
    ensures LineBytes(l) != []
  {
    assert Token(SP) == 0 && Token(TAB) == 0;
  }

  // ---- the text of a value ----

  /** The header states in which the text of a value is read, but for a Content-Length. */
  predicate TextState(hs: HeaderState) {
    hs in {General, ConnTokenStart, ConnToken, MatchKeepAlive, MatchClose, MatchConnUpgrade, ConnKeepAlive, ConnClose, ConnUpgrade,
           MatchChunked, Chunked}
  }

  lemma MatchGives(word: string, index: nat, c: Octet, no: HeaderState, done: HeaderState, still: HeaderState)
    ensures Match(word, index, c, no, done, still) in {no, done, still}
  {
  }

  lemma TextStateKept(hs: HeaderState, index: nat, ch: Octet, c: Octet)
    ensures hs != ContentLength ==> TextState(ValueFirst(hs, c))
    ensures TextState(hs) ==> TextState(ValueChar(hs, index, ch, c).0)
  {
    hide Match, Token;
    MatchGives("keep-alive", index + 1, c, ConnToken, ConnKeepAlive, MatchKeepAlive);
    MatchGives("close", index + 1, c, ConnToken, ConnClose, MatchClose);
    MatchGives("upgrade", index + 1, c, ConnToken, ConnUpgrade, MatchConnUpgrade);
    MatchGives("chunked", index + 1, c, General, Chunked, MatchChunked);
  }

  /** What the text v of a value leaves behind. */
  ghost predicate ReadText(s: Parser, q: Parser, v: seq<Octet>) {
    q.core.errno == Ok && q.core.st == Value && TextState(q.core.hs) && q.out == s.out &&
    q.pend == s.pend + DataEvents(ValueData, v) && q.core.length == s.core.length && q.core.upgrade == s.core.upgrade
  }

  /** The first byte of a value, and the blank in front of a line that continues one. */
  lemma TextFirst(cfg: Config, s: Parser, ch: Octet)
    requires s.core.errno == Ok && s.core.hs != ContentLength && ch != CR && ch != LF
    requires (s.core.st == DiscardWs && !BlankOrTab(ch)) || (s.core.st == ValueLws && BlankOrTab(ch))
    ensures ReadText(s, Step(cfg, s, ch), [ch])
  {
    hide Lower, ValueFirst, TextState;
    TextStateKept(s.core.hs, 0, ch, Lower(ch));
    assert DataEvents(ValueData, [ch]) == [Data(ValueData, ch)];
    assert s.out + [] == s.out;
  }

  lemma TextByte(cfg: Config, s: Parser, ch: Octet)
    requires s.core.errno == Ok && s.core.st == Value && TextState(s.core.hs) && ch != CR && ch != LF
    ensures ReadText(s, Step(cfg, s, ch), [ch])
  {
    hide Lower, ValueChar, SetConnection, TooLong;
    TextStateKept(s.core.hs, s.core.index, ch, Lower(ch));
    assert DataEvents(ValueData, [ch]) == [Data(ValueData, ch)];
    assert s.out + [] == s.out;
  }

  lemma ReadMore(s: Parser, q: Parser, r: Parser, v: seq<Octet>, w: seq<Octet>)
    requires ReadText(s, q, v) && ReadText(q, r, w)
    ensures ReadText(s, r, v + w)
  {
    assert s.pend + DataEvents(ValueData, v) + DataEvents(ValueData, w) == s.pend + DataEvents(ValueData, v + w);
  }

  lemma {:induction false} TextRuns(cfg: Config, s: Parser, v: seq<Octet>)
    requires s.core.errno == Ok && s.core.st == Value && TextState(s.core.hs) && CR !in v && LF !in v
    ensures ReadText(s, Run(cfg, s, v), v)
    decreases |v|
  {
    hide Step, TextState;
    if v == [] {
      assert s.pend + DataEvents(ValueData, v) == s.pend;
    } else {
      TextByte(cfg, s, v[0]);
      var q := Step(cfg, s, v[0]);
      TextRuns(cfg, q, v[1..]);
      ReadMore(s, q, Run(cfg, q, v[1..]), [v[0]], v[1..]);
      assert v == [v[0]] + v[1..];
    }
  }

  lemma {:induction false} WholeText(cfg: Config, s: Parser, v: seq<Octet>)
    requires s.core.errno == Ok && s.core.hs != ContentLength && v != [] && CR !in v && LF !in v
    requires (s.core.st == DiscardWs && !BlankOrTab(v[0])) || (s.core.st == ValueLws && BlankOrTab(v[0]))
    ensures ReadText(s, Run(cfg, s, v), v)
  {
    hide Step, Run, TextState;
    TextFirst(cfg, s, v[0]);
    var q := Step(cfg, s, v[0]);
    RunHead(cfg, s, v);
    UseReadText(s, q, [v[0]]);
    TextRuns(cfg, q, v[1..]);
    ReadMore(s, q, Run(cfg, q, v[1..]), [v[0]], v[1..]);
    assert v == [v[0]] + v[1..];
  }

  lemma UseReadText(s: Parser, q: Parser, v: seq<Octet>)
    requires ReadText(s, q, v)
    ensures q.core.errno == Ok && q.core.st == Value && TextState(q.core.hs)
  {
  }

  /** The end of a line of a value: its text is delivered. */
  lemma {:induction false} TextEnds(cfg: Config, s: Parser, end: seq<Octet>)
    requires s.core.errno == Ok && s.core.st == Value && Eol(end)
    ensures Run(cfg, s, end) == Parser(s.core.(st := ValueLws), s.out + s.pend, [])
  {
    hide Run;
    assert s.out + (s.pend + []) + [] == s.out + s.pend;
    OneStep(cfg, s, LF);
    if end == CRLF {
      assert CRLF == [CR] + [LF];
      RunAppend(cfg, s, [CR], [LF]);
      OneStep(cfg, s, CR);
      var r := Parser(s.core.(st := HeaderAlmostDone), s.out + s.pend, []);
      assert r.out + [] == r.out;
      OneStep(cfg, r, LF);
    }
  }

  /** What a whole value, or the rest of one, leaves behind. */
  ghost predicate ReadSegs(s: Parser, r: Parser, segs: seq<Seg>) {
    r.core.errno == Ok && r.core.st == ValueLws && TextState(r.core.hs) && r.pend == [] &&
    r.out == s.out + DataEvents(ValueData, Texts(segs)) && r.core.length == s.core.length && r.core.upgrade == s.core.upgrade
  }

  lemma {:induction false} SegRuns(cfg: Config, s: Parser, g: Seg)
    requires s.core.errno == Ok && s.core.hs != ContentLength && g.text != [] && ValidSeg(g) && s.pend == []
    requires (s.core.st == DiscardWs && !BlankOrTab(g.text[0])) || (s.core.st == ValueLws && BlankOrTab(g.text[0]))
    ensures var q, r := Run(cfg, s, g.text), Run(cfg, s, g.text + g.end);
      q.core.errno == Ok && q.core.st == Value && r == Parser(q.core.(st := ValueLws), q.out + q.pend, []) && ReadSegs(s, r, [g])
  {
    hide Run, DataEvents, TextState, Eol;
    WholeText(cfg, s, g.text);
    RunAppend(cfg, s, g.text, g.end);
    TextEnds(cfg, Run(cfg, s, g.text), g.end);
    assert [] + DataEvents(ValueData, g.text) == DataEvents(ValueData, g.text);
    assert Texts([g]) == g.text by {
      assert [g][1..] == [] && g.text + [] == g.text;
    }
  }

  lemma {:induction false} MoreSegs(s: Parser, q: Parser, r: Parser, g: Seg, segs: seq<Seg>)
    requires ReadSegs(s, q, [g]) && ReadSegs(q, r, segs)
    ensures ReadSegs(s, r, [g] + segs)
  {
    hide TextState;
    assert ([g] + segs)[1..] == segs && [g][1..] == [];
    assert Texts([g]) == g.text + [] == g.text;
    assert Texts([g] + segs) == g.text + Texts(segs);
    assert DataEvents(ValueData, g.text) + DataEvents(ValueData, Texts(segs)) == DataEvents(ValueData, g.text + Texts(segs));
  }

  lemma {:induction false} ContRuns(cfg: Config, s: Parser, segs: seq<Seg>)
    requires s.core.errno == Ok && s.core.st == ValueLws && TextState(s.core.hs) && s.pend == [] && Continues(segs)
    ensures ReadSegs(s, Run(cfg, s, SegBytes(segs)), segs)
    decreases |segs|
  {
    hide Run, DataEvents, ValidSeg;
    if segs == [] {
      EmptyRun(cfg, s, []);
      assert DataEvents(ValueData, []) == [] && s.out + [] == s.out;
    } else {
      var g := segs[0];
      SegRuns(cfg, s, g);
      var q := Run(cfg, s, g.text + g.end);
      RunAppend(cfg, s, g.text + g.end, SegBytes(segs[1..]));
      ContRuns(cfg, q, segs[1..]);
      MoreSegs(s, q, Run(cfg, q, SegBytes(segs[1..])), g, segs[1..]);
      assert segs == [g] + segs[1..];
    }
  }

  // ---- what a value does to the flags ----

  /** A value that is not for the connection, once the parser has lost interest in it. */
  lemma {:induction false} GeneralRuns(cfg: Config, s: Parser, v: seq<Octet>)
    requires s.core.errno == Ok && s.core.st == Value && s.core.hs == General && CR !in v && LF !in v
    ensures Run(cfg, s, v).core == s.core
    decreases |v|
  {
    hide Step;
    if v != [] {
      GeneralByte(cfg, s, v[0]);
      GeneralRuns(cfg, Step(cfg, s, v[0]), v[1..]);
    }
  }

  lemma GeneralByte(cfg: Config, s: Parser, ch: Octet)
    requires s.core.errno == Ok && s.core.st == Value && s.core.hs == General && ch != CR && ch != LF
    ensures Step(cfg, s, ch).core == s.core
  {
    hide Lower, TooLong;
  }

  lemma {:induction false} GeneralValue(cfg: Config, s: Parser, v: seq<Octet>)
    requires s.core.errno == Ok && s.core.st == DiscardWs && s.core.hs !in {TransferEncoding, ContentLength, Connection, ConnTokenStart}
    requires v != [] && !BlankOrTab(v[0]) && CR !in v && LF !in v
    ensures var c := Run(cfg, s, v).core;
      c.hs == General && c.flags == if s.core.hs == Upgrade then s.core.flags.(upgrade := true) else s.core.flags
  {
    hide Run, Lower;
    RunHead(cfg, s, v);
    GeneralRuns(cfg, Step(cfg, s, v[0]), v[1..]);
  }

  lemma FoldLoses(cfg: Config, s: Parser, ch: Octet)
    requires s.core.errno == Ok && s.core.st == ValueLws && s.core.hs in {General, Chunked, MatchChunked} && BlankOrTab(ch)
    ensures var c := Step(cfg, s, ch).core; c.errno == Ok && c.st == Value && c.hs == General && c.flags == s.core.flags
  {
    hide Lower;
  }

  /** Lines that continue a value which is not for the connection: whatever it was, it is no longer "chunked". */
  lemma {:induction false} PlainCont(cfg: Config, s: Parser, segs: seq<Seg>)
    requires s.core.errno == Ok && s.core.st == ValueLws && s.core.hs in {General, Chunked, MatchChunked} && s.pend == []
    requires Continues(segs)
    ensures var r := Run(cfg, s, SegBytes(segs));
      r.core.flags == s.core.flags && (if segs == [] then r == s else r.core.hs == General)
    decreases |segs|
  {
    hide Run, ValidSeg, Step;
    if segs == [] {
      EmptyRun(cfg, s, []);
    } else {
      var g := segs[0];
      UseSeg(g);
      SegRuns(cfg, s, g);
      FoldLoses(cfg, s, g.text[0]);
      RunHead(cfg, s, g.text);
      GeneralRuns(cfg, Step(cfg, s, g.text[0]), g.text[1..]);
      var q := Run(cfg, s, g.text + g.end);
      RunAppend(cfg, s, g.text + g.end, SegBytes(segs[1..]));
      UseReadSegs(s, q, [g]);
      PlainCont(cfg, q, segs[1..]);
    }
  }

  lemma UseSeg(g: Seg)
    requires ValidSeg(g)
    ensures CR !in g.text && LF !in g.text && Eol(g.end)
  {
  }

  lemma UseReadSegs(s: Parser, r: Parser, segs: seq<Seg>)
    requires ReadSegs(s, r, segs)
    ensures r.core.errno == Ok && r.core.st == ValueLws && r.pend == []
  {
  }

  /** Lines that continue the value of a Connection header, of which the elements of p have been read. */
  lemma {:induction false} ConnCont(cfg: Config, f: Flags, ear: Ear, p: seq<Octet>, q: Parser, segs: seq<Seg>)
    requires HasRead(f, ear, Elements(p), q) && Continues(segs) && TextState(q.core.hs)
    ensures var s := Parser(q.core.(st := ValueLws), q.out + q.pend, []);
      EndHeader(Run(cfg, s, SegBytes(segs)).core).flags == NotedAll(f, ear, [p] + Rest(segs))
    decreases |segs|
  {
    hide *;
    var s := Parser(q.core.(st := ValueLws), q.out + q.pend, []);
    SegsBegin(segs);
    UseHasRead(f, ear, Elements(p), q);
    if segs == [] {
      EmptyRun(cfg, s, []);
      ReadToEnd(f, ear, Elements(p), q);
      EndIgnoresState(q.core);
      NotedOne(f, ear, p);
      assert [p] + [] == [p];
    } else {
      var g, tail, es := segs[0], segs[1..], Elements(p);
      FoldStep(cfg, f, ear, es, q, g.text[0]);
      RunsFrom(cfg, s, g.text);
      var x, v := Step(cfg, s, g.text[0]), g.text[1..];
      RestOfValue(cfg, x, EarFold(ear, es), [], v);
      assert [] + v == v;
      SegRuns(cfg, s, g);
      TextKept(cfg, s, g);
      RunAppend(cfg, s, g.text + g.end, SegBytes(tail));
      ConnCont(cfg, Noted(f, ear, es[..|es| - 1]), EarFold(ear, es), v, Run(cfg, x, v), tail);
      NotedFold(f, ear, p, [v] + Rest(tail));
      assert [p] + ([v] + Rest(tail)) == [p] + Rest(segs);
    }
  }

  lemma SegsBegin(segs: seq<Seg>)
    requires Continues(segs)
    ensures segs == [] ==> SegBytes(segs) == [] && Rest(segs) == []
    ensures segs != [] ==> ValidSeg(segs[0]) && segs[0].text != [] && BlankOrTab(segs[0].text[0]) && Continues(segs[1..])
    ensures segs != [] ==> (segs[0].text[0] == SP || segs[0].text[0] == TAB) && CR !in segs[0].text[1..] && LF !in segs[0].text[1..]
    ensures segs != [] ==> SegBytes(segs) == segs[0].text + segs[0].end + SegBytes(segs[1..])
    ensures segs != [] ==> Rest(segs) == [segs[0].text[1..]] + Rest(segs[1..])
  {
  }

  lemma UseHasRead(f: Flags, ear: Ear, es: seq<seq<Octet>>, q: Parser)
    requires HasRead(f, ear, es, q) && TextState(q.core.hs)
    ensures es != [] && q.core.errno == Ok && q.core.st == Value && q.core.hs != ContentLength
  {
  }

  lemma EndIgnoresState(c: Core)
    ensures EndHeader(c.(st := ValueLws)).flags == EndHeader(c).flags
  {
  }

  lemma {:induction false} RunsFrom(cfg: Config, s: Parser, v: seq<Octet>)
    requires s.core.errno == Ok && s.core.st == ValueLws && v != []
    ensures Run(cfg, s, v) == Run(cfg, Step(cfg, s, v[0]), v[1..])
  {
    hide Step;
    RunHead(cfg, s, v);
  }

  lemma {:induction false} TextKept(cfg: Config, s: Parser, g: Seg)
    requires ReadSegs(s, Run(cfg, s, g.text + g.end), [g])
    requires var r := Run(cfg, s, g.text); Run(cfg, s, g.text + g.end) == Parser(r.core.(st := ValueLws), r.out + r.pend, [])
    ensures TextState(Run(cfg, s, g.text).core.hs)
  {
    hide Run;
  }

  // ---- whole lines ----

  function LineEvents(l: Line): seq<Event> {
    DataEvents(FieldData, l.name) + DataEvents(ValueData, Texts(l.segs))
  }

  function LinesEvents(ls: seq<Line>): seq<Event> {
    if ls == [] then [] else LineEvents(ls[0]) + LinesEvents(ls[1..])
  }

  /** The value of a line, from its first byte on, but for a Content-Length. */
  lemma {:induction false} ValueRuns(cfg: Config, t: Parser, l: Line) returns (q: Parser, u: Parser, r: Parser)
    requires t.core.errno == Ok && t.core.st == DiscardWs && t.pend == [] && t.core.hs != ContentLength && ValidLine(l) && HasValue(l)
    ensures q == Run(cfg, t, l.segs[0].text) && q.core.errno == Ok && q.core.st == Value && TextState(q.core.hs)
    ensures u == Parser(q.core.(st := ValueLws), q.out + q.pend, []) && r == Run(cfg, u, SegBytes(l.segs[1..]))
    ensures r == Run(cfg, t, SegBytes(l.segs)) && ReadSegs(t, r, l.segs)
  {
    hide Run, Gap, IsName, Acceptable, DataEvents, TextState, ValidSeg;
    var g, tail := l.segs[0], l.segs[1..];
    SegRuns(cfg, t, g);
    q := Run(cfg, t, g.text);
    u := Run(cfg, t, g.text + g.end);
    TextKept(cfg, t, g);
    UseReadSegs(t, u, [g]);
    RunAppend(cfg, t, g.text + g.end, SegBytes(tail));
    StillText(t, u, [g]);
    ContRuns(cfg, u, tail);
    r := Run(cfg, u, SegBytes(tail));
    MoreSegs(t, u, r, g, tail);
    assert l.segs == [g] + tail;
  }

  lemma StillText(s: Parser, r: Parser, segs: seq<Seg>)
    requires ReadSegs(s, r, segs)
    ensures TextState(r.core.hs)
  {
  }

  /** What it records at the end. */
  lemma {:induction false} ValueTold(cfg: Config, t: Parser, l: Line, m: Meaning, q: Parser, u: Parser, r: Parser)
    requires t.core.errno == Ok && t.core.st == DiscardWs && t.core.flags == m.flags && ValidLine(l) && HasValue(l) && !AboutLength(l)
    requires (t.core.hs == TransferEncoding <==> AboutCoding(l)) && t.core.hs !in {ContentLength, ConnTokenStart} &&
      (t.core.hs == Upgrade <==> AboutUpgrade(l)) && (t.core.hs == Connection <==> AboutConnection(l)) && t.pend == []
    requires q == Run(cfg, t, l.segs[0].text) && u == Parser(q.core.(st := ValueLws), q.out + q.pend, [])
    requires q.core.errno == Ok && q.core.st == Value && TextState(q.core.hs) && r == Run(cfg, u, SegBytes(l.segs[1..]))
    ensures EndHeader(r.core).flags == Told(m, l).flags
  {
    hide Run, Gap, IsName, Acceptable, TextState, ValidSeg, AboutConnection, AboutUpgrade, AboutCoding, AboutLength,
      NotedAll, HasRead, Elements, SetConnection, Rest;
    var v, tail := l.segs[0].text, l.segs[1..];
    Names(l);
    ToldOne(m, l);
    FirstText(l);
    if AboutConnection(l) {
      ValueRead(cfg, t, v);
      ConnCont(cfg, m.flags, First, v, q, tail);
    } else if AboutCoding(l) {
      ChunkedValue(cfg, t, v);
      PlainCont(cfg, u, tail);
      CodingEnds(m.flags, l, q.core.hs, r.core);
    } else {
      GeneralValue(cfg, t, v);
      PlainCont(cfg, u, tail);
      GeneralEnds(r.core);
    }
  }

  lemma FirstText(l: Line)
    requires ValidLine(l) && HasValue(l)
    ensures var v := l.segs[0].text;
      v != [] && !BlankOrTab(v[0]) && v[0] != SP && v[0] != TAB && CR !in v && LF !in v && Continues(l.segs[1..])
  {
  }

  lemma GeneralEnds(c: Core)
    requires c.hs == General
    ensures EndHeader(c).flags == c.flags
  {
  }

  lemma CodingEnds(f: Flags, l: Line, hs: HeaderState, c: Core)
    requires l.segs != [] && hs in {Chunked, MatchChunked, General} && c.flags == f
    requires if |l.segs| == 1 then c.hs == hs && (hs == Chunked <==> IsChunked(l.segs[0].text)) else c.hs == General
    ensures EndHeader(c).flags == f.(chunked := f.chunked || (|l.segs| == 1 && IsChunked(l.segs[0].text)))
  {
    hide IsChunked;
  }

  lemma {:induction false} EmptyLine(cfg: Config, s: Parser, t: Parser, l: Line, m: Meaning)
    requires Says(s, m) && ValidLine(l) && !HasValue(l) && t == Run(cfg, s, l.name + [COLON] + l.gap)
    requires t.core.errno == Ok && t.core.st == DiscardWs && t.pend == [] && t.out == s.out + DataEvents(FieldData, l.name)
    requires t.core.flags == m.flags && t.core.length == m.length && t.core.hs !in {Chunked, ConnKeepAlive, ConnClose, ConnUpgrade}
    ensures var r := Run(cfg, s, LineBytes(l)); Says(r, m) && r.out == s.out + LineEvents(l) && r.core.upgrade == t.core.upgrade
  {
    hide Run, Gap, IsName, Acceptable, Decimal, Continues;
    var end := l.segs[0].end;
    assert SegBytes(l.segs) == end by {
      assert l.segs[1..] == [] && [] + end + [] == end;
    }
    assert Texts(l.segs) == [] by {
      assert l.segs[1..] == [];
    }
    RunAppend(cfg, s, l.name + [COLON] + l.gap, end);
    GapStep(cfg, t, SP);
    assert DataEvents(ValueData, []) == [] && DataEvents(FieldData, l.name) + [] == DataEvents(FieldData, l.name);
  }

  lemma {:induction false} LengthLine(cfg: Config, s: Parser, t: Parser, l: Line, m: Meaning)
    requires Says(s, m) && ValidLine(l) && HasValue(l) && AboutLength(l) && t == Run(cfg, s, l.name + [COLON] + l.gap)
    requires t.core.errno == Ok && t.core.st == DiscardWs && t.pend == [] && t.out == s.out + DataEvents(FieldData, l.name)
    requires t.core.flags == m.flags && t.core.length == m.length && t.core.hs == ContentLength
    ensures var r := Run(cfg, s, LineBytes(l)); Says(r, Told(m, l)) && r.out == s.out + LineEvents(l) && r.core.upgrade == t.core.upgrade
  {
    hide Run, Gap, IsName, Decimal, Continues, AllDigitsOrSpaces, AboutConnection, AboutUpgrade, AboutCoding, AboutLength,
      DataEvents, Says, ValidSeg;
    var g := l.segs[0];
    FirstText(l);
    UseSeg(g);
    Names(l);
    ToldOne(m, l);
    ContentLengthValue(cfg, t, g.text);
    var q := Run(cfg, t, g.text);
    RunAppend(cfg, t, g.text, g.end);
    TextEnds(cfg, q, g.end);
    RunAppend(cfg, s, l.name + [COLON] + l.gap, SegBytes(l.segs));
    OneSeg(l);
    assert [] + DataEvents(ValueData, g.text) == DataEvents(ValueData, g.text);
    var r := Run(cfg, t, g.text + g.end);
    assert r.out == s.out + (DataEvents(FieldData, l.name) + DataEvents(ValueData, g.text));
    LengthSays(m, l, q, r);
  }

  lemma OneSeg(l: Line)
    requires |l.segs| == 1
    ensures SegBytes(l.segs) == l.segs[0].text + l.segs[0].end && Texts(l.segs) == l.segs[0].text
  {
    assert l.segs[1..] == [] && l.segs[0].text + l.segs[0].end + [] == l.segs[0].text + l.segs[0].end;
    assert l.segs[0].text + [] == l.segs[0].text;
  }

  lemma LengthSays(m: Meaning, l: Line, q: Parser, r: Parser)
    requires ValidLine(l) && q.core.errno == Ok && q.core.hs == ContentLength && q.core.flags == m.flags
    requires r.core == q.core.(st := ValueLws) && r.pend == []
    ensures Says(r, Meaning(m.flags, q.core.length))
  {
    hide ValidLine;
  }

  // One header, from the state between two lines to the next: it says what it should, its name and the lines of
  // its value are delivered, and the line breaks between them are not.
  lemma {:induction false} LineRuns(cfg: Config, s: Parser, l: Line, m: Meaning)
    requires Says(s, m) && ValidLine(l)
    ensures var r := Run(cfg, s, LineBytes(l)); Says(r, Told(m, l)) && r.out == s.out + LineEvents(l) && r.core.upgrade == s.core.upgrade
  {
    hide *;
    UseSays(s, m);
    var t := LineBegins(cfg, s, l);
    if !HasValue(l) {
      ToldNothing(m, l);
      EmptyLine(cfg, s, t, l, m);
    } else if AboutLength(l) {
      LengthLine(cfg, s, t, l, m);
    } else {
      var q, u, r := ValueRuns(cfg, t, l);
      ValueTold(cfg, t, l, m, q, u, r);
      ToldOne(m, l);
      NotLength(l);
      RunAppend(cfg, s, l.name + [COLON] + l.gap, SegBytes(l.segs));
      LineParts(l);
      SegsSay(t, r, l.segs, Told(m, l));
      assert s.out + DataEvents(FieldData, l.name) + DataEvents(ValueData, Texts(l.segs)) == s.out + LineEvents(l);
    }
  }

  lemma UseSays(s: Parser, m: Meaning)
    requires Says(s, m)
    ensures AtLine(s) && Settled(s).core.flags == m.flags && s.core.length == m.length
  {
  }

  lemma ToldNothing(m: Meaning, l: Line)
    requires ValidLine(l) && !HasValue(l)
    ensures Told(m, l) == m
  {
  }

  lemma NotLength(l: Line)
    requires !AboutLength(l)
    ensures !SaysLength(l)
  {
  }

  lemma LineParts(l: Line)
    ensures LineBytes(l) == l.name + [COLON] + l.gap + SegBytes(l.segs)
    ensures LineEvents(l) == DataEvents(FieldData, l.name) + DataEvents(ValueData, Texts(l.segs))
  {
  }

  lemma SegsSay(t: Parser, r: Parser, segs: seq<Seg>, m: Meaning)
    requires ReadSegs(t, r, segs) && EndHeader(r.core).flags == m.flags && t.core.length == m.length
    ensures Says(r, m) && r.out == t.out + DataEvents(ValueData, Texts(segs)) && r.core.upgrade == t.core.upgrade
  {
  }

  // All headers of a head, or of a trailer: the parser knows what they have said together, and their names and
  // values have been delivered.
  lemma {:induction false} LinesRun(cfg: Config, s: Parser, ls: seq<Line>, m: Meaning)
    requires Says(s, m) && ValidLines(ls)
    ensures var r := Run(cfg, s, Lines(ls)); Says(r, ToldAll(m, ls)) && r.out == s.out + LinesEvents(ls) && r.core.upgrade == s.core.upgrade
    decreases |ls|
  {
    hide *;
    if ls == [] {
      NoLines(s, m, ls);
      EmptyRun(cfg, s, []);
    } else {
      FirstLine(m, ls);
      LineRuns(cfg, s, ls[0], m);
      RunAppend(cfg, s, LineBytes(ls[0]), Lines(ls[1..]));
      LinesRun(cfg, Run(cfg, s, LineBytes(ls[0])), ls[1..], Told(m, ls[0]));
      assert s.out + LineEvents(ls[0]) + LinesEvents(ls[1..]) == s.out + LinesEvents(ls);
    }
  }

  lemma NoLines(s: Parser, m: Meaning, ls: seq<Line>)
    requires ls == []
    ensures ValidLines(ls) && ToldAll(m, ls) == m && Lines(ls) == [] && s.out + LinesEvents(ls) == s.out
  {
  }

  lemma {:induction false} FirstLine(m: Meaning, ls: seq<Line>)
    requires ls != [] && ValidLines(ls)
    ensures ValidLine(ls[0]) && ValidLines(ls[1..]) && ToldAll(m, ls) == ToldAll(Told(m, ls[0]), ls[1..])
    ensures Lines(ls) == LineBytes(ls[0]) + Lines(ls[1..]) && LinesEvents(ls) == LineEvents(ls[0]) + LinesEvents(ls[1..])
  {
  }
}
