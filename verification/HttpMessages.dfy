module HttpMessages {
  // Whole messages: a head of any header lines, the body that they announce (RFC 2616, section 4.4), a trailer of
  // any header lines after a chunked one, all cut into calls in any way; and where the parser is afterwards.

  import opened HttpSpec
  import opened HttpSplit
  import opened HttpBody
  import opened HttpHeaders
  import opened HttpConnection
  import opened HttpLines

  // ---- the empty line and what follows ----

  // Which body follows the empty line, or that none does and the message is complete. A transfer coding goes
  // before a length; without either, a response that may have a body goes on until the connection ends.
  lemma BodyFollows(cfg: Config, c: Core)
    requires c.errno == Ok && !c.flags.trailing
    ensures var d := StepHeadersAlmostDone(cfg, c, LF);
      var body := !cfg.isConnect && !cfg.skipBody && !c.flags.skipBody;
      d.core.errno == Ok && d.act.mark == [] && !d.act.flush &&
      (d.core.upgrade <==> cfg.isConnect || (c.flags.upgrade && c.flags.connUpgrade)) &&
      (d.core.st == ChunkSizeStart <==> body && c.flags.chunked) &&
      (d.core.st == BodyIdentity <==> body && !c.flags.chunked && c.length > 0 && c.length != ULLONG_MAX) &&
      (d.core.st == BodyIdentityEof <==>
        (body && !c.flags.chunked && c.length == ULLONG_MAX &&
         !(c.flags.upgrade && c.flags.connUpgrade) && !cfg.isRequest && cfg.status / 100 != 1 && cfg.status !in {204, 304})) &&
      (d.core.st in {ChunkSizeStart, BodyIdentity, BodyIdentityEof} ==> d.act.events == [HeadersComplete]) &&
      (d.core.st !in {ChunkSizeStart, BodyIdentity, BodyIdentityEof} ==>
        d.act.events == [HeadersComplete, MessageComplete] && d.core.st in {Dead, StartReq, StartRes})
  {
    hide ShouldKeepAlive;
  }

  /** Only the end of the connection could end the message. */
  predicate EndUnknown(cfg: Config, c: Core) {
    !cfg.isRequest && cfg.status / 100 != 1 && cfg.status !in {204, 304} && !c.flags.skipBody && !c.flags.chunked && c.length == ULLONG_MAX
  }

  // Unless only the end of the connection can end a message, the parser goes on to the next one: under HTTP/1.1
  // if the message did not say close, under HTTP/1.0 if it said keep-alive.
  lemma NextMessage(cfg: Config, c: Core)
    ensures NewMessage(cfg, c) == Dead <==>
      EndUnknown(cfg, c) || if cfg.major > 0 && cfg.minor > 0 then c.flags.close else !c.flags.keepAlive
    ensures NewMessage(cfg, c) != Dead ==> NewMessage(cfg, c) == if cfg.isRequest then StartReq else StartRes
  {
  }

  /** No body has arrived and no message been completed since out. */
  ghost predicate NoBody(out: seq<Event>, now: seq<Event>) {
    DataOf(now, BodyData) == DataOf(out, BodyData) && Completions(now) == Completions(out)
  }

  lemma {:induction false} HeaderHasNoBody(out: seq<Event>, l: Line)
    ensures NoBody(out, out + LineEvents(l))
  {
    hide DataOf;
    var a, b := DataEvents(FieldData, l.name), DataEvents(ValueData, Texts(l.segs));
    assert out + (a + b) == out + a + b;
    DataOfJoined(out + a, b, BodyData);
    DataOfJoined(out, a, BodyData);
    DataOfEvents(FieldData, l.name);
    DataOfEvents(ValueData, Texts(l.segs));
  }

  lemma {:induction false} LinesHaveNoBody(out: seq<Event>, ls: seq<Line>)
    ensures NoBody(out, out + LinesEvents(ls))
    decreases |ls|
  {
    hide NoBody, LineEvents;
    if ls == [] {
      assert out + [] == out;
      NoBodyAtAll(out);
    } else {
      HeaderHasNoBody(out, ls[0]);
      LinesHaveNoBody(out + LineEvents(ls[0]), ls[1..]);
      assert out + LineEvents(ls[0]) + LinesEvents(ls[1..]) == out + LinesEvents(ls);
      NoBodyTwice(out, out + LineEvents(ls[0]), out + LinesEvents(ls));
    }
  }

  lemma NoBodyTwice(a: seq<Event>, b: seq<Event>, c: seq<Event>)
    requires NoBody(a, b) && NoBody(b, c)
    ensures NoBody(a, c)
  {
  }

  lemma NoBodyAtAll(a: seq<Event>)
    ensures NoBody(a, a) && NoBody(a, a + [HeadersComplete]) && forall n :: NoBody(a, a + [ChunkHeader(n)])
    ensures NoBody(a, a + [ChunkComplete])
  {
    hide DataOf;
    DataOfJoined(a, [HeadersComplete], BodyData);
    DataOfJoined(a, [ChunkComplete], BodyData);
    DataOfOne(HeadersComplete);
    DataOfOne(ChunkComplete);
    forall n ensures NoBody(a, a + [ChunkHeader(n)]) {
      DataOfJoined(a, [ChunkHeader(n)], BodyData);
      DataOfOne(ChunkHeader(n));
    }
  }

  lemma {:induction false} UseNoBody(out: seq<Event>, now: seq<Event>)
    requires NoBody(out, now)
    ensures DataOf(now, BodyData) == DataOf(out, BodyData) && Completions(now) == Completions(out)
  {
  }

  // ---- the end of the head ----

  predicate MayHaveBody(cfg: Config) {
    !cfg.isConnect && !cfg.skipBody
  }

  predicate GivenLength(m: Meaning) {
    !m.flags.chunked && m.length > 0 && m.length != ULLONG_MAX
  }

  /** Only the end of the connection ends the body: section 4.4 of RFC 2616. */
  predicate UntilClosed(cfg: Config, m: Meaning) {
    MayHaveBody(cfg) && !m.flags.chunked && m.length == ULLONG_MAX && !(m.flags.upgrade && m.flags.connUpgrade) &&
    !cfg.isRequest && cfg.status / 100 != 1 && cfg.status !in {204, 304}
  }

  /** The empty line, whether it ends in CRLF or LF, is looked at once. */
  lemma {:induction false} EmptyLineRuns(cfg: Config, s: Parser, end: seq<Octet>)
    requires AtLine(s) && Eol(end)
    ensures var c := Settled(s).core.(st := HeadersAlmostDone);
      Run(cfg, s, end) == Perform(Parser(c, s.out, []), StepHeadersAlmostDone(cfg, c, LF))
  {
    hide Run, StepHeadersAlmostDone, EndHeader;
    SettledRuns(cfg, s, end);
    var q := Settled(s);
    var p := Parser(q.core.(st := HeadersAlmostDone), q.out, []);
    OneStep(cfg, q, LF);
    assert q.out + [] == q.out && q.pend + [] == [];
    if end == CRLF {
      assert CRLF == [CR] + [LF];
      RunAppend(cfg, q, [CR], [LF]);
      OneStep(cfg, q, CR);
      OneStep(cfg, p, LF);
    } else {
      SameDid(q, p, StepHeadersAlmostDone(cfg, p.core, LF));
    }
  }

  lemma SameDid(q: Parser, p: Parser, d: Did)
    requires q.out == p.out && q.pend == p.pend
    ensures Perform(q, d) == Perform(p, d)
  {
  }

  /** The empty line that ends the head. */
  lemma HeadEnds(cfg: Config, s: Parser, m: Meaning, end: seq<Octet>) returns (r: Parser)
    requires Says(s, m) && !m.flags.trailing && !m.flags.skipBody && Eol(end)
    ensures r == Run(cfg, s, end) && r.core.errno == Ok && r.pend == [] && r.core.length == m.length
    ensures MayHaveBody(cfg) && m.flags.chunked ==> r.core.st == ChunkSizeStart && r.out == s.out + [HeadersComplete]
    ensures MayHaveBody(cfg) && GivenLength(m) ==> r.core.st == BodyIdentity && r.out == s.out + [HeadersComplete]
    ensures UntilClosed(cfg, m) ==> r.core.st == BodyIdentityEof && r.out == s.out + [HeadersComplete]
    ensures !(MayHaveBody(cfg) && (m.flags.chunked || GivenLength(m))) && !UntilClosed(cfg, m) ==>
      r.out == s.out + [HeadersComplete, MessageComplete] && r.core.st == NewMessage(cfg, r.core)
    ensures r.core.flags == m.flags.(skipBody := cfg.skipBody)
    ensures r.core.upgrade <==> cfg.isConnect || (m.flags.upgrade && m.flags.connUpgrade)
  {
    hide Run, StepHeadersAlmostDone, EndHeader, NewMessage;
    EmptyLineRuns(cfg, s, end);
    r := Run(cfg, s, end);
    EndKeeps(s.core);
    var c := Settled(s).core.(st := HeadersAlmostDone);
    BodyFollows(cfg, c);
    HeadKeeps(cfg, c);
  }

  lemma HeadKeeps(cfg: Config, c: Core)
    requires !c.flags.trailing
    ensures var d := StepHeadersAlmostDone(cfg, c, LF).core;
      d.length == c.length && d.flags == c.flags.(skipBody := c.flags.skipBody || cfg.skipBody) &&
      (d.st !in {ChunkSizeStart, BodyIdentity, BodyIdentityEof} ==> d.st == NewMessage(cfg, d))
  {
  }

  /** The empty line that ends the trailer. */
  lemma TrailerIsOver(cfg: Config, s: Parser, m: Meaning, end: seq<Octet>) returns (r: Parser)
    requires Says(s, m) && m.flags.trailing && Eol(end)
    ensures r == Run(cfg, s, end) && r.core.errno == Ok && r.pend == [] && r.out == s.out + [ChunkComplete, MessageComplete]
    ensures r.core.flags == m.flags && r.core.length == m.length && r.core.upgrade == s.core.upgrade
    ensures r.core.st == NewMessage(cfg, r.core)
  {
    hide Run, NewMessage, EndHeader;
    EmptyLineRuns(cfg, s, end);
    r := Run(cfg, s, end);
    NextIgnoresState(cfg, Settled(s).core.(st := HeadersAlmostDone), r.core.st);
    EndKeeps(s.core);
  }

  lemma EndKeeps(c: Core)
    ensures EndHeader(c).upgrade == c.upgrade && EndHeader(c).errno == c.errno && EndHeader(c).length == c.length
  {
    hide SetConnection;
  }

  // ---- heads ----

  const START: Meaning := Meaning(NO_FLAGS, ULLONG_MAX)

  /** What the lines of a head say. */
  ghost function HeadSays(ls: seq<Line>): Meaning
    requires ValidLines(ls)
  {
    ToldAll(START, ls)
  }

  lemma HeadFlags(ls: seq<Line>)
    requires ValidLines(ls)
    ensures var f := HeadSays(ls).flags;
      (f.close <==> Tells(ls, "close")) && (f.keepAlive <==> Tells(ls, "keep-alive")) && (f.connUpgrade <==> Tells(ls, "upgrade")) &&
      (f.upgrade <==> AsksUpgrade(ls)) && (f.chunked <==> TellsChunked(ls)) && !f.trailing && !f.skipBody
    ensures LastLength(ls, ULLONG_MAX, HeadSays(ls).length)
  {
    hide ToldAll, Tells, AsksUpgrade, TellsChunked, LastLength;
    ToldTogether(START, ls);
    LengthTold(START, ls);
  }

  /** Up to the empty line, and behind it. */
  lemma {:induction false} HeadRuns(cfg: Config, s: Parser, ls: seq<Line>, end: seq<Octet>) returns (t: Parser, r: Parser)
    requires AtHead(s) && ValidLines(ls) && Eol(end)
    ensures t == Run(cfg, s, Lines(ls)) && r == Run(cfg, s, Lines(ls) + end) && r.core.errno == Ok && r.pend == [] && NoBody(s.out, t.out)
    ensures t.out == s.out + LinesEvents(ls)
    ensures var m := HeadSays(ls);
      if MayHaveBody(cfg) && m.flags.chunked then r.core.st == ChunkSizeStart && r.out == t.out + [HeadersComplete]
      else if MayHaveBody(cfg) && GivenLength(m) then r.core.st == BodyIdentity && r.out == t.out + [HeadersComplete]
      else if UntilClosed(cfg, m) then r.core.st == BodyIdentityEof && r.out == t.out + [HeadersComplete]
      else r.out == t.out + [HeadersComplete, MessageComplete] && r.core.st == NewMessage(cfg, r.core)
    ensures r.core.flags == HeadSays(ls).flags.(skipBody := cfg.skipBody) && r.core.length == HeadSays(ls).length
    ensures r.core.upgrade <==> cfg.isConnect || (AsksUpgrade(ls) && Tells(ls, "upgrade"))
  {
    hide Run, ToldAll, NoBody, Tells, AsksUpgrade, TellsChunked, LastLength, ValidLines, Lines, LinesEvents, NewMessage;
    assert Says(s, START);
    LinesRun(cfg, s, ls, START);
    t := Run(cfg, s, Lines(ls));
    HeadFlags(ls);
    LinesHaveNoBody(s.out, ls);
    RunAppend(cfg, s, Lines(ls), end);
    r := HeadEnds(cfg, t, HeadSays(ls), end);
  }

  lemma {:induction false} BodyComes(out: seq<Event>, t: Parser, r: Parser)
    requires NoBody(out, t.out) && r.out == t.out + [HeadersComplete]
    ensures DataOf(r.out, BodyData) == DataOf(out, BodyData) && Completions(r.out) == Completions(out)
  {
    hide NoBody;
    NoBodyAtAll(t.out);
    NoBodyTwice(out, t.out, r.out);
    UseNoBody(out, r.out);
  }

  // ---- messages ----

  // Where the parser is after a message with these lines: under HTTP/1.1 at the next one unless some line told
  // it to close, under HTTP/1.0 only if some line told it to keep alive.
  ghost predicate NextAfter(cfg: Config, st: St, ls: seq<Line>) {
    (st == Dead <==> if cfg.major > 0 && cfg.minor > 0 then Tells(ls, "close") else !Tells(ls, "keep-alive")) &&
    (st != Dead ==> st == if cfg.isRequest then StartReq else StartRes)
  }

  /** The chunks, the size line of the last one, the trailer and the empty line. */
  function ChunkedBytes(chunks: seq<Chunk>, size: seq<Octet>, extension: seq<Octet>, trailer: seq<Line>, end: seq<Octet>): seq<Octet> {
    AllChunks(chunks) + (size + extension + CRLF) + Lines(trailer) + end
  }

  /** What reading a chunked body with a trailer amounts to. */
  lemma {:induction false} ChunksFollow(cfg: Config, s: Parser, chunks: seq<Chunk>, size: seq<Octet>, extension: seq<Octet>,
                       trailer: seq<Line>, end: seq<Octet>) returns (r: Parser)
    requires s.core.errno == Ok && s.core.st == ChunkSizeStart && s.pend == []
    requires (forall i :: 0 <= i < |chunks| ==> ValidChunk(chunks[i])) && ValidSize(size, extension, 0)
    requires ValidLines(trailer) && Eol(end)
    ensures r == Run(cfg, s, ChunkedBytes(chunks, size, extension, trailer, end)) && r.core.errno == Ok && r.pend == []
    ensures DataOf(r.out, BodyData) == DataOf(s.out, BodyData) + Contents(chunks) && Completions(r.out) == Completions(s.out) + 1
    ensures r.out != [] && r.out[|r.out| - 1] == MessageComplete && r.core.st == NewMessage(cfg, r.core)
    ensures r.core.upgrade == s.core.upgrade
    ensures r.core.flags == ToldAll(Meaning(s.core.flags.(trailing := true), 0), trailer).flags
  {
    hide Run, ValidChunk, ValidSize, NewMessage, DataOf, AllEvents, AllChunks, Contents, Completions, NoBody, LinesEvents, Lines,
      ToldAll, Says, Tells, AsksUpgrade, TellsChunked, ValidLines;
    var last := size + extension + CRLF;
    ChunksRun(cfg, s, chunks);
    var a := Run(cfg, s, AllChunks(chunks));
    RunAppend(cfg, s, AllChunks(chunks), last);
    LastChunkStarts(cfg, a, size, extension);
    var b := Run(cfg, a, last);
    var n := Meaning(s.core.flags.(trailing := true), 0);
    SaysTrailer(b, n);
    RunAppend(cfg, s, AllChunks(chunks) + last, Lines(trailer));
    LinesRun(cfg, b, trailer, n);
    var c := Run(cfg, b, Lines(trailer));
    ToldTogether(n, trailer);
    RunAppend(cfg, s, AllChunks(chunks) + last + Lines(trailer), end);
    r := TrailerIsOver(cfg, c, ToldAll(n, trailer), end);
    ChunksDeliver(s.out, chunks, trailer);
  }

  lemma SaysTrailer(s: Parser, m: Meaning)
    requires s.core.errno == Ok && s.core.st == FieldStart && s.pend == [] && s.core.flags == m.flags && s.core.length == m.length
    ensures Says(s, m)
  {
  }

  /** What the callbacks of a chunked body amount to. */
  lemma {:induction false} ChunksDeliver(out: seq<Event>, chunks: seq<Chunk>, trailer: seq<Line>)
    ensures var r := out + AllEvents(chunks) + [ChunkHeader(0)] + LinesEvents(trailer) + [ChunkComplete, MessageComplete];
      DataOf(r, BodyData) == DataOf(out, BodyData) + Contents(chunks) && Completions(r) == Completions(out) + 1
  {
    hide DataOf, AllEvents, Contents, NoBody, LinesEvents, Completions;
    var a := out + AllEvents(chunks);
    var b, c := a + [ChunkHeader(0)], a + [ChunkHeader(0)] + LinesEvents(trailer);
    DataOfJoined(out, AllEvents(chunks), BodyData);
    DataOfChunks(chunks);
    ChunksComplete(chunks);
    CompletionsJoined(out, AllEvents(chunks));
    NoBodyAtAll(a);
    LinesHaveNoBody(b, trailer);
    NoBodyTwice(a, b, c);
    NoBodyAtAll(c);
    NoBodyTwice(a, c, c + [ChunkComplete]);
    UseNoBody(a, c + [ChunkComplete]);
    OneCompletion(c + [ChunkComplete]);
    assert c + [ChunkComplete] + [MessageComplete] == c + [ChunkComplete, MessageComplete];
  }

  lemma CompletionsJoined(a: seq<Event>, b: seq<Event>)
    ensures Completions(a + b) == Completions(a) + Completions(b)
  {
  }

  lemma {:induction false} TellsEither(a: seq<Line>, b: seq<Line>)
    ensures forall word :: Tells(a + b, word) <==> Tells(a, word) || Tells(b, word)
  {
    hide Gives;
    forall i | 0 <= i < |a| ensures a[i] == (a + b)[i] {}
    forall i | 0 <= i < |b| ensures b[i] == (a + b)[|a| + i] {}
  }

  lemma {:induction false} ChunkedNext(cfg: Config, c: Core, flags: Flags, ls: seq<Line>, trailer: seq<Line>)
    requires ValidLines(ls) && ValidLines(trailer) && flags == HeadSays(ls).flags && flags.chunked && c.st == NewMessage(cfg, c)
    requires c.flags == ToldAll(Meaning(flags.(trailing := true), 0), trailer).flags
    ensures NextAfter(cfg, c.st, ls + trailer)
  {
    hide Tells, AsksUpgrade, TellsChunked, ToldAll, LastLength, ValidLines, HeadSays, NewMessage;
    HeadFlags(ls);
    ToldTogether(Meaning(flags.(trailing := true), 0), trailer);
    TellsEither(ls, trailer);
    NextMessage(cfg, c);
  }

  // A message with a chunked body, from its first header to the end of its trailer, cut into calls in any way: the
  // body that arrives is the concatenation of the chunks, the message is complete once, and what the lines have
  // said of the connection, also those of the trailer, decides what comes next.
  lemma {:induction false} ChunkedMessage(cfg: Config, s: Parser, ls: seq<Line>, end: seq<Octet>, chunks: seq<Chunk>,
                       size: seq<Octet>, extension: seq<Octet>, trailer: seq<Line>, last: seq<Octet>, parts: seq<seq<Octet>>)
    requires AtHead(s) && MayHaveBody(cfg) && ValidLines(ls) && TellsChunked(ls) && Eol(end) && ValidLines(trailer) && Eol(last)
    requires (forall i :: 0 <= i < |chunks| ==> ValidChunk(chunks[i])) && ValidSize(size, extension, 0)
    requires NonEmpty(parts) && Join(parts) == Lines(ls) + end + ChunkedBytes(chunks, size, extension, trailer, last)
    ensures var r := Calls(cfg, s, parts);
      r.core.errno == Ok && DataOf(r.out, BodyData) == DataOf(s.out, BodyData) + Contents(chunks) &&
      Completions(r.out) == Completions(s.out) + 1 && r.out != [] && r.out[|r.out| - 1] == MessageComplete &&
      NextAfter(cfg, r.core.st, ls + trailer) && (r.core.upgrade <==> AsksUpgrade(ls) && Tells(ls, "upgrade"))
  {
    hide *;
    StartsEmpty(s);
    HeadFlags(ls);
    NeverConnect(cfg);
    var t, q := HeadRuns(cfg, s, ls, end);
    BodyComes(s.out, t, q);
    RunAppend(cfg, s, Lines(ls) + end, ChunkedBytes(chunks, size, extension, trailer, last));
    var r := ChunksFollow(cfg, q, chunks, size, extension, trailer, last);
    AnyCutting(cfg, s, parts);
    NothingPends(r);
    ChunkedNext(cfg, r.core, q.core.flags, ls, trailer);
  }

  lemma StartsEmpty(s: Parser)
    requires AtHead(s)
    ensures s.pend == []
  {
  }

  lemma NeverConnect(cfg: Config)
    requires MayHaveBody(cfg)
    ensures !cfg.isConnect && !cfg.skipBody && forall f: Flags :: !f.skipBody ==> f.(skipBody := cfg.skipBody) == f
  {
  }

  lemma NothingPends(s: Parser)
    requires s.pend == [] && s.core.errno == Ok
    ensures EndCall(s) == s
  {
    assert s.out + [] == s.out;
  }

  // A message with a Content-Length, cut into calls in any way: what there is of its body arrives, and if that
  // is all of it, the message is complete and its lines decide what comes next.
  lemma {:induction false} LengthMessage(cfg: Config, s: Parser, ls: seq<Line>, end: seq<Octet>, data: seq<Octet>, parts: seq<seq<Octet>>)
    requires AtHead(s) && MayHaveBody(cfg) && ValidLines(ls) && GivenLength(HeadSays(ls)) && Eol(end)
    requires |data| <= HeadSays(ls).length && NonEmpty(parts) && Join(parts) == Lines(ls) + end + data
    ensures var r, n := Calls(cfg, s, parts), HeadSays(ls).length;
      r.core.errno == Ok && DataOf(r.out, BodyData) == DataOf(s.out, BodyData) + data &&
      Completions(r.out) == Completions(s.out) + (if |data| == n then 1 else 0) &&
      (|data| == n ==> r.out != [] && r.out[|r.out| - 1] == MessageComplete && NextAfter(cfg, r.core.st, ls)) &&
      (r.core.upgrade <==> AsksUpgrade(ls) && Tells(ls, "upgrade"))
  {
    hide *;
    StartsEmpty(s);
    HeadFlags(ls);
    NeverConnect(cfg);
    LengthIsGiven(HeadSays(ls));
    var t, q := HeadRuns(cfg, s, ls, end);
    BodyComes(s.out, t, q);
    RunAppend(cfg, s, Lines(ls) + end, data);
    LengthFollows(cfg, q, data);
    EndedWell(cfg, Run(cfg, s, Join(parts)));
    AnyCutting(cfg, s, parts);
    if |data| == HeadSays(ls).length {
      NextMessage(cfg, Calls(cfg, s, parts).core);
      KnownEnd(cfg, Calls(cfg, s, parts).core);
      MakeNext(cfg, Calls(cfg, s, parts).core, ls);
    }
  }

  lemma LengthIsGiven(m: Meaning)
    requires GivenLength(m)
    ensures m.length > 0 && !m.flags.chunked
  {
  }

  lemma KnownEnd(cfg: Config, c: Core)
    requires c.length == 0
    ensures !EndUnknown(cfg, c)
  {
  }

  lemma MakeNext(cfg: Config, c: Core, ls: seq<Line>)
    requires c.st == Dead <==> if cfg.major > 0 && cfg.minor > 0 then c.flags.close else !c.flags.keepAlive
    requires c.st != Dead ==> c.st == if cfg.isRequest then StartReq else StartRes
    requires (c.flags.close <==> Tells(ls, "close")) && (c.flags.keepAlive <==> Tells(ls, "keep-alive"))
    ensures NextAfter(cfg, c.st, ls)
  {
    hide Tells;
  }

  // A response that says nothing about its body and may have one: all bytes arrive, however they are cut into
  // calls, and the message is complete once, when an empty call says that the connection has ended.
  lemma {:induction false} ClosedMessage(cfg: Config, s: Parser, ls: seq<Line>, end: seq<Octet>, data: seq<Octet>, parts: seq<seq<Octet>>)
    requires AtHead(s) && ValidLines(ls) && UntilClosed(cfg, HeadSays(ls)) && Eol(end)
    requires NonEmpty(parts) && Join(parts) == Lines(ls) + end + data
    ensures var r := Calls(cfg, s, parts);
      r.core.errno == Ok && DataOf(r.out, BodyData) == DataOf(s.out, BodyData) + data && Completions(r.out) == Completions(s.out) &&
      var e := Calls(cfg, s, parts + [[]]);
      e.core.errno == Ok && e.out == r.out + [MessageComplete] && Completions(e.out) == Completions(s.out) + 1 &&
      DataOf(e.out, BodyData) == DataOf(s.out, BodyData) + data
  {
    hide Run, ValidLines, NoBody, Lines, LinesEvents, HeadSays, DataOf, DataEvents, Tells, AsksUpgrade, Eol;
    var t, r := HeadRuns(cfg, s, ls, end);
    BodyComes(s.out, t, r);
    RunAppend(cfg, s, Lines(ls) + end, data);
    EofBodyRuns(cfg, r, data);
    AnyCutting(cfg, s, parts);
    assert [] + BodyEvents(data) == BodyEvents(data);
    BodyDelivered(r.out, data);
    OneCompletion(r.out + BodyEvents(data));
    EndedCall(cfg, s, parts);
  }

  lemma {:induction false} EndedCall(cfg: Config, s: Parser, parts: seq<seq<Octet>>)
    ensures Calls(cfg, s, parts + [[]]) == CallEof(Calls(cfg, s, parts))
  {
    assert (parts + [[]])[..|parts|] == parts;
  }

  /** The message has no body that could follow its head. */
  ghost predicate Bodiless(cfg: Config, m: Meaning) {
    !(MayHaveBody(cfg) && (m.flags.chunked || GivenLength(m))) && !UntilClosed(cfg, m)
  }

  // Such a message is complete with the end of its head. The next one may come if the lines say so, unless it is
  // a response whose end only the end of the connection could have told.
  lemma {:induction false} BodilessMessage(cfg: Config, s: Parser, ls: seq<Line>, end: seq<Octet>, parts: seq<seq<Octet>>)
    requires AtHead(s) && ValidLines(ls) && Bodiless(cfg, HeadSays(ls)) && Eol(end)
    requires NonEmpty(parts) && Join(parts) == Lines(ls) + end
    ensures var r, m := Calls(cfg, s, parts), HeadSays(ls);
      r.core.errno == Ok && r.out == s.out + LinesEvents(ls) + [HeadersComplete, MessageComplete] &&
      DataOf(r.out, BodyData) == DataOf(s.out, BodyData) && Completions(r.out) == Completions(s.out) + 1 &&
      (if cfg.isRequest || cfg.status / 100 == 1 || cfg.status in {204, 304} || cfg.skipBody || m.flags.chunked || m.length != ULLONG_MAX
       then NextAfter(cfg, r.core.st, ls) else r.core.st == Dead) &&
      (r.core.upgrade <==> cfg.isConnect || (AsksUpgrade(ls) && Tells(ls, "upgrade")))
  {
    hide Run, ValidLines, NoBody, Lines, LinesEvents, HeadSays, DataOf, Tells, AsksUpgrade, Eol, NewMessage, TellsChunked, LastLength;
    var t, r := HeadRuns(cfg, s, ls, end);
    UseNoBody(s.out, t.out);
    AnyCutting(cfg, s, parts);
    NothingPends(r);
    assert t.out + [HeadersComplete, MessageComplete] == t.out + [HeadersComplete] + [MessageComplete];
    NoBodyAtAll(t.out);
    UseNoBody(t.out, t.out + [HeadersComplete]);
    OneCompletion(t.out + [HeadersComplete]);
    HeadFlags(ls);
    NextMessage(cfg, r.core);
  }

  // ---- a single option ----

  /** A header whose value is one of the words, in any case, gives that option. */
  lemma {:induction false} WordIsGiven(l: Line, word: string)
    requires ValidLine(l) && AboutConnection(l) && |l.segs| == 1 && IsWord(l.segs[0].text, word)
    requires word in {"close", "keep-alive", "upgrade"}
    ensures Gives(l, word)
  {
    hide IsWord, AboutConnection, ValidLine, Elements, Heard;
    var v := l.segs[0].text;
    NoCommaInWord(v, word);
    ElementsComma(v, []);
    HeardOne(First, v);
    assert Pieces(l.segs) == [v] by {
      assert l.segs[1..] == [] && [v] + [] == [v];
    }
  }

  lemma NoCommaInWord(v: seq<Octet>, word: string)
    requires IsWord(v, word) && word in {"close", "keep-alive", "upgrade"}
    ensures COMMA !in v && v != []
  {
    LowerBlank(COMMA);
  }
}
