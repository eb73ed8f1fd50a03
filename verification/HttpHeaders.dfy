module HttpHeaders {
  // The headers that decide about the body. The name matcher of http_parser_execute, which keeps one header
  // state and one index, recognises exactly the five names it is for, in any case; the value matcher recognises
  // exactly "chunked". And the parser's own assertions hold in every state it can reach.

  import opened HttpSpec
  import opened HttpSplit
  import opened HttpBody

  // ---- header names ----

  /** name is a proper beginning of word. */
  predicate Begins(name: seq<Octet>, word: string) {
    |name| < |word| && forall i :: 0 <= i < |name| ==> name[i] == word[i] as nat
  }

  predicate Equals(name: seq<Octet>, word: string) {
    |name| == |word| && forall i :: 0 <= i < |name| ==> name[i] == word[i] as nat
  }

  /** What the matcher should know after the lower-case characters in name. */
  function Known(name: seq<Octet>): HeaderState
    requires name != []
  {
    if Equals(name, "connection") || Equals(name, "proxy-connection") then Connection
    else if Equals(name, "content-length") then ContentLength
    else if Equals(name, "transfer-encoding") then TransferEncoding
    else if Equals(name, "upgrade") then Upgrade
    else if Begins(name, "connection") && |name| >= 4 then MatchConnection
    else if Begins(name, "content-length") && |name| >= 4 then MatchContentLength
    else if Begins(name, "con") || Equals(name, "con") then if |name| == 1 then C else if |name| == 2 then CO else CON
    else if Begins(name, "proxy-connection") then MatchProxyConnection
    else if Begins(name, "transfer-encoding") then MatchTransferEncoding
    else if Begins(name, "upgrade") then MatchUpgrade
    else General
  }

  lemma BeginsMore(name: seq<Octet>, c: Octet, word: string)
    ensures Equals(name + [c], word) <==> Begins(name, word) && |name| == |word| - 1 && c == At(word, |name|)
    ensures Begins(name + [c], word) <==> Begins(name, word) && |name| < |word| - 1 && c == At(word, |name|)
  {
    var more := name + [c];
    assert forall i :: 0 <= i < |name| ==> more[i] == name[i];
    assert more[|name|] == c;
  }

  /** The characters of the words, as the program compares them. */
  lemma WordChars(name: seq<Octet>)
    requires name != []
    ensures Begins(name, "connection") || Equals(name, "connection") ==> name[0] == 99
    ensures Begins(name, "con") || Equals(name, "con") ==> name[0] == 99
    ensures Begins(name, "content-length") || Equals(name, "content-length") ==> name[0] == 99
    ensures Begins(name, "proxy-connection") || Equals(name, "proxy-connection") ==> name[0] == 112
    ensures Begins(name, "transfer-encoding") || Equals(name, "transfer-encoding") ==> name[0] == 116
    ensures Begins(name, "upgrade") || Equals(name, "upgrade") ==> name[0] == 117
    ensures |name| >= 4 && (Begins(name, "connection") || Equals(name, "connection")) ==> name[3] == 110
    ensures |name| >= 4 && (Begins(name, "content-length") || Equals(name, "content-length")) ==> name[3] == 116
    ensures |name| < 4 ==> (Begins(name, "connection") <==> Begins(name, "con") || Equals(name, "con"))
    ensures |name| < 4 ==> (Begins(name, "content-length") <==> Begins(name, "con") || Equals(name, "con"))
  {
    if |name| < 4 {
      assert "con" == "connection"[..3] == "content-length"[..3];
      assert forall i :: 0 <= i < |name| ==> "con"[i] == "connection"[i] == "content-length"[i];
    }
  }

  /** The matcher knows what it should. */
  ghost predicate Matches(hs: HeaderState, index: nat, name: seq<Octet>) {
    name != [] && hs == Known(name) && (hs in {General, Connection, ContentLength, TransferEncoding, Upgrade} || index == |name| - 1)
  }

  lemma UseMatches(hs: HeaderState, index: nat, name: seq<Octet>)
    requires Matches(hs, index, name)
    ensures hs == Known(name)
  {
  }

  lemma NameMatches(name: seq<Octet>, hs: HeaderState, index: nat, c: Octet)
    requires Matches(hs, index, name)
    ensures Matches(NameChar(hs, index, c).0, NameChar(hs, index, c).1, name + [c])
  {
    hide Begins, Equals;
    BeginsMore(name, c, "connection");
    BeginsMore(name, c, "proxy-connection");
    BeginsMore(name, c, "content-length");
    BeginsMore(name, c, "transfer-encoding");
    BeginsMore(name, c, "upgrade");
    BeginsMore(name, c, "con");
    WordChars(name);
    WordChars(name + [c]);
    assert (name + [c])[0] == name[0];
    Exclusive(name);
    Letters();
  }

  lemma Letters()
    ensures At("connection", 1) == 111 && At("connection", 2) == 110 && At("connection", 3) == 110
    ensures At("content-length", 3) == 116 && At("con", 1) == 111 && At("con", 2) == 110
  {
  }

  lemma Exclusive(name: seq<Octet>)
    ensures !(Begins(name, "connection") && Equals(name, "connection"))
    ensures !(Begins(name, "proxy-connection") && Equals(name, "proxy-connection"))
    ensures !(Begins(name, "content-length") && Equals(name, "content-length"))
    ensures !(Begins(name, "transfer-encoding") && Equals(name, "transfer-encoding"))
    ensures !(Begins(name, "upgrade") && Equals(name, "upgrade"))
    ensures !(Begins(name, "con") && Equals(name, "con"))
    ensures Begins(name, "con") ==> |name| < 3
    ensures Equals(name, "con") ==> |name| == 3
    ensures (Equals(name, "connection") ==> |name| == 10) && (Begins(name, "connection") ==> |name| < 10)
    ensures (Equals(name, "proxy-connection") ==> |name| == 16) && (Begins(name, "proxy-connection") ==> |name| < 16)
    ensures (Equals(name, "content-length") ==> |name| == 14) && (Begins(name, "content-length") ==> |name| < 14)
    ensures (Equals(name, "transfer-encoding") ==> |name| == 17) && (Begins(name, "transfer-encoding") ==> |name| < 17)
    ensures (Equals(name, "upgrade") ==> |name| == 7) && (Begins(name, "upgrade") ==> |name| < 7)
  {
  }

  /** The name in lower case. */
  function Lowered(name: seq<Octet>): (r: seq<Octet>)
    ensures |r| == |name|
  {
    seq(|name|, i requires 0 <= i < |name| => Token(name[i]))
  }

  predicate IsName(name: seq<Octet>) {
    name != [] && forall i :: 0 <= i < |name| ==> Token(name[i]) != 0
  }

  /** s as it was, but for the name matcher. */
  function WithMatcher(s: Parser, st: St, hs: HeaderState, index: nat, out: seq<Event>, pend: seq<Event>): Parser {
    Parser(s.core.(st := st, hs := hs, index := index), out, pend)
  }

  lemma {:induction false} NameRuns(cfg: Config, s: Parser, name: seq<Octet>) returns (index: nat)
    requires s.core.errno == Ok && s.core.st == FieldStart && s.pend == [] && IsName(name)
    ensures Matches(Known(Lowered(name)), index, Lowered(name))
    ensures Run(cfg, s, name) ==
      WithMatcher(s, Field, Known(Lowered(name)), index, s.out, DataEvents(FieldData, name))
    decreases |name|
  {
    hide *;
    LastOfName(name);
    var n := |name| - 1;
    var front, ch := name[..n], name[n];
    LoweredMore(front, ch);
    if n == 0 {
      index := 0;
      FirstCharacter(ch);
      FirstOfName(cfg, s, ch);
      assert front == [] && name == [ch];
      LoweredMore([], ch);
    } else {
      index := NameRuns(cfg, s, front);
      RunAppend(cfg, s, front, [ch]);
      NextOfName(cfg, s, Known(Lowered(front)), index, DataEvents(FieldData, front), ch);
      NameMatches(Lowered(front), Known(Lowered(front)), index, Token(ch));
      var m := NameChar(Known(Lowered(front)), index, Token(ch));
      UseMatches(m.0, m.1, Lowered(name));
      index := m.1;
    }
  }

  lemma LastOfName(name: seq<Octet>)
    requires IsName(name)
    ensures name != [] && name == name[..|name| - 1] + [name[|name| - 1]] && Token(name[|name| - 1]) != 0
    ensures |name| > 1 ==> IsName(name[..|name| - 1])
  {
  }

  lemma {:induction false} LoweredMore(name: seq<Octet>, ch: Octet)
    ensures Lowered(name + [ch]) == Lowered(name) + [Token(ch)]
    ensures DataEvents(FieldData, name + [ch]) == DataEvents(FieldData, name) + [Data(FieldData, ch)]
    ensures name == [] ==> Lowered(name + [ch]) == [Token(ch)] && DataEvents(FieldData, name + [ch]) == [Data(FieldData, ch)]
  {
    hide Token;
  }

  lemma FirstOfName(cfg: Config, s: Parser, ch: Octet)
    requires s.core.errno == Ok && s.core.st == FieldStart && s.pend == [] && Token(ch) != 0
    ensures Run(cfg, s, [ch]) == WithMatcher(s, Field, NameStart(Token(ch)), 0, s.out, [Data(FieldData, ch)])
  {
    hide Token, NameStart, Run;
    OneStep(cfg, s, ch);
    NotLineEnd(ch);
    assert s.out + [] == s.out && [] + [Data(FieldData, ch)] == [Data(FieldData, ch)];
  }

  lemma NextOfName(cfg: Config, s: Parser, hs: HeaderState, index: nat, pend: seq<Event>, ch: Octet)
    requires s.core.errno == Ok && Token(ch) != 0
    ensures var m := NameChar(hs, index, Token(ch));
      Run(cfg, WithMatcher(s, Field, hs, index, s.out, pend), [ch]) ==
      WithMatcher(s, Field, m.0, m.1, s.out, pend + [Data(FieldData, ch)])
  {
    hide Token, NameChar, Run;
    OneStep(cfg, WithMatcher(s, Field, hs, index, s.out, pend), ch);
    assert s.out + [] == s.out;
  }

  lemma FirstCharacter(ch: Octet)
    requires Token(ch) != 0
    ensures Matches(NameStart(Token(ch)), 0, [Token(ch)]) && Known([Token(ch)]) == NameStart(Token(ch))
  {
    hide Token, Begins, Equals;
    var t := Token(ch);
    assert [] + [t] == [t];
    BeginsMore([], t, "connection");
    BeginsMore([], t, "proxy-connection");
    BeginsMore([], t, "content-length");
    BeginsMore([], t, "transfer-encoding");
    BeginsMore([], t, "upgrade");
    BeginsMore([], t, "con");
    NothingYet();
  }

  lemma NothingYet()
    ensures Begins([], "connection") && At("connection", 0) == 99 && Begins([], "con") && At("con", 0) == 99
    ensures Begins([], "proxy-connection") && At("proxy-connection", 0) == 112
    ensures Begins([], "content-length") && At("content-length", 0) == 99
    ensures Begins([], "transfer-encoding") && At("transfer-encoding", 0) == 116
    ensures Begins([], "upgrade") && At("upgrade", 0) == 117
    ensures BeginsChunked([]) && At("chunked", 0) == 99
  {
  }

  lemma NotLineEnd(ch: Octet)
    ensures Token(ch) != 0 ==> ch != CR && ch != LF && ch != COLON
  {
  }

  // A header name and its colon: the name is delivered, and the header state tells whether the name is, in
  // any case, one of those that decide about the body or the connection.
  lemma {:induction false} HeaderName(cfg: Config, s: Parser, name: seq<Octet>)
    requires s.core.errno == Ok && s.core.st == FieldStart && s.pend == [] && IsName(name)
    ensures var r := Run(cfg, s, name + [COLON]);
      r == WithMatcher(s, DiscardWs, r.core.hs, r.core.index, s.out + DataEvents(FieldData, name), []) &&
      (r.core.hs == TransferEncoding <==> Equals(Lowered(name), "transfer-encoding")) &&
      (r.core.hs == ContentLength <==> Equals(Lowered(name), "content-length")) &&
      (r.core.hs == Upgrade <==> Equals(Lowered(name), "upgrade")) &&
      (r.core.hs == Connection <==> Equals(Lowered(name), "connection") || Equals(Lowered(name), "proxy-connection")) &&
      r.core.hs !in {ConnTokenStart, Chunked, ConnKeepAlive, ConnClose, ConnUpgrade}
  {
    hide Known, Token, Lowered, Run, WithMatcher, Equals;
    var index := NameRuns(cfg, s, name);
    RunAppend(cfg, s, name, [COLON]);
    var r := Run(cfg, s, name);
    UseMatcher(s, Field, Known(Lowered(name)), index, s.out, DataEvents(FieldData, name));
    OneStep(cfg, r, COLON);
    ColonIsNoToken();
    ColonStep(cfg, s, Known(Lowered(name)), index, DataEvents(FieldData, name));
    UseMatcher(s, DiscardWs, Known(Lowered(name)), index, s.out + DataEvents(FieldData, name), []);
    NamesRecognised(Lowered(name));
  }

  lemma UseMatcher(s: Parser, st: St, hs: HeaderState, index: nat, out: seq<Event>, pend: seq<Event>)
    ensures var r := WithMatcher(s, st, hs, index, out, pend);
      r.core.st == st && r.core.hs == hs && r.core.index == index && r.core.errno == s.core.errno &&
      r.out == out && r.pend == pend
  {
  }

  lemma ColonStep(cfg: Config, s: Parser, hs: HeaderState, index: nat, data: seq<Event>)
    ensures Step(cfg, WithMatcher(s, Field, hs, index, s.out, data), COLON) ==
      WithMatcher(s, DiscardWs, hs, index, s.out + data, [])
  {
    ColonIsNoToken();
    assert s.out + (data + []) + [] == s.out + data;
  }

  lemma ColonIsNoToken()
    ensures Token(COLON) == 0
  {
  }

  /** The matcher tells the names that decide about the body from all others. */
  lemma NamesRecognised(name: seq<Octet>)
    requires name != []
    ensures Known(name) == TransferEncoding <==> Equals(name, "transfer-encoding")
    ensures Known(name) == ContentLength <==> Equals(name, "content-length")
    ensures Known(name) == Upgrade <==> Equals(name, "upgrade")
    ensures Known(name) == Connection <==> Equals(name, "connection") || Equals(name, "proxy-connection")
    ensures Known(name) !in {ConnTokenStart, Chunked, ConnKeepAlive, ConnClose, ConnUpgrade}
  {
    hide Begins, Equals;
    WordChars(name);
    Exclusive(name);
  }

  // ---- the value "chunked" ----

  /** The word, in any case, and nothing but spaces after it. */
  predicate IsChunked(v: seq<Octet>) {
    |v| >= 7 && (forall i :: 0 <= i < 7 ==> Lower(v[i]) == "chunked"[i] as nat) && forall i :: 7 <= i < |v| ==> v[i] == SP
  }

  predicate BeginsChunked(v: seq<Octet>) {
    |v| < 7 && forall i :: 0 <= i < |v| ==> Lower(v[i]) == "chunked"[i] as nat
  }

  /** What the value matcher knows after v. */
  ghost predicate ValueMatches(hs: HeaderState, index: nat, v: seq<Octet>) {
    v != [] &&
    if IsChunked(v) then hs == Chunked
    else if BeginsChunked(v) then hs == MatchChunked && index == |v| - 1
    else hs == General
  }

  lemma ChunkedMore(v: seq<Octet>, ch: Octet)
    ensures IsChunked(v + [ch]) <==>
      (BeginsChunked(v) && |v| == 6 && Lower(ch) == At("chunked", 6)) || (IsChunked(v) && ch == SP)
    ensures BeginsChunked(v + [ch]) <==> BeginsChunked(v) && |v| < 6 && Lower(ch) == At("chunked", |v|)
    ensures !(IsChunked(v) && BeginsChunked(v)) && (BeginsChunked(v) ==> |v| < 7)
  {
    var w := v + [ch];
    assert forall i :: 0 <= i < |v| ==> w[i] == v[i];
    assert w[|v|] == ch;
  }

  lemma ValueMatchStep(hs: HeaderState, index: nat, v: seq<Octet>, ch: Octet)
    requires ValueMatches(hs, index, v)
    ensures ValueMatches(ValueChar(hs, index, ch, Lower(ch)).0, ValueChar(hs, index, ch, Lower(ch)).1, v + [ch])
  {
    hide IsChunked, BeginsChunked, Lower;
    ChunkedMore(v, ch);
    ChunkedMore(v + [ch], SP);
  }

  lemma ValueMatchStart(ch: Octet)
    ensures ValueMatches(ValueFirst(TransferEncoding, Lower(ch)), 0, [ch])
  {
    hide IsChunked, BeginsChunked, Lower;
    assert [] + [ch] == [ch];
    ChunkedMore([], ch);
    ChunkedMore([ch], SP);
    NothingYet();
  }

  lemma ValueStep(cfg: Config, s: Parser, v: seq<Octet>, ch: Octet)
    requires s.core.errno == Ok && s.core.st == Value && ValueMatches(s.core.hs, s.core.index, v)
    requires ch != CR && ch != LF
    ensures var r := Step(cfg, s, ch);
      r == WithMatcher(s, Value, r.core.hs, r.core.index, s.out, s.pend + [Data(ValueData, ch)]) &&
      ValueMatches(r.core.hs, r.core.index, v + [ch])
  {
    hide IsChunked, BeginsChunked, Lower;
    ValueMatchStep(s.core.hs, s.core.index, v, ch);
    assert s.out + [] == s.out;
  }

  lemma {:induction false} ValueRuns(cfg: Config, s: Parser, v: seq<Octet>, more: seq<Octet>)
    requires s.core.errno == Ok && s.core.st == Value && ValueMatches(s.core.hs, s.core.index, v)
    requires CR !in more && LF !in more
    ensures var r := Run(cfg, s, more);
      r == WithMatcher(s, Value, r.core.hs, r.core.index, s.out, s.pend + DataEvents(ValueData, more)) &&
      ValueMatches(r.core.hs, r.core.index, v + more)
    decreases |more|
  {
    hide Step, ValueMatches;
    if more == [] {
      assert v + more == v && s.pend + DataEvents(ValueData, more) == s.pend;
    } else {
      ValueStep(cfg, s, v, more[0]);
      EventsHead(ValueData, more, s.pend);
      assert v + more == (v + [more[0]]) + more[1..];
      ValueRuns(cfg, Step(cfg, s, more[0]), v + [more[0]], more[1..]);
    }
  }

  /** The value of a Transfer-Encoding header: it is recognised if and only if it is "chunked". */
  lemma {:induction false} ChunkedValue(cfg: Config, s: Parser, v: seq<Octet>)
    requires s.core.errno == Ok && s.core.st == DiscardWs && s.core.hs == TransferEncoding && s.pend == []
    requires v != [] && v[0] != SP && v[0] != TAB && CR !in v && LF !in v
    ensures var r := Run(cfg, s, v);
      r == WithMatcher(s, Value, r.core.hs, r.core.index, s.out, DataEvents(ValueData, v)) &&
      (r.core.hs == Chunked <==> IsChunked(v)) && r.core.hs in {Chunked, MatchChunked, General}
  {
    hide IsChunked, BeginsChunked, Lower;
    assert v == [v[0]] + v[1..];
    ValueMatchStart(v[0]);
    EventsHead(ValueData, v, s.pend);
    var r := Step(cfg, s, v[0]);
    assert s.out + [] == s.out;
    assert r == WithMatcher(s, Value, ValueFirst(TransferEncoding, Lower(v[0])), 0, s.out, s.pend + [Data(ValueData, v[0])]);
    ValueRuns(cfg, r, [v[0]], v[1..]);
    assert s.pend + DataEvents(ValueData, v) == DataEvents(ValueData, v);
  }

  /** The parser at the beginning of the headers of a message. */
  ghost predicate AtHead(s: Parser) {
    s.core.errno == Ok && s.core.st == FieldStart && s.pend == [] && s.core.flags == NO_FLAGS && s.core.length == ULLONG_MAX
  }

  // ---- the assertions in the program ----

  predicate MatchingName(hs: HeaderState) {
    hs in {MatchConnection, MatchProxyConnection, MatchContentLength, MatchTransferEncoding, MatchUpgrade}
  }

  predicate MatchingValue(hs: HeaderState) {
    hs in {MatchChunked, MatchKeepAlive, MatchClose, MatchConnUpgrade}
  }

  /** The header state while a name is read. */
  predicate NameState(hs: HeaderState, index: nat) {
    (hs == C ==> index == 0) && (hs == CO ==> index == 1) && (hs == CON ==> index == 2) &&
    (MatchingName(hs) ==> index < 17) && index <= 17 &&
    (hs in {General, C, CO, CON, Connection, ContentLength, TransferEncoding, Upgrade} || MatchingName(hs))
  }

  /** The header state while a value is read. */
  predicate ValueState(hs: HeaderState, index: nat) {
    (MatchingValue(hs) ==> index < 17) && index <= 17 && (hs == ConnTokenStart ==> index == 0) &&
    (hs in {General, ContentLength, ConnTokenStart, ConnToken, Chunked, ConnKeepAlive, ConnClose, ConnUpgrade} || MatchingValue(hs))
  }

  /** The states in which the body is known to be chunked. */
  predicate ChunkState(st: St) {
    st in {ChunkSizeStart, ChunkSize, ChunkParameters, ChunkSizeAlmostDone, ChunkData, ChunkDataAlmostDone, ChunkDataDone}
  }

  // What http_parser_execute asserts, and what makes it true after every byte: which header states go with
  // which parser states, that the index stays far below the 8 bits of its field, and that the length is
  // neither zero nor the sentinel while a body is read.
  predicate Sound(c: Core) {
    && c.length <= ULLONG_MAX
    && (ChunkState(c.st) ==> c.flags.chunked)
    && (c.st in {ChunkSize, ChunkParameters, ChunkSizeAlmostDone} ==> c.length < ULLONG_MAX)
    && (c.st in {BodyIdentity, ChunkData} ==> 0 < c.length < ULLONG_MAX)
    && (c.st == ChunkDataAlmostDone ==> c.length == 0)
    && (c.st == Field ==> NameState(c.hs, c.index))
    && (c.st == Value ==> ValueState(c.hs, c.index) && (c.hs == ContentLength ==> c.length <= MAX_CONTENT_LENGTH))
    && c.st != HeadersDone && c.st != MessageDone && c.st != ValueStart
  }

  lemma MatchIndex(word: string, index: nat, c: Octet, no: HeaderState, done: HeaderState, still: HeaderState)
    requires c != 0 && still != no && still != done
    ensures Match(word, index, c, no, done, still) in {no, done, still}
    ensures Match(word, index, c, no, done, still) == still ==> index < |word|
  {
  }

  lemma NameCharSound(hs: HeaderState, index: nat, c: Octet)
    requires NameState(hs, index) && c != 0
    ensures NameState(NameChar(hs, index, c).0, NameChar(hs, index, c).1)
  {
    hide Match;
    if MatchingName(hs) {
      MatchIndex("connection", index + 1, c, General, Connection, MatchConnection);
      MatchIndex("proxy-connection", index + 1, c, General, Connection, MatchProxyConnection);
      MatchIndex("content-length", index + 1, c, General, ContentLength, MatchContentLength);
      MatchIndex("transfer-encoding", index + 1, c, General, TransferEncoding, MatchTransferEncoding);
      MatchIndex("upgrade", index + 1, c, General, Upgrade, MatchUpgrade);
    }
  }

  lemma ValueCharSound(hs: HeaderState, index: nat, ch: Octet, c: Octet)
    requires ValueState(hs, index) && c != 0
    ensures ValueState(ValueChar(hs, index, ch, c).0, ValueChar(hs, index, ch, c).1)
    ensures ValueChar(hs, index, ch, c).0 == ContentLength ==> hs == ContentLength
  {
    hide Match, Token;
    if MatchingValue(hs) {
      MatchIndex("chunked", index + 1, c, General, Chunked, MatchChunked);
      MatchIndex("keep-alive", index + 1, c, ConnToken, ConnKeepAlive, MatchKeepAlive);
      MatchIndex("close", index + 1, c, ConnToken, ConnClose, MatchClose);
      MatchIndex("upgrade", index + 1, c, ConnToken, ConnUpgrade, MatchConnUpgrade);
    }
  }

  lemma FirstSound(hs: HeaderState, c: Octet)
    ensures NameState(NameStart(c), 0) && ValueState(ValueFirst(hs, c), 0)
    ensures ValueFirst(hs, c) == ContentLength ==> hs == ContentLength
  {
  }

  lemma LowerNotZero(ch: Octet)
    ensures Lower(ch) != 0
  {
  }

  lemma HeadersSound(cfg: Config, c: Core, ch: Octet)
    requires c.length <= ULLONG_MAX
    ensures var d := StepHeadersAlmostDone(cfg, c, ch).core; d.errno == Ok ==> Sound(d)
  {
    hide NeedsEof, NewMessage, NameState, ValueState;
  }

  lemma FieldStartSound(cfg: Config, c: Core, ch: Octet)
    requires c.length <= ULLONG_MAX
    ensures var d := StepFieldStart(cfg, c, ch).core; d.errno == Ok ==> Sound(d)
  {
    hide StepHeadersAlmostDone, NameStart, NameState, ValueState, Token;
    HeadersSound(cfg, c.(st := HeadersAlmostDone), ch);
    FirstSound(c.hs, Token(ch));
  }

  lemma ValueStartSound(c: Core, ch: Octet)
    requires c.length <= ULLONG_MAX
    ensures var d := StepValueStart(c, ch).core; d.errno == Ok ==> Sound(d)
  {
    hide ValueFirst, NameState, ValueState, Lower;
    FirstSound(c.hs, Lower(ch));
  }

  lemma DigitFits(length: nat)
    ensures !TooLong(length, 10) ==> length * 10 + 9 <= MAX_CONTENT_LENGTH
    ensures !TooLong(length, 16) ==> length * 16 + 15 <= MAX_CHUNK_SIZE
  {
  }

  /** What it means to be sound while a value is read, and right after it. */
  lemma SoundInValue(c: Core)
    ensures c.st == Value ==>
      (Sound(c) <==> c.length <= ULLONG_MAX && ValueState(c.hs, c.index) && (c.hs == ContentLength ==> c.length <= MAX_CONTENT_LENGTH))
    ensures (c.st == HeaderAlmostDone || c.st == ValueLws) && c.length <= ULLONG_MAX ==> Sound(c)
  {
    hide ValueState, NameState;
  }

  lemma ValueSound(c: Core, ch: Octet)
    requires Sound(c) && c.st == Value
    ensures var d := StepValue(c, ch).core; d.errno == Ok ==> Sound(d)
  {
    hide ValueChar, ValueState, Lower, SetConnection, TooLong, Sound;
    LowerNotZero(ch);
    DigitFits(c.length);
    SoundInValue(c);
    SoundInValue(StepValue(c, ch).core);
    ValueCharSound(c.hs, c.index, ch, Lower(ch));
  }

  lemma FieldSound(c: Core, ch: Octet)
    requires Sound(c) && c.st == Field
    ensures var d := StepField(c, ch).core; d.errno == Ok ==> Sound(d)
  {
    hide NameChar, NameState, ValueState, Token;
    if Token(ch) != 0 {
      NameCharSound(c.hs, c.index, Token(ch));
    }
  }

  /** Every byte keeps what the program asserts. */
  lemma SoundKept(cfg: Config, c: Core, ch: Octet)
    requires Sound(c) && !Stopped(c)
    ensures var d := StepCore(cfg, c, ch).core; d.errno == Ok ==> Sound(d)
  {
    hide StepFieldStart, StepValueStart, StepHeadersAlmostDone, StepValue, StepField, NameState, ValueState,
      SetConnection, NeedsEof, NewMessage, TooLong, Unhex;
    DigitFits(c.length);
    match c.st
    case FieldStart => FieldStartSound(cfg, c, ch);
    case Field => FieldSound(c, ch);
    case DiscardWs => ValueStartSound(c, ch);
    case DiscardLws => FieldStartSound(cfg, EndHeader(c).(st := FieldStart), ch);
    case ValueLws =>
      ValueStartSound(c.(st := ValueStart), ch);
      FieldStartSound(cfg, EndHeader(c).(st := FieldStart), ch);
    case Value => ValueSound(c, ch);
    case HeadersAlmostDone => HeadersSound(cfg, c, ch);
    case _ =>
  }

  lemma {:induction false} AlwaysSound(cfg: Config, s: Parser, data: seq<Octet>)
    requires Sound(s.core) || s.core.errno != Ok
    ensures Sound(Run(cfg, s, data).core) || Run(cfg, s, data).core.errno != Ok
    decreases |data|
  {
    hide StepCore, Sound, Outside;
    if data != [] && !Stopped(s.core) {
      SoundKept(cfg, s.core, data[0]);
      AlwaysSound(cfg, Step(cfg, s, data[0]), data[1..]);
    }
  }

  /** The assertions hold throughout a message, from its first header on. */
  lemma {:induction false} AssertionsHold(cfg: Config, s: Parser, data: seq<Octet>)
    requires AtHead(s)
    ensures Run(cfg, s, data).core.errno == Ok ==> Sound(Run(cfg, s, data).core)
  {
    hide Run;
    AlwaysSound(cfg, s, data);
  }
}
