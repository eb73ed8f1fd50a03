// The header and body part of http_parser_execute in inlonlife/pcap/http_parser.c, byte by byte, with
// HTTP_PARSER_STRICT set and callbacks that return 0.
module HttpSpec {

  type Octet = b: nat | b < 256

  const CR: Octet := 13
  const LF: Octet := 10
  const SP: Octet := 32
  const TAB: Octet := 9
  const COLON: Octet := 58
  const COMMA: Octet := 44
  const SEMICOLON: Octet := 59

  /** ULLONG_MAX, which also stands for a Content-Length that was not given. */
  const ULLONG_MAX: nat := 0xFFFF_FFFF_FFFF_FFFF

  datatype St =
    | Dead | StartReq | StartRes
    | FieldStart | Field | DiscardWs | DiscardWsAlmostDone | DiscardLws
    | ValueStart | Value | ValueLws | HeaderAlmostDone
    | ChunkSizeStart | ChunkSize | ChunkParameters | ChunkSizeAlmostDone
    | HeadersAlmostDone | HeadersDone
    | ChunkData | ChunkDataAlmostDone | ChunkDataDone
    | BodyIdentity | BodyIdentityEof | MessageDone

  datatype HeaderState =
    | General | C | CO | CON
    | MatchConnection | MatchProxyConnection | MatchContentLength | MatchTransferEncoding | MatchUpgrade
    | Connection | ContentLength | TransferEncoding | Upgrade
    | MatchChunked | ConnTokenStart | MatchKeepAlive | MatchClose | MatchConnUpgrade | ConnToken
    | Chunked | ConnKeepAlive | ConnClose | ConnUpgrade

  datatype Flags = Flags(chunked: bool, keepAlive: bool, close: bool, connUpgrade: bool,
                         trailing: bool, upgrade: bool, skipBody: bool)

  const NO_FLAGS := Flags(false, false, false, false, false, false, false)

  datatype Errno =
    | Ok | InvalidEofState | HeaderOverflow | ClosedConnection | InvalidHeaderToken
    | InvalidContentLength | InvalidChunkSize | Strict

  datatype Kind = FieldData | ValueData | BodyData

  /** What the callbacks see. A data callback is taken apart into its bytes. */
  datatype Event =
    | Data(kind: Kind, b: Octet)
    | HeadersComplete
    | ChunkHeader(length: nat)
    | ChunkComplete
    | MessageComplete

  /** What the first line of the message said, and whether on_headers_complete asks to skip the body. */
  datatype Config = Config(isRequest: bool, isConnect: bool, status: nat, major: nat, minor: nat, skipBody: bool)

  /** The fields of the parser. */
  datatype Core = Core(st: St, hs: HeaderState, index: nat, flags: Flags, length: nat, upgrade: bool, errno: Errno)

  // The parser with the callbacks made so far, and with the bytes since the mark that is open, which the next
  // data callback will deliver.
  datatype Parser = Parser(core: Core, out: seq<Event>, pend: seq<Event>)

  /** What one byte does outside the fields: it joins the open mark, the mark is delivered, notifications follow. */
  datatype Act = Act(mark: seq<Event>, flush: bool, events: seq<Event>)

  const NOTHING := Act([], false, [])

  /** The fields after a byte, and what it did besides. */
  datatype Did = Did(core: Core, act: Act)

  // ---- character classes ----

  predicate IsDigit(c: Octet) {
    48 <= c <= 57
  }

  /** tolower by setting the bit 0x20; a plain addition where the bit is clear */
  function Lower(c: Octet): Octet {
    if c / 32 % 2 == 1 then c else c + 32
  }

  /** The token characters in lower case; zero for every other byte. */
  function Token(c: Octet): Octet {
    if 65 <= c <= 90 then c + 32
    else if IsDigit(c) || 97 <= c <= 122 then c
    else if c == 33 || 35 <= c <= 39 || c == 42 || c == 43 || c == 45 || c == 46 then c
    else if 94 <= c <= 96 || c == 124 || c == 126 then c
    else 0
  }

  /** The value of a hexadecimal digit, or -1. The upper half of the table is not initialised to -1. */
  function Unhex(c: Octet): (r: int)
    ensures -1 <= r <= 15
  {
    if IsDigit(c) then c - 48
    else if 65 <= c <= 70 then c - 55
    else if 97 <= c <= 102 then c - 87
    else if c >= 128 then 0
    else -1
  }

  function At(word: string, i: nat): nat {
    if i < |word| then word[i] as nat else 0
  }

  // ---- header names and values ----

  /** Compares one more character with the word: no match, all matched, or still matching. */
  function Match(word: string, index: nat, c: Octet, no: HeaderState, done: HeaderState, still: HeaderState): HeaderState {
    if index > |word| || c as int != At(word, index) then no
    else if index == |word| - 1 then done
    else still
  }

  /** A character of a header name. */
  function NameChar(hs: HeaderState, index: nat, c: Octet): (HeaderState, nat) {
    match hs
    case General => (General, index)
    case C => (if c == 111 then CO else General, index + 1)
    case CO => (if c == 110 then CON else General, index + 1)
    case CON => (if c == 110 then MatchConnection else if c == 116 then MatchContentLength else General, index + 1)
    case MatchConnection => (Match("connection", index + 1, c, General, Connection, hs), index + 1)
    case MatchProxyConnection => (Match("proxy-connection", index + 1, c, General, Connection, hs), index + 1)
    case MatchContentLength => (Match("content-length", index + 1, c, General, ContentLength, hs), index + 1)
    case MatchTransferEncoding => (Match("transfer-encoding", index + 1, c, General, TransferEncoding, hs), index + 1)
    case MatchUpgrade => (Match("upgrade", index + 1, c, General, Upgrade, hs), index + 1)
    case _ => (General, index)
  }

  /** Which name the first character may begin. */
  function NameStart(c: Octet): HeaderState {
    if c == 99 then C
    else if c == 112 then MatchProxyConnection
    else if c == 116 then MatchTransferEncoding
    else if c == 117 then MatchUpgrade
    else General
  }

  function ConnectionValue(c: Octet, other: HeaderState): HeaderState {
    if c == 107 then MatchKeepAlive else if c == 99 then MatchClose else if c == 117 then MatchConnUpgrade else other
  }

  /** The first character of a value, for all headers but Content-Length. */
  function ValueFirst(hs: HeaderState, c: Octet): HeaderState {
    match hs
    case TransferEncoding => if c == 99 then MatchChunked else General
    case Connection => ConnectionValue(c, ConnToken)
    case ConnTokenStart => ConnTokenStart
    case ContentLength => ContentLength
    case _ => General
  }

  function SetConnection(flags: Flags, hs: HeaderState): (r: Flags)
    ensures r.(keepAlive := flags.keepAlive, close := flags.close, connUpgrade := flags.connUpgrade) == flags
  {
    match hs
    case ConnKeepAlive => flags.(keepAlive := true)
    case ConnClose => flags.(close := true)
    case ConnUpgrade => flags.(connUpgrade := true)
    case _ => flags
  }

  /** A further character of a value; ch as it is, c in lower case. */
  function ValueChar(hs: HeaderState, index: nat, ch: Octet, c: Octet): (HeaderState, nat) {
    match hs
    case ContentLength => (ContentLength, index)
    case MatchChunked => (Match("chunked", index + 1, c, General, Chunked, hs), index + 1)
    case ConnTokenStart =>
      (ConnectionValue(c, if Token(c) != 0 then ConnToken else if c == SP || c == TAB then hs else General), index)
    case MatchKeepAlive => (Match("keep-alive", index + 1, c, ConnToken, ConnKeepAlive, hs), index + 1)
    case MatchClose => (Match("close", index + 1, c, ConnToken, ConnClose, hs), index + 1)
    case MatchConnUpgrade => (Match("upgrade", index + 1, c, ConnToken, ConnUpgrade, hs), index + 1)
    case ConnToken => if ch == COMMA then (ConnTokenStart, 0) else (ConnToken, index)
    case Chunked => (if ch != SP then General else Chunked, index)
    case ConnKeepAlive => AfterConnection(hs, index, ch)
    case ConnClose => AfterConnection(hs, index, ch)
    case ConnUpgrade => AfterConnection(hs, index, ch)
    case _ => (General, index)
  }

  function AfterConnection(hs: HeaderState, index: nat, ch: Octet): (HeaderState, nat) {
    if ch == COMMA then (ConnTokenStart, 0) else if ch != SP then (ConnToken, index) else (hs, index)
  }

  // ---- steps ----

  function Go(c: Core): Did {
    Did(c, NOTHING)
  }

  function Fail(c: Core, e: Errno): Did {
    Go(c.(errno := e))
  }

  function Notify(c: Core, e: Event): Did {
    Did(c, Act([], false, [e]))
  }

  function NotifyFirst(e: Event, d: Did): Did {
    Did(d.core, d.act.(events := [e] + d.act.events))
  }

  /** The byte joins those since the open mark. */
  function Mark(c: Core, kind: Kind, ch: Octet): Did {
    Did(c, Act([Data(kind, ch)], false, []))
  }

  /** The data callback for the open mark, without the current byte. */
  function Deliver(c: Core): Did {
    Did(c, Act([], true, []))
  }

  /** http_message_needs_eof */
  predicate NeedsEof(cfg: Config, c: Core) {
    !cfg.isRequest &&
    !(cfg.status / 100 == 1 || cfg.status == 204 || cfg.status == 304 || c.flags.skipBody) &&
    !(c.flags.chunked || c.length != ULLONG_MAX)
  }

  /** http_should_keep_alive */
  predicate ShouldKeepAlive(cfg: Config, c: Core) {
    (if cfg.major > 0 && cfg.minor > 0 then !c.flags.close else c.flags.keepAlive) && !NeedsEof(cfg, c)
  }

  /** Where the parser is after a message. */
  function NewMessage(cfg: Config, c: Core): (st: St)
    ensures st == Dead || st == StartReq || st == StartRes
  {
    if !ShouldKeepAlive(cfg, c) then Dead else if cfg.isRequest then StartReq else StartRes
  }

  function EndMessage(cfg: Config, c: Core): Did {
    Notify(c.(st := NewMessage(cfg, c)), MessageComplete)
  }

  predicate HasBody(c: Core) {
    c.flags.chunked || (c.length > 0 && c.length != ULLONG_MAX)
  }

  function StepHeadersDone(cfg: Config, c: Core): Did {
    if c.upgrade && (cfg.isConnect || c.flags.skipBody || !HasBody(c)) then EndMessage(cfg, c)
    else if c.flags.skipBody then EndMessage(cfg, c)
    else if c.flags.chunked then Go(c.(st := ChunkSizeStart))
    else if c.length == 0 then EndMessage(cfg, c)
    else if c.length != ULLONG_MAX then Go(c.(st := BodyIdentity))
    else if !NeedsEof(cfg, c) then EndMessage(cfg, c)
    else Go(c.(st := BodyIdentityEof))
  }

  /** What the empty line decides. */
  function EndOfHeaders(cfg: Config, c: Core): Core {
    var upgrade := (c.flags.upgrade && c.flags.connUpgrade) || cfg.isConnect;
    var flags := if cfg.skipBody then c.flags.(skipBody := true) else c.flags;
    c.(st := HeadersDone, upgrade := upgrade, flags := flags)
  }

  function StepHeadersAlmostDone(cfg: Config, c: Core, ch: Octet): Did {
    if ch != LF then Fail(c, Strict)
    else if c.flags.trailing then NotifyFirst(ChunkComplete, EndMessage(cfg, c))
    else NotifyFirst(HeadersComplete, StepHeadersDone(cfg, EndOfHeaders(cfg, c)))
  }

  function StepFieldStart(cfg: Config, c: Core, ch: Octet): Did {
    if ch == CR then Go(c.(st := HeadersAlmostDone))
    else if ch == LF then StepHeadersAlmostDone(cfg, c.(st := HeadersAlmostDone), ch)
    else if Token(ch) == 0 then Fail(c, InvalidHeaderToken)
    else Mark(c.(st := Field, hs := NameStart(Token(ch)), index := 0), FieldData, ch)
  }

  function StepField(c: Core, ch: Octet): Did {
    if Token(ch) != 0 then
      var (hs, index) := NameChar(c.hs, c.index, Token(ch));
      Mark(c.(hs := hs, index := index), FieldData, ch)
    else if ch == COLON then Deliver(c.(st := DiscardWs))
    else Fail(c, InvalidHeaderToken)
  }

  function StepValueStart(c: Core, ch: Octet): Did {
    if c.hs == ContentLength && !IsDigit(ch) then Fail(c.(st := Value, index := 0), InvalidContentLength)
    else
      var length := if c.hs == ContentLength then ch - 48 else c.length;
      var flags := if c.hs == Upgrade then c.flags.(upgrade := true) else c.flags;
      Mark(c.(st := Value, index := 0, hs := ValueFirst(c.hs, Lower(ch)), length := length, flags := flags), ValueData, ch)
  }

  /** The conservative test against overflow, made before a digit is added. */
  predicate TooLong(length: nat, base: nat)
    requires base > 0
  {
    (ULLONG_MAX - base) / base < length
  }

  function StepValue(c: Core, ch: Octet): Did {
    if ch == CR then Deliver(c.(st := HeaderAlmostDone))
    else if ch == LF then Deliver(c.(st := ValueLws))
    else if c.hs == ContentLength && ch != SP && (!IsDigit(ch) || TooLong(c.length, 10)) then Fail(c, InvalidContentLength)
    else
      var (hs, index) := ValueChar(c.hs, c.index, ch, Lower(ch));
      var length := if c.hs == ContentLength && ch != SP then c.length * 10 + (ch - 48) else c.length;
      var flags := if ch == COMMA then SetConnection(c.flags, c.hs) else c.flags;
      Mark(c.(hs := hs, index := index, length := length, flags := flags), ValueData, ch)
  }

  /** The end of a header: what it said is recorded in the flags. */
  function EndHeader(c: Core): Core {
    c.(flags := if c.hs == Chunked then c.flags.(chunked := true) else SetConnection(c.flags, c.hs))
  }

  function StepValueLws(cfg: Config, c: Core, ch: Octet): Did {
    if ch == SP || ch == TAB then StepValueStart(c.(st := ValueStart), ch)
    else StepFieldStart(cfg, EndHeader(c).(st := FieldStart), ch)
  }

  function StepDiscardWs(c: Core, ch: Octet): Did {
    if ch == SP || ch == TAB then Go(c)
    else if ch == CR then Go(c.(st := DiscardWsAlmostDone))
    else if ch == LF then Go(c.(st := DiscardLws))
    else StepValueStart(c, ch)
  }

  function StepDiscardLws(cfg: Config, c: Core, ch: Octet): Did {
    if ch == SP || ch == TAB then Go(c.(st := DiscardWs))
    else StepFieldStart(cfg, EndHeader(c).(st := FieldStart), ch)
  }

  function Expect(c: Core, ch: Octet, expected: Octet, st: St): Did {
    if ch != expected then Fail(c, Strict) else Go(c.(st := st))
  }

  function StepChunkSizeStart(c: Core, ch: Octet): Did {
    if Unhex(ch) == -1 then Fail(c, InvalidChunkSize)
    else Go(c.(st := ChunkSize, length := Unhex(ch)))
  }

  function StepChunkSize(c: Core, ch: Octet): Did {
    if ch == CR then Go(c.(st := ChunkSizeAlmostDone))
    else if Unhex(ch) == -1 then
      if ch == SEMICOLON || ch == SP then Go(c.(st := ChunkParameters)) else Fail(c, InvalidChunkSize)
    else if TooLong(c.length, 16) then Fail(c, InvalidContentLength)
    else Go(c.(length := c.length * 16 + Unhex(ch)))
  }

  function StepChunkSizeAlmostDone(c: Core, ch: Octet): Did {
    if ch != LF then Fail(c, Strict)
    else if c.length == 0 then Notify(c.(flags := c.flags.(trailing := true), st := FieldStart), ChunkHeader(0))
    else Notify(c.(st := ChunkData), ChunkHeader(c.length))
  }

  /** One byte less to come. */
  function Less(n: nat): nat {
    if n == 0 then 0 else n - 1
  }

  function StepBody(cfg: Config, c: Core, ch: Octet): Did {
    var m := c.(length := Less(c.length));
    if m.length > 0 then Mark(m, BodyData, ch)
    else
      var d := EndMessage(cfg, m.(st := MessageDone));
      Did(d.core, Act([Data(BodyData, ch)], true, d.act.events))
  }

  function StepChunkData(c: Core, ch: Octet): Did {
    var m := c.(length := Less(c.length));
    Mark(if m.length == 0 then m.(st := ChunkDataAlmostDone) else m, BodyData, ch)
  }

  /** One byte, with all the states that look at it again. */
  function StepCore(cfg: Config, c: Core, ch: Octet): Did {
    match c.st
    case Dead => if ch == CR || ch == LF then Go(c) else Fail(c, ClosedConnection)
    case FieldStart => StepFieldStart(cfg, c, ch)
    case Field => StepField(c, ch)
    case DiscardWs => StepDiscardWs(c, ch)
    case DiscardWsAlmostDone => Expect(c, ch, LF, DiscardLws)
    case DiscardLws => StepDiscardLws(cfg, c, ch)
    case ValueStart => StepValueStart(c, ch)
    case Value => StepValue(c, ch)
    case ValueLws => StepValueLws(cfg, c, ch)
    case HeaderAlmostDone => Expect(c, ch, LF, ValueLws)
    case ChunkSizeStart => StepChunkSizeStart(c, ch)
    case ChunkSize => StepChunkSize(c, ch)
    case ChunkParameters => if ch == CR then Go(c.(st := ChunkSizeAlmostDone)) else Go(c)
    case ChunkSizeAlmostDone => StepChunkSizeAlmostDone(c, ch)
    case HeadersAlmostDone => StepHeadersAlmostDone(cfg, c, ch)
    case HeadersDone => if ch != LF then Fail(c, Strict) else StepHeadersDone(cfg, c)
    case ChunkData => StepChunkData(c, ch)
    case ChunkDataAlmostDone => if ch != CR then Fail(c, Strict) else Deliver(c.(st := ChunkDataDone))
    case ChunkDataDone => if ch != LF then Fail(c, Strict) else Notify(c.(st := ChunkSizeStart), ChunkComplete)
    case BodyIdentity => StepBody(cfg, c, ch)
    case BodyIdentityEof => Mark(c, BodyData, ch)
    case MessageDone => EndMessage(cfg, c)
    case StartReq => Go(c)
    case StartRes => Go(c)
  }

  function Perform(s: Parser, d: Did): Parser {
    var pend := s.pend + d.act.mark;
    if d.act.flush then Parser(d.core, s.out + pend + d.act.events, [])
    else Parser(d.core, s.out + d.act.events, pend)
  }

  function Step(cfg: Config, s: Parser, ch: Octet): Parser {
    Perform(s, StepCore(cfg, s.core, ch))
  }

  /** The next message begins here, or another protocol. */
  predicate Outside(c: Core) {
    c.st == StartReq || c.st == StartRes || (c.st == Dead && c.upgrade)
  }

  predicate Stopped(c: Core) {
    c.errno != Ok || Outside(c)
  }

  /** All bytes, one after the other, until the parser stops. */
  function Run(cfg: Config, s: Parser, data: seq<Octet>): Parser
    decreases |data|
  {
    if data == [] || Stopped(s.core) then s else Run(cfg, Step(cfg, s, data[0]), data[1..])
  }

  /** How many bytes are taken. The byte on which the parser fails is not. */
  function Taken(cfg: Config, s: Parser, data: seq<Octet>): (n: nat)
    ensures n <= |data|
    decreases |data|
  {
    if data == [] || Stopped(s.core) || Step(cfg, s, data[0]).core.errno != Ok then 0
    else 1 + Taken(cfg, Step(cfg, s, data[0]), data[1..])
  }

  /** The end of a call: the open mark is delivered, unless the parser has failed. */
  function EndCall(s: Parser): Parser {
    Parser(s.core, if s.core.errno == Ok then s.out + s.pend else s.out, [])
  }

  /** A call without data stands for the end of the connection. */
  function CallEof(s: Parser): Parser {
    var c := s.core;
    if c.errno != Ok then s
    else if c.st == BodyIdentityEof then s.(out := s.out + [MessageComplete])
    else if c.st == Dead || c.st == StartReq || c.st == StartRes then s
    else s.(core := c.(errno := InvalidEofState))
  }

  /** A call. */
  function Call(cfg: Config, s: Parser, data: seq<Octet>): Parser {
    if data == [] then CallEof(s) else EndCall(Run(cfg, s, data))
  }

  lemma {:induction false} RunAppend(cfg: Config, s: Parser, a: seq<Octet>, b: seq<Octet>)
    ensures Run(cfg, s, a + b) == Run(cfg, Run(cfg, s, a), b)
    decreases |a|
  {
    hide Step, Stopped;
    if a == [] {
      assert a + b == b;
    } else if !Stopped(s.core) {
      assert (a + b)[0] == a[0] && (a + b)[1..] == a[1..] + b;
      RunAppend(cfg, Step(cfg, s, a[0]), a[1..], b);
    }
  }

  lemma {:induction false} TakenAppend(cfg: Config, s: Parser, a: seq<Octet>, b: seq<Octet>)
    ensures Taken(cfg, s, a + b) == Taken(cfg, s, a) + if Stopped(Run(cfg, s, a).core) then 0 else Taken(cfg, Run(cfg, s, a), b)
    decreases |a|
  {
    hide Step, Outside;
    if a == [] {
      assert a + b == b;
    } else if !Stopped(s.core) {
      assert (a + b)[0] == a[0] && (a + b)[1..] == a[1..] + b;
      TakenAppend(cfg, Step(cfg, s, a[0]), a[1..], b);
    }
  }
}
