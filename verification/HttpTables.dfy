module HttpTables {
  // The character tables of http_parser.c against what RFC 2616 says, which byte each state refuses and with
  // which error, and how far a call gets.

  import opened HttpSpec
  import opened HttpSplit
  import opened HttpBody

  // ---- characters ----

  /** Section 2.2 of RFC 2616, the separators: ( ) < > @ , ; : \ " / [ ] ? = { } and the two blanks. */
  const SEPARATORS: set<Octet> := {40, 41, 60, 62, 64, 44, 59, 58, 92, 34, 47, 91, 93, 63, 61, 123, 125, SP, TAB}

  predicate UpperCase(c: Octet) {
    'A' as nat <= c <= 'Z' as nat
  }

  /** The table of tokens holds exactly the characters that are neither controls nor separators, in lower case. */
  lemma TokenIs(c: Octet)
    ensures Token(c) != 0 <==> 32 < c < 127 && c !in SEPARATORS
    ensures Token(c) != 0 ==> Token(c) == if UpperCase(c) then c + 32 else c
  {
  }

  /** Compared with a letter, the other bytes of a value count in any case; with a hyphen, CR does too. */
  lemma LowerIs(c: Octet, letter: Octet)
    requires 'a' as nat <= letter <= 'z' as nat
    ensures Lower(c) == letter <==> c == letter || c == letter - 32
    ensures Lower(c) == '-' as nat <==> c == '-' as nat || c == CR
  {
  }

  /** The digits of sizes, in either case, and that the upper half of the table reads as zero. */
  lemma UnhexIs(c: Octet, n: nat)
    requires n < 16
    ensures Unhex(c) == n && c < 128 <==> c == "0123456789abcdef"[n] as nat || c == "0123456789ABCDEF"[n] as nat
    ensures Unhex(c) == -1 <==> c < 128 && forall k :: 0 <= k < 16 ==>
      c != "0123456789abcdef"[k] as nat && c != "0123456789ABCDEF"[k] as nat
    ensures c >= 128 ==> Unhex(c) == 0
  {
    assert "0123456789abcdef"[0] == '0' && "0123456789abcdef"[1] == '1' && "0123456789abcdef"[2] == '2' && "0123456789abcdef"[3] == '3';
    assert "0123456789abcdef"[4] == '4' && "0123456789abcdef"[5] == '5' && "0123456789abcdef"[6] == '6' && "0123456789abcdef"[7] == '7';
    assert "0123456789abcdef"[8] == '8' && "0123456789abcdef"[9] == '9' && "0123456789abcdef"[10] == 'a' && "0123456789abcdef"[11] == 'b';
    assert "0123456789abcdef"[12] == 'c' && "0123456789abcdef"[13] == 'd' && "0123456789abcdef"[14] == 'e' && "0123456789abcdef"[15] == 'f';
    assert "0123456789ABCDEF"[10] == 'A' && "0123456789ABCDEF"[11] == 'B' && "0123456789ABCDEF"[12] == 'C';
    assert "0123456789ABCDEF"[13] == 'D' && "0123456789ABCDEF"[14] == 'E' && "0123456789ABCDEF"[15] == 'F';
  }

  function DecimalDigit(n: nat): Octet
    requires n < 10
  {
    "0123456789"[n] as nat
  }

  /** A number as it is printed. */
  function PrintDecimal(n: nat): (r: seq<Octet>)
    ensures r != []
  {
    if n < 10 then [DecimalDigit(n)] else PrintDecimal(n / 10) + [DecimalDigit(n % 10)]
  }

  /** Printing a length and reading it gives the length back. */
  lemma {:induction false} PrintedDecimal(n: nat)
    ensures var v := PrintDecimal(n); AllDigitsOrSpaces(v) && IsDigit(v[0]) && Decimal(v) == n
  {
    hide Decimal, AllDigitsOrSpaces;
    if n < 10 {
      NoDigits();
      DigitIs(n);
      DecimalStep([], DecimalDigit(n));
      assert [] + [DecimalDigit(n)] == [DecimalDigit(n)];
    } else {
      PrintedDecimal(n / 10);
      DigitIs(n % 10);
      DecimalStep(PrintDecimal(n / 10), DecimalDigit(n % 10));
    }
  }

  lemma DigitIs(n: nat)
    requires n < 10
    ensures IsDigit(DecimalDigit(n)) && DecimalDigit(n) == 48 + n
  {
  }

  /** So every length that is printed is taken, unless it is within 7 of 2^64. */
  lemma {:induction false} PrintedLength(cfg: Config, s: Parser, n: nat)
    requires s.core.errno == Ok && s.core.st == DiscardWs && s.core.hs == ContentLength
    ensures var r := Run(cfg, s, PrintDecimal(n)).core;
      if n <= 0x1_0000_0000_0000_0000 - 7 then r.errno == Ok && r.length == n else r.errno == InvalidContentLength
  {
    hide Decimal, AllDigitsOrSpaces, Run, PrintDecimal;
    PrintedDecimal(n);
    var v := PrintDecimal(n);
    NoLineEnds(v);
    ContentLengthValue(cfg, s, v);
  }

  lemma NoLineEnds(v: seq<Octet>)
    requires AllDigitsOrSpaces(v)
    ensures CR !in v && LF !in v
  {
  }

  // ---- errors ----

  predicate HexByte(c: Octet) {
    IsDigit(c) || 'a' as nat <= c <= 'f' as nat || 'A' as nat <= c <= 'F' as nat || c >= 128
  }

  predicate TokenByte(c: Octet) {
    32 < c < 127 && c !in SEPARATORS
  }

  /** The error that a byte at the beginning of a line leads to. */
  function LineError(c: Octet): Errno {
    if c == CR || c == LF || TokenByte(c) then Ok else InvalidHeaderToken
  }

  /** The error that a byte leads to, in each state, or Ok. */
  function Refusal(c: Core, ch: Octet): Errno {
    match c.st
    case Dead => if ch == CR || ch == LF then Ok else ClosedConnection
    case FieldStart => LineError(ch)
    case Field => if TokenByte(ch) || ch == COLON then Ok else InvalidHeaderToken
    case DiscardWs => if c.hs == ContentLength && ch !in {SP, TAB, CR, LF} && !IsDigit(ch) then InvalidContentLength else Ok
    case ValueStart => if c.hs == ContentLength && !IsDigit(ch) then InvalidContentLength else Ok
    case Value =>
      if c.hs == ContentLength && ch !in {SP, CR, LF} && (!IsDigit(ch) || c.length > (ULLONG_MAX - 10) / 10) then InvalidContentLength
      else Ok
    case ValueLws => if ch == SP || ch == TAB then if c.hs == ContentLength then InvalidContentLength else Ok else LineError(ch)
    case DiscardLws => if ch == SP || ch == TAB then Ok else LineError(ch)
    case ChunkSizeStart => if HexByte(ch) then Ok else InvalidChunkSize
    case ChunkSize =>
      if HexByte(ch) then if c.length > (ULLONG_MAX - 16) / 16 then InvalidContentLength else Ok
      else if ch == CR || ch == SEMICOLON || ch == SP then Ok
      else InvalidChunkSize
    case DiscardWsAlmostDone => if ch == LF then Ok else Strict
    case HeaderAlmostDone => if ch == LF then Ok else Strict
    case HeadersAlmostDone => if ch == LF then Ok else Strict
    case HeadersDone => if ch == LF then Ok else Strict
    case ChunkSizeAlmostDone => if ch == LF then Ok else Strict
    case ChunkDataDone => if ch == LF then Ok else Strict
    case ChunkDataAlmostDone => if ch == CR then Ok else Strict
    case _ => Ok
  }

  /** The error after a byte, and that a byte which is refused does nothing else. */
  ghost predicate Gives(c: Core, d: Did, e: Errno) {
    d.core.errno == e && (e != Ok ==> d.act == NOTHING && d.core.length == c.length)
  }

  lemma MessageGives(cfg: Config, c: Core)
    requires c.errno == Ok
    ensures Gives(c, EndMessage(cfg, c), Ok) && Gives(c, StepHeadersDone(cfg, c), Ok) && Gives(c, StepHeadersAlmostDone(cfg, c, LF), Ok)
  {
    hide NewMessage, NeedsEof;
  }

  lemma LineGives(cfg: Config, c: Core, ch: Octet)
    requires c.errno == Ok
    ensures Gives(c, StepFieldStart(cfg, c, ch), LineError(ch))
  {
    hide StepHeadersAlmostDone, Token, NameStart;
    TokenIs(ch);
    MessageGives(cfg, c.(st := HeadersAlmostDone));
  }

  lemma NextLineGives(cfg: Config, c: Core, ch: Octet)
    requires c.errno == Ok
    ensures Gives(c, StepFieldStart(cfg, EndHeader(c).(st := FieldStart), ch), LineError(ch))
  {
    hide StepFieldStart, SetConnection;
    LineGives(cfg, EndHeader(c).(st := FieldStart), ch);
  }

  lemma FieldGives(c: Core, ch: Octet)
    requires c.errno == Ok
    ensures Gives(c, StepField(c, ch), if TokenByte(ch) || ch == COLON then Ok else InvalidHeaderToken)
  {
    hide Token, NameChar;
    TokenIs(ch);
  }

  lemma ValueGives(c: Core, ch: Octet)
    requires c.errno == Ok
    ensures Gives(c, StepValueStart(c, ch), if c.hs == ContentLength && !IsDigit(ch) then InvalidContentLength else Ok)
    ensures Gives(c, StepValue(c, ch),
      if c.hs == ContentLength && ch !in {SP, CR, LF} && (!IsDigit(ch) || c.length > (ULLONG_MAX - 10) / 10) then InvalidContentLength else Ok)
  {
    hide ValueFirst, ValueChar, Lower, SetConnection;
  }

  lemma ChunkGives(c: Core, ch: Octet)
    requires c.errno == Ok
    ensures Gives(c, StepChunkSizeStart(c, ch), if HexByte(ch) then Ok else InvalidChunkSize)
    ensures Gives(c, StepChunkSize(c, ch), Refusal(c.(st := ChunkSize), ch))
    ensures Gives(c, StepChunkSizeAlmostDone(c, ch), if ch == LF then Ok else Strict)
  {
    hide Unhex;
    HexByteIs(ch);
  }

  lemma HexByteIs(ch: Octet)
    ensures HexByte(ch) <==> Unhex(ch) != -1
    ensures HexByte(ch) ==> ch != CR && ch != SEMICOLON && ch != SP
  {
  }

  lemma StepGives(cfg: Config, c: Core, ch: Octet)
    requires c.errno == Ok
    ensures Gives(c, StepCore(cfg, c, ch), Refusal(c, ch))
  {
    hide StepFieldStart, StepField, StepValueStart, StepValue, StepChunkSizeStart, StepChunkSize, StepChunkSizeAlmostDone, StepHeadersDone,
      EndHeader, LineError, TokenByte, HexByte, NewMessage, IsDigit, EndMessage, StepHeadersAlmostDone;
    match c.st
    case FieldStart => LineGives(cfg, c, ch);
    case Field => FieldGives(c, ch);
    case DiscardWs => ValueGives(c, ch);
    case ValueStart => ValueGives(c, ch);
    case Value => ValueGives(c, ch);
    case ValueLws => {
      NextLineGives(cfg, c, ch);
      ValueGives(c.(st := ValueStart), ch);
      BlankIsNoDigit();
    }
    case DiscardLws => NextLineGives(cfg, c, ch);
    case ChunkSizeStart => ChunkGives(c, ch);
    case ChunkSize => ChunkGives(c, ch);
    case ChunkSizeAlmostDone => ChunkGives(c, ch);
    case HeadersAlmostDone => AlmostDoneGives(cfg, c, ch);
    case HeadersDone => MessageGives(cfg, c);
    case BodyIdentity => BodyGives(cfg, c, ch);
    case MessageDone => MessageGives(cfg, c);
    case _ =>
  }

  lemma BlankIsNoDigit()
    ensures !IsDigit(SP) && !IsDigit(TAB)
  {
  }

  lemma AlmostDoneGives(cfg: Config, c: Core, ch: Octet)
    requires c.errno == Ok
    ensures Gives(c, StepHeadersAlmostDone(cfg, c, ch), if ch == LF then Ok else Strict)
  {
    hide StepHeadersDone, EndMessage;
    MessageGives(cfg, c);
  }

  lemma BodyGives(cfg: Config, c: Core, ch: Octet)
    requires c.errno == Ok
    ensures Gives(c, StepBody(cfg, c, ch), Ok)
  {
    hide NewMessage;
  }

  /** What each state refuses, and with which error; and a byte that is refused changes and delivers nothing. */
  lemma Refused(cfg: Config, s: Parser, ch: Octet)
    requires s.core.errno == Ok
    ensures var r := Step(cfg, s, ch);
      r.core.errno == Refusal(s.core, ch) && (r.core.errno != Ok ==> r.out == s.out && r.pend == s.pend && r.core.length == s.core.length)
  {
    hide StepCore, Refusal;
    StepGives(cfg, s.core, ch);
    assert s.out + [] == s.out && s.pend + [] == s.pend;
  }

  // ---- how far a call gets ----

  // The number of bytes that are taken: up to it nothing has failed and no message has ended, and if it is not
  // all of them, the next byte is refused or belongs to what follows the message.
  lemma {:induction false} TakenIs(cfg: Config, s: Parser, data: seq<Octet>)
    ensures var n := Taken(cfg, s, data);
      n <= |data| && (forall k :: 0 <= k < n ==> !Stopped(Run(cfg, s, data[..k]).core)) &&
      (s.core.errno == Ok ==> Run(cfg, s, data[..n]).core.errno == Ok) &&
      (n < |data| ==> Stopped(Run(cfg, s, data[..n]).core) || Run(cfg, s, data[..n + 1]).core.errno != Ok)
    decreases |data|
  {
    hide Step, Stopped, Run;
    if data == [] || Stopped(s.core) || Step(cfg, s, data[0]).core.errno != Ok {
      TakesNone(cfg, s, data);
    } else {
      var r, rest := Step(cfg, s, data[0]), data[1..];
      TakenIs(cfg, r, rest);
      TakesOne(cfg, s, data);
      forall k | 0 < k <= |data| ensures Run(cfg, s, data[..k]) == Run(cfg, r, rest[..k - 1]) {
        assert data[..k][0] == data[0] && data[..k][1..] == rest[..k - 1];
        RunHead(cfg, s, data[..k]);
      }
      assert data[..0] == [];
      EmptyRun(cfg, s, []);
    }
  }

  lemma {:induction false} TakesNone(cfg: Config, s: Parser, data: seq<Octet>)
    requires data == [] || Stopped(s.core) || Step(cfg, s, data[0]).core.errno != Ok
    ensures Taken(cfg, s, data) == 0 && Run(cfg, s, data[..0]) == s
    ensures data != [] && !Stopped(s.core) ==> Run(cfg, s, data[..1]) == Step(cfg, s, data[0])
  {
    hide Step;
    assert data[..0] == [];
    if data != [] {
      assert data[..1][0] == data[0] && data[..1][1..] == [];
    }
  }

  lemma {:induction false} TakesOne(cfg: Config, s: Parser, data: seq<Octet>)
    requires data != [] && !Stopped(s.core) && Step(cfg, s, data[0]).core.errno == Ok
    ensures Taken(cfg, s, data) == 1 + Taken(cfg, Step(cfg, s, data[0]), data[1..]) && s.core.errno == Ok
  {
    hide Step;
  }

  /** After a message that closes the connection, line ends are skipped and everything else is refused. */
  lemma {:induction false} AfterClose(cfg: Config, s: Parser, data: seq<Octet>)
    requires s.core.errno == Ok && s.core.st == Dead && !s.core.upgrade && s.pend == []
    ensures if forall i :: 0 <= i < |data| ==> data[i] == CR || data[i] == LF then Run(cfg, s, data) == s
      else Run(cfg, s, data) == s.(core := s.core.(errno := ClosedConnection))
    decreases |data|
  {
    hide Step;
    if data != [] {
      DeadStep(cfg, s, data[0]);
      RunHead(cfg, s, data);
      if data[0] == CR || data[0] == LF {
        AfterClose(cfg, s, data[1..]);
        forall i | 0 < i < |data| ensures data[i] == data[1..][i - 1] {}
        forall i | 0 <= i < |data| - 1 ensures data[1..][i] == data[i + 1] {}
      } else {
        StaysFailed(cfg, Step(cfg, s, data[0]), data[1..]);
      }
    }
  }

  lemma DeadStep(cfg: Config, s: Parser, ch: Octet)
    requires s.core.errno == Ok && s.core.st == Dead
    ensures Step(cfg, s, ch) == if ch == CR || ch == LF then s else s.(core := s.core.(errno := ClosedConnection))
  {
    assert s.out + [] == s.out && s.pend + [] == s.pend;
  }

  lemma {:induction false} StaysFailed(cfg: Config, s: Parser, data: seq<Octet>)
    requires s.core.errno != Ok
    ensures Run(cfg, s, data) == s
  {
  }
}
