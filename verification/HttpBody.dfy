module HttpBody {
  // Message lengths and bodies: which Content-Length values and chunk sizes the parser accepts and what number
  // it makes of them, and what it delivers of a body of known length and of a chunked one (RFC 2616, sections
  // 3.6.1 and 4.4).

  import opened HttpSpec
  import opened HttpSplit

  /** The bytes of a data callback, one by one. */
  function DataEvents(kind: Kind, data: seq<Octet>): (r: seq<Event>)
    ensures |r| == |data|
  {
    seq(|data|, i requires 0 <= i < |data| => Data(kind, data[i]))
  }

  function BodyEvents(data: seq<Octet>): (r: seq<Event>)
    ensures |r| == |data|
  {
    DataEvents(BodyData, data)
  }

  lemma EventsHead(kind: Kind, data: seq<Octet>, pend: seq<Event>)
    requires data != []
    ensures pend + DataEvents(kind, data) == pend + [Data(kind, data[0])] + DataEvents(kind, data[1..])
  {
    assert DataEvents(kind, data) == [Data(kind, data[0])] + DataEvents(kind, data[1..]);
  }

  // ---- Content-Length ----

  predicate DigitOrSpace(ch: Octet) {
    IsDigit(ch) || ch == SP
  }

  predicate AllDigitsOrSpaces(v: seq<Octet>) {
    forall i :: 0 <= i < |v| ==> DigitOrSpace(v[i])
  }

  /** The decimal number that the digits of v write, spaces left out. */
  function Decimal(v: seq<Octet>): nat
    requires AllDigitsOrSpaces(v)
  {
    if v == [] then 0
    else
      var n, ch := Decimal(v[..|v| - 1]), v[|v| - 1];
      if ch == SP then n else n * 10 + (ch - 48)
  }

  lemma {:induction false} DecimalGrows(v: seq<Octet>, k: nat)
    requires AllDigitsOrSpaces(v) && k <= |v|
    ensures Decimal(v[..k]) <= Decimal(v)
    decreases |v|
  {
    if k < |v| {
      var n := |v| - 1;
      DecimalGrows(v[..n], k);
      assert v[..n][..k] == v[..k];
    } else {
      assert v[..k] == v;
    }
  }

  /** 2^64 - 7 */
  const MAX_CONTENT_LENGTH: nat := ULLONG_MAX - 6

  /** The parser reads a Content-Length value, of which it has seen v. */
  ghost predicate ReadsLength(s: Parser, v: seq<Octet>) {
    s.core.errno == Ok && s.core.st == Value && s.core.hs == ContentLength &&
    AllDigitsOrSpaces(v) && s.core.length == Decimal(v) <= MAX_CONTENT_LENGTH
  }

  ghost predicate Acceptable(v: seq<Octet>) {
    AllDigitsOrSpaces(v) && Decimal(v) <= MAX_CONTENT_LENGTH
  }

  lemma {:induction false} DecimalStep(v: seq<Octet>, ch: Octet)
    ensures AllDigitsOrSpaces(v + [ch]) <==> AllDigitsOrSpaces(v) && DigitOrSpace(ch)
    ensures AllDigitsOrSpaces(v) && IsDigit(ch) ==> Decimal(v + [ch]) == Decimal(v) * 10 + (ch - 48)
    ensures AllDigitsOrSpaces(v) && ch == SP ==> Decimal(v + [ch]) == Decimal(v)
  {
    assert (v + [ch])[..|v|] == v && (v + [ch])[|v|] == ch;
    if AllDigitsOrSpaces(v + [ch]) {
      forall i | 0 <= i < |v| ensures DigitOrSpace(v[i]) {
        assert v[i] == (v + [ch])[i];
      }
    }
  }

  lemma {:induction false} LengthStep(cfg: Config, s: Parser, v: seq<Octet>, ch: Octet)
    requires ReadsLength(s, v) && ch != CR && ch != LF
    ensures Acceptable(v + [ch]) ==> ReadsLength(Step(cfg, s, ch), v + [ch])
    ensures Acceptable(v + [ch]) ==>
      Step(cfg, s, ch) == s.(core := s.core.(length := Decimal(v + [ch])), pend := s.pend + [Data(ValueData, ch)])
    ensures !Acceptable(v + [ch]) ==> Step(cfg, s, ch).core.errno == InvalidContentLength
  {
    hide Decimal, AllDigitsOrSpaces, SetConnection;
    DecimalStep(v, ch);
    NoComma(s.core.flags);
    assert s.out + [] == s.out;
  }

  lemma NoComma(flags: Flags)
    ensures SetConnection(flags, ContentLength) == flags
  {
  }

  lemma {:induction false} LengthRuns(cfg: Config, s: Parser, v: seq<Octet>, more: seq<Octet>)
    requires ReadsLength(s, v) && CR !in more && LF !in more
    ensures Acceptable(v + more) ==>
      Run(cfg, s, more) == s.(core := s.core.(length := Decimal(v + more)), pend := s.pend + DataEvents(ValueData, more))
    ensures !Acceptable(v + more) ==> Run(cfg, s, more).core.errno == InvalidContentLength
    decreases |more|
  {
    hide Step, Decimal, AllDigitsOrSpaces;
    if more == [] {
      assert v + more == v && s.pend + DataEvents(ValueData, more) == s.pend;
    } else {
      var ch := more[0];
      LengthStep(cfg, s, v, ch);
      EventsHead(ValueData, more, s.pend);
      assert v + more == (v + [ch]) + more[1..];
      if Acceptable(v + [ch]) {
        LengthRuns(cfg, Step(cfg, s, ch), v + [ch], more[1..]);
      } else {
        StillUnacceptable(v + [ch], more[1..]);
      }
    }
  }

  lemma StillUnacceptable(v: seq<Octet>, more: seq<Octet>)
    requires !Acceptable(v)
    ensures !Acceptable(v + more)
  {
    var w := v + more;
    if AllDigitsOrSpaces(w) {
      forall i | 0 <= i < |v| ensures DigitOrSpace(v[i]) {
        assert w[i] == v[i];
      }
      assert w[..|v|] == v;
      DecimalGrows(w, |v|);
    }
  }

  // A Content-Length value is accepted exactly if it starts with a digit, has only digits and spaces, and
  // writes at most 2^64 - 7. Then the length is the number written; it has not wrapped and is not the
  // sentinel.
  lemma {:induction false} ContentLengthValue(cfg: Config, s: Parser, v: seq<Octet>)
    requires s.core.errno == Ok && s.core.st == DiscardWs && s.core.hs == ContentLength
    requires v != [] && v[0] != SP && v[0] != TAB && CR !in v && LF !in v
    ensures Run(cfg, s, v).core.errno == Ok <==> IsDigit(v[0]) && Acceptable(v)
    ensures Run(cfg, s, v).core.errno == Ok ==> Decimal(v) < ULLONG_MAX
    ensures Run(cfg, s, v).core.errno == Ok ==>
      Run(cfg, s, v) == s.(core := s.core.(st := Value, index := 0, length := Decimal(v)),
                           pend := s.pend + DataEvents(ValueData, v))
    ensures Run(cfg, s, v).core.errno in {Ok, InvalidContentLength}
  {
    hide Decimal, AllDigitsOrSpaces;
    DecimalStep([], v[0]);
    assert [] + [v[0]] == [v[0]] && v == [v[0]] + v[1..];
    NoDigits();
    EventsHead(ValueData, v, s.pend);
    if IsDigit(v[0]) {
      var r := Step(cfg, s, v[0]);
      assert s.out + [] == s.out;
      assert r == s.(core := s.core.(st := Value, index := 0, length := v[0] - 48), pend := s.pend + [Data(ValueData, v[0])]);
      LengthRuns(cfg, r, [v[0]], v[1..]);
    } else {
      assert Step(cfg, s, v[0]).core.errno == InvalidContentLength;
    }
  }

  lemma NoDigits()
    ensures AllDigitsOrSpaces([]) && Decimal([]) == 0
  {
  }

  // ---- chunk sizes ----

  predicate AllHex(v: seq<Octet>) {
    forall i :: 0 <= i < |v| ==> Unhex(v[i]) != -1
  }

  function Hex(v: seq<Octet>): nat
    requires AllHex(v)
  {
    if v == [] then 0 else Hex(v[..|v| - 1]) * 16 + Unhex(v[|v| - 1])
  }

  /** 2^64 - 17 */
  const MAX_CHUNK_SIZE: nat := ULLONG_MAX - 16

  lemma {:induction false} HexStep(v: seq<Octet>, ch: Octet)
    requires AllHex(v) && Unhex(ch) != -1
    ensures AllHex(v + [ch]) && Hex(v + [ch]) == Hex(v) * 16 + Unhex(ch)
  {
    hide Unhex;
    assert (v + [ch])[..|v|] == v;
  }

  lemma {:induction false} HexGrows(v: seq<Octet>, k: nat)
    requires AllHex(v) && k <= |v|
    ensures AllHex(v[..k]) && Hex(v[..k]) <= Hex(v)
    decreases |v|
  {
    hide Unhex;
    if k < |v| {
      var n := |v| - 1;
      HexGrows(v[..n], k);
      assert v[..n][..k] == v[..k];
    } else {
      assert v[..k] == v;
    }
  }

  ghost predicate ReadsSize(s: Parser, v: seq<Octet>) {
    s.core.errno == Ok && s.core.st == ChunkSize && AllHex(v) && s.core.length == Hex(v) <= MAX_CHUNK_SIZE
  }

  lemma {:induction false} SizeStep(cfg: Config, s: Parser, v: seq<Octet>, ch: Octet)
    requires ReadsSize(s, v) && Unhex(ch) != -1
    ensures Hex(v) * 16 + Unhex(ch) <= MAX_CHUNK_SIZE ==>
      Step(cfg, s, ch) == s.(core := s.core.(length := Hex(v) * 16 + Unhex(ch)))
    ensures Hex(v) * 16 + Unhex(ch) > MAX_CHUNK_SIZE ==> Step(cfg, s, ch).core.errno == InvalidContentLength
  {
    hide Hex, AllHex;
    assert Unhex(CR) == -1;
  }

  lemma {:induction false} SizeRuns(cfg: Config, s: Parser, v: seq<Octet>, more: seq<Octet>)
    requires ReadsSize(s, v) && AllHex(v + more)
    ensures Hex(v + more) <= MAX_CHUNK_SIZE ==> Run(cfg, s, more) == s.(core := s.core.(length := Hex(v + more)))
    ensures Hex(v + more) > MAX_CHUNK_SIZE ==> Run(cfg, s, more).core.errno == InvalidContentLength
    decreases |more|
  {
    hide Step, Hex, Unhex;
    if more == [] {
      assert v + more == v;
    } else {
      var ch := more[0];
      assert (v + more)[|v|] == ch && v + more == (v + [ch]) + more[1..];
      SizeStep(cfg, s, v, ch);
      HexStep(v, ch);
      assert (v + more)[..|v| + 1] == v + [ch];
      HexGrows(v + more, |v| + 1);
      if Hex(v + [ch]) <= MAX_CHUNK_SIZE {
        SizeRuns(cfg, Step(cfg, s, ch), v + [ch], more[1..]);
      }
    }
  }

  /** A chunk size is accepted exactly if it is at most 2^64 - 17, and is then the number written. */
  lemma {:induction false} ChunkSizeValue(cfg: Config, s: Parser, v: seq<Octet>)
    requires s.core.errno == Ok && s.core.st == ChunkSizeStart && v != [] && AllHex(v)
    ensures Hex(v) <= MAX_CHUNK_SIZE ==>
      Run(cfg, s, v) == s.(core := s.core.(st := ChunkSize, length := Hex(v)), out := s.out + [], pend := s.pend + [])
    ensures Hex(v) > MAX_CHUNK_SIZE ==> Run(cfg, s, v).core.errno == InvalidContentLength
  {
    hide Hex, Unhex, AllHex;
    UseHex(v);
    assert [] + [v[0]] == [v[0]] && v == [v[0]] + v[1..];
    SizeRuns(cfg, Step(cfg, s, v[0]), [v[0]], v[1..]);
  }

  /** The table of digits has only 128 entries filled in: any other byte passes for the digit 0. */
  lemma HighByteIsZero(cfg: Config, s: Parser, ch: Octet)
    requires s.core.errno == Ok && ch >= 128 && (s.core.st == ChunkSizeStart || (s.core.st == ChunkSize && !TooLong(s.core.length, 16)))
    ensures Step(cfg, s, ch) ==
      s.(core := s.core.(st := ChunkSize, length := if s.core.st == ChunkSizeStart then 0 else s.core.length * 16))
  {
    hide TooLong;
    assert s.out + [] == s.out && s.pend + [] == s.pend;
  }

  lemma UseHex(v: seq<Octet>)
    requires v != [] && AllHex(v)
    ensures Unhex(v[0]) != -1 && AllHex([v[0]]) && Hex([v[0]]) == Unhex(v[0]) <= 15
  {
    assert [v[0]][..0] == [];
  }

  // ---- bodies of known length ----

  /** Of a body that is not complete yet nothing is delivered out of turn, and the rest is counted exactly. */
  lemma {:induction false} PartOfBody(cfg: Config, s: Parser, data: seq<Octet>)
    requires s.core.errno == Ok && s.core.st == BodyIdentity && |data| < s.core.length
    ensures Run(cfg, s, data) ==
      s.(core := s.core.(length := s.core.length - |data|), pend := s.pend + BodyEvents(data))
    decreases |data|
  {
    hide EndMessage;
    if data == [] {
      assert s.pend + BodyEvents(data) == s.pend;
    } else {
      var r := Step(cfg, s, data[0]);
      assert r == s.(core := s.core.(length := s.core.length - 1), pend := s.pend + [Data(BodyData, data[0])]) by {
        assert s.out + [] == s.out;
      }
      PartOfBody(cfg, r, data[1..]);
      EventsHead(BodyData, data, s.pend);
    }
  }

  /** The last byte of a body delivers the body and ends the message. */
  lemma LastOfBody(cfg: Config, s: Parser, ch: Octet)
    requires s.core.errno == Ok && s.core.st == BodyIdentity && s.core.length == 1
    ensures var c := s.core.(length := 0, st := MessageDone);
      Step(cfg, s, ch) ==
      Parser(c.(st := NewMessage(cfg, c)), s.out + (s.pend + [Data(BodyData, ch)]) + [MessageComplete], [])
  {
    hide NewMessage;
  }

  /** After exactly as many bytes as announced the body has been delivered, and the message is complete. */
  lemma {:induction false} WholeBody(cfg: Config, s: Parser, data: seq<Octet>)
    requires s.core.errno == Ok && s.core.st == BodyIdentity && |data| == s.core.length > 0
    ensures var c := s.core.(length := 0, st := MessageDone);
      Run(cfg, s, data) ==
      Parser(c.(st := NewMessage(cfg, c)), s.out + (s.pend + BodyEvents(data)) + [MessageComplete], [])
  {
    hide Step, NewMessage;
    var n := |data| - 1;
    PartOfBody(cfg, s, data[..n]);
    assert data == data[..n] + [data[n]];
    RunAppend(cfg, s, data[..n], [data[n]]);
    LastOfBody(cfg, Run(cfg, s, data[..n]), data[n]);
    OneStep(cfg, Run(cfg, s, data[..n]), data[n]);
    assert s.pend + BodyEvents(data[..n]) + [Data(BodyData, data[n])] == s.pend + BodyEvents(data);
  }

  lemma {:induction false} OneStep(cfg: Config, s: Parser, ch: Octet)
    requires !Stopped(s.core)
    ensures Run(cfg, s, [ch]) == Step(cfg, s, ch)
  {
    hide Step, Stopped;
    assert [ch][1..] == [];
  }

  lemma {:induction false} RunHead(cfg: Config, s: Parser, data: seq<Octet>)
    requires data != [] && !Stopped(s.core)
    ensures Run(cfg, s, data) == Run(cfg, Step(cfg, s, data[0]), data[1..])
  {
    hide Step, Stopped;
  }

  // ---- chunked bodies ----

  /** A chunk as it is sent: its size in hexadecimal, an extension that is ignored, and its data. */
  datatype Chunk = Chunk(size: seq<Octet>, extension: seq<Octet>, data: seq<Octet>)

  ghost predicate ValidSize(size: seq<Octet>, extension: seq<Octet>, n: nat) {
    size != [] && AllHex(size) && Hex(size) == n <= MAX_CHUNK_SIZE &&
    CR !in extension && (extension != [] ==> extension[0] == SEMICOLON || extension[0] == SP)
  }

  ghost predicate ValidChunk(c: Chunk) {
    c.data != [] && ValidSize(c.size, c.extension, |c.data|)
  }

  const CRLF: seq<Octet> := [CR, LF]

  function ChunkBytes(c: Chunk): seq<Octet> {
    c.size + c.extension + CRLF + (c.data + CRLF)
  }

  function ChunkEvents(data: seq<Octet>): seq<Event> {
    [ChunkHeader(|data|)] + BodyEvents(data) + [ChunkComplete]
  }

  lemma {:induction false} ExtensionRuns(cfg: Config, s: Parser, extension: seq<Octet>)
    requires s.core.errno == Ok && s.core.st == ChunkParameters && CR !in extension
    ensures Run(cfg, s, extension) == s
    decreases |extension|
  {
    if extension != [] {
      assert s.out + [] == s.out && s.pend + [] == s.pend;
      ExtensionRuns(cfg, s, extension[1..]);
    }
  }

  /** The size line of a chunk up to its CR. */
  lemma {:induction false} SizeLine(cfg: Config, s: Parser, size: seq<Octet>, extension: seq<Octet>, n: nat)
    requires s.core.errno == Ok && s.core.st == ChunkSizeStart && ValidSize(size, extension, n)
    ensures Run(cfg, s, size + extension + [CR]) == s.(core := s.core.(st := ChunkSizeAlmostDone, length := n))
  {
    hide Run, Hex, Unhex, AllHex;
    assert s.out + [] == s.out && s.pend + [] == s.pend;
    ChunkSizeValue(cfg, s, size);
    RunAppend(cfg, s, size + extension, [CR]);
    RunAppend(cfg, s, size, extension);
    var r := Run(cfg, s, size);
    NotHex();
    if extension == [] {
      EmptyRun(cfg, r, extension);
      OneStep(cfg, r, CR);
    } else {
      assert extension == [extension[0]] + extension[1..];
      RunAppend(cfg, r, [extension[0]], extension[1..]);
      OneStep(cfg, r, extension[0]);
      var q := r.(core := r.core.(st := ChunkParameters));
      assert Step(cfg, r, extension[0]) == q;
      ExtensionRuns(cfg, q, extension[1..]);
      OneStep(cfg, q, CR);
    }
  }

  lemma {:induction false} EmptyRun(cfg: Config, s: Parser, data: seq<Octet>)
    requires data == []
    ensures Run(cfg, s, data) == s
  {
  }

  lemma NotHex()
    ensures Unhex(SEMICOLON) == -1 && Unhex(SP) == -1 && Unhex(CR) == -1
  {
  }

  /** Of the data of a chunk that is not complete yet, the rest is counted exactly. */
  lemma {:induction false} PartOfChunk(cfg: Config, s: Parser, data: seq<Octet>)
    requires s.core.errno == Ok && s.core.st == ChunkData && |data| < s.core.length
    ensures Run(cfg, s, data) ==
      s.(core := s.core.(length := s.core.length - |data|), pend := s.pend + BodyEvents(data))
    decreases |data|
  {
    if data == [] {
      assert s.pend + BodyEvents(data) == s.pend;
    } else {
      assert s.out + [] == s.out;
      EventsHead(BodyData, data, s.pend);
      PartOfChunk(cfg, Step(cfg, s, data[0]), data[1..]);
    }
  }

  /** A body that ends with the connection. */
  lemma {:induction false} EofBodyRuns(cfg: Config, s: Parser, data: seq<Octet>)
    requires s.core.errno == Ok && s.core.st == BodyIdentityEof
    ensures Run(cfg, s, data) == s.(pend := s.pend + BodyEvents(data))
    decreases |data|
  {
    if data == [] {
      assert s.pend + BodyEvents(data) == s.pend;
    } else {
      assert s.out + [] == s.out;
      EventsHead(BodyData, data, s.pend);
      EofBodyRuns(cfg, Step(cfg, s, data[0]), data[1..]);
    }
  }

  lemma {:induction false} ChunkDataRuns(cfg: Config, s: Parser, data: seq<Octet>)
    requires s.core.errno == Ok && s.core.st == ChunkData && |data| == s.core.length > 0
    ensures Run(cfg, s, data) ==
      s.(core := s.core.(st := ChunkDataAlmostDone, length := 0), pend := s.pend + BodyEvents(data))
    decreases |data|
  {
    EventsHead(BodyData, data, s.pend);
    assert s.out + [] == s.out;
    if |data| == 1 {
      OneStep(cfg, s, data[0]);
      assert data == [data[0]] && BodyEvents(data[1..]) == [];
    } else {
      ChunkDataRuns(cfg, Step(cfg, s, data[0]), data[1..]);
    }
  }

  /** The size line of a chunk that has data. */
  lemma {:induction false} ChunkStarts(cfg: Config, s: Parser, size: seq<Octet>, extension: seq<Octet>, n: nat)
    requires s.core.errno == Ok && s.core.st == ChunkSizeStart && s.pend == [] && ValidSize(size, extension, n) && n > 0
    ensures Run(cfg, s, size + extension + CRLF) ==
      s.(core := s.core.(st := ChunkData, length := n), out := s.out + [ChunkHeader(n)])
  {
    hide Run, ValidSize;
    SizeLine(cfg, s, size, extension, n);
    assert size + extension + CRLF == size + extension + [CR] + [LF];
    RunAppend(cfg, s, size + extension + [CR], [LF]);
    OneStep(cfg, s.(core := s.core.(st := ChunkSizeAlmostDone, length := n)), LF);
  }

  /** The data of a chunk and the line end after it. */
  lemma {:induction false} ChunkFinishes(cfg: Config, s: Parser, data: seq<Octet>)
    requires s.core.errno == Ok && s.core.st == ChunkData && s.pend == [] && |data| == s.core.length > 0
    ensures Run(cfg, s, data + CRLF) ==
      Parser(s.core.(st := ChunkSizeStart, length := 0), s.out + BodyEvents(data) + [ChunkComplete], [])
  {
    hide Run, Step, DataEvents;
    ChunkDataRuns(cfg, s, data);
    assert data + CRLF == data + ([CR] + [LF]);
    RunAppend(cfg, s, data, [CR] + [LF]);
    var r := Run(cfg, s, data);
    RunAppend(cfg, r, [CR], [LF]);
    OneStep(cfg, r, CR);
    ChunkEnds(cfg, r, s.out, BodyEvents(data));
    OneStep(cfg, Step(cfg, r, CR), LF);
  }

  /** One chunk: its size is announced, its data delivered, and the end of the chunk announced. */
  lemma {:induction false} ChunkRuns(cfg: Config, s: Parser, c: Chunk)
    requires s.core.errno == Ok && s.core.st == ChunkSizeStart && s.pend == [] && ValidChunk(c)
    ensures Run(cfg, s, ChunkBytes(c)) == s.(core := s.core.(length := 0), out := s.out + ChunkEvents(c.data))
  {
    hide Run, ValidSize, DataEvents;
    ChunkStarts(cfg, s, c.size, c.extension, |c.data|);
    RunAppend(cfg, s, c.size + c.extension + CRLF, c.data + CRLF);
    ChunkFinishes(cfg, Run(cfg, s, c.size + c.extension + CRLF), c.data);
    assert s.out + [ChunkHeader(|c.data|)] + BodyEvents(c.data) + [ChunkComplete] == s.out + ChunkEvents(c.data);
  }

  /** The line end after the data of a chunk. */
  lemma ChunkEnds(cfg: Config, s: Parser, out: seq<Event>, data: seq<Event>)
    requires s.core.errno == Ok && s.core.st == ChunkDataAlmostDone && s.out == out && s.pend == [] + data
    ensures var r := Step(cfg, s, CR);
      r == Parser(s.core.(st := ChunkDataDone), out + data, []) &&
      Step(cfg, r, LF) == Parser(s.core.(st := ChunkSizeStart), out + data + [ChunkComplete], [])
  {
    var r := Parser(s.core.(st := ChunkDataDone), out + data, []);
    assert s.out + (s.pend + []) + [] == r.out;
    assert r.pend + [] == [];
  }

  function AllChunks(chunks: seq<Chunk>): seq<Octet> {
    if chunks == [] then [] else ChunkBytes(chunks[0]) + AllChunks(chunks[1..])
  }

  function AllEvents(chunks: seq<Chunk>): seq<Event> {
    if chunks == [] then [] else ChunkEvents(chunks[0].data) + AllEvents(chunks[1..])
  }

  /** The data of all chunks, joined. */
  function Contents(chunks: seq<Chunk>): seq<Octet> {
    if chunks == [] then [] else chunks[0].data + Contents(chunks[1..])
  }

  lemma {:induction false} ChunksRun(cfg: Config, s: Parser, chunks: seq<Chunk>)
    requires s.core.errno == Ok && s.core.st == ChunkSizeStart && s.pend == []
    requires forall i :: 0 <= i < |chunks| ==> ValidChunk(chunks[i])
    ensures Run(cfg, s, AllChunks(chunks)) ==
      s.(core := if chunks == [] then s.core else s.core.(length := 0), out := s.out + AllEvents(chunks))
    decreases |chunks|
  {
    hide Run, ValidChunk, ChunkBytes, ChunkEvents;
    if chunks == [] {
      EmptyRun(cfg, s, []);
      assert s.out + [] == s.out;
    } else {
      var c := chunks[0];
      ChunkRuns(cfg, s, c);
      var r := s.(core := s.core.(length := 0), out := s.out + ChunkEvents(c.data));
      RunAppend(cfg, s, ChunkBytes(c), AllChunks(chunks[1..]));
      ChunksRun(cfg, r, chunks[1..]);
      assert s.out + ChunkEvents(c.data) + AllEvents(chunks[1..]) == s.out + AllEvents(chunks);
    }
  }

  /** The chunk of size zero and the empty trailer. */
  function LastChunk(size: seq<Octet>, extension: seq<Octet>): seq<Octet> {
    size + extension + CRLF + CRLF
  }

  /** The size line of the last chunk. */
  lemma {:induction false} LastChunkStarts(cfg: Config, s: Parser, size: seq<Octet>, extension: seq<Octet>)
    requires s.core.errno == Ok && s.core.st == ChunkSizeStart && s.pend == [] && ValidSize(size, extension, 0)
    ensures Run(cfg, s, size + extension + CRLF) ==
      Parser(s.core.(st := FieldStart, length := 0, flags := s.core.flags.(trailing := true)), s.out + [ChunkHeader(0)], [])
  {
    hide Run, ValidSize;
    SizeLine(cfg, s, size, extension, 0);
    assert size + extension + CRLF == size + extension + [CR] + [LF];
    RunAppend(cfg, s, size + extension + [CR], [LF]);
    OneStep(cfg, s.(core := s.core.(st := ChunkSizeAlmostDone, length := 0)), LF);
  }

  /** The empty line that ends the trailer. */
  lemma {:induction false} TrailerEnds(cfg: Config, s: Parser)
    requires s.core.errno == Ok && s.core.st == FieldStart && s.pend == [] && s.core.flags.trailing
    ensures var c := s.core.(st := HeadersAlmostDone);
      Run(cfg, s, CRLF) == Parser(c.(st := NewMessage(cfg, c)), s.out + [ChunkComplete, MessageComplete], [])
  {
    hide Run, NewMessage;
    assert CRLF == [CR] + [LF];
    RunAppend(cfg, s, [CR], [LF]);
    OneStep(cfg, s, CR);
    var r := s.(core := s.core.(st := HeadersAlmostDone));
    assert s.out + [] == s.out;
    OneStep(cfg, r, LF);
  }

  lemma {:induction false} LastChunkRuns(cfg: Config, s: Parser, size: seq<Octet>, extension: seq<Octet>)
    requires s.core.errno == Ok && s.core.st == ChunkSizeStart && s.pend == [] && ValidSize(size, extension, 0)
    ensures var c := s.core.(flags := s.core.flags.(trailing := true), length := 0, st := HeadersAlmostDone);
      Run(cfg, s, LastChunk(size, extension)) ==
      Parser(c.(st := NewMessage(cfg, c)), s.out + [ChunkHeader(0)] + [ChunkComplete, MessageComplete], [])
  {
    hide Run, ValidSize, NewMessage;
    LastChunkStarts(cfg, s, size, extension);
    RunAppend(cfg, s, size + extension + CRLF, CRLF);
    TrailerEnds(cfg, Run(cfg, s, size + extension + CRLF));
  }

  /** A chunked body: the chunks one after the other, the chunk of size zero, and the end of the message. */
  lemma {:induction false} ChunkedBody(cfg: Config, s: Parser, chunks: seq<Chunk>, size: seq<Octet>, extension: seq<Octet>)
    requires s.core.errno == Ok && s.core.st == ChunkSizeStart && s.pend == []
    requires (forall i :: 0 <= i < |chunks| ==> ValidChunk(chunks[i])) && ValidSize(size, extension, 0)
    ensures var c := s.core.(flags := s.core.flags.(trailing := true), length := 0, st := HeadersAlmostDone);
      Run(cfg, s, AllChunks(chunks) + LastChunk(size, extension)) ==
      Parser(c.(st := NewMessage(cfg, c)),
             s.out + (AllEvents(chunks) + [ChunkHeader(0), ChunkComplete, MessageComplete]), [])
  {
    hide Run, ValidChunk, ValidSize, LastChunk, NewMessage;
    ChunksRun(cfg, s, chunks);
    RunAppend(cfg, s, AllChunks(chunks), LastChunk(size, extension));
    var r := Run(cfg, s, AllChunks(chunks));
    LastChunkRuns(cfg, r, size, extension);
    assert r.out + [ChunkHeader(0)] + [ChunkComplete, MessageComplete] ==
           s.out + (AllEvents(chunks) + [ChunkHeader(0), ChunkComplete, MessageComplete]);
  }

  // ---- what a client sees of it ----

  lemma {:induction false} DataOfJoined(a: seq<Event>, b: seq<Event>, kind: Kind)
    ensures DataOf(a + b, kind) == DataOf(a, kind) + DataOf(b, kind)
  {
    if b == [] {
      assert a + b == a;
    } else {
      var n := |b| - 1;
      assert (a + b)[..|a| + n] == a + b[..n];
      DataOfJoined(a, b[..n], kind);
    }
  }

  lemma {:induction false} DataOfEvents(kind: Kind, data: seq<Octet>)
    ensures DataOf(DataEvents(kind, data), BodyData) == if kind == BodyData then data else []
    decreases |data|
  {
    if data != [] {
      var n := |data| - 1;
      assert DataEvents(kind, data)[..n] == DataEvents(kind, data[..n]);
      DataOfEvents(kind, data[..n]);
      assert data == data[..n] + [data[n]];
    }
  }

  lemma DataOfOne(e: Event)
    requires !e.Data?
    ensures DataOf([e], BodyData) == []
  {
    assert [e][..0] == [];
  }

  lemma DataOfNone()
    ensures DataOf([], BodyData) == []
  {
  }

  lemma {:induction false} DataOfChunks(chunks: seq<Chunk>)
    ensures DataOf(AllEvents(chunks), BodyData) == Contents(chunks)
    decreases |chunks|
  {
    hide DataOf, DataEvents;
    if chunks == [] {
      DataOfNone();
    } else {
      var data := chunks[0].data;
      DataOfChunks(chunks[1..]);
      DataOfJoined(ChunkEvents(data), AllEvents(chunks[1..]), BodyData);
      DataOfJoined([ChunkHeader(|data|)] + BodyEvents(data), [ChunkComplete], BodyData);
      DataOfJoined([ChunkHeader(|data|)], BodyEvents(data), BodyData);
      DataOfEvents(BodyData, data);
      DataOfOne(ChunkHeader(|data|));
      DataOfOne(ChunkComplete);
      assert [] + data + [] == data;
    }
  }

  /** How often the message has been completed. */
  function Completions(out: seq<Event>): nat {
    multiset(out)[MessageComplete]
  }

  lemma {:induction false} ChunksComplete(chunks: seq<Chunk>)
    ensures Completions(AllEvents(chunks)) == 0
    decreases |chunks|
  {
    if chunks != [] {
      ChunksComplete(chunks[1..]);
    }
  }

  /** What the callbacks of a chunked body amount to. */
  lemma {:induction false} ChunkedDelivers(out: seq<Event>, chunks: seq<Chunk>)
    ensures var r := out + (AllEvents(chunks) + [ChunkHeader(0), ChunkComplete, MessageComplete]);
      DataOf(r, BodyData) == DataOf(out, BodyData) + Contents(chunks) && Completions(r) == Completions(out) + 1 &&
      r != [] && r[|r| - 1] == MessageComplete
  {
    hide DataOf, AllEvents, Contents;
    var last := [ChunkHeader(0), ChunkComplete, MessageComplete];
    DataOfJoined(out, AllEvents(chunks) + last, BodyData);
    DataOfJoined(AllEvents(chunks), last, BodyData);
    DataOfChunks(chunks);
    NoData();
    ChunksComplete(chunks);
    assert Contents(chunks) + [] == Contents(chunks);
  }

  lemma NextIgnoresState(cfg: Config, c: Core, st: St)
    ensures NewMessage(cfg, c.(st := st)) == NewMessage(cfg, c)
  {
  }

  /** What reading a chunked body amounts to. */
  lemma {:induction false} ChunkedFollows(cfg: Config, s: Parser, chunks: seq<Chunk>, size: seq<Octet>, extension: seq<Octet>)
    requires s.core.errno == Ok && s.core.st == ChunkSizeStart && s.pend == []
    requires (forall i :: 0 <= i < |chunks| ==> ValidChunk(chunks[i])) && ValidSize(size, extension, 0)
    ensures var r := EndCall(Run(cfg, s, AllChunks(chunks) + LastChunk(size, extension)));
      r.core.errno == Ok && DataOf(r.out, BodyData) == DataOf(s.out, BodyData) + Contents(chunks) &&
      r.out != [] && r.out[|r.out| - 1] == MessageComplete && Completions(r.out) == Completions(s.out) + 1 &&
      r.core.st == NewMessage(cfg, r.core) && r.core.flags == s.core.flags.(trailing := true) && r.core.upgrade == s.core.upgrade
  {
    hide Run, ValidChunk, ValidSize, LastChunk, NewMessage, DataOf, AllEvents, AllChunks, Contents, Completions;
    ChunkedBody(cfg, s, chunks, size, extension);
    ChunkedDelivers(s.out, chunks);
    var c := s.core.(flags := s.core.flags.(trailing := true), length := 0, st := HeadersAlmostDone);
    NextIgnoresState(cfg, c, NewMessage(cfg, c));
    var out := s.out + (AllEvents(chunks) + [ChunkHeader(0), ChunkComplete, MessageComplete]);
    assert out + [] == out;
  }

  // The chunked coding survives any cutting of the input: the body that arrives is the concatenation of the
  // chunks, and then, once, the message is complete.
  lemma {:induction false} ChunkedRoundTrip(cfg: Config, s: Parser, chunks: seq<Chunk>, size: seq<Octet>, extension: seq<Octet>,
                         parts: seq<seq<Octet>>)
    requires s.core.errno == Ok && s.core.st == ChunkSizeStart && s.pend == []
    requires (forall i :: 0 <= i < |chunks| ==> ValidChunk(chunks[i])) && ValidSize(size, extension, 0)
    requires NonEmpty(parts) && Join(parts) == AllChunks(chunks) + LastChunk(size, extension)
    ensures var r := Calls(cfg, s, parts);
      r.core.errno == Ok && DataOf(r.out, BodyData) == DataOf(s.out, BodyData) + Contents(chunks) &&
      r.out != [] && r.out[|r.out| - 1] == MessageComplete && Completions(r.out) == Completions(s.out) + 1 &&
      r.core.st == NewMessage(cfg, r.core) && r.core.flags == s.core.flags.(trailing := true) && r.core.upgrade == s.core.upgrade
  {
    hide *;
    var data := AllChunks(chunks) + LastChunk(size, extension);
    ChunkedFollows(cfg, s, chunks, size, extension);
    EndedWell(cfg, Run(cfg, s, data));
    AnyCutting(cfg, s, parts);
    assert Calls(cfg, s, parts) == EndCall(Run(cfg, s, data));
  }

  lemma EndedWell(cfg: Config, s: Parser)
    ensures EndCall(s).core == s.core
  {
  }

  lemma NoData()
    ensures DataOf([ChunkHeader(0), ChunkComplete, MessageComplete], BodyData) == []
  {
    hide DataOf;
    assert [ChunkHeader(0), ChunkComplete, MessageComplete] == [ChunkHeader(0)] + [ChunkComplete] + [MessageComplete];
    DataOfJoined([ChunkHeader(0)] + [ChunkComplete], [MessageComplete], BodyData);
    DataOfJoined([ChunkHeader(0)], [ChunkComplete], BodyData);
    DataOfOne(ChunkHeader(0));
    DataOfOne(ChunkComplete);
    DataOfOne(MessageComplete);
  }

  /** What reading a body of known length, or a part of it, amounts to. */
  lemma {:induction false} LengthFollows(cfg: Config, s: Parser, data: seq<Octet>)
    requires s.core.errno == Ok && s.core.st == BodyIdentity && s.core.length > 0 && s.pend == [] && |data| <= s.core.length
    ensures var r := EndCall(Run(cfg, s, data));
      r.core.errno == Ok && DataOf(r.out, BodyData) == DataOf(s.out, BodyData) + data &&
      Completions(r.out) == Completions(s.out) + (if |data| == s.core.length then 1 else 0) &&
      (|data| == s.core.length ==> r.out != [] && r.out[|r.out| - 1] == MessageComplete) &&
      (|data| == s.core.length ==> r.core.st == NewMessage(cfg, r.core) && r.core.flags == s.core.flags && r.core.length == 0) &&
      r.core.upgrade == s.core.upgrade
  {
    hide Run, NewMessage, DataOf, Completions;
    var out := s.out + BodyEvents(data);
    BodyDelivered(s.out, data);
    OneCompletion(out);
    assert [] + BodyEvents(data) == BodyEvents(data);
    if |data| < s.core.length {
      PartOfBody(cfg, s, data);
    } else {
      WholeBody(cfg, s, data);
      var c := s.core.(length := 0, st := MessageDone);
      NextIgnoresState(cfg, c, NewMessage(cfg, c));
    }
  }

  lemma {:induction false} BodyDelivered(out: seq<Event>, data: seq<Octet>)
    ensures DataOf(out + BodyEvents(data), BodyData) == DataOf(out, BodyData) + data
    ensures Completions(out + BodyEvents(data)) == Completions(out)
  {
    hide DataOf;
    DataOfJoined(out, BodyEvents(data), BodyData);
    DataOfEvents(BodyData, data);
  }

  /** A body of n bytes arrives whole, and only then the message is complete, whatever the cutting. */
  lemma {:induction false} LengthRoundTrip(cfg: Config, s: Parser, data: seq<Octet>, parts: seq<seq<Octet>>)
    requires s.core.errno == Ok && s.core.st == BodyIdentity && s.core.length > 0 && s.pend == []
    requires NonEmpty(parts) && Join(parts) == data && |data| <= s.core.length
    ensures var r := Calls(cfg, s, parts);
      r.core.errno == Ok && DataOf(r.out, BodyData) == DataOf(s.out, BodyData) + data &&
      Completions(r.out) == Completions(s.out) + (if |data| == s.core.length then 1 else 0) &&
      (|data| == s.core.length ==> r.out != [] && r.out[|r.out| - 1] == MessageComplete)
  {
    hide *;
    LengthFollows(cfg, s, data);
    EndedWell(cfg, Run(cfg, s, data));
    AnyCutting(cfg, s, parts);
  }

  lemma {:induction false} OneCompletion(out: seq<Event>)
    ensures DataOf(out + [MessageComplete], BodyData) == DataOf(out, BodyData)
    ensures Completions(out + [MessageComplete]) == Completions(out) + 1
    ensures out + [MessageComplete] + [] == out + [MessageComplete]
  {
    DataOfJoined(out, [MessageComplete], BodyData);
    assert [MessageComplete][..0] == [];
  }

  // ---- printing chunks ----

  function HexDigit(d: nat): Octet
    requires d < 16
  {
    if d < 10 then 48 + d else 87 + d
  }

  /** A number in hexadecimal, without leading zeros. */
  function PrintHex(n: nat): (r: seq<Octet>)
    ensures r != []
  {
    if n < 16 then [HexDigit(n)] else PrintHex(n / 16) + [HexDigit(n % 16)]
  }

  /** Printing a size and reading it gives the size back. */
  lemma {:induction false} PrintedHex(n: nat)
    ensures AllHex(PrintHex(n)) && Hex(PrintHex(n)) == n
  {
    if n < 16 {
      assert Unhex(HexDigit(n)) == n;
      assert PrintHex(n)[..0] == [];
    } else {
      PrintedHex(n / 16);
      assert Unhex(HexDigit(n % 16)) == n % 16;
      HexStep(PrintHex(n / 16), HexDigit(n % 16));
    }
  }

  /** A list of data as chunks with their sizes printed. */
  function PrintChunks(parts: seq<seq<Octet>>): (r: seq<Chunk>)
    ensures |r| == |parts|
    ensures forall i :: 0 <= i < |r| ==> r[i] == Chunk(PrintHex(|parts[i]|), [], parts[i])
  {
    if parts == [] then [] else [Chunk(PrintHex(|parts[0]|), [], parts[0])] + PrintChunks(parts[1..])
  }

  function Concatenated(parts: seq<seq<Octet>>): seq<Octet> {
    if parts == [] then [] else parts[0] + Concatenated(parts[1..])
  }

  lemma {:induction false} ContentsPrinted(parts: seq<seq<Octet>>)
    ensures Contents(PrintChunks(parts)) == Concatenated(parts)
    decreases |parts|
  {
    if parts != [] {
      ContentsPrinted(parts[1..]);
      assert PrintChunks(parts)[1..] == PrintChunks(parts[1..]);
    }
  }

  // Any list of non-empty pieces, printed as chunks and ended by a chunk of size zero, comes back as their
  // concatenation, and the message is complete exactly once, however the bytes are cut into calls.
  lemma {:induction false} PrintedRoundTrip(cfg: Config, s: Parser, pieces: seq<seq<Octet>>, parts: seq<seq<Octet>>)
    requires s.core.errno == Ok && s.core.st == ChunkSizeStart && s.pend == []
    requires forall i :: 0 <= i < |pieces| ==> 0 < |pieces[i]| <= MAX_CHUNK_SIZE
    requires NonEmpty(parts) && Join(parts) == AllChunks(PrintChunks(pieces)) + LastChunk(PrintHex(0), [])
    ensures var r := Calls(cfg, s, parts);
      r.core.errno == Ok && DataOf(r.out, BodyData) == DataOf(s.out, BodyData) + Concatenated(pieces) &&
      r.out != [] && r.out[|r.out| - 1] == MessageComplete && Completions(r.out) == Completions(s.out) + 1
  {
    hide Run, Hex, AllHex, PrintHex, DataOf, Completions, LastChunk, AllChunks;
    var chunks := PrintChunks(pieces);
    forall i | 0 <= i < |chunks| ensures ValidChunk(chunks[i]) {
      PrintedHex(|pieces[i]|);
    }
    PrintedHex(0);
    ContentsPrinted(pieces);
    ChunkedRoundTrip(cfg, s, chunks, PrintHex(0), [], parts);
  }
}
