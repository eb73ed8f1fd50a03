module HttpLimit {
  // The limit on header bytes of http_parser.c, byte by byte: every byte that is read in a header state counts,
  // from the last end of a head, of a size line or of a chunk on, and the count must not exceed 80 KiB.

  import opened HttpSpec

  const HTTP_MAX_HEADER_SIZE: nat := 80 * 1024

  /** The states in which header bytes are counted: PARSING_HEADER. */
  predicate ParsingHeader(st: St) {
    !(st in {ChunkData, ChunkDataAlmostDone, ChunkDataDone, BodyIdentity, BodyIdentityEof, MessageDone})
  }

  /** After the byte the count begins again. */
  predicate Resets(c: Core, ch: Octet) {
    ch == LF &&
    (c.st == ChunkSizeAlmostDone || c.st == ChunkDataDone ||
     (!c.flags.trailing && c.st in {FieldStart, ValueLws, DiscardLws, HeadersAlmostDone}))
  }

  function CountAfter(n: nat, c: Core, ch: Octet): nat {
    if Resets(c, ch) then 0 else if ParsingHeader(c.st) then n + 1 else n
  }

  /** The count after the bytes. */
  function HeaderCount(cfg: Config, s: Parser, n: nat, data: seq<Octet>): nat
    decreases |data|
  {
    if data == [] || Stopped(s.core) then n
    else HeaderCount(cfg, Step(cfg, s, data[0]), CountAfter(n, s.core, data[0]), data[1..])
  }

  /** It never exceeds the limit. */
  predicate Fits(cfg: Config, s: Parser, n: nat, data: seq<Octet>)
    decreases |data|
  {
    data == [] || Stopped(s.core) ||
    ((ParsingHeader(s.core.st) ==> n + 1 <= HTTP_MAX_HEADER_SIZE) &&
     Fits(cfg, Step(cfg, s, data[0]), CountAfter(n, s.core, data[0]), data[1..]))
  }

  // The count exceeds the limit, or would with one more byte: the program counts a byte twice when a call ends
  // inside a name or a value.
  ghost predicate Exceeds(cfg: Config, s: Parser, n: nat, data: seq<Octet>) {
    !Fits(cfg, s, n, data) ||
    (HeaderCount(cfg, s, n, data) >= HTTP_MAX_HEADER_SIZE && Run(cfg, s, data).core.st in {Field, Value})
  }

  lemma {:induction false} CountAppend(cfg: Config, s: Parser, n: nat, a: seq<Octet>, b: seq<Octet>)
    ensures HeaderCount(cfg, s, n, a + b) == HeaderCount(cfg, Run(cfg, s, a), HeaderCount(cfg, s, n, a), b)
    ensures Fits(cfg, s, n, a + b) <==> Fits(cfg, s, n, a) && Fits(cfg, Run(cfg, s, a), HeaderCount(cfg, s, n, a), b)
    decreases |a|
  {
    hide Step, Stopped, CountAfter;
    if a == [] {
      assert a + b == b;
    } else if Stopped(s.core) {
      StoppedCounts(cfg, s, n, a);
      StoppedCounts(cfg, s, n, b);
      StoppedCounts(cfg, s, n, a + b);
    } else {
      assert (a + b)[0] == a[0] && (a + b)[1..] == a[1..] + b;
      CountAppend(cfg, Step(cfg, s, a[0]), CountAfter(n, s.core, a[0]), a[1..], b);
    }
  }

  lemma {:induction false} StoppedCounts(cfg: Config, s: Parser, n: nat, data: seq<Octet>)
    requires Stopped(s.core)
    ensures HeaderCount(cfg, s, n, data) == n && Fits(cfg, s, n, data) && Run(cfg, s, data) == s
  {
    hide Step;
  }

  lemma {:induction false} OneCounts(cfg: Config, s: Parser, n: nat, ch: Octet)
    requires !Stopped(s.core)
    ensures HeaderCount(cfg, s, n, [ch]) == CountAfter(n, s.core, ch)
    ensures Fits(cfg, s, n, [ch]) <==> (ParsingHeader(s.core.st) ==> n + 1 <= HTTP_MAX_HEADER_SIZE)
  {
    hide Step;
    assert [ch][1..] == [];
  }

  /** The characters of a name count one each. */
  lemma {:induction false} NameCounts(cfg: Config, s: Parser, n: nat, name: seq<Octet>)
    requires s.core.errno == Ok && s.core.st == Field && n <= HTTP_MAX_HEADER_SIZE
    requires forall i :: 0 <= i < |name| ==> Token(name[i]) != 0
    ensures HeaderCount(cfg, s, n, name) == n + |name| && (Fits(cfg, s, n, name) <==> n + |name| <= HTTP_MAX_HEADER_SIZE)
    decreases |name|
  {
    hide Step;
    if name != [] {
      NameStays(cfg, s, name[0]);
      if n < HTTP_MAX_HEADER_SIZE {
        NameCounts(cfg, Step(cfg, s, name[0]), n + 1, name[1..]);
      } else {
        CountsAnyway(cfg, Step(cfg, s, name[0]), n + 1, name[1..]);
      }
    }
  }

  lemma NameStays(cfg: Config, s: Parser, ch: Octet)
    requires s.core.errno == Ok && s.core.st == Field && Token(ch) != 0
    ensures var c := Step(cfg, s, ch).core; c.errno == Ok && c.st == Field
  {
    hide NameChar, Token;
  }

  lemma {:induction false} CountsAnyway(cfg: Config, s: Parser, n: nat, name: seq<Octet>)
    requires s.core.errno == Ok && s.core.st == Field && forall i :: 0 <= i < |name| ==> Token(name[i]) != 0
    ensures HeaderCount(cfg, s, n, name) == n + |name|
    decreases |name|
  {
    hide Step;
    if name != [] {
      NameStays(cfg, s, name[0]);
      CountsAnyway(cfg, Step(cfg, s, name[0]), n + 1, name[1..]);
    }
  }

  /** The bytes of a value count one each, as long as none is refused. */
  lemma {:induction false} ValueCounts(cfg: Config, s: Parser, n: nat, v: seq<Octet>)
    requires s.core.st == Value && CR !in v && LF !in v && Run(cfg, s, v).core.errno == Ok
    ensures HeaderCount(cfg, s, n, v) == n + |v|
    ensures v != [] || n <= HTTP_MAX_HEADER_SIZE ==> (Fits(cfg, s, n, v) <==> n + |v| <= HTTP_MAX_HEADER_SIZE)
    decreases |v|
  {
    hide Step;
    if v != [] {
      NotFailed(cfg, s, v);
      ValueStays(cfg, s, v[0]);
      ValueCounts(cfg, Step(cfg, s, v[0]), n + 1, v[1..]);
    }
  }

  lemma {:induction false} NotFailed(cfg: Config, s: Parser, v: seq<Octet>)
    requires Run(cfg, s, v).core.errno == Ok
    ensures s.core.errno == Ok
  {
  }

  lemma ValueStays(cfg: Config, s: Parser, ch: Octet)
    requires s.core.errno == Ok && s.core.st == Value && ch != CR && ch != LF
    ensures Step(cfg, s, ch).core.st == Value
  {
    hide ValueChar, SetConnection, Lower;
  }

  /** The bytes of a body do not count. */
  lemma {:induction false} BodyCounts(cfg: Config, s: Parser, n: nat, data: seq<Octet>)
    requires s.core.errno == Ok
    requires s.core.st == BodyIdentityEof || (s.core.st in {BodyIdentity, ChunkData} && |data| <= s.core.length)
    ensures HeaderCount(cfg, s, n, data) == n && Fits(cfg, s, n, data)
    decreases |data|
  {
    hide NewMessage;
    if |data| == 1 {
      OneCounts(cfg, s, n, data[0]);
      assert data == [data[0]];
    } else if data != [] {
      BodyCounts(cfg, Step(cfg, s, data[0]), n, data[1..]);
    }
  }

  /** One more byte after a name or a value counts too. */
  lemma {:induction false} OneMoreCounts(cfg: Config, s: Parser, n: nat, a: seq<Octet>, ch: Octet)
    requires HeaderCount(cfg, s, n, a) == n + |a| && n <= HTTP_MAX_HEADER_SIZE
    requires Fits(cfg, s, n, a) <==> n + |a| <= HTTP_MAX_HEADER_SIZE
    requires Run(cfg, s, a).core.errno == Ok && Run(cfg, s, a).core.st in {Field, Value}
    ensures HeaderCount(cfg, s, n, a + [ch]) == n + |a| + 1
    ensures Fits(cfg, s, n, a + [ch]) <==> n + |a| + 1 <= HTTP_MAX_HEADER_SIZE
  {
    hide Run, HeaderCount, Fits;
    CountAppend(cfg, s, n, a, [ch]);
    OneCounts(cfg, Run(cfg, s, a), HeaderCount(cfg, s, n, a), ch);
  }

  /** What exceeds the limit exceeds it with more bytes behind it. */
  lemma {:induction false} ExceedsLater(cfg: Config, s: Parser, n: nat, a: seq<Octet>, b: seq<Octet>)
    requires !Fits(cfg, s, n, a)
    ensures Exceeds(cfg, s, n, a + b)
  {
    hide HeaderCount, Fits, Run;
    CountAppend(cfg, s, n, a, b);
  }

  /** And with more bytes in front, which fit. */
  lemma {:induction false} ExceedsBehind(cfg: Config, s: Parser, n: nat, a: seq<Octet>, b: seq<Octet>)
    requires Exceeds(cfg, Run(cfg, s, a), HeaderCount(cfg, s, n, a), b)
    ensures Exceeds(cfg, s, n, a + b)
  {
    hide HeaderCount, Fits, Run;
    CountAppend(cfg, s, n, a, b);
    RunAppend(cfg, s, a, b);
  }

  lemma {:induction false} CountBound(cfg: Config, s: Parser, n: nat, data: seq<Octet>)
    requires Fits(cfg, s, n, data) && n <= HTTP_MAX_HEADER_SIZE
    ensures HeaderCount(cfg, s, n, data) <= HTTP_MAX_HEADER_SIZE
    decreases |data|
  {
    hide Step, Stopped;
    if data != [] && !Stopped(s.core) {
      CountBound(cfg, Step(cfg, s, data[0]), CountAfter(n, s.core, data[0]), data[1..]);
    }
  }

  lemma {:induction false} NothingCounts(cfg: Config, s: Parser, n: nat)
    ensures HeaderCount(cfg, s, n, []) == n && Fits(cfg, s, n, [])
  {
  }

  lemma {:induction false} FirstTooMany(cfg: Config, s: Parser, n: nat, data: seq<Octet>)
    requires data != [] && !Stopped(s.core) && ParsingHeader(s.core.st) && n + 1 > HTTP_MAX_HEADER_SIZE
    ensures Exceeds(cfg, s, n, data)
  {
    hide Step;
  }

  lemma {:induction false} ValueGoesOn(cfg: Config, s: Parser, v: seq<Octet>)
    requires s.core.st == Value && CR !in v && LF !in v && Run(cfg, s, v).core.errno == Ok
    ensures Run(cfg, s, v).core.st == Value
    decreases |v|
  {
    hide Step;
    if v != [] {
      NotFailed(cfg, s, v);
      ValueStays(cfg, s, v[0]);
      ValueGoesOn(cfg, Step(cfg, s, v[0]), v[1..]);
    }
  }
}
