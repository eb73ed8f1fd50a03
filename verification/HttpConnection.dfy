module HttpConnection {
  // What the value of a Connection header does to the flags of the connection. The value is a list of options
  // between commas (section 14.10 of RFC 2616). Of "keep-alive", "close" and "upgrade", exactly those are
  // recorded that stand in an element which the matcher hears.

  import opened HttpSpec
  import opened HttpBody
  import opened HttpHeaders

  // ---- the elements of a list ----

  function FirstComma(v: seq<Octet>): (k: nat)
    ensures k <= |v| && (k < |v| ==> v[k] == COMMA) && forall i :: 0 <= i < k ==> v[i] != COMMA
  {
    if v == [] || v[0] == COMMA then 0 else 1 + FirstComma(v[1..])
  }

  /** What stands between the commas. */
  function Elements(v: seq<Octet>): (es: seq<seq<Octet>>)
    ensures es != []
  {
    var k := FirstComma(v);
    if k == |v| then [v] else [v[..k]] + Elements(v[k + 1..])
  }

  lemma {:induction false} ElementsComma(e: seq<Octet>, rest: seq<Octet>)
    requires COMMA !in e
    ensures Elements(e) == [e] && Elements(e + [COMMA] + rest) == [e] + Elements(rest)
  {
    var v := e + [COMMA] + rest;
    assert FirstComma(e) == |e|;
    assert v[|e|] == COMMA && forall i :: 0 <= i < |e| ==> v[i] == e[i];
    assert v[..|e|] == e && v[|e| + 1..] == rest;
  }

  // A blank for the matcher. It looks at bytes with the bit 0x20 set, so that NUL passes for a space, and no
  // byte passes for a tab.
  predicate Blank(b: Octet) {
    b == SP || b == 0
  }

  function Strip(e: seq<Octet>): (x: seq<Octet>)
    ensures |x| <= |e| && (x != [] ==> !Blank(x[0]))
  {
    if e != [] && Blank(e[0]) then Strip(e[1..]) else e
  }

  /** The element without the blanks in front; the first one has none. */
  function Trimmed(first: bool, e: seq<Octet>): seq<Octet> {
    if first then e else Strip(e)
  }

  /** The word, in any case, and nothing but spaces after it. */
  predicate IsWord(x: seq<Octet>, word: string) {
    |x| >= |word| && (forall i :: 0 <= i < |word| ==> Lower(x[i]) == word[i] as nat) && forall i :: |word| <= i < |x| ==> x[i] == SP
  }

  /** A proper beginning of the word, in any case. */
  predicate IsPart(x: seq<Octet>, word: string) {
    0 < |x| < |word| && forall i :: 0 <= i < |x| ==> Lower(x[i]) == word[i] as nat
  }

  predicate AnyPart(x: seq<Octet>) {
    IsPart(x, "keep-alive") || IsPart(x, "close") || IsPart(x, "upgrade")
  }

  /** The byte may begin an option. */
  predicate Starts(b: Octet) {
    Token(Lower(b)) != 0
  }

  // ---- which elements are heard ----

  /** How the matcher takes the element that comes next. */
  datatype Ear = First | Listening | Skipping | Deaf

  predicate Hears(ear: Ear) {
    ear == First || ear == Listening
  }

  // After an element and its comma. A beginning of one of the words takes the comma for a wrong letter, and so
  // does an empty first element: the next element is then taken for a part of this one. After an element that
  // begins with something else than an option can begin with, nothing is heard any more.
  function EarAfter(ear: Ear, e: seq<Octet>): Ear {
    match ear
    case Deaf => Deaf
    case Skipping => Listening
    case First => if e == [] || AnyPart(e) then Skipping else Listening
    case Listening =>
      var x := Strip(e);
      if AnyPart(x) then Skipping else if x != [] && Starts(x[0]) then Listening else Deaf
  }

  function EarAt(ear: Ear, es: seq<seq<Octet>>, k: nat): Ear
    requires k <= |es|
  {
    if k == 0 then ear else EarAfter(EarAt(ear, es, k - 1), es[k - 1])
  }

  /** The matcher listens at the beginning of the element k. */
  predicate HearsAt(ear: Ear, es: seq<seq<Octet>>, k: nat)
    requires k <= |es|
  {
    Hears(EarAt(ear, es, k))
  }

  /** The word is an element that is heard, when the first one is taken with this ear. */
  predicate Heard(ear: Ear, es: seq<seq<Octet>>, word: string)
    decreases |es|
  {
    es != [] && ((Hears(ear) && IsWord(Trimmed(ear == First, es[0]), word)) || Heard(EarAfter(ear, es[0]), es[1..], word))
  }

  /** The flags of the connection after the value of a Connection header. */
  function Noted(f: Flags, ear: Ear, es: seq<seq<Octet>>): Flags {
    f.(keepAlive := f.keepAlive || Heard(ear, es, "keep-alive"), close := f.close || Heard(ear, es, "close"),
       connUpgrade := f.connUpgrade || Heard(ear, es, "upgrade"))
  }

  // ---- the matcher inside an element ----

  /** The header state after the bytes x of an element that is heard, without the blanks in front. */
  ghost predicate Stands(first: bool, x: seq<Octet>, hs: HeaderState, index: nat)
    requires x != []
  {
    if IsWord(x, "keep-alive") then hs == ConnKeepAlive
    else if IsWord(x, "close") then hs == ConnClose
    else if IsWord(x, "upgrade") then hs == ConnUpgrade
    else if IsPart(x, "keep-alive") then hs == MatchKeepAlive && index == |x| - 1
    else if IsPart(x, "close") then hs == MatchClose && index == |x| - 1
    else if IsPart(x, "upgrade") then hs == MatchConnUpgrade && index == |x| - 1
    else if first || Starts(x[0]) then hs == ConnToken
    else hs == General
  }

  ghost predicate Reads(first: bool, e: seq<Octet>, hs: HeaderState, index: nat) {
    var x := Trimmed(first, e);
    if x == [] then !first && hs == ConnTokenStart && index == 0 else Stands(first, x, hs, index)
  }

  ghost predicate InElement(ear: Ear, e: seq<Octet>, hs: HeaderState, index: nat) {
    match ear
    case Deaf => hs == General
    case Skipping => hs == ConnToken
    case _ => Reads(ear == First, e, hs, index)
  }

  lemma WordMore(x: seq<Octet>, ch: Octet, word: string)
    requires |word| > 1
    ensures IsWord(x + [ch], word) <==>
      (IsPart(x, word) && |x| == |word| - 1 && Lower(ch) == At(word, |x|)) || (IsWord(x, word) && ch == SP)
    ensures IsPart(x + [ch], word) <==> (x == [] || IsPart(x, word)) && |x| < |word| - 1 && Lower(ch) == At(word, |x|)
    ensures IsPart(x, word) ==> !IsWord(x, word) && 0 < |x| < |word|
  {
    var w := x + [ch];
    assert forall i :: 0 <= i < |x| ==> w[i] == x[i];
    assert w[|x|] == ch;
  }

  /** The three words begin with different letters, which are letters of options. */
  lemma FirstLetters(x: seq<Octet>)
    ensures IsWord(x, "keep-alive") || IsPart(x, "keep-alive") ==> x != [] && Lower(x[0]) == 107
    ensures IsWord(x, "close") || IsPart(x, "close") ==> x != [] && Lower(x[0]) == 99
    ensures IsWord(x, "upgrade") || IsPart(x, "upgrade") ==> x != [] && Lower(x[0]) == 117
    ensures Token(107) != 0 && Token(99) != 0 && Token(117) != 0
    ensures At("keep-alive", 0) == 107 && At("close", 0) == 99 && At("upgrade", 0) == 117
  {
  }

  lemma StripMore(e: seq<Octet>, ch: Octet)
    ensures Strip(e + [ch]) == if Strip(e) == [] && Blank(ch) then [] else Strip(e) + [ch]
    decreases |e|
  {
    if e == [] {
      assert [] + [ch] == [ch] && [ch][1..] == [];
    } else if Blank(e[0]) {
      assert (e + [ch])[0] == e[0] && (e + [ch])[1..] == e[1..] + [ch];
      StripMore(e[1..], ch);
    } else {
      assert (e + [ch])[0] == e[0];
    }
  }

  // ---- reading the value ----

  lemma LowerBlank(ch: Octet)
    ensures (Lower(ch) == SP <==> Blank(ch)) && Lower(ch) != TAB && Token(SP) == 0
    ensures Lower(COMMA) == COMMA && Token(COMMA) == 0
  {
  }

  lemma StandsFirst(first: bool, ch: Octet)
    requires first || !Blank(ch)
    ensures first ==> Stands(true, [ch], ValueFirst(Connection, Lower(ch)), 0)
    ensures !first ==> Stands(false, [ch], ValueChar(ConnTokenStart, 0, ch, Lower(ch)).0, 0)
  {
    hide IsWord, IsPart, Lower, Token, Blank;
    assert [] + [ch] == [ch];
    WordMore([], ch, "keep-alive");
    WordMore([], ch, "close");
    WordMore([], ch, "upgrade");
    WordMore([ch], SP, "keep-alive");
    WordMore([ch], SP, "close");
    WordMore([ch], SP, "upgrade");
    FirstLetters([ch]);
    LowerBlank(ch);
  }

  lemma StandsMore(first: bool, x: seq<Octet>, hs: HeaderState, index: nat, ch: Octet)
    requires x != [] && Stands(first, x, hs, index) && ch != COMMA
    ensures var m := ValueChar(hs, index, ch, Lower(ch)); Stands(first, x + [ch], m.0, m.1)
  {
    hide IsWord, IsPart, Lower, Token;
    WordMore(x, ch, "keep-alive");
    WordMore(x, ch, "close");
    WordMore(x, ch, "upgrade");
    FirstLetters(x);
    FirstLetters(x + [ch]);
    assert (x + [ch])[0] == x[0];
  }

  /** A byte of an element other than a comma. */
  lemma ReadsMore(first: bool, e: seq<Octet>, hs: HeaderState, index: nat, ch: Octet)
    requires Reads(first, e, hs, index) && ch != COMMA
    ensures var m := ValueChar(hs, index, ch, Lower(ch)); Reads(first, e + [ch], m.0, m.1)
  {
    hide Stands, Lower, Strip, Token, Match;
    var x := Trimmed(first, e);
    StripMore(e, ch);
    LowerBlank(ch);
    if x == [] {
      assert [] + [ch] == [ch];
      if !Blank(ch) {
        StandsFirst(false, ch);
      }
    } else {
      StandsMore(first, x, hs, index, ch);
    }
  }

  lemma {:induction false} HeardOne(ear: Ear, e: seq<Octet>)
    ensures forall word :: Heard(ear, [e], word) <==> Hears(ear) && IsWord(Trimmed(ear == First, e), word)
  {
    hide IsWord, Strip;
    assert [e][1..] == [];
  }

  lemma {:induction false} HeardMore(ear: Ear, e: seq<Octet>, es: seq<seq<Octet>>)
    ensures forall word :: Heard(ear, [e] + es, word) <==> Heard(ear, [e], word) || Heard(EarAfter(ear, e), es, word)
  {
    hide IsWord, Strip, EarAfter;
    HeardOne(ear, e);
    assert ([e] + es)[1..] == es;
  }

  /** A comma ends the element, or is swallowed. */
  lemma CommaRead(ear: Ear, e: seq<Octet>, hs: HeaderState, index: nat)
    requires ear != First || e != []
    requires InElement(ear, e, hs, index)
    ensures var m := ValueChar(hs, index, COMMA, Lower(COMMA)); InElement(EarAfter(ear, e), [], m.0, m.1)
  {
    hide IsWord, IsPart, Lower, Token;
    var x := Trimmed(ear == First, e);
    LowerBlank(COMMA);
    FirstLetters(x);
    WordMore(x, COMMA, "keep-alive");
    WordMore(x, COMMA, "close");
    WordMore(x, COMMA, "upgrade");
    NoCommaIn(|x|);
  }

  /** The header state tells which word the element is. */
  lemma OneWord(ear: Ear, e: seq<Octet>, hs: HeaderState, index: nat)
    requires (ear != First || e != []) && InElement(ear, e, hs, index)
    ensures hs == ConnKeepAlive <==> Hears(ear) && IsWord(Trimmed(ear == First, e), "keep-alive")
    ensures hs == ConnClose <==> Hears(ear) && IsWord(Trimmed(ear == First, e), "close")
    ensures hs == ConnUpgrade <==> Hears(ear) && IsWord(Trimmed(ear == First, e), "upgrade")
  {
    hide IsWord, IsPart, Lower, Starts, Strip;
    FirstLetters(Trimmed(ear == First, e));
  }

  lemma Recorded(flags: Flags, hs: HeaderState)
    ensures SetConnection(flags, hs) == flags.(keepAlive := flags.keepAlive || hs == ConnKeepAlive,
      close := flags.close || hs == ConnClose, connUpgrade := flags.connUpgrade || hs == ConnUpgrade)
  {
  }

  lemma {:induction false} TakenDown(f: Flags, ear: Ear, e: seq<Octet>)
    ensures Noted(f, ear, [e]) == f.(keepAlive := f.keepAlive || Heard(ear, [e], "keep-alive"),
      close := f.close || Heard(ear, [e], "close"), connUpgrade := f.connUpgrade || Heard(ear, [e], "upgrade"))
  {
    hide Heard;
  }

  /** What the element has said is recorded. */
  lemma ElementNoted(ear: Ear, e: seq<Octet>, hs: HeaderState, index: nat, flags: Flags)
    requires ear != First || e != []
    requires InElement(ear, e, hs, index)
    ensures SetConnection(flags, hs) == Noted(flags, ear, [e])
  {
    hide *;
    HeardOne(ear, e);
    OneWord(ear, e, hs, index);
    Recorded(flags, hs);
    TakenDown(flags, ear, e);
  }

  lemma NoCommaIn(i: nat)
    ensures At("keep-alive", i) != 44 && At("close", i) != 44 && At("upgrade", i) != 44
  {
  }

  lemma ByteRead(ear: Ear, e: seq<Octet>, hs: HeaderState, index: nat, ch: Octet)
    requires InElement(ear, e, hs, index) && ch != COMMA
    ensures var m := ValueChar(hs, index, ch, Lower(ch)); InElement(ear, e + [ch], m.0, m.1)
  {
    hide Reads, Lower;
    if Hears(ear) {
      ReadsMore(ear == First, e, hs, index, ch);
    }
  }

  /** A byte of a value that is read for the connection. */
  lemma ConnectionByte(cfg: Config, s: Parser, ch: Octet)
    requires s.core.errno == Ok && s.core.st == Value && s.core.hs != ContentLength && ch != CR && ch != LF
    ensures var m, r := ValueChar(s.core.hs, s.core.index, ch, Lower(ch)), Step(cfg, s, ch);
      r.core == s.core.(hs := m.0, index := m.1, flags := if ch == COMMA then SetConnection(s.core.flags, s.core.hs) else s.core.flags)
  {
    hide Lower, ValueChar, SetConnection, TooLong;
  }

  lemma NoLength(ear: Ear, e: seq<Octet>, hs: HeaderState, index: nat)
    requires InElement(ear, e, hs, index)
    ensures hs != ContentLength && hs != Chunked
  {
    hide IsWord, IsPart, Strip, Starts;
  }

  /** What the end of the value records. */
  lemma EndRead(ear: Ear, e: seq<Octet>, c: Core)
    requires InElement(ear, e, c.hs, c.index) && (ear != First || e != [])
    ensures EndHeader(c).flags == Noted(c.flags, ear, [e])
  {
    hide InElement, SetConnection, Noted;
    NoLength(ear, e, c.hs, c.index);
    ElementNoted(ear, e, c.hs, c.index, c.flags);
  }

  lemma {:induction false} NotedMore(f: Flags, ear: Ear, e: seq<Octet>, es: seq<seq<Octet>>)
    ensures Noted(f, ear, [e] + es) == Noted(Noted(f, ear, [e]), EarAfter(ear, e), es)
  {
    hide Heard, EarAfter;
    HeardMore(ear, e, es);
  }

  lemma {:induction false} CommaStep(cfg: Config, s: Parser, ear: Ear, e: seq<Octet>)
    requires s.core.errno == Ok && s.core.st == Value && InElement(ear, e, s.core.hs, s.core.index) && (ear != First || e != [])
    ensures var c := Step(cfg, s, COMMA).core;
      c.errno == Ok && c.st == Value && InElement(EarAfter(ear, e), [], c.hs, c.index) && EarAfter(ear, e) != First &&
      c.flags == Noted(s.core.flags, ear, [e])
  {
    hide InElement, Noted, Step, ValueChar, SetConnection, Lower;
    NoLength(ear, e, s.core.hs, s.core.index);
    ConnectionByte(cfg, s, COMMA);
    CommaRead(ear, e, s.core.hs, s.core.index);
    ElementNoted(ear, e, s.core.hs, s.core.index, s.core.flags);
  }

  lemma {:induction false} ByteStep(cfg: Config, s: Parser, ear: Ear, e: seq<Octet>, ch: Octet)
    requires s.core.errno == Ok && s.core.st == Value && InElement(ear, e, s.core.hs, s.core.index)
    requires ch != COMMA && ch != CR && ch != LF
    ensures var c := Step(cfg, s, ch).core;
      c.errno == Ok && c.st == Value && InElement(ear, e + [ch], c.hs, c.index) && c.flags == s.core.flags
  {
    hide InElement, Step, ValueChar, SetConnection, Lower;
    NoLength(ear, e, s.core.hs, s.core.index);
    ConnectionByte(cfg, s, ch);
    ByteRead(ear, e, s.core.hs, s.core.index, ch);
  }

  lemma {:induction false} RunsOn(cfg: Config, s: Parser, v: seq<Octet>)
    requires s.core.errno == Ok && s.core.st in {Value, DiscardWs}
    ensures v == [] ==> Run(cfg, s, v) == s
    ensures v != [] ==> Run(cfg, s, v) == Run(cfg, Step(cfg, s, v[0]), v[1..])
  {
    hide Step;
  }

  /** The parser has read the elements es of a value, the last of them perhaps not to its end. */
  ghost predicate HasRead(f: Flags, ear: Ear, es: seq<seq<Octet>>, s: Parser) {
    es != [] && s.core.errno == Ok && s.core.st == Value &&
    var n := |es| - 1;
    InElement(EarAt(ear, es, n), es[n], s.core.hs, s.core.index) && s.core.flags == Noted(f, ear, es[..n]) &&
    (EarAt(ear, es, n) == First ==> es[n] != [])
  }

  lemma {:induction false} ReadsOne(f: Flags, ear: Ear, e: seq<Octet>, s: Parser)
    requires s.core.errno == Ok && s.core.st == Value && InElement(ear, e, s.core.hs, s.core.index) && s.core.flags == f
    requires ear == First ==> e != []
    ensures HasRead(f, ear, [e], s)
  {
    hide InElement, Heard;
    assert [e][..0] == [];
    assert !Heard(ear, [], "keep-alive") && !Heard(ear, [], "close") && !Heard(ear, [], "upgrade") by { HeardNone(ear); }
  }

  lemma {:induction false} HeardNone(ear: Ear)
    ensures forall word :: !Heard(ear, [], word)
  {
  }

  lemma {:induction false} ReadsRest(f: Flags, ear: Ear, e: seq<Octet>, es: seq<seq<Octet>>, s: Parser)
    requires HasRead(Noted(f, ear, [e]), EarAfter(ear, e), es, s) && EarAfter(ear, e) != First
    ensures HasRead(f, ear, [e] + es, s)
  {
    hide InElement, Noted, EarAfter;
    var all, n := [e] + es, |es|;
    assert all[1..] == es && all[n] == es[n - 1];
    EarShifts(ear, all, n);
    assert all[..n] == [e] + es[..n - 1];
    NotedMore(f, ear, e, es[..n - 1]);
  }

  /** The rest v of a value, of whose present element e has been read. */
  lemma {:induction false} RestOfValue(cfg: Config, s: Parser, ear: Ear, e: seq<Octet>, v: seq<Octet>)
    requires s.core.errno == Ok && s.core.st == Value && InElement(ear, e, s.core.hs, s.core.index)
    requires COMMA !in e && CR !in v && LF !in v && (ear != First || e != [])
    ensures HasRead(s.core.flags, ear, Elements(e + v), Run(cfg, s, v))
    decreases |v|
  {
    hide *;
    RunsOn(cfg, s, v);
    if v == [] {
      assert e + v == e;
      ElementsComma(e, []);
      ReadsOne(s.core.flags, ear, e, s);
    } else {
      var ch, r := v[0], Step(cfg, s, v[0]);
      if ch == COMMA {
        CommaStep(cfg, s, ear, e);
        RestOfValue(cfg, r, EarAfter(ear, e), [], v[1..]);
        assert e + v == e + [COMMA] + v[1..] && [] + v[1..] == v[1..];
        ElementsComma(e, v[1..]);
        ReadsRest(s.core.flags, ear, e, Elements(v[1..]), Run(cfg, r, v[1..]));
      } else {
        ByteStep(cfg, s, ear, e, ch);
        RestOfValue(cfg, r, ear, e + [ch], v[1..]);
        assert e + [ch] + v[1..] == e + v;
      }
    }
  }

  lemma FirstStep(cfg: Config, s: Parser, ch: Octet)
    requires s.core.errno == Ok && s.core.st == DiscardWs && s.core.hs == Connection && ch !in {SP, TAB, CR, LF}
    ensures Step(cfg, s, ch).core == s.core.(st := Value, index := 0, hs := ValueFirst(Connection, Lower(ch)))
    ensures if ch == COMMA then ValueFirst(Connection, Lower(ch)) == ConnToken && EarAfter(First, []) == Skipping
      else InElement(First, [ch], ValueFirst(Connection, Lower(ch)), 0)
  {
    hide Stands;
    StandsFirst(true, ch);
  }

  /** The value of a Connection header, from its first byte on. */
  lemma {:induction false} ValueRead(cfg: Config, s: Parser, v: seq<Octet>)
    requires s.core.errno == Ok && s.core.st == DiscardWs && s.core.hs == Connection
    requires v != [] && v[0] != SP && v[0] != TAB && CR !in v && LF !in v
    ensures HasRead(s.core.flags, First, Elements(v), Run(cfg, s, v))
  {
    hide *;
    var ch, r := v[0], Step(cfg, s, v[0]);
    RunsOn(cfg, s, v);
    FirstStep(cfg, s, ch);
    if ch == COMMA {
      SkipsFirst(r.core.index);
      RestOfValue(cfg, r, Skipping, [], v[1..]);
      assert v == [] + [COMMA] + v[1..] && [] + v[1..] == v[1..];
      ElementsComma([], v[1..]);
      NothingHeard(s.core.flags);
      ReadsRest(s.core.flags, First, [], Elements(v[1..]), Run(cfg, r, v[1..]));
    } else {
      RestOfValue(cfg, r, First, [ch], v[1..]);
      assert v == [ch] + v[1..];
    }
  }

  lemma {:induction false} NotedLast(f: Flags, ear: Ear, es: seq<seq<Octet>>)
    requires es != []
    ensures var n := |es| - 1; Noted(f, ear, es) == Noted(Noted(f, ear, es[..n]), EarAt(ear, es, n), [es[n]])
    decreases |es|
  {
    hide Noted, EarAfter;
    var n := |es| - 1;
    if n == 0 {
      assert es == [es[0]] && es[..0] == [];
      NotedNone(f, ear);
    } else {
      var e, rest := es[0], es[1..];
      assert es == [e] + rest && es[..n] == [e] + rest[..n - 1];
      NotedMore(f, ear, e, rest);
      NotedLast(Noted(f, ear, [e]), EarAfter(ear, e), rest);
      NotedMore(f, ear, e, rest[..n - 1]);
      EarShifts(ear, es, n);
    }
  }

  lemma {:induction false} NotedNone(f: Flags, ear: Ear)
    ensures Noted(f, ear, []) == f
  {
    hide Heard;
    HeardNone(ear);
  }

  /** The end of the line records the last element too. */
  lemma {:induction false} ReadToEnd(f: Flags, ear: Ear, es: seq<seq<Octet>>, s: Parser)
    requires HasRead(f, ear, es, s)
    ensures EndHeader(s.core).flags == Noted(f, ear, es)
  {
    hide InElement, Noted, EndHeader, EarAt;
    var n := |es| - 1;
    NotedLast(f, ear, es);
    EndRead(EarAt(ear, es, n), es[n], s.core);
  }

  // A Connection header: after its value, the end of the line records exactly the words that are heard, and
  // changes no other flag.
  lemma {:induction false} ConnectionNoted(cfg: Config, s: Parser, v: seq<Octet>)
    requires s.core.errno == Ok && s.core.st == DiscardWs && s.core.hs == Connection
    requires v != [] && v[0] != SP && v[0] != TAB && CR !in v && LF !in v
    ensures EndHeader(Run(cfg, s, v).core).flags == Noted(s.core.flags, First, Elements(v))
  {
    hide *;
    ValueRead(cfg, s, v);
    ReadToEnd(s.core.flags, First, Elements(v), Run(cfg, s, v));
  }

  // ---- a value over several lines ----

  // After the end of a line that is continued. The element at that place is cut off: it is heard no more, nor is
  // anything after it, unless the line ended with a comma.
  function EarFold(ear: Ear, es: seq<seq<Octet>>): (r: Ear)
    requires es != []
    ensures r != First
  {
    var n := |es| - 1;
    if EarAt(ear, es, n) == Listening && Strip(es[n]) == [] then Listening else Deaf
  }

  /** The word is heard in one of the lines, each given without the blank that makes it a continuation. */
  predicate HeardInAll(ear: Ear, ps: seq<seq<Octet>>, word: string)
    decreases |ps|
  {
    ps != [] &&
    var es := Elements(ps[0]);
    if |ps| == 1 then Heard(ear, es, word)
    else Heard(ear, es[..|es| - 1], word) || HeardInAll(EarFold(ear, es), ps[1..], word)
  }

  function NotedAll(f: Flags, ear: Ear, ps: seq<seq<Octet>>): Flags {
    f.(keepAlive := f.keepAlive || HeardInAll(ear, ps, "keep-alive"), close := f.close || HeardInAll(ear, ps, "close"),
       connUpgrade := f.connUpgrade || HeardInAll(ear, ps, "upgrade"))
  }

  lemma {:induction false} NotedOne(f: Flags, ear: Ear, p: seq<Octet>)
    ensures NotedAll(f, ear, [p]) == Noted(f, ear, Elements(p))
  {
    hide Heard, Elements;
  }

  lemma {:induction false} NotedFold(f: Flags, ear: Ear, p: seq<Octet>, ps: seq<seq<Octet>>)
    requires ps != []
    ensures var es := Elements(p);
      NotedAll(f, ear, [p] + ps) == NotedAll(Noted(f, ear, es[..|es| - 1]), EarFold(ear, es), ps)
  {
    hide Heard, Elements, EarFold;
    assert ([p] + ps)[1..] == ps;
  }

  /** The blank that continues a line. */
  lemma {:induction false} FoldStep(cfg: Config, f: Flags, ear: Ear, es: seq<seq<Octet>>, s: Parser, ch: Octet)
    requires HasRead(f, ear, es, s) && (ch == SP || ch == TAB)
    ensures var c := Step(cfg, Parser(s.core.(st := ValueLws), s.out + s.pend, []), ch).core;
      c.errno == Ok && c.st == Value && InElement(EarFold(ear, es), [], c.hs, c.index) &&
      c.flags == Noted(f, ear, es[..|es| - 1])
  {
    hide *;
    StateRead(f, ear, es, s);
    StateFolded(cfg, s, ch);
    FoldedEar(ear, es, Step(cfg, Parser(s.core.(st := ValueLws), s.out + s.pend, []), ch).core);
  }

  /** The states in which a Connection value is read. */
  predicate ReadsConnection(hs: HeaderState) {
    hs in {General, ConnToken, ConnTokenStart, MatchKeepAlive, MatchClose, MatchConnUpgrade, ConnKeepAlive, ConnClose, ConnUpgrade}
  }

  lemma StateRead(f: Flags, ear: Ear, es: seq<seq<Octet>>, s: Parser)
    requires HasRead(f, ear, es, s)
    ensures es != [] && s.core.errno == Ok && ReadsConnection(s.core.hs) && s.core.flags == Noted(f, ear, es[..|es| - 1])
    ensures s.core.hs == ConnTokenStart <==> EarAt(ear, es, |es| - 1) == Listening && Strip(es[|es| - 1]) == []
  {
    hide Noted, IsWord, IsPart, Starts, EarAt;
  }

  lemma StateFolded(cfg: Config, s: Parser, ch: Octet)
    requires s.core.errno == Ok && ReadsConnection(s.core.hs) && (ch == SP || ch == TAB)
    ensures Step(cfg, Parser(s.core.(st := ValueLws), s.out + s.pend, []), ch).core ==
      s.core.(st := Value, index := 0, hs := if s.core.hs == ConnTokenStart then ConnTokenStart else General)
  {
    hide StepFieldStart, EndHeader, Lower;
  }

  lemma FoldedEar(ear: Ear, es: seq<seq<Octet>>, c: Core)
    requires es != [] && c.index == 0
    requires c.hs == if EarAt(ear, es, |es| - 1) == Listening && Strip(es[|es| - 1]) == [] then ConnTokenStart else General
    ensures InElement(EarFold(ear, es), [], c.hs, c.index)
  {
    hide EarAt;
  }

  lemma SkipsFirst(index: nat)
    ensures InElement(Skipping, [], ConnToken, index)
  {
  }

  lemma {:induction false} NothingHeard(f: Flags)
    ensures Noted(f, First, [[]]) == f
  {
    HeardOne(First, []);
  }

  // ---- when the list means what it says ----

  lemma {:induction false} HeardAt(ear: Ear, es: seq<seq<Octet>>, word: string)
    ensures Heard(ear, es, word) <==>
      exists k :: 0 <= k < |es| && HearsAt(ear, es, k) && IsWord(Trimmed(k == 0 && ear == First, es[k]), word)
    decreases |es|
  {
    hide IsWord, Strip, EarAfter;
    if es != [] {
      var rest, next := es[1..], EarAfter(ear, es[0]);
      HeardAt(next, rest, word);
      NeverFirst(ear, es[0]);
      forall k | 0 <= k < |rest| ensures HearsAt(next, rest, k) <==> HearsAt(ear, es, k + 1) {
        EarShifts(ear, es, k + 1);
      }
      if Heard(ear, es, word) && !(Hears(ear) && IsWord(Trimmed(ear == First, es[0]), word)) {
        var k :| 0 <= k < |rest| && HearsAt(next, rest, k) && IsWord(Trimmed(k == 0 && next == First, rest[k]), word);
        assert es[k + 1] == rest[k];
      }
      forall k | 0 < k < |es| && HearsAt(ear, es, k) && IsWord(Trimmed(false, es[k]), word) ensures Heard(next, rest, word) {
        assert rest[k - 1] == es[k];
      }
    }
  }

  lemma NeverFirst(ear: Ear, e: seq<Octet>)
    ensures EarAfter(ear, e) != First
  {
  }

  lemma {:induction false} EarShifts(ear: Ear, es: seq<seq<Octet>>, k: nat)
    requires 0 < k <= |es|
    ensures EarAt(ear, es, k) == EarAt(EarAfter(ear, es[0]), es[1..], k - 1)
  {
    hide EarAfter;
    if k > 1 {
      EarShifts(ear, es, k - 1);
    }
  }

  // No element but the last is empty, a mere beginning of one of the words, or begins with something else than
  // an option can begin with.
  predicate Regular(es: seq<seq<Octet>>) {
    forall k :: 0 <= k < |es| - 1 ==> Clean(k == 0, es[k])
  }

  predicate Clean(first: bool, e: seq<Octet>) {
    var x := Trimmed(first, e);
    x != [] && !AnyPart(x) && (first || Starts(x[0]))
  }

  /** That is exactly when every element is heard. */
  lemma {:induction false} RegularIsHeard(es: seq<seq<Octet>>)
    ensures Regular(es) <==> forall k :: 0 <= k < |es| ==> HearsAt(First, es, k)
  {
    hide AnyPart, Starts, Strip;
    if Regular(es) {
      forall k | 0 <= k < |es| ensures HearsAt(First, es, k) {
        HeardUpTo(es, k);
      }
    } else {
      var k :| 0 <= k < |es| - 1 && !Clean(k == 0, es[k]);
      if HearsAt(First, es, k) {
        EarAtFirst(es, k);
        assert !HearsAt(First, es, k + 1);
      }
    }
  }

  lemma {:induction false} EarAtFirst(es: seq<seq<Octet>>, k: nat)
    requires k <= |es|
    ensures EarAt(First, es, k) == First <==> k == 0
  {
    hide EarAfter;
    if k > 0 {
      NeverFirst(EarAt(First, es, k - 1), es[k - 1]);
    }
  }

  lemma {:induction false} HeardUpTo(es: seq<seq<Octet>>, k: nat)
    requires Regular(es) && k < |es|
    ensures HearsAt(First, es, k)
  {
    hide AnyPart, Starts, Strip;
    if k > 0 {
      HeardUpTo(es, k - 1);
      EarAtFirst(es, k - 1);
      assert Clean(k - 1 == 0, es[k - 1]);
    }
  }

  // So a regular value sets the flags of exactly the words that are among its elements: spaces may stand before
  // them, except at the beginning, and after them.
  lemma {:induction false} RegularValue(es: seq<seq<Octet>>, word: string)
    requires Regular(es)
    ensures Heard(First, es, word) <==> exists k :: 0 <= k < |es| && IsWord(Trimmed(k == 0, es[k]), word)
  {
    hide Regular, IsWord, Strip, HearsAt;
    RegularIsHeard(es);
    HeardAt(First, es, word);
  }

  const CLOSE: seq<Octet> := [99, 108, 111, 115, 101]

  lemma SmallElements()
    ensures EarAfter(First, [99]) == Skipping && EarAfter(First, []) == Skipping
    ensures EarAfter(First, [120]) == Listening && EarAfter(Listening, []) == Deaf
    ensures !IsWord([99], "close") && !IsWord([], "close") && !IsWord([120], "close") && Strip([]) == []
  {
    assert IsPart([99], "close");
    FirstLetters([120]);
  }

  lemma CloseIsWord()
    ensures IsWord(CLOSE, "close") && Strip(CLOSE) == CLOSE && COMMA !in CLOSE
  {
  }

  // "c,close" and ",close": the second element is the word, and is not heard.
  lemma {:induction false} CloseIsMissed(e: seq<Octet>)
    requires e == [99] || e == []
    ensures Elements(e + [COMMA] + CLOSE) == [e, CLOSE] && IsWord(Strip(CLOSE), "close")
    ensures !Heard(First, Elements(e + [COMMA] + CLOSE), "close")
  {
    hide Heard, Elements, EarAfter, IsWord, Strip;
    SmallElements();
    CloseIsWord();
    ElementsComma(e, CLOSE);
    ElementsComma(CLOSE, []);
    HeardMore(First, e, [CLOSE]);
    HeardOne(First, e);
    HeardOne(Skipping, CLOSE);
    assert [e] + [CLOSE] == [e, CLOSE];
  }

  // "x,,close": after an empty element nothing is heard any more.
  lemma {:induction false} CloseIsLost()
    ensures Elements([120] + [COMMA] + ([] + [COMMA] + CLOSE)) == [[120], [], CLOSE]
    ensures !Heard(First, [[120], [], CLOSE], "close")
  {
    hide Heard, Elements, EarAfter, IsWord, Strip;
    SmallElements();
    CloseIsWord();
    ElementsComma([120], [] + [COMMA] + CLOSE);
    ElementsComma([], CLOSE);
    ElementsComma(CLOSE, []);
    HeardMore(First, [120], [[], CLOSE]);
    HeardOne(First, [120]);
    HeardMore(Listening, [], [CLOSE]);
    HeardOne(Listening, []);
    HeardOne(Deaf, CLOSE);
    assert [[120]] + [[], CLOSE] == [[120], [], CLOSE] && [[]] + [CLOSE] == [[], CLOSE];
  }
}
