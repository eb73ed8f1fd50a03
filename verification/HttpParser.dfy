// http_parser_execute of inlonlife/pcap/http_parser.c as it works: over a buffer, with marks into it. Each
// state of its switch is a method of Execution, which works on the fields of the parser; a state that takes
// several bytes at once has its inner loop in a method of its own. Through, Inside and Took say what such a
// method has done in terms of the bytes that HttpSpec reads one at a time, and Execute puts them together.
module HttpParser {
  import opened HttpSpec
  import opened HttpSplit
  import opened HttpBody
  import opened HttpHeaders
  import opened HttpLimit

  /** The mark variables of http_parser_execute. The program asserts that at most one of them is set. */
  datatype Marks = NoMark | MarkAt(kind: Kind, at: nat)

  /** The bytes of data from the mark that is set up to q. */
  function PendingAt(marks: Marks, data: seq<Octet>, q: nat): seq<Event>
    requires q <= |data| && (marks.MarkAt? ==> marks.at <= q)
  {
    if marks.NoMark? then [] else DataEvents(marks.kind, data[marks.at..q])
  }

  predicate Marked(marks: Marks, kind: Kind) {
    marks.MarkAt? && marks.kind == kind
  }

  /** Which marks may be set in a state: in Field and Value exactly one is, for a body at most one. */
  predicate MarksFit(st: St, marks: Marks) {
    if st == Field then Marked(marks, FieldData)
    else if st == Value then Marked(marks, ValueData)
    else if Marking(st) then marks.NoMark? || Marked(marks, BodyData)
    else marks.NoMark?
  }

  lemma PendingGrows(marks: Marks, data: seq<Octet>, p: nat, q: nat, kind: Kind)
    requires p <= q <= |data| && Marked(marks, kind) && marks.at <= p
    ensures PendingAt(marks, data, q) == PendingAt(marks, data, p) + DataEvents(kind, data[p..q])
    ensures PendingAt(marks, data, p) == DataEvents(kind, data[marks.at..p])
  {
    assert data[marks.at..q] == data[marks.at..p] + data[p..q];
  }

  lemma OneEvent(kind: Kind, data: seq<Octet>, p: nat)
    requires p < |data|
    ensures DataEvents(kind, data[p..p + 1]) == [Data(kind, data[p])]
  {
  }

  class Execution {
    const cfg: Config
    // struct http_parser
    var st: St
    var hs: HeaderState
    var index: nat
    var flags: Flags
    var nread: nat
    var length: nat
    var upgrade: bool
    var errno: Errno
    // the callbacks made so far
    var out: seq<Event>
    // the variables of the running http_parser_execute
    var data: seq<Octet>
    var p: nat
    var marks: Marks

    constructor (cfg: Config, s: Parser, nread: nat)
      ensures this.cfg == cfg && CoreNow() == s.core && out == s.out && this.nread == nread
    {
      this.cfg := cfg;
      this.st, this.hs, this.index, this.flags := s.core.st, s.core.hs, s.core.index, s.core.flags;
      this.length, this.upgrade, this.errno := s.core.length, s.core.upgrade, s.core.errno;
      this.nread, this.out := nread, s.out;
      this.data, this.p, this.marks := [], 0, NoMark;
    }

    ghost function CoreNow(): Core
      reads this`st, this`hs, this`index, this`flags, this`length, this`upgrade, this`errno
    {
      Core(st, hs, index, flags, length, upgrade, errno)
    }

    predicate InBounds(q: nat)
      reads this`data, this`marks
    {
      q <= |data| && (marks.MarkAt? ==> marks.at <= q)
    }

    /** The parser after the bytes before q. */
    ghost function ValueAt(q: nat): Parser
      reads this`st, this`hs, this`index, this`flags, this`length, this`upgrade, this`errno, this`out, this`data, this`marks
      requires InBounds(q)
    {
      Parser(CoreNow(), out, PendingAt(marks, data, q))
    }

    /** No byte of a size line has been counted before its first one. */
    predicate SizeLineNew()
      reads this`st, this`errno, this`nread
    {
      errno == Ok && st == ChunkSizeStart ==> nread == 0
    }

    /** Ready for the byte at p. */
    ghost predicate Ready()
      reads this`st, this`hs, this`index, this`flags, this`length, this`upgrade, this`errno, this`out, this`data, this`marks, this`p
    {
      p < |data| && InBounds(p) && MarksFit(st, marks) && !Stopped(CoreNow())
    }

    /** The byte at p has been taken, or has made the parser fail, as the step d says. */
    ghost predicate Took(before: Parser, d: Did)
      reads this`st, this`hs, this`index, this`flags, this`length, this`upgrade, this`errno, this`out, this`data, this`marks, this`p
    {
      p < |data| && InBounds(p) &&
      if errno == Ok then MarksFit(st, marks) && ValueAt(p + 1) == Perform(before, d)
      else ValueAt(p) == Perform(before, d)
    }

    /** MARK: does nothing if the mark is set already. */
    method SetMark(kind: Kind)
      requires p < |data| && InBounds(p) && (marks.NoMark? || Marked(marks, kind))
      modifies this`marks
      ensures InBounds(p) && Marked(marks, kind)
      ensures PendingAt(marks, data, p) == old(PendingAt(marks, data, p))
      ensures PendingAt(marks, data, p + 1) == old(PendingAt(marks, data, p)) + [Data(kind, data[p])]
    {
      if marks.NoMark? {
        marks := MarkAt(kind, p);
        assert data[p..p] == [];
      }
      PendingGrows(marks, data, p, p + 1, kind);
      OneEvent(kind, data, p);
    }

    /** CALLBACK_DATA with the bytes from the mark up to end. */
    method CallbackData(kind: Kind, end: nat)
      requires InBounds(end) && (marks.NoMark? || Marked(marks, kind))
      modifies this`out, this`marks
      ensures marks.NoMark? && out == old(out) + old(PendingAt(marks, data, end))
    {
      if marks.MarkAt? {
        out := out + DataEvents(kind, data[marks.at..end]);
        marks := NoMark;
      }
    }

    /** CALLBACK_NOTIFY */
    method CallbackNotify(e: Event)
      modifies this`out
      ensures out == old(out) + [e]
    {
      out := out + [e];
    }

    /** COUNT_HEADER_SIZE: whether too many header bytes have been seen. */
    method CountHeaderSize(n: nat) returns (overflow: bool)
      modifies this`nread
      ensures nread == old(nread) + n && overflow == (nread > HTTP_MAX_HEADER_SIZE)
    {
      nread := nread + n;
      overflow := nread > HTTP_MAX_HEADER_SIZE;
    }

    /** Nothing is marked before and after, and the notifications have been made. */
    lemma TookStay(before: Parser, d: Did)
      requires p < |data| && InBounds(p) && CoreNow() == d.core && errno == Ok && marks.NoMark? && MarksFit(st, marks)
      requires before.pend == [] && d.act.mark == [] && !d.act.flush && out == before.out + d.act.events
      ensures Took(before, d)
    {
    }

    lemma TookFail(before: Parser, d: Did)
      requires p < |data| && InBounds(p) && CoreNow() == d.core && errno != Ok && d.act == NOTHING
      requires out == before.out && PendingAt(marks, data, p) == before.pend
      ensures Took(before, d)
    {
      assert before.out + [] == before.out && before.pend + [] == before.pend;
    }

    /** The byte at p has joined the open mark. */
    lemma TookMark(before: Parser, d: Did, e: Event)
      requires p < |data| && InBounds(p) && CoreNow() == d.core && errno == Ok && MarksFit(st, marks)
      requires d.act == Act([e], false, []) && out == before.out && PendingAt(marks, data, p + 1) == before.pend + [e]
      ensures Took(before, d)
    {
      assert before.out + [] == before.out;
    }

    /** The open mark has been delivered. */
    lemma TookFlush(before: Parser, d: Did)
      requires p < |data| && InBounds(p) && CoreNow() == d.core && errno == Ok && marks.NoMark? && MarksFit(st, marks)
      requires d.act.flush && d.act.mark == [] && out == before.out + before.pend + d.act.events
      ensures Took(before, d)
    {
      assert before.pend + [] == before.pend;
    }

    /** http_message_needs_eof */
    method MessageNeedsEof() returns (r: bool)
      ensures r == NeedsEof(cfg, CoreNow())
    {
      if cfg.isRequest {
        return false;
      }
      if cfg.status / 100 == 1 || cfg.status == 204 || cfg.status == 304 || flags.skipBody {
        return false;
      }
      if flags.chunked || length != ULLONG_MAX {
        return false;
      }
      return true;
    }

    /** NEW_MESSAGE and http_should_keep_alive */
    method NewMessageState() returns (r: St)
      ensures r == NewMessage(cfg, CoreNow()) && r in {Dead, StartReq, StartRes}
    {
      hide NeedsEof;
      var needsEof := MessageNeedsEof();
      var keepAlive := (if cfg.major > 0 && cfg.minor > 0 then !flags.close else flags.keepAlive) && !needsEof;
      r := if !keepAlive then Dead else if cfg.isRequest then StartReq else StartRes;
    }

    /** The state of the next message, and on_message_complete. */
    method CompleteMessage()
      requires p < |data| && InBounds(p) && marks.NoMark? && errno == Ok
      modifies this`st, this`out
      ensures Took(old(ValueAt(p)), EndMessage(cfg, old(CoreNow()))) && st in {Dead, StartReq, StartRes}
    {
      hide Took, NewMessage;
      ghost var before, c := ValueAt(p), CoreNow();
      st := NewMessageState();
      CallbackNotify(MessageComplete);
      TookStay(before, EndMessage(cfg, c));
    }

    // ---- the states, one by one; REEXECUTE is a call of the next ----

    method StateHeadersDone()
      requires p < |data| && InBounds(p) && marks.NoMark? && errno == Ok && st == HeadersDone
      modifies this`st, this`out, this`nread
      ensures Took(old(ValueAt(p)), StepHeadersDone(cfg, old(CoreNow())))
      ensures nread == 0
    {
      hide Took, NewMessage, NeedsEof;
      ghost var before, c := ValueAt(p), CoreNow();
      nread := 0;
      var hasBody := flags.chunked || (length > 0 && length != ULLONG_MAX);
      if upgrade && (cfg.isConnect || flags.skipBody || !hasBody) {
        CompleteMessage();
      } else if flags.skipBody {
        CompleteMessage();
      } else if flags.chunked {
        st := ChunkSizeStart;
        TookStay(before, Go(c.(st := ChunkSizeStart)));
      } else if length == 0 {
        CompleteMessage();
      } else if length != ULLONG_MAX {
        st := BodyIdentity;
        TookStay(before, Go(c.(st := BodyIdentity)));
      } else {
        var needsEof := MessageNeedsEof();
        if !needsEof {
          CompleteMessage();
        } else {
          st := BodyIdentityEof;
          TookStay(before, Go(c.(st := BodyIdentityEof)));
        }
      }
    }

    /** A notification before a step that only notifies. */
    lemma NotifiedFirst(before: Parser, e: Event, d: Did)
      requires Took(before.(out := before.out + [e]), d) && !d.act.flush && d.act.mark == []
      ensures Took(before, NotifyFirst(e, d))
    {
      assert before.out + [e] + d.act.events == before.out + ([e] + d.act.events);
    }

    /** The end of the trailer of a chunked message. */
    method CompleteTrailer()
      requires p < |data| && InBounds(p) && marks.NoMark? && errno == Ok
      modifies this`st, this`out
      ensures Took(old(ValueAt(p)), NotifyFirst(ChunkComplete, EndMessage(cfg, old(CoreNow()))))
      ensures st in {Dead, StartReq, StartRes}
    {
      hide Took, NewMessage;
      ghost var before, c := ValueAt(p), CoreNow();
      st := MessageDone;
      CallbackNotify(ChunkComplete);
      CompleteMessage();
      EndIgnoresState(cfg, c, MessageDone);
      EndCore(before, ChunkComplete, c);
      NotifiedFirst(before, ChunkComplete, EndMessage(cfg, c));
    }

    /** What the end of the headers decides before on_headers_complete. */
    method DecideUpgrade()
      requires p < |data| && InBounds(p) && marks.NoMark? && errno == Ok && st == HeadersAlmostDone
      modifies this`st, this`out, this`upgrade, this`flags
      ensures st == HeadersDone && InBounds(p) && CoreNow() == EndOfHeaders(cfg, old(CoreNow()))
      ensures out == old(out) + [HeadersComplete]
    {
      st := HeadersDone;
      upgrade := (flags.upgrade && flags.connUpgrade) || cfg.isConnect;
      CallbackNotify(HeadersComplete);
      if cfg.skipBody {
        flags := flags.(skipBody := true);
      }
    }

    method StateHeadersAlmostDone(ch: Octet)
      requires p < |data| && InBounds(p) && marks.NoMark? && errno == Ok && st == HeadersAlmostDone
      modifies this`st, this`out, this`nread, this`upgrade, this`flags, this`errno
      ensures Took(old(ValueAt(p)), StepHeadersAlmostDone(cfg, old(CoreNow()), ch))
      ensures nread == (if Resets(old(CoreNow()), ch) then 0 else old(nread)) && SizeLineNew()
    {
      hide Took, StepHeadersDone, NewMessage, PendingAt, EndOfHeaders;
      ghost var before, c := ValueAt(p), CoreNow();
      if ch != LF {
        errno := Strict;
        TookFail(before, Fail(c, Strict));
        return;
      }
      if flags.trailing {
        CompleteTrailer();
        return;
      }
      DecideUpgrade();
      ghost var e := CoreNow();
      StateHeadersDone();
      HeadersDoneNotifies(cfg, e);
      DifferentCore(before, HeadersComplete, e, StepHeadersDone(cfg, e));
      NotifiedFirst(before, HeadersComplete, StepHeadersDone(cfg, e));
    }

    /** The first character of a header name. */
    method StartOfName(ch: Octet, t: Octet)
      requires p < |data| && InBounds(p) && marks.NoMark? && errno == Ok && ch == data[p] && t == Token(ch) != 0
      modifies this`st, this`hs, this`index, this`marks
      ensures Took(old(ValueAt(p)), Mark(old(CoreNow()).(st := Field, hs := NameStart(t), index := 0), FieldData, ch))
      ensures st == Field
    {
      hide Took, Token;
      ghost var before, c := ValueAt(p), CoreNow();
      SetMark(FieldData);
      index := 0;
      st := Field;
      if t == 99 {
        hs := C;
      } else if t == 112 {
        hs := MatchProxyConnection;
      } else if t == 116 {
        hs := MatchTransferEncoding;
      } else if t == 117 {
        hs := MatchUpgrade;
      } else {
        hs := General;
      }
      TookMark(before, Mark(c.(st := Field, hs := NameStart(t), index := 0), FieldData, ch), Data(FieldData, ch));
    }

    method StateFieldStart(ch: Octet)
      requires p < |data| && InBounds(p) && marks.NoMark? && errno == Ok && st == FieldStart && ch == data[p]
      modifies this`st, this`hs, this`index, this`out, this`nread, this`upgrade, this`flags, this`errno, this`marks
      ensures Took(old(ValueAt(p)), StepFieldStart(cfg, old(CoreNow()), ch))
      ensures nread == (if Resets(old(CoreNow()), ch) then 0 else old(nread)) && SizeLineNew()
    {
      hide Took, StepHeadersAlmostDone, PendingAt, Token, NameStart;
      ghost var before, c := ValueAt(p), CoreNow();
      if ch == CR {
        st := HeadersAlmostDone;
        NothingPending();
        TookStay(before, Go(c.(st := HeadersAlmostDone)));
        return;
      }
      if ch == LF {
        st := HeadersAlmostDone;
        StateHeadersAlmostDone(ch);
        OtherCore(before, c.(st := HeadersAlmostDone), StepHeadersAlmostDone(cfg, c.(st := HeadersAlmostDone), ch));
        return;
      }
      var t := Token(ch);
      if t == 0 {
        errno := InvalidHeaderToken;
        TookFail(before, Fail(c, InvalidHeaderToken));
        return;
      }
      StartOfName(ch, t);
    }

    lemma NothingPending()
      ensures forall q :: InBounds(q) && marks.NoMark? ==> PendingAt(marks, data, q) == []
    {
    }

    /** A step does not look at the fields in before, only at its callbacks. */
    lemma OtherCore(before: Parser, c: Core, d: Did)
      requires Took(Parser(c, before.out, before.pend), d)
      ensures Took(before, d)
    {
    }

    /** What the first character of a value does to the header state, the length and the flags. */
    method FirstOfValue(ch: Octet)
      requires errno == Ok && st == Value && index == 0
      modifies this`hs, this`length, this`flags, this`errno
      ensures CoreNow() == StepValueStart(old(CoreNow()), ch).core
    {
      hide Lower, ConnectionValue;
      var l := Lower(ch);
      match hs
      case Upgrade =>
        flags := flags.(upgrade := true);
        hs := General;
      case TransferEncoding =>
        hs := if l == 99 then MatchChunked else General;
      case ContentLength =>
        if !IsDigit(ch) {
          errno := InvalidContentLength;
        } else {
          length := ch - 48;
        }
      case Connection =>
        hs := ConnectionValue(l, ConnToken);
      case ConnTokenStart =>
      case _ =>
        hs := General;
    }

    method StateValueStart(ch: Octet)
      requires p < |data| && InBounds(p) && marks.NoMark? && errno == Ok && ch == data[p]
      modifies this`st, this`hs, this`index, this`length, this`flags, this`errno, this`marks
      ensures Took(old(ValueAt(p)), StepValueStart(old(CoreNow()), ch)) && st == Value
    {
      hide Took, PendingAt, StepValueStart;
      ghost var before, c := ValueAt(p), CoreNow();
      NothingPending();
      SetMark(ValueData);
      st := Value;
      index := 0;
      FirstOfValue(ch);
      ValueStartActs(c, ch);
      if errno != Ok {
        TookFail(before, StepValueStart(c, ch));
      } else {
        TookMark(before, StepValueStart(c, ch), Data(ValueData, ch));
      }
    }

    /** The flags that a finished header sets. */
    method FinishHeader()
      modifies this`flags
      ensures CoreNow() == EndHeader(old(CoreNow()))
    {
      match hs
      case ConnKeepAlive => flags := flags.(keepAlive := true);
      case ConnClose => flags := flags.(close := true);
      case Chunked => flags := flags.(chunked := true);
      case ConnUpgrade => flags := flags.(connUpgrade := true);
      case _ =>
    }

    method StateValueLws(ch: Octet)
      requires p < |data| && InBounds(p) && marks.NoMark? && errno == Ok && st == ValueLws && ch == data[p]
      modifies this`st, this`hs, this`index, this`length, this`out, this`nread, this`upgrade, this`flags, this`errno, this`marks
      ensures Took(old(ValueAt(p)), StepValueLws(cfg, old(CoreNow()), ch))
      ensures nread == (if Resets(old(CoreNow()), ch) then 0 else old(nread)) && SizeLineNew()
    {
      hide Took, PendingAt, StepValueStart, StepFieldStart, EndHeader, Resets;
      ghost var before, c := ValueAt(p), CoreNow();
      NothingPending();
      if ch == SP || ch == TAB {
        BlankResetsNothing(c, ch);
        st := ValueStart;
        StateValueStart(ch);
        OtherCore(before, c.(st := ValueStart), StepValueStart(c.(st := ValueStart), ch));
      } else {
        FinishHeader();
        EndHeaderKeeps(c);
        EndHeaderResets(c, ch);
        st := FieldStart;
        StateFieldStart(ch);
        OtherCore(before, EndHeader(c).(st := FieldStart), StepFieldStart(cfg, EndHeader(c).(st := FieldStart), ch));
      }
    }

    /** The header line is over; the value that is delivered here is empty. */
    method EndOfLine()
      requires p < |data| && InBounds(p) && marks.NoMark? && errno == Ok && st == DiscardLws
      modifies this`st, this`hs, this`flags, this`out, this`marks
      ensures InBounds(p) && marks.NoMark? && out == old(out) && CoreNow() == EndHeader(old(CoreNow())).(st := FieldStart)
      ensures errno == Ok && st == FieldStart
    {
      hide EndHeader;
      ghost var c := CoreNow();
      FinishHeader();
      EndHeaderKeeps(c);
      SetMark(ValueData);
      st := FieldStart;
      CallbackData(ValueData, p);
    }

    method StateDiscardLws(ch: Octet)
      requires p < |data| && InBounds(p) && marks.NoMark? && errno == Ok && st == DiscardLws && ch == data[p]
      modifies this`st, this`hs, this`index, this`length, this`out, this`nread, this`upgrade, this`flags, this`errno, this`marks
      ensures Took(old(ValueAt(p)), StepDiscardLws(cfg, old(CoreNow()), ch))
      ensures nread == (if Resets(old(CoreNow()), ch) then 0 else old(nread)) && SizeLineNew()
    {
      hide Took, PendingAt, StepFieldStart, EndHeader, Resets;
      ghost var before, c := ValueAt(p), CoreNow();
      NothingPending();
      if ch == SP || ch == TAB {
        BlankResetsNothing(c, ch);
        st := DiscardWs;
        TookStay(before, Go(c.(st := DiscardWs)));
      } else {
        EndOfLine();
        EndHeaderResets(c, ch);
        StateFieldStart(ch);
        OtherCore(before, EndHeader(c).(st := FieldStart), StepFieldStart(cfg, EndHeader(c).(st := FieldStart), ch));
      }
    }

    method StateDiscardWs(ch: Octet)
      requires p < |data| && InBounds(p) && marks.NoMark? && errno == Ok && st == DiscardWs && ch == data[p]
      modifies this`st, this`hs, this`index, this`length, this`flags, this`errno, this`marks
      ensures Took(old(ValueAt(p)), StepDiscardWs(old(CoreNow()), ch)) && st in {DiscardWs, DiscardWsAlmostDone, DiscardLws, Value}
    {
      hide Took, PendingAt, StepValueStart;
      ghost var before, c := ValueAt(p), CoreNow();
      NothingPending();
      if ch == SP || ch == TAB {
        TookStay(before, Go(c));
      } else if ch == CR {
        st := DiscardWsAlmostDone;
        TookStay(before, Go(c.(st := DiscardWsAlmostDone)));
      } else if ch == LF {
        st := DiscardLws;
        TookStay(before, Go(c.(st := DiscardLws)));
      } else {
        StateValueStart(ch);
      }
    }

    /** STRICT_CHECK for one character, and the next state. */
    method ExpectByte(ch: Octet, expected: Octet, next: St)
      requires p < |data| && InBounds(p) && marks.NoMark? && errno == Ok && MarksFit(next, NoMark)
      modifies this`st, this`errno
      ensures Took(old(ValueAt(p)), Expect(old(CoreNow()), ch, expected, next)) && (st == old(st) || st == next)
    {
      hide Took, PendingAt;
      ghost var before, c := ValueAt(p), CoreNow();
      NothingPending();
      if ch != expected {
        errno := Strict;
        TookFail(before, Fail(c, Strict));
      } else {
        st := next;
        TookStay(before, Go(c.(st := next)));
      }
    }

    method StateDead(ch: Octet)
      requires p < |data| && InBounds(p) && marks.NoMark? && errno == Ok && st == Dead
      modifies this`errno
      ensures Took(old(ValueAt(p)), StepCore(cfg, old(CoreNow()), ch))
    {
      hide Took, PendingAt;
      ghost var before, c := ValueAt(p), CoreNow();
      NothingPending();
      if ch == CR || ch == LF {
        TookStay(before, Go(c));
      } else {
        errno := ClosedConnection;
        TookFail(before, Fail(c, ClosedConnection));
      }
    }

    method StateChunkSizeStart(ch: Octet)
      requires p < |data| && InBounds(p) && marks.NoMark? && errno == Ok && st == ChunkSizeStart && nread == 1 && flags.chunked
      modifies this`st, this`length, this`errno
      ensures Took(old(ValueAt(p)), StepChunkSizeStart(old(CoreNow()), ch)) && SizeLineNew()
    {
      hide Took, PendingAt, Unhex;
      // the assertions of the program
      assert nread == 1 && flags.chunked;
      ghost var before, c := ValueAt(p), CoreNow();
      NothingPending();
      var v := Unhex(ch);
      if v == -1 {
        errno := InvalidChunkSize;
        TookFail(before, Fail(c, InvalidChunkSize));
      } else {
        length := v;
        st := ChunkSize;
        TookStay(before, Go(c.(st := ChunkSize, length := v)));
      }
    }

    method StateChunkSize(ch: Octet)
      requires p < |data| && InBounds(p) && marks.NoMark? && errno == Ok && st == ChunkSize
      modifies this`st, this`length, this`errno
      ensures Took(old(ValueAt(p)), StepChunkSize(old(CoreNow()), ch)) && SizeLineNew()
    {
      hide Took, PendingAt, Unhex;
      ghost var before, c := ValueAt(p), CoreNow();
      NothingPending();
      if ch == CR {
        st := ChunkSizeAlmostDone;
        TookStay(before, Go(c.(st := ChunkSizeAlmostDone)));
        return;
      }
      var v := Unhex(ch);
      if v == -1 {
        if ch == SEMICOLON || ch == SP {
          st := ChunkParameters;
          TookStay(before, Go(c.(st := ChunkParameters)));
        } else {
          errno := InvalidChunkSize;
          TookFail(before, Fail(c, InvalidChunkSize));
        }
        return;
      }
      var t := length * 16 + v;
      if (ULLONG_MAX - 16) / 16 < length {
        errno := InvalidContentLength;
        TookFail(before, Fail(c, InvalidContentLength));
        return;
      }
      length := t;
      TookStay(before, Go(c.(length := c.length * 16 + v)));
    }

    method StateChunkParameters(ch: Octet)
      requires p < |data| && InBounds(p) && marks.NoMark? && errno == Ok && st == ChunkParameters
      modifies this`st
      ensures Took(old(ValueAt(p)), StepCore(cfg, old(CoreNow()), ch)) && SizeLineNew()
    {
      hide Took, PendingAt;
      ghost var before, c := ValueAt(p), CoreNow();
      NothingPending();
      if ch == CR {
        st := ChunkSizeAlmostDone;
      }
      TookStay(before, Go(c.(st := st)));
    }

    method StateChunkSizeAlmostDone(ch: Octet)
      requires p < |data| && InBounds(p) && marks.NoMark? && errno == Ok && st == ChunkSizeAlmostDone
      modifies this`st, this`flags, this`nread, this`errno, this`out
      ensures Took(old(ValueAt(p)), StepChunkSizeAlmostDone(old(CoreNow()), ch))
      ensures nread == (if Resets(old(CoreNow()), ch) then 0 else old(nread)) && SizeLineNew()
    {
      hide Took, PendingAt;
      ghost var before, c := ValueAt(p), CoreNow();
      NothingPending();
      if ch != LF {
        errno := Strict;
        TookFail(before, Fail(c, Strict));
        return;
      }
      nread := 0;
      if length == 0 {
        flags := flags.(trailing := true);
        st := FieldStart;
      } else {
        st := ChunkData;
      }
      CallbackNotify(ChunkHeader(length));
      TookStay(before, StepChunkSizeAlmostDone(c, ch));
    }

    method StateChunkDataAlmostDone(ch: Octet)
      requires p < |data| && InBounds(p) && (marks.NoMark? || Marked(marks, BodyData)) && errno == Ok && st == ChunkDataAlmostDone
      modifies this`st, this`out, this`errno, this`marks
      ensures Took(old(ValueAt(p)), StepCore(cfg, old(CoreNow()), ch)) && SizeLineNew()
    {
      hide Took, PendingAt;
      ghost var before, c := ValueAt(p), CoreNow();
      if ch != CR {
        errno := Strict;
        TookFail(before, Fail(c, Strict));
        return;
      }
      st := ChunkDataDone;
      CallbackData(BodyData, p);
      assert before.out + before.pend + [] == before.out + before.pend;
      TookFlush(before, Deliver(c.(st := ChunkDataDone)));
    }

    method StateChunkDataDone(ch: Octet)
      requires p < |data| && InBounds(p) && marks.NoMark? && errno == Ok && st == ChunkDataDone
      modifies this`st, this`out, this`errno, this`nread
      ensures Took(old(ValueAt(p)), StepCore(cfg, old(CoreNow()), ch))
      ensures nread == (if Resets(old(CoreNow()), ch) then 0 else old(nread)) && SizeLineNew()
    {
      hide Took, PendingAt;
      ghost var before, c := ValueAt(p), CoreNow();
      NothingPending();
      if ch != LF {
        errno := Strict;
        TookFail(before, Fail(c, Strict));
        return;
      }
      nread := 0;
      st := ChunkSizeStart;
      CallbackNotify(ChunkComplete);
      TookStay(before, Notify(c.(st := ChunkSizeStart), ChunkComplete));
    }

    // ---- the states that run through several bytes ----

    /** All bytes from `from` on up to the one at p have been taken, or the parser has failed on that one. */
    ghost predicate Through(before: Parser, from: nat)
      reads this`st, this`hs, this`index, this`flags, this`length, this`upgrade, this`errno, this`out, this`data, this`marks, this`p
    {
      from <= p < |data| && InBounds(p) && !Stopped(Run(cfg, before, data[from..p]).core) &&
      if errno == Ok then MarksFit(st, marks) && ValueAt(p + 1) == Run(cfg, before, data[from..p + 1])
      else ValueAt(p) == Run(cfg, before, data[from..p + 1])
    }

    /** The byte at p after those before it. */
    lemma {:induction false} ThroughOne(before: Parser, from: nat, s: Parser, d: Did)
      requires from <= p < |data| && s == Run(cfg, before, data[from..p]) && !Stopped(s.core)
      requires d == StepCore(cfg, s.core, data[p]) && Took(s, d)
      ensures Through(before, from)
    {
      hide StepCore, Run, PendingAt, MarksFit, Outside;
      RunOneMore(cfg, before, data, from, p);
    }

    lemma {:induction false} RunFrom(before: Parser, q: nat)
      requires q <= |data|
      ensures before == Run(cfg, before, data[q..q])
    {
      assert data[q..q] == [];
    }

    /** The matcher for header names. */
    method MatchNameChar(c: Octet)
      modifies this`hs, this`index
      ensures (hs, index) == NameChar(old(hs), old(index), c)
    {
      hide Match;
      match hs
      case General =>
      case C =>
        index := index + 1;
        hs := if c == 111 then CO else General;
      case CO =>
        index := index + 1;
        hs := if c == 110 then CON else General;
      case CON =>
        index := index + 1;
        hs := if c == 110 then MatchConnection else if c == 116 then MatchContentLength else General;
      case MatchConnection =>
        index := index + 1;
        hs := Match("connection", index, c, General, Connection, hs);
      case MatchProxyConnection =>
        index := index + 1;
        hs := Match("proxy-connection", index, c, General, Connection, hs);
      case MatchContentLength =>
        index := index + 1;
        hs := Match("content-length", index, c, General, ContentLength, hs);
      case MatchTransferEncoding =>
        index := index + 1;
        hs := Match("transfer-encoding", index, c, General, TransferEncoding, hs);
      case MatchUpgrade =>
        index := index + 1;
        hs := Match("upgrade", index, c, General, Upgrade, hs);
      case _ =>
        hs := General;
    }

    /** Inside a name or a value: all bytes from `from` up to p have been taken. */
    ghost predicate Inside(before: Parser, from: nat, state: St, kind: Kind)
      reads this`st, this`hs, this`index, this`flags, this`length, this`upgrade, this`errno, this`out, this`data, this`marks, this`p
    {
      from <= p <= |data| && InBounds(p) && Marked(marks, kind) && st == state && errno == Ok &&
      ValueAt(p) == Run(cfg, before, data[from..p])
    }

    /** One character of a header name. */
    method NameByte(ghost before: Parser, ghost from: nat)
      requires Inside(before, from, Field, FieldData) && p < |data| && Token(data[p]) != 0
      modifies this`hs, this`index, this`p
      ensures p == old(p) + 1 && Inside(before, from, Field, FieldData)
    {
      hide Took, Through, PendingAt, NameChar, Token, Run;
      ghost var s, c := ValueAt(p), CoreNow();
      PendingGrows(marks, data, p, p + 1, FieldData);
      OneEvent(FieldData, data, p);
      MatchNameChar(Token(data[p]));
      TookMark(s, StepField(c, data[p]), Data(FieldData, data[p]));
      ThroughOne(before, from, s, StepField(c, data[p]));
      ThroughValue(before, from);
      p := p + 1;
    }

    /** The colon after a name, or a character that is not allowed. */
    method NameEnds(ghost before: Parser, ghost from: nat)
      requires Inside(before, from, Field, FieldData) && p < |data| && Token(data[p]) == 0
      modifies this`st, this`errno, this`out, this`marks
      ensures Through(before, from) && errno != HeaderOverflow && InBounds(p) && st in {Field, DiscardWs}
    {
      hide Took, Through, PendingAt, Token, Run;
      ghost var s, c := ValueAt(p), CoreNow();
      if data[p] == COLON {
        st := DiscardWs;
        CallbackData(FieldData, p);
        assert s.out + s.pend + [] == s.out + s.pend;
        TookFlush(s, Deliver(c.(st := DiscardWs)));
      } else {
        errno := InvalidHeaderToken;
        TookFail(s, Fail(c, InvalidHeaderToken));
      }
      ThroughOne(before, from, s, StepField(c, data[p]));
    }

    lemma {:induction false} ThroughValue(before: Parser, from: nat)
      requires Through(before, from)
      ensures errno == Ok ==> ValueAt(p + 1) == Run(cfg, before, data[from..p + 1])
    {
    }

    lemma {:induction false} MakeThrough(before: Parser, from: nat)
      requires from <= p < |data| && InBounds(p) && errno == Ok && MarksFit(st, marks)
      requires ValueAt(p + 1) == Run(cfg, before, data[from..p + 1])
      requires !Stopped(CoreNow()) || !Stopped(Run(cfg, before, data[from..p]).core)
      ensures Through(before, from)
    {
      hide Stopped, Run, MarksFit;
      NotStoppedBefore(cfg, before, data, from, p);
    }

    // nread after the bytes from `from` to the one at p, when it was n before them; one too much when the call ends
    // inside a name or a value. Or they were too many.
    ghost predicate Tallied(v: Parser, n: nat, from: nat)
      reads this`nread, this`p, this`data, this`errno, this`st
    {
      (errno == Ok ==> from <= p < |data| && TalliedTo(v, n, data[from..p + 1], p + 1 == |data|)) &&
      (errno == HeaderOverflow ==> from < |data| && Exceeds(cfg, v, n, data[from..]))
    }

    ghost predicate TalliedTo(v: Parser, n: nat, seg: seq<Octet>, atEnd: bool)
      reads this`nread, this`st
    {
      var h := HeaderCount(cfg, v, n, seg);
      nread <= HTTP_MAX_HEADER_SIZE && Fits(cfg, v, n, seg) && h <= nread <= h + if atEnd && st in {Field, Value} then 1 else 0
    }

    // The bytes of a name or a value up to q have been counted one by one, and the one at q if there is one; at the
    // end of the data the first of them has been counted twice.
    ghost predicate LineCount(v: Parser, n: nat, from: nat, q: nat)
      reads this`data
    {
      from <= q <= |data| && from < |data| &&
      var count := n + 1 + (q - from);
      if count > HTTP_MAX_HEADER_SIZE then Exceeds(cfg, v, n, data[from..])
      else if q < |data| then Fits(cfg, v, n, data[from..q + 1]) && HeaderCount(cfg, v, n, data[from..q + 1]) == count
      else Fits(cfg, v, n, data[from..q]) && HeaderCount(cfg, v, n, data[from..q]) + 1 == count
    }

    lemma {:induction false} LineCounts(v: Parser, n: nat, from: nat, q: nat)
      requires from <= q <= |data| && from < |data| && n < HTTP_MAX_HEADER_SIZE
      requires var a := data[from..q];
        HeaderCount(cfg, v, n, a) == n + |a| && (Fits(cfg, v, n, a) <==> n + |a| <= HTTP_MAX_HEADER_SIZE) &&
        Run(cfg, v, a).core.errno == Ok && Run(cfg, v, a).core.st in {Field, Value}
      ensures LineCount(v, n, from, q)
    {
      hide Run, Fits, HeaderCount;
      var a := data[from..q];
      if q < |data| {
        assert data[from..q + 1] == a + [data[q]] && data[from..] == (a + [data[q]]) + data[q + 1..];
        OneMoreCounts(cfg, v, n, a, data[q]);
        if n + 1 + (q - from) > HTTP_MAX_HEADER_SIZE {
          ExceedsLater(cfg, v, n, a + [data[q]], data[q + 1..]);
        }
      } else {
        assert data[from..] == a;
      }
    }

    lemma LineTooLong(v: Parser, n: nat, from: nat, q: nat)
      requires LineCount(v, n, from, q) && n + 1 + (q - from) > HTTP_MAX_HEADER_SIZE && errno == HeaderOverflow
      ensures Tallied(v, n, from)
    {
      hide Exceeds;
    }

    lemma LineTallied(v: Parser, n: nat, from: nat, q: nat)
      requires LineCount(v, n, from, q) && nread == n + 1 + (q - from) <= HTTP_MAX_HEADER_SIZE && errno != HeaderOverflow
      requires if q == |data| then p + 1 == q && st in {Field, Value} else p == q
      ensures Tallied(v, n, from)
    {
      hide Fits, HeaderCount;
    }

    lemma InsideAtStart(state: St, kind: Kind)
      requires Ready() && st == state && Marked(marks, kind)
      ensures Inside(ValueAt(p), p, state, kind)
    {
      RunFrom(ValueAt(p), p);
    }

    /** The data ends inside a name or a value; p goes back to its last byte. */
    lemma {:induction false} InsideAtEnd(before: Parser, from: nat, state: St, kind: Kind, q: nat)
      requires from <= q < |data| && p == |data| == q + 1 && Inside(before, from, state, kind) && MarksFit(state, marks)
      requires marks.MarkAt? ==> marks.at <= q
      ensures ValueAt(q + 1) == Run(cfg, before, data[from..q + 1]) && InBounds(q) && MarksFit(st, marks) && errno == Ok
    {
    }

    /** Goes on to the end of the name or of the data. */
    method ScanName(ghost before: Parser)
      requires Ready() && st == Field && before == ValueAt(p)
      modifies this`p, this`hs, this`index
      ensures old(p) <= p <= |data| && Inside(before, old(p), Field, FieldData) && (p < |data| ==> Token(data[p]) == 0)
      ensures forall i :: old(p) <= i < p ==> Token(data[i]) != 0
    {
      hide Through, Took, PendingAt, Token, Run;
      var start := p;
      InsideAtStart(Field, FieldData);
      while p < |data| && Token(data[p]) != 0
        invariant start <= p <= |data| && Inside(before, start, Field, FieldData)
        invariant forall i :: start <= i < p ==> Token(data[i]) != 0
        decreases |data| - p
      {
        NameByte(before, start);
      }
    }

    /** The data ends inside a name or a value: p goes back to its last byte. */
    method BackUp(ghost before: Parser, ghost from: nat, ghost kind: Kind)
      requires from < p == |data| && Inside(before, from, st, kind) && MarksFit(st, marks) && Marking(st)
      requires marks.MarkAt? ==> marks.at <= from
      modifies this`p
      ensures p == |data| - 1 && InBounds(p) && errno == Ok && Through(before, from)
    {
      hide Through, PendingAt, Run;
      InsideAtEnd(before, from, st, kind, p - 1);
      p := p - 1;
      MakeThrough(before, from);
    }

    method StateField()
      requires Ready() && st == Field && 0 < nread <= HTTP_MAX_HEADER_SIZE
      modifies this`p, this`st, this`hs, this`index, this`nread, this`errno, this`out, this`marks
      ensures errno == HeaderOverflow || Through(old(ValueAt(p)), old(p))
      ensures p <= |data| && InBounds(p) && Tallied(old(ValueAt(p)), old(nread) - 1, old(p)) && SizeLineNew()
    {
      hide Through, PendingAt, Token, Run, LineCount, Tallied;
      ghost var before, n := ValueAt(p), nread - 1;
      var start := p;
      ScanName(before);
      NameCounted(before, n, start);
      ghost var q := p;
      var overflow := CountHeaderSize(p - start);
      if overflow {
        errno := HeaderOverflow;
        LineTooLong(before, n, start, q);
      } else {
        if p == |data| {
          BackUp(before, start, FieldData);
        } else {
          NameEnds(before, start);
        }
        LineTallied(before, n, start, q);
      }
    }

    lemma {:induction false} NameCounted(v: Parser, n: nat, from: nat)
      requires from <= p && from < |data| && Inside(v, from, Field, FieldData) && v.core.st == Field && v.core.errno == Ok
      requires n < HTTP_MAX_HEADER_SIZE && forall i :: from <= i < p ==> Token(data[i]) != 0
      ensures LineCount(v, n, from, p)
    {
      hide Run, Fits, HeaderCount, Token, PendingAt, LineCount;
      NameCounts(cfg, v, n, data[from..p]);
      LineCounts(v, n, from, p);
    }

    /** A further character of a value, with the header state in hs rather than in a local copy. */
    method MatchValueChar(ch: Octet)
      requires errno == Ok && st == Value && ch != CR && ch != LF
      modifies this`hs, this`index, this`length, this`flags, this`errno
      ensures CoreNow() == StepValue(old(CoreNow()), ch).core
    {
      hide Match, Lower, Token, ConnectionValue;
      var c := Lower(ch);
      match hs
      case ContentLength =>
        if ch == SP {
          return;
        }
        if !IsDigit(ch) {
          errno := InvalidContentLength;
          return;
        }
        var t := length * 10 + (ch - 48);
        if (ULLONG_MAX - 10) / 10 < length {
          errno := InvalidContentLength;
          return;
        }
        length := t;
      case MatchChunked =>
        index := index + 1;
        hs := Match("chunked", index, c, General, Chunked, hs);
      case ConnTokenStart =>
        hs := ConnectionValue(c, if Token(c) != 0 then ConnToken else if c == SP || c == TAB then hs else General);
      case MatchKeepAlive =>
        index := index + 1;
        hs := Match("keep-alive", index, c, ConnToken, ConnKeepAlive, hs);
      case MatchClose =>
        index := index + 1;
        hs := Match("close", index, c, ConnToken, ConnClose, hs);
      case MatchConnUpgrade =>
        index := index + 1;
        hs := Match("upgrade", index, c, ConnToken, ConnUpgrade, hs);
      case ConnToken =>
        if ch == COMMA {
          hs := ConnTokenStart;
          index := 0;
        }
      case Chunked =>
        if ch != SP {
          hs := General;
        }
      case ConnKeepAlive => AfterToken(ch);
      case ConnClose => AfterToken(ch);
      case ConnUpgrade => AfterToken(ch);
      case _ =>
        hs := General;
    }

    method AfterToken(ch: Octet)
      requires hs in {ConnKeepAlive, ConnClose, ConnUpgrade}
      modifies this`hs, this`index, this`flags
      ensures (hs, index) == AfterConnection(old(hs), old(index), ch)
      ensures flags == if ch == COMMA then SetConnection(old(flags), old(hs)) else old(flags)
    {
      if ch == COMMA {
        if hs == ConnKeepAlive {
          flags := flags.(keepAlive := true);
        } else if hs == ConnClose {
          flags := flags.(close := true);
        } else if hs == ConnUpgrade {
          flags := flags.(connUpgrade := true);
        }
        hs := ConnTokenStart;
        index := 0;
      } else if ch != SP {
        hs := ConnToken;
      }
    }

    /** One character of a value, or the failure on it. */
    method ValueByte(ghost before: Parser, ghost from: nat)
      requires Inside(before, from, Value, ValueData) && p < |data| && data[p] != CR && data[p] != LF
      modifies this`hs, this`index, this`length, this`flags, this`errno, this`p
      ensures errno == Ok ==> p == old(p) + 1 && Inside(before, from, Value, ValueData)
      ensures errno != Ok ==> p == old(p) && Through(before, from) && errno != HeaderOverflow && InBounds(p)
    {
      hide Took, Through, PendingAt, StepValue, Run;
      ghost var s, c := ValueAt(p), CoreNow();
      var ch := data[p];
      PendingGrows(marks, data, p, p + 1, ValueData);
      OneEvent(ValueData, data, p);
      MatchValueChar(ch);
      ValueActs(c, ch);
      if errno != Ok {
        TookFail(s, StepValue(c, ch));
        ThroughOne(before, from, s, StepValue(c, ch));
      } else {
        TookMark(s, StepValue(c, ch), Data(ValueData, ch));
        ThroughOne(before, from, s, StepValue(c, ch));
        ThroughValue(before, from);
        p := p + 1;
      }
    }

    /** memchr: the first place of ch among the bytes from a up to b, or b. */
    method FindByte(ch: Octet, a: nat, b: nat) returns (r: nat)
      requires a <= b <= |data|
      ensures a <= r <= b && (r < b ==> data[r] == ch) && forall i :: a <= i < r ==> data[i] != ch
    {
      r := a;
      while r < b && data[r] != ch
        invariant a <= r <= b && forall i :: a <= i < r ==> data[i] != ch
      {
        r := r + 1;
      }
    }

    // In a value that does not matter: p goes to the next line end. Beyond HTTP_MAX_HEADER_SIZE bytes the
    // program does not look any further and goes to the end of the data.
    method SkipValue(ghost before: Parser, ghost from: nat)
      requires Inside(before, from, Value, ValueData) && p < |data| && hs == General
      requires data[p] != CR && data[p] != LF
      modifies this`p
      ensures old(p) < p <= |data| && InBounds(p)
      ensures (Inside(before, from, Value, ValueData) && forall i :: old(p) <= i < p ==> data[i] != CR && data[i] != LF) ||
        (p == |data| && LongValue(before, from, old(p) + HTTP_MAX_HEADER_SIZE, old(p)))
    {
      hide PendingAt, Run;
      var limit := |data| - p;
      if limit > HTTP_MAX_HEADER_SIZE {
        limit := HTTP_MAX_HEADER_SIZE;
      }
      var end := p + limit;
      var cr := FindByte(CR, p, end);
      var lf := FindByte(LF, p, end);
      var q;
      if cr < end {
        q := if lf < end && cr >= lf then lf else cr;
      } else if lf < end {
        q := lf;
      } else {
        q := |data|;
      }
      if q == |data| > end {
        SkipRuns(before, from, end);
        p := q;
        return;
      }
      assert forall i :: p <= i < q ==> data[i] != CR && data[i] != LF;
      SkipRuns(before, from, q);
      p := q;
    }

    /** A value that goes on to q, too long for the limit, with no line end from r on. */
    ghost predicate LongValue(v: Parser, from: nat, q: nat, r: nat)
      reads this`data
    {
      from <= r && r + HTTP_MAX_HEADER_SIZE <= q < |data| && Run(cfg, v, data[from..q]).core.errno == Ok &&
      forall i :: r <= i < q ==> data[i] != CR && data[i] != LF
    }

    /** Bytes of such a value only join the open mark. */
    lemma {:induction false} SkipRuns(before: Parser, from: nat, q: nat)
      requires Inside(before, from, Value, ValueData) && p <= q <= |data| && hs == General
      requires forall i :: p <= i < q ==> data[i] != CR && data[i] != LF
      ensures Parser(CoreNow(), out, PendingAt(marks, data, q)) == Run(cfg, before, data[from..q])
    {
      hide Run, Through, PendingAt;
      var seg := data[p..q];
      assert data[from..q] == data[from..p] + seg;
      RunAppend(cfg, before, data[from..p], seg);
      PendingGrows(marks, data, p, q, ValueData);
      forall i | 0 <= i < |seg| ensures seg[i] != CR && seg[i] != LF {
        assert seg[i] == data[p + i];
      }
      GeneralRuns(cfg, ValueAt(p), seg);
    }

    /** The line end after a value. */
    method ValueEnds(ghost before: Parser, ghost from: nat)
      requires Inside(before, from, Value, ValueData) && p < |data| && (data[p] == CR || data[p] == LF)
      modifies this`st, this`out, this`marks
      ensures Through(before, from) && InBounds(p) && errno == Ok && st in {HeaderAlmostDone, ValueLws}
    {
      hide Took, Through, PendingAt, Run;
      ghost var s, c := ValueAt(p), CoreNow();
      st := HeaderAlmostDone;
      CallbackData(ValueData, p);
      assert s.out + s.pend + [] == s.out + s.pend;
      if data[p] == LF {
        // REEXECUTE: the line feed is seen again in s_header_almost_done
        st := ValueLws;
      }
      TookFlush(s, StepValue(c, data[p]));
      ThroughOne(before, from, s, StepValue(c, data[p]));
    }

    /** The value has been read from `from` to p without a line end, or is too long to be looked through. */
    ghost predicate Scanned(v: Parser, from: nat)
      reads this`st, this`hs, this`index, this`flags, this`length, this`upgrade, this`errno, this`out, this`data, this`marks, this`p
    {
      from <= p <= |data| && InBounds(p) && errno == Ok && MarksFit(st, marks) && st == Value &&
      (marks.MarkAt? ==> marks.at <= from) &&
      ((Inside(v, from, Value, ValueData) && forall i :: from <= i < p ==> data[i] != CR && data[i] != LF) ||
       (p == |data| && exists q :: LongValue(v, from, q, from)))
    }

    lemma LongerValue(v: Parser, from: nat, q: nat, r: nat)
      requires LongValue(v, from, q, r) && forall i :: from <= i < r ==> data[i] != CR && data[i] != LF
      ensures LongValue(v, from, q, from)
    {
      hide Run;
    }

    lemma ScanStarts()
      requires Ready() && st == Value && (marks.MarkAt? ==> marks.at <= p)
      ensures Scanned(ValueAt(p), p)
    {
      hide Run, PendingAt;
      InsideAtStart(Value, ValueData);
    }

    /** A character of the value, or all of the rest if it does not matter. */
    method ScanStep(ghost before: Parser, ghost start: nat)
      requires Scanned(before, start) && p < |data| && data[p] != CR && data[p] != LF
      modifies this`p, this`hs, this`index, this`length, this`flags, this`errno
      ensures errno == Ok ==> Scanned(before, start) && old(p) < p
      ensures errno != Ok ==> p == old(p) && InBounds(p) && Through(before, start) && errno != HeaderOverflow
    {
      hide Through, PendingAt, Run, LongValue;
      if hs == General {
        ghost var r := p;
        SkipValue(before, start);
        if LongValue(before, start, r + HTTP_MAX_HEADER_SIZE, r) {
          LongerValue(before, start, r + HTTP_MAX_HEADER_SIZE, r);
        }
      } else {
        ValueByte(before, start);
      }
    }

    lemma UseScanned(v: Parser, from: nat)
      requires Scanned(v, from)
      ensures from <= p <= |data| && InBounds(p) && errno == Ok && MarksFit(st, marks) && st == Value
      ensures marks.MarkAt? ==> marks.at <= from
    {
    }

    /** Goes on to the end of the value or of the data, or fails on the way. */
    method ScanValue(ghost before: Parser)
      requires Ready() && st == Value && before == ValueAt(p)
      modifies this`p, this`hs, this`index, this`length, this`flags, this`errno
      ensures old(p) <= p <= |data| && InBounds(p)
      ensures errno != Ok ==> Through(before, old(p)) && errno != HeaderOverflow
      ensures errno == Ok ==> Scanned(before, old(p)) && (p < |data| ==> data[p] == CR || data[p] == LF)
    {
      hide Through, PendingAt, Run, Scanned, MarksFit;
      var start := p;
      ScanStarts();
      UseScanned(before, start);
      while p < |data| && data[p] != CR && data[p] != LF
        invariant start <= p <= |data| && InBounds(p) && Scanned(before, start)
        decreases |data| - p
      {
        ScanStep(before, start);
        if errno != Ok {
          return;
        }
        UseScanned(before, start);
      }
      UseScanned(before, start);
    }

    /** The end of the line or of the data, when nread has counted what was scanned. */
    method LeaveValue(ghost before: Parser, ghost start: nat, endsInCr: bool)
      requires start <= p <= |data| && start < |data| && errno == Ok
      requires if endsInCr then Through(before, start) && InBounds(p) && p < |data| && st !in {ChunkSizeStart, Field, Value}
        else Inside(before, start, Value, ValueData) && MarksFit(st, marks) && (marks.MarkAt? ==> marks.at <= start) && (p < |data| ==> data[p] == LF)
      modifies this`p, this`st, this`out, this`marks
      ensures Through(before, start) && InBounds(p) && errno == Ok && st != ChunkSizeStart
      ensures if old(p) == |data| then p == |data| - 1 && st == Value else p == old(p) && st !in {Field, Value}
    {
      hide Through, PendingAt, Run;
      if p == |data| {
        BackUp(before, start, ValueData);
      } else if !endsInCr {
        ValueEnds(before, start);
      }
    }

    method StateValue()
      requires Ready() && st == Value && 0 < nread <= HTTP_MAX_HEADER_SIZE
      modifies this`p, this`st, this`hs, this`index, this`length, this`flags, this`nread, this`errno, this`out, this`marks
      ensures errno == HeaderOverflow || Through(old(ValueAt(p)), old(p))
      ensures p <= |data| && InBounds(p) && Tallied(old(ValueAt(p)), old(nread) - 1, old(p)) && SizeLineNew()
    {
      hide Through, PendingAt, Run, Scanned, LongValue, Inside, MarksFit, LineCount, Tallied;
      ghost var before, n := ValueAt(p), nread - 1;
      var start := p;
      ScanValue(before);
      if errno != Ok {
        NothingTallied(before, n, start);
        return;
      }
      ValueCounted(before, n, start);
      UseScanned(before, start);
      ghost var q := p;
      var endsInCr := p < |data| && data[p] == CR;
      if endsInCr {
        ShortInside(before, start);
        ValueEnds(before, start);
      }
      var overflow := CountHeaderSize(p - start);
      if overflow {
        errno := HeaderOverflow;
        LineTooLong(before, n, start, q);
      } else {
        LeaveValue(before, start, endsInCr);
        LineTallied(before, n, start, q);
      }
    }

    lemma NothingTallied(v: Parser, n: nat, from: nat)
      requires errno != Ok && errno != HeaderOverflow
      ensures Tallied(v, n, from)
    {
    }

    lemma ShortInside(v: Parser, from: nat)
      requires Scanned(v, from) && p < |data|
      ensures Inside(v, from, Value, ValueData)
    {
      hide Run, PendingAt;
    }

    lemma {:induction false} ValueCounted(v: Parser, n: nat, from: nat)
      requires Scanned(v, from) && from < |data| && v.core.st == Value && n < HTTP_MAX_HEADER_SIZE
      ensures LineCount(v, n, from, p)
      ensures n + 1 + (p - from) <= HTTP_MAX_HEADER_SIZE ==> Inside(v, from, Value, ValueData)
    {
      hide Run, Fits, HeaderCount, PendingAt, Exceeds;
      if Inside(v, from, Value, ValueData) && forall i :: from <= i < p ==> data[i] != CR && data[i] != LF {
        InsideCounts(v, n, from);
      } else {
        var q :| LongValue(v, from, q, from);
        LongExceeds(v, n, from, q);
      }
    }

    lemma {:induction false} InsideCounts(v: Parser, n: nat, from: nat)
      requires Inside(v, from, Value, ValueData) && from < |data| && v.core.st == Value && n < HTTP_MAX_HEADER_SIZE
      requires forall i :: from <= i < p ==> data[i] != CR && data[i] != LF
      ensures LineCount(v, n, from, p)
    {
      hide Run, Fits, HeaderCount, PendingAt, LineCount;
      ValueCounts(cfg, v, n, data[from..p]);
      LineCounts(v, n, from, p);
    }

    lemma {:induction false} LongExceeds(v: Parser, n: nat, from: nat, q: nat)
      requires LongValue(v, from, q, from) && v.core.st == Value && n < HTTP_MAX_HEADER_SIZE
      ensures Exceeds(cfg, v, n, data[from..])
    {
      hide Run, Fits, HeaderCount;
      ValueCounts(cfg, v, n, data[from..q]);
      ValueGoesOn(cfg, v, data[from..q]);
      LineCounts(v, n, from, q);
    }

    // ---- bodies ----

    /** MARK(body), and p goes to the last of n bytes. */
    method MarkBody(n: nat)
      requires 0 < n && p + n <= |data| && InBounds(p) && (marks.NoMark? || Marked(marks, BodyData))
      modifies this`p, this`marks
      ensures p == old(p) + n - 1 && InBounds(p) && Marked(marks, BodyData)
      ensures PendingAt(marks, data, p + 1) == old(PendingAt(marks, data, p)) + BodyEvents(data[old(p)..p + 1])
    {
      hide PendingAt;
      SetMark(BodyData);
      PendingGrows(marks, data, p, p + n, BodyData);
      p := p + n - 1;
    }

    /** Takes as much of a body as there is data for. */
    method TakeBody()
      requires p < |data| && InBounds(p) && (marks.NoMark? || Marked(marks, BodyData)) && length > 0
      modifies this`p, this`length, this`marks
      ensures old(p) <= p < |data| && InBounds(p) && Marked(marks, BodyData)
      ensures old(length) == length + |data[old(p)..p + 1]| && (length > 0 ==> p == |data| - 1)
      ensures PendingAt(marks, data, p + 1) == old(PendingAt(marks, data, p)) + BodyEvents(data[old(p)..p + 1])
    {
      hide PendingAt;
      var toRead := |data| - p;
      if length < toRead {
        toRead := length;
      }
      MarkBody(toRead);
      length := length - toRead;
    }

    /** The body is complete: it is delivered, and the message ends. */
    method FinishBody(ghost s: Parser, ghost from: nat)
      requires from <= p < |data| && InBounds(p) && Marked(marks, BodyData) && errno == Ok && length == 0
      requires s.core.errno == Ok && s.core.st == BodyIdentity && s.core.length == |data[from..p + 1]|
      requires CoreNow() == s.core.(length := 0) && out == s.out
      requires PendingAt(marks, data, p + 1) == s.pend + BodyEvents(data[from..p + 1])
      modifies this`st, this`out, this`marks
      ensures Through(s, from) && errno == Ok && InBounds(p) && st in {Dead, StartReq, StartRes}
    {
      hide Took, PendingAt, Run, NewMessage, Through, DataEvents, EndMessage, MarksFit, BodyEvents;
      ghost var seg := BodyEvents(data[from..p + 1]);
      st := MessageDone;
      CallbackData(BodyData, p + 1);
      NothingPending();
      ghost var t := ValueAt(p);
      CompleteMessage();
      TookCompletes(t);
      BodyThrough(s, from, t, seg);
    }

    lemma TookCompletes(t: Parser)
      requires Took(t, EndMessage(cfg, t.core)) && t.core.errno == Ok && t.pend == []
      ensures errno == Ok && InBounds(p) && MarksFit(st, marks)
      ensures ValueAt(p + 1) == Parser(t.core.(st := NewMessage(cfg, t.core)), t.out + [MessageComplete], [])
    {
      hide NewMessage;
    }

    lemma BodyThrough(s: Parser, from: nat, t: Parser, seg: seq<Event>)
      requires from <= p < |data| && InBounds(p) && errno == Ok && MarksFit(st, marks)
      requires s.core.errno == Ok && s.core.st == BodyIdentity && s.core.length == |data[from..p + 1]|
      requires seg == BodyEvents(data[from..p + 1]) && t == Parser(s.core.(length := 0, st := MessageDone), s.out + (s.pend + seg), [])
      requires ValueAt(p + 1) == Parser(t.core.(st := NewMessage(cfg, t.core)), t.out + [MessageComplete], [])
      ensures Through(s, from)
    {
      hide PendingAt, Run, NewMessage, Through, DataEvents;
      BodyDone(cfg, s, data, from, p);
      MakeThrough(s, from);
    }

    method StateBodyIdentity()
      requires Ready() && st == BodyIdentity && length > 0
      modifies this`p, this`st, this`length, this`out, this`marks
      ensures Through(old(ValueAt(p)), old(p)) && errno == Ok && InBounds(p) && old(p) <= p < |data|
      ensures st !in {ChunkSizeStart, Field, Value}
      ensures p - old(p) < old(length)
    {
      hide PendingAt, Run, Through;
      ghost var s, from := ValueAt(p), p;
      TakeBody();
      if length == 0 {
        FinishBody(s, from);
      } else {
        PartOfBody(cfg, s, data[from..p + 1]);
        MakeThrough(s, from);
      }
    }

    /** All of a chunk has been taken, or a part of it. */
    lemma ChunkThrough(s: Parser, from: nat)
      requires from <= p < |data| && InBounds(p) && Marked(marks, BodyData) && s.core.errno == Ok && s.core.st == ChunkData
      requires s.core.length == length + |data[from..p + 1]| && out == s.out
      requires CoreNow() == s.core.(length := length, st := if length == 0 then ChunkDataAlmostDone else ChunkData)
      requires PendingAt(marks, data, p + 1) == s.pend + BodyEvents(data[from..p + 1])
      ensures Through(s, from)
    {
      hide PendingAt, Run, Through, DataEvents;
      if length == 0 {
        ChunkDataRuns(cfg, s, data[from..p + 1]);
      } else {
        PartOfChunk(cfg, s, data[from..p + 1]);
      }
      MakeThrough(s, from);
    }

    method StateChunkData()
      requires Ready() && st == ChunkData && length > 0
      modifies this`p, this`st, this`length, this`marks
      ensures Through(old(ValueAt(p)), old(p)) && errno == Ok && InBounds(p) && old(p) <= p < |data|
      ensures st !in {ChunkSizeStart, Field, Value}
      ensures p - old(p) < old(length)
    {
      hide PendingAt, Run, Through, DataEvents;
      ghost var s, from := ValueAt(p), p;
      TakeBody();
      if length == 0 {
        st := ChunkDataAlmostDone;
      }
      ChunkThrough(s, from);
    }

    method StateBodyIdentityEof()
      requires Ready() && st == BodyIdentityEof
      modifies this`p, this`marks
      ensures Through(old(ValueAt(p)), old(p)) && errno == Ok && InBounds(p) && old(p) <= p < |data|
      ensures st !in {ChunkSizeStart, Field, Value}
    {
      hide PendingAt, Run;
      ghost var s, from := ValueAt(p), p;
      MarkBody(|data| - p);
      EofBodyRuns(cfg, s, data[from..p + 1]);
      MakeThrough(s, from);
    }

    // ---- one turn of the main loop ----

    /** The states of headers that look at one byte. */
    method OneHeaderByte()
      requires Ready() && st in {Dead, FieldStart, DiscardWs, DiscardWsAlmostDone, DiscardLws, ValueLws, HeaderAlmostDone, HeadersAlmostDone}
      modifies this`st, this`hs, this`index, this`length, this`out, this`nread, this`upgrade, this`flags, this`errno, this`marks
      ensures Took(old(ValueAt(p)), StepCore(cfg, old(CoreNow()), data[p])) && SizeLineNew()
      ensures nread == if Resets(old(CoreNow()), data[p]) then 0 else old(nread)
    {
      hide Took, PendingAt, StepFieldStart, StepDiscardWs, StepDiscardLws, StepValueLws, Expect, StepHeadersAlmostDone;
      var ch := data[p];
      match st
      case Dead => StateDead(ch);
      case FieldStart => StateFieldStart(ch);
      case DiscardWs => StateDiscardWs(ch);
      case DiscardWsAlmostDone => ExpectByte(ch, LF, DiscardLws);
      case DiscardLws => StateDiscardLws(ch);
      case ValueLws => StateValueLws(ch);
      case HeaderAlmostDone => ExpectByte(ch, LF, ValueLws);
      case HeadersAlmostDone => StateHeadersAlmostDone(ch);
    }

    /** The states of the chunked coding that look at one byte. */
    method OneChunkByte()
      requires Ready() && st in {ChunkSizeStart, ChunkSize, ChunkParameters, ChunkSizeAlmostDone, ChunkDataAlmostDone, ChunkDataDone}
      requires st == ChunkSizeStart ==> nread == 1 && flags.chunked
      modifies this`st, this`length, this`out, this`nread, this`flags, this`errno, this`marks
      ensures Took(old(ValueAt(p)), StepCore(cfg, old(CoreNow()), data[p])) && SizeLineNew()
      ensures nread == if Resets(old(CoreNow()), data[p]) then 0 else old(nread)
    {
      hide Took, PendingAt, StepChunkSizeStart, StepChunkSize, StepChunkSizeAlmostDone;
      var ch := data[p];
      match st
      case ChunkSizeStart => StateChunkSizeStart(ch);
      case ChunkSize => StateChunkSize(ch);
      case ChunkParameters => StateChunkParameters(ch);
      case ChunkSizeAlmostDone => StateChunkSizeAlmostDone(ch);
      case ChunkDataAlmostDone => StateChunkDataAlmostDone(ch);
      case ChunkDataDone => StateChunkDataDone(ch);
    }

    lemma TookIsThrough(s: Parser)
      requires p < |data| && !Stopped(s.core) && Took(s, StepCore(cfg, s.core, data[p]))
      ensures Through(s, p) && InBounds(p) && errno != HeaderOverflow
    {
      hide StepCore;
      RunFrom(s, p);
      ThroughOne(s, p, s, StepCore(cfg, s.core, data[p]));
      NoOverflow(cfg, s.core, data[p]);
    }

    /** The states that look at one byte. */
    method OneByte()
      requires Ready() && Sound(CoreNow()) && !(st in {Field, Value, BodyIdentity, BodyIdentityEof, ChunkData})
      requires st == ChunkSizeStart ==> nread == 1
      modifies this`st, this`hs, this`index, this`length, this`out, this`nread, this`upgrade, this`flags, this`errno, this`marks
      ensures Through(old(ValueAt(p)), p) && InBounds(p) && errno != HeaderOverflow && SizeLineNew()
      ensures nread == if Resets(old(CoreNow()), data[p]) then 0 else old(nread)
    {
      hide Took, Through, PendingAt, StepCore, Run, Sound;
      ghost var s := ValueAt(p);
      ReadyStates();
      if st in {ChunkSizeStart, ChunkSize, ChunkParameters, ChunkSizeAlmostDone, ChunkDataAlmostDone, ChunkDataDone} {
        OneChunkByte();
      } else {
        OneHeaderByte();
      }
      TookIsThrough(s);
    }

    lemma ReadyStates()
      requires Ready() && Sound(CoreNow())
      ensures st in {Field, Value, BodyIdentity, BodyIdentityEof, ChunkData,
        ChunkSizeStart, ChunkSize, ChunkParameters, ChunkSizeAlmostDone, ChunkDataAlmostDone, ChunkDataDone,
        Dead, FieldStart, DiscardWs, DiscardWsAlmostDone, DiscardLws, ValueLws, HeaderAlmostDone, HeadersAlmostDone}
      ensures (st in {BodyIdentity, ChunkData} ==> length > 0) && (st == ChunkSizeStart ==> flags.chunked)
    {
      hide NameState, ValueState;
    }

    /** nread before the byte at p was counted. */
    ghost function Before(): int
      reads this`st, this`nread
    {
      if ParsingHeader(st) then nread - 1 else nread
    }

    /** The states that take as much of a body as there is; its bytes are not counted. */
    method BodyBytes()
      requires Ready() && st in {BodyIdentity, BodyIdentityEof, ChunkData} && (st != BodyIdentityEof ==> length > 0)
      requires nread <= HTTP_MAX_HEADER_SIZE
      modifies this`p, this`st, this`length, this`out, this`marks
      ensures p <= |data| && InBounds(p) && Tallied(old(ValueAt(p)), nread, old(p)) && errno == Ok && st != ChunkSizeStart
      ensures Through(old(ValueAt(p)), old(p))
    {
      hide Took, Through, PendingAt, Run, Fits, HeaderCount, Exceeds;
      ghost var v, from := ValueAt(p), p;
      if st == BodyIdentity {
        StateBodyIdentity();
      } else if st == BodyIdentityEof {
        StateBodyIdentityEof();
      } else {
        StateChunkData();
      }
      BodyCounts(cfg, v, nread, data[from..p + 1]);
    }

    /** The switch on the state. */
    method Dispatch()
      requires Ready() && Sound(CoreNow()) && (ParsingHeader(st) ==> nread > 0) && (st == ChunkSizeStart ==> nread == 1)
      requires nread <= HTTP_MAX_HEADER_SIZE
      modifies this`p, this`st, this`hs, this`index, this`length, this`out, this`nread, this`upgrade, this`flags, this`errno, this`marks
      ensures p <= |data| && InBounds(p) && Tallied(old(ValueAt(p)), old(Before()), old(p)) && SizeLineNew()
      ensures errno != HeaderOverflow ==> Through(old(ValueAt(p)), old(p))
    {
      hide Took, Through, PendingAt, StepCore, Run, Sound, Fits, HeaderCount, Exceeds, TalliedTo;
      ReadyStates();
      if st == Field {
        StateField();
      } else if st == Value {
        StateValue();
      } else if st in {BodyIdentity, BodyIdentityEof, ChunkData} {
        BodyBytes();
      } else {
        ghost var v, n := ValueAt(p), Before();
        OneByte();
        ByteTallied(v, n);
      }
    }

    lemma {:induction false} ByteTallied(v: Parser, n: nat)
      requires p < |data| && !Stopped(v.core) && nread <= HTTP_MAX_HEADER_SIZE && n <= HTTP_MAX_HEADER_SIZE
      requires ParsingHeader(v.core.st) ==> n + 1 <= HTTP_MAX_HEADER_SIZE
      requires nread == CountAfter(n, v.core, data[p]) && errno != HeaderOverflow
      ensures Tallied(v, n, p)
    {
      hide Fits, HeaderCount, Exceeds;
      assert data[p..p + 1] == [data[p]];
      OneCounts(cfg, v, n, data[p]);
    }

    /** At the head of the main loop: the bytes before p have been taken. */
    ghost predicate Going(s: Parser, n: nat)
      reads this
    {
      p <= |data| && InBounds(p) && MarksFit(st, marks) && errno == Ok && Sound(CoreNow()) && SizeLineNew() &&
      ValueAt(p) == Run(cfg, s, data[..p]) && Taken(cfg, s, data[..p]) == p && Tally(s, n)
    }

    /** nread after the bytes before p. */
    ghost predicate Tally(s: Parser, n: nat)
      reads this`p, this`data, this`nread, this`st
    {
      p <= |data| && TalliedTo(s, n, data[..p], p == |data|)
    }

    /** One turn of the loop, in terms of the whole call. */
    lemma {:induction false} OneTurn(s: Parser, v: Parser, from: nat)
      requires Through(v, from) && from <= |data| && v == Run(cfg, s, data[..from]) && Taken(cfg, s, data[..from]) == from
      requires !Stopped(v.core) && Sound(v.core)
      ensures from <= p < |data| && InBounds(p) && InBounds(p + 1)
      ensures errno == Ok ==> MarksFit(st, marks) && Sound(CoreNow())
      ensures errno == Ok ==>
        ValueAt(p + 1) == Run(cfg, s, data[..p + 1]) && Taken(cfg, s, data[..p + 1]) == p + 1
      ensures errno != Ok ==> ValueAt(p) == Run(cfg, s, data) && Taken(cfg, s, data) == p
    {
      hide Run, Taken, Sound, Outside, PendingAt, StepCore;
      var seg := data[from..p + 1];
      assert data[..p + 1] == data[..from] + seg;
      RunAppend(cfg, s, data[..from], seg);
      TakenAppend(cfg, s, data[..from], seg);
      TakenMost(cfg, v, data[from..p], data[p]);
      assert seg == data[from..p] + [data[p]];
      AlwaysSound(cfg, v, seg);
      if errno != Ok {
        assert data == data[..p + 1] + data[p + 1..];
        RunAppend(cfg, s, data[..p + 1], data[p + 1..]);
        TakenAppend(cfg, s, data[..p + 1], data[p + 1..]);
        FailedTakesNone(cfg, Run(cfg, s, data[..p + 1]), data[p + 1..]);
      }
    }

    lemma {:induction false} GoingIsReady(s: Parser, n: nat)
      requires Going(s, n) && p < |data| && !Outside(CoreNow())
      ensures Ready() && Sound(CoreNow()) && !Stopped(CoreNow()) && ValueAt(p).core == CoreNow() && SizeLineNew()
      ensures ValueAt(p) == Run(cfg, s, data[..p]) && Taken(cfg, s, data[..p]) == p
      ensures Fits(cfg, s, n, data[..p]) && nread == HeaderCount(cfg, s, n, data[..p]) && nread <= HTTP_MAX_HEADER_SIZE
    {
    }

    /** Counts the byte if it belongs to the headers, and takes it. */
    method CountAndDispatch()
      requires Ready() && Sound(CoreNow()) && SizeLineNew() && nread <= HTTP_MAX_HEADER_SIZE
      modifies this`p, this`st, this`hs, this`index, this`length, this`out, this`nread, this`upgrade, this`flags, this`errno, this`marks
      ensures p <= |data| && InBounds(p) && Tallied(old(ValueAt(p)), old(nread), old(p)) && SizeLineNew()
      ensures errno != HeaderOverflow ==> Through(old(ValueAt(p)), old(p))
    {
      hide Through, PendingAt, Run, Sound, Took, MarksFit, Fits, HeaderCount, Exceeds;
      ghost var v, n := ValueAt(p), nread;
      if ParsingHeader(st) {
        var overflow := CountHeaderSize(1);
        if overflow {
          FirstTooMany(cfg, v, n, data[p..]);
          errno := HeaderOverflow;
          return;
        }
      }
      Dispatch();
    }

    /** The parser has failed inside a call. */
    ghost predicate Failed(s: Parser, n: nat)
      reads this
    {
      errno != Ok && p <= |data| && InBounds(p) &&
      if errno == HeaderOverflow then Exceeds(cfg, s, n, data)
      else ValueAt(p) == Run(cfg, s, data) && Taken(cfg, s, data) == p
    }

    lemma {:induction false} OverflowFails(s: Parser, n: nat, v: Parser, h: nat, from: nat)
      requires p <= |data| && InBounds(p) && errno == HeaderOverflow && from <= |data| && Tallied(v, h, from)
      requires v == Run(cfg, s, data[..from]) && h == HeaderCount(cfg, s, n, data[..from])
      ensures Failed(s, n)
    {
      hide Run, Fits, HeaderCount, Exceeds, PendingAt, Taken;
      assert data == data[..from] + data[from..];
      ExceedsBehind(cfg, s, n, data[..from], data[from..]);
    }

    lemma {:induction false} StepFails(s: Parser, n: nat)
      requires p <= |data| && InBounds(p) && errno != Ok && errno != HeaderOverflow
      requires ValueAt(p) == Run(cfg, s, data) && Taken(cfg, s, data) == p
      ensures Failed(s, n)
    {
    }

    /** One byte, or as many as its state takes. Returns whether the parser goes on. */
    method Turn(ghost s: Parser, ghost n: nat) returns (more: bool)
      requires Going(s, n) && p < |data| && !Outside(CoreNow())
      modifies this`p, this`st, this`hs, this`index, this`length, this`out, this`nread, this`upgrade, this`flags, this`errno, this`marks
      ensures if more then Going(s, n) && old(p) < p <= |data| else Failed(s, n)
    {
      hide *;
      GoingIsReady(s, n);
      ghost var v, from, before := ValueAt(p), p, nread;
      CountAndDispatch();
      if errno == HeaderOverflow {
        OverflowFails(s, n, v, before, from);
        return false;
      }
      OneTurn(s, v, from);
      if errno != Ok {
        StepFails(s, n);
        return false;
      }
      TallyGoesOn(s, n, v, before, from);
      p := p + 1;
      GoesOn(s, n);
      more := true;
    }

    lemma {:induction false} TallyGoesOn(s: Parser, n: nat, v: Parser, h: nat, from: nat)
      requires errno == Ok && Tallied(v, h, from) && from <= |data|
      requires v == Run(cfg, s, data[..from]) && h == HeaderCount(cfg, s, n, data[..from]) && Fits(cfg, s, n, data[..from])
      ensures from <= p < |data| && nread <= HTTP_MAX_HEADER_SIZE && Fits(cfg, s, n, data[..p + 1])
      ensures var k := HeaderCount(cfg, s, n, data[..p + 1]); k <= nread <= k + if p + 1 == |data| && st in {Field, Value} then 1 else 0
    {
      hide Run, Fits, HeaderCount;
      assert data[..p + 1] == data[..from] + data[from..p + 1];
      CountAppend(cfg, s, n, data[..from], data[from..p + 1]);
    }

    lemma {:induction false} GoesOn(s: Parser, n: nat)
      requires p <= |data| && InBounds(p) && MarksFit(st, marks) && errno == Ok && Sound(CoreNow()) && SizeLineNew()
      requires ValueAt(p) == Run(cfg, s, data[..p]) && Taken(cfg, s, data[..p]) == p
      requires nread <= HTTP_MAX_HEADER_SIZE && Fits(cfg, s, n, data[..p])
      requires var k := HeaderCount(cfg, s, n, data[..p]); k <= nread <= k + if p == |data| && st in {Field, Value} then 1 else 0
      ensures Going(s, n)
    {
      hide Run, Fits, HeaderCount;
    }

    /** The marks at the beginning of a call. */
    method BeginCall(input: seq<Octet>)
      requires input != [] && errno == Ok && Sound(CoreNow()) && SizeLineNew() && nread <= HTTP_MAX_HEADER_SIZE
      modifies this`data, this`p, this`marks
      ensures data == input && p == 0 && Going(Parser(CoreNow(), out, []), nread)
    {
      hide Sound;
      data, p, marks := input, 0, NoMark;
      if st == Field {
        marks := MarkAt(FieldData, 0);
      }
      if st == Value {
        marks := MarkAt(ValueData, 0);
      }
      assert data[..0] == [] && data[0..0] == [];
    }

    /** The data callbacks for what is left over at the end of a call. */
    method EndOfCall(ghost s: Parser, ghost n: nat)
      requires Going(s, n) && (p == |data| || Outside(CoreNow()))
      modifies this`out, this`marks
      ensures Parser(CoreNow(), out, []) == EndCall(Run(cfg, s, data)) && Taken(cfg, s, data) == p
    {
      hide Run, Taken, Sound, DataEvents;
      assert data == data[..p] + data[p..];
      RunAppend(cfg, s, data[..p], data[p..]);
      TakenAppend(cfg, s, data[..p], data[p..]);
      NoMore(cfg, Run(cfg, s, data[..p]), data[p..]);
      if Marked(marks, FieldData) {
        CallbackData(FieldData, p);
      } else if Marked(marks, ValueData) {
        CallbackData(ValueData, p);
      } else {
        CallbackData(BodyData, p);
      }
    }

    // http_parser_execute. Apart from a header overflow, a call does what the byte-wise parser does, and returns how
    // many bytes were taken. The parser fails with an overflow if the header bytes exceed the limit, and only if
    // they do, or reach it exactly in a call that ends inside a name or a value.
    method Execute(input: seq<Octet>) returns (n: nat)
      requires errno == Ok ==> Sound(CoreNow()) && SizeLineNew() && nread <= HTTP_MAX_HEADER_SIZE
      modifies this
      ensures errno != HeaderOverflow ==>
        Parser(CoreNow(), out, []) == Call(cfg, old(Parser(CoreNow(), out, [])), input)
      ensures input == [] ==> n == (if errno != old(errno) then 1 else 0) && nread == old(nread)
      ensures input != [] && errno != HeaderOverflow ==> n == Taken(cfg, old(Parser(CoreNow(), out, [])), input)
      ensures input != [] && errno == Ok ==> Fits(cfg, old(Parser(CoreNow(), out, [])), old(nread), input)
      ensures input != [] && errno == Ok ==>
        var h := HeaderCount(cfg, old(Parser(CoreNow(), out, [])), old(nread), input);
        h <= nread <= h + if st in {Field, Value} then 1 else 0
      ensures errno == HeaderOverflow && old(errno) == Ok ==> Exceeds(cfg, old(Parser(CoreNow(), out, [])), old(nread), input)
      ensures errno == Ok ==> Sound(CoreNow()) && SizeLineNew() && nread <= HTTP_MAX_HEADER_SIZE
    {
      hide Run, Taken, Going, Sound, PendingAt, Fits, HeaderCount, Exceeds;
      ghost var s, n0 := Parser(CoreNow(), out, []), nread;
      if errno != Ok {
        FailedTakesNone(cfg, s, input);
        return 0;
      }
      if |input| == 0 {
        if st == BodyIdentityEof {
          CallbackNotify(MessageComplete);
          return 0;
        }
        if st == Dead || st == StartReq || st == StartRes {
          return 0;
        }
        errno := InvalidEofState;
        return 1;
      }
      BeginCall(input);
      var more := true;
      while more && p < |data| && !(st == StartReq || st == StartRes || (st == Dead && upgrade))
        invariant data == input && p <= |data|
        invariant if more then Going(s, n0) else Failed(s, n0)
        decreases if more then |data| - p + 1 else 0
      {
        more := Turn(s, n0);
      }
      n := p;
      if more {
        GoingSound(s, n0);
        EndOfCall(s, n0);
      }
    }

    lemma {:induction false} GoingSound(s: Parser, n: nat)
      requires Going(s, n) && (p == |data| || Outside(CoreNow()))
      ensures Sound(CoreNow()) && errno == Ok && SizeLineNew() && nread <= HTTP_MAX_HEADER_SIZE && Fits(cfg, s, n, data)
      ensures var h := HeaderCount(cfg, s, n, data); h <= nread <= h + if st in {Field, Value} then 1 else 0
    {
      hide Sound, Run, Fits, HeaderCount, PendingAt, Taken;
      assert data == data[..p] + data[p..];
      CountAppend(cfg, s, n, data[..p], data[p..]);
      if p == |data| {
        assert data[p..] == [];
        NothingCounts(cfg, Run(cfg, s, data[..p]), HeaderCount(cfg, s, n, data[..p]));
      } else {
        StoppedCounts(cfg, Run(cfg, s, data[..p]), HeaderCount(cfg, s, n, data[..p]), data[p..]);
      }
    }

    lemma DifferentCore(before: Parser, e: Event, c: Core, d: Did)
      requires Took(Parser(c, before.out + [e], before.pend), d)
      ensures Took(before.(out := before.out + [e]), d)
    {
    }

    lemma EndCore(before: Parser, e: Event, c: Core)
      requires Took(Parser(c.(st := MessageDone), before.out + [e], before.pend), EndMessage(cfg, c))
      ensures Took(before.(out := before.out + [e]), EndMessage(cfg, c))
    {
    }
  }

  lemma {:induction false} RunOneMore(cfg: Config, s: Parser, data: seq<Octet>, from: nat, p: nat)
    requires from <= p < |data|
    ensures var r := Run(cfg, s, data[from..p]); !Stopped(r.core) ==> Run(cfg, s, data[from..p + 1]) == Step(cfg, r, data[p])
  {
    hide *;
    assert data[from..p + 1] == data[from..p] + [data[p]];
    RunAppend(cfg, s, data[from..p], [data[p]]);
    var r := Run(cfg, s, data[from..p]);
    if !Stopped(r.core) {
      OneStep(cfg, r, data[p]);
    }
  }

  lemma EndIgnoresState(cfg: Config, c: Core, st: St)
    ensures EndMessage(cfg, c.(st := st)) == EndMessage(cfg, c)
  {
  }

  lemma ValueStartActs(c: Core, ch: Octet)
    requires c.errno == Ok
    ensures StepValueStart(c.(st := Value, index := 0), ch) == StepValueStart(c, ch)
    ensures StepValueStart(c, ch).core.st == Value
    ensures StepValueStart(c, ch).act ==
      if StepValueStart(c, ch).core.errno == Ok then Act([Data(ValueData, ch)], false, []) else NOTHING
  {
    hide ValueFirst, Lower;
  }

  lemma ValueActs(c: Core, ch: Octet)
    requires c.errno == Ok && c.st == Value && ch != CR && ch != LF
    ensures StepValue(c, ch).core.st == Value && StepValue(c, ch).core.errno != HeaderOverflow
    ensures StepValue(c, ch).act ==
      if StepValue(c, ch).core.errno == Ok then Act([Data(ValueData, ch)], false, []) else NOTHING
  {
    hide ValueChar, Lower, SetConnection, TooLong;
  }

  lemma {:induction false} GeneralRuns(cfg: Config, s: Parser, data: seq<Octet>)
    requires s.core.errno == Ok && s.core.st == Value && s.core.hs == General && CR !in data && LF !in data
    ensures Run(cfg, s, data) == s.(pend := s.pend + DataEvents(ValueData, data))
    decreases |data|
  {
    if data == [] {
      assert s.pend + DataEvents(ValueData, data) == s.pend;
    } else {
      EventsHead(ValueData, data, s.pend);
      assert s.out + [] == s.out;
      assert Step(cfg, s, data[0]) == s.(pend := s.pend + [Data(ValueData, data[0])]);
      GeneralRuns(cfg, Step(cfg, s, data[0]), data[1..]);
    }
  }

  lemma NoOverflow(cfg: Config, c: Core, ch: Octet)
    ensures !Stopped(c) ==> StepCore(cfg, c, ch).core.errno != HeaderOverflow
  {
    hide StepCore;
    if !Stopped(c) {
      StepIsOrderly(cfg, c, ch);
    }
  }

  /** A parser that has not stopped had not stopped one byte earlier. */
  lemma {:induction false} NotStoppedBefore(cfg: Config, s: Parser, data: seq<Octet>, from: nat, p: nat)
    requires from <= p < |data|
    ensures Stopped(Run(cfg, s, data[from..p]).core) ==> Run(cfg, s, data[from..p + 1]) == Run(cfg, s, data[from..p])
  {
    hide Outside;
    assert data[from..p + 1] == data[from..p] + [data[p]];
    RunAppend(cfg, s, data[from..p], [data[p]]);
  }

  lemma {:induction false} NoMore(cfg: Config, s: Parser, data: seq<Octet>)
    requires data == [] || Stopped(s.core)
    ensures Run(cfg, s, data) == s && Taken(cfg, s, data) == 0
  {
  }

  /** A body that has just become complete. */
  lemma {:induction false} BodyDone(cfg: Config, s: Parser, data: seq<Octet>, from: nat, p: nat)
    requires from <= p < |data| && s.core.errno == Ok && s.core.st == BodyIdentity && s.core.length == |data[from..p + 1]|
    ensures var c := s.core.(length := 0, st := MessageDone);
      Run(cfg, s, data[from..p + 1]) ==
      Parser(c.(st := NewMessage(cfg, c)), s.out + (s.pend + BodyEvents(data[from..p + 1])) + [MessageComplete], [])
    ensures !Stopped(Run(cfg, s, data[from..p]).core)
  {
    hide Run, NewMessage;
    WholeBody(cfg, s, data[from..p + 1]);
    PartOfBody(cfg, s, data[from..p]);
  }

  /** If the parser has not stopped before the last byte, then it has taken all but that, and that too if it does not fail. */
  lemma {:induction false} TakenMost(cfg: Config, s: Parser, data: seq<Octet>, ch: Octet)
    requires !Stopped(Run(cfg, s, data).core)
    ensures Taken(cfg, s, data) == |data|
    ensures Taken(cfg, s, data + [ch]) == |data| + if Run(cfg, s, data + [ch]).core.errno == Ok then 1 else 0
  {
    hide StepCore, Outside;
    TakesAll(cfg, s, data);
    TakenAppend(cfg, s, data, [ch]);
    RunAppend(cfg, s, data, [ch]);
    var r := Run(cfg, s, data);
    OneStep(cfg, r, ch);
    assert [ch][1..] == [];
  }

  lemma {:induction false} TakesAll(cfg: Config, s: Parser, data: seq<Octet>)
    requires !Stopped(Run(cfg, s, data).core)
    ensures Taken(cfg, s, data) == |data|
    decreases |data|
  {
    hide StepCore, Outside;
    if data != [] && !Stopped(s.core) {
      OkBefore(cfg, Step(cfg, s, data[0]), data[1..]);
      TakesAll(cfg, Step(cfg, s, data[0]), data[1..]);
    }
  }

  lemma EndHeaderKeeps(c: Core)
    ensures EndHeader(c).errno == c.errno && EndHeader(c).st == c.st
  {
    hide SetConnection;
  }

  lemma BlankResetsNothing(c: Core, ch: Octet)
    requires ch == SP || ch == TAB
    ensures !Resets(c, ch)
  {
  }

  /** A line end that finishes a header as well as the head. */
  lemma EndHeaderResets(c: Core, ch: Octet)
    requires c.st == ValueLws || c.st == DiscardLws
    ensures Resets(EndHeader(c).(st := FieldStart), ch) == Resets(c, ch)
  {
    hide SetConnection;
  }

  lemma HeadersDoneNotifies(cfg: Config, c: Core)
    ensures var d := StepHeadersDone(cfg, c); !d.act.flush && d.act.mark == []
  {
    hide NewMessage, NeedsEof;
  }
}
