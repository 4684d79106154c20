/** Whole messages (sections 3 and 3.3.3 of RFC 7230): any first line, any list of headers, and the body they
    announce, cut anywhere, are delivered exactly as they were written. */
module HttpMessage {
  import opened Ascii
  import opened Options
  import opened HttpTypes
  import opened HttpTrans
  import opened HttpCalls
  import opened HttpSplit
  import opened HttpFraming
  import opened HttpLength
  import opened HttpNames
  import opened HttpLine
  import opened HttpHeaders
  import UrlGrammar
  import HttpLists

  // ---------- the empty line ----------

  /** The notifications of a script that sends nothing else. */
  predicate OnlyNotes(acts: Script)
    decreases acts
  {
    acts.Act? ==> acts.a.Notify? && OnlyNotes(acts.rest)
  }

  function NotesOf(acts: Script): seq<Event>
    requires OnlyNotes(acts)
    decreases acts
  {
    if acts.Nil? then [] else [Note(acts.a.n)] + NotesOf(acts.rest)
  }

  lemma {:induction false} NotesDone(acts: Script, t: seq<Event>, data: seq<Byte>)
    requires OnlyNotes(acts)
    ensures Out(map[], t).DoAll(acts, data, 0) == Out(map[], t + NotesOf(acts))
    decreases acts
  {
    if acts.Act? {
      NotesDone(acts.rest, t + [Note(acts.a.n)], data);
      assert t + [Note(acts.a.n)] + NotesOf(acts.rest) == t + NotesOf(acts);
    } else {
      assert t + [] == t;
    }
  }

  predicate Noting(o: Outcome) {
    (o.Next? || o.Quit? ==> OnlyNotes(o.acts)) && (o.Next? ==> StateOpen(o.p.state).Closed?)
  }

  /** What a byte that only notifies leads to. */
  function Noted(o: Outcome, t: seq<Event>, n: nat): Fed
    requires Noting(o)
  {
    match o
    case Next(q, acts) => Ready(Machine(q, t + NotesOf(acts)))
    case Quit(q, acts) => Left(Machine(q, t + NotesOf(acts)), n)
    case Fail(err) => Broken(err)
    case Asserted => Aborted
  }

  lemma {:induction false} NotedByte(cfg: Config, m: Machine, ch: Byte, o: Outcome)
    requires StateOpen(m.p.state).Closed? && Turn(cfg, m.p, ch) == o && Noting(o)
    ensures Run(cfg, m, [ch]) == Noted(o, m.trace, 1)
  {
    hide Turn;
    SingleByte(cfg, m, ch);
    if o.Next? || o.Quit? {
      NotesDone(o.acts, m.trace, [ch]);
    }
  }

  /** The headers are over: the outcome of the empty line, of `n` bytes. */
  function Over(cfg: Config, p: Parser, n: nat): Outcome {
    AtHeadersAlmostDone(cfg, p.(state := InHeader(HeadersAlmostDone), nread := p.nread + n), LF)
  }

  lemma {:induction false} OverNotes(cfg: Config, p: Parser, n: nat)
    ensures Noting(Over(cfg, p, n))
  {
    hide ShouldKeepAlive, MessageNeedsEof, LengthConflict;
  }

  lemma {:induction false} EmptyLineTurns(cfg: Config, p: Parser)
    requires p.nread + 1 <= cfg.maxHeader
    ensures p.state == InHeader(FieldStart) ==>
              Turn(cfg, p, CR) == Next(p.(state := InHeader(HeadersAlmostDone), nread := p.nread + 1), Nil)
              && Turn(cfg, p, LF) == Over(cfg, p, 1)
    ensures p.state == InHeader(HeadersAlmostDone) ==> Turn(cfg, p, LF) == Over(cfg, p, 1)
  {
    hide AtHeadersAlmostDone;
  }

  lemma {:induction false} EmptyLineRead(cfg: Config, m: Machine, end: seq<Byte>)
    requires m.p.state == InHeader(FieldStart) && IsEnd(end) && m.p.nread + |end| <= cfg.maxHeader
    ensures Noting(Over(cfg, m.p, |end|))
    ensures Run(cfg, m, end) == Noted(Over(cfg, m.p, |end|), m.trace, |end|)
  {
    hide Turn, Run, AtHeadersAlmostDone;
    OverNotes(cfg, m.p, |end|);
    EmptyLineTurns(cfg, m.p);
    if end == [LF] {
      NotedByte(cfg, m, LF, Over(cfg, m.p, 1));
    } else {
      var m1 := Machine(m.p.(state := InHeader(HeadersAlmostDone), nread := m.p.nread + 1), m.trace);
      QuietByte(cfg, m, CR, m1.p);
      EmptyLineTurns(cfg, m1.p);
      NotedByte(cfg, m1, LF, Over(cfg, m1.p, 1));
      assert Over(cfg, m1.p, 1) == Over(cfg, m.p, 2);
      RunConcat(cfg, m, [CR], [LF]);
      assert end == [CR] + [LF];
    }
  }

  /** Headers and the empty line behind them. */
  lemma {:induction false} SectionRead(cfg: Config, m: Machine, hs: seq<Header>, end: seq<Byte>) returns (q: Parser)
    requires m.p.state == InHeader(FieldStart) && IsHeaders(cfg, hs) && Separate(m.trace) && IsEnd(end)
    requires m.p.flags.contentLength ==> !Claims(hs, HasLength)
    requires m.p.nread + |HeaderText(hs)| + |end| <= cfg.maxHeader
    ensures q == NextLine(m.p, FrameAfter(FrameOf(m.p), hs), |HeaderText(hs)|, q) && Noting(Over(cfg, q, |end|))
    ensures Run(cfg, m, HeaderText(hs) + end) == Noted(Over(cfg, q, |end|), m.trace + HeaderEvents(hs), |HeaderText(hs) + end|)
  {
    hide Run, Over, IsHeaders, Claims, FrameAfter, HeaderText, HeaderEvents;
    var q1 := HeadersRead(cfg, m, hs);
    SettleRun(cfg, q1, end);
    q := Settled(q1).p;
    EmptyLineRead(cfg, Settled(q1), end);
    RunConcat(cfg, m, HeaderText(hs), end);
  }

  // ---------- bodies ----------

  /** What follows the headers. */
  datatype Body =
    | Nothing
    | Sized(bytes: seq<Byte>)
    | Chunks(chunks: seq<Chunk>, last: Chunk, trailer: seq<Header>, end: seq<Byte>)
    | UntilClose(bytes: seq<Byte>)

  predicate IsChunks(cfg: Config, b: Body)
    requires b.Chunks?
  {
    (forall i :: 0 <= i < |b.chunks| ==> WellFormed(cfg, b.chunks[i]) && b.chunks[i].data != [])
    && WellFormed(cfg, b.last) && b.last.data == []
    && IsHeaders(cfg, b.trailer) && IsEnd(b.end) && |HeaderText(b.trailer)| + |b.end| <= cfg.maxHeader
  }

  predicate IsBody(cfg: Config, b: Body) { b.Chunks? ==> IsChunks(cfg, b) }

  function BodyText(b: Body): seq<Byte> {
    match b
    case Nothing => []
    case Sized(s) => s
    case Chunks(cs, last, trailer, end) => EncodeAll(cs) + SizeLine(last) + (HeaderText(trailer) + end)
    case UntilClose(s) => s
  }

  function DataEvents(s: seq<Byte>): seq<Event> { if s == [] then [] else [Data(OnBody, s)] }

  function BodyEvents(b: Body): seq<Event> {
    match b
    case Nothing => [Note(MessageComplete)]
    case Sized(s) => DataEvents(s) + [Note(MessageComplete)]
    case Chunks(cs, last, trailer, end) =>
      AllEvents(cs) + [Note(ChunkHeader)] + HeaderEvents(trailer) + [Note(ChunkComplete), Note(MessageComplete)]
    case UntilClose(s) => DataEvents(s)
  }

  /** The body ends with the empty line. */
  predicate AtOnce(b: Body) { b.Nothing? || b == Sized([]) }

  /** The parser behind the empty line. */
  function Opened(p: Parser, s: State): Parser { WithUpgrade(p).(blocks := p.blocks + 1, nread := 0, state := s) }

  /** Only requests have a method. */
  predicate MayOpen(cfg: Config, p: Parser) {
    (p.verb.CONNECT? ==> p.kind.Request?) && !p.flags.trailing && !p.flags.skipBody && cfg.answer(p.blocks) == Proceed
    && !LengthConflict(cfg, p)
  }

  /** The framing the parser has read announces such a body (section 3.3.3 of RFC 7230). */
  predicate Announces(cfg: Config, p: Parser, b: Body) {
    match b
    case Chunks(_, _, _, _) => p.flags.chunked && !p.verb.CONNECT?
    case Sized(s) => !p.flags.chunked && !p.usesTE && p.length == |s| < NO_LENGTH && (s == [] || !p.verb.CONNECT?)
    case UntilClose(_) =>
      !p.flags.chunked && !WithUpgrade(p).upgrade
      && if p.usesTE then !p.kind.Request? || cfg.lenient else p.length == NO_LENGTH && MessageNeedsEof(p)
    case Nothing =>
      if WithUpgrade(p).upgrade then p.verb.CONNECT? || (!p.flags.chunked && (p.length == 0 || p.length == NO_LENGTH))
      else !p.flags.chunked && !p.usesTE && p.length == NO_LENGTH && !MessageNeedsEof(p)
  }

  function EmptyLineDone(p: Parser): Outcome {
    var e := Opened(p, InHeader(HeadersAlmostDone));
    var q := e.(state := NewMessage(e));
    var acts := Act(Notify(HeadersComplete), One(Notify(MessageComplete)));
    if e.upgrade then Quit(q, acts) else Next(q, acts)
  }

  function BodyStateOf(b: Body): State {
    match b case Sized(_) => InBody(BodyIdentity) case Chunks(_, _, _, _) => InSize(ChunkSizeStart) case _ => InBody(BodyIdentityEof)
  }

  lemma {:induction false} OverOpens(cfg: Config, p: Parser, n: nat, b: Body)
    requires MayOpen(cfg, p) && Announces(cfg, p, b)
    ensures Over(cfg, p, n) == if AtOnce(b) then EmptyLineDone(p) else Next(Opened(p, BodyStateOf(b)), One(Notify(HeadersComplete)))
  {
    match b
    case Nothing =>
    case Sized(s) =>
    case Chunks(_, _, _, _) =>
    case UntilClose(_) =>
  }

  /** The parser with the framing that the headers have left. */
  function Framed(p: Parser, f: Frame): Parser { p.(flags := f.flags, length := f.length, usesTE := f.usesTE) }

  lemma {:induction false} FramingOnly(cfg: Config, p: Parser, f: Frame, n: nat, q: Parser, b: Body)
    requires q == NextLine(p, f, n, q) && MayOpen(cfg, Framed(p, f)) && Announces(cfg, Framed(p, f), b)
    ensures MayOpen(cfg, q) && Announces(cfg, q, b) && WithUpgrade(q).upgrade == WithUpgrade(Framed(p, f)).upgrade
    ensures b.UntilClose? || !MessageNeedsEof(q)
  {
  }

  /** The parser behind the empty line, up to what is of no interest any more. */
  predicate OpenedAs(p: Parser, f: Frame, q: Parser) {
    q == Framed(p, f).(state := q.state, nread := 0, matcher := q.matcher, index := q.index, blocks := p.blocks + 1,
                       upgrade := WithUpgrade(Framed(p, f)).upgrade)
  }

  /** From the first header to the first byte of the body. */
  lemma {:induction false} HeadRead(cfg: Config, m: Machine, hs: seq<Header>, end: seq<Byte>, b: Body) returns (q: Parser)
    requires m.p.state == InHeader(FieldStart) && IsHeaders(cfg, hs) && Separate(m.trace) && IsEnd(end)
    requires !m.p.flags.contentLength && m.p.nread + |HeaderText(hs)| + |end| <= cfg.maxHeader
    requires var p := Framed(m.p, FrameAfter(FrameOf(m.p), hs)); MayOpen(cfg, p) && Announces(cfg, p, b)
    ensures OpenedAs(m.p, FrameAfter(FrameOf(m.p), hs), q) && (b.UntilClose? || !MessageNeedsEof(q))
    ensures
      var t := m.trace + HeaderEvents(hs);
      Run(cfg, m, HeaderText(hs) + end) ==
        if AtOnce(b) then Ended(q, t + [Note(HeadersComplete), Note(MessageComplete)], |HeaderText(hs) + end|)
        else Ready(Machine(q, t + [Note(HeadersComplete)]))
    ensures !AtOnce(b) ==> q.state == BodyStateOf(b)
  {
    hide Run, IsHeaders, Claims, FrameAfter, HeaderText, HeaderEvents, MayOpen, Announces, Over, WithUpgrade,
      NewMessage, MessageNeedsEof;
    var f := FrameAfter(FrameOf(m.p), hs);
    var p := SectionRead(cfg, m, hs, end);
    FramingOnly(cfg, m.p, f, |HeaderText(hs)|, p, b);
    OverOpens(cfg, p, |end|, b);
    q := Opened(p, if AtOnce(b) then InHeader(HeadersAlmostDone) else BodyStateOf(b));
    OpenedIs(m.p, f, |HeaderText(hs)|, p, q.state);
    TwoNotes();
  }

  lemma OpenedIs(p: Parser, f: Frame, n: nat, q: Parser, s: State)
    requires q == NextLine(p, f, n, q)
    ensures OpenedAs(p, f, Opened(q, s)) && (MessageNeedsEof(Opened(q, s)) <==> MessageNeedsEof(q))
    ensures Opened(q, s).upgrade == WithUpgrade(Framed(p, f)).upgrade
  {
  }

  lemma TwoNotes()
    ensures NotesOf(One(Notify(HeadersComplete))) == [Note(HeadersComplete)]
    ensures NotesOf(Act(Notify(HeadersComplete), One(Notify(MessageComplete)))) == [Note(HeadersComplete), Note(MessageComplete)]
    ensures NotesOf(Act(Notify(ChunkComplete), One(Notify(MessageComplete)))) == [Note(ChunkComplete), Note(MessageComplete)]
  {
    assert NotesOf(One(Notify(MessageComplete))) == [Note(MessageComplete)];
  }

  // ---------- the body of a message ----------

  lemma {:induction false} EofTurn(cfg: Config, p: Parser, ch: Byte)
    requires p.state == InBody(BodyIdentityEof)
    ensures Turn(cfg, p, ch) == Next(p, One(Mark(OnBody)))
  {
  }

  /** Everything up to the end of the connection is body. */
  lemma {:induction false} EofBody(cfg: Config, m: Machine, before: seq<Event>, body: seq<Byte>)
    requires m.p.state == InBody(BodyIdentityEof) && m.trace == before + [Note(HeadersComplete)]
    ensures Run(cfg, m, body) == Ready(Machine(m.p, m.trace + DataEvents(body)))
    decreases |body|
  {
    hide Turn, Run;
    if body == [] {
      EmptyRun(cfg, m);
      assert m.trace + [] == m.trace;
    } else {
      var k := |body| - 1;
      EofBody(cfg, m, before, body[..k]);
      var m1 := Machine(m.p, m.trace + DataEvents(body[..k]));
      EofTurn(cfg, m.p, body[k]);
      BodyByte(cfg, m1, body[k], m.p);
      assert body == body[..k] + [body[k]];
      assert Append(m1.trace, OnBody, [body[k]]) == m.trace + DataEvents(body);
      Continue(cfg, m, body[..k], m1, [body[k]], Machine(m.p, m.trace + DataEvents(body)));
    }
  }

  lemma {:induction false} TrailerOver(cfg: Config, p: Parser, n: nat)
    requires p.flags.trailing
    ensures var e := p.(state := InHeader(HeadersAlmostDone), nread := p.nread + n);
            var acts := Act(Notify(ChunkComplete), One(Notify(MessageComplete)));
            Over(cfg, p, n) == if p.upgrade then Quit(e.(state := NewMessage(e)), acts) else Next(e.(state := NewMessage(e)), acts)
  {
    hide NewMessage;
  }

  /** The framing at the end of a chunked message: trailer headers count as well. */
  function TrailerFrame(f: Frame, trailer: seq<Header>): Frame {
    FrameAfter(f.(flags := f.flags.(trailing := true), length := 0), trailer)
  }

  /** The parser behind the trailer. */
  predicate EndsAs(p: Parser, b: Body, e: Parser)
    requires b.Chunks?
  {
    e == Framed(p, TrailerFrame(FrameOf(p), b.trailer)).(state := e.state, nread := |HeaderText(b.trailer)| + |b.end|,
                                                          matcher := e.matcher, index := e.index)
  }

  /** Chunked round trip: every partition of a body into chunks, each with its size in any hexadecimal notation
      and with any extension, is delivered as exactly those pieces of body, then the trailer headers, then one
      message end. The header counter goes on counting from the trailer. */
  lemma {:induction false} ChunksBody(cfg: Config, m: Machine, b: Body) returns (e: Parser)
    requires AtChunk(m) && b.Chunks? && IsChunks(cfg, b) && !m.p.flags.trailing
    requires m.p.flags.contentLength ==> !Claims(b.trailer, HasLength)
    ensures Run(cfg, m, BodyText(b)) == Ended(e, m.trace + BodyEvents(b), |BodyText(b)|)
    ensures EndsAs(m.p, b, e)
  {
    hide Run, IsHeaders, Claims, HeaderText, HeaderEvents, EncodeAll, AllEvents, SizeLine, Over, NewMessage,
      WellFormed, IsEnd, FrameAfter;
    ChunksRead(cfg, m, b.chunks);
    var m1 := Machine(AfterChunks(m.p, b.chunks), m.trace + AllEvents(b.chunks));
    SizeLineRead(cfg, m1, b.last);
    var m2 := Machine(AfterSize(m.p, 0), m1.trace + [Note(ChunkHeader)]);
    Continue(cfg, m, EncodeAll(b.chunks), m1, SizeLine(b.last), m2);
    var p := SectionRead(cfg, m2, b.trailer, b.end);
    FrameClaims(FrameOf(m2.p), b.trailer, HasLength);
    TrailerOver(cfg, p, |b.end|);
    TwoNotes();
    e := p.(state := InHeader(HeadersAlmostDone), nread := p.nread + |b.end|);
    var tail := HeaderText(b.trailer) + b.end;
    RunConcat(cfg, m, EncodeAll(b.chunks) + SizeLine(b.last), tail);
    assert m2.trace + HeaderEvents(b.trailer) + [Note(ChunkComplete), Note(MessageComplete)] == m.trace + BodyEvents(b);
  }

  /** The framing at the end of a message. */
  function LastFrame(f: Frame, b: Body): Frame {
    match b
    case Chunks(_, _, trailer, _) => TrailerFrame(f, trailer)
    case Sized(_) => f.(length := 0)
    case _ => f
  }

  /** The header counter behind a message: it starts again at the body, and a trailer counts. */
  function Counted(b: Body): nat { if b.Chunks? then |HeaderText(b.trailer)| + |b.end| else 0 }

  predicate TailDone(p: Parser, f: Frame, b: Body, e: Parser) {
    e == Framed(p, LastFrame(f, b)).(state := e.state, nread := Counted(b), matcher := e.matcher, index := e.index,
                                     blocks := p.blocks + 1, upgrade := WithUpgrade(Framed(p, f)).upgrade)
    && if b.UntilClose? then e.state == InBody(BodyIdentityEof) else !MessageNeedsEof(e)
  }

  /** The headers, the empty line and the body. */
  datatype Rest = Rest(headers: seq<Header>, end: seq<Byte>, body: Body)

  predicate IsRest(cfg: Config, r: Rest) {
    IsHeaders(cfg, r.headers) && IsEnd(r.end) && IsBody(cfg, r.body)
    && (r.body.Chunks? && Claims(r.headers, HasLength) ==> !Claims(r.body.trailer, HasLength))
  }

  function Section(r: Rest): seq<Byte> { HeaderText(r.headers) + r.end }

  function RestText(r: Rest): seq<Byte> { Section(r) + BodyText(r.body) }

  function RestEvents(r: Rest): seq<Event> { HeaderEvents(r.headers) + [Note(HeadersComplete)] + BodyEvents(r.body) }

  /** The end of the message, or the middle of a body that only the connection ends. */
  function Finished(e: Parser, t: seq<Event>, b: Body, n: nat): Fed {
    if b.UntilClose? then Ready(Machine(e, t)) else Ended(e, t, n)
  }

  lemma {:induction false} SizedTail(cfg: Config, m: Machine, q: Parser, a: seq<Byte>, t: seq<Event>, s: seq<Byte>)
    requires Run(cfg, m, a) == Ready(Machine(q, t + [Note(HeadersComplete)])) && q.state == InBody(BodyIdentity)
    requires 0 < |s| == q.length < NO_LENGTH
    ensures Run(cfg, m, a + s) ==
              Ended(q.(length := 0), t + [Note(HeadersComplete)] + BodyEvents(Sized(s)), |a + s|)
  {
    hide Run, NewMessage;
    var m1 := Machine(q, t + [Note(HeadersComplete)]);
    IdentityBody(cfg, m1, s);
    assert Append(m1.trace, OnBody, s) + [Note(MessageComplete)] == m1.trace + BodyEvents(Sized(s));
    ContinueToEnd(cfg, m, a, m1, s, q.(length := 0), m1.trace + BodyEvents(Sized(s)));
  }

  lemma EmptyNeedsNoEof(q: Parser)
    ensures !MessageNeedsEof(q) ==> !MessageNeedsEof(q.(length := 0))
  {
  }

  lemma TrailerStays(p: Parser, f: Frame, b: Body, q: Parser, e: Parser)
    requires OpenedAs(p, f, q) && f.flags.chunked && b.Chunks? && EndsAs(q, b, e)
    ensures TailDone(p, f, b, e)
  {
    hide FrameAfter;
    assert FrameOf(q) == f;
    FrameClaims(f.(flags := f.flags.(trailing := true), length := 0), b.trailer, Chunked);
    assert e.flags.chunked;
    assert !MessageNeedsEof(e);
    assert LastFrame(f, b) == TrailerFrame(f, b.trailer);
  }

  /** From the first header to the end of the message. */
  lemma {:induction false} RestRead(cfg: Config, m: Machine, r: Rest) returns (e: Parser)
    requires m.p.state == InHeader(FieldStart) && Separate(m.trace) && IsRest(cfg, r)
    requires FrameOf(m.p) == Frame(NO_FLAGS, NO_LENGTH, false) && m.p.nread + |Section(r)| <= cfg.maxHeader
    requires var p := Framed(m.p, FrameAfter(FrameOf(m.p), r.headers)); MayOpen(cfg, p) && Announces(cfg, p, r.body)
    ensures Run(cfg, m, RestText(r)) == Finished(e, m.trace + RestEvents(r), r.body, |RestText(r)|)
    ensures TailDone(m.p, FrameAfter(FrameOf(m.p), r.headers), r.body, e)
  {
    hide Run, IsHeaders, IsHeader, HeaderText, HeaderEvents, EncodeAll, AllEvents, SizeLine, NewMessage, WellFormed,
      IsEnd, FrameAfter, Claims, MessageNeedsEof, WithUpgrade, Ended;
    var f := FrameAfter(FrameOf(m.p), r.headers);
    var q := HeadRead(cfg, m, r.headers, r.end, r.body);
    FrameClaims(FrameOf(m.p), r.headers, HasLength);
    var t := m.trace + HeaderEvents(r.headers);
    assert t + [Note(HeadersComplete)] + BodyEvents(r.body) == m.trace + RestEvents(r);
    if AtOnce(r.body) {
      e := q;
      assert RestText(r) == Section(r);
      assert t + [Note(HeadersComplete), Note(MessageComplete)] == m.trace + RestEvents(r);
    } else {
      match r.body
      case Sized(s) =>
        SizedTail(cfg, m, q, Section(r), t, s);
        e := q.(length := 0);
        EmptyNeedsNoEof(q);
      case Chunks(_, _, _, _) =>
        e := ChunksBody(cfg, Machine(q, t + [Note(HeadersComplete)]), r.body);
        ContinueToEnd(cfg, m, Section(r), Machine(q, t + [Note(HeadersComplete)]), BodyText(r.body), e, m.trace + RestEvents(r));
        TrailerStays(m.p, f, r.body, q, e);
      case UntilClose(s) =>
        EofBody(cfg, Machine(q, t + [Note(HeadersComplete)]), t, s);
        e := q;
        Continue(cfg, m, Section(r), Machine(q, t + [Note(HeadersComplete)]), s, Machine(q, m.trace + RestEvents(r)));
    }
  }

  // ---------- what the headers say ----------

  /** Codes that never have a body. */
  predicate Bodiless(v: nat) { 100 <= v <= 199 || v == 204 || v == 304 }

  /** Who sends the message: a request, or a response with its status code. */
  datatype Sender = Asking(connect: bool) | Answering(status: nat)

  /** The connection changes its protocol behind the message. */
  predicate Switches(s: Sender, hs: seq<Header>) {
    if Claims(hs, Upgrades) && Claims(hs, ConnUpgrades) then s.Asking? || s.status == 101 else s.Asking? && s.connect
  }

  /** A Content-Length beside a Transfer-Encoding is an error, unless the settings allow it. */
  predicate LengthsAgree(cfg: Config, hs: seq<Header>) {
    Claims(hs, HasCoding) && Claims(hs, HasLength) ==> if Claims(hs, Chunked) then cfg.allowChunkedLength else cfg.lenient
  }

  /** A header with the length `n`. */
  predicate SaysLength(h: Header, n: nat) { SortOf(h.name).Sizing? && IsLength(h.value) && DecValue(Trimmed(h.value)) == n }

  /** Section 3.3.3 of RFC 7230: the body that goes with the headers. */
  predicate Suits(cfg: Config, s: Sender, hs: seq<Header>, b: Body) {
    LengthsAgree(cfg, hs) &&
    match b
    case Chunks(_, _, _, _) => Claims(hs, Chunked) && !(s.Asking? && s.connect)
    case Sized(bytes) =>
      !Claims(hs, HasCoding) && (exists i :: 0 <= i < |hs| && SaysLength(hs[i], |bytes|)) && (bytes == [] || !(s.Asking? && s.connect))
    case UntilClose(_) =>
      !Switches(s, hs) && if Claims(hs, HasCoding) then !Claims(hs, Chunked) && (s.Answering? || cfg.lenient)
                          else s.Answering? && !Claims(hs, HasLength) && !Bodiless(s.status)
    case Nothing =>
      if Switches(s, hs) then (s.Asking? && s.connect) || (!Claims(hs, Chunked) && !Claims(hs, HasLength))
      else !Claims(hs, HasCoding) && !Claims(hs, HasLength) && (s.Asking? || Bodiless(s.status))
  }

  /** Some header, or some trailer header, says so. */
  predicate AlsoClaims(r: Rest, c: Claim) { Claims(r.headers, c) || (r.body.Chunks? && Claims(r.body.trailer, c)) }

  /** Another message may follow (section 6.3 of RFC 7230). */
  predicate Persists(major: nat, minor: nat, r: Rest) {
    if major > 0 && minor > 0 then !AlsoClaims(r, Closes) else AlsoClaims(r, KeepsAlive)
  }

  predicate Sends(s: Sender, p: Parser) {
    match s
    case Asking(connect) => p.kind.Request? && (p.verb.CONNECT? <==> connect)
    case Answering(status) => p.kind.Response? && !p.verb.CONNECT? && p.status == status
  }

  const FRESH := Frame(NO_FLAGS, NO_LENGTH, false)

  /** The framing after some headers, in their own terms. */
  lemma {:induction false} FreshClaims(hs: seq<Header>)
    ensures var f := FrameAfter(FRESH, hs); forall c: Claim :: Holds(f, c) <==> Claims(hs, c)
    ensures var f := FrameAfter(FRESH, hs); !f.flags.trailing && !f.flags.skipBody
  {
    hide Claims, FrameAfter, Holds;
    forall c: Claim ensures Holds(FrameAfter(FRESH, hs), c) <==> Claims(hs, c) {
      FrameClaims(FRESH, hs, c);
      FreshHolds(c);
    }
    FrameClaims(FRESH, hs, HasLength);
  }

  lemma FreshHolds(c: Claim)
    ensures !Holds(FRESH, c)
  {
  }

  lemma {:induction false} ChunkedIsCoding(hs: seq<Header>)
    ensures Claims(hs, Chunked) ==> Claims(hs, HasCoding)
  {
    if i :| 0 <= i < |hs| && Makes(hs[i], Chunked) {
      NoneBegins(LowerName(hs[i].name));
      assert Makes(hs[i], HasCoding);
    }
  }

  lemma {:induction false} SizedLength(cfg: Config, hs: seq<Header>, n: nat)
    requires IsHeaders(cfg, hs) && exists i :: 0 <= i < |hs| && SaysLength(hs[i], n)
    ensures FrameAfter(FRESH, hs).length == n < NO_LENGTH
  {
    hide IsHeader, SortOf, IsLength, FrameAfter;
    var i :| 0 <= i < |hs| && SaysLength(hs[i], n);
    FrameLength(cfg, FRESH, hs, i);
    SmallLength(hs[i].value);
  }

  lemma SmallLength(v: seq<Byte>)
    requires IsLength(v)
    ensures DecValue(Trimmed(v)) < NO_LENGTH
  {
    var d := Trimmed(v);
    assert DecValue(d) == DecValue(d[..|d| - 1]) * 10 + DecDigit(d[|d| - 1]);
  }

  lemma {:induction false} SuitsAnnounces(cfg: Config, s: Sender, p: Parser, hs: seq<Header>, b: Body)
    requires Sends(s, p) && IsHeaders(cfg, hs) && Suits(cfg, s, hs, b) && FrameOf(p) == FRESH && cfg.answer(p.blocks) == Proceed
    ensures var q := Framed(p, FrameAfter(FRESH, hs));
            MayOpen(cfg, q) && Announces(cfg, q, b) && (WithUpgrade(q).upgrade <==> Switches(s, hs))
  {
    hide Claims, FrameAfter, SaysLength, IsHeaders;
    var f := FrameAfter(FRESH, hs);
    FreshClaims(hs);
    assert forall c: Claim :: Holds(f, c) <==> Claims(hs, c);
    ChunkedIsCoding(hs);
    if b.Sized? {
      SizedLength(cfg, hs, |b.bytes|);
    } else if !Claims(hs, HasLength) {
      FrameNoLength(cfg, FRESH, hs);
    }
  }

  lemma {:induction false} LastClaims(r: Rest, c: Claim)
    requires c.Closes? || c.KeepsAlive?
    ensures Holds(LastFrame(FrameAfter(FRESH, r.headers), r.body), c) <==> AlsoClaims(r, c)
  {
    hide Claims, FrameAfter;
    var f := FrameAfter(FRESH, r.headers);
    FrameClaims(FRESH, r.headers, c);
    if r.body.Chunks? {
      FrameClaims(f.(flags := f.flags.(trailing := true), length := 0), r.body.trailer, c);
    }
  }

  /** What the parser waits for next. */
  lemma {:induction false} StateAfter(p: Parser, r: Rest, e: Parser)
    requires TailDone(p, FrameAfter(FRESH, r.headers), r.body, e) && !r.body.UntilClose?
    ensures NewMessage(e) == InLine(if !Persists(p.major, p.minor, r) then Dead else if p.kind.Request? then StartReq else StartRes)
  {
    hide FrameAfter, LastFrame, MessageNeedsEof, AlsoClaims;
    LastClaims(r, Closes);
    LastClaims(r, KeepsAlive);
  }

  /** What is left of a message when its first line is over, for either sender. */
  lemma {:induction false} TailRead(cfg: Config, s: Sender, m: Machine, r: Rest) returns (e: Parser)
    requires m.p.state == InHeader(FieldStart) && Separate(m.trace) && IsRest(cfg, r) && FrameOf(m.p) == FRESH
    requires Sends(s, m.p) && Suits(cfg, s, r.headers, r.body) && cfg.answer(m.p.blocks) == Proceed
    requires m.p.nread + |Section(r)| <= cfg.maxHeader
    ensures
      var q := Machine(e, m.trace + RestEvents(r));
      Run(cfg, m, RestText(r)) == if Switches(s, r.headers) then Left(q, |RestText(r)|) else Ready(q)
    ensures e.verb == m.p.verb && e.status == m.p.status && e.major == m.p.major && e.minor == m.p.minor
    ensures e.kind == m.p.kind && e.blocks == m.p.blocks + 1 && e.nread == Counted(r.body)
    ensures e.state == if r.body.UntilClose? then InBody(BodyIdentityEof)
                       else InLine(if !Persists(m.p.major, m.p.minor, r) then Dead else if s.Asking? then StartReq else StartRes)
  {
    hide Run, Announces, MayOpen, RestText, RestEvents, FrameAfter, NewMessage, Persists, IsHeaders, IsRest, Section,
      Claims;
    RestIsHeaders(cfg, r);
    SuitsAnnounces(cfg, s, m.p, r.headers, r.body);
    var d := RestRead(cfg, m, r);
    if r.body.UntilClose? {
      e := d;
    } else {
      StateAfter(m.p, r, d);
      e := d.(state := NewMessage(d));
    }
  }

  lemma RestIsHeaders(cfg: Config, r: Rest)
    requires IsRest(cfg, r)
    ensures IsHeaders(cfg, r.headers)
  {
  }

  // ---------- what reaches on_body ----------

  /** The body bytes of a message. */
  function Bytes(b: Body): seq<Byte> {
    match b case Nothing => [] case Sized(s) => s case Chunks(cs, _, _, _) => Payload(cs) case UntilClose(s) => s
  }

  lemma {:induction false} NoneInHeaders(hs: seq<Header>)
    ensures Delivered(HeaderEvents(hs)) == []
  {
    if hs != [] {
      var k := |hs| - 1;
      NoneInHeaders(hs[..k]);
      DeliveredConcat(HeaderEvents(hs[..k]), Events(hs[k]));
      NoBody(Events(hs[k]));
    }
  }

  lemma {:induction false} NoBody(t: seq<Event>)
    requires forall i :: 0 <= i < |t| ==> t[i].Note? || t[i].e != OnBody
    ensures Delivered(t) == []
  {
    if t != [] {
      NoBody(t[..|t| - 1]);
    }
  }

  lemma {:induction false} OneData(s: seq<Byte>)
    ensures Delivered(DataEvents(s)) == s
  {
    if s != [] {
      assert DataEvents(s)[..0] == [];
    }
  }

  /** The bytes that reach on_body are those of the body, whatever it is framed by. */
  lemma {:induction false} BodyDelivered(r: Rest)
    ensures Delivered(RestEvents(r)) == Bytes(r.body)
  {
    hide Delivered, AllEvents, HeaderEvents;
    var head := HeaderEvents(r.headers) + [Note(HeadersComplete)];
    NoneInHeaders(r.headers);
    NoBody([Note(HeadersComplete)]);
    NoBody([Note(MessageComplete)]);
    DeliveredConcat(HeaderEvents(r.headers), [Note(HeadersComplete)]);
    DeliveredConcat(head, BodyEvents(r.body));
    match r.body
    case Nothing =>
    case Sized(s) =>
      OneData(s);
      DeliveredConcat(DataEvents(s), [Note(MessageComplete)]);
    case Chunks(cs, last, trailer, end) =>
      DeliveredPayload(cs);
      NoBody([Note(ChunkHeader)]);
      NoneInHeaders(trailer);
      NoBody([Note(ChunkComplete), Note(MessageComplete)]);
      DeliveredConcat(AllEvents(cs), [Note(ChunkHeader)]);
      DeliveredConcat(AllEvents(cs) + [Note(ChunkHeader)], HeaderEvents(trailer));
      DeliveredConcat(AllEvents(cs) + [Note(ChunkHeader)] + HeaderEvents(trailer), [Note(ChunkComplete), Note(MessageComplete)]);
    case UntilClose(s) => OneData(s);
  }

  lemma {:induction false} AllDelivered(first: seq<Event>, r: Rest)
    requires |first| == 2 && first[0].Note? && first[1].Data? && first[1].e != OnBody
    ensures Delivered(first + RestEvents(r)) == Bytes(r.body)
  {
    hide Delivered, RestEvents, Bytes;
    NoBody(first);
    DeliveredConcat(first, RestEvents(r));
    BodyDelivered(r);
  }

  // ---------- whole requests and responses ----------

  predicate MayBegin(cfg: Config, m: Machine, x: RequestLine, r: Rest) {
    m.p.state == InLine(StartReq) && m.p.kind.Request? && cfg.answer(m.p.blocks) == Proceed
    && m.p.nread + |RequestText(x)| + |Section(r)| <= cfg.maxHeader
  }

  lemma {:induction false} NameMayBe(cfg: Config, m: Machine, w: seq<Byte>)
    requires IsMethodName(w) && m.p.state == InLine(StartReq) && m.p.nread + |w| < cfg.maxHeader
    ensures MayBeMethod(cfg, m, w)
  {
    hide MethodName;
    var v: Method :| Is(MethodName(v), w);
    GuessStarts(v);
    forall i | 0 <= i < |w| ensures w[i] != SP {
      SpaceInNoName(v, i);
    }
    FirstOfName(v, w);
  }

  lemma FirstOfName(v: Method, w: seq<Byte>)
    requires Is(MethodName(v), w)
    ensures w != [] && !IsEol(w[0])
  {
  }

  function RequestEvents(x: RequestLine, r: Rest): seq<Event> { [Note(MessageBegin), Data(OnUrl, x.target)] + RestEvents(r) }

  /** The parser behind a request line. */
  lemma {:induction false} LineGives(cfg: Config, m: Machine, x: RequestLine, r: Rest) returns (m1: Machine)
    requires IsRequestLine(x) && MayBegin(cfg, m, x, r)
    ensures Run(cfg, m, RequestText(x)) == Ready(m1) && m1.trace == m.trace + [Note(MessageBegin), Data(OnUrl, x.target)]
    ensures m1.p.state == InHeader(FieldStart) && FrameOf(m1.p) == FRESH && Sends(Asking(Connects(x)), m1.p)
    ensures m1.p.kind == m.p.kind && m1.p.blocks == m.p.blocks && m1.p.nread == m.p.nread + |RequestText(x)|
    ensures Is(MethodName(m1.p.verb), x.verb) && m1.p.major == Major(x.version) && m1.p.minor == Minor(x.version)
  {
    hide Run, IsMethodName, UrlGrammar.IsTargetText, RequestText, IsEnd, IsGap, Is, MethodName, Section;
    VerbFits(x);
    NameMayBe(cfg, m, x.verb);
    var p := RequestLineRead(cfg, m, x);
    m1 := Machine(p, m.trace + [Note(MessageBegin), Data(OnUrl, x.target)]);
  }

  lemma UrlIsSeparate(t: seq<Event>, target: seq<Byte>)
    ensures Separate(t + [Note(MessageBegin), Data(OnUrl, target)]) && Separate(t + [Note(MessageBegin), Data(OnStatus, target)])
  {
  }

  lemma {:induction false} RequestRead(cfg: Config, m: Machine, x: RequestLine, r: Rest) returns (q: Parser)
    requires IsRequestLine(x) && IsRest(cfg, r) && Suits(cfg, Asking(Connects(x)), r.headers, r.body) && MayBegin(cfg, m, x, r)
    ensures
      var done := Machine(q, m.trace + RequestEvents(x, r));
      Run(cfg, m, RequestText(x) + RestText(r)) ==
        if Switches(Asking(Connects(x)), r.headers) then Left(done, |RequestText(x) + RestText(r)|) else Ready(done)
    ensures Is(MethodName(q.verb), x.verb) && q.major == Major(x.version) && q.minor == Minor(x.version)
    ensures q.kind == m.p.kind && q.blocks == m.p.blocks + 1 && q.nread == Counted(r.body)
    ensures q.state == if r.body.UntilClose? then InBody(BodyIdentityEof)
                       else InLine(if Persists(q.major, q.minor, r) then StartReq else Dead)
  {
    hide Run, RestText, RestEvents, Persists, IsRest, Section, Switches, Suits, Is, MethodName, IsRequestLine,
      RequestText, Sends, Connects, Separate, FrameOf;
    var m1 := LineGives(cfg, m, x, r);
    UrlIsSeparate(m.trace, x.target);
    q := TailRead(cfg, Asking(Connects(x)), m1, r);
    RunConcat(cfg, m, RequestText(x), RestText(r));
    assert m1.trace + RestEvents(r) == m.trace + RequestEvents(x, r);
  }

  /** A whole request comes out as it went in, whatever way it is cut into calls: the callbacks are exactly the
      start, the target, the name and the value of every header in order, the end of the headers, the body, the
      trailer headers and the end of the message. Then the connection is handed over, or the parser waits for
      another request if and only if the headers and the version say so. */
  lemma {:induction false} RequestRoundTrip(cfg: Config, m: Machine, x: RequestLine, r: Rest, pieces: seq<seq<Byte>>)
      returns (q: Parser)
    requires IsRequestLine(x) && IsRest(cfg, r) && Suits(cfg, Asking(Connects(x)), r.headers, r.body) && MayBegin(cfg, m, x, r)
    requires Joined(pieces) == RequestText(x) + RestText(r) && forall i :: 0 <= i < |pieces| ==> pieces[i] != []
    ensures
      var done := Machine(q, m.trace + RequestEvents(x, r));
      Calls(cfg, m, pieces) == if Switches(Asking(Connects(x)), r.headers) then Left(done, |Joined(pieces)|) else Ready(done)
    ensures Is(MethodName(q.verb), x.verb) && q.major == Major(x.version) && q.minor == Minor(x.version)
    ensures q.kind == m.p.kind && q.blocks == m.p.blocks + 1 && q.nread == Counted(r.body)
    ensures q.state == if r.body.UntilClose? then InBody(BodyIdentityEof)
                       else InLine(if Persists(q.major, q.minor, r) then StartReq else Dead)
    ensures Delivered(RequestEvents(x, r)) == Bytes(r.body)
  {
    hide Run, Calls, RestText, RestEvents, Delivered, Bytes, Persists, IsRest, Switches, Suits, Is, MethodName,
      IsRequestLine, RequestText, Connects, MayBegin;
    SplitInvariance(cfg, m, pieces);
    q := RequestRead(cfg, m, x, r);
    AllDelivered([Note(MessageBegin), Data(OnUrl, x.target)], r);
  }

  lemma VerbFits(x: RequestLine)
    ensures |x.verb| < |RequestText(x)|
  {
  }

  /** What follows a message after which the connection is handed over is not read. */
  lemma {:induction false} HandedOver(cfg: Config, m: Machine, x: RequestLine, r: Rest, more: seq<Byte>, pieces: seq<seq<Byte>>)
      returns (q: Parser)
    requires IsRequestLine(x) && IsRest(cfg, r) && Suits(cfg, Asking(Connects(x)), r.headers, r.body) && MayBegin(cfg, m, x, r)
    requires Switches(Asking(Connects(x)), r.headers)
    requires Joined(pieces) == RequestText(x) + RestText(r) + more && forall i :: 0 <= i < |pieces| ==> pieces[i] != []
    ensures Calls(cfg, m, pieces) == Left(Machine(q, m.trace + RequestEvents(x, r)), |RequestText(x) + RestText(r)|)
  {
    hide Run, Calls, RestText, RequestEvents, Persists, IsRest, Switches, Suits, Is, MethodName, IsRequestLine,
      RequestText, Connects, MayBegin;
    SplitInvariance(cfg, m, pieces);
    q := RequestRead(cfg, m, x, r);
    RunConcat(cfg, m, RequestText(x) + RestText(r), more);
  }

  predicate MayAnswer(cfg: Config, m: Machine, x: StatusLine, r: Rest) {
    m.p.state == InLine(StartRes) && m.p.kind.Response? && !m.p.verb.CONNECT? && cfg.answer(m.p.blocks) == Proceed
    && m.p.nread + |StatusText(x)| + |Section(r)| <= cfg.maxHeader
  }

  function ResponseEvents(x: StatusLine, r: Rest): seq<Event> { [Note(MessageBegin), Data(OnStatus, x.reason)] + RestEvents(r) }

  predicate IsAccepted(x: StatusLine) { IsStatusLine(x) && DecValue(x.code) <= 999 }

  /** The parser behind a status line. */
  lemma {:induction false} StatusGives(cfg: Config, m: Machine, x: StatusLine) returns (m1: Machine)
    requires IsAccepted(x) && m.p.state == InLine(StartRes) && m.p.kind.Response? && !m.p.verb.CONNECT?
    requires m.p.nread + |StatusText(x)| <= cfg.maxHeader
    ensures Run(cfg, m, StatusText(x)) == Ready(m1) && m1.trace == m.trace + [Note(MessageBegin), Data(OnStatus, x.reason)]
    ensures m1.p.state == InHeader(FieldStart) && FrameOf(m1.p) == FRESH && Sends(Answering(DecValue(x.code)), m1.p)
    ensures m1.p.kind == m.p.kind && m1.p.blocks == m.p.blocks && m1.p.nread == m.p.nread + |StatusText(x)|
    ensures m1.p.status == DecValue(x.code) && m1.p.major == x.a - 48 && m1.p.minor == x.b - 48 && !m1.p.verb.CONNECT?
  {
    hide Run, StatusText, DecValue, IsReason, IsEnd, IsGap;
    StatusLineRead(cfg, m, x);
    m1 := Machine(AfterStatus(m.p, x), m.trace + [Note(MessageBegin), Data(OnStatus, x.reason)]);
  }

  lemma {:induction false} ResponseRead(cfg: Config, m: Machine, x: StatusLine, r: Rest) returns (q: Parser)
    requires IsAccepted(x) && IsRest(cfg, r) && Suits(cfg, Answering(DecValue(x.code)), r.headers, r.body)
    requires MayAnswer(cfg, m, x, r)
    ensures
      var done := Machine(q, m.trace + ResponseEvents(x, r));
      Run(cfg, m, StatusText(x) + RestText(r)) ==
        if Switches(Answering(DecValue(x.code)), r.headers) then Left(done, |StatusText(x) + RestText(r)|) else Ready(done)
    ensures q.status == DecValue(x.code) && q.major == x.a - 48 && q.minor == x.b - 48
    ensures q.kind == m.p.kind && q.blocks == m.p.blocks + 1 && q.nread == Counted(r.body) && !q.verb.CONNECT?
    ensures q.state == if r.body.UntilClose? then InBody(BodyIdentityEof)
                       else InLine(if Persists(q.major, q.minor, r) then StartRes else Dead)
  {
    hide Run, RestText, RestEvents, Persists, IsRest, Section, Switches, Suits, StatusText, Separate, DecValue,
      IsReason, IsGap, IsEnd, Sends, FrameOf;
    var m1 := StatusGives(cfg, m, x);
    UrlIsSeparate(m.trace, x.reason);
    q := TailRead(cfg, Answering(DecValue(x.code)), m1, r);
    RunConcat(cfg, m, StatusText(x), RestText(r));
    assert m1.trace + RestEvents(r) == m.trace + ResponseEvents(x, r);
  }

  /** A whole response comes out as it went in, whatever way it is cut into calls. */
  lemma {:induction false} ResponseRoundTrip(cfg: Config, m: Machine, x: StatusLine, r: Rest, pieces: seq<seq<Byte>>)
      returns (q: Parser)
    requires IsAccepted(x) && IsRest(cfg, r) && Suits(cfg, Answering(DecValue(x.code)), r.headers, r.body)
    requires MayAnswer(cfg, m, x, r)
    requires Joined(pieces) == StatusText(x) + RestText(r) && forall i :: 0 <= i < |pieces| ==> pieces[i] != []
    ensures
      var done := Machine(q, m.trace + ResponseEvents(x, r));
      Calls(cfg, m, pieces) == if Switches(Answering(DecValue(x.code)), r.headers) then Left(done, |Joined(pieces)|) else Ready(done)
    ensures q.status == DecValue(x.code) && q.major == x.a - 48 && q.minor == x.b - 48
    ensures q.kind == m.p.kind && q.blocks == m.p.blocks + 1 && q.nread == Counted(r.body) && !q.verb.CONNECT?
    ensures q.state == if r.body.UntilClose? then InBody(BodyIdentityEof)
                       else InLine(if Persists(q.major, q.minor, r) then StartRes else Dead)
    ensures Delivered(ResponseEvents(x, r)) == Bytes(r.body)
  {
    hide Run, Calls, RestText, RestEvents, Delivered, Bytes, Persists, IsRest, Switches, Suits, StatusText, MayAnswer,
      DecValue;
    SplitInvariance(cfg, m, pieces);
    q := ResponseRead(cfg, m, x, r);
    AllDelivered([Note(MessageBegin), Data(OnStatus, x.reason)], r);
  }

  // ---------- bodies that the user skips ----------

  /** The user's answer at the end of the headers says that there is no body, as behind a HEAD request. */
  predicate Skips(a: Answer) { a.SkipBody? || a.SkipBodyAndUpgrade? }

  function Skipped(p: Parser, a: Answer): Parser {
    var q := WithUpgrade(p);
    q.(blocks := p.blocks + 1, nread := 0, flags := q.flags.(skipBody := true), upgrade := q.upgrade || a.SkipBodyAndUpgrade?)
  }

  lemma {:induction false} OverSkips(cfg: Config, p: Parser, n: nat)
    requires !p.flags.trailing && !LengthConflict(cfg, p) && Skips(cfg.answer(p.blocks))
    ensures
      var e := Skipped(p, cfg.answer(p.blocks));
      var acts := Act(Notify(HeadersComplete), One(Notify(MessageComplete)));
      Over(cfg, p, n) == if e.upgrade then Quit(e.(state := NewMessage(e)), acts) else Next(e.(state := NewMessage(e)), acts)
  {
  }

  lemma {:induction false} SkippedState(p: Parser, f: Frame, n: nat, q: Parser, r: Rest, a: Answer)
    requires q == NextLine(p, f, n, q) && f == FrameAfter(FRESH, r.headers) && r.body.Nothing?
    requires p.kind.Request? || p.kind.Response?
    ensures var e := Skipped(q, a);
            NewMessage(e) == InLine(if !Persists(p.major, p.minor, r) then Dead else if p.kind.Request? then StartReq else StartRes)
            && e.status == p.status && e.major == p.major && e.minor == p.minor && e.kind == p.kind
  {
    hide FrameAfter, Claims;
    FrameClaims(FRESH, r.headers, Closes);
    FrameClaims(FRESH, r.headers, KeepsAlive);
  }

  lemma {:induction false} ConflictClaims(cfg: Config, p: Parser, hs: seq<Header>, n: nat, q: Parser)
    requires q == NextLine(p, FrameAfter(FRESH, hs), n, q)
    ensures LengthConflict(cfg, q) <==> !LengthsAgree(cfg, hs)
    ensures !q.flags.trailing
    ensures WithUpgrade(q).upgrade ==
              if Claims(hs, Upgrades) && Claims(hs, ConnUpgrades) then q.kind.Request? || q.status == 101 else q.verb.CONNECT?
  {
    hide FrameAfter, Claims;
    var f := FrameAfter(FRESH, hs);
    FreshClaims(hs);
    assert forall c: Claim :: Holds(f, c) <==> Claims(hs, c);
  }

  lemma {:induction false} SkippedTail(cfg: Config, s: Sender, m: Machine, r: Rest) returns (q: Parser)
    requires m.p.state == InHeader(FieldStart) && Separate(m.trace) && FrameOf(m.p) == FRESH && Sends(s, m.p)
    requires IsHeaders(cfg, r.headers) && IsEnd(r.end) && r.body.Nothing? && LengthsAgree(cfg, r.headers)
    requires Skips(cfg.answer(m.p.blocks)) && m.p.nread + |Section(r)| <= cfg.maxHeader
    ensures
      var done := Machine(q, m.trace + RestEvents(r));
      Run(cfg, m, Section(r)) ==
        if Switches(s, r.headers) || cfg.answer(m.p.blocks).SkipBodyAndUpgrade? then Left(done, |Section(r)|) else Ready(done)
    ensures q.status == m.p.status && q.major == m.p.major && q.minor == m.p.minor
    ensures q.state == InLine(if !Persists(m.p.major, m.p.minor, r) then Dead else if s.Asking? then StartReq else StartRes)
  {
    hide Run, IsHeaders, Claims, FrameAfter, HeaderText, HeaderEvents, Over, NewMessage, MessageNeedsEof, LengthsAgree,
      Persists, WithUpgrade, LengthConflict;
    var p := SectionRead(cfg, m, r.headers, r.end);
    var a := cfg.answer(m.p.blocks);
    ConflictClaims(cfg, m.p, r.headers, |HeaderText(r.headers)|, p);
    OverSkips(cfg, p, |r.end|);
    SkippedState(m.p, FrameAfter(FRESH, r.headers), |HeaderText(r.headers)|, p, r, a);
    TwoNotes();
    var e := Skipped(p, a);
    q := e.(state := NewMessage(e));
    assert m.trace + HeaderEvents(r.headers) + [Note(HeadersComplete), Note(MessageComplete)] == m.trace + RestEvents(r);
  }

  predicate MaySkip(cfg: Config, m: Machine, x: StatusLine, r: Rest) {
    m.p.state == InLine(StartRes) && m.p.kind.Response? && !m.p.verb.CONNECT? && Skips(cfg.answer(m.p.blocks))
    && m.p.nread + |StatusText(x)| + |Section(r)| <= cfg.maxHeader
  }

  lemma {:induction false} SkippedRead(cfg: Config, m: Machine, x: StatusLine, r: Rest) returns (q: Parser)
    requires IsAccepted(x) && MaySkip(cfg, m, x, r)
    requires IsHeaders(cfg, r.headers) && IsEnd(r.end) && r.body.Nothing? && LengthsAgree(cfg, r.headers)
    ensures
      var done := Machine(q, m.trace + ResponseEvents(x, r));
      Run(cfg, m, StatusText(x) + Section(r)) ==
        if Switches(Answering(DecValue(x.code)), r.headers) || cfg.answer(m.p.blocks).SkipBodyAndUpgrade?
        then Left(done, |StatusText(x) + Section(r)|) else Ready(done)
    ensures q.status == DecValue(x.code)
    ensures q.state == InLine(if Persists(x.a - 48, x.b - 48, r) then StartRes else Dead)
  {
    hide Run, RestEvents, Persists, IsHeaders, Section, Switches, StatusText, Separate, DecValue, IsReason, IsGap,
      IsEnd, LengthsAgree, Sends, FrameOf, Skips;
    var m1 := StatusGives(cfg, m, x);
    UrlIsSeparate(m.trace, x.reason);
    q := SkippedTail(cfg, Answering(DecValue(x.code)), m1, r);
    RunConcat(cfg, m, StatusText(x), Section(r));
    assert m1.trace + RestEvents(r) == m.trace + ResponseEvents(x, r);
  }

  /** A response whose body the user skips is over at the empty line, whatever its headers say of a length. */
  lemma {:induction false} BodySkipped(cfg: Config, m: Machine, x: StatusLine, r: Rest, pieces: seq<seq<Byte>>)
      returns (q: Parser)
    requires IsAccepted(x) && MaySkip(cfg, m, x, r)
    requires IsHeaders(cfg, r.headers) && IsEnd(r.end) && r.body.Nothing? && LengthsAgree(cfg, r.headers)
    requires Joined(pieces) == StatusText(x) + Section(r) && forall i :: 0 <= i < |pieces| ==> pieces[i] != []
    ensures
      var done := Machine(q, m.trace + ResponseEvents(x, r));
      Calls(cfg, m, pieces) ==
        if Switches(Answering(DecValue(x.code)), r.headers) || cfg.answer(m.p.blocks).SkipBodyAndUpgrade? then Left(done, |Joined(pieces)|)
        else Ready(done)
    ensures q.status == DecValue(x.code)
    ensures q.state == InLine(if Persists(x.a - 48, x.b - 48, r) then StartRes else Dead)
  {
    hide Run, Calls, ResponseEvents, Persists, IsHeaders, Section, Switches, StatusText, DecValue, IsReason, IsGap,
      IsEnd, LengthsAgree, MaySkip;
    SplitInvariance(cfg, m, pieces);
    q := SkippedRead(cfg, m, x, r);
  }

  /** Content-Length exactness: wherever the Content-Length stands among the headers, exactly as many bytes as it
      says reach on_body, and then the message is complete. */
  lemma {:induction false} LengthDelimitedMessage(cfg: Config, m: Machine, x: RequestLine, r: Rest, i: nat,
                                                  pieces: seq<seq<Byte>>)
      returns (q: Parser)
    requires IsRequestLine(x) && IsRest(cfg, r) && Suits(cfg, Asking(Connects(x)), r.headers, r.body) && MayBegin(cfg, m, x, r)
    requires r.body.Sized? && i < |r.headers| && SortOf(r.headers[i].name).Sizing?
    requires Joined(pieces) == RequestText(x) + RestText(r) && forall i :: 0 <= i < |pieces| ==> pieces[i] != []
    ensures
      var done := Machine(q, m.trace + RequestEvents(x, r));
      Calls(cfg, m, pieces) == if Switches(Asking(Connects(x)), r.headers) then Left(done, |Joined(pieces)|) else Ready(done)
    ensures RequestEvents(x, r)[|RequestEvents(x, r)| - 1] == Note(MessageComplete)
    ensures Delivered(RequestEvents(x, r)) == r.body.bytes && |r.body.bytes| == DecValue(Trimmed(r.headers[i].value))
  {
    hide Run, Calls, Persists, Switches, Is, MethodName, IsRequestLine, RequestText, Connects, MayBegin, IsHeader,
      SortOf, IsLength, DecValue, Delivered, HeaderEvents;
    q := RequestRoundTrip(cfg, m, x, r, pieces);
    var j :| 0 <= j < |r.headers| && SaysLength(r.headers[j], |r.body.bytes|);
  }

  /** The word is one of the elements that are looked at. */
  predicate Found(xs: seq<HttpLists.Item>, w: HttpLists.Word) {
    exists j :: 0 <= j < |xs| && HttpLists.Awake(false, xs, j) && HttpLists.IsWord(w, xs[j].word)
  }

  /** A request whose one Connection header is a list of words: another request may follow exactly when the words
      and the version say so. */
  lemma {:induction false} ConnectionDecides(cfg: Config, m: Machine, x: RequestLine, r: Rest, i: nat, xs: seq<HttpLists.Item>,
                                             pieces: seq<seq<Byte>>)
      returns (q: Parser)
    requires IsRequestLine(x) && IsRest(cfg, r) && Suits(cfg, Asking(Connects(x)), r.headers, r.body) && MayBegin(cfg, m, x, r)
    requires !r.body.Chunks? && !r.body.UntilClose? && HttpLists.IsList(xs)
    requires i < |r.headers| && SortOf(r.headers[i].name).Connecting? && r.headers[i].value == HttpLists.ListText(xs)
    requires forall j :: 0 <= j < |r.headers| && SortOf(r.headers[j].name).Connecting? ==> j == i
    requires Joined(pieces) == RequestText(x) + RestText(r) && forall i :: 0 <= i < |pieces| ==> pieces[i] != []
    ensures
      var done := Machine(q, m.trace + RequestEvents(x, r));
      Calls(cfg, m, pieces) == if Switches(Asking(Connects(x)), r.headers) then Left(done, |Joined(pieces)|) else Ready(done)
    ensures
      var stays := if Major(x.version) > 0 && Minor(x.version) > 0 then !Found(xs, HttpLists.Close) else Found(xs, HttpLists.KeepAlive);
      q.state == InLine(if stays then StartReq else Dead)
  {
    hide Run, Calls, Switches, Is, MethodName, IsRequestLine, RequestText, RestText, RequestEvents, Connects, MayBegin,
      SortOf, Suits, IsRest, HttpLists.ListText, HttpLists.IsList, HttpLists.Awake, HttpLists.IsWord,
      HttpLists.ListFlags, IsVersion;
    q := RequestRoundTrip(cfg, m, x, r, pieces);
    HttpLists.ConnectionWords(NO_FLAGS, xs, HttpLists.Close);
    HttpLists.ConnectionWords(NO_FLAGS, xs, HttpLists.KeepAlive);
    OneConnection(r.headers, i, Closes);
    OneConnection(r.headers, i, KeepsAlive);
  }

  lemma {:induction false} OneConnection(hs: seq<Header>, i: nat, c: Claim)
    requires i < |hs| && forall j :: 0 <= j < |hs| && SortOf(hs[j].name).Connecting? ==> j == i
    requires c.Closes? || c.KeepsAlive?
    ensures Claims(hs, c) <==> Makes(hs[i], c)
  {
    hide SortOf, HttpLists.ListFlags;
  }

  // ---------- messages that are refused ----------

  lemma {:induction false} OverRefuses(cfg: Config, p: Parser, n: nat)
    requires !p.flags.trailing
    ensures LengthConflict(cfg, p) ==> Over(cfg, p, n) == Fail(UnexpectedContentLength)
    ensures (!LengthConflict(cfg, p) && cfg.answer(p.blocks) == Proceed && !p.flags.skipBody && !WithUpgrade(p).upgrade && p.kind.Request?
             && p.usesTE && !p.flags.chunked && !cfg.lenient) ==> Over(cfg, p, n) == Fail(InvalidTransferEncoding)
  {
    hide NewMessage;
  }

  /** A request whose length cannot be told: both framings, or a coding that does not end in "chunked". */
  predicate Ambiguous(cfg: Config, s: Sender, hs: seq<Header>) {
    !LengthsAgree(cfg, hs) || (Claims(hs, HasCoding) && !Claims(hs, Chunked) && !cfg.lenient && !Switches(s, hs))
  }

  function Refusal(cfg: Config, hs: seq<Header>): Errno {
    if LengthsAgree(cfg, hs) then InvalidTransferEncoding else UnexpectedContentLength
  }

  lemma {:induction false} SectionRefused(cfg: Config, m: Machine, connect: bool, hs: seq<Header>, end: seq<Byte>)
    requires m.p.state == InHeader(FieldStart) && Separate(m.trace) && IsHeaders(cfg, hs) && IsEnd(end) && FrameOf(m.p) == FRESH
    requires Sends(Asking(connect), m.p) && Ambiguous(cfg, Asking(connect), hs) && cfg.answer(m.p.blocks) == Proceed
    requires m.p.nread + |HeaderText(hs)| + |end| <= cfg.maxHeader
    ensures Run(cfg, m, HeaderText(hs) + end) == Broken(Refusal(cfg, hs))
  {
    hide Run, Over, FrameAfter, Claims, HeaderText, HeaderEvents, IsHeaders;
    var q := SectionRead(cfg, m, hs, end);
    var f := FrameAfter(FRESH, hs);
    FreshClaims(hs);
    assert forall c: Claim :: Holds(f, c) <==> Claims(hs, c);
    OverRefuses(cfg, q, |end|);
  }

  /** Such a request is refused at the end of its headers, whatever follows and however it is cut. */
  lemma {:induction false} AmbiguousRefused(cfg: Config, m: Machine, x: RequestLine, r: Rest, pieces: seq<seq<Byte>>)
    requires IsRequestLine(x) && IsHeaders(cfg, r.headers) && IsEnd(r.end) && MayBegin(cfg, m, x, r)
    requires Ambiguous(cfg, Asking(Connects(x)), r.headers)
    requires Joined(pieces) == RequestText(x) + RestText(r) && forall i :: 0 <= i < |pieces| ==> pieces[i] != []
    ensures Calls(cfg, m, pieces) == Broken(Refusal(cfg, r.headers))
  {
    hide Run, Calls, IsHeaders, RequestText, BodyText, HeaderText, Ambiguous, Refusal, Is, MethodName, Separate,
      FrameOf, Sends, IsEnd, Connects, IsRequestLine;
    SplitInvariance(cfg, m, pieces);
    var m1 := LineGives(cfg, m, x, r);
    UrlIsSeparate(m.trace, x.target);
    SectionRefused(cfg, m1, Connects(x), r.headers, r.end);
    RunConcat(cfg, m1, Section(r), BodyText(r.body));
    RunConcat(cfg, m, RequestText(x), RestText(r));
  }

  /** A second Content-Length is refused at the first digit of its value, and any Content-Length at a first byte
      that is no digit. */
  lemma {:induction false} LengthRefused(cfg: Config, m: Machine, x: RequestLine, r: Rest, name: seq<Byte>, blanks: seq<Byte>, ch: Byte,
                                         more: seq<Byte>, pieces: seq<seq<Byte>>)
    requires IsRequestLine(x) && IsHeaders(cfg, r.headers) && MayBegin(cfg, m, x, r)
    requires IsToken(name) && SortOf(name).Sizing? && IsBlank(blanks) && ch != SP && ch != HT && !IsEol(ch)
    requires IsNum(ch) ==> Claims(r.headers, HasLength)
    requires m.p.nread + |RequestText(x)| + |HeaderText(r.headers)| + |HeaderStart(name, blanks)| + 1 <= cfg.maxHeader
    requires Joined(pieces) == RequestText(x) + HeaderText(r.headers) + (HeaderStart(name, blanks) + [ch]) + more
    requires forall i :: 0 <= i < |pieces| ==> pieces[i] != []
    ensures Calls(cfg, m, pieces) == Broken(if IsNum(ch) then UnexpectedContentLength else InvalidContentLength)
  {
    hide Run, Calls, IsHeaders, RequestText, HeaderText, HeaderEvents, Is, MethodName, Separate, FrameOf, Sends,
      Connects, Settled, AtHeader, IsRequestLine, HeaderStart, SortOf, Claims, MayBegin, IsNum;
    SplitInvariance(cfg, m, pieces);
    var m1 := LineGives(cfg, m, x, r);
    UrlIsSeparate(m.trace, x.target);
    FreshHasNone(m1.p);
    var q := HeadersRead(cfg, m1, r.headers);
    var f := FrameAfter(FrameOf(m1.p), r.headers);
    SettledIs(m1, q, f, |HeaderText(r.headers)|, m1.trace + HeaderEvents(r.headers));
    FrameClaims(FRESH, r.headers, HasLength);
    FrameFlag(f);
    var bad := HeaderStart(name, blanks) + [ch];
    LengthFails(cfg, Settled(q), name, blanks, ch);
    StartsPlain(name, blanks, ch);
    SettleRun(cfg, q, bad);
    RunConcat(cfg, m1, HeaderText(r.headers), bad);
    RunConcat(cfg, m, RequestText(x), HeaderText(r.headers) + bad);
    var all := RequestText(x) + HeaderText(r.headers) + bad;
    assert all == RequestText(x) + (HeaderText(r.headers) + bad);
    RunConcat(cfg, m, all, more);
  }

  lemma FreshHasNone(p: Parser)
    ensures FrameOf(p) == FRESH ==> !p.flags.contentLength
  {
  }

  lemma FrameFlag(f: Frame)
    ensures f.flags.contentLength <==> Holds(f, HasLength)
  {
  }

  // ---------- an instance ----------

  const GET_ROOT := RequestLine([71, 69, 84], [], [SLASH], Version([], 49, 49), [CR, LF])
  const HOST := Header([72, 111, 115, 116], [SP], [97], [Fold([CR, LF], SP, [98])], [CR, LF])
  const LENGTH := Header([67, 111, 110, 116, 101, 110, 116, 45, 76, 101, 110, 103, 116, 104], [SP], [50], [], [CR, LF])
  const EMPTY := Header([88], [], [], [], [LF])

  lemma {:induction false} GetIsLine()
    ensures IsRequestLine(GET_ROOT) && !Connects(GET_ROOT)
  {
    assert Is(MethodName(GET), GET_ROOT.verb);
  }

  lemma {:induction false} HeaderSorts()
    ensures SortOf(HOST.name).Ordinary? && SortOf(LENGTH.name).Sizing? && SortOf(EMPTY.name).Ordinary?
    ensures !BeginsTE(LowerName(HOST.name)) && !BeginsTE(LowerName(LENGTH.name)) && !BeginsTE(LowerName(EMPTY.name))
  {
  }

  lemma {:induction false} AreHeaders(cfg: Config)
    ensures IsHeader(cfg, HOST) && IsHeader(cfg, LENGTH) && IsHeader(cfg, EMPTY) && SaysLength(LENGTH, 2)
  {
    hide SortOf;
    HeaderSorts();
    assert [SP][..0] == [] && IsBlank([SP]);
    assert [50][..0] == [];
    assert Trimmed([50]) == [50];
  }

  /** A request with its Content-Length between other headers meets all that RequestRoundTrip asks for. */
  lemma {:induction false} Instance(cfg: Config) returns (r: Rest)
    ensures r == Rest([HOST, LENGTH, EMPTY], [CR, LF], Sized([104, 105]))
    ensures IsRequestLine(GET_ROOT) && IsRest(cfg, r) && Suits(cfg, Asking(Connects(GET_ROOT)), r.headers, r.body)
    ensures !Switches(Asking(Connects(GET_ROOT)), r.headers) && Persists(1, 1, r)
  {
    hide IsHeader, SortOf, LowerName, BeginsTE, IsRequestLine, Connects, SaysLength, Claims;
    GetIsLine();
    HeaderSorts();
    AreHeaders(cfg);
    var hs := [HOST, LENGTH, EMPTY];
    r := Rest(hs, [CR, LF], Sized([104, 105]));
    assert hs[1] == LENGTH;
    assert SaysLength(hs[1], 2);
    NoneClaims(hs);
  }

  lemma {:induction false} NoneClaims(hs: seq<Header>)
    requires hs == [HOST, LENGTH, EMPTY]
    ensures forall c: Claim :: c != HasLength ==> !Claims(hs, c)
  {
    hide SortOf, LowerName, BeginsTE;
    HeaderSorts();
  }
}
