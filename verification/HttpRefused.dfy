/** What is refused, and with which error: bytes out of place in a first line or a header, heads over the limit, and
    messages the user rejects. */
module HttpRefused {
  import opened Ascii
  import opened Options
  import opened HttpTypes
  import opened HttpTrans
  import opened HttpCalls
  import opened HttpSplit
  import opened HttpFraming
  import opened HttpLength
  import opened HttpNames
  import opened HttpLine
  import opened HttpHeaders
  import opened HttpExecute
  import opened HttpMessage

  // ---------- first lines ----------

  /** The k-th byte behind the H of "HTTP/a.b" is not what must stand there; behind it a request line ends, and a status
      line goes on with a space. */
  predicate Wrong(req: bool, a: Byte, b: Byte, k: nat, c: Byte) {
    if k == 4 || k == 6 then !(48 <= c <= 57)
    else if k == 7 then (if req then c != 13 && c != 10 else c != 32)
    else k < 7 && c as char != "TTP/x.x"[k]
  }

  lemma {:induction false} WrongTurn(cfg: Config, p: Parser, req: bool, a: Byte, b: Byte, k: nat, c: Byte)
    requires k <= 7 && IsNum(a) && IsNum(b) && Wrong(req, a, b, k, c) && p.nread + k + 1 <= cfg.maxHeader
    ensures Turn(cfg, AtVersion(p, req, a, b, k), c) == Fail(if k < 4 then Strict else InvalidVersion)
  {
  }

  lemma {:induction false} VersionRefused(cfg: Config, m: Machine, req: bool, a: Byte, b: Byte, k: nat, c: Byte)
    requires k <= 7 && IsNum(a) && IsNum(b) && m.p.state == InLine(VersionState(req, 0)) && m.p.nread + k + 1 <= cfg.maxHeader
    requires Wrong(req, a, b, k, c)
    ensures Run(cfg, m, VersionText(a, b)[..k] + [c]) == Broken(if k < 4 then Strict else InvalidVersion)
  {
    hide Turn, Run, VersionText, Wrong;
    VersionPiece(cfg, m.p, m.trace, req, a, b, 0, k);
    assert AtVersion(m.p, req, a, b, 0) == m.p;
    WrongTurn(cfg, m.p, req, a, b, k, c);
    FailingByte(cfg, Machine(AtVersion(m.p, req, a, b, k), m.trace), c, if k < 4 then Strict else InvalidVersion);
    RunConcat(cfg, m, VersionText(a, b)[0..k], [c]);
  }

  /** Where a line or a protocol must begin, nothing else may. */
  lemma {:induction false} StartRefused(cfg: Config, m: Machine, c: Byte)
    requires m.p.nread + 1 <= cfg.maxHeader
    ensures m.p.state == InLine(StartRes) && c != 72 && c != 13 && c != 10 ==> Run(cfg, m, [c]) == Broken(InvalidConstant)
    ensures m.p.state == InLine(ReqHttpStart) && c != 32 && c != 72 && !(c == 73 && m.p.verb.SOURCE?) ==>
              Run(cfg, m, [c]) == Broken(InvalidConstant)
    ensures m.p.state == InLine(ResFirstStatusCode) && c != 32 && !(48 <= c <= 57) ==> Run(cfg, m, [c]) == Broken(InvalidStatus)
    ensures m.p.state == InLine(ResStatusCode) && c != 32 && c != 13 && c != 10 && !(48 <= c <= 57) ==> Run(cfg, m, [c]) == Broken(InvalidStatus)
  {
    StartTurns(cfg, m.p, c);
    var o := Turn(cfg, m.p, c);
    if o.Fail? {
      FailingByte(cfg, m, c, o.err);
    }
  }

  lemma {:induction false} StartTurns(cfg: Config, p: Parser, c: Byte)
    requires p.nread + 1 <= cfg.maxHeader
    ensures p.state == InLine(StartRes) && c != 72 && c != 13 && c != 10 ==> Turn(cfg, p, c) == Fail(InvalidConstant)
    ensures p.state == InLine(ReqHttpStart) && c != 32 && c != 72 && !(c == 73 && p.verb.SOURCE?) ==> Turn(cfg, p, c) == Fail(InvalidConstant)
    ensures p.state == InLine(ResFirstStatusCode) && c != 32 && !(48 <= c <= 57) ==> Turn(cfg, p, c) == Fail(InvalidStatus)
    ensures p.state == InLine(ResStatusCode) && c != 32 && c != 13 && c != 10 && !(48 <= c <= 57) ==> Turn(cfg, p, c) == Fail(InvalidStatus)
  {
  }

  // ---------- headers ----------

  /** A header name holds tokens only, and ends with a colon. */
  lemma {:induction false} NameRefused(cfg: Config, m: Machine, name: seq<Byte>, c: Byte)
    requires m.p.state == InHeader(FieldStart) && (name == [] || IsToken(name)) && m.p.nread + |name| + 1 <= cfg.maxHeader
    requires Token(c) == 0 && if name == [] then c != 13 && c != 10 else c != 58
    ensures Run(cfg, m, name + [c]) == Broken(InvalidHeaderToken)
  {
    hide Turn, Run, Is, IsToken, LowerName, BeginsTE, Knows;
    if name == [] {
      assert name + [c] == [c];
      NameFails(cfg, m.p, c);
      FailingByte(cfg, m, c, InvalidHeaderToken);
    } else {
      HeaderNameExact(cfg, m, name);
      var m1 := Run(cfg, m, name).m;
      NameReadState(m.p, m1.p, name);
      NameFails(cfg, m1.p, c);
      FailingByte(cfg, m1, c, InvalidHeaderToken);
      RunConcat(cfg, m, name, [c]);
    }
  }

  lemma {:induction false} NameFails(cfg: Config, p: Parser, c: Byte)
    requires p.nread + 1 <= cfg.maxHeader && Token(c) == 0
    ensures p.state == InHeader(FieldStart) && c != 13 && c != 10 ==> Turn(cfg, p, c) == Fail(InvalidHeaderToken)
    ensures p.state == InHeader(FieldName) && c != 58 ==> Turn(cfg, p, c) == Fail(InvalidHeaderToken)
  {
    hide AtHeadersAlmostDone;
  }

  /** A control character inside a value is refused, unless the settings are lenient. */
  lemma {:induction false} ValueRefused(cfg: Config, m: Machine, v: seq<Byte>, fs: seq<Fold>, c: Byte)
    requires m.p.state == InHeader(DiscardWs) && IsPlain(m.p.matcher) && IsValue(cfg, v) && v != []
    requires forall i :: 0 <= i < |fs| ==> IsFold(cfg, fs[i])
    requires m.p.nread + |v + FoldsText(fs)| + 1 <= cfg.maxHeader && !cfg.lenient
    requires (c < 32 && c != 9 && c != 10 && c != 13) || c == 127
    ensures Run(cfg, m, v + FoldsText(fs) + [c]) == Broken(InvalidHeaderToken)
  {
    hide Turn, Run, FoldsText, FoldsValue, IsValue, IsFold, IsPlain;
    FoldsRead(cfg, m, v, fs);
    var m1 := Run(cfg, m, v + FoldsText(fs)).m;
    ValueFails(cfg, m1.p, c);
    FailingByte(cfg, m1, c, InvalidHeaderToken);
    RunConcat(cfg, m, v + FoldsText(fs), [c]);
  }

  lemma {:induction false} ValueFails(cfg: Config, p: Parser, c: Byte)
    requires p.nread + 1 <= cfg.maxHeader && !cfg.lenient && p.state == InHeader(ValueText)
    requires (c < 32 && c != 9 && c != 10 && c != 13) || c == 127
    ensures Turn(cfg, p, c) == Fail(InvalidHeaderToken)
  {
    hide ValueChar;
  }

  lemma {:induction false} LengthEndTurn(cfg: Config, p: Parser, c: Byte)
    requires p.nread + 1 <= cfg.maxHeader && p.state == InHeader(ValueText) && c != 10 && c != 13 && c != 32
    requires p.matcher.ContentLengthWs? || (p.matcher.ContentLengthNum? && !(48 <= c <= 57))
    ensures Turn(cfg, p, c) == Fail(if !cfg.lenient && !IsHeaderChar(c) then InvalidHeaderToken else InvalidContentLength)
  {
    hide ListChar, AtFieldStart, AtValueStart;
  }

  /** Behind the number of a Content-Length only spaces may stand, and behind these nothing else, no second number
      either. */
  lemma {:induction false} LengthGarbled(cfg: Config, m: Machine, v: seq<Byte>, c: Byte)
    requires AtLength(m.p) && IsLength(v) && m.p.nread + |v| + 1 <= cfg.maxHeader
    requires c != 10 && c != 13 && c != 32 && (48 <= c <= 57 ==> v[|v| - 1] == 32)
    ensures Run(cfg, m, v + [c]) == Broken(if !cfg.lenient && !IsHeaderChar(c) then InvalidHeaderToken else InvalidContentLength)
  {
    hide Turn, Run, DecValue, Representable, IsHeaderChar;
    LengthValueRead(cfg, m, v);
    var m1 := Machine(LengthParser(m.p, v), Append(m.trace, OnValue, v));
    LengthEndTurn(cfg, m1.p, c);
    FailingByte(cfg, m1, c, if !cfg.lenient && !IsHeaderChar(c) then InvalidHeaderToken else InvalidContentLength);
    RunConcat(cfg, m, v, [c]);
  }

  lemma {:induction false} NoLengthTurn(cfg: Config, p: Parser, c: Byte)
    requires p.nread + 1 <= cfg.maxHeader && p.state == InHeader(DiscardLws) && p.matcher.ContentLength? && c != 32 && c != 9
    ensures Turn(cfg, p, c) == Fail(InvalidContentLength)
  {
    hide AtFieldStart;
  }

  /** A Content-Length without a value is refused when its line is over. */
  lemma {:induction false} LengthMissing(cfg: Config, m: Machine, end: seq<Byte>, c: Byte)
    requires AtLength(m.p) && IsEnd(end) && m.p.nread + |end| + 1 <= cfg.maxHeader && c != 32 && c != 9
    ensures Run(cfg, m, end + [c]) == Broken(InvalidContentLength)
  {
    hide Turn, Run, IsEnd;
    EmptyRead(cfg, m, end);
    var m1 := Machine(m.p.(state := InHeader(DiscardLws), nread := m.p.nread + |end|), m.trace);
    NoLengthTurn(cfg, m1.p, c);
    FailingByte(cfg, m1, c, InvalidContentLength);
    RunConcat(cfg, m, end, [c]);
  }

  /** Behind a CR that ends a line only an LF may stand. */
  lemma {:induction false} LineFeedMissing(cfg: Config, m: Machine, c: Byte)
    requires c != 10 && m.p.nread + 1 <= cfg.maxHeader
    ensures m.p.state == InLine(ReqLineAlmostDone) || m.p.state == InHeader(HeaderAlmostDone) ==> Run(cfg, m, [c]) == Broken(LfExpected)
    ensures m.p.state == InLine(ResLineAlmostDone) || m.p.state == InHeader(DiscardWsAlmostDone) || m.p.state == InHeader(HeadersAlmostDone) ==>
              Run(cfg, m, [c]) == Broken(Strict)
  {
    LineFeedTurns(cfg, m.p, c);
    var o := Turn(cfg, m.p, c);
    if o.Fail? {
      FailingByte(cfg, m, c, o.err);
    }
  }

  lemma {:induction false} LineFeedTurns(cfg: Config, p: Parser, c: Byte)
    requires c != 10 && p.nread + 1 <= cfg.maxHeader
    ensures p.state == InLine(ReqLineAlmostDone) || p.state == InHeader(HeaderAlmostDone) ==> Turn(cfg, p, c) == Fail(LfExpected)
    ensures p.state == InLine(ResLineAlmostDone) || p.state == InHeader(DiscardWsAlmostDone) || p.state == InHeader(HeadersAlmostDone) ==>
              Turn(cfg, p, c) == Fail(Strict)
  {
  }

  // ---------- chunks ----------

  lemma {:induction false} ChunkTurns(cfg: Config, p: Parser, c: Byte)
    requires p.flags.chunked && p.nread + 1 <= cfg.maxHeader
    ensures p.state == InSize(ChunkSizeStart) && p.nread == 0 && c < 128 && !OneOf(c, "0123456789abcdefABCDEF") ==> Turn(cfg, p, c) == Fail(InvalidChunkSize)
    ensures p.state == InSize(ChunkSize) && c < 128 && !OneOf(c, "0123456789abcdefABCDEF; ") && c != 13 ==> Turn(cfg, p, c) == Fail(InvalidChunkSize)
    ensures p.state == InSize(ChunkSizeAlmostDone) && c != 10 ==> Turn(cfg, p, c) == Fail(Strict)
    ensures p.state == InBody(ChunkDataAlmostDone) && p.length == 0 && c != 13 ==> Turn(cfg, p, c) == Fail(Strict)
    ensures p.state == InBody(ChunkDataDone) && c != 10 ==> Turn(cfg, p, c) == Fail(Strict)
  {
    UnhexIs(0, c);
  }

  /** The size of a chunk starts with a hexadecimal digit, its line and its data end with CR LF. */
  lemma {:induction false} ChunkRefused(cfg: Config, m: Machine, c: Byte)
    requires m.p.flags.chunked && m.p.nread + 1 <= cfg.maxHeader
    ensures m.p.state == InSize(ChunkSizeStart) && m.p.nread == 0 && c < 128 && !OneOf(c, "0123456789abcdefABCDEF") ==>
              Run(cfg, m, [c]) == Broken(InvalidChunkSize)
    ensures m.p.state == InSize(ChunkSize) && c < 128 && !OneOf(c, "0123456789abcdefABCDEF; ") && c != 13 ==> Run(cfg, m, [c]) == Broken(InvalidChunkSize)
    ensures m.p.state == InSize(ChunkSizeAlmostDone) && c != 10 ==> Run(cfg, m, [c]) == Broken(Strict)
    ensures m.p.state == InBody(ChunkDataAlmostDone) && m.p.length == 0 && c != 13 ==> Run(cfg, m, [c]) == Broken(Strict)
    ensures m.p.state == InBody(ChunkDataDone) && c != 10 ==> Run(cfg, m, [c]) == Broken(Strict)
  {
    hide Turn, OneOf;
    ChunkTurns(cfg, m.p, c);
    var o := Turn(cfg, m.p, c);
    if o.Fail? {
      FailingByte(cfg, m, c, o.err);
    }
  }

  // ---------- the limit on heads ----------

  /** The settings with another limit. */
  function WithLimit(cfg: Config, n: nat): Config
    requires n < U32
  {
    cfg.(maxHeader := n)
  }

  lemma SameEnd(cfg: Config, p: Parser, ch: Byte, n: nat)
    requires n < U32
    ensures AtHeadersAlmostDone(WithLimit(cfg, n), p, ch) == AtHeadersAlmostDone(cfg, p, ch)
  {
    hide MessageNeedsEof, ShouldKeepAlive, WithUpgrade;
  }

  lemma SameHeader(cfg: Config, p: Parser, s: HeaderPhase, ch: Byte, n: nat)
    requires n < U32
    ensures TransHeader(WithLimit(cfg, n), p, s, ch) == TransHeader(cfg, p, s, ch)
  {
    hide AtHeadersAlmostDone, AtValueStart, NameChar, FinishedHeader, ValueChar;
    SameEnd(cfg, p, ch, n);
    SameEnd(cfg, p.(state := InHeader(HeadersAlmostDone)), ch, n);
    SameEnd(cfg, p.(flags := FinishedHeader(p), state := InHeader(HeadersAlmostDone)), ch, n);
  }

  lemma {:induction false} SameTurn(cfg: Config, p: Parser, ch: Byte, n: nat)
    requires n < U32 && p.nread + 1 <= n
    ensures Turn(cfg, p, ch) == if !p.state.InBody? && p.nread + 1 > cfg.maxHeader then Fail(HeaderOverflow) else Turn(WithLimit(cfg, n), p, ch)
  {
    hide TransLine, AtUrl, AtStatus, TransHeader, TransSize, TransBody;
    if p.state.InHeader? {
      SameHeader(cfg, p.(nread := p.nread + 1), p.state.header, ch, n);
    }
  }

  lemma BodyKeepsCount(p: Parser, s: BodyState, ch: Byte)
    ensures var o := TransBody(p, s, ch); o.Next? ==> o.p.nread <= p.nread
  {
    hide MessageNeedsEof, ShouldKeepAlive;
  }

  lemma {:induction false} LimitByte(cfg: Config, m: Machine, ch: Byte, n: nat, m': Machine)
    requires n < U32 && m.p.nread + 1 <= n && Run(WithLimit(cfg, n), m, [ch]) == Ready(m')
    ensures m'.p.nread <= m.p.nread + 1
    ensures m'.p.nread == m.p.nread + 1 ==>
              Run(cfg, m, [ch]) == if m.p.nread + 1 <= cfg.maxHeader then Ready(m') else Broken(HeaderOverflow)
  {
    hide Turn, TransBody;
    SingleByte(WithLimit(cfg, n), m, ch);
    SingleByte(cfg, m, ch);
    SameTurn(cfg, m.p, ch, n);
    HttpExecute.TurnCounts(WithLimit(cfg, n), m.p, ch);
    InBodyTurn(WithLimit(cfg, n), m.p, ch);
  }

  lemma InBodyTurn(cfg: Config, p: Parser, ch: Byte)
    ensures p.state.InBody? ==> (Turn(cfg, p, ch).Next? ==> Turn(cfg, p, ch).p.nread <= p.nread)
  {
    hide TransLine, AtUrl, AtStatus, TransHeader, TransSize, TransBody;
    if p.state.InBody? {
      BodyKeepsCount(p, p.state.body, ch);
    }
  }

  /** What is read with a larger limit, and counted byte by byte, is read with this one up to the limit. */
  lemma {:induction false} LimitRun(cfg: Config, m: Machine, s: seq<Byte>, n: nat, m': Machine)
    requires n < U32 && m.p.nread + |s| <= n && m.p.nread <= cfg.maxHeader
    requires Run(WithLimit(cfg, n), m, s) == Ready(m')
    ensures m'.p.nread <= m.p.nread + |s|
    ensures m'.p.nread == m.p.nread + |s| ==> Run(cfg, m, s) == if m.p.nread + |s| <= cfg.maxHeader then Ready(m') else Broken(HeaderOverflow)
    decreases |s|
  {
    hide Run, WithLimit;
    if s == [] {
      EmptyRun(WithLimit(cfg, n), m);
      EmptyRun(cfg, m);
    } else {
      var k := |s| - 1;
      assert s == s[..k] + [s[k]];
      RunConcat(WithLimit(cfg, n), m, s[..k], [s[k]]);
      RunConcat(cfg, m, s[..k], [s[k]]);
      var m1 := Run(WithLimit(cfg, n), m, s[..k]).m;
      LimitRun(cfg, m, s[..k], n, m1);
      LimitByte(cfg, m1, s[k], n, m');
    }
  }

  lemma SameHeaders(cfg: Config, hs: seq<Header>, n: nat)
    requires n < U32 && IsHeaders(cfg, hs)
    ensures IsHeaders(WithLimit(cfg, n), hs)
  {
    hide SortOf;
    forall i | 0 <= i < |hs| ensures IsHeader(WithLimit(cfg, n), hs[i]) {
      assert IsHeader(cfg, hs[i]);
    }
  }

  lemma FreshLine(p: Parser, q: Parser, a: nat, b: nat, n: nat)
    requires OnlyLine(ResetMessage(p).(major := a, minor := b), q, n)
    ensures FrameOf(q) == FRESH && q.nread == p.nread + n
  {
  }

  lemma CountIs(q: Machine)
    ensures Settled(q).p.nread == q.p.nread
  {
  }

  /** The head of a request, up to its empty line, is refused if it is longer than the limit. */
  lemma {:induction false} TooLongHead(cfg: Config, m: Machine, x: RequestLine, hs: seq<Header>)
    requires IsRequestLine(x) && IsHeaders(cfg, hs) && m.p.state == InLine(StartReq)
    requires m.p.nread <= cfg.maxHeader < m.p.nread + |RequestText(x) + HeaderText(hs)| < U32
    ensures Run(cfg, m, RequestText(x) + HeaderText(hs)) == Broken(HeaderOverflow)
  {
    hide Run, RequestText, HeaderText, Connects, MethodName, Is, FrameAfter, IsHeaders, WithLimit, Settled, IsMethodName, Claims;
    var text := RequestText(x) + HeaderText(hs);
    var n := m.p.nread + |text|;
    var big := WithLimit(cfg, n);
    LimitIs(cfg, n);
    SameHeaders(cfg, hs, n);
    VerbFits(x);
    NameMayBe(big, m, x.verb);
    var p := RequestLineRead(big, m, x);
    FreshLine(m.p, p, Major(x.version), Minor(x.version), |RequestText(x)|);
    var m1 := Machine(p, m.trace + [Note(MessageBegin), Data(OnUrl, x.target)]);
    UrlIsSeparate(m.trace, x.target);
    var q := HeadersRead(big, m1, hs);
    CountIs(q);
    Continue(big, m, RequestText(x), m1, HeaderText(hs), q);
    LimitRun(cfg, m, text, n, q);
  }

  lemma LimitIs(cfg: Config, n: nat)
    requires n < U32
    ensures WithLimit(cfg, n).maxHeader == n
  {
  }

  // ---------- messages the user rejects ----------

  lemma {:induction false} OverRejects(cfg: Config, p: Parser, n: nat)
    requires !p.flags.trailing && !LengthConflict(cfg, p) && cfg.answer(p.blocks) == Reject
    ensures Over(cfg, p, n) == Fail(CbHeadersComplete)
  {
  }

  /** The user rejects a request at the end of its headers. */
  lemma {:induction false} RequestRejected(cfg: Config, m: Machine, x: RequestLine, hs: seq<Header>, end: seq<Byte>)
    requires IsRequestLine(x) && IsHeaders(cfg, hs) && IsEnd(end) && LengthsAgree(cfg, hs)
    requires m.p.state == InLine(StartReq) && m.p.kind.Request? && cfg.answer(m.p.blocks) == Reject
    requires m.p.nread + |RequestText(x)| + |HeaderText(hs)| + |end| <= cfg.maxHeader
    ensures Run(cfg, m, RequestText(x) + (HeaderText(hs) + end)) == Broken(CbHeadersComplete)
  {
    hide Run, RequestText, HeaderText, HeaderEvents, Connects, MethodName, Is, FrameAfter, IsHeaders, IsMethodName, Claims, Over, LengthConflict,
      LengthsAgree, IsEnd, IsRequestLine;
    VerbFits(x);
    RequestVerb(x);
    NameMayBe(cfg, m, x.verb);
    var p := RequestLineRead(cfg, m, x);
    FreshLine(m.p, p, Major(x.version), Minor(x.version), |RequestText(x)|);
    var m1 := Machine(p, m.trace + [Note(MessageBegin), Data(OnUrl, x.target)]);
    UrlIsSeparate(m.trace, x.target);
    var q := SectionRead(cfg, m1, hs, end);
    ConflictClaims(cfg, p, hs, |HeaderText(hs)|, q);
    OverRejects(cfg, q, |end|);
    RunConcat(cfg, m, RequestText(x), HeaderText(hs) + end);
  }

  lemma RequestVerb(x: RequestLine)
    requires IsRequestLine(x)
    ensures IsMethodName(x.verb) && IsVersion(x.version)
  {
  }
}
