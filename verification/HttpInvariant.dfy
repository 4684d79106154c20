/** What every run of the parser keeps: no C assertion can fail, the 5-bit matcher index and the
    64-bit length never wrap, and the framing rules of section 3.3.3 of RFC 7230 hold. */
module HttpInvariant {
  import opened Ascii
  import opened Options
  import opened HttpTypes
  import opened HttpTrans
  import opened HttpCalls

  /** The matchers with which a header value can be read. */
  predicate IsValueMatcher(m: Matcher) {
    m.General? || m.ContentLengthNum? || m.ContentLengthWs? || m.TeTokenStart? || m.TeMatchingChunked? || m.TeToken?
    || m.TeChunked? || m.ConnTokenStart? || m.ConnMatchingKeepAlive? || m.ConnMatchingClose? || m.ConnMatchingUpgrade?
    || m.ConnToken? || m.ConnKeepAlive? || m.ConnClose? || m.ConnUpgrade?
  }

  /** The matcher index fits its literal, so that it stays far below 32. */
  predicate IndexFits(r: Cursor) {
    match r.matcher
    case C => r.index == 0
    case CO => r.index == 1
    case CON => r.index == 2
    case TeTokenStart => r.index == 0
    case ConnTokenStart => r.index == 0
    case m => if LiteralSize(m) == 0 then r.index <= 16 else r.index + 1 < LiteralSize(m)
  }

  function LiteralSize(m: Matcher): nat {
    match m
    case MatchingConnection => 10
    case MatchingProxyConnection => 16
    case MatchingContentLength => 14
    case MatchingTransferEncoding => 17
    case MatchingUpgrade => 7
    case TeMatchingChunked => 7
    case ConnMatchingKeepAlive => 10
    case ConnMatchingClose => 5
    case ConnMatchingUpgrade => 7
    case _ => 0
  }

  lemma LiteralLength(m: Matcher)
    ensures |Literal(m)| == LiteralSize(m)
  {
  }

  predicate HeaderInv(p: Parser, s: HeaderPhase) {
    match s
    case FieldName => IsFieldMatcher(p.matcher) && IndexFits(Cursor(p.matcher, p.index))
    case ValueText => IsValueMatcher(p.matcher) && IndexFits(Cursor(p.matcher, p.index))
    case ValueLws => IsValueMatcher(p.matcher)
    case HeaderAlmostDone => IsValueMatcher(p.matcher)
    case _ => true
  }

  predicate SizeInv(p: Parser, s: SizeState) {
    p.flags.chunked && !p.flags.skipBody
    && (if s.ChunkSizeStart? then p.nread == 0 else p.length <= NO_LENGTH - 16)
  }

  predicate BodyInv(cfg: Config, p: Parser, s: BodyState) {
    !p.flags.skipBody &&
    match s
    case ChunkData => p.flags.chunked && 0 < p.length <= NO_LENGTH - 16
    case ChunkDataAlmostDone => p.flags.chunked && p.length == 0
    case ChunkDataDone => p.flags.chunked
    case BodyIdentity => !p.flags.chunked && !p.usesTE && 0 < p.length < NO_LENGTH
    case BodyIdentityEof => !p.flags.chunked && (p.kind.Request? ==> cfg.lenient)
  }

  /** Bounds of the fields of `struct http_parser`. */
  predicate FieldBounds(cfg: Config, p: Parser) {
    p.nread <= cfg.maxHeader && p.index <= 17 && (p.length == NO_LENGTH || p.length <= NO_LENGTH - 6) && p.status <= 999
  }

  predicate Inv(cfg: Config, p: Parser) {
    FieldBounds(cfg, p) &&
    match p.state
    case InLine(s) => s.ReqMethod? ==> p.index <= |MethodName(p.verb)|
    case InUrl(s) => !s.UrlStart? && !s.UrlDead?
    case InStatus => true
    case InHeader(s) => HeaderInv(p, s)
    case InSize(s) => SizeInv(p, s)
    case InBody(s) => BodyInv(cfg, p, s)
  }

  predicate Sound(cfg: Config, o: Outcome) {
    match o
    case Next(p, _) => Inv(cfg, p)
    case Quit(p, _) => Inv(cfg, p)
    case Fail(_) => true
    case Asserted => false
  }

  lemma {:induction false} MethodSound(cfg: Config, p: Parser, ch: Byte)
    requires Inv(cfg, p) && p.state == InLine(ReqMethod)
    ensures Sound(cfg, AtMethod(p, ch))
  {
    MethodLength(p.verb);
    var r := OtherMethod(p.verb, p.index, ch);
    if r.Some? {
      OtherMethodFits(p.verb, p.index, ch);
    }
  }

  lemma {:induction false} UrlCharSound(s: UrlState, ch: Byte)
    ensures !ParseUrlChar(s, ch).UrlStart?
  {
  }

  lemma MethodLength(m: Method)
    ensures 3 <= |MethodName(m)| <= 11
  {
  }

  lemma OtherMethodFits(m: Method, index: nat, ch: Byte)
    requires OtherMethod(m, index, ch).Some?
    ensures index < |MethodName(OtherMethod(m, index, ch).value)| <= 11
  {
    hide MethodName;
    MethodLength(OtherMethod(m, index, ch).value);
    LongNames();
  }

  lemma LongNames()
    ensures |MethodName(MKCALENDAR)| == 10 && |MethodName(UNLINK)| == 6 && |MethodName(PROPPATCH)| == 9
  {
  }

  predicate IsStart(s: LineState) { s.StartReqOrRes? || s.ResOrRespH? || s.StartRes? || s.StartReq? }

  lemma {:induction false} StartSound(cfg: Config, p: Parser, s: LineState, ch: Byte)
    requires Inv(cfg, p) && p.state == InLine(s) && IsStart(s)
    ensures Sound(cfg, TransLine(p, s, ch))
  {
    hide MethodName;
    MethodLength(HEAD);
    if HasMethod(ch) {
      MethodLength(FirstMethod(ch));
    }
  }

  lemma {:induction false} TargetSound(cfg: Config, p: Parser, ch: Byte)
    requires Inv(cfg, p) && p.state == InLine(ReqSpacesBeforeUrl)
    ensures Sound(cfg, TransLine(p, ReqSpacesBeforeUrl, ch))
  {
    hide ParseUrlChar, MethodName;
    UrlCharSound(ServerStart, ch);
    UrlCharSound(UrlStart, ch);
  }

  lemma {:induction false} PlainLineSound(cfg: Config, p: Parser, s: LineState, ch: Byte)
    requires Inv(cfg, p) && p.state == InLine(s) && !IsStart(s) && s != ReqMethod && s != ReqSpacesBeforeUrl
    ensures Sound(cfg, TransLine(p, s, ch))
  {
    hide AtMethod, AtSpacesBeforeUrl, AtStartReqOrRes, AtResOrRespH, AtStartRes, AtStartReq, MethodName;
  }

  lemma {:induction false} LineSound(cfg: Config, p: Parser, s: LineState, ch: Byte)
    requires Inv(cfg, p) && p.state == InLine(s)
    ensures Sound(cfg, TransLine(p, s, ch))
  {
    hide TransLine, Inv;
    if s.ReqMethod? {
      MethodSound(cfg, p, ch);
      MethodLine(p, ch);
    } else if s.ReqSpacesBeforeUrl? {
      TargetSound(cfg, p, ch);
    } else if IsStart(s) {
      StartSound(cfg, p, s, ch);
    } else {
      PlainLineSound(cfg, p, s, ch);
    }
  }

  lemma MethodLine(p: Parser, ch: Byte)
    ensures TransLine(p, ReqMethod, ch) == AtMethod(p, ch)
  {
    hide AtMethod;
  }

  lemma {:induction false} UrlSound(cfg: Config, p: Parser, s: UrlState, ch: Byte)
    requires Inv(cfg, p) && p.state == InUrl(s)
    ensures Sound(cfg, AtUrl(p, s, ch))
  {
  }

  lemma {:induction false} FramingSound(cfg: Config, p: Parser)
    requires FieldBounds(cfg, p)
    ensures Sound(cfg, AtHeadersDone(cfg, p)) && Sound(cfg, AtMessageDone(p))
  {
  }

  lemma {:induction false} HeadersDoneSound(cfg: Config, p: Parser, ch: Byte)
    requires FieldBounds(cfg, p)
    ensures Sound(cfg, AtHeadersAlmostDone(cfg, p, ch))
  {
    hide AtHeadersDone, AtMessageDone, LengthConflict;
    FramingSound(cfg, p);
    var q := WithUpgrade(p).(blocks := p.blocks + 1);
    FramingSound(cfg, q);
    FramingSound(cfg, q.(flags := q.flags.(skipBody := true)));
    FramingSound(cfg, q.(upgrade := true, flags := q.flags.(skipBody := true)));
  }

  lemma {:induction false} FieldStartSound(cfg: Config, p: Parser, ch: Byte)
    requires FieldBounds(cfg, p)
    ensures Sound(cfg, AtFieldStart(cfg, p, ch))
  {
    HeadersDoneSound(cfg, p.(state := InHeader(HeadersAlmostDone)), ch);
  }

  lemma {:induction false} NameCharSound(m: Matcher, index: nat, ch: Byte)
    requires IsFieldMatcher(m) && IndexFits(Cursor(m, index))
    ensures
      var r := NameChar(m, index, ch);
      IsFieldMatcher(r.matcher) && IndexFits(r) && r.index <= 17
  {
    hide Literal, IsAt;
    LiteralLength(m);
  }

  lemma {:induction false} FieldSound(cfg: Config, p: Parser, ch: Byte)
    requires Inv(cfg, p) && p.state == InHeader(FieldName)
    ensures Sound(cfg, AtField(p, ch))
  {
    hide NameChar;
    NameCharSound(p.matcher, p.index, ch);
  }

  /** The matchers with which a value starts. */
  predicate IsStartMatcher(m: Matcher) {
    m.General? || m.ContentLengthNum? || m.ContentLengthWs? || m.TeMatchingChunked? || m.TeToken? || m.TeTokenStart?
    || m.ConnMatchingKeepAlive? || m.ConnMatchingClose? || m.ConnMatchingUpgrade? || m.ConnToken? || m.ConnTokenStart?
  }

  lemma StartMatcherFits(m: Matcher)
    requires IsStartMatcher(m)
    ensures IsValueMatcher(m) && IndexFits(Cursor(m, 0))
  {
  }

  lemma {:induction false} ValueStartSound(cfg: Config, p: Parser, ch: Byte)
    requires FieldBounds(cfg, p)
    ensures Sound(cfg, AtValueStart(p, ch))
  {
    hide IsValueMatcher, IndexFits;
    var o := AtValueStart(p, ch);
    if o.Next? {
      StartMatcherFits(o.p.matcher);
    }
  }

  predicate IsLengthMatcher(m: Matcher) { m.ContentLengthNum? || m.ContentLengthWs? }

  lemma {:induction false} ListCharSound(m: Matcher, index: nat, ch: Byte)
    requires IsValueMatcher(m) && !m.General? && !IsLengthMatcher(m) && IndexFits(Cursor(m, index))
    ensures
      var r := ListChar(m, index, ch);
      IsValueMatcher(r.matcher) && IndexFits(r) && r.index <= 17
  {
    hide Literal, IsAt;
    LiteralLength(m);
  }

  lemma {:induction false} ValueCharSound(cfg: Config, p: Parser, ch: Byte)
    requires FieldBounds(cfg, p) && IsValueMatcher(p.matcher) && IndexFits(Cursor(p.matcher, p.index))
    ensures
      match ValueChar(p, ch)
      case Next(q, _) =>
        q.state == p.state && FieldBounds(cfg, q) && IsValueMatcher(q.matcher) && IndexFits(Cursor(q.matcher, q.index))
      case o => o.Fail?
  {
    hide ListChar;
    if !p.matcher.General? && !IsLengthMatcher(p.matcher) {
      ListCharSound(p.matcher, p.index, ch);
    }
  }

  lemma {:induction false} ValueSound(cfg: Config, p: Parser, ch: Byte)
    requires Inv(cfg, p) && p.state == InHeader(ValueText)
    ensures Sound(cfg, AtValue(cfg, p, ch))
  {
    hide ValueChar, IndexFits, IsValueMatcher;
    ValueCharSound(cfg, p, ch);
  }

  lemma {:induction false} HeaderSound(cfg: Config, p: Parser, s: HeaderPhase, ch: Byte)
    requires Inv(cfg, p) && p.state == InHeader(s)
    ensures Sound(cfg, TransHeader(cfg, p, s, ch))
  {
    hide AtFieldStart, AtValueStart, AtValue, AtField, AtHeadersAlmostDone;
    match s
    case FieldStart => FieldStartSound(cfg, p, ch);
    case FieldName => FieldSound(cfg, p, ch);
    case DiscardWs => ValueStartSound(cfg, p, ch);
    case DiscardWsAlmostDone =>
    case DiscardLws =>
      FieldStartSound(cfg, p.(flags := FinishedHeader(p), state := InHeader(FieldStart)), ch);
    case ValueText => ValueSound(cfg, p, ch);
    case ValueLws =>
      FieldStartSound(cfg, p.(flags := FinishedHeader(p), state := InHeader(FieldStart)), ch);
      ValueStartSound(cfg, p.(matcher := if p.matcher.ContentLengthNum? then ContentLengthWs else p.matcher), ch);
    case HeaderAlmostDone =>
    case HeadersAlmostDone => HeadersDoneSound(cfg, p, ch);
  }

  lemma {:induction false} SizeSound(cfg: Config, p: Parser, s: SizeState, ch: Byte)
    requires Inv(cfg, p) && p.state == InSize(s) && (p.nread + 1) % U32 <= cfg.maxHeader
    ensures Sound(cfg, TransSize(p.(nread := (p.nread + 1) % U32), s, ch))
  {
  }

  lemma {:induction false} BodySound(cfg: Config, p: Parser, s: BodyState, ch: Byte)
    requires Inv(cfg, p) && p.state == InBody(s)
    ensures Sound(cfg, TransBody(p, s, ch))
  {
  }

  lemma {:induction false} StatusSound(cfg: Config, p: Parser, ch: Byte)
    requires Inv(cfg, p) && p.state == InStatus
    ensures Sound(cfg, AtStatus(p, ch))
  {
  }

  lemma {:induction false} TurnSound(cfg: Config, p: Parser, ch: Byte)
    requires Inv(cfg, p)
    ensures Sound(cfg, Turn(cfg, p, ch))
  {
    hide TransLine, AtUrl, AtStatus, TransHeader, TransSize, TransBody;
    var n := (p.nread + 1) % U32;
    var q := p.(nread := n);
    if n <= cfg.maxHeader {
      match p.state
      case InLine(s) => LineSound(cfg, q, s, ch);
      case InUrl(s) => UrlSound(cfg, q, s, ch);
      case InStatus => StatusSound(cfg, q, ch);
      case InHeader(s) => HeaderSound(cfg, q, s, ch);
      case InSize(s) => SizeSound(cfg, p, s, ch);
      case InBody(s) => 
    }
    if p.state.InBody? {
      BodySound(cfg, p, p.state.body, ch);
    }
  }
}
