/** The byte transition of `http_parser_execute`, one function per family of states.
    A jump to `reexecute` is a call of the function of the state jumped to. */
module HttpTrans {
  import opened Ascii
  import opened Options
  import opened HttpTypes

  // ---------- keep-alive and end-of-message rules ----------

  predicate MessageNeedsEof(p: Parser) {
    if p.kind.Request? then false
    else if p.status / 100 == 1 || p.status == 204 || p.status == 304 || p.flags.skipBody then false
    else if p.usesTE && !p.flags.chunked then true
    else if p.flags.chunked || p.length != NO_LENGTH then false
    else true
  }

  predicate ShouldKeepAlive(p: Parser) {
    (if p.major > 0 && p.minor > 0 then !p.flags.close else p.flags.keepAlive) && !MessageNeedsEof(p)
  }

  function NewMessage(p: Parser): State {
    InLine(if !ShouldKeepAlive(p) then Dead else if p.kind.Request? then StartReq else StartRes)
  }

  // ---------- first line ----------

  function ResetMessage(p: Parser): Parser {
    p.(flags := NO_FLAGS, usesTE := false, length := NO_LENGTH)
  }

  predicate IsEol(ch: Byte) { ch == CR || ch == LF }

  function FirstMethod(ch: Byte): (m: Method)
    requires HasMethod(ch)
  {
    match ch
    case 65 => ACL case 66 => BIND case 67 => CONNECT case 68 => DELETE case 71 => GET case 72 => HEAD
    case 76 => LOCK case 77 => MKCOL case 78 => NOTIFY case 79 => OPTIONS case 80 => POST case 82 => REPORT
    case 83 => SUBSCRIBE case 84 => TRACE case _ => UNLOCK
  }

  /** A B C D G H L M N O P R S T U */
  predicate HasMethod(ch: Byte) { 65 <= ch <= 68 || ch == 71 || ch == 72 || 76 <= ch <= 80 || 82 <= ch <= 85 }

  function AtStartReq(p: Parser, ch: Byte): Outcome {
    if IsEol(ch) then Next(p, Nil)
    else if !HasMethod(ch) then Fail(InvalidMethod)
    else Next(ResetMessage(p).(verb := FirstMethod(ch), index := 1, state := InLine(ReqMethod)), One(Notify(MessageBegin)))
  }

  function AtStartRes(p: Parser, ch: Byte): Outcome {
    if IsEol(ch) then Next(p, Nil)
    else if ch != 72 then Fail(InvalidConstant)
    else Next(ResetMessage(p).(state := InLine(ResH)), One(Notify(MessageBegin)))
  }

  function AtStartReqOrRes(p: Parser, ch: Byte): Outcome {
    if IsEol(ch) then Next(p, Nil)
    else if ch == 72 then Next(ResetMessage(p).(state := InLine(ResOrRespH)), One(Notify(MessageBegin)))
    else AtStartReq(ResetMessage(p).(kind := Request, state := InLine(StartReq)), ch)
  }

  function AtResOrRespH(p: Parser, ch: Byte): Outcome {
    if ch == 84 then Next(p.(kind := Response, state := InLine(ResHT)), Nil)
    else if ch != 69 then Fail(InvalidConstant)
    else Next(p.(kind := Request, verb := HEAD, index := 2, state := InLine(ReqMethod)), Nil)
  }

  /** STRICT_CHECK(ch != want), then a state change. */
  function Expect(p: Parser, ch: Byte, want: Byte, err: Errno, s: State): Outcome {
    if ch != want then Fail(err) else Next(p.(state := s), Nil)
  }

  function AtStatus(p: Parser, ch: Byte): Outcome {
    if ch == CR then Next(p.(state := InLine(ResLineAlmostDone)), One(Flush(OnStatus)))
    else if ch == LF then Next(p.(state := InHeader(FieldStart)), One(Flush(OnStatus)))
    else Next(p, Nil)
  }

  function AtStatusStart(p: Parser, ch: Byte): Outcome {
    var q := p.(state := InStatus, index := 0);
    if IsEol(ch) then Before(Mark(OnStatus), AtStatus(q, ch)) else Next(q, One(Mark(OnStatus)))
  }

  function AtStatusCode(p: Parser, ch: Byte): Outcome {
    if IsNum(ch) then
      var v := p.status * 10 + (ch - 48);
      if v > 999 then Fail(InvalidStatus) else Next(p.(status := v), Nil)
    else if ch == SP then Next(p.(state := InLine(ResStatusStart)), Nil)
    else if IsEol(ch) then AtStatusStart(p.(state := InLine(ResStatusStart)), ch)
    else Fail(InvalidStatus)
  }

  function AtFirstStatusCode(p: Parser, ch: Byte): Outcome {
    if IsNum(ch) then Next(p.(status := ch - 48, state := InLine(ResStatusCode)), Nil)
    else if ch == SP then Next(p, Nil)
    else Fail(InvalidStatus)
  }

  /** The switch that turns the method guessed so far into another one. */
  function OtherMethod(m: Method, index: nat, ch: Byte): Option<Method> {
    match m
    case POST => if index != 1 then None else if ch == 85 then Some(PUT) else if ch == 65 then Some(PATCH)
                 else if ch == 82 then Some(PROPFIND) else None
    case PUT => if index == 2 && ch == 82 then Some(PURGE) else None
    case CONNECT => if index == 1 && ch == 72 then Some(CHECKOUT) else if index == 2 && ch == 80 then Some(COPY) else None
    case MKCOL => if index == 1 && ch == 79 then Some(MOVE) else if index == 1 && ch == 69 then Some(MERGE)
                  else if index == 1 && ch == 45 then Some(MSEARCH) else if index == 2 && ch == 65 then Some(MKACTIVITY)
                  else if index == 3 && ch == 65 then Some(MKCALENDAR) else None
    case SUBSCRIBE => if index == 1 && ch == 69 then Some(SEARCH) else if index == 1 && ch == 79 then Some(SOURCE) else None
    case REPORT => if index == 2 && ch == 66 then Some(REBIND) else None
    case PROPFIND => if index == 4 && ch == 80 then Some(PROPPATCH) else None
    case LOCK => if index == 1 && ch == 73 then Some(LINK) else None
    case UNLOCK => if index == 2 && ch == 83 then Some(UNSUBSCRIBE) else if index == 2 && ch == 66 then Some(UNBIND)
                   else if index == 3 && ch == 73 then Some(UNLINK) else None
    case _ => None
  }

  function AtMethod(p: Parser, ch: Byte): Outcome {
    if ch == SP && p.index == |MethodName(p.verb)| then
      Next(p.(state := InLine(ReqSpacesBeforeUrl), index := p.index + 1), Nil)
    else if IsAt(MethodName(p.verb), p.index, ch) then
      Next(p.(index := p.index + 1), Nil)
    else
      var r := if 65 <= ch <= 90 || ch == DASH then OtherMethod(p.verb, p.index, ch) else None;
      if r.None? then Fail(InvalidMethod) else Next(p.(verb := r.value, index := p.index + 1), Nil)
  }

  /** `parse_url_char` in strict mode. */
  function ParseUrlChar(s: UrlState, ch: Byte): UrlState {
    if ch == SP || ch == CR || ch == LF || ch == HT || ch == 12 then UrlDead
    else match s
      case UrlStart => if ch == SLASH || ch == STAR then Path else if IsAlpha(ch) then Schema else UrlDead
      case Schema => if IsAlpha(ch) then s else if ch == COLON then SchemaSlash else UrlDead
      case SchemaSlash => if ch == SLASH then SchemaSlashSlash else UrlDead
      case SchemaSlashSlash => if ch == SLASH then ServerStart else UrlDead
      case ServerWithAt => if ch == AT then UrlDead else ParseServerChar(ch)
      case ServerStart => ParseServerChar(ch)
      case Server => ParseServerChar(ch)
      case Path =>
        if IsUrlChar(ch) then s else if ch == QUESTION then QueryStart
        else if ch == HASH then FragmentStart else UrlDead
      case QueryStart =>
        if IsUrlChar(ch) || ch == QUESTION then Query else if ch == HASH then FragmentStart else UrlDead
      case Query =>
        if IsUrlChar(ch) || ch == QUESTION then Query else if ch == HASH then FragmentStart else UrlDead
      case FragmentStart =>
        if IsUrlChar(ch) || ch == QUESTION then Fragment else if ch == HASH then s else UrlDead
      case Fragment => if IsUrlChar(ch) || ch == QUESTION || ch == HASH then s else UrlDead
      case UrlDead => UrlDead
  }

  function ParseServerChar(ch: Byte): UrlState {
    if ch == SLASH then Path
    else if ch == QUESTION then QueryStart
    else if ch == AT then ServerWithAt
    else if IsUserInfoChar(ch) || ch == LBRACKET || ch == RBRACKET then Server
    else UrlDead
  }

  function UrlChar(p: Parser, from: UrlState, ch: Byte, acts: Script): Outcome {
    var s := ParseUrlChar(from, ch);
    if s.UrlDead? then Fail(InvalidUrl) else Next(p.(state := InUrl(s)), acts)
  }

  function AtSpacesBeforeUrl(p: Parser, ch: Byte): Outcome {
    if ch == SP then Next(p, Nil)
    else UrlChar(p, if p.verb.CONNECT? then ServerStart else UrlStart, ch, One(Mark(OnUrl)))
  }

  /** The states in which the target cannot end yet. */
  predicate UrlCannotEnd(s: UrlState) {
    s.Schema? || s.SchemaSlash? || s.SchemaSlashSlash? || s.ServerStart?
  }

  function AtUrl(p: Parser, s: UrlState, ch: Byte): Outcome {
    if UrlCannotEnd(s) then
      if ch == SP || IsEol(ch) then Fail(InvalidUrl) else UrlChar(p, s, ch, Nil)
    else if ch == SP then Next(p.(state := InLine(ReqHttpStart)), One(Flush(OnUrl)))
    else if IsEol(ch) then
      Next(p.(major := 0, minor := 9, state := if ch == CR then InLine(ReqLineAlmostDone) else InHeader(FieldStart)),
           One(Flush(OnUrl)))
    else UrlChar(p, s, ch, Nil)
  }

  function AtHttpStart(p: Parser, ch: Byte): Outcome {
    if ch == SP then Next(p, Nil)
    else if ch == 72 then Next(p.(state := InLine(ReqHttpH)), Nil)
    else if ch == 73 && p.verb.SOURCE? then Next(p.(state := InLine(ReqHttpI)), Nil)
    else Fail(InvalidConstant)
  }

  function AtMajor(p: Parser, ch: Byte, s: LineState): Outcome {
    if IsNum(ch) then Next(p.(major := ch - 48, state := InLine(s)), Nil) else Fail(InvalidVersion)
  }

  function AtMinor(p: Parser, ch: Byte, s: LineState): Outcome {
    if IsNum(ch) then Next(p.(minor := ch - 48, state := InLine(s)), Nil) else Fail(InvalidVersion)
  }

  function AtReqEnd(p: Parser, ch: Byte): Outcome {
    if ch == CR then Next(p.(state := InLine(ReqLineAlmostDone)), Nil)
    else if ch == LF then Next(p.(state := InHeader(FieldStart)), Nil)
    else Fail(InvalidVersion)
  }

  // ---------- end of the headers ----------

  function AtMessageDone(p: Parser): Outcome {
    var q := p.(state := NewMessage(p));
    if p.upgrade then Quit(q, One(Notify(MessageComplete))) else Next(q, One(Notify(MessageComplete)))
  }

  /** `s_headers_done`: framing as section 3.3.3 of RFC 7230 asks. */
  function AtHeadersDone(cfg: Config, p0: Parser): Outcome {
    var p := p0.(nread := 0);
    var hasBody := p.flags.chunked || (p.length > 0 && p.length != NO_LENGTH);
    var done := p.(state := NewMessage(p));
    if p.upgrade && (p.verb.CONNECT? || p.flags.skipBody || !hasBody) then Quit(done, One(Notify(MessageComplete)))
    else if p.flags.skipBody then Next(done, One(Notify(MessageComplete)))
    else if p.flags.chunked then Next(p.(state := InSize(ChunkSizeStart)), Nil)
    else if p.usesTE then
      if p.kind.Request? && !cfg.lenient then Fail(InvalidTransferEncoding) else Next(p.(state := InBody(BodyIdentityEof)), Nil)
    else if p.length == 0 then Next(done, One(Notify(MessageComplete)))
    else if p.length != NO_LENGTH then Next(p.(state := InBody(BodyIdentity)), Nil)
    else if !MessageNeedsEof(p) then Next(done, One(Notify(MessageComplete)))
    else Next(p.(state := InBody(BodyIdentityEof)), Nil)
  }

  predicate LengthConflict(cfg: Config, p: Parser) {
    p.usesTE && p.flags.contentLength && (if p.flags.chunked then !cfg.allowChunkedLength else !cfg.lenient)
  }

  function WithUpgrade(p: Parser): Parser {
    p.(upgrade := if p.flags.upgrade && p.flags.connUpgrade then p.kind.Request? || p.status == 101
                  else p.verb.CONNECT?)
  }

  function AtHeadersAlmostDone(cfg: Config, p: Parser, ch: Byte): Outcome {
    if ch != LF then Fail(Strict)
    else if p.flags.trailing then Before(Notify(ChunkComplete), AtMessageDone(p))
    else if LengthConflict(cfg, p) then Fail(UnexpectedContentLength)
    else
      var q := WithUpgrade(p).(blocks := p.blocks + 1);
      match cfg.answer(p.blocks)
      case Proceed => Before(Notify(HeadersComplete), AtHeadersDone(cfg, q))
      case SkipBody =>
        Before(Notify(HeadersComplete), AtHeadersDone(cfg, q.(flags := q.flags.(skipBody := true))))
      case SkipBodyAndUpgrade =>
        Before(Notify(HeadersComplete),
             AtHeadersDone(cfg, q.(upgrade := true, flags := q.flags.(skipBody := true))))
      case Reject => Fail(CbHeadersComplete)
  }

  // ---------- header names ----------

  function MatcherStart(c: Byte): Matcher {
    if c == 99 then C
    else if c == 112 then MatchingProxyConnection
    else if c == 116 then MatchingTransferEncoding
    else if c == 117 then MatchingUpgrade
    else General
  }

  function AtFieldStart(cfg: Config, p: Parser, ch: Byte): Outcome {
    if ch == CR then Next(p.(state := InHeader(HeadersAlmostDone)), Nil)
    else if ch == LF then AtHeadersAlmostDone(cfg, p.(state := InHeader(HeadersAlmostDone)), ch)
    else if Token(ch) == 0 then Fail(InvalidHeaderToken)
    else Next(p.(index := 0, state := InHeader(FieldName), matcher := MatcherStart(Token(ch))), One(Mark(OnField)))
  }

  predicate IsFieldMatcher(h: Matcher) {
    h.General? || h.C? || h.CO? || h.CON? || h.MatchingConnection? || h.MatchingProxyConnection?
    || h.MatchingContentLength? || h.MatchingTransferEncoding? || h.MatchingUpgrade?
    || h.Connection? || h.ContentLength? || h.TransferEncoding? || h.Upgrade?
  }

  /** The literal a matcher is in the middle of. */
  function Literal(m: Matcher): string {
    match m
    case MatchingConnection => "connection"
    case MatchingProxyConnection => "proxy-connection"
    case MatchingContentLength => "content-length"
    case MatchingTransferEncoding => "transfer-encoding"
    case MatchingUpgrade => "upgrade"
    case TeMatchingChunked => "chunked"
    case ConnMatchingKeepAlive => "keep-alive"
    case ConnMatchingClose => "close"
    case ConnMatchingUpgrade => "upgrade"
    case _ => ""
  }

  /** One more byte of a literal: still matching, matched, or given up. */
  function Match(name: string, index: nat, c: Byte, still: Matcher, done: Matcher, lost: Matcher): Matcher {
    if !IsAt(name, index, c) then lost else if index == |name| - 1 then done else still
  }

  /** A matcher and its position in the literal. */
  datatype Cursor = Cursor(matcher: Matcher, index: nat)

  /** A token byte inside a header name: the matcher of the framing headers. */
  function NameChar(m: Matcher, index: nat, ch: Byte): Cursor {
    var c := Token(ch);
    var i := index + 1;
    match m
    case General => Cursor(m, index)
    case C => Cursor(if c == 111 then CO else General, i)
    case CO => Cursor(if c == 110 then CON else General, i)
    case CON => Cursor(if c == 110 then MatchingConnection else if c == 116 then MatchingContentLength else General, i)
    case MatchingConnection => Cursor(Match(Literal(m), i, c, m, Connection, General), i)
    case MatchingProxyConnection => Cursor(Match(Literal(m), i, c, m, Connection, General), i)
    case MatchingContentLength => Cursor(Match(Literal(m), i, c, m, ContentLength, General), i)
    case MatchingTransferEncoding => Cursor(Match(Literal(m), i, c, m, TransferEncoding, General), i)
    case MatchingUpgrade => Cursor(Match(Literal(m), i, c, m, Upgrade, General), i)
    case _ => Cursor(General, index)
  }

  function FieldChar(p: Parser, ch: Byte): Parser {
    var r := NameChar(p.matcher, p.index, ch);
    p.(matcher := r.matcher, index := r.index, usesTE := p.usesTE || r.matcher.TransferEncoding?)
  }

  function AtField(p: Parser, ch: Byte): Outcome {
    if Token(ch) != 0 then
      if IsFieldMatcher(p.matcher) then Next(FieldChar(p, ch), Nil) else Asserted
    else if ch == COLON then Next(p.(state := InHeader(DiscardWs)), One(Flush(OnField)))
    else Fail(InvalidHeaderToken)
  }

  // ---------- header values ----------

  function AtValueStart(p0: Parser, ch: Byte): Outcome {
    var p := p0.(state := InHeader(ValueText), index := 0);
    var c := Lower(ch);
    match p.matcher
    case Upgrade => Next(p.(flags := p.flags.(upgrade := true), matcher := General), One(Mark(OnValue)))
    case TransferEncoding => Next(p.(matcher := if c == 99 then TeMatchingChunked else TeToken), One(Mark(OnValue)))
    case TeTokenStart => Next(p, One(Mark(OnValue)))
    case ContentLength =>
      if !IsNum(ch) then Fail(InvalidContentLength)
      else if p.flags.contentLength then Fail(UnexpectedContentLength)
      else Next(p.(flags := p.flags.(contentLength := true), length := ch - 48, matcher := ContentLengthNum), One(Mark(OnValue)))
    case ContentLengthWs => Next(p, One(Mark(OnValue)))
    case Connection => Next(p.(matcher := ConnTokenFirst(c, ConnToken)), One(Mark(OnValue)))
    case ConnTokenStart => Next(p, One(Mark(OnValue)))
    case _ => Next(p.(matcher := General), One(Mark(OnValue)))
  }

  function ConnTokenFirst(c: Byte, other: Matcher): Matcher {
    if c == 107 then ConnMatchingKeepAlive
    else if c == 99 then ConnMatchingClose
    else if c == 117 then ConnMatchingUpgrade
    else other
  }

  function ContentLengthChar(p: Parser, ch: Byte): Outcome {
    if ch == SP then Next(p.(matcher := ContentLengthWs), Nil)
    else if !IsNum(ch) then Fail(InvalidContentLength)
    else if (NO_LENGTH - 10) / 10 < p.length then Fail(InvalidContentLength)
    else Next(p.(matcher := ContentLengthNum, length := p.length * 10 + (ch - 48)), Nil)
  }

  /** What a token list does with a byte that starts no known token. */
  function OtherTokenStart(c: Byte, start: Matcher, token: Matcher): Matcher {
    if Token(c) != 0 then token else if c == SP || c == HT then start else General
  }

  function FinishedConnToken(p: Parser): Flags {
    match p.matcher
    case ConnKeepAlive => p.flags.(keepAlive := true)
    case ConnClose => p.flags.(close := true)
    case ConnUpgrade => p.flags.(connUpgrade := true)
    case _ => p.flags
  }

  /** A byte inside the value of a Transfer-Encoding or Connection header: matching the tokens
      of a comma-separated list. */
  function ListChar(m: Matcher, index: nat, ch: Byte): Cursor {
    var c := Lower(ch);
    var i := index + 1;
    match m
    case TeTokenStart => Cursor(if c == 99 then TeMatchingChunked else OtherTokenStart(c, m, TeToken), index)
    case TeMatchingChunked => Cursor(Match(Literal(m), i, c, m, TeChunked, TeToken), i)
    case TeToken => if ch == COMMA then Cursor(TeTokenStart, 0) else Cursor(m, index)
    case TeChunked => Cursor(if ch == SP then m else TeToken, index)
    case ConnTokenStart => Cursor(ConnTokenFirst(c, OtherTokenStart(c, m, ConnToken)), index)
    case ConnMatchingKeepAlive => Cursor(Match(Literal(m), i, c, m, ConnKeepAlive, ConnToken), i)
    case ConnMatchingClose => Cursor(Match(Literal(m), i, c, m, ConnClose, ConnToken), i)
    case ConnMatchingUpgrade => Cursor(Match(Literal(m), i, c, m, ConnUpgrade, ConnToken), i)
    case ConnToken => if ch == COMMA then Cursor(ConnTokenStart, 0) else Cursor(m, index)
    case ConnKeepAlive => EndOfConnToken(m, index, ch)
    case ConnClose => EndOfConnToken(m, index, ch)
    case ConnUpgrade => EndOfConnToken(m, index, ch)
    case _ => Cursor(General, index)
  }

  function EndOfConnToken(m: Matcher, index: nat, ch: Byte): Cursor {
    if ch == COMMA then Cursor(ConnTokenStart, 0) else Cursor(if ch == SP then m else ConnToken, index)
  }

  /** A byte other than CR and LF inside a header value. */
  function ValueChar(p: Parser, ch: Byte): Outcome {
    match p.matcher
    case General => Next(p, Nil)
    case Connection => Asserted
    case TransferEncoding => Asserted
    case ContentLength => if ch == SP then Next(p, Nil) else ContentLengthChar(p, ch)
    case ContentLengthNum => ContentLengthChar(p, ch)
    case ContentLengthWs => if ch == SP then Next(p, Nil) else Fail(InvalidContentLength)
    case _ =>
      var r := ListChar(p.matcher, p.index, ch);
      Next(p.(matcher := r.matcher, index := r.index, flags := if ch == COMMA then FinishedConnToken(p) else p.flags), Nil)
  }

  function AtValue(cfg: Config, p: Parser, ch: Byte): Outcome {
    if ch == CR then Next(p.(state := InHeader(HeaderAlmostDone)), One(Flush(OnValue)))
    else if ch == LF then Next(p.(state := InHeader(ValueLws)), One(Flush(OnValue)))
    else if !cfg.lenient && !IsHeaderChar(ch) then Fail(InvalidHeaderToken)
    else ValueChar(p, ch)
  }

  function AtDiscardWs(p: Parser, ch: Byte): Outcome {
    if ch == SP || ch == HT then Next(p, Nil)
    else if ch == CR then Next(p.(state := InHeader(DiscardWsAlmostDone)), Nil)
    else if ch == LF then Next(p.(state := InHeader(DiscardLws)), Nil)
    else AtValueStart(p, ch)
  }

  /** The flags once a header is complete. */
  function FinishedHeader(p: Parser): Flags {
    if p.matcher.TeChunked? then p.flags.(chunked := true) else FinishedConnToken(p)
  }

  function AtValueLws(cfg: Config, p: Parser, ch: Byte): Outcome {
    if ch == SP || ch == HT then
      AtValueStart(p.(matcher := if p.matcher.ContentLengthNum? then ContentLengthWs else p.matcher), ch)
    else AtFieldStart(cfg, p.(flags := FinishedHeader(p), state := InHeader(FieldStart)), ch)
  }

  function AtDiscardLws(cfg: Config, p: Parser, ch: Byte): Outcome {
    if ch == SP || ch == HT then Next(p.(state := InHeader(DiscardWs)), Nil)
    else if p.matcher.ContentLength? then Fail(InvalidContentLength)
    else Before(Mark(OnValue), Before(Flush(OnValue),
              AtFieldStart(cfg, p.(flags := FinishedHeader(p), state := InHeader(FieldStart)), ch)))
  }

  // ---------- bodies ----------

  function AtBodyIdentity(p: Parser): Outcome {
    if p.length == 0 || p.length == NO_LENGTH then Asserted
    else
      var q := p.(length := p.length - 1);
      if q.length == 0 then Before(Mark(OnBody), Before(FlushIncluding(OnBody), AtMessageDone(q))) else Next(q, One(Mark(OnBody)))
  }

  function AtChunkSizeStart(p: Parser, ch: Byte): Outcome {
    if p.nread != 1 || !p.flags.chunked then Asserted
    else if Unhex(ch) == -1 then Fail(InvalidChunkSize)
    else Next(p.(length := Unhex(ch), state := InSize(ChunkSize)), Nil)
  }

  function AtChunkSize(p: Parser, ch: Byte): Outcome {
    if !p.flags.chunked then Asserted
    else if ch == CR then Next(p.(state := InSize(ChunkSizeAlmostDone)), Nil)
    else if Unhex(ch) == -1 then
      if ch == SEMICOLON || ch == SP then Next(p.(state := InSize(ChunkParameters)), Nil) else Fail(InvalidChunkSize)
    else if (NO_LENGTH - 16) / 16 < p.length then Fail(InvalidContentLength)
    else Next(p.(length := p.length * 16 + Unhex(ch)), Nil)
  }

  function AtChunkParameters(p: Parser, ch: Byte): Outcome {
    if !p.flags.chunked then Asserted
    else if ch == CR then Next(p.(state := InSize(ChunkSizeAlmostDone)), Nil)
    else Next(p, Nil)
  }

  function AtChunkSizeAlmostDone(p: Parser, ch: Byte): Outcome {
    if !p.flags.chunked then Asserted
    else if ch != LF then Fail(Strict)
    else if p.length == 0 then
      Next(p.(nread := 0, flags := p.flags.(trailing := true), state := InHeader(FieldStart)), One(Notify(ChunkHeader)))
    else Next(p.(nread := 0, state := InBody(ChunkData)), One(Notify(ChunkHeader)))
  }

  function AtChunkData(p: Parser): Outcome {
    if !p.flags.chunked || p.length == 0 || p.length == NO_LENGTH then Asserted
    else Next(p.(length := p.length - 1, state := if p.length == 1 then InBody(ChunkDataAlmostDone) else InBody(ChunkData)), One(Mark(OnBody)))
  }

  function AtChunkDataAlmostDone(p: Parser, ch: Byte): Outcome {
    if !p.flags.chunked || p.length != 0 then Asserted
    else if ch != CR then Fail(Strict)
    else Next(p.(state := InBody(ChunkDataDone)), One(Flush(OnBody)))
  }

  function AtChunkDataDone(p: Parser, ch: Byte): Outcome {
    if !p.flags.chunked then Asserted
    else if ch != LF then Fail(Strict)
    else Next(p.(nread := 0, state := InSize(ChunkSizeStart)), One(Notify(ChunkComplete)))
  }

  // ---------- dispatch ----------

  function TransLine(p: Parser, s: LineState, ch: Byte): Outcome {
    match s
    case Dead => if IsEol(ch) then Next(p, Nil) else Fail(ClosedConnection)
    case StartReqOrRes => AtStartReqOrRes(p, ch)
    case ResOrRespH => AtResOrRespH(p, ch)
    case StartRes => AtStartRes(p, ch)
    case ResH => Expect(p, ch, 84, Strict, InLine(ResHT))
    case ResHT => Expect(p, ch, 84, Strict, InLine(ResHTT))
    case ResHTT => Expect(p, ch, 80, Strict, InLine(ResHTTP))
    case ResHTTP => Expect(p, ch, SLASH, Strict, InLine(ResMajor))
    case ResMajor => AtMajor(p, ch, ResDot)
    case ResDot => Expect(p, ch, DOT, InvalidVersion, InLine(ResMinor))
    case ResMinor => AtMinor(p, ch, ResEnd)
    case ResEnd => Expect(p, ch, SP, InvalidVersion, InLine(ResFirstStatusCode))
    case ResFirstStatusCode => AtFirstStatusCode(p, ch)
    case ResStatusCode => AtStatusCode(p, ch)
    case ResStatusStart => AtStatusStart(p, ch)
    case ResLineAlmostDone => Expect(p, ch, LF, Strict, InHeader(FieldStart))
    case StartReq => AtStartReq(p, ch)
    case ReqMethod => AtMethod(p, ch)
    case ReqSpacesBeforeUrl => AtSpacesBeforeUrl(p, ch)
    case ReqHttpStart => AtHttpStart(p, ch)
    case ReqHttpH => Expect(p, ch, 84, Strict, InLine(ReqHttpHT))
    case ReqHttpHT => Expect(p, ch, 84, Strict, InLine(ReqHttpHTT))
    case ReqHttpHTT => Expect(p, ch, 80, Strict, InLine(ReqHttpHTTP))
    case ReqHttpI => Expect(p, ch, 67, Strict, InLine(ReqHttpIC))
    case ReqHttpIC => Expect(p, ch, 69, Strict, InLine(ReqHttpHTTP))
    case ReqHttpHTTP => Expect(p, ch, SLASH, Strict, InLine(ReqMajor))
    case ReqMajor => AtMajor(p, ch, ReqDot)
    case ReqDot => Expect(p, ch, DOT, InvalidVersion, InLine(ReqMinor))
    case ReqMinor => AtMinor(p, ch, ReqEnd)
    case ReqEnd => AtReqEnd(p, ch)
    case ReqLineAlmostDone => Expect(p, ch, LF, LfExpected, InHeader(FieldStart))
  }

  function TransHeader(cfg: Config, p: Parser, s: HeaderPhase, ch: Byte): Outcome {
    match s
    case FieldStart => AtFieldStart(cfg, p, ch)
    case FieldName => AtField(p, ch)
    case DiscardWs => AtDiscardWs(p, ch)
    case DiscardWsAlmostDone => Expect(p, ch, LF, Strict, InHeader(DiscardLws))
    case DiscardLws => AtDiscardLws(cfg, p, ch)
    case ValueText => AtValue(cfg, p, ch)
    case ValueLws => AtValueLws(cfg, p, ch)
    case HeaderAlmostDone => Expect(p, ch, LF, LfExpected, InHeader(ValueLws))
    case HeadersAlmostDone => AtHeadersAlmostDone(cfg, p, ch)
  }

  function TransSize(p: Parser, s: SizeState, ch: Byte): Outcome {
    match s
    case ChunkSizeStart => AtChunkSizeStart(p, ch)
    case ChunkSize => AtChunkSize(p, ch)
    case ChunkParameters => AtChunkParameters(p, ch)
    case ChunkSizeAlmostDone => AtChunkSizeAlmostDone(p, ch)
  }

  function TransBody(p: Parser, s: BodyState, ch: Byte): Outcome {
    match s
    case ChunkData => AtChunkData(p)
    case ChunkDataAlmostDone => AtChunkDataAlmostDone(p, ch)
    case ChunkDataDone => AtChunkDataDone(p, ch)
    case BodyIdentity => AtBodyIdentity(p)
    case BodyIdentityEof => Next(p, One(Mark(OnBody)))
  }

  function Trans(cfg: Config, p: Parser, ch: Byte): Outcome {
    match p.state
    case InLine(s) => TransLine(p, s, ch)
    case InUrl(s) => AtUrl(p, s, ch)
    case InStatus => AtStatus(p, ch)
    case InHeader(s) => TransHeader(cfg, p, s, ch)
    case InSize(s) => TransSize(p, s, ch)
    case InBody(s) => TransBody(p, s, ch)
  }

  /** One turn of the main loop: COUNT_HEADER_SIZE(1) on a 32-bit counter, then the switch. */
  function Turn(cfg: Config, p: Parser, ch: Byte): Outcome {
    if p.state.InBody? then Trans(cfg, p, ch)
    else
      var n := (p.nread + 1) % U32;
      if n > cfg.maxHeader then Fail(HeaderOverflow) else Trans(cfg, p.(nread := n), ch)
  }
}
