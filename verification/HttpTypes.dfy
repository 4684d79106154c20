/** The parser record, its enumerations and the notifications it sends. */
module HttpTypes {
  import opened Ascii
  import opened Options

  const U32: nat := 0x1_0000_0000
  type Uint32 = x: int | 0 <= x < 0x1_0000_0000
  /** The value of `content_length` when no Content-Length header was seen. */
  const NO_LENGTH: nat := 0xFFFF_FFFF_FFFF_FFFF

  /** The states of the first line in which the parser can rest between two bytes ... */
  datatype LineState =
    | Dead | StartReqOrRes | ResOrRespH | StartRes
    | ResH | ResHT | ResHTT | ResHTTP | ResMajor | ResDot | ResMinor | ResEnd
    | ResFirstStatusCode | ResStatusCode | ResStatusStart | ResLineAlmostDone
    | StartReq | ReqMethod | ReqSpacesBeforeUrl
    | ReqHttpStart | ReqHttpH | ReqHttpHT | ReqHttpHTT | ReqHttpHTTP | ReqHttpI | ReqHttpIC
    | ReqMajor | ReqDot | ReqMinor | ReqEnd | ReqLineAlmostDone

  /** ... of a request target; `UrlStart` is `s_req_spaces_before_url` and `UrlDead` is `s_dead`
      as `parse_url_char` sees them ... */
  datatype UrlState =
    | UrlStart | Schema | SchemaSlash | SchemaSlashSlash | ServerStart | Server | ServerWithAt
    | Path | QueryStart | Query | FragmentStart | Fragment | UrlDead

  /** ... of the header lines ... */
  datatype HeaderPhase =
    | FieldStart | FieldName | DiscardWs | DiscardWsAlmostDone | DiscardLws
    | ValueText | ValueLws | HeaderAlmostDone | HeadersAlmostDone

  /** ... of a chunk size line ... */
  datatype SizeState = ChunkSizeStart | ChunkSize | ChunkParameters | ChunkSizeAlmostDone

  /** ... and of a body. */
  datatype BodyState = ChunkData | ChunkDataAlmostDone | ChunkDataDone | BodyIdentity | BodyIdentityEof

  /** `enum state`. Only the bytes of body states do not count against the header limit. */
  datatype State =
    | InLine(line: LineState) | InUrl(url: UrlState) | InStatus
    | InHeader(header: HeaderPhase) | InSize(size: SizeState) | InBody(body: BodyState)

  datatype Matcher =
    | General | C | CO | CON
    | MatchingConnection | MatchingProxyConnection | MatchingContentLength
    | MatchingTransferEncoding | MatchingUpgrade
    | Connection | ContentLength | ContentLengthNum | ContentLengthWs | TransferEncoding | Upgrade
    | TeTokenStart | TeMatchingChunked | TeToken
    | ConnTokenStart | ConnMatchingKeepAlive | ConnMatchingClose | ConnMatchingUpgrade | ConnToken
    | TeChunked | ConnKeepAlive | ConnClose | ConnUpgrade

  datatype Kind = Request | Response | Both

  datatype Flags = Flags(chunked: bool, keepAlive: bool, close: bool, connUpgrade: bool,
                         trailing: bool, upgrade: bool, skipBody: bool, contentLength: bool)

  const NO_FLAGS := Flags(false, false, false, false, false, false, false, false)

  datatype Method =
    | DELETE | GET | HEAD | POST | PUT | CONNECT | OPTIONS | TRACE
    | COPY | LOCK | MKCOL | MOVE | PROPFIND | PROPPATCH | SEARCH | UNLOCK | BIND | REBIND | UNBIND | ACL
    | REPORT | MKACTIVITY | CHECKOUT | MERGE | MSEARCH | NOTIFY | SUBSCRIBE | UNSUBSCRIBE
    | PATCH | PURGE | MKCALENDAR | LINK | UNLINK | SOURCE

  function MethodName(m: Method): string {
    match m
    case DELETE => "DELETE" case GET => "GET" case HEAD => "HEAD" case POST => "POST" case PUT => "PUT"
    case CONNECT => "CONNECT" case OPTIONS => "OPTIONS" case TRACE => "TRACE" case COPY => "COPY"
    case LOCK => "LOCK" case MKCOL => "MKCOL" case MOVE => "MOVE" case PROPFIND => "PROPFIND"
    case PROPPATCH => "PROPPATCH" case SEARCH => "SEARCH" case UNLOCK => "UNLOCK" case BIND => "BIND"
    case REBIND => "REBIND" case UNBIND => "UNBIND" case ACL => "ACL" case REPORT => "REPORT"
    case MKACTIVITY => "MKACTIVITY" case CHECKOUT => "CHECKOUT" case MERGE => "MERGE"
    case MSEARCH => "M-SEARCH" case NOTIFY => "NOTIFY" case SUBSCRIBE => "SUBSCRIBE"
    case UNSUBSCRIBE => "UNSUBSCRIBE" case PATCH => "PATCH" case PURGE => "PURGE"
    case MKCALENDAR => "MKCALENDAR" case LINK => "LINK" case UNLINK => "UNLINK" case SOURCE => "SOURCE"
  }

  /** The fields of `struct http_parser` that `http_parser_execute` reads or writes.
      `blocks` counts the header blocks completed so far; it is not in the source and only
      indexes the answers of the on_headers_complete callback. */
  datatype Parser = Parser(
    kind: Kind, flags: Flags, state: State, matcher: Matcher, index: nat, usesTE: bool,
    nread: nat, length: nat, major: nat, minor: nat, status: nat, verb: Method, upgrade: bool,
    blocks: nat)

  /** What on_headers_complete returns: 0, 1, 2 or anything else. */
  datatype Answer = Proceed | SkipBody | SkipBodyAndUpgrade | Reject

  datatype Config = Config(lenient: bool, allowChunkedLength: bool, maxHeader: Uint32, answer: nat -> Answer)

  datatype Errno =
    | CbHeadersComplete | InvalidEofState | HeaderOverflow | ClosedConnection
    | InvalidVersion | InvalidStatus | InvalidMethod | InvalidUrl | LfExpected | InvalidHeaderToken
    | InvalidContentLength | UnexpectedContentLength | InvalidChunkSize | InvalidConstant
    | Strict | InvalidTransferEncoding

  /** The data callbacks ... */
  datatype Element = OnUrl | OnStatus | OnField | OnValue | OnBody
  /** ... and the notification callbacks. */
  datatype Notice = MessageBegin | HeadersComplete | ChunkHeader | ChunkComplete | MessageComplete

  /** The callback macros as they occur while one byte is processed: MARK, CALLBACK_DATA
      (up to and excluding the byte), the variant that includes the byte, CALLBACK_NOTIFY. */
  datatype Action = Mark(e: Element) | Flush(e: Element) | FlushIncluding(e: Element) | Notify(n: Notice)

  /** The actions of one byte, in order. */
  datatype Script = Nil | Act(a: Action, rest: Script)

  function One(a: Action): Script { Act(a, Nil) }

  /** What processing one byte does. `Quit` is the early return taken on a protocol upgrade.
      `Asserted` means a C assertion of the source would be violated. */
  datatype Outcome =
    | Next(p: Parser, acts: Script)
    | Quit(p: Parser, acts: Script)
    | Fail(err: Errno)
    | Asserted

  /** Puts an action in front of those of an outcome. */
  function Before(a: Action, o: Outcome): Outcome {
    match o
    case Next(p, acts) => Next(p, Act(a, acts))
    case Quit(p, acts) => Quit(p, Act(a, acts))
    case Fail(e) => Fail(e)
    case Asserted => Asserted
  }
}
