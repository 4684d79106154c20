# Verified core of the is2 server's protocol code

A Dafny 4.11 model of the parts of is2 that decide what bytes on the wire mean, with proofs over all inputs and
all runs. `dafny verify dfyconfig.toml` checks everything.

* **The incremental HTTP/1.x parser** (`Ascii`, `HttpTypes`, `HttpTrans`, `HttpCalls`, `HttpSplit`, `HttpInvariant`,
  `HttpExecute`, `HttpFraming`, `HttpLength`, `HttpNames`, `HttpLine`, `HttpLists`, `HttpHeaders`, `HttpMessage`,
  `HttpConnection`, `HttpRefused`, `HttpKind`). `HttpTrans.Turn` is the effect of one byte, as a function. `HttpExecute.HttpParser` is the parser object
  whose `Execute` has the bulk loops of the source over header names, header values and bodies; it is proved to do what
  `Turn` does byte by byte. Reading, cutting and framing are then proved about the byte machine: `HttpLine` for first
  lines, `HttpHeaders` for any list of headers and the framing it announces, `HttpLists` for the words in their values,
  `HttpMessage` for whole requests and responses, `HttpConnection` for one message behind the other, and `HttpRefused`
  for what is out of place.
* **The URL splitter** (`Url`, `UrlHost`, `UrlSplit`): two passes over the buffer whose slices tile the URL.
  `UrlGrammar`, `UrlAuthority` and `UrlText` are the URLs as texts: exactly these are accepted, with exactly their parts.
* **DNS names and packets** (`DnsNames`, `DnsText`, `DnsTextForms`, `DnsPacket`, `DnsRecords`, `DnsWriter`, `DnsParsers`):
  the wire and the text form of names, decompression, the walk over the answer section, and the two-pass parsers for
  addresses and mail exchangers. `DnsPacket.Spelling` and `DnsWriter` say how names, records and replies are written.
* **The asynchronous DNS resolver**. `Resolver`, `ResolverSearch`, `ResolverRuns` and `ResolverTime` are the machine over
  values with its history, its invariant and the bounds over whole runs; `ResolverReplies` tells what a reply does by its
  bytes alone. `ResolverQueue` and `ResolverContext` are the
  objects: queries in a doubly linked list ordered by deadline, the search buffer, and the operations, each proved to be
  the step of the machine.
* **The reactor's timers** (`Timers`, `Reactor`), **certificate names with wildcards** (`HostCheck`) and **Base64**
  (`Base64`).

## How it is modelled

* A byte is an integer from 0 to 255. Widths are written out where they matter: the 32-bit header counter, the 64-bit
  Content-Length with its "none" value 2^64-1, the 16-bit URL offsets, the 32-bit shift of the resolver's timeout, the
  cast of the wait to a 32-bit int, the unsigned chars of Base64.
* The HTTP parser is the strict build with callbacks that return 0, except `on_headers_complete`, whose answer for the
  k-th header block is the arbitrary function `cfg.answer`. Neighbouring data callbacks for one element are joined in the
  trace of notifications; nothing else about them is forgotten.
* In the resolver the network and the random numbers are arbitrary functions (`cfg.net`, `cfg.draw`), time is a parameter,
  bit masks of servers are sets of server numbers, and a user callback is an entry in a list. Fields `past`, `cur` and
  `replies` of a query are history for the claims; the source does not store them.
* The priority queue of the timers is a set from which any timer that is due first may come out.

Where the code does something a reader of its documentation would not expect, the model follows the code:

* `uses_transfer_encoding` is set as soon as a header name begins with "transfer-encoding", so a longer name sets it too
  (`HttpNames.HeaderNameExact`, and `HasCoding` in `HttpHeaders`).
* A connection stays open by default when both version numbers are positive; 2.0 counts as an old version
  (`HttpMessage.RequestRoundTrip`).
* In a list of words, a comma behind the beginning of a known word, as in "c, close", is taken for its next letter, and
  the word behind it is missed; in a Transfer-Encoding this also happens behind "chunked" itself.
  `HttpLists.ConnectionWords` and `HttpLists.CodingEnds` say exactly which words are found, `HttpLists.CloseMissed` is an
  input on which one is not. The lower-casing also turns a tab and an underscore at the start of a word into bytes that
  end the search.
* A Content-Length without a Transfer-Encoding frames even a response with code 204 or 304, and trailer headers can still
  ask to close the connection (`HttpMessage.ResponseRoundTrip`).
* After a chunked message the header counter is not reset: the next message starts with the bytes of the trailer and the
  closing empty line already counted (`HttpMessage.ChunksBody`).
* The late count of a bulk loop agrees with counting each byte unless the 32-bit counter wraps
  (`HttpExecute.CountedExact`).
* The table `unhex` is zero from 0x80 on, so such bytes count as the digit 0 in a chunk size; the chunk claims are about
  sizes written with hexadecimal digits.
* The URL slices are 16-bit: they survive exactly when they start and are shorter than 65536 bytes (`Url.StoredExact`);
  a path of 65536 bytes is reported as empty (`Url.LongPath`).
* `dns_getdn` tests the room for the final zero against the start of the buffer, so a name whose labels alone fill the
  buffer puts its zero one byte beyond it. `DnsPacket.GetDn` says exactly when; every packet is safe if and only if the
  size is at most 1 or more than 255 (`DnsPacket.RoomIsEnough`), and `DnsPacket.CallersOverrun` is a packet for the 255
  bytes that all callers pass.
* `dns_skipdn` refuses a name whose compression pointer ends the packet, where `dns_getdn` accepts it
  (`DnsPacket.SkipAgrees`).
* `dns_timeouts` casts its wait to an int: the wait is right if and only if the next deadline is less than 2^31 seconds
  away (`ResolverTime.WaitLeast`), and settings that the options allow go beyond that (`ResolverTime.WaitTurnsNegative`).
* `dns_newid` gives up after five draws, so two queries in flight may share an id; a reply is then matched against the
  first of them only.

## Model

| member | source | states |
|---|---|---|
| `HttpSplit.CallIsRun` | ext/http_parser/http_parser.cc:641-2155 | one call on a nonempty buffer ends in the same parser, sends the same notifications with the same bytes, or fails with the same error, as one call per byte |
| `HttpSplit.RunConcat` | ext/http_parser/http_parser.cc:687-716 | reading two stretches of bytes is reading the first and going on with the second |
| `HttpSplit.SplitInvariance` | ext/http_parser/http_parser.cc:641-2155 | read-split invariance: however the input is cut into nonempty pieces, the calls do together what one call does |
| `HttpSplit.OneMark` | ext/http_parser/http_parser.cc:2118-2139 | at the end of a call at most one of the five marks is set |
| `HttpInvariant.TurnSound` | ext/http_parser/http_parser.cc:712-2116 | every byte in every state that keeps the invariant keeps it, and violates no assertion of the source |
| `HttpExecute.RunSound` | ext/http_parser/http_parser.cc:712-2139 | no assertion is reachable over any run, the last one included: a call that runs to its end leaves at most one mark open; matcher index, status code, length and counter stay in bounds, framing flags agree with the state |
| `HttpExecute.WithinLimit` | ext/http_parser/http_parser.cc:154-161 | while the bytes fit the header limit, the limit is never the error: then the errors of the two parsers agree |
| `HttpExecute.FieldRun` | ext/http_parser/http_parser.cc:1256-1373 | the bulk loop over a header name stops at the first byte that is no token, in the state the byte machine reaches there |
| `HttpExecute.ValueRun` | ext/http_parser/http_parser.cc:1482-1706 | the bulk loop over a header value, with its inner search for the line end, stops where and as the byte machine does |
| `HttpExecute.FieldTurn` | ext/http_parser/http_parser.cc:1256-1391 | header name with the late count of its bytes: same result as counting each byte |
| `HttpExecute.ValueTurn` | ext/http_parser/http_parser.cc:1482-1706 | header value with the late count of its bytes: same result as counting each byte |
| `HttpExecute.BodyTake` | ext/http_parser/http_parser.cc:1944-1979 | taking a whole stretch of body at once is the same as byte by byte, for a body with a length and for chunk data |
| `HttpExecute.EofTake` | ext/http_parser/http_parser.cc:1981-1985 | so is taking the rest of the buffer for a body that ends with the connection |
| `HttpExecute.OneTurn` | ext/http_parser/http_parser.cc:712-720 | one turn of the main loop advances and agrees with the byte machine |
| `HttpExecute.HttpParser.constructor` | ext/http_parser/http_parser.cc:2224-2233 | a new parser satisfies the invariant |
| `HttpExecute.HttpParser.Execute` | ext/http_parser/http_parser.cc:641-2155 | refinement: the imperative parser with its bulk loops is the byte machine, the number of bytes consumed is exact, and so is the error, except that another one may be set where the byte machine finds the header limit exceeded |
| `HttpExecute.HttpParser.ExecuteEof` | ext/http_parser/http_parser.cc:660-684 | end of input completes a message only in the state that waits for it, and is an error in the middle of a message |
| `HttpFraming.SizeDigits` | ext/http_parser/http_parser.cc:1996-2047 | a chunk size is accepted if and only if its value is at most 2^64-17, and is then the value of its hexadecimal digits, in either case and with leading zeros |
| `HttpFraming.ChunkRead` | ext/http_parser/http_parser.cc:1996-2116 | one chunk delivers its header, exactly its data, and its end |
| `HttpLength.ContentLengthExact` | ext/http_parser/http_parser.cc:1436-1570 | a Content-Length is accepted if and only if it passes the overflow test, and is then the number written; nothing wraps and the "none" value is never met |
| `HttpLength.IdentityBody` | ext/http_parser/http_parser.cc:1944-1979 | exactly the announced number of bytes is delivered before the end of the message |
| `HttpNames.MethodExact` | ext/http_parser/http_parser.cc:927-1022 | the switching guesses accept a word before a space if and only if it is the name of a method, and recognise exactly that method; any other word is an invalid method |
| `HttpNames.HeaderNameExact` | ext/http_parser/http_parser.cc:1206-1391 | the nested matcher recognises exactly the five framing names ignoring case, and delivers the name; when the Transfer-Encoding flag is set |
| `HttpLine.StatusCodeExact` | ext/http_parser/http_parser.cc:850-893 | a status code is accepted if and only if its value is at most 999, and is that value |
| `HttpLine.StatusLineRead` | ext/http_parser/http_parser.cc:769-925 | a status line, with any number of spaces before the code and with or without a reason, gives the version, the code and the reason that were written, or fails when the code is too large |
| `HttpLine.RequestLineRead` | ext/http_parser/http_parser.cc:927-1204 | a request line, CONNECT, more spaces, a missing version and the ICE version of SOURCE included, gives the method, the target and the version that were written, or 0.9; the targets are those of the URL grammar |
| `HttpLine.HeaderStartRead` | ext/http_parser/http_parser.cc:1206-1406 | a header name, its colon and blanks, line ends with a blank behind them included: the name is delivered, and the value is read as that header's |
| `HttpLists.ConnectionWords` | ext/http_parser/http_parser.cc:1460-1698 | a Connection header sets exactly the flags of the words among those elements of its list that the matcher looks at: all but those behind an element that swallows its comma |
| `HttpLists.CodingEnds` | ext/http_parser/http_parser.cc:1423-1674 | a Transfer-Encoding is taken as chunked if and only if its last element is that word, in any case, and is looked at |
| `HttpLists.AllAwake` | ext/http_parser/http_parser.cc:1579-1698 | every element is looked at when none but the last could be taken for the beginning of a known word |
| `HttpLists.WordMissed` | ext/http_parser/http_parser.cc:1633-1669 | the word behind an element that swallows its comma is missed |
| `HttpLists.CloseMissed` | ext/http_parser/http_parser.cc:1644-1669 | an input with which that happens |
| `HttpHeaders.HeaderRead` | ext/http_parser/http_parser.cc:1206-1793 | any header line, an empty value and a value folded over several lines included: its name and value are delivered, and the framing changes as the header says |
| `HttpHeaders.HeadersRead` | ext/http_parser/http_parser.cc:1206-1793 | any list of headers is delivered name by name and value by value, in order |
| `HttpHeaders.FrameClaims` | ext/http_parser/http_parser.cc:1719-1793 | each framing flag is set if and only if some header of the list says so |
| `HttpHeaders.FrameLength` | ext/http_parser/http_parser.cc:1436-1577 | the length is the number in the one Content-Length header, wherever it stands |
| `HttpMessage.ChunksBody` | ext/http_parser/http_parser.cc:1996-2116 | every partition of a body into chunks is delivered as exactly that body, then any trailer headers, then one message end |
| `HttpMessage.EofBody` | ext/http_parser/http_parser.cc:1981-1985 | everything up to the end of the connection is delivered as body |
| `HttpMessage.BodyDelivered` | ext/http_parser/http_parser.cc:1944-2106 | what reaches on_body is the body, whatever it is framed by |
| `HttpMessage.RequestRoundTrip` | ext/http_parser/http_parser.cc:927-2116 | a whole request, with any list of headers, without a body, with a Content-Length or chunked with trailers, cut anywhere, causes exactly the callbacks of its parts in order; then the connection is handed over, or the parser waits for another request if and only if the headers and the version say so |
| `HttpMessage.ResponseRoundTrip` | ext/http_parser/http_parser.cc:769-2116 | the same for a response, whose body may also go on to the end of the connection |
| `HttpMessage.LengthDelimitedMessage` | ext/http_parser/http_parser.cc:1874-1979 | Content-Length exactness: wherever the header stands, exactly the announced number of bytes reaches on_body before the end of the message, however the input is cut |
| `HttpMessage.ConnectionDecides` | ext/http_parser/http_parser.cc:2159-2205 | with one Connection header that is a list of words, another request may follow if and only if the words found and the version say so |
| `HttpMessage.HandedOver` | ext/http_parser/http_parser.cc:1874-1891 | behind a CONNECT or an upgraded request nothing more is read, and the number of bytes consumed is the length of the message |
| `HttpMessage.BodySkipped` | ext/http_parser/http_parser.cc:1839-1896 | a response whose body the user skips is over at the empty line, whatever its headers say |
| `HttpMessage.AmbiguousRefused` | ext/http_parser/http_parser.cc:1806-1919 | a request with both framings, or with a coding that does not end in chunked, is refused at the end of its headers with the right error, unless the settings allow it |
| `HttpMessage.LengthRefused` | ext/http_parser/http_parser.cc:1436-1448 | a second Content-Length is refused, and so is one that does not start with a digit |
| `HttpMessage.Instance` | ext/http_parser/http_parser.cc:927-1979 | a request with its Content-Length between other headers, one of them empty, meets all that these claims ask for |
| `HttpConnection.Pipeline` | ext/http_parser/http_parser.cc:927-1994 | requests, or responses, back to back on one connection, empty lines between them included, are delivered one after the other, cut into calls anywhere, as long as each but the last leaves the connection open |
| `HttpConnection.ClosedBehind` | ext/http_parser/http_parser.cc:721-729 | behind a message that does not leave the connection open CR and LF are consumed without a callback, and any other byte, another message as well, fails with the closed-connection error, for every cut |
| `HttpConnection.TwoRequests` | ext/http_parser/http_parser.cc:927-1994 | two requests meet what `Pipeline` asks for |
| `Ascii.LetterTokens` | ext/http_parser/http_parser.cc:189-222 | letters are tokens, in lower case |
| `Ascii.OtherTokens` | ext/http_parser/http_parser.cc:189-222 | so are digits and the marks listed, and nothing else |
| `Ascii.HeaderCharIs` | ext/http_parser/http_parser.cc:449-450 | the bytes a header value may hold |
| `Ascii.UnhexIs` | ext/http_parser/http_parser.cc:224-241 | hexadecimal digits in either case have their values; the table is zero behind its first half |
| `HttpRefused.VersionRefused` | ext/http_parser/http_parser.cc:788-848 | the first byte that is out of place in "HTTP/a.b", or behind it, is refused with the right error, in a request and in a response |
| `HttpRefused.StartRefused` | ext/http_parser/http_parser.cc:769-893 | so is a first byte that begins no response, no protocol, or no status code |
| `HttpRefused.NameRefused` | ext/http_parser/http_parser.cc:1206-1391 | a header name holds tokens only and ends with a colon |
| `HttpRefused.ValueRefused` | ext/http_parser/http_parser.cc:1498-1526 | a control character inside a header value is refused unless the settings are lenient |
| `HttpRefused.LengthGarbled` | ext/http_parser/http_parser.cc:1547-1577 | behind the number of a Content-Length only spaces may stand, and behind these nothing else, no second number either |
| `HttpRefused.LengthMissing` | ext/http_parser/http_parser.cc:1759-1783 | a Content-Length without a value is refused |
| `HttpRefused.LineFeedMissing` | ext/http_parser/http_parser.cc:1708-1797 | behind the CR of a line end only an LF is taken |
| `HttpRefused.ChunkRefused` | ext/http_parser/http_parser.cc:1996-2113 | a chunk size starts with a hexadecimal digit; its line and its data end with CR LF |
| `HttpRefused.LimitRun` | ext/http_parser/http_parser.cc:154-161 | what is read with a larger limit, and counted byte by byte, is read with this one exactly up to the limit, and is over it from there on |
| `HttpRefused.TooLongHead` | ext/http_parser/http_parser.cc:154-161 | the head of a request that is longer than the limit is refused for it |
| `HttpRefused.RequestRejected` | ext/http_parser/http_parser.cc:1847-1865 | a request the user rejects fails at the end of its headers with the error of that callback |
| `HttpKind.BothIsEither` | ext/http_parser/http_parser.cc:731-767 | a parser for either kind reads a message, empty lines before it included, just as the parser for its kind does; what is of neither kind all three refuse |
| `Url.Scan` | ext/http_parser/http_parser.cc:2439-2495 | the first pass: the slices hold exactly the bytes of their parts, in order, as far as 16 bits keep them |
| `Url.StoredExact` | ext/http_parser/http_parser.cc:2486-2494 | the 16-bit slices are the true ones if and only if each starts, and is long, less than 65536 bytes |
| `Url.LongPath` | ext/http_parser/http_parser.cc:2486-2494 | a path of 65536 bytes is reported as empty |
| `UrlHost.ParseHost` | ext/http_parser/http_parser.cc:2335-2415 | the second pass: user info, host and port hold exactly their bytes; accepted exactly in the states where an authority may end |
| `UrlSplit.Authority` | ext/http_parser/http_parser.cc:2504-2508 | the slice of the authority is replaced by those of its parts, and the tiling is kept |
| `UrlSplit.PortNumber` | ext/http_parser/http_parser.cc:2528-2539 | the port is the value of its digits if and only if that fits 16 bits |
| `UrlSplit.Finish` | ext/http_parser/http_parser.cc:2510-2543 | a CONNECT target is exactly host and port; the port is its numeral |
| `UrlSplit.TiledWithHost` | ext/http_parser/http_parser.cc:2422-2508 | all slices are nonempty, in bounds, in URL order without overlap, and every byte outside them is a delimiter |
| `UrlSplit.OriginHasNoHost` | ext/http_parser/http_parser.cc:507-521 | a target that starts with / or * has neither schema nor host |
| `UrlSplit.ParseUrl` | ext/http_parser/http_parser.cc:2422-2543 | the URLs of the grammar and no others are split, each into exactly the parts it was written with: for every text of the grammar the slices and the port, and for every accepted buffer such a text; CONNECT wants a host and a port and nothing else; an origin-form target is accepted if and only if all its bytes are printable |
| `UrlSplit.TargetRead` | ext/http_parser/http_parser.cc:1024-1095 | the request parser delivers the whole target and accepts it exactly as far as the shared character machine does |
| `UrlSplit.TargetsAre` | ext/http_parser/http_parser.cc:494-640 | a request target may be followed by the rest of its line if and only if it is one of the grammar: path, query and fragment behind nothing or behind schema and authority, and behind an authority for CONNECT |
| `UrlSplit.TargetRefused` | ext/http_parser/http_parser.cc:1024-1095 | every other target is refused as an invalid URL, at the latest at the space behind it |
| `UrlGrammar.Classes` | ext/http_parser/http_parser.cc:420-443 | the character tables hold exactly the listed bytes |
| `UrlGrammar.TargetGrammar` | ext/http_parser/http_parser.cc:494-640 | the states in which a target may end are reached by exactly the texts of the grammar |
| `UrlGrammar.TailRead` | ext/http_parser/http_parser.cc:573-640 | path, query and fragment of a text are read as such, any number of # in front of the fragment passed over |
| `UrlAuthority.AuthorityRead` | ext/http_parser/http_parser.cc:2254-2333 | user info, a name or an address in brackets with its zone, and a port, as they are written, are accepted and read as such |
| `UrlAuthority.AuthorityWritten` | ext/http_parser/http_parser.cc:2254-2333 | whatever authority is accepted is written so |
| `UrlText.UrlAccepted` | ext/http_parser/http_parser.cc:2422-2508 | a URL of the grammar is accepted by both passes, with the slices of its parts |
| `UrlText.UrlWritten` | ext/http_parser/http_parser.cc:2422-2508 | what both passes accept is a URL of the grammar |
| `DnsNames.DnLen` | ext/udns-0.4/udns_dn.c:27-32 | the length of the wire form of the name in memory |
| `DnsNames.DnLabels` | ext/udns-0.4/udns_dn.c:34-39 | the number of its labels |
| `DnsNames.Equal` | ext/udns-0.4/udns_dn.c:41-55 | nonzero if and only if the names are equal ignoring ASCII case, and then their length |
| `DnsNames.LowerCaseIs` | ext/udns-0.4/udns.h:170 | only the 26 letters have another case |
| `DnsText.DnToText` | ext/udns-0.4/udns_dn.c:287-334 | writes exactly the escaped text and a zero when they fit the buffer, and fails exactly when they do not |
| `DnsText.TextRoom` | ext/udns-0.4/udns_dn.c:250-282 | the size needed, exactly; never more than 1004 for a legal name, so the cut-off at 1024 is out of reach |
| `DnsText.TextToDn` | ext/udns-0.4/udns_dn.c:66-145 | the loop with its escapes computes the reader of texts, with its three ways to fail |
| `DnsText.RoundTrip` | ext/udns-0.4/udns_dn.c:66-334 | reading the text of any legal name gives back exactly that name; the text holds no zero byte |
| `DnsTextForms.FormsRead` | ext/udns-0.4/udns_dn.c:66-145 | every way to write a name, each byte as itself, behind a backslash or as a decimal number, with or without a last dot, is read as that name; it is absolute if and only if the dot is there or it is the root |
| `DnsTextForms.TextIsForm` | ext/udns-0.4/udns_dn.c:66-145 | every text that is accepted is one of the ways to write the name given, and the name fits the buffer |
| `DnsTextForms.EscapeUsual` | ext/udns-0.4/udns_dn.c:287-334 | names are written out with the usual escapes: a backslash before . ; @ $ " and backslash, three digits for what is not printable |
| `DnsPacket.SkipDn` | ext/udns-0.4/udns_parse.c:28-40 | the position behind labels and a zero byte, or behind labels and a pointer that is not the last thing in the packet; nothing for anything else |
| `DnsPacket.GetDn` | ext/udns-0.4/udns_parse.c:42-89 | ends on every packet, cycles included; succeeds exactly when a name is written there, in full or with a chain of at most 100 pointers, that fits, and gives that name and the position behind its bytes; the result is longer than the buffer exactly when the labels fill it |
| `DnsPacket.SpelledExpands` | ext/udns-0.4/udns_parse.c:42-89 | labels followed by a pointer of two bytes to where the rest is written are expanded to these labels and that rest, for chains of pointers as well |
| `DnsPacket.ExpandsSpelled` | ext/udns-0.4/udns_parse.c:42-89 | whatever name is found is written so |
| `DnsPacket.RoomIsEnough` | ext/udns-0.4/udns_parse.c:42-89 | results stay inside the buffer for every packet if and only if its size is at most 1 or more than 255 |
| `DnsPacket.CallersOverrun` | ext/udns-0.4/udns_parse.c:42-89 | with the 255 bytes of the callers, a packet with one name of four labels puts the zero one byte beyond the buffer |
| `DnsPacket.SkipAgrees` | ext/udns-0.4/udns_parse.c:28-89 | the two stop at the same place if and only if the packet does not end with the name's pointer |
| `DnsPacket.MoreHops` | ext/udns-0.4/udns_parse.c:42-89 | the limit on pointers only refuses names; it never changes the name found |
| `DnsRecords.Parse.constructor` | ext/udns-0.4/udns_parse.c:99-111 | the walk starts behind the question, with the type and class asked for, and with a name or none |
| `DnsRecords.Parse.Rewind` | ext/udns-0.4/udns_parse.c:91-97 | back to the start, with any name or none |
| `DnsRecords.Parse.NextRecord` | ext/udns-0.4/udns_parse.c:114-151 | the next record of the walk, passing over others and following a CNAME chain |
| `DnsRecords.NextIsWalk` | ext/udns-0.4/udns_parse.c:114-151 | repeated calls give exactly the records a whole walk takes, in order, and fail exactly when it does |
| `DnsRecords.WalkCounts` | ext/udns-0.4/udns_parse.c:114-151 | the count is that of the records taken; the TTL is the least over these and the aliases followed |
| `DnsWriter.RecordRead` | ext/udns-0.4/udns_parse.c:121-134 | a record written as owner, type, class, TTL, size and data, the numbers with the most significant byte first, is read as these |
| `DnsWriter.RecordWritten` | ext/udns-0.4/udns_parse.c:121-134 | whatever record is read is written so |
| `DnsWriter.SectionRead` | ext/udns-0.4/udns_parse.c:114-151 | over a section that is written the walk takes exactly its answers, follows its aliases, and keeps the least TTL |
| `DnsWriter.SectionWritten` | ext/udns-0.4/udns_parse.c:114-151 | whatever section is walked over without an error is written so |
| `DnsWriter.ReplyBuilt` | ext/udns-0.4/udns_parse.c:99-151 | a header, a question and any number of answers whose owners point at it are such a reply, and its answers are all of them |
| `DnsWriter.AliasReplyBuilt` | ext/udns-0.4/udns_parse.c:99-151 | so is one with an alias in front, whose answers point at the name it leads to |
| `DnsParsers.CountAddresses` | ext/udns-0.4/udns_rr_a.c:50-58 | the validating pass: the fault, or the number of records |
| `DnsParsers.CopyAddresses` | ext/udns-0.4/udns_rr_a.c:67-69 | the second pass meets the same records, never an error, and fills the area exactly |
| `DnsParsers.ParseA` | ext/udns-0.4/udns_rr_a.c:42-75 | on a packet that holds, in its bytes, a count, a question and that many records for it, aliases, answers and others, the data of the answers in order and the least TTL of answers and aliases, or a fault for a wrong size or no data; on every other packet a protocol fault |
| `DnsParsers.SizeMx` | ext/udns-0.4/udns_rr_mx.c:41-54 | the first pass: the fault, or the number of records and the bytes their names need |
| `DnsParsers.FillMx` | ext/udns-0.4/udns_rr_mx.c:64-73 | the second pass writes as many entries as were counted and fills the name area to exactly the byte count of the first |
| `DnsParsers.ParseMx` | ext/udns-0.4/udns_rr_mx.c:29-77 | the same for mail exchangers: the priorities, the texts of the names and where each starts, as they are written in the data |
| `Resolver.FindServ` | ext/udns-0.4/udns_resolver.c:753-760 | the first server from the index on that is not to be skipped, all before it being skipped |
| `Resolver.Spot` | ext/udns-0.4/udns_resolver.c:826-829 | the place behind the last query that is not due later |
| `Resolver.NextEntry` | ext/udns-0.4/udns_resolver.c:731-739 | the next entry of the search list that can be used; the bare name is always in reach while it is due |
| `Resolver.Draws` | ext/udns-0.4/udns_resolver.c:702-715 | at most five ids are drawn; unless all are used up, the id taken is not in use |
| `ResolverSearch.NextTakes` | ext/udns-0.4/udns_resolver.c:728-746 | the entry used next is the first of the names still due; nothing is due exactly when there is none |
| `ResolverSearch.BareOnce` | ext/udns-0.4/udns_resolver.c:909-920 | the plan of a query has the bare name exactly once |
| `ResolverSearch.TurnGood` | ext/udns-0.4/udns_resolver.c:841-866 | a sending in turn goes to a server not skipped and stays within ntries rounds over nserv servers |
| `ResolverSearch.AgainGood` | ext/udns-0.4/udns_resolver.c:1145-1160 | a repetition without EDNS0 happens at most once for each server and name |
| `ResolverSearch.EntryGood` | ext/udns-0.4/udns_resolver.c:728-746 | turning to the next name follows the plan: suffixes once, in list order, overlong ones passed over |
| `ResolverSearch.SubmittedGood` | ext/udns-0.4/udns_resolver.c:909-920 | a new query starts at the first name of its plan |
| `ResolverSearch.ShortMeans` | ext/udns-0.4/udns_resolver.c:731-739 | a suffix is passed over if and only if the name with it is longer than 255 bytes |
| `ResolverSearch.BareFirst` | ext/udns-0.4/udns_resolver.c:909-920 | a name with at least as many dots as the settings say is tried as it is first, any other with the first suffix |
| `ResolverRuns.EndInv` | ext/udns-0.4/udns_resolver.c:606-624 | ending a query moves its handle from the active list to the callbacks and keeps the invariant |
| `ResolverRuns.SendThisInv` | ext/udns-0.4/udns_resolver.c:766-835 | a sending, failed or not, keeps the list sorted, the handles partitioned and the sendings accounted for |
| `ResolverRuns.SendInv` | ext/udns-0.4/udns_resolver.c:841-866 | so does a sending to the next server, or giving up when none is left |
| `ResolverRuns.SearchOnInv` | ext/udns-0.4/udns_resolver.c:1097-1139 | so does going on with the search, or ending it |
| `ResolverRuns.ReceiveInv` | ext/udns-0.4/udns_resolver.c:1006-1200 | so does every reply, whatever its bytes and its sender |
| `ResolverRuns.SubmitInv` | ext/udns-0.4/udns_resolver.c:881-932 | so does a new query |
| `ResolverRuns.CancelInv` | ext/udns-0.4/udns_resolver.c:1309-1321 | so does a cancellation |
| `ResolverRuns.CloseInv` | ext/udns-0.4/udns_resolver.c:418-437 | so does closing, which drops all queries without a callback |
| `ResolverTime.BackoffExact` | ext/udns-0.4/udns_resolver.c:821-822 | within the settings the shifted timeout loses no bit and is positive |
| `ResolverTime.BackoffDoubles` | ext/udns-0.4/udns_resolver.c:821-822 | it is the timeout of the settings in the first round and doubles from round to round |
| `ResolverTime.WaitsFor` | ext/udns-0.4/udns_resolver.c:819-822 | a sending waits one second while its round has another server to turn to, and the timeout of the round behind the last |
| `ResolverTime.Timeouts` | ext/udns-0.4/udns_resolver.c:1203-1236 | ends, because each turn leaves one query less that is due; keeps the invariant; leaves no query due; settles each due query with a sending or a callback |
| `ResolverTime.WaitLeast` | ext/udns-0.4/udns_resolver.c:1223-1227 | the wait returned is the least of the caller's limit and the times to all deadlines if and only if the first deadline is less than 2^31 seconds away |
| `ResolverTime.WaitTurnsNegative` | ext/udns-0.4/udns_resolver.c:821-822 | a timeout of one second and 32 rounds are within the settings, and reach the wait that turns negative |
| `ResolverTime.Run` | ext/udns-0.4/udns_resolver.c:606-1321 | every run of submissions, time-outs, replies, cancellations and closings keeps the invariant |
| `ResolverTime.QueryBound` | ext/udns-0.4/udns_resolver.c:637-866 | a query sends at most (ntries + 1) * nserv times for each name of its plan |
| `ResolverTime.SendsBound` | ext/udns-0.4/udns_resolver.c:637-1198 | all sendings of a run are those in the histories, and bounded by the number of queries |
| `ResolverTime.EveryQueryEnds` | ext/udns-0.4/udns_resolver.c:1203-1236 | over any run the queries found due are at most the sendings and endings, which are bounded: no query goes on for ever |
| `ResolverTime.OncePerHandle` | ext/udns-0.4/udns_resolver.c:606-624 | at every time a submitted query is in exactly one place, once: active, called back, cancelled, or dropped on closing |
| `ResolverTime.PartitionCounts` | ext/udns-0.4/udns_resolver.c:606-624 | the same for every state that keeps the invariant |
| `ResolverTime.CompletionMeans` | ext/udns-0.4/udns_resolver.c:1027-1139 | what the invariant says of a callback is what its status means, by the bytes of the replies |
| `ResolverTime.CallbackMeans` | ext/udns-0.4/udns_resolver.c:1006-1139 | over any run: an answer is delivered only for a reply with the id, name, type and class of the query from a server still waited for, code 0, not truncated, with answers; a search ends without answer only after a settling reply for each name of its plan, with NODATA if and only if some reply had code 0 and no answers; a query is given up only when no server is left in any round or a sending failed |
| `ResolverReplies.SolicitedMeans` | ext/udns-0.4/udns_resolver.c:1006-1062 | a datagram is a reply to a query if and only if its bytes say so: a standard query, the id, the question with name, type and class, or none in a format error, from a server still waited for |
| `ResolverReplies.ReplyMeans` | ext/udns-0.4/udns_resolver.c:1078-1198 | what each reply does, by its bytes: code 0 with answers ends the query; code 3, or code 0 without answers, turns to the next name of the plan or ends it; codes 1 and 4 ask the server once more without EDNS0; any other code and a truncated reply put the server out of use for the name |
| `ResolverReplies.Taken` | ext/udns-0.4/udns_resolver.c:1006-1062 | a datagram is for the first query with its id |
| `ResolverReplies.Ignored` | ext/udns-0.4/udns_resolver.c:1006-1062 | a datagram that is no reply to any query changes nothing |
| `ResolverQueue.Query.constructor` | ext/udns-0.4/udns_resolver.c:889-907 | the fresh query |
| `ResolverQueue.Query.Prepare` | ext/udns-0.4/udns_resolver.c:909-920 | the first name: as it is, or from the search buffer |
| `ResolverQueue.Query.FindServer` | ext/udns-0.4/udns_resolver.c:753-760 | the loop is `FindServ` |
| `ResolverQueue.Query.IsFor` | ext/udns-0.4/udns_resolver.c:1027-1053 | the reply's question is the query's, ignoring case, or is missing and the code is FORMERR |
| `ResolverQueue.Query.SeekSuffix` | ext/udns-0.4/udns_resolver.c:731-739 | the walk over the bytes of the search buffer finds the next usable entry |
| `ResolverQueue.Query.NextName` | ext/udns-0.4/udns_resolver.c:728-743 | the buffer of the name then holds the name with that suffix |
| `ResolverQueue.Query.TakeTurn` | ext/udns-0.4/udns_resolver.c:848-865 | the server whose turn it is, in this round or the next |
| `ResolverQueue.Query.Expect` | ext/udns-0.4/udns_resolver.c:819-822 | the mask and the deadline after a sending |
| `ResolverQueue.List.Remove` | ext/udns-0.4/udns_resolver.c:99-104 | the list stays doubly linked and loses exactly that query |
| `ResolverQueue.List.AddHead` | ext/udns-0.4/udns_resolver.c:106-113 | the list stays doubly linked with the query in front |
| `ResolverQueue.List.InsertAfter` | ext/udns-0.4/udns_resolver.c:115-127 | the list stays doubly linked with the query behind the given one |
| `ResolverQueue.List.Relocate` | ext/udns-0.4/udns_resolver.c:824-832 | the query moves to the place of its deadline, found from the tail |
| `ResolverContext.Context.EndQuery` | ext/udns-0.4/udns_resolver.c:606-624 | one callback, one query less, the step `End` |
| `ResolverContext.Context.SendTo` | ext/udns-0.4/udns_resolver.c:766-835 | the step `SendThis` on the linked list |
| `ResolverContext.Context.Send` | ext/udns-0.4/udns_resolver.c:841-866 | the step `Send` |
| `ResolverContext.Context.PickId` | ext/udns-0.4/udns_resolver.c:702-716 | the loop over the list draws as `Draws` says |
| `ResolverContext.Context.NextSearch` | ext/udns-0.4/udns_resolver.c:728-746 | the query turns to the next entry with a new id and fresh masks, or nothing is left |
| `ResolverContext.Context.FindQuery` | ext/udns-0.4/udns_resolver.c:1015-1025 | the first query in the list with the id |
| `ResolverContext.Context.ProcessReply` | ext/udns-0.4/udns_resolver.c:1078-1198 | the switch over the reply code is the step `Process` |
| `ResolverContext.Context.Receive` | ext/udns-0.4/udns_resolver.c:1006-1198 | one datagram is the step `Receive`, and keeps the invariant |
| `ResolverContext.Context.IoEvent` | ext/udns-0.4/udns_resolver.c:961-1200 | all datagrams at hand, in order |
| `ResolverContext.Context.Timeouts` | ext/udns-0.4/udns_resolver.c:1203-1236 | the loop is the step `Timeouts`, and the wait is `Wait` |
| `ResolverContext.Context.Submit` | ext/udns-0.4/udns_resolver.c:881-932 | the step `Submit`, the new query at the head |
| `ResolverContext.Context.Cancel` | ext/udns-0.4/udns_resolver.c:1309-1321 | the step `Cancel` by the query's handle, without a callback |
| `ResolverContext.Context.Close` | ext/udns-0.4/udns_resolver.c:428-434 | the walk frees every query once, reading its link before, and is the step `Close` |
| `Timers.AddInv` | src/evr/evr.cc:339-357 | adding a timer keeps the invariant |
| `Timers.CancelInv` | src/evr/evr.cc:363-381 | cancelling keeps it |
| `Timers.TurnInv` | src/evr/evr.cc:103-138 | a turn of the serving loop keeps it |
| `Timers.RunKeeps` | src/evr/evr.cc:94-141 | over every interleaving under a clock that does not go back, callbacks run in nondecreasing order of due times, never early, at most once, never after cancellation |
| `Timers.RunGrows` | src/evr/evr.cc:94-141 | nothing is taken back over a run: callbacks made stay made, and a timer once cancelled is never served later |
| `Timers.RunDue` | src/evr/evr.cc:94-141 | over every run a timer is due when its delay is over, counted from when it was added; only those added with a callback are served, and never before |
| `Reactor.EventLoop.AddEvent` | src/evr/evr.cc:339-357 | the step `Add` |
| `Reactor.EventLoop.CancelEvent` | src/evr/evr.cc:363-381 | the step `Cancel`, or an error without an event |
| `Reactor.EventLoop.Pop` | src/evr/evr.cc:113-138 | the step `Turn` for the timer at the top |
| `Reactor.EventLoop.DequeueEvents` | src/evr/evr.cc:94-141 | serves exactly due timers and drops cancelled ones; the wait returned is exactly the time to the nearest active timer, which fits 32 bits |
| `HostCheck.RawEqual` | ext/hostcheck/hostcheck.cc:123-136 | equality ignoring ASCII case |
| `HostCheck.RawPrefixEqual` | ext/hostcheck/hostcheck.cc:138-152 | equality of the first characters, or of shorter strings |
| `HostCheck.UpperIs` | ext/hostcheck/hostcheck.cc:54-117 | only the 26 letters have another case |
| `HostCheck.NeedsCompares` | ext/hostcheck/hostcheck.cc:186-203 | the three comparisons hold if and only if some fill of the star matches |
| `HostCheck.HostMatch` | ext/hostcheck/hostcheck.cc:163-203 | a pattern that may use its star matches by some fill, any other by equality |
| `HostCheck.CertHostCheck` | ext/hostcheck/hostcheck.cc:205-218 | nonempty strings match if and only if they are equal ignoring case, or the pattern is eligible and some nonempty dot-free text in place of its first star makes it equal |
| `Base64.RoundTrip` | ext/base64/base64.cc:42-151 | decoding undoes encoding for every byte sequence |
| `Base64.AlphabetIs` | ext/base64/base64.cc:31-39 | the alphabet and the padding are those of RFC 4648 |
| `Base64.OnlyAlphabet` | ext/base64/base64.cc:37-40 | no other character is taken when decoding |
| `Base64.Vectors` | ext/base64/base64.cc:42-94 | test vectors of RFC 4648 |
| `Base64.Enc` | ext/base64/base64.cc:42-94 | the encoding has four characters for every three bytes begun |
| `Base64.GroupNumber` | ext/base64/base64.cc:55-58 | the sextets are the digits of the group as one number to the base 64 |
| `Base64.OctetsBack` | ext/base64/base64.cc:116-142 | sextets give back their bytes; with fewer, whatever stands for the missing ones |
| `Base64.Encode` | ext/base64/base64.cc:42-94 | the loop with its three-byte group computes `Enc` |
| `Base64.Decode` | ext/base64/base64.cc:96-151 | the loop with its four-character group, the stop at the first foreign character and the failed look-ups of the tail compute `Dec` |

## Left out

- HttpExecute.HttpParser.Execute: buffers with length plus header limit of 2^32 or more, where the late count of a bulk loop may wrap (`HttpExecute.CountedExact` says when).
- HttpExecute.HttpParser.Execute: what was delivered before an error, because the bulk loops test the header limit after a stretch.
- HttpHeaders.HeaderRead: values folded over several lines in the headers that concern the framing; all others may be folded.
- HttpMessage.RequestRoundTrip: answers of on_headers_complete other than 0; `HttpMessage.BodySkipped` has the answers 1 and 2 for responses, `HttpRefused.RequestRejected` any other for requests.
- HttpLists.ConnectionWords: lists with empty elements, with tabs, or with elements that start with an underscore; the fold `ListFlags` itself, which the messages are stated with, covers all values.
- UrlSplit.ParseUrl: URLs of more than 65535 bytes, whose slices do not all fit the 16-bit fields.
- DnsParsers.ParseA: the copies of the query and canonical names that `dns_stdrr_finish` puts behind a result.
- DnsParsers.ParseMx: the same copies.
- Reactor.EventLoop.DequeueEvents: callbacks that add or cancel timers while being served; `Timers.RunKeeps` has every interleaving.
- ResolverContext.Context.constructor: the search buffer is given; `dns_add_srch` and the reading of system settings are not modelled.
- Timers.RunKeeps: a clock that goes back.
- Failing HTTP callbacks, pausing, the lenient builds without strict checks, and what an upgraded connection does after the parser has handed it over.
- The resolver with a timeout whose shift does not fit 32 bits; user callbacks that submit or cancel queries while one is being served; the user timer hook; comparing socket addresses, which enters as the number of the server a datagram came from; the ten attempts of one sending, which enter as its outcome.
- Parsing a delivered answer inside the resolver: an answer is handed over as the reply's bytes; `DnsParsers` says what the parsers make of it.
- The SRV, PTR, TXT and NAPTR parsers and the address-to-name builders: the same shape as those modelled.
- The test of the magic number of a timer, which every timer added passes.
- Sockets, TLS, the event back ends, sessions, the response writer, the configuration, the caches and the command-line tools.
