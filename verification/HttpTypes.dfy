/**
 The data of the incremental HTTP/1.1 parser: its states, error codes, the fields of
 `struct http_parser`, the callbacks it makes, and the character classes of the strict build.

 A byte is a `char`.  The source never sees a code point above 255; such a character would be
 treated like any other byte of the upper half.
 */
module HttpTypes {

  datatype Option<+T> = None | Some(value: T)

  const MAX_HEADER_SIZE: int := 80 * 1024
  const TWO64: int := 0x1_0000_0000_0000_0000
  const ULLONG_MAX: int := 0xFFFF_FFFF_FFFF_FFFF

  const CR: char := '\r'
  const LF: char := '\n'
  const CRLF: string := [CR, LF]

  datatype Type = Request | Response | Both

  datatype State =
    | Dead
    | StartReqOrRes
    | ResOrRespH
    | StartRes
    | ResH
    | ResHT
    | ResHTT
    | ResHTTP
    | ResFirstHttpMajor
    | ResHttpMajor
    | ResFirstHttpMinor
    | ResHttpMinor
    | ResFirstStatusCode
    | ResStatusCode
    | ResStatus
    | ResLineAlmostDone
    | StartReq
    | ReqMethod
    | ReqSpacesBeforeUrl
    | ReqSchema
    | ReqSchemaSlash
    | ReqSchemaSlashSlash
    | ReqServerStart
    | ReqServer
    | ReqServerWithAt
    | ReqPath
    | ReqQueryStringStart
    | ReqQueryString
    | ReqFragmentStart
    | ReqFragment
    | ReqHttpStart
    | ReqHttpH
    | ReqHttpHT
    | ReqHttpHTT
    | ReqHttpHTTP
    | ReqFirstHttpMajor
    | ReqHttpMajor
    | ReqFirstHttpMinor
    | ReqHttpMinor
    | ReqLineAlmostDone
    | HeaderFieldStart
    | HeaderField
    | HeaderValueStart
    | HeaderValue
    | HeaderValueLws
    | HeaderAlmostDone
    | ChunkSizeStart
    | ChunkSize
    | ChunkParameters
    | ChunkSizeAlmostDone
    | HeadersAlmostDone
    | HeadersDone
    | ChunkData
    | ChunkDataAlmostDone
    | ChunkDataDone
    | BodyIdentity
    | BodyIdentityEof
    | MessageDone

  /** The PARSING_HEADER test: every state up to HeadersDone counts towards the header limit. */
  predicate ParsingHeader(s: State) {
    !(s.ChunkData? || s.ChunkDataAlmostDone? || s.ChunkDataDone?
      || s.BodyIdentity? || s.BodyIdentityEof? || s.MessageDone?)
  }

  /** The states in which a URL mark is open. */
  predicate InUrl(s: State) {
    s.ReqSchema? || s.ReqSchemaSlash? || s.ReqSchemaSlashSlash? || s.ReqServerStart?
    || s.ReqServer? || s.ReqServerWithAt? || s.ReqPath? || s.ReqQueryStringStart?
    || s.ReqQueryString? || s.ReqFragmentStart? || s.ReqFragment?
  }

  datatype HeaderState =
    | General
    | C
    | CO
    | CON
    | MatchingConnection
    | MatchingProxyConnection
    | MatchingContentLength
    | MatchingTransferEncoding
    | MatchingUpgrade
    | Connection
    | ContentLength
    | TransferEncoding
    | Upgrade
    | MatchingChunked
    | MatchingKeepAlive
    | MatchingClose
    | Chunked
    | KeepAlive
    | Close

  datatype Errno =
    | OK
    | InvalidEofState
    | HeaderOverflow
    | ClosedConnection
    | InvalidVersion
    | InvalidStatus
    | InvalidMethod
    | InvalidUrl
    | LfExpected
    | InvalidHeaderToken
    | InvalidContentLength
    | InvalidChunkSize
    | InvalidConstant
    | Strict
    | Paused
    | Unknown

  datatype Method =
    | DELETE | GET | HEAD | POST | PUT | CONNECT | OPTIONS | TRACE
    | COPY | LOCK | MKCOL | MOVE | PROPFIND | PROPPATCH | SEARCH | UNLOCK
    | REPORT | MKACTIVITY | CHECKOUT | MERGE
    | MSEARCH | NOTIFY | SUBSCRIBE | UNSUBSCRIBE | PATCH | PURGE

  function MethodString(m: Method): string {
    match m
    case DELETE => "DELETE"
    case GET => "GET"
    case HEAD => "HEAD"
    case POST => "POST"
    case PUT => "PUT"
    case CONNECT => "CONNECT"
    case OPTIONS => "OPTIONS"
    case TRACE => "TRACE"
    case COPY => "COPY"
    case LOCK => "LOCK"
    case MKCOL => "MKCOL"
    case MOVE => "MOVE"
    case PROPFIND => "PROPFIND"
    case PROPPATCH => "PROPPATCH"
    case SEARCH => "SEARCH"
    case UNLOCK => "UNLOCK"
    case REPORT => "REPORT"
    case MKACTIVITY => "MKACTIVITY"
    case CHECKOUT => "CHECKOUT"
    case MERGE => "MERGE"
    case MSEARCH => "M-SEARCH"
    case NOTIFY => "NOTIFY"
    case SUBSCRIBE => "SUBSCRIBE"
    case UNSUBSCRIBE => "UNSUBSCRIBE"
    case PATCH => "PATCH"
    case PURGE => "PURGE"
  }

  datatype Flags = Flags(
    chunked: bool,
    keepAlive: bool,
    close: bool,
    trailing: bool,
    upgrade: bool,
    skipBody: bool)

  const NoFlags: Flags := Flags(false, false, false, false, false, false)

  /** `struct http_parser` without the application pointer. */
  datatype Parser = Parser(
    kind: Type,
    flags: Flags,
    state: State,
    headerState: HeaderState,
    index: nat,
    nread: nat,
    contentLength: nat,
    httpMajor: nat,
    httpMinor: nat,
    statusCode: nat,
    verb: Method,
    errno: Errno,
    upgrade: bool)

  /** http_parser_init: everything zero, the state chosen by the type. */
  function Init(t: Type): Parser {
    Parser(t, NoFlags,
           if t.Request? then StartReq else if t.Response? then StartRes else StartReqOrRes,
           General, 0, 0, 0, 0, 0, 0, DELETE, OK, false)
  }

  // ---------------------------------------------------------------- callbacks

  /** The four data callbacks, named after their marks. */
  datatype Kind = Url | Field | Value | Body

  /** What on_headers_complete can read off the parser. */
  datatype Info = Info(
    httpMajor: nat, httpMinor: nat, statusCode: nat, verb: Method, keepAlive: bool, upgrade: bool)

  datatype Event =
    | Begin
    | Data(kind: Kind, bytes: string)
    | HeadersComplete(info: Info)
    | Complete

  /** The application's side: whether on_message_complete pauses the parser, and whether
      on_headers_complete returns 1 (no body follows) as a function of the parser's fields. */
  datatype Callbacks = Callbacks(pauses: bool, noBody: Parser -> bool)

  // ---------------------------------------------------------------- character classes

  predicate IsNum(c: char) { '0' <= c <= '9' }

  predicate IsAlpha(c: char) { 'a' <= c <= 'z' || 'A' <= c <= 'Z' }

  predicate IsAlphaNum(c: char) { IsAlpha(c) || IsNum(c) }

  function Digit(c: char): (d: nat)
    requires IsNum(c)
    ensures d <= 9
  {
    c as int - '0' as int
  }

  /** The LOWER macro: it sets bit 0x20 of a byte, whatever the byte is. */
  function Lower(c: char): char {
    if (c as int / 32) % 2 == 0 && c as int < 256 then (c as int + 32) as char else c
  }

  /** The `tokens` table of the strict build: 0 for a byte that is not a token character, and
      the lower-case byte otherwise. */
  function Token(c: char): char {
    if 'A' <= c <= 'Z' then (c as int + 32) as char
    else if IsTokenPunctuation(c) || 'a' <= c <= 'z' || IsNum(c) then c
    else '\0'
  }

  predicate IsTokenPunctuation(c: char) {
    c == '!' || c == '#' || c == '$' || c == '%' || c == '&' || c == '\'' || c == '*' || c == '+'
    || c == '-' || c == '.' || c == '^' || c == '_' || c == '`' || c == '|' || c == '~'
  }

  predicate IsHex(c: char) {
    IsNum(c) || 'A' <= c <= 'F' || 'a' <= c <= 'f'
  }

  /** The value of a hexadecimal digit. */
  function HexDigit(c: char): (d: nat)
    requires IsHex(c)
    ensures d <= 15
  {
    if IsNum(c) then Digit(c)
    else if 'A' <= c <= 'F' then c as int - 'A' as int + 10
    else c as int - 'a' as int + 10
  }

  /** An upper-case hexadecimal digit. */
  function HexChar(d: nat): (c: char)
    requires d < 16
    ensures IsHex(c) && HexDigit(c) == d
  {
    if d < 10 then ('0' as int + d) as char else ('A' as int + d - 10) as char
  }

  /** The `unhex` table: None for -1.  The table spells out 128 entries; the rest are 0. */
  function Unhex(c: char): (v: Option<nat>)
    ensures v.Some? ==> v.value <= 15
  {
    if IsNum(c) then Some(Digit(c))
    else if 'A' <= c <= 'F' then Some(c as int - 'A' as int + 10)
    else if 'a' <= c <= 'f' then Some(c as int - 'a' as int + 10)
    else if c as int >= 128 then Some(0)
    else None
  }

  predicate IsMark(c: char) {
    c == '-' || c == '_' || c == '.' || c == '!' || c == '~' || c == '*' || c == '\''
    || c == '(' || c == ')'
  }

  predicate IsUserinfoChar(c: char) {
    IsAlphaNum(c) || IsMark(c) || c == '%' || c == ';' || c == ':' || c == '&' || c == '='
    || c == '+' || c == '$' || c == ','
  }

  /** The `normal_url_char` table: printable ASCII except '#' and '?'. */
  predicate IsUrlChar(c: char) {
    '!' <= c <= '~' && c != '#' && c != '?'
  }

  /** The stream that pieces make up. */
  function Flatten(pieces: seq<string>): string {
    if pieces == [] then [] else pieces[0] + Flatten(pieces[1..])
  }

  lemma {:induction false} FlattenSnoc(pieces: seq<string>, w: string)
    ensures Flatten(pieces + [w]) == Flatten(pieces) + w
  {
    if pieces == [] {
      assert (pieces + [w])[1..] == [];
    } else {
      assert (pieces + [w])[1..] == pieces[1..] + [w];
      FlattenSnoc(pieces[1..], w);
    }
  }
}
