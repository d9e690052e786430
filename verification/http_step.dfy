/** The byte dispatch of `http_parser_execute` in strict mode: one pass through the big switch
    for one byte, with every `REEXECUTE` followed to its end. What the switch does to the marks and
    callbacks is returned as a list of actions, so that the same dispatch serves any buffer. */
module HttpStep {
  import opened HttpLog

  /** `uint64_t`: every update of a length below is shown to fit. */
  type uint64 = n: int | 0 <= n <= 0xFFFF_FFFF_FFFF_FFFF

  const ULLONG_MAX: uint64 := 0xFFFF_FFFF_FFFF_FFFF
  const HTTP_MAX_HEADER_SIZE: nat := 80 * 1024

  const CR: byte := 13
  const LF: byte := 10
  const SPACE: byte := 32
  const TAB: byte := 9

  datatype ParserType = REQUEST | RESPONSE | BOTH

  datatype Errno =
    | OK
    | INVALID_EOF_STATE
    | HEADER_OVERFLOW
    | CLOSED_CONNECTION
    | INVALID_VERSION
    | INVALID_STATUS
    | INVALID_METHOD
    | INVALID_URL
    | LF_EXPECTED
    | INVALID_HEADER_TOKEN
    | INVALID_CONTENT_LENGTH
    | UNEXPECTED_CONTENT_LENGTH
    | INVALID_CHUNK_SIZE
    | INVALID_CONSTANT
    | STRICT
    | ASSERTION_FAILED  // an assert() of the source would abort here

  datatype State =
    | s_dead
    | s_start_req_or_res
    | s_res_or_resp_H
    | s_start_res
    | s_res_H
    | s_res_HT
    | s_res_HTT
    | s_res_HTTP
    | s_res_first_http_major
    | s_res_http_major
    | s_res_first_http_minor
    | s_res_http_minor
    | s_res_first_status_code
    | s_res_status_code
    | s_res_status_start
    | s_res_status
    | s_res_line_almost_done
    | s_start_req
    | s_req_method
    | s_req_spaces_before_url
    | s_req_schema
    | s_req_schema_slash
    | s_req_schema_slash_slash
    | s_req_server_start
    | s_req_server
    | s_req_server_with_at
    | s_req_path
    | s_req_query_string_start
    | s_req_query_string
    | s_req_fragment_start
    | s_req_fragment
    | s_req_http_start
    | s_req_http_H
    | s_req_http_HT
    | s_req_http_HTT
    | s_req_http_HTTP
    | s_req_first_http_major
    | s_req_http_major
    | s_req_first_http_minor
    | s_req_http_minor
    | s_req_line_almost_done
    | s_header_field_start
    | s_header_field
    | s_header_value_discard_ws
    | s_header_value_discard_ws_almost_done
    | s_header_value_discard_lws
    | s_header_value_start
    | s_header_value
    | s_header_value_lws
    | s_header_almost_done
    | s_chunk_size_start
    | s_chunk_size
    | s_chunk_parameters
    | s_chunk_size_almost_done
    | s_headers_almost_done
    | s_headers_done
    | s_chunk_data
    | s_chunk_data_almost_done
    | s_chunk_data_done
    | s_body_identity
    | s_body_identity_eof
    | s_message_done

  datatype HeaderState =
    | h_general
    | h_C
    | h_CO
    | h_CON
    | h_matching_connection
    | h_matching_proxy_connection
    | h_matching_content_length
    | h_matching_transfer_encoding
    | h_matching_upgrade
    | h_connection
    | h_content_length
    | h_transfer_encoding
    | h_upgrade
    | h_matching_transfer_encoding_chunked
    | h_matching_connection_token_start
    | h_matching_connection_keep_alive
    | h_matching_connection_close
    | h_matching_connection_upgrade
    | h_matching_connection_token
    | h_transfer_encoding_chunked
    | h_connection_keep_alive
    | h_connection_close
    | h_connection_upgrade

  datatype Method =
    | DELETE | GET | HEAD | POST | PUT | CONNECT | OPTIONS | TRACE | COPY | LOCK | MKCOL | MOVE
    | PROPFIND | PROPPATCH | SEARCH | UNLOCK | BIND | REBIND | UNBIND | ACL | REPORT | MKACTIVITY
    | CHECKOUT | MERGE | MSEARCH | NOTIFY | SUBSCRIBE | UNSUBSCRIBE | PATCH | PURGE | MKCALENDAR
    | LINK | UNLINK

  datatype Flags = Flags(
    chunked: bool,
    keepAlive: bool,
    close: bool,
    connectionUpgrade: bool,
    trailing: bool,
    upgrade: bool,
    skipBody: bool,
    hasLength: bool)

  const NO_FLAGS := Flags(false, false, false, false, false, false, false, false)

  /** `struct http_parser`, except for `nread`, which the parser class keeps beside it. */
  datatype Fields = Fields(
    typ: ParserType,
    flags: Flags,
    state: State,
    headerState: HeaderState,
    index: nat,
    lenient: bool,
    contentLength: uint64,
    httpMajor: nat,
    httpMinor: nat,
    statusCode: nat,
    verb: Method,
    errno: Errno,
    upgrade: bool)

  /** What `on_headers_complete` answers: 0, 1 or 2. */
  datatype Verdict = Proceed | SkipBody | SkipBodyAndUpgrade

  type HeadersCompleteCallback = Fields -> Verdict

  /** `http_parser_init`. */
  function Init(typ: ParserType): Fields {
    var start := match typ case REQUEST => s_start_req case RESPONSE => s_start_res case BOTH => s_start_req_or_res;
    Fields(typ, NO_FLAGS, start, h_general, 0, false, 0, 0, 0, 0, DELETE, OK, false)
  }

  predicate ParsingHeader(s: State) {
    !s.s_chunk_data? && !s.s_chunk_data_almost_done? && !s.s_chunk_data_done?
    && !s.s_body_identity? && !s.s_body_identity_eof? && !s.s_message_done?
  }

  /** An action on marks and callbacks, in the order the switch performs them.
      `DeliverThrough` is the body callback that includes the current byte. */
  datatype Act = Mark(kind: Kind) | Deliver(kind: Kind) | DeliverThrough(kind: Kind) | Notify(note: Note)

  datatype Acts = Done | Then(head: Act, tail: Acts)

  /** How the pass ends: with the next byte, at `error`, or leaving because of an upgrade. */
  datatype How = Go | Fail | Exit

  /** `reset` says that the pass sets `nread` back to zero. */
  datatype Outcome = Outcome(q: Fields, acts: Acts, how: How, reset: bool)

  function Next(q: Fields): Outcome {
    Outcome(q, Done, Go, false)
  }

  function To(q: Fields, s: State): Outcome {
    Outcome(q.(state := s), Done, Go, false)
  }

  function Error(q: Fields, e: Errno): Outcome {
    Outcome(q.(errno := e), Done, Fail, false)
  }

  function After(a: Act, o: Outcome): Outcome {
    o.(acts := Then(a, o.acts))
  }

  // ---- character classes -------------------------------------------------------------------

  function Lower(c: byte): byte {
    if (c / 32) % 2 == 1 then c else c + 32
  }

  predicate IsAlpha(c: byte) {
    'a' as int <= Lower(c) <= 'z' as int
  }

  predicate IsNum(c: byte) {
    '0' as int <= c <= '9' as int
  }

  predicate IsAlphaNum(c: byte) {
    IsAlpha(c) || IsNum(c)
  }

  predicate IsMark(c: byte) {
    c == '-' as int || c == '_' as int || c == '.' as int || c == '!' as int || c == '~' as int
    || c == '*' as int || c == '\'' as int || c == '(' as int || c == ')' as int
  }

  predicate IsUserinfoChar(c: byte) {
    IsAlphaNum(c) || IsMark(c) || c == '%' as int || c == ';' as int || c == ':' as int
    || c == '&' as int || c == '=' as int || c == '+' as int || c == '$' as int || c == ',' as int
  }

  /** `tokens`: the token character in lower case, 0 for anything else. */
  function Token(c: byte): byte {
    if 'A' as int <= c <= 'Z' as int then c + 32
    else if IsNum(c) || '^' as int <= c <= 'z' as int || '#' as int <= c <= '\'' as int
         || c == '!' as int || c == '*' as int || c == '+' as int || c == '-' as int
         || c == '.' as int || c == '|' as int || c == '~' as int then c
    else 0
  }

  /** `normal_url_char` in strict mode. */
  predicate IsUrlChar(c: byte) {
    33 <= c <= 126 && c != '#' as int && c != '?' as int
  }

  predicate IsHeaderChar(c: byte) {
    c == CR || c == LF || c == 9 || (c > 31 && c != 127)
  }

  /** `unhex`: the value of a hexadecimal digit, -1 for anything else. */
  function Unhex(c: byte): int {
    if IsNum(c) then c - '0' as int
    else if 'A' as int <= c <= 'F' as int then c - 'A' as int + 10
    else if 'a' as int <= c <= 'f' as int then c - 'a' as int + 10
    else -1
  }

  /** The i-th character of a C string literal, 0 at and beyond its end. */
  function CharAt(s: string, i: nat): int {
    if i < |s| then s[i] as int else 0
  }

  // ---- keep-alive and end of message -------------------------------------------------------

  /** `http_message_needs_eof`. */
  predicate NeedsEof(q: Fields) {
    !q.typ.REQUEST?
    && !(q.statusCode / 100 == 1 || q.statusCode == 204 || q.statusCode == 304 || q.flags.skipBody)
    && !(q.flags.chunked || q.contentLength != ULLONG_MAX)
  }

  /** `http_should_keep_alive`. */
  predicate ShouldKeepAlive(q: Fields) {
    (if q.httpMajor > 0 && q.httpMinor > 0 then !q.flags.close else q.flags.keepAlive)
    && !NeedsEof(q)
  }

  /** The strict `NEW_MESSAGE()`. */
  function NewMessage(q: Fields): State {
    if !ShouldKeepAlive(q) then s_dead else if q.typ.REQUEST? then s_start_req else s_start_res
  }

  // ---- the URL automaton -------------------------------------------------------------------

  /** `parse_url_char`. */
  function ParseUrlChar(s: State, ch: byte): State {
    if ch == SPACE || ch == CR || ch == LF || ch == TAB || ch == 12 then s_dead
    else match s
      case s_req_spaces_before_url =>
        if ch == '/' as int || ch == '*' as int then s_req_path
        else if IsAlpha(ch) then s_req_schema
        else s_dead
      case s_req_schema =>
        if IsAlpha(ch) then s else if ch == ':' as int then s_req_schema_slash else s_dead
      case s_req_schema_slash =>
        if ch == '/' as int then s_req_schema_slash_slash else s_dead
      case s_req_schema_slash_slash =>
        if ch == '/' as int then s_req_server_start else s_dead
      case s_req_server_with_at =>
        if ch == '@' as int then s_dead else ParseServerChar(ch)
      case s_req_server_start => ParseServerChar(ch)
      case s_req_server => ParseServerChar(ch)
      case s_req_path =>
        if IsUrlChar(ch) then s
        else if ch == '?' as int then s_req_query_string_start
        else if ch == '#' as int then s_req_fragment_start
        else s_dead
      case s_req_query_string_start => ParseQueryChar(ch)
      case s_req_query_string => ParseQueryChar(ch)
      case s_req_fragment_start =>
        if IsUrlChar(ch) || ch == '?' as int then s_req_fragment
        else if ch == '#' as int then s
        else s_dead
      case s_req_fragment =>
        if IsUrlChar(ch) || ch == '?' as int || ch == '#' as int then s else s_dead
      case _ => s_dead
  }

  function ParseServerChar(ch: byte): State {
    if ch == '/' as int then s_req_path
    else if ch == '?' as int then s_req_query_string_start
    else if ch == '@' as int then s_req_server_with_at
    else if IsUserinfoChar(ch) || ch == '[' as int || ch == ']' as int then s_req_server
    else s_dead
  }

  function ParseQueryChar(ch: byte): State {
    if IsUrlChar(ch) || ch == '?' as int then s_req_query_string
    else if ch == '#' as int then s_req_fragment_start
    else s_dead
  }

  // ---- methods -----------------------------------------------------------------------------

  function MethodName(m: Method): string {
    match m
    case DELETE => "DELETE" case GET => "GET" case HEAD => "HEAD" case POST => "POST" case PUT => "PUT"
    case CONNECT => "CONNECT" case OPTIONS => "OPTIONS" case TRACE => "TRACE" case COPY => "COPY"
    case LOCK => "LOCK" case MKCOL => "MKCOL" case MOVE => "MOVE" case PROPFIND => "PROPFIND"
    case PROPPATCH => "PROPPATCH" case SEARCH => "SEARCH" case UNLOCK => "UNLOCK" case BIND => "BIND"
    case REBIND => "REBIND" case UNBIND => "UNBIND" case ACL => "ACL" case REPORT => "REPORT"
    case MKACTIVITY => "MKACTIVITY" case CHECKOUT => "CHECKOUT" case MERGE => "MERGE"
    case MSEARCH => "M-SEARCH" case NOTIFY => "NOTIFY" case SUBSCRIBE => "SUBSCRIBE"
    case UNSUBSCRIBE => "UNSUBSCRIBE" case PATCH => "PATCH" case PURGE => "PURGE"
    case MKCALENDAR => "MKCALENDAR" case LINK => "LINK" case UNLINK => "UNLINK"
  }

  datatype MaybeMethod = Unknown | Known(m: Method)

  function FirstMethod(ch: byte): MaybeMethod {
    if ch == 'A' as int then Known(ACL)
    else if ch == 'B' as int then Known(BIND)
    else if ch == 'C' as int then Known(CONNECT)
    else if ch == 'D' as int then Known(DELETE)
    else if ch == 'G' as int then Known(GET)
    else if ch == 'H' as int then Known(HEAD)
    else if ch == 'L' as int then Known(LOCK)
    else if ch == 'M' as int then Known(MKCOL)
    else if ch == 'N' as int then Known(NOTIFY)
    else if ch == 'O' as int then Known(OPTIONS)
    else if ch == 'P' as int then Known(POST)
    else if ch == 'R' as int then Known(REPORT)
    else if ch == 'S' as int then Known(SUBSCRIBE)
    else if ch == 'T' as int then Known(TRACE)
    else if ch == 'U' as int then Known(UNLOCK)
    else Unknown
  }

  /** The method switched to when the candidate's next character does not match. */
  function SwitchMethod(m: Method, index: nat, ch: byte): MaybeMethod {
    if m == POST && index == 1 && ch == 'U' as int then Known(PUT)
    else if m == POST && index == 1 && ch == 'A' as int then Known(PATCH)
    else if m == CONNECT && index == 1 && ch == 'H' as int then Known(CHECKOUT)
    else if m == CONNECT && index == 2 && ch == 'P' as int then Known(COPY)
    else if m == MKCOL && index == 1 && ch == 'O' as int then Known(MOVE)
    else if m == MKCOL && index == 1 && ch == 'E' as int then Known(MERGE)
    else if m == MKCOL && index == 2 && ch == 'A' as int then Known(MKACTIVITY)
    else if m == MKCOL && index == 3 && ch == 'A' as int then Known(MKCALENDAR)
    else if m == SUBSCRIBE && index == 1 && ch == 'E' as int then Known(SEARCH)
    else if m == REPORT && index == 2 && ch == 'B' as int then Known(REBIND)
    else if m == POST && index == 1 && ch == 'R' as int then Known(PROPFIND)
    else if m == PROPFIND && index == 4 && ch == 'P' as int then Known(PROPPATCH)
    else if m == PUT && index == 2 && ch == 'R' as int then Known(PURGE)
    else if m == LOCK && index == 1 && ch == 'I' as int then Known(LINK)
    else if m == UNLOCK && index == 2 && ch == 'S' as int then Known(UNSUBSCRIBE)
    else if m == UNLOCK && index == 2 && ch == 'B' as int then Known(UNBIND)
    else if m == UNLOCK && index == 3 && ch == 'I' as int then Known(UNLINK)
    else Unknown
  }

  function OnMethod(q: Fields, ch: byte): Outcome {
    if ch == 0 then Error(q, INVALID_METHOD)
    else
      var expected := CharAt(MethodName(q.verb), q.index);
      if ch == SPACE && expected == 0 then To(q.(index := q.index + 1), s_req_spaces_before_url)
      else if ch == expected then Next(q.(index := q.index + 1))
      else if IsAlpha(ch) then
        match SwitchMethod(q.verb, q.index, ch)
        case Known(m) => Next(q.(verb := m, index := q.index + 1))
        case Unknown => Error(q, INVALID_METHOD)
      else if ch == '-' as int && q.index == 1 && q.verb == MKCOL then
        Next(q.(verb := MSEARCH, index := q.index + 1))
      else Error(q, INVALID_METHOD)
  }

  // ---- header names ------------------------------------------------------------------------

  /** One character of a header name matched against a known name. */
  function MatchName(name: string, hit: HeaderState, h: HeaderState, index: nat, c: byte): (HeaderState, nat) {
    if index + 1 > |name| || c as int != CharAt(name, index + 1) then (h_general, index + 1)
    else if index + 1 == |name| - 1 then (hit, index + 1)
    else (h, index + 1)
  }

  predicate IsFieldState(h: HeaderState) {
    h.h_general? || h.h_C? || h.h_CO? || h.h_CON? || h.h_matching_connection?
    || h.h_matching_proxy_connection? || h.h_matching_content_length?
    || h.h_matching_transfer_encoding? || h.h_matching_upgrade? || h.h_connection?
    || h.h_content_length? || h.h_transfer_encoding? || h.h_upgrade?
  }

  /** The header-state machine on one token character of a header name; `ch` is the raw byte, `c` its token. */
  function FieldChar(h: HeaderState, index: nat, ch: byte, c: byte): (HeaderState, nat) {
    match h
    case h_C => (if c == 'o' as int then h_CO else h_general, index + 1)
    case h_CO => (if c == 'n' as int then h_CON else h_general, index + 1)
    case h_CON =>
      (if c == 'n' as int then h_matching_connection
       else if c == 't' as int then h_matching_content_length
       else h_general, index + 1)
    case h_matching_connection => MatchName("connection", h_connection, h, index, c)
    case h_matching_proxy_connection => MatchName("proxy-connection", h_connection, h, index, c)
    case h_matching_content_length => MatchName("content-length", h_content_length, h, index, c)
    case h_matching_transfer_encoding => MatchName("transfer-encoding", h_transfer_encoding, h, index, c)
    case h_matching_upgrade => MatchName("upgrade", h_upgrade, h, index, c)
    case h_connection => (if ch != SPACE then h_general else h, index)
    case h_content_length => (if ch != SPACE then h_general else h, index)
    case h_transfer_encoding => (if ch != SPACE then h_general else h, index)
    case h_upgrade => (if ch != SPACE then h_general else h, index)
    case _ => (h, index)
  }

  function OnHeaderField(q: Fields, ch: byte): Outcome {
    var c := Token(ch);
    if c != 0 then
      if !IsFieldState(q.headerState) then Error(q, ASSERTION_FAILED)
      else
        var r := FieldChar(q.headerState, q.index, ch, c);
        Next(q.(headerState := r.0, index := r.1))
    else if ch == ':' as int then After(Deliver(HeaderField), To(q, s_header_value_discard_ws))
    else Error(q, INVALID_HEADER_TOKEN)
  }

  // ---- header values -----------------------------------------------------------------------

  /** What one character of a header value does to the local header state, `index`, the flags and the length. */
  datatype ValueResult = ValueOk(h: HeaderState, index: nat, flags: Flags, contentLength: uint64) | ValueError(e: Errno)

  function MatchValue(word: string, hit: HeaderState, miss: HeaderState, h: HeaderState, q: Fields,
                      c: byte): ValueResult {
    if q.index + 1 > |word| || c as int != CharAt(word, q.index + 1) then
      ValueOk(miss, q.index + 1, q.flags, q.contentLength)
    else if q.index + 1 == |word| - 1 then ValueOk(hit, q.index + 1, q.flags, q.contentLength)
    else ValueOk(h, q.index + 1, q.flags, q.contentLength)
  }

  function KeepValue(q: Fields, h: HeaderState): ValueResult {
    ValueOk(h, q.index, q.flags, q.contentLength)
  }

  /** The flags once a connection option or the transfer coding in `h` is recognised. */
  function Recognised(h: HeaderState, flags: Flags): Flags {
    match h
    case h_connection_keep_alive => flags.(keepAlive := true)
    case h_connection_close => flags.(close := true)
    case h_connection_upgrade => flags.(connectionUpgrade := true)
    case h_transfer_encoding_chunked => flags.(chunked := true)
    case _ => flags
  }

  function LengthChar(q: Fields, ch: byte): ValueResult {
    if ch == SPACE then KeepValue(q, h_content_length)
    else if !IsNum(ch) then ValueError(INVALID_CONTENT_LENGTH)
    else if (ULLONG_MAX - 10) / 10 < q.contentLength then ValueError(INVALID_CONTENT_LENGTH)
    else ValueOk(h_content_length, q.index, q.flags, q.contentLength * 10 + (ch - '0' as int))
  }

  function TokenStartChar(q: Fields, c: byte): ValueResult {
    KeepValue(q,
      if c == 'k' as int then h_matching_connection_keep_alive
      else if c == 'c' as int then h_matching_connection_close
      else if c == 'u' as int then h_matching_connection_upgrade
      else if Token(c) != 0 then h_matching_connection_token
      else if c == SPACE || c == TAB then h_matching_connection_token_start
      else h_general)
  }

  /** The header-state machine on one character of a header value other than CR and LF. */
  function ValueChar(q: Fields, ch: byte): ValueResult {
    var h := q.headerState;
    var c := Lower(ch);
    match h
    case h_general => KeepValue(q, h)
    case h_connection => ValueError(ASSERTION_FAILED)
    case h_transfer_encoding => ValueError(ASSERTION_FAILED)
    case h_content_length => LengthChar(q, ch)
    case h_matching_transfer_encoding_chunked =>
      MatchValue("chunked", h_transfer_encoding_chunked, h_general, h, q, c)
    case h_matching_connection_token_start => TokenStartChar(q, c)
    case h_matching_connection_keep_alive =>
      MatchValue("keep-alive", h_connection_keep_alive, h_matching_connection_token, h, q, c)
    case h_matching_connection_close =>
      MatchValue("close", h_connection_close, h_matching_connection_token, h, q, c)
    case h_matching_connection_upgrade =>
      MatchValue("upgrade", h_connection_upgrade, h_matching_connection_token, h, q, c)
    case h_matching_connection_token =>
      if ch == ',' as int then ValueOk(h_matching_connection_token_start, 0, q.flags, q.contentLength)
      else KeepValue(q, h)
    case h_transfer_encoding_chunked => KeepValue(q, if ch != SPACE then h_general else h)
    case h_connection_keep_alive => OptionChar(q, ch)
    case h_connection_close => OptionChar(q, ch)
    case h_connection_upgrade => OptionChar(q, ch)
    case _ => KeepValue(q, h_general)
  }

  function OptionChar(q: Fields, ch: byte): ValueResult {
    if ch == ',' as int then
      ValueOk(h_matching_connection_token_start, 0, Recognised(q.headerState, q.flags), q.contentLength)
    else KeepValue(q, if ch != SPACE then h_matching_connection_token else q.headerState)
  }

  function OnHeaderValue(q: Fields, ch: byte): Outcome {
    if ch == CR then After(Deliver(HeaderValue), To(q, s_header_almost_done))
    else if ch == LF then After(Deliver(HeaderValue), To(q, s_header_value_lws))
    else if !q.lenient && !IsHeaderChar(ch) then Error(q, INVALID_HEADER_TOKEN)
    else
      match ValueChar(q, ch)
      case ValueError(e) => Error(q, e)
      case ValueOk(h, index, flags, contentLength) =>
        Next(q.(headerState := h, index := index, flags := flags, contentLength := contentLength))
  }

  function StartLength(p: Fields, ch: byte): Outcome {
    if !IsNum(ch) then Error(p, INVALID_CONTENT_LENGTH)
    else if p.flags.hasLength then Error(p, UNEXPECTED_CONTENT_LENGTH)
    else Next(p.(flags := p.flags.(hasLength := true), contentLength := ch - '0' as int))
  }

  function StartOption(c: byte): HeaderState {
    if c == 'k' as int then h_matching_connection_keep_alive
    else if c == 'c' as int then h_matching_connection_close
    else if c == 'u' as int then h_matching_connection_upgrade
    else h_matching_connection_token
  }

  /** `s_header_value_start`. */
  function OnValueStart(q: Fields, ch: byte): Outcome {
    var c := Lower(ch);
    var p := q.(state := s_header_value, index := 0);
    After(Mark(HeaderValue),
      match q.headerState
      case h_upgrade => Next(p.(flags := p.flags.(upgrade := true), headerState := h_general))
      case h_transfer_encoding =>
        Next(p.(headerState := if c == 'c' as int then h_matching_transfer_encoding_chunked else h_general))
      case h_content_length => StartLength(p, ch)
      case h_connection => Next(p.(headerState := StartOption(c)))
      case h_matching_connection_token_start => Next(p)
      case _ => Next(p.(headerState := h_general)))
  }

  // ---- end of headers and messages ---------------------------------------------------------

  /** `s_message_done`. */
  function OnMessageDone(q: Fields): Outcome {
    Outcome(q.(state := NewMessage(q)), Then(Notify(MessageComplete), Done), if q.upgrade then Exit else Go, false)
  }

  predicate HasBody(q: Fields) {
    q.flags.chunked || (q.contentLength > 0 && q.contentLength != ULLONG_MAX)
  }

  predicate LeavesForUpgrade(q: Fields) {
    q.upgrade && (q.verb.CONNECT? || q.flags.skipBody || !HasBody(q))
  }

  /** How the body of the message whose headers are complete in `q` is delimited. */
  function BodyFraming(q: Fields): Framing {
    if LeavesForUpgrade(q) || q.flags.skipBody then NoBody
    else if q.flags.chunked then Chunked
    else if q.contentLength == 0 then NoBody
    else if q.contentLength != ULLONG_MAX then Length(q.contentLength)
    else if NeedsEof(q) then UntilEof
    else NoBody
  }

  /** `s_headers_done`. */
  function OnHeadersDone(q: Fields, ch: byte): Outcome {
    if ch != LF then Error(q, STRICT)
    else if LeavesForUpgrade(q) then
      Outcome(q.(state := NewMessage(q)), Then(Notify(MessageComplete), Done), Exit, true)
    else if q.flags.skipBody then Outcome(q.(state := NewMessage(q)), Then(Notify(MessageComplete), Done), Go, true)
    else if q.flags.chunked then Outcome(q.(state := s_chunk_size_start), Done, Go, true)
    else if q.contentLength == 0 then Outcome(q.(state := NewMessage(q)), Then(Notify(MessageComplete), Done), Go, true)
    else if q.contentLength != ULLONG_MAX then Outcome(q.(state := s_body_identity), Done, Go, true)
    else if NeedsEof(q) then Outcome(q.(state := s_body_identity_eof), Done, Go, true)
    else Outcome(q.(state := NewMessage(q)), Then(Notify(MessageComplete), Done), Go, true)
  }

  /** The parser after `on_headers_complete` has given its verdict. */
  function Judged(q: Fields, v: Verdict): Fields {
    match v
    case Proceed => q
    case SkipBody => q.(flags := q.flags.(skipBody := true))
    case SkipBodyAndUpgrade => q.(flags := q.flags.(skipBody := true), upgrade := true)
  }

  /** `s_headers_almost_done`. */
  function OnHeadersAlmostDone(q: Fields, ch: byte, cb: HeadersCompleteCallback): Outcome {
    if ch != LF then Error(q, STRICT)
    else if q.flags.trailing then After(Notify(ChunkComplete), OnMessageDone(q.(state := s_message_done)))
    else if q.flags.chunked && q.flags.hasLength then Error(q, UNEXPECTED_CONTENT_LENGTH)
    else
      var p := q.(state := s_headers_done,
        upgrade := (q.flags.upgrade && q.flags.connectionUpgrade) || q.verb.CONNECT?);
      var j := Judged(p, cb(p));
      After(Notify(HeadersComplete(BodyFraming(j))), OnHeadersDone(j, ch))
  }

  /** `s_header_field_start`. */
  function OnFieldStart(q: Fields, ch: byte, cb: HeadersCompleteCallback): Outcome {
    if ch == CR then To(q, s_headers_almost_done)
    else if ch == LF then OnHeadersAlmostDone(q.(state := s_headers_almost_done), ch, cb)
    else
      var c := Token(ch);
      if c == 0 then Error(q, INVALID_HEADER_TOKEN)
      else
        After(Mark(HeaderField), To(q.(index := 0, headerState :=
          if c == 'c' as int then h_C
          else if c == 'p' as int then h_matching_proxy_connection
          else if c == 't' as int then h_matching_transfer_encoding
          else if c == 'u' as int then h_matching_upgrade
          else h_general), s_header_field))
  }

  /** The states between a header value and the next header. */
  function OnHeaderEnd(q: Fields, ch: byte, cb: HeadersCompleteCallback): Outcome {
    match q.state
    case s_header_value_discard_ws =>
      if ch == SPACE || ch == TAB then Next(q)
      else if ch == CR then To(q, s_header_value_discard_ws_almost_done)
      else if ch == LF then To(q, s_header_value_discard_lws)
      else OnValueStart(q, ch)
    case s_header_value_start => OnValueStart(q, ch)
    case s_header_almost_done => if ch != LF then Error(q, LF_EXPECTED) else To(q, s_header_value_lws)
    case s_header_value_lws =>
      if ch == SPACE || ch == TAB then OnValueStart(q.(state := s_header_value_start), ch)
      else OnFieldStart(q.(flags := Recognised(q.headerState, q.flags), state := s_header_field_start), ch, cb)
    case s_header_value_discard_ws_almost_done =>
      if ch != LF then Error(q, STRICT) else To(q, s_header_value_discard_lws)
    case s_header_value_discard_lws =>
      if ch == SPACE || ch == TAB then To(q, s_header_value_discard_ws)
      else
        var p := q.(flags := Recognised(q.headerState, q.flags), state := s_header_field_start);
        After(Mark(HeaderValue), After(Deliver(HeaderValue), OnFieldStart(p, ch, cb)))
    case _ => Error(q, ASSERTION_FAILED)
  }

  // ---- bodies ------------------------------------------------------------------------------

  function OnChunkSize(q: Fields, ch: byte): Outcome {
    if ch == CR then To(q, s_chunk_size_almost_done)
    else if Unhex(ch) == -1 then
      if ch == ';' as int || ch == SPACE then To(q, s_chunk_parameters) else Error(q, INVALID_CHUNK_SIZE)
    else if (ULLONG_MAX - 16) / 16 < q.contentLength then Error(q, INVALID_CONTENT_LENGTH)
    else Next(q.(contentLength := q.contentLength * 16 + Unhex(ch)))
  }

  /** One byte of a body whose length is known. */
  function OnIdentity(q: Fields): Outcome {
    if q.contentLength == 0 || q.contentLength == ULLONG_MAX then Error(q, ASSERTION_FAILED)
    else if q.contentLength == 1 then
      After(Mark(Body), After(DeliverThrough(Body), OnMessageDone(q.(contentLength := 0, state := s_message_done))))
    else After(Mark(Body), Next(q.(contentLength := q.contentLength - 1)))
  }

  /** The body states; a block of body bytes is taken one byte at a time here. */
  function OnBody(q: Fields, ch: byte): Outcome {
    match q.state
    case s_body_identity => OnIdentity(q)
    case s_body_identity_eof => After(Mark(Body), Next(q))
    case s_message_done => OnMessageDone(q)
    case s_chunk_size_start =>
      if !q.flags.chunked then Error(q, ASSERTION_FAILED)
      else if Unhex(ch) == -1 then Error(q, INVALID_CHUNK_SIZE)
      else To(q.(contentLength := Unhex(ch)), s_chunk_size)
    case s_chunk_size => if !q.flags.chunked then Error(q, ASSERTION_FAILED) else OnChunkSize(q, ch)
    case s_chunk_parameters =>
      if !q.flags.chunked then Error(q, ASSERTION_FAILED)
      else if ch == CR then To(q, s_chunk_size_almost_done)
      else Next(q)
    case s_chunk_size_almost_done =>
      if !q.flags.chunked then Error(q, ASSERTION_FAILED)
      else if ch != LF then Error(q, STRICT)
      else
        var p := if q.contentLength == 0 then q.(flags := q.flags.(trailing := true), state := s_header_field_start)
                 else q.(state := s_chunk_data);
        Outcome(p, Then(Notify(ChunkHeader(q.contentLength)), Done), Go, true)
    case s_chunk_data =>
      if !q.flags.chunked || q.contentLength == 0 || q.contentLength == ULLONG_MAX then Error(q, ASSERTION_FAILED)
      else
        After(Mark(Body), To(q.(contentLength := q.contentLength - 1),
          if q.contentLength == 1 then s_chunk_data_almost_done else s_chunk_data))
    case s_chunk_data_almost_done =>
      if !q.flags.chunked || q.contentLength != 0 then Error(q, ASSERTION_FAILED)
      else if ch != CR then Error(q, STRICT)
      else After(Deliver(Body), To(q, s_chunk_data_done))
    case s_chunk_data_done =>
      if !q.flags.chunked then Error(q, ASSERTION_FAILED)
      else if ch != LF then Error(q, STRICT)
      else Outcome(q.(state := s_chunk_size_start), Then(Notify(ChunkComplete), Done), Go, true)
    case _ => Error(q, ASSERTION_FAILED)
  }

  // ---- start lines -------------------------------------------------------------------------

  /** A fixed character of "HTTP/". */
  function Expect(q: Fields, ch: byte, c: char, s: State): Outcome {
    if ch != c as int then Error(q, STRICT) else To(q, s)
  }

  function OnStartReq(q: Fields, ch: byte): Outcome {
    if ch == CR || ch == LF then Next(q)
    else
      var p := q.(flags := NO_FLAGS, contentLength := ULLONG_MAX);
      if !IsAlpha(ch) then Error(p, INVALID_METHOD)
      else
        match FirstMethod(ch)
        case Unknown => Error(p.(verb := DELETE, index := 1), INVALID_METHOD)
        case Known(m) => After(Notify(MessageBegin), To(p.(verb := m, index := 1), s_req_method))
  }

  /** The states before the first line of a message. */
  function OnStart(q: Fields, ch: byte): Outcome {
    match q.state
    case s_dead => if ch == CR || ch == LF then Next(q) else Error(q, CLOSED_CONNECTION)
    case s_start_req_or_res =>
      if ch == CR || ch == LF then Next(q)
      else
        var p := q.(flags := NO_FLAGS, contentLength := ULLONG_MAX);
        if ch == 'H' as int then After(Notify(MessageBegin), To(p, s_res_or_resp_H))
        else OnStartReq(p.(typ := REQUEST, state := s_start_req), ch)
    case s_res_or_resp_H =>
      if ch == 'T' as int then To(q.(typ := RESPONSE), s_res_HT)
      else if ch != 'E' as int then Error(q, INVALID_CONSTANT)
      else To(q.(typ := REQUEST, verb := HEAD, index := 2), s_req_method)
    case s_start_res =>
      var p := q.(flags := NO_FLAGS, contentLength := ULLONG_MAX);
      if ch == 'H' as int then After(Notify(MessageBegin), To(p, s_res_H))
      else if ch == CR || ch == LF then After(Notify(MessageBegin), Next(p))
      else Error(p, INVALID_CONSTANT)
    case s_start_req => OnStartReq(q, ch)
    case s_req_method => OnMethod(q, ch)
    case _ => Error(q, ASSERTION_FAILED)
  }

  /** Another digit of a number that may not exceed 999; `n` is the number with the digit. */
  function Digits(q: Fields, ch: byte, n: nat, p: Fields, e: Errno): Outcome {
    if !IsNum(ch) then Error(q, e) else if n > 999 then Error(p, e) else Next(p)
  }

  function Append(n: nat, ch: byte): nat
    requires ch >= 48
  {
    n * 10 + (ch - 48)
  }

  function Digit(ch: byte): nat {
    if IsNum(ch) then ch - '0' as int else 0
  }

  /** The states of a response's status line. */
  function OnStatusLine(q: Fields, ch: byte): Outcome {
    match q.state
    case s_res_H => Expect(q, ch, 'T', s_res_HT)
    case s_res_HT => Expect(q, ch, 'T', s_res_HTT)
    case s_res_HTT => Expect(q, ch, 'P', s_res_HTTP)
    case s_res_HTTP => Expect(q, ch, '/', s_res_first_http_major)
    case s_res_first_http_major =>
      if !IsNum(ch) then Error(q, INVALID_VERSION) else To(q.(httpMajor := Digit(ch)), s_res_http_major)
    case s_res_http_major =>
      if ch == '.' as int then To(q, s_res_first_http_minor)
      else var n := q.httpMajor * 10 + Digit(ch); Digits(q, ch, n, q.(httpMajor := n), INVALID_VERSION)
    case s_res_first_http_minor =>
      if !IsNum(ch) then Error(q, INVALID_VERSION) else To(q.(httpMinor := Digit(ch)), s_res_http_minor)
    case s_res_http_minor =>
      if ch == SPACE then To(q, s_res_first_status_code)
      else var n := q.httpMinor * 10 + Digit(ch); Digits(q, ch, n, q.(httpMinor := n), INVALID_VERSION)
    case s_res_first_status_code =>
      if IsNum(ch) then To(q.(statusCode := Digit(ch)), s_res_status_code)
      else if ch == SPACE then Next(q)
      else Error(q, INVALID_STATUS)
    case s_res_status_code =>
      if ch == SPACE then To(q, s_res_status_start)
      else if ch == CR then To(q, s_res_line_almost_done)
      else if ch == LF then To(q, s_header_field_start)
      else var n := q.statusCode * 10 + Digit(ch); Digits(q, ch, n, q.(statusCode := n), INVALID_STATUS)
    case s_res_status_start =>
      if ch == CR then To(q, s_res_line_almost_done)
      else if ch == LF then To(q, s_header_field_start)
      else After(Mark(StatusText), To(q.(index := 0), s_res_status))
    case s_res_status =>
      if ch == CR then After(Deliver(StatusText), To(q, s_res_line_almost_done))
      else if ch == LF then After(Deliver(StatusText), To(q, s_header_field_start))
      else Next(q)
    case s_res_line_almost_done => if ch != LF then Error(q, STRICT) else To(q, s_header_field_start)
    case _ => Error(q, ASSERTION_FAILED)
  }

  /** A URL character of a request line, in URL state `s`. */
  function OnUrlChar(q: Fields, s: State, ch: byte): Outcome {
    var t := ParseUrlChar(s, ch);
    if t.s_dead? then Error(q.(state := s_dead), INVALID_URL) else To(q, t)
  }

  predicate IsEarlyUrlState(s: State) {
    s.s_req_schema? || s.s_req_schema_slash? || s.s_req_schema_slash_slash? || s.s_req_server_start?
  }

  predicate IsLateUrlState(s: State) {
    s.s_req_server? || s.s_req_server_with_at? || s.s_req_path? || s.s_req_query_string_start?
    || s.s_req_query_string? || s.s_req_fragment_start? || s.s_req_fragment?
  }

  /** The states of a request's URL. */
  function OnUrl(q: Fields, ch: byte): Outcome {
    if q.state.s_req_spaces_before_url? then
      if ch == SPACE then Next(q)
      else
        var s := if q.verb.CONNECT? then s_req_server_start else q.state;
        After(Mark(Url), OnUrlChar(q, s, ch))
    else if IsEarlyUrlState(q.state) then
      if ch == SPACE || ch == CR || ch == LF then Error(q, INVALID_URL) else OnUrlChar(q, q.state, ch)
    else if ch == SPACE then After(Deliver(Url), To(q, s_req_http_start))
    else if ch == CR then After(Deliver(Url), To(q.(httpMajor := 0, httpMinor := 9), s_req_line_almost_done))
    else if ch == LF then After(Deliver(Url), To(q.(httpMajor := 0, httpMinor := 9), s_header_field_start))
    else OnUrlChar(q, q.state, ch)
  }

  /** The states of a request line after the URL. */
  function OnRequestLine(q: Fields, ch: byte): Outcome {
    match q.state
    case s_req_http_start =>
      if ch == 'H' as int then To(q, s_req_http_H) else if ch == SPACE then Next(q) else Error(q, INVALID_CONSTANT)
    case s_req_http_H => Expect(q, ch, 'T', s_req_http_HT)
    case s_req_http_HT => Expect(q, ch, 'T', s_req_http_HTT)
    case s_req_http_HTT => Expect(q, ch, 'P', s_req_http_HTTP)
    case s_req_http_HTTP => Expect(q, ch, '/', s_req_first_http_major)
    case s_req_first_http_major =>
      if !('1' as int <= ch <= '9' as int) then Error(q, INVALID_VERSION)
      else To(q.(httpMajor := Digit(ch)), s_req_http_major)
    case s_req_http_major =>
      if ch == '.' as int then To(q, s_req_first_http_minor)
      else var n := q.httpMajor * 10 + Digit(ch); Digits(q, ch, n, q.(httpMajor := n), INVALID_VERSION)
    case s_req_first_http_minor =>
      if !IsNum(ch) then Error(q, INVALID_VERSION) else To(q.(httpMinor := Digit(ch)), s_req_http_minor)
    case s_req_http_minor =>
      if ch == CR then To(q, s_req_line_almost_done)
      else if ch == LF then To(q, s_header_field_start)
      else var n := q.httpMinor * 10 + Digit(ch); Digits(q, ch, n, q.(httpMinor := n), INVALID_VERSION)
    case s_req_line_almost_done => if ch != LF then Error(q, LF_EXPECTED) else To(q, s_header_field_start)
    case _ => Error(q, ASSERTION_FAILED)
  }

  // ---- the whole switch --------------------------------------------------------------------

  datatype Group = GStart | GStatusLine | GUrl | GRequestLine | GFieldStart | GField | GValue | GHeaderEnd
                 | GAlmostDone | GDone | GBody

  function GroupOf(s: State): Group {
    match s
    case s_dead | s_start_req_or_res | s_res_or_resp_H | s_start_res | s_start_req | s_req_method => GStart
    case s_res_H | s_res_HT | s_res_HTT | s_res_HTTP | s_res_first_http_major | s_res_http_major
       | s_res_first_http_minor | s_res_http_minor | s_res_first_status_code | s_res_status_code
       | s_res_status_start | s_res_status | s_res_line_almost_done => GStatusLine
    case s_req_spaces_before_url | s_req_schema | s_req_schema_slash | s_req_schema_slash_slash
       | s_req_server_start | s_req_server | s_req_server_with_at | s_req_path | s_req_query_string_start
       | s_req_query_string | s_req_fragment_start | s_req_fragment => GUrl
    case s_req_http_start | s_req_http_H | s_req_http_HT | s_req_http_HTT | s_req_http_HTTP
       | s_req_first_http_major | s_req_http_major | s_req_first_http_minor | s_req_http_minor
       | s_req_line_almost_done => GRequestLine
    case s_header_field_start => GFieldStart
    case s_header_field => GField
    case s_header_value => GValue
    case s_header_value_discard_ws | s_header_value_discard_ws_almost_done | s_header_value_discard_lws
       | s_header_value_start | s_header_value_lws | s_header_almost_done => GHeaderEnd
    case s_headers_almost_done => GAlmostDone
    case s_headers_done => GDone
    case s_chunk_size_start | s_chunk_size | s_chunk_parameters | s_chunk_size_almost_done | s_chunk_data
       | s_chunk_data_almost_done | s_chunk_data_done | s_body_identity | s_body_identity_eof
       | s_message_done => GBody
  }

  /** One pass through the switch for byte `ch`. */
  function Dispatch(q: Fields, ch: byte, cb: HeadersCompleteCallback): Outcome {
    match GroupOf(q.state)
    case GStart => OnStart(q, ch)
    case GStatusLine => OnStatusLine(q, ch)
    case GUrl => OnUrl(q, ch)
    case GRequestLine => OnRequestLine(q, ch)
    case GFieldStart => OnFieldStart(q, ch, cb)
    case GField => OnHeaderField(q, ch)
    case GValue => OnHeaderValue(q, ch)
    case GHeaderEnd => OnHeaderEnd(q, ch, cb)
    case GAlmostDone => OnHeadersAlmostDone(q, ch, cb)
    case GDone => OnHeadersDone(q, ch)
    case GBody => OnBody(q, ch)
  }

  // ---- the switch as a parameter -----------------------------------------------------------

  /** The run lemmas hold of any switch; only `Consult` tells what this one does. */
  type Switch = (Fields, byte) -> Outcome

  predicate Consult(q: Fields, ch: byte) {
    true
  }

  ghost predicate Implements(sw: Switch, cb: HeadersCompleteCallback) {
    forall q: Fields, ch: byte {:trigger Consult(q, ch)} :: sw(q, ch) == Dispatch(q, ch, cb)
  }

  function SwitchOf(cb: HeadersCompleteCallback): (sw: Switch)
    ensures Implements(sw, cb)
  {
    (q: Fields, ch: byte) => Dispatch(q, ch, cb)
  }
}
