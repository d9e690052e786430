/** Taking a URL apart: one pass finds the fields, a second one divides the authority. */
module HttpUrl {
  import opened HttpLog
  import opened HttpNumber
  import opened HttpStep
  import opened Options

  datatype Part = Schema | UserInfo | Host | Port | Path | Query | Fragment

  /** A field's place in the buffer. */
  datatype Span = Span(off: nat, len: nat) {
    function End(): nat {
      off + len
    }
  }

  type Spans = map<Part, Span>

  // ---- the first pass ----------------------------------------------------------------------

  /** The field a state belongs to; nothing for the states of delimiters. */
  function PartOf(s: State): Option<Part> {
    match s
    case s_req_schema => Some(Schema)
    case s_req_server_with_at => Some(Host)
    case s_req_server => Some(Host)
    case s_req_path => Some(Path)
    case s_req_query_string => Some(Query)
    case s_req_fragment => Some(Fragment)
    case _ => None
  }

  datatype Scan = Scan(s: State, last: Option<Part>, fields: Spans, foundAt: bool)

  function Begun(isConnect: bool): Scan {
    Scan(if isConnect then s_req_server_start else s_req_spaces_before_url, None, map[], false)
  }

  /** One turn of the loop at offset `p`; nothing if the URL is refused. */
  function ScanByte(c: Scan, ch: byte, p: nat): Option<Scan> {
    var s := ParseUrlChar(c.s, ch);
    if s.s_dead? then None
    else
      match PartOf(s)
      case None => Some(c.(s := s))
      case Some(f) =>
        var at := c.foundAt || s.s_req_server_with_at?;
        if c.last == Some(f) && f in c.fields then
          Some(Scan(s, c.last, c.fields[f := Span(c.fields[f].off, c.fields[f].len + 1)], at))
        else Some(Scan(s, Some(f), c.fields[f := Span(p, 1)], at))
  }

  /** The loop over the first `n` bytes. */
  function ScanTo(buf: seq<byte>, n: nat, isConnect: bool): Option<Scan>
    requires n <= |buf|
  {
    if n == 0 then Some(Begun(isConnect))
    else
      match ScanTo(buf, n - 1, isConnect)
      case None => None
      case Some(c) => ScanByte(c, buf[n - 1], n - 1)
  }

  // ---- the authority -----------------------------------------------------------------------

  datatype HostState =
    | s_http_host_dead
    | s_http_userinfo_start
    | s_http_userinfo
    | s_http_host_start
    | s_http_host_v6_start
    | s_http_host
    | s_http_host_v6
    | s_http_host_v6_end
    | s_http_host_v6_zone_start
    | s_http_host_v6_zone
    | s_http_host_port_start
    | s_http_host_port

  predicate IsHex(ch: byte) {
    IsNum(ch) || 'a' as int <= Lower(ch) <= 'f' as int
  }

  predicate IsHostChar(ch: byte) {
    IsAlpha(ch) || IsNum(ch) || ch == '.' as int || ch == '-' as int
  }

  predicate IsZoneChar(ch: byte) {
    IsAlpha(ch) || IsNum(ch) || ch == '%' as int || ch == '.' as int || ch == '-' as int || ch == '_' as int
    || ch == '~' as int
  }

  /** `http_parse_host_char`. */
  function ParseHostChar(s: HostState, ch: byte): HostState {
    match s
    case s_http_userinfo | s_http_userinfo_start =>
      if ch == '@' as int then s_http_host_start
      else if IsUserinfoChar(ch) then s_http_userinfo
      else s_http_host_dead
    case s_http_host_start =>
      if ch == '[' as int then s_http_host_v6_start
      else if IsHostChar(ch) then s_http_host
      else s_http_host_dead
    case s_http_host =>
      if IsHostChar(ch) then s_http_host
      else if ch == ':' as int then s_http_host_port_start
      else s_http_host_dead
    case s_http_host_v6_end => if ch == ':' as int then s_http_host_port_start else s_http_host_dead
    case s_http_host_v6 =>
      if ch == ']' as int then s_http_host_v6_end
      else if IsHex(ch) || ch == ':' as int || ch == '.' as int then s_http_host_v6
      else if ch == '%' as int then s_http_host_v6_zone_start
      else s_http_host_dead
    case s_http_host_v6_start =>
      if IsHex(ch) || ch == ':' as int || ch == '.' as int then s_http_host_v6 else s_http_host_dead
    case s_http_host_v6_zone =>
      if ch == ']' as int then s_http_host_v6_end
      else if IsZoneChar(ch) then s_http_host_v6_zone
      else s_http_host_dead
    case s_http_host_v6_zone_start => if IsZoneChar(ch) then s_http_host_v6_zone else s_http_host_dead
    case s_http_host_port | s_http_host_port_start => if IsNum(ch) then s_http_host_port else s_http_host_dead
    case s_http_host_dead => s_http_host_dead
  }

  /** The authority's fields while it is divided. */
  datatype Authority = Authority(s: HostState, user: Option<Span>, host: Span, port: Option<Span>)

  function Longer(x: Span): Span {
    Span(x.off, x.len + 1)
  }

  /** A field gets one byte longer, or starts here. */
  function Grown(x: Option<Span>, inside: bool, p: nat): Option<Span> {
    if inside && x.Some? then Some(Longer(x.value)) else Some(Span(p, 1))
  }

  /** One turn of the loop over the authority. */
  function HostByte(h: Authority, ch: byte, p: nat): Option<Authority> {
    var s := ParseHostChar(h.s, ch);
    match s
    case s_http_host_dead => None
    case s_http_host =>
      Some(h.(s := s, host := Span(if h.s.s_http_host? then h.host.off else p, h.host.len + 1)))
    case s_http_host_v6 =>
      Some(h.(s := s, host := Span(if h.s.s_http_host_v6? then h.host.off else p, h.host.len + 1)))
    case s_http_host_v6_zone_start => Some(h.(s := s, host := Longer(h.host)))
    case s_http_host_v6_zone => Some(h.(s := s, host := Longer(h.host)))
    case s_http_host_port => Some(h.(s := s, port := Grown(h.port, h.s.s_http_host_port?, p)))
    case s_http_userinfo => Some(h.(s := s, user := Grown(h.user, h.s.s_http_userinfo?, p)))
    case _ => Some(h.(s := s))
  }

  function HostBegun(off: nat, foundAt: bool): Authority {
    Authority(if foundAt then s_http_userinfo_start else s_http_host_start, None, Span(off, 0), None)
  }

  /** The loop over the authority from `off` to `n`. */
  function HostTo(buf: seq<byte>, off: nat, n: nat, foundAt: bool): Option<Authority>
    requires off <= n <= |buf|
    decreases n - off
  {
    if n == off then Some(HostBegun(off, foundAt))
    else
      match HostTo(buf, off, n - 1, foundAt)
      case None => None
      case Some(h) => HostByte(h, buf[n - 1], n - 1)
  }

  /** Where the authority may end. */
  predicate MayEnd(s: HostState) {
    s.s_http_host? || s.s_http_host_v6_end? || s.s_http_host_port?
  }

  datatype ParsedUrl = ParsedUrl(fields: Spans, port: nat)

  /** The fields of a URL, or nothing if it is refused. */
  function ParseUrl(buf: seq<byte>, isConnect: bool): Option<ParsedUrl> {
    match ScanTo(buf, |buf|, isConnect)
    case None => None
    case Some(c) =>
      if Schema in c.fields && Host !in c.fields then None
      else if Host in c.fields then
        ScanToScans(buf, |buf|, isConnect);
        (match HostTo(buf, c.fields[Host].off, c.fields[Host].End(), c.foundAt)
         case None => None
         case Some(h) => 
           HostToDivides(buf, c.fields[Host].off, c.fields[Host].End(), c.foundAt);
           if MayEnd(h.s) then Finished(buf, (c.fields - {Host}) + AuthoritySpans(h), h.port, isConnect) else None)
      else Finished(buf, c.fields, None, isConnect)
  }

  /** The two passes one after the other. */
  lemma ParseIs(buf: seq<byte>, isConnect: bool, c: Scan, h: Authority)
    requires ScanTo(buf, |buf|, isConnect) == Some(c) && Host in c.fields && c.fields[Host].End() <= |buf|
    requires HostTo(buf, c.fields[Host].off, c.fields[Host].End(), c.foundAt) == Some(h) && MayEnd(h.s)
    ensures h.port.Some? ==> h.port.value.End() <= |buf| && DigitsAt(buf, h.port.value)
    ensures ParseUrl(buf, isConnect) == Finished(buf, (c.fields - {Host}) + AuthoritySpans(h), h.port, isConnect)
  {
    hide ScanTo, HostTo, Laid, AuthoritySpans, Finished;
    HostToDivides(buf, c.fields[Host].off, c.fields[Host].End(), c.foundAt);
  }

  /** The last checks: what CONNECT demands, and the port's value. */
  function Finished(buf: seq<byte>, fields: Spans, port: Option<Span>, isConnect: bool): Option<ParsedUrl>
    requires port.Some? ==> port.value.End() <= |buf| && DigitsAt(buf, port.value)
  {
    if isConnect && fields.Keys != {Host, Port} then None
    else if port == None then Some(ParsedUrl(fields, 0))
    else
      var v := Decimal(0, buf[port.value.off..port.value.End()]);
      if v > 65535 then None else Some(ParsedUrl(fields, v))
  }

  predicate DigitsAt(buf: seq<byte>, x: Span)
    requires x.End() <= |buf|
  {
    forall i :: x.off <= i < x.End() ==> IsNum(buf[i])
  }

  // ---- where the fields are ----------------------------------------------------------------

  predicate Delimiter(ch: byte) {
    ch == ':' as int || ch == '/' as int || ch == '?' as int || ch == '#' as int || ch == '@' as int
    || ch == '[' as int || ch == ']' as int
  }

  /** The order of the fields in a URL. */
  function Order(f: Part): nat {
    match f
    case Schema => 0
    case UserInfo => 1
    case Host => 2
    case Port => 3
    case Path => 4
    case Query => 5
    case Fragment => 6
  }

  predicate Covered(spans: Spans, i: int) {
    exists f :: f in spans && Within(spans[f], i)
  }

  predicate Within(x: Span, i: int) {
    x.off <= i < x.End()
  }

  /** The fields lie in the bytes from `a` to `n`, none empty, in order and disjoint, and between them are
      only delimiters. */
  ghost predicate Laid(spans: Spans, buf: seq<byte>, a: nat, n: nat)
    requires n <= |buf|
  {
    && (forall f :: f in spans ==> a <= spans[f].off && 0 < spans[f].len && spans[f].End() <= n)
    && (forall f, g :: f in spans && g in spans && Order(f) < Order(g) ==> spans[f].End() <= spans[g].off)
    && (forall i :: a <= i < n ==> Covered(spans, i) || Delimiter(buf[i]))
  }

  /** How far along a URL a state is. */
  function Rank(s: State): nat {
    match s
    case s_req_schema => 1
    case s_req_schema_slash => 2
    case s_req_schema_slash_slash => 2
    case s_req_server_start => 2
    case s_req_server_with_at => 3
    case s_req_server => 3
    case s_req_path => 4
    case s_req_query_string_start => 5
    case s_req_query_string => 6
    case s_req_fragment_start => 7
    case s_req_fragment => 8
    case _ => 0
  }

  function PartRank(f: Part): nat {
    match f
    case Schema => 1
    case Path => 4
    case Query => 6
    case Fragment => 8
    case _ => 3
  }

  predicate FirstPassPart(f: Part) {
    !f.UserInfo? && !f.Port?
  }

  /** A URL is only ever read forward, and a byte that belongs to no field is a delimiter. */
  lemma UrlGoesOn(s: State, ch: byte)
    requires !ParseUrlChar(s, ch).s_dead?
    ensures
      var t := ParseUrlChar(s, ch);
      Rank(s) <= Rank(t) && (PartOf(t) == None ==> Delimiter(ch))
      && (PartOf(t).Some? ==> Rank(t) == PartRank(PartOf(t).value) && FirstPassPart(PartOf(t).value))
  {
    hide IsAlpha, IsUrlChar, IsUserinfoChar;
  }

  ghost predicate Scanned(c: Scan, buf: seq<byte>, n: nat)
    requires n <= |buf|
  {
    && Laid(c.fields, buf, 0, n)
    && (forall f :: f in c.fields ==> FirstPassPart(f) && PartRank(f) <= Rank(c.s))
    && (c.last.Some? ==> c.last.value in c.fields)
    && (match PartOf(c.s)
        case None => forall f :: f in c.fields ==> PartRank(f) < Rank(c.s)
        case Some(f) => c.last == Some(f) && Rank(c.s) == PartRank(f) && c.fields[f].End() == n)
  }

  lemma CoveredBy(spans: Spans, f: Part, i: int)
    requires f in spans && Within(spans[f], i)
    ensures Covered(spans, i)
  {}

  lemma StaysCovered(spans: Spans, now: Spans, i: int)
    requires forall f :: f in spans ==> f in now && now[f].off == spans[f].off && spans[f].len <= now[f].len
    ensures Covered(spans, i) ==> Covered(now, i)
  {
    if Covered(spans, i) {
      var g :| g in spans && Within(spans[g], i);
      assert g in now && Within(now[g], i);
    }
  }

  /** The last field gets one byte longer. */
  lemma LaidLonger(spans: Spans, buf: seq<byte>, a: nat, n: nat, f: Part)
    requires n < |buf| && Laid(spans, buf, a, n) && f in spans && spans[f].End() == n
    requires forall g :: g in spans ==> Order(g) <= Order(f)
    ensures Laid(spans[f := Longer(spans[f])], buf, a, n + 1)
  {
    var now := spans[f := Longer(spans[f])];
    forall i | a <= i < n + 1
      ensures Covered(now, i) || Delimiter(buf[i])
    {
      hide Covered, Delimiter;
      if i == n {
        CoveredBy(now, f, i);
      } else {
        StaysCovered(spans, now, i);
      }
    }
  }

  /** A new last field starts. */
  lemma LaidAnother(spans: Spans, buf: seq<byte>, a: nat, n: nat, f: Part)
    requires a <= n < |buf| && Laid(spans, buf, a, n) && f !in spans
    requires forall g :: g in spans ==> Order(g) < Order(f)
    ensures Laid(spans[f := Span(n, 1)], buf, a, n + 1)
  {
    var now := spans[f := Span(n, 1)];
    forall i | a <= i < n + 1
      ensures Covered(now, i) || Delimiter(buf[i])
    {
      hide Covered, Delimiter;
      if i == n {
        CoveredBy(now, f, i);
      } else {
        StaysCovered(spans, now, i);
      }
    }
  }

  lemma LaidDelimiter(spans: Spans, buf: seq<byte>, a: nat, n: nat)
    requires n < |buf| && Laid(spans, buf, a, n) && Delimiter(buf[n])
    ensures Laid(spans, buf, a, n + 1)
  {}

  /** Parts that come earlier in the first pass come earlier in a URL. */
  lemma OrderByRank(f: Part, g: Part)
    requires FirstPassPart(f) && FirstPassPart(g)
    ensures PartRank(f) < PartRank(g) <==> Order(f) < Order(g)
    ensures PartRank(f) == PartRank(g) <==> f == g
  {}

  lemma ScanByteScans(c: Scan, buf: seq<byte>, n: nat)
    requires n < |buf| && Scanned(c, buf, n) && ScanByte(c, buf[n], n).Some?
    ensures Scanned(ScanByte(c, buf[n], n).value, buf, n + 1)
  {
    hide Laid, ParseUrlChar, Rank, PartRank, Order;
    var s := ParseUrlChar(c.s, buf[n]);
    UrlGoesOn(c.s, buf[n]);
    forall f, g | FirstPassPart(f) && FirstPassPart(g)
      ensures PartRank(f) < PartRank(g) <==> Order(f) < Order(g)
      ensures PartRank(f) == PartRank(g) <==> f == g
    {
      OrderByRank(f, g);
    }
    match PartOf(s)
    case None =>
      LaidDelimiter(c.fields, buf, 0, n);
      DelimiterRank(s);
    case Some(f) =>
      if c.last == Some(f) {
        PartOfRank(c.s);
        LaidLonger(c.fields, buf, 0, n, f);
      } else {
        LaidAnother(c.fields, buf, 0, n, f);
      }
  }

  /** No field has the rank of a delimiter's state. */
  lemma DelimiterRank(s: State)
    requires PartOf(s) == None && !s.s_dead?
    ensures forall f :: PartRank(f) <= Rank(s) ==> PartRank(f) < Rank(s)
  {}

  lemma PartOfRank(s: State)
    ensures PartOf(s).Some? ==> Rank(s) == PartRank(PartOf(s).value)
  {}

  lemma {:induction false} ScanToScans(buf: seq<byte>, n: nat, isConnect: bool)
    requires n <= |buf| && ScanTo(buf, n, isConnect).Some?
    ensures Scanned(ScanTo(buf, n, isConnect).value, buf, n)
  {
    if n > 0 {
      hide Scanned, ScanByte;
      ScanToScans(buf, n - 1, isConnect);
      ScanByteScans(ScanTo(buf, n - 1, isConnect).value, buf, n - 1);
    }
  }

  /** The authority's fields found so far. */
  function AuthoritySpans(h: Authority): (spans: Spans)
    ensures forall f :: f in spans ==> f.UserInfo? || f.Host? || f.Port?
  {
    var a: Spans := if h.user.Some? then map[UserInfo := h.user.value] else map[];
    var b := if h.host.len > 0 then a[Host := h.host] else a;
    if h.port.Some? then b[Port := h.port.value] else b
  }

  predicate InHost(s: HostState) {
    s.s_http_host? || s.s_http_host_v6? || s.s_http_host_v6_zone_start? || s.s_http_host_v6_zone?
  }

  predicate BeforeHost(s: HostState) {
    s.s_http_userinfo_start? || s.s_http_userinfo? || s.s_http_host_start? || s.s_http_host_v6_start?
  }

  ghost predicate Divided(h: Authority, buf: seq<byte>, off: nat, n: nat)
    requires off <= n <= |buf|
  {
    && h.s != s_http_host_dead
    && Laid(AuthoritySpans(h), buf, off, n)
    && (h.user.Some? ==> h.user.value.len > 0)
    && (h.s.s_http_userinfo? ==> h.user.Some? && h.user.value.End() == n)
    && (h.s.s_http_userinfo_start? ==> h.user == None)
    && (BeforeHost(h.s) <==> h.host.len == 0)
    && (InHost(h.s) ==> h.host.End() == n)
    && (h.s.s_http_host_port? <==> h.port.Some?)
    && (h.port.Some? ==> h.port.value.End() == n
                         && forall i :: h.port.value.off <= i < n ==> IsNum(buf[i]))
  }

  /** How the authority goes on: which states lead where, and that a byte of no field is a delimiter. */
  lemma HostGoesOn(s: HostState, ch: byte)
    requires !ParseHostChar(s, ch).s_http_host_dead?
    ensures
      match ParseHostChar(s, ch)
      case s_http_userinfo => s.s_http_userinfo_start? || s.s_http_userinfo?
      case s_http_host_start => Delimiter(ch) && BeforeHost(s)
      case s_http_host_v6_start => Delimiter(ch) && s.s_http_host_start?
      case s_http_host => s.s_http_host_start? || s.s_http_host?
      case s_http_host_v6 => s.s_http_host_v6_start? || s.s_http_host_v6?
      case s_http_host_v6_zone_start => s.s_http_host_v6?
      case s_http_host_v6_zone => s.s_http_host_v6_zone_start? || s.s_http_host_v6_zone?
      case s_http_host_v6_end => Delimiter(ch) && InHost(s)
      case s_http_host_port_start => Delimiter(ch) && (InHost(s) || s.s_http_host_v6_end?)
      case s_http_host_port => IsNum(ch) && (s.s_http_host_port_start? || s.s_http_host_port?)
      case _ => false
  {
    hide IsUserinfoChar, IsHostChar, IsHex, IsZoneChar;
  }

  lemma HostByteDivides(h: Authority, buf: seq<byte>, off: nat, n: nat)
    requires off <= n < |buf| && Divided(h, buf, off, n) && HostByte(h, buf[n], n).Some?
    ensures Divided(HostByte(h, buf[n], n).value, buf, off, n + 1)
  {
    hide Divided, InHost;
    var s := ParseHostChar(h.s, buf[n]);
    if s.s_http_userinfo? {
      UserDivides(h, buf, off, n);
    } else if InHost(s) {
      NameDivides(h, buf, off, n);
    } else if s.s_http_host_port? {
      PortDivides(h, buf, off, n);
    } else {
      DelimiterDivides(h, buf, off, n);
    }
  }

  lemma UserSpan(h: Authority, now: Authority)
    requires now.user.Some? && now == h.(s := now.s, user := now.user) && h.host.len == 0 && h.port == None
    ensures AuthoritySpans(now) == AuthoritySpans(h)[UserInfo := now.user.value]
    ensures UserInfo in AuthoritySpans(h) <==> h.user.Some?
    ensures h.user.Some? ==> AuthoritySpans(h)[UserInfo] == h.user.value
    ensures Host !in AuthoritySpans(h) && Port !in AuthoritySpans(h)
  {}

  lemma NameSpan(h: Authority, now: Authority)
    requires now.host.len > 0 && now == h.(s := now.s, host := now.host) && h.port == None
    ensures AuthoritySpans(now) == AuthoritySpans(h)[Host := now.host]
    ensures Host in AuthoritySpans(h) <==> h.host.len > 0
    ensures h.host.len > 0 ==> AuthoritySpans(h)[Host] == h.host
    ensures Port !in AuthoritySpans(h)
  {}

  lemma PortSpan(h: Authority, now: Authority)
    requires now.port.Some? && now == h.(s := now.s, port := now.port)
    ensures AuthoritySpans(now) == AuthoritySpans(h)[Port := now.port.value]
    ensures Port in AuthoritySpans(h) <==> h.port.Some?
    ensures h.port.Some? ==> AuthoritySpans(h)[Port] == h.port.value
  {}

  lemma UserDivides(h: Authority, buf: seq<byte>, off: nat, n: nat)
    requires off <= n < |buf| && Divided(h, buf, off, n) && ParseHostChar(h.s, buf[n]).s_http_userinfo?
    ensures Divided(HostByte(h, buf[n], n).value, buf, off, n + 1)
  {
    var now, was := HostByte(h, buf[n], n).value, AuthoritySpans(h);
    HostGoesOn(h.s, buf[n]);
    UserSpan(h, now);
    hide Laid, Delimiter, ParseHostChar, AuthoritySpans;
    if h.s.s_http_userinfo? {
      LaidLonger(was, buf, off, n, UserInfo);
    } else {
      LaidAnother(was, buf, off, n, UserInfo);
    }
  }

  /** A byte of the host makes it longer, or is its first. */
  lemma NameByte(h: Authority, ch: byte, p: nat)
    requires InHost(ParseHostChar(h.s, ch))
    ensures HostByte(h, ch, p).Some?
    ensures
      var now := HostByte(h, ch, p).value;
      && InHost(now.s) && (InHost(h.s) || h.s.s_http_host_start? || h.s.s_http_host_v6_start?)
      && now == h.(s := now.s, host := Span(if InHost(h.s) then h.host.off else p, h.host.len + 1))
  {
    HostGoesOn(h.s, ch);
    hide ParseHostChar;
  }

  lemma NameLaid(h: Authority, now: Authority, buf: seq<byte>, off: nat, n: nat)
    requires off <= n < |buf| && Laid(AuthoritySpans(h), buf, off, n) && h.port == None
    requires h.host.len > 0 ==> h.host.End() == n
    requires now == h.(s := now.s, host := Span(if h.host.len > 0 then h.host.off else n, h.host.len + 1))
    ensures Laid(AuthoritySpans(now), buf, off, n + 1)
  {
    var was := AuthoritySpans(h);
    NameSpan(h, now);
    hide Laid, Delimiter, AuthoritySpans;
    if h.host.len > 0 {
      LaidLonger(was, buf, off, n, Host);
    } else {
      LaidAnother(was, buf, off, n, Host);
    }
  }

  lemma NameDivides(h: Authority, buf: seq<byte>, off: nat, n: nat)
    requires off <= n < |buf| && Divided(h, buf, off, n) && InHost(ParseHostChar(h.s, buf[n]))
    ensures Divided(HostByte(h, buf[n], n).value, buf, off, n + 1)
  {
    NameByte(h, buf[n], n);
    hide Laid, ParseHostChar, AuthoritySpans, HostByte;
    NameLaid(h, HostByte(h, buf[n], n).value, buf, off, n);
  }

  lemma PortDivides(h: Authority, buf: seq<byte>, off: nat, n: nat)
    requires off <= n < |buf| && Divided(h, buf, off, n) && ParseHostChar(h.s, buf[n]).s_http_host_port?
    ensures Divided(HostByte(h, buf[n], n).value, buf, off, n + 1)
  {
    var now, was := HostByte(h, buf[n], n).value, AuthoritySpans(h);
    HostGoesOn(h.s, buf[n]);
    PortSpan(h, now);
    hide Laid, Delimiter, ParseHostChar, AuthoritySpans;
    if h.s.s_http_host_port? {
      LaidLonger(was, buf, off, n, Port);
    } else {
      LaidAnother(was, buf, off, n, Port);
    }
  }

  lemma DelimiterDivides(h: Authority, buf: seq<byte>, off: nat, n: nat)
    requires off <= n < |buf| && Divided(h, buf, off, n) && HostByte(h, buf[n], n).Some?
    requires
      var s := ParseHostChar(h.s, buf[n]);
      !s.s_http_userinfo? && !InHost(s) && !s.s_http_host_port?
    ensures Divided(HostByte(h, buf[n], n).value, buf, off, n + 1)
  {
    var now, was := HostByte(h, buf[n], n).value, AuthoritySpans(h);
    HostGoesOn(h.s, buf[n]);
    hide Laid, Delimiter, ParseHostChar;
    LaidDelimiter(was, buf, off, n);
    assert AuthoritySpans(now) == was;
  }

  lemma HostBegunDivides(buf: seq<byte>, off: nat, foundAt: bool)
    requires off <= |buf|
    ensures Divided(HostBegun(off, foundAt), buf, off, off)
  {}

  lemma {:induction false} HostToDivides(buf: seq<byte>, off: nat, n: nat, foundAt: bool)
    requires off <= n <= |buf| && HostTo(buf, off, n, foundAt).Some?
    ensures Divided(HostTo(buf, off, n, foundAt).value, buf, off, n)
    decreases n - off
  {
    hide Divided, HostByte, HostBegun;
    if n == off {
      HostBegunDivides(buf, off, foundAt);
    } else {
      HostToDivides(buf, off, n - 1, foundAt);
      HostByteDivides(HostTo(buf, off, n - 1, foundAt).value, buf, off, n - 1);
    }
  }

  // ---- where the port ends -------------------------------------------------------------------

  /** The host runs up to the byte read last, or a byte that is no digit follows it. */
  predicate HostStopped(c: Scan, buf: seq<byte>, n: nat)
    requires n <= |buf|
  {
    Host in c.fields ==>
      if PartOf(c.s) == Some(Host) then c.fields[Host].End() == n
      else c.fields[Host].End() < n && !IsNum(buf[c.fields[Host].End()])
  }

  lemma DigitStaysInHost(s: State, ch: byte)
    requires PartOf(s) == Some(Host) && IsNum(ch)
    ensures ParseUrlChar(s, ch).s_dead? || PartOf(ParseUrlChar(s, ch)) == Some(Host)
  {}

  lemma ScanByteStops(c: Scan, buf: seq<byte>, n: nat)
    requires n < |buf| && HostStopped(c, buf, n) && ScanByte(c, buf[n], n).Some?
    requires Scanned(ScanByte(c, buf[n], n).value, buf, n + 1)
    ensures HostStopped(ScanByte(c, buf[n], n).value, buf, n + 1)
  {
    hide ParseUrlChar, Laid, IsNum, Rank, PartRank;
    if PartOf(c.s) == Some(Host) && IsNum(buf[n]) {
      DigitStaysInHost(c.s, buf[n]);
    }
  }

  lemma {:induction false} ScanToStops(buf: seq<byte>, n: nat, isConnect: bool)
    requires n <= |buf| && ScanTo(buf, n, isConnect).Some?
    ensures HostStopped(ScanTo(buf, n, isConnect).value, buf, n)
  {
    hide ScanByte, Scanned;
    if n > 0 {
      hide HostStopped;
      ScanToStops(buf, n - 1, isConnect);
      ScanToScans(buf, n, isConnect);
      ScanByteStops(ScanTo(buf, n - 1, isConnect).value, buf, n - 1);
    }
  }

  // ---- the whole -----------------------------------------------------------------------------

  /** `strtoul` has no end to its text: where the port is the last thing in the buffer, digits behind the buffer
      are read on. */
  function ReadOn(r: Option<ParsedUrl>, buf: seq<byte>, behind: seq<byte>): Option<ParsedUrl> {
    match r
    case None => None
    case Some(u) =>
      if Port in u.fields && u.fields[Port].End() == |buf| then
        var v := Decimal(u.port, behind);
        if v > 65535 then None else Some(u.(port := v))
      else r
  }

  /** Exactly then a URL is taken as its own text says: no port ends the buffer, or no digit follows, or the port is
      0 and so is what follows. */
  lemma ReadOnIsSame(buf: seq<byte>, behind: seq<byte>, isConnect: bool)
    requires ParseUrl(buf, isConnect).Some?
    ensures
      var u := ParseUrl(buf, isConnect).value;
      ReadOn(Some(u), buf, behind) == Some(u)
      <==> Port !in u.fields || u.fields[Port].End() < |buf| || behind == [] || !IsNum(behind[0])
           || (u.port == 0 && Decimal(0, behind) == 0)
  {
    hide Decimal, Laid, ParseUrl, IsNum;
    var u := ParseUrl(buf, isConnect).value;
    FieldsAreLaid(buf, isConnect);
    DecimalGrows(u.port, behind);
    if Port in u.fields {
      PartInside(u.fields, buf, Port);
    }
  }

  lemma PartInside(fields: Spans, buf: seq<byte>, f: Part)
    requires Laid(fields, buf, 0, |buf|) && f in fields
    ensures fields[f].End() <= |buf|
  {}

  /** What `http_parser_parse_url` promises of a URL it accepts. */
  ghost predicate Decomposed(u: ParsedUrl, buf: seq<byte>, behind: seq<byte>, isConnect: bool) {
    && Laid(u.fields, buf, 0, |buf|)
    && (Schema in u.fields || UserInfo in u.fields || Port in u.fields ==> Host in u.fields)
    && (if Port in u.fields then
          var x := u.fields[Port];
          && DigitsAt(buf, x)
          && u.port == Decimal(0, buf[x.off..x.End()] + if x.End() == |buf| then behind else []) <= 65535
        else u.port == 0)
    && (isConnect ==> u.fields.Keys == {Host, Port})
  }

  /** Dividing the authority in its place keeps the fields laid out. */
  lemma AuthorityInPlace(fields: Spans, inner: Spans, buf: seq<byte>)
    requires Laid(fields, buf, 0, |buf|) && Host in fields && UserInfo !in fields && Port !in fields
    requires Laid(inner, buf, fields[Host].off, fields[Host].End()) && forall f :: f in inner ==> OfAuthority(f)
    ensures Laid((fields - {Host}) + inner, buf, 0, |buf|)
  {
    hide Order;
    var now := (fields - {Host}) + inner;
    forall f, g | f in now && g in now && Order(f) < Order(g)
      ensures now[f].End() <= now[g].off
    {
      OuterOrder(f, g);
    }
    forall i | 0 <= i < |buf|
      ensures Covered(now, i) || Delimiter(buf[i])
    {
      CoveredInPlace(fields, inner, buf, i);
    }
  }

  lemma CoveredInPlace(fields: Spans, inner: Spans, buf: seq<byte>, i: nat)
    requires i < |buf| && Laid(fields, buf, 0, |buf|) && Host in fields && UserInfo !in fields && Port !in fields
    requires Laid(inner, buf, fields[Host].off, fields[Host].End()) && forall f :: f in inner ==> OfAuthority(f)
    ensures Covered((fields - {Host}) + inner, i) || Delimiter(buf[i])
  {
    hide Order, Delimiter;
    var now := (fields - {Host}) + inner;
    if Within(fields[Host], i) {
      if Covered(inner, i) {
        var g :| g in inner && Within(inner[g], i);
        assert g in now && Within(now[g], i);
      }
    } else if Covered(fields, i) {
      var g :| g in fields && Within(fields[g], i);
      assert g in now && Within(now[g], i);
    }
  }

  predicate OfAuthority(f: Part) {
    f.UserInfo? || f.Host? || f.Port?
  }

  lemma OuterOrder(f: Part, g: Part)
    requires Order(f) < Order(g)
    ensures OfAuthority(f) && !OfAuthority(g) ==> Order(Host) < Order(g)
    ensures !OfAuthority(f) && OfAuthority(g) ==> Order(f) < Order(Host)
  {}

  /** A URL that is accepted is decomposed: its fields lie inside it, in order, disjoint and not empty, with
      nothing but delimiters around them; the port is the value of its digits, those behind the buffer included. */
  lemma AcceptedIsDecomposed(buf: seq<byte>, behind: seq<byte>, isConnect: bool)
    requires ReadOn(ParseUrl(buf, isConnect), buf, behind).Some?
    ensures Decomposed(ReadOn(ParseUrl(buf, isConnect), buf, behind).value, buf, behind, isConnect)
  {
    hide Laid, Decimal, AuthoritySpans;
    FieldsAreLaid(buf, isConnect);
    var u := ParseUrl(buf, isConnect).value;
    if Port in u.fields {
      PartInside(u.fields, buf, Port);
      var digits := buf[u.fields[Port].off..u.fields[Port].End()];
      DecimalConcat(0, digits, behind);
      assert digits + [] == digits;
    }
  }

  lemma FieldsAreLaid(buf: seq<byte>, isConnect: bool)
    requires ParseUrl(buf, isConnect).Some?
    ensures
      var u := ParseUrl(buf, isConnect).value;
      && Laid(u.fields, buf, 0, |buf|)
      && (Schema in u.fields || UserInfo in u.fields || Port in u.fields ==> Host in u.fields)
      && (if Port in u.fields then
            var x := u.fields[Port];
            x.End() <= |buf| && DigitsAt(buf, x) && u.port == Decimal(0, buf[x.off..x.End()]) <= 65535
          else u.port == 0)
      && (isConnect ==> u.fields.Keys == {Host, Port})
  {
    hide Laid, Decimal, AuthoritySpans;
    ScanToScans(buf, |buf|, isConnect);
    InBuffer(buf, isConnect);
    var c := ScanTo(buf, |buf|, isConnect).value;
    if Host in c.fields {
      var x := c.fields[Host];
      HostToDivides(buf, x.off, x.End(), c.foundAt);
      var h := HostTo(buf, x.off, x.End(), c.foundAt).value;
      AuthorityInPlace(c.fields, AuthoritySpans(h), buf);
      AuthorityKeys(h);
    }
  }

  lemma AuthorityKeys(h: Authority)
    ensures Port in AuthoritySpans(h) <==> h.port.Some?
    ensures h.port.Some? ==> AuthoritySpans(h)[Port] == h.port.value
    ensures Host in AuthoritySpans(h) <==> h.host.len > 0
  {}

  // ---- the structure with its sixteen bits -----------------------------------------------------

  /** Offsets and lengths are kept in sixteen bits. */
  const FIELD_RANGE: nat := 0x10000

  function Narrow(x: Span): Span {
    Span(x.off % FIELD_RANGE, x.len % FIELD_RANGE)
  }

  function Narrowed(fields: Spans): Spans {
    map f | f in fields :: Narrow(fields[f])
  }

  function NarrowedHost(h: Authority): Authority {
    h.(user := NarrowIf(h.user), host := Narrow(h.host), port := NarrowIf(h.port))
  }

  function NarrowIf(x: Option<Span>): Option<Span> {
    if x.Some? then Some(Narrow(x.value)) else None
  }

  lemma NarrowedUpdate(fields: Spans, f: Part, x: Span)
    ensures Narrowed(fields[f := x]) == Narrowed(fields)[f := Narrow(x)]
  {}

  lemma NarrowLonger(x: Span)
    ensures Narrow(Longer(Narrow(x))) == Narrow(Longer(x))
  {}

  /** The authority is divided alike on narrow fields. */
  lemma NarrowedByte(h: Authority, ch: byte, p: nat)
    ensures
      match HostByte(h, ch, p)
      case None => HostByte(NarrowedHost(h), ch, p) == None
      case Some(next) =>
        && HostByte(NarrowedHost(h), ch, p).Some?
        && NarrowedHost(HostByte(NarrowedHost(h), ch, p).value) == NarrowedHost(next)
  {
    hide ParseHostChar, Narrow, NarrowIf, Grown;
    NarrowTwice(Some(h.host));
    NarrowTwice(h.port);
    NarrowTwice(h.user);
    NarrowLonger(h.host);
    NarrowRestarts(h.host, p);
    NarrowGrown(h.port, h.s.s_http_host_port?, p);
    NarrowGrown(h.user, h.s.s_http_userinfo?, p);
  }

  lemma NarrowTwice(x: Option<Span>)
    ensures NarrowIf(NarrowIf(x)) == NarrowIf(x)
    ensures x.Some? ==> Narrow(Narrow(x.value)) == Narrow(x.value)
  {}

  lemma NarrowRestarts(x: Span, p: nat)
    ensures Narrow(Span(p, Narrow(x).len + 1)) == Narrow(Span(p, x.len + 1))
    ensures Narrow(Span(Narrow(x).off, Narrow(x).len + 1)) == Narrow(Span(x.off, x.len + 1))
  {}

  lemma NarrowGrown(x: Option<Span>, inside: bool, p: nat)
    ensures NarrowIf(Grown(NarrowIf(x), inside, p)) == NarrowIf(Grown(x, inside, p))
  {
    hide Narrow;
    if x.Some? {
      NarrowLonger(x.value);
    }
  }

  lemma NarrowedPort(h: Authority)
    ensures NarrowedHost(h).port.Some? ==> h.port.Some? && NarrowedHost(h).port.value.off <= h.port.value.off
  {}

  lemma NarrowInside(x: Span)
    ensures Narrow(x).End() <= x.End()
  {}

  /** A field keeps its place exactly if that fits in sixteen bits. */
  lemma NarrowIffFits(x: Span)
    ensures Narrow(x) == x <==> x.off < FIELD_RANGE && x.len < FIELD_RANGE
  {}

  /** Sixteen bits are enough for a buffer of at most 65535 bytes. */
  lemma NarrowIsSame(fields: Spans, n: nat)
    requires n < FIELD_RANGE && forall f :: f in fields ==> fields[f].End() <= n
    ensures Narrowed(fields) == fields
  {
    hide Narrow;
    forall f | f in fields
      ensures Narrow(fields[f]) == fields[f]
    {
      NarrowIffFits(fields[f]);
    }
  }

  lemma NarrowedHostIsSame(h: Authority, buf: seq<byte>, off: nat, n: nat)
    requires off <= n <= |buf| < FIELD_RANGE && Divided(h, buf, off, n) && MayEnd(h.s)
    ensures NarrowedHost(h) == h
  {
    hide Laid, Narrow, DigitsAt;
    var spans := AuthoritySpans(h);
    InsideOf(spans, buf, off, n);
    assert h.user.Some? ==> UserInfo in spans && spans[UserInfo] == h.user.value;
    assert Host in spans && spans[Host] == h.host;
    assert h.port.Some? ==> Port in spans && spans[Port] == h.port.value;
    NarrowIffFits(h.host);
    if h.user.Some? {
      NarrowIffFits(h.user.value);
    }
    if h.port.Some? {
      NarrowIffFits(h.port.value);
    }
  }

  lemma InsideOf(spans: Spans, buf: seq<byte>, a: nat, n: nat)
    requires n <= |buf| && Laid(spans, buf, a, n)
    ensures forall f :: f in spans ==> spans[f].End() <= n
  {}

  // ---- strtoul ---------------------------------------------------------------------------------

  /** `unsigned long` has 32 bits. */
  const ULONG_MAX: nat := 0xFFFF_FFFF

  predicate IsBlank(ch: byte) {
    ch == SPACE || 9 <= ch <= 13
  }

  function PastBlanks(text: seq<byte>): seq<byte> {
    if text != [] && IsBlank(text[0]) then PastBlanks(text[1..]) else text
  }

  /** `strtoul` to base 10. */
  function Strtoul(text: seq<byte>): nat {
    var t := PastBlanks(text);
    var signed := t != [] && (t[0] == '-' as int || t[0] == '+' as int);
    var v := Decimal(0, if signed then t[1..] else t);
    if v > ULONG_MAX then ULONG_MAX
    else if signed && t[0] == '-' as int && v > 0 then ULONG_MAX + 1 - v
    else v
  }

  lemma StrtoulOfDigits(text: seq<byte>)
    requires text != [] && IsNum(text[0])
    ensures Strtoul(text) == if Decimal(0, text) > ULONG_MAX then ULONG_MAX else Decimal(0, text)
  {}

  /** What is read where the port starts. */
  lemma PortReads(buf: seq<byte>, behind: seq<byte>, x: Span)
    requires 0 < x.len && x.End() <= |buf| && DigitsAt(buf, x) && (x.End() < |buf| ==> !IsNum(buf[x.End()]))
    ensures
      var text := buf[x.off..] + behind;
      var v := Decimal(0, buf[x.off..x.End()]);
      && text != [] && IsNum(text[0])
      && Decimal(0, text) == if x.End() == |buf| then Decimal(v, behind) else v
  {
    hide IsNum;
    var digits, rest := buf[x.off..x.End()], buf[x.End()..] + behind;
    assert buf[x.off..] + behind == digits + rest;
    assert (digits + rest)[0] == buf[x.off];
    DecimalConcat(0, digits, rest);
    if x.End() == |buf| {
      assert rest == behind;
    } else {
      assert rest[0] == buf[x.End()];
    }
  }

  /** The last checks on what is read: those of the URL itself, with the digits behind it. */
  lemma FinishedReads(buf: seq<byte>, behind: seq<byte>, fields: Spans, port: Option<Span>, isConnect: bool)
    requires port.Some? <==> Port in fields
    requires port.Some? ==>
      var x := port.value;
      && fields[Port] == x && 0 < x.len && x.End() <= |buf| && DigitsAt(buf, x)
      && (x.End() < |buf| ==> !IsNum(buf[x.End()]))
    ensures
      var v := if port.Some? then Strtoul(buf[port.value.off..] + behind) else 0;
      ReadOn(Finished(buf, fields, port, isConnect), buf, behind)
      == if (isConnect && fields.Keys != {Host, Port}) || v > 65535 then None else Some(ParsedUrl(fields, v))
  {
    hide Decimal, Strtoul, IsNum, DigitsAt;
    if port.Some? {
      var x := port.value;
      PortReads(buf, behind, x);
      StrtoulOfDigits(buf[x.off..] + behind);
      DecimalGrows(Decimal(0, buf[x.off..x.End()]), behind);
    }
  }

  /** What the first pass leaves behind lies in the buffer. */
  lemma ScannedInside(buf: seq<byte>, isConnect: bool)
    requires ScanTo(buf, |buf|, isConnect).Some?
    ensures
      var c := ScanTo(buf, |buf|, isConnect).value;
      && Port !in c.fields && (Host in c.fields ==> Narrow(c.fields[Host]).End() <= c.fields[Host].End() <= |buf|)
      && (|buf| < FIELD_RANGE ==> Narrowed(c.fields) == c.fields)
  {
    hide Narrow, ScanTo, Covered, Delimiter, Order;
    ScanToScans(buf, |buf|, isConnect);
    var c := ScanTo(buf, |buf|, isConnect).value;
    if Host in c.fields {
      NarrowInside(c.fields[Host]);
    }
    assert forall f :: f in c.fields ==> FirstPassPart(f) && c.fields[f].End() <= |buf|;
    if |buf| < FIELD_RANGE {
      NarrowIsSame(c.fields, |buf|);
    }
  }

  /** Where the port stands once the authority is divided. */
  lemma PortPlace(buf: seq<byte>, isConnect: bool, h: Authority)
    requires ScanTo(buf, |buf|, isConnect).Some? && Host in ScanTo(buf, |buf|, isConnect).value.fields
    requires
      var c := ScanTo(buf, |buf|, isConnect).value;
      var x := c.fields[Host];
      x.End() <= |buf| && HostTo(buf, x.off, x.End(), c.foundAt) == Some(h) && MayEnd(h.s)
    ensures |buf| < FIELD_RANGE ==> NarrowedHost(h) == h
    ensures h.port.Some? ==>
      var y := h.port.value;
      0 < y.len && y.End() <= |buf| && DigitsAt(buf, y) && (y.End() < |buf| ==> !IsNum(buf[y.End()]))
  {
    hide ScanTo, HostTo, IsNum, HostByte;
    var c := ScanTo(buf, |buf|, isConnect).value;
    var x := c.fields[Host];
    ScanToStops(buf, |buf|, isConnect);
    HostToDivides(buf, x.off, x.End(), c.foundAt);
    if |buf| < FIELD_RANGE {
      NarrowedHostIsSame(h, buf, x.off, x.End());
    }
    if h.port.Some? {
      assert Port in AuthoritySpans(h) && AuthoritySpans(h)[Port] == h.port.value;
    }
  }

  /** The structure the caller passes in. */
  class UrlInfo {
    var fields: Spans
    var port: nat

    constructor ()
      ensures fields == map[] && port == 0
    {
      fields, port := map[], 0;
    }

    /** Fills the structure from the first bytes of a text that goes on with `behind`. What it holds after a failure
        means nothing. */
    method Parse(buf: seq<byte>, behind: seq<byte>, isConnect: bool) returns (failed: bool)
      modifies this
      ensures |buf| < FIELD_RANGE ==>
        var r := ReadOn(ParseUrl(buf, isConnect), buf, behind);
        && failed == r.None?
        && (!failed ==> ParsedUrl(fields, port) == r.value && Decomposed(r.value, buf, behind, isConnect))
    {
      hide Decomposed, ScanByte, ParseUrlChar, Decimal, AuthoritySpans, Scanned, Divided, HostTo, ScanTo, DigitsAt;
      hide NarrowedHost, Laid, Strtoul, HostStopped, Finished;
      fields, port := map[], 0;
      var ok, foundAt := FindFields(buf, isConnect);
      if !ok {
        return true;
      }
      if Schema in fields && Host !in fields {
        return true;
      }
      ghost var c := ScanTo(buf, |buf|, isConnect).value;
      ghost var port: Option<Span> := None;
      ScannedInside(buf, isConnect);
      if Host in fields {
        ok := DivideHost(buf, foundAt);
        if !ok {
          return true;
        }
        if |buf| < FIELD_RANGE {
          ghost var h := HostTo(buf, c.fields[Host].off, c.fields[Host].End(), foundAt).value;
          PortPlace(buf, isConnect, h);
          AuthorityKeys(h);
          port := h.port;
        }
      }
      failed := Finish(buf, behind, isConnect);
      if |buf| < FIELD_RANGE {
        FinishedReads(buf, behind, fields, port, isConnect);
        if !failed {
          AcceptedIsDecomposed(buf, behind, isConnect);
        }
      }
    }

    /** The checks at the end, and the port. */
    method Finish(buf: seq<byte>, behind: seq<byte>, isConnect: bool) returns (failed: bool)
      requires port == 0 && (Port in fields ==> fields[Port].off <= |buf|)
      modifies `port
      ensures
        var v := if Port in fields then Strtoul(buf[fields[Port].off..] + behind) else 0;
        && failed == ((isConnect && fields.Keys != {Host, Port}) || v > 65535)
        && (!failed ==> port == v)
    {
      if isConnect && fields.Keys != {Host, Port} {
        return true;
      }
      if Port in fields {
        var v := Strtoul(buf[fields[Port].off..] + behind);
        if v > 65535 {
          return true;
        }
        port := v;
      }
      failed := false;
    }

    /** The first loop. */
    method FindFields(buf: seq<byte>, isConnect: bool) returns (ok: bool, foundAt: bool)
      requires fields == map[]
      modifies `fields
      ensures match ScanTo(buf, |buf|, isConnect)
              case None => !ok
              case Some(c) => ok && fields == Narrowed(c.fields) && foundAt == c.foundAt
    {
      hide ParseUrlChar;
      var s := if isConnect then s_req_server_start else s_req_spaces_before_url;
      var oldUf: Option<Part> := None;
      ok, foundAt := true, false;
      ghost var wide: Spans := map[];
      for p := 0 to |buf|
        invariant ok && ScanTo(buf, p, isConnect) == Some(Scan(s, oldUf, wide, foundAt)) && fields == Narrowed(wide)
      {
        s := ParseUrlChar(s, buf[p]);
        if s.s_dead? {
          ScanStops(buf, p + 1, isConnect);
          return false, foundAt;
        }
        var uf := PartOf(s);
        if uf == None {
          continue;
        }
        if s.s_req_server_with_at? {
          foundAt := true;
        }
        if uf == oldUf && uf.value in fields {
          NarrowLonger(wide[uf.value]);
          NarrowedUpdate(wide, uf.value, Longer(wide[uf.value]));
          wide := wide[uf.value := Longer(wide[uf.value])];
          fields := fields[uf.value := Narrow(Longer(fields[uf.value]))];
          continue;
        }
        NarrowedUpdate(wide, uf.value, Span(p, 1));
        wide := wide[uf.value := Span(p, 1)];
        fields := fields[uf.value := Narrow(Span(p, 1))];
        oldUf := uf;
      }
    }

    /** The loop over the authority. */
    method DivideHost(buf: seq<byte>, foundAt: bool) returns (ok: bool)
      requires Host in fields && fields[Host].End() <= |buf| && Port !in fields
      modifies `fields
      ensures ok && Port in fields ==> fields[Port].off <= |buf|
      ensures match HostTo(buf, old(fields)[Host].off, old(fields)[Host].End(), foundAt)
              case None => !ok
              case Some(h) =>
                && ok == MayEnd(h.s)
                && (ok ==> fields == (old(fields) - {Host}) + AuthoritySpans(NarrowedHost(h)))
    {
      hide Laid, Decimal, AuthoritySpans, HostByte, ParseHostChar, Narrow;
      var off, end := fields[Host].off, fields[Host].End();
      var h := NarrowedHost(HostBegun(off, foundAt));
      ghost var wide := HostBegun(off, foundAt);
      for p := off to end
        invariant HostTo(buf, off, p, foundAt) == Some(wide) && h == NarrowedHost(wide) && fields == old(fields)
      {
        NarrowedByte(wide, buf[p], p);
        var next := HostByte(h, buf[p], p);
        if next == None {
          HostStops(buf, off, p + 1, end, foundAt);
          return false;
        }
        wide := HostByte(wide, buf[p], p).value;
        h := NarrowedHost(next.value);
      }
      if !MayEnd(h.s) {
        return false;
      }
      HostToDivides(buf, off, end, foundAt);
      AuthorityKeys(h);
      NarrowedPort(wide);
      fields := (fields - {Host}) + AuthoritySpans(h);
      ok := true;
    }
  }

  lemma {:induction false} SlashesScanned(buf: seq<byte>, n: nat)
    requires 0 < n <= |buf| && forall i :: 0 <= i < |buf| ==> buf[i] == '/' as int
    ensures ScanTo(buf, n, false) == Some(Scan(s_req_path, Some(Path), map[Path := Span(0, n)], false))
  {
    if n > 1 {
      SlashesScanned(buf, n - 1);
      assert map[Path := Span(0, n - 1)][Path := Span(0, n)] == map[Path := Span(0, n)];
    } else {
      assert ScanTo(buf, 0, false) == Some(Begun(false));
    }
  }

  /** A path of 65536 bytes is accepted and kept as an empty one. */
  lemma LongPathIsLost()
    ensures
      var buf := seq(FIELD_RANGE, i => '/' as int);
      && ParseUrl(buf, false) == Some(ParsedUrl(map[Path := Span(0, FIELD_RANGE)], 0))
      && Narrowed(ParseUrl(buf, false).value.fields) == map[Path := Span(0, 0)]
  {
    hide ScanTo;
    SlashesScanned(seq(FIELD_RANGE, i => '/' as int), FIELD_RANGE);
    NarrowedUpdate(map[], Path, Span(0, FIELD_RANGE));
  }

  lemma InBuffer(buf: seq<byte>, isConnect: bool)
    requires ScanTo(buf, |buf|, isConnect).Some?
    ensures
      var c := ScanTo(buf, |buf|, isConnect).value;
      Host in c.fields ==> c.fields[Host].End() <= |buf|
  {
    ScanToScans(buf, |buf|, isConnect);
  }

  lemma {:induction false} ScanStops(buf: seq<byte>, p: nat, isConnect: bool)
    requires p <= |buf| && ScanTo(buf, p, isConnect) == None
    ensures ScanTo(buf, |buf|, isConnect) == None
    decreases |buf| - p
  {
    if p < |buf| {
      ScanStops(buf, p + 1, isConnect);
    }
  }

  lemma {:induction false} HostStops(buf: seq<byte>, off: nat, p: nat, end: nat, foundAt: bool)
    requires off <= p <= end <= |buf| && HostTo(buf, off, p, foundAt) == None
    ensures HostTo(buf, off, end, foundAt) == None
    decreases end - p
  {
    if p < end {
      HostStops(buf, off, p + 1, end, foundAt);
    }
  }
}
