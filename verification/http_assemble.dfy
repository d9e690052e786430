/** Putting a URL together from its parts and taking it apart again. */
module HttpAssemble {
  import opened HttpLog
  import opened HttpNumber
  import opened HttpStep
  import opened HttpUrl
  import opened Options

  /** A host: a name or an IPv4 address, or an IPv6 address, written in brackets, with its zone if it has one. */
  datatype HostName = Name(name: seq<byte>) | Literal(address: seq<byte>, zone: Option<seq<byte>>)
  {
    /** What the host's field holds. */
    function Text(): seq<byte> {
      match this
      case Name(name) => name
      case Literal(address, zone) => address + if zone.Some? then ['%' as int] + zone.value else []
    }

    /** What stands in a URL. */
    function Written(): seq<byte> {
      if Name? then name else ['[' as int] + Text() + [']' as int]
    }

    /** How much of that stands before the field. */
    function Bracket(): nat {
      if Name? then 0 else 1
    }

    predicate Legal() {
      match this
      case Name(name) => |name| > 0 && All(name, IsHostChar)
      case Literal(address, zone) =>
        |address| > 0 && All(address, IsAddressChar) && (zone.Some? ==> |zone.value| > 0 && All(zone.value, IsZoneChar))
    }
  }

  datatype Pieces = Pieces(schema: seq<byte>, user: Option<seq<byte>>, host: HostName, port: Option<seq<byte>>,
                           path: seq<byte>, query: Option<seq<byte>>, fragment: Option<seq<byte>>)

  predicate IsAddressChar(ch: byte) {
    IsHex(ch) || ch == ':' as int || ch == '.' as int
  }

  predicate IsAuthorityChar(ch: byte) {
    IsUserinfoChar(ch) || ch == '[' as int || ch == ']' as int
  }

  predicate All(s: seq<byte>, p: byte -> bool) {
    forall i :: 0 <= i < |s| ==> p(s[i])
  }

  predicate QueryChar(ch: byte) {
    IsUrlChar(ch) || ch == '?' as int
  }

  predicate FragmentChar(ch: byte) {
    IsUrlChar(ch) || ch == '?' as int || ch == '#' as int
  }

  /** Parts that are legal where they stand, and not empty if they are there. */
  predicate Legal(p: Pieces) {
    && |p.schema| > 0 && All(p.schema, IsAlpha)
    && (p.user.Some? ==> |p.user.value| > 0 && All(p.user.value, IsUserinfoChar))
    && p.host.Legal()
    && (p.port.Some? ==> |p.port.value| > 0 && All(p.port.value, IsNum) && Decimal(0, p.port.value) <= 65535)
    && (|p.path| > 0 ==> p.path[0] == '/' as int && All(p.path, IsUrlChar))
    && (p.query.Some? ==> |p.query.value| > 0 && All(p.query.value, QueryChar))
    && (p.fragment.Some? ==>
          |p.fragment.value| > 0 && All(p.fragment.value, FragmentChar) && p.fragment.value[0] != '#' as int)
  }

  function UserText(p: Pieces): seq<byte> {
    if p.user.Some? then p.user.value + ['@' as int] else []
  }

  function PortText(p: Pieces): seq<byte> {
    if p.port.Some? then [':' as int] + p.port.value else []
  }

  function QueryText(p: Pieces): seq<byte> {
    if p.query.Some? then ['?' as int] + p.query.value else []
  }

  function FragmentText(p: Pieces): seq<byte> {
    if p.fragment.Some? then ['#' as int] + p.fragment.value else []
  }

  function AuthorityText(p: Pieces): seq<byte> {
    UserText(p) + p.host.Written() + PortText(p)
  }

  /** schema://user@host:port/path?query#fragment */
  function Assembled(p: Pieces): seq<byte> {
    p.schema + [':' as int, '/' as int, '/' as int] + AuthorityText(p) + p.path + QueryText(p) + FragmentText(p)
  }

  // ---- runs of the first pass ----------------------------------------------------------------

  ghost predicate At(buf: seq<byte>, n: nat, c: Scan) {
    n <= |buf| && ScanTo(buf, n, false) == Some(c)
  }

  lemma OneByte(buf: seq<byte>, n: nat, c: Scan)
    requires At(buf, n, c) && n < |buf|
    ensures ScanTo(buf, n + 1, false) == ScanByte(c, buf[n], n)
  {
    hide ScanByte;
  }

  /** A delimiter. */
  lemma Passes(buf: seq<byte>, n: nat, c: Scan, s: State)
    requires At(buf, n, c) && n < |buf| && ParseUrlChar(c.s, buf[n]) == s && !s.s_dead? && PartOf(s) == None
    ensures At(buf, n + 1, c.(s := s))
  {
    hide ParseUrlChar;
    OneByte(buf, n, c);
  }

  /** The field goes on. */
  lemma GoesOn(buf: seq<byte>, n: nat, c: Scan, s: State, f: Part)
    requires At(buf, n, c) && n < |buf| && ParseUrlChar(c.s, buf[n]) == s && PartOf(s) == Some(f)
    requires c.last == Some(f) && f in c.fields
    ensures At(buf, n + 1, Scan(s, c.last, c.fields[f := Longer(c.fields[f])], c.foundAt || s.s_req_server_with_at?))
  {
    hide ParseUrlChar;
    OneByte(buf, n, c);
  }

  /** A field starts. */
  lemma Starts(buf: seq<byte>, n: nat, c: Scan, s: State, f: Part)
    requires At(buf, n, c) && n < |buf| && ParseUrlChar(c.s, buf[n]) == s && PartOf(s) == Some(f)
    requires c.last != Some(f) && !s.s_req_server_with_at?
    ensures At(buf, n + 1, Scan(s, Some(f), c.fields[f := Span(n, 1)], c.foundAt))
  {
    hide ParseUrlChar;
    OneByte(buf, n, c);
  }

  /** Characters that stay in a field's state make it longer by as many. */
  lemma {:induction false} Stays(buf: seq<byte>, n: nat, k: nat, c: Scan, f: Part)
    requires At(buf, n, c) && n + k <= |buf| && PartOf(c.s) == Some(f) && !c.s.s_req_server_with_at?
    requires c.last == Some(f) && f in c.fields
    requires forall i :: n <= i < n + k ==> ParseUrlChar(c.s, buf[i]) == c.s
    ensures At(buf, n + k, c.(fields := c.fields[f := Span(c.fields[f].off, c.fields[f].len + k)]))
    decreases k
  {
    hide ParseUrlChar, At;
    if k == 0 {
      assert c.fields[f := Span(c.fields[f].off, c.fields[f].len)] == c.fields;
    } else {
      GoesOn(buf, n, c, c.s, f);
      var d := c.(fields := c.fields[f := Longer(c.fields[f])]);
      Stays(buf, n + 1, k - 1, d, f);
      assert d.fields[f := Span(d.fields[f].off, d.fields[f].len + (k - 1))]
        == c.fields[f := Span(c.fields[f].off, c.fields[f].len + k)];
    }
  }

  /** A whole field: one character that starts it and others that stay. */
  lemma WholeField(buf: seq<byte>, n: nat, k: nat, c: Scan, s: State, f: Part)
    requires At(buf, n, c) && 0 < k && n + k <= |buf| && ParseUrlChar(c.s, buf[n]) == s
    requires PartOf(s) == Some(f) && !s.s_req_server_with_at? && c.last != Some(f)
    requires forall i :: n < i < n + k ==> ParseUrlChar(s, buf[i]) == s
    ensures At(buf, n + k, Scan(s, Some(f), c.fields[f := Span(n, k)], c.foundAt))
  {
    hide ParseUrlChar, At;
    Starts(buf, n, c, s, f);
    var d := Scan(s, Some(f), c.fields[f := Span(n, 1)], c.foundAt);
    Stays(buf, n + 1, k - 1, d, f);
    assert d.fields[f := Span(n, 1 + (k - 1))] == c.fields[f := Span(n, k)];
  }

  predicate Stands(buf: seq<byte>, n: nat, t: seq<byte>) {
    n + |t| <= |buf| && buf[n..n + |t|] == t
  }

  lemma StandsWith(buf: seq<byte>, n: nat, t: seq<byte>, i: nat)
    requires Stands(buf, n, t) && i < |t|
    ensures buf[n + i] == t[i]
  {
    assert buf[n..n + |t|][i] == t[i];
  }

  lemma StandsBoth(buf: seq<byte>, n: nat, t: seq<byte>, u: seq<byte>)
    requires Stands(buf, n, t + u)
    ensures Stands(buf, n, t) && Stands(buf, n + |t|, u)
  {
    var tu := t + u;
    assert buf[n..n + |t|] == buf[n..n + |tu|][..|t|] == tu[..|t|] == t;
    assert buf[n + |t|..n + |tu|] == buf[n..n + |tu|][|t|..] == tu[|t|..] == u;
  }

  lemma SchemaRuns(buf: seq<byte>, schema: seq<byte>)
    requires |schema| > 0 && All(schema, IsAlpha) && Stands(buf, 0, schema)
    requires Stands(buf, |schema|, [':' as int, '/' as int, '/' as int])
    ensures At(buf, |schema| + 3, Scan(s_req_server_start, Some(Schema), map[Schema := Span(0, |schema|)], false))
  {
    hide ParseUrlChar, At, IsAlpha, Stands;
    var n := |schema|;
    Fits(buf, 0, schema);
    forall i | 0 <= i < n
      ensures ParseUrlChar(s_req_schema, buf[i]) == s_req_schema
      ensures ParseUrlChar(s_req_spaces_before_url, buf[i]) == s_req_schema
    {
      StandsWith(buf, 0, schema, i);
      AlphaStays(buf[i]);
    }
    AtStart(buf);
    WholeField(buf, 0, n, Begun(false), s_req_schema, Schema);
    var c := Scan(s_req_schema, Some(Schema), map[Schema := Span(0, n)], false);
    assert Begun(false).fields[Schema := Span(0, n)] == c.fields;
    SchemaEnds(buf, n, c);
  }

  lemma Fits(buf: seq<byte>, n: nat, t: seq<byte>)
    requires Stands(buf, n, t)
    ensures n + |t| <= |buf|
  {}

  lemma SchemaEnds(buf: seq<byte>, n: nat, c: Scan)
    requires At(buf, n, c) && c.s == s_req_schema && Stands(buf, n, [':' as int, '/' as int, '/' as int])
    ensures At(buf, n + 3, c.(s := s_req_server_start))
  {
    hide ParseUrlChar, At;
    SchemaDelimiters();
    var t := [':' as int, '/' as int, '/' as int];
    StandsWith(buf, n, t, 0);
    StandsWith(buf, n, t, 1);
    StandsWith(buf, n, t, 2);
    Passes(buf, n, c, s_req_schema_slash);
    Passes(buf, n + 1, c.(s := s_req_schema_slash), s_req_schema_slash_slash);
    Passes(buf, n + 2, c.(s := s_req_schema_slash_slash), s_req_server_start);
  }

  lemma AtStart(buf: seq<byte>)
    ensures At(buf, 0, Begun(false))
  {}

  lemma AlphaStays(ch: byte)
    requires IsAlpha(ch)
    ensures ParseUrlChar(s_req_schema, ch) == s_req_schema
    ensures ParseUrlChar(s_req_spaces_before_url, ch) == s_req_schema
  {}

  lemma SchemaDelimiters()
    ensures ParseUrlChar(s_req_schema, ':' as int) == s_req_schema_slash
    ensures ParseUrlChar(s_req_schema_slash, '/' as int) == s_req_schema_slash_slash
    ensures ParseUrlChar(s_req_schema_slash_slash, '/' as int) == s_req_server_start
  {}

  // ---- the authority in the first pass -------------------------------------------------------

  lemma ServerStays(s: State, ch: byte)
    requires IsAuthorityChar(ch) && (s.s_req_server_start? || s.s_req_server? || s.s_req_server_with_at?)
    ensures ParseUrlChar(s, ch) == s_req_server
  {}

  lemma AtSign(s: State)
    requires s.s_req_server_start? || s.s_req_server?
    ensures ParseUrlChar(s, '@' as int) == s_req_server_with_at
  {}

  lemma ServerBytes(buf: seq<byte>, n: nat, t: seq<byte>)
    requires Stands(buf, n, t) && All(t, IsAuthorityChar)
    ensures n + |t| <= |buf|
    ensures forall i :: n <= i < n + |t| ==> ParseUrlChar(s_req_server, buf[i]) == s_req_server
    ensures forall i :: n <= i < n + |t| ==> ParseUrlChar(s_req_server_start, buf[i]) == s_req_server
    ensures forall i :: n <= i < n + |t| ==> ParseUrlChar(s_req_server_with_at, buf[i]) == s_req_server
  {
    hide ParseUrlChar, Stands, IsAuthorityChar;
    Fits(buf, n, t);
    forall i | n <= i < n + |t|
      ensures ParseUrlChar(s_req_server, buf[i]) == s_req_server
      ensures ParseUrlChar(s_req_server_start, buf[i]) == s_req_server
      ensures ParseUrlChar(s_req_server_with_at, buf[i]) == s_req_server
    {
      StandsWith(buf, n, t, i - n);
      ServerStays(s_req_server, buf[i]);
      ServerStays(s_req_server_start, buf[i]);
      ServerStays(s_req_server_with_at, buf[i]);
    }
  }

  /** A run of authority characters, from where the authority starts or goes on. */
  lemma ServerRun(buf: seq<byte>, n: nat, t: seq<byte>, c: Scan)
    requires At(buf, n, c) && Stands(buf, n, t) && All(t, IsAuthorityChar) && |t| > 0
    requires c.s.s_req_server_start? && c.last != Some(Host)
    ensures At(buf, n + |t|, Scan(s_req_server, Some(Host), c.fields[Host := Span(n, |t|)], c.foundAt))
  {
    hide ParseUrlChar, At, Stands, IsAuthorityChar;
    ServerBytes(buf, n, t);
    WholeField(buf, n, |t|, c, s_req_server, Host);
  }

  /** The part of an authority after its user. */
  lemma ServerAfterAt(buf: seq<byte>, n: nat, t: seq<byte>, c: Scan)
    requires At(buf, n, c) && Stands(buf, n, ['@' as int] + t) && All(t, IsAuthorityChar) && |t| > 0
    requires c.s.s_req_server? && c.last == Some(Host) && Host in c.fields
    ensures
      At(buf, n + 1 + |t|,
         Scan(s_req_server, Some(Host), c.fields[Host := Span(c.fields[Host].off, c.fields[Host].len + 1 + |t|)], true))
  {
    hide ParseUrlChar, At, Stands, IsAuthorityChar;
    var x := c.fields[Host];
    StandsBoth(buf, n, ['@' as int], t);
    StandsWith(buf, n, ['@' as int], 0);
    Fits(buf, n + 1, t);
    AtSign(s_req_server);
    GoesOn(buf, n, c, s_req_server_with_at, Host);
    var d := Scan(s_req_server_with_at, Some(Host), c.fields[Host := Longer(x)], true);
    ServerBytes(buf, n + 1, t);
    GoesOn(buf, n + 1, d, s_req_server, Host);
    var e := Scan(s_req_server, Some(Host), c.fields[Host := Span(x.off, x.len + 2)], true);
    assert d.fields[Host := Longer(d.fields[Host])] == e.fields;
    Stays(buf, n + 2, |t| - 1, e, Host);
    assert e.fields[Host := Span(x.off, x.len + 2 + (|t| - 1))] == c.fields[Host := Span(x.off, x.len + 1 + |t|)];
  }

  lemma InAuthority(ch: byte)
    ensures IsHostChar(ch) || IsNum(ch) || IsAddressChar(ch) || IsZoneChar(ch) || IsUserinfoChar(ch) ==>
      IsAuthorityChar(ch)
    ensures ch == ':' as int || ch == '%' as int || ch == '[' as int || ch == ']' as int ==> IsAuthorityChar(ch)
  {}

  lemma AllInAuthority(t: seq<byte>, p: byte -> bool)
    requires All(t, p) && forall ch :: p(ch) ==> IsAuthorityChar(ch)
    ensures All(t, IsAuthorityChar)
  {}

  lemma JoinInAuthority(t: seq<byte>, u: seq<byte>)
    requires All(t, IsAuthorityChar) && All(u, IsAuthorityChar)
    ensures All(t + u, IsAuthorityChar)
  {}

  lemma HostInAuthority(h: HostName)
    requires h.Legal()
    ensures All(h.Written(), IsAuthorityChar) && |h.Written()| > 0
  {
    forall ch
      ensures IsHostChar(ch) || IsAddressChar(ch) || IsZoneChar(ch) || ch == '%' as int ==> IsAuthorityChar(ch)
    {
      InAuthority(ch);
    }
    hide IsHostChar, IsAddressChar, IsZoneChar, IsUserinfoChar, IsAuthorityChar;
    match h
    case Name(name) => AllInAuthority(name, IsHostChar);
    case Literal(address, zone) =>
      AllInAuthority(address, IsAddressChar);
      InAuthority('[' as int);
      InAuthority(']' as int);
      if zone.Some? {
        AllInAuthority(zone.value, IsZoneChar);
        JoinInAuthority(['%' as int], zone.value);
      }
      JoinInAuthority(address, if zone.Some? then ['%' as int] + zone.value else []);
      JoinInAuthority(['[' as int], h.Text());
      JoinInAuthority(['[' as int] + h.Text(), [']' as int]);
  }

  lemma HostAndPort(h: HostName, port: Option<seq<byte>>)
    requires h.Legal() && (port.Some? ==> All(port.value, IsNum))
    ensures var t := h.Written() + if port.Some? then [':' as int] + port.value else [];
      All(t, IsAuthorityChar) && |t| > 0
  {
    HostInAuthority(h);
    if port.Some? {
      forall ch
        ensures IsNum(ch) ==> IsAuthorityChar(ch)
      {
        InAuthority(ch);
      }
      InAuthority(':' as int);
      hide IsNum, IsAuthorityChar;
      AllInAuthority(port.value, IsNum);
      JoinInAuthority([':' as int], port.value);
      JoinInAuthority(h.Written(), [':' as int] + port.value);
    }
  }

  lemma UserInAuthority(u: seq<byte>)
    requires All(u, IsUserinfoChar)
    ensures All(u, IsAuthorityChar)
  {}

  lemma AuthorityRuns(buf: seq<byte>, n: nat, p: Pieces, c: Scan)
    requires Legal(p) && At(buf, n, c) && Stands(buf, n, AuthorityText(p))
    requires c.s.s_req_server_start? && c.last != Some(Host) && !c.foundAt
    ensures
      var k := |AuthorityText(p)|;
      At(buf, n + k, Scan(s_req_server, Some(Host), c.fields[Host := Span(n, k)], p.user.Some?))
  {
    hide At, Stands, Decimal, All, IsNum, IsUrlChar, IsAlpha;
    var rest := p.host.Written() + PortText(p);
    HostAndPort(p.host, p.port);
    hide IsAuthorityChar, IsUserinfoChar;
    if p.user.Some? {
      var u := p.user.value;
      UserInAuthority(u);
      assert AuthorityText(p) == u + (['@' as int] + rest);
      StandsBoth(buf, n, u, ['@' as int] + rest);
      ServerRun(buf, n, u, c);
      var d := Scan(s_req_server, Some(Host), c.fields[Host := Span(n, |u|)], false);
      ServerAfterAt(buf, n + |u|, rest, d);
      assert d.fields[Host := Span(n, |u| + 1 + |rest|)] == c.fields[Host := Span(n, |u| + 1 + |rest|)];
    } else {
      assert AuthorityText(p) == rest;
      ServerRun(buf, n, rest, c);
    }
  }

  // ---- path, query and fragment --------------------------------------------------------------

  lemma PathStays(ch: byte)
    requires IsUrlChar(ch)
    ensures ParseUrlChar(s_req_path, ch) == s_req_path
    ensures ch == '/' as int ==> ParseUrlChar(s_req_server, ch) == s_req_path
  {}

  lemma QueryStays(ch: byte)
    requires QueryChar(ch)
    ensures ParseUrlChar(s_req_query_string, ch) == s_req_query_string
    ensures ParseUrlChar(s_req_query_string_start, ch) == s_req_query_string
  {}

  lemma FragmentStays(ch: byte)
    requires FragmentChar(ch)
    ensures ParseUrlChar(s_req_fragment, ch) == s_req_fragment
    ensures ch != '#' as int ==> ParseUrlChar(s_req_fragment_start, ch) == s_req_fragment
  {}

  lemma Marks(s: State)
    ensures s.s_req_server? || s.s_req_path? ==> ParseUrlChar(s, '?' as int) == s_req_query_string_start
    ensures s.s_req_path? || s.s_req_query_string? ==> ParseUrlChar(s, '#' as int) == s_req_fragment_start
    ensures s.s_req_server? ==> ParseUrlChar(s, '#' as int) == s_dead
  {}

  lemma PathRuns(buf: seq<byte>, n: nat, t: seq<byte>, c: Scan)
    requires At(buf, n, c) && Stands(buf, n, t) && |t| > 0 && t[0] == '/' as int && All(t, IsUrlChar)
    requires c.s.s_req_server? && c.last != Some(Path)
    ensures At(buf, n + |t|, Scan(s_req_path, Some(Path), c.fields[Path := Span(n, |t|)], c.foundAt))
  {
    hide ParseUrlChar, At, Stands, IsUrlChar;
    Fits(buf, n, t);
    forall i | n <= i < n + |t|
      ensures buf[i] == t[i - n] && ParseUrlChar(s_req_path, buf[i]) == s_req_path
    {
      StandsWith(buf, n, t, i - n);
      PathStays(buf[i]);
    }
    PathStays(buf[n]);
    WholeField(buf, n, |t|, c, s_req_path, Path);
  }

  lemma QueryRuns(buf: seq<byte>, n: nat, t: seq<byte>, c: Scan)
    requires At(buf, n, c) && Stands(buf, n, ['?' as int] + t) && |t| > 0 && All(t, QueryChar)
    requires (c.s.s_req_server? || c.s.s_req_path?) && c.last != Some(Query)
    ensures At(buf, n + 1 + |t|, Scan(s_req_query_string, Some(Query), c.fields[Query := Span(n + 1, |t|)], c.foundAt))
  {
    hide ParseUrlChar, At, Stands, QueryChar;
    StandsBoth(buf, n, ['?' as int], t);
    StandsWith(buf, n, ['?' as int], 0);
    Fits(buf, n + 1, t);
    Marks(c.s);
    Passes(buf, n, c, s_req_query_string_start);
    forall i | n + 1 <= i < n + 1 + |t|
      ensures ParseUrlChar(s_req_query_string, buf[i]) == s_req_query_string
      ensures ParseUrlChar(s_req_query_string_start, buf[i]) == s_req_query_string
    {
      StandsWith(buf, n + 1, t, i - (n + 1));
      QueryStays(buf[i]);
    }
    WholeField(buf, n + 1, |t|, c.(s := s_req_query_string_start), s_req_query_string, Query);
  }

  lemma FragmentRuns(buf: seq<byte>, n: nat, t: seq<byte>, c: Scan)
    requires At(buf, n, c) && Stands(buf, n, ['#' as int] + t) && |t| > 0 && All(t, FragmentChar) && t[0] != '#' as int
    requires (c.s.s_req_path? || c.s.s_req_query_string?) && c.last != Some(Fragment)
    ensures
      At(buf, n + 1 + |t|, Scan(s_req_fragment, Some(Fragment), c.fields[Fragment := Span(n + 1, |t|)], c.foundAt))
  {
    hide ParseUrlChar, At, Stands, FragmentChar;
    StandsBoth(buf, n, ['#' as int], t);
    StandsWith(buf, n, ['#' as int], 0);
    Fits(buf, n + 1, t);
    Marks(c.s);
    Passes(buf, n, c, s_req_fragment_start);
    forall i | n + 1 <= i < n + 1 + |t|
      ensures buf[i] == t[i - (n + 1)] && ParseUrlChar(s_req_fragment, buf[i]) == s_req_fragment
    {
      StandsWith(buf, n + 1, t, i - (n + 1));
      FragmentStays(buf[i]);
    }
    FragmentStays(buf[n + 1]);
    WholeField(buf, n + 1, |t|, c.(s := s_req_fragment_start), s_req_fragment, Fragment);
  }

  // ---- the authority in the second pass ------------------------------------------------------

  ghost predicate HostAt(buf: seq<byte>, off: nat, n: nat, foundAt: bool, h: Authority) {
    off <= n <= |buf| && HostTo(buf, off, n, foundAt) == Some(h)
  }

  lemma HostStep(buf: seq<byte>, off: nat, n: nat, foundAt: bool, h: Authority, now: Authority)
    requires HostAt(buf, off, n, foundAt, h) && n < |buf| && HostByte(h, buf[n], n) == Some(now)
    ensures HostAt(buf, off, n + 1, foundAt, now)
  {
    hide HostByte;
  }

  lemma {:induction false} UserRun(buf: seq<byte>, off: nat, n: nat, k: nat, h: Authority)
    requires HostAt(buf, off, n, true, h) && h.s == s_http_userinfo_start && 0 < k && n + k <= |buf|
    requires forall i :: n <= i < n + k ==> IsUserinfoChar(buf[i])
    ensures HostAt(buf, off, n + k, true, h.(s := s_http_userinfo, user := Some(Span(n, k))))
    decreases k
  {
    hide HostAt, IsUserinfoChar;
    UserinfoStays(s_http_userinfo_start, buf[n + k - 1]);
    UserinfoStays(s_http_userinfo, buf[n + k - 1]);
    if k > 1 {
      UserRun(buf, off, n, k - 1, h);
      HostStep(buf, off, n + k - 1, true, h.(s := s_http_userinfo, user := Some(Span(n, k - 1))),
               h.(s := s_http_userinfo, user := Some(Span(n, k))));
    } else {
      HostStep(buf, off, n, true, h, h.(s := s_http_userinfo, user := Some(Span(n, 1))));
    }
  }

  lemma UserinfoStays(s: HostState, ch: byte)
    requires IsUserinfoChar(ch) && (s == s_http_userinfo || s == s_http_userinfo_start)
    ensures ParseHostChar(s, ch) == s_http_userinfo
  {}

  lemma {:induction false} NameRun(buf: seq<byte>, off: nat, n: nat, k: nat, foundAt: bool, h: Authority)
    requires HostAt(buf, off, n, foundAt, h) && h.s == s_http_host_start && h.host.len == 0 && 0 < k && n + k <= |buf|
    requires forall i :: n <= i < n + k ==> IsHostChar(buf[i])
    ensures HostAt(buf, off, n + k, foundAt, h.(s := s_http_host, host := Span(n, k)))
    decreases k
  {
    hide HostAt, IsHostChar;
    NameStays(s_http_host_start, buf[n + k - 1]);
    NameStays(s_http_host, buf[n + k - 1]);
    if k > 1 {
      NameRun(buf, off, n, k - 1, foundAt, h);
      HostStep(buf, off, n + k - 1, foundAt, h.(s := s_http_host, host := Span(n, k - 1)),
               h.(s := s_http_host, host := Span(n, k)));
    } else {
      HostStep(buf, off, n, foundAt, h, h.(s := s_http_host, host := Span(n, 1)));
    }
  }

  lemma NameStays(s: HostState, ch: byte)
    requires IsHostChar(ch) && (s == s_http_host || s == s_http_host_start)
    ensures ParseHostChar(s, ch) == s_http_host
  {}

  /** The address in an IP literal, after the bracket. */
  lemma {:induction false} AddressRun(buf: seq<byte>, off: nat, n: nat, k: nat, foundAt: bool, h: Authority)
    requires HostAt(buf, off, n, foundAt, h) && h.s == s_http_host_v6_start && h.host.len == 0 && 0 < k
    requires n + k <= |buf|
    requires forall i :: n <= i < n + k ==> IsAddressChar(buf[i])
    ensures HostAt(buf, off, n + k, foundAt, h.(s := s_http_host_v6, host := Span(n, k)))
    decreases k
  {
    hide HostAt, IsAddressChar;
    AddressStays(buf[n + k - 1]);
    if k > 1 {
      AddressRun(buf, off, n, k - 1, foundAt, h);
      HostStep(buf, off, n + k - 1, foundAt, h.(s := s_http_host_v6, host := Span(n, k - 1)),
               h.(s := s_http_host_v6, host := Span(n, k)));
    } else {
      HostStep(buf, off, n, foundAt, h, h.(s := s_http_host_v6, host := Span(n, 1)));
    }
  }

  lemma AddressStays(ch: byte)
    requires IsAddressChar(ch)
    ensures ParseHostChar(s_http_host_v6, ch) == s_http_host_v6
    ensures ParseHostChar(s_http_host_v6_start, ch) == s_http_host_v6
  {}

  /** The zone in an IP literal, after the percent sign. */
  lemma {:induction false} ZoneRun(buf: seq<byte>, off: nat, n: nat, k: nat, foundAt: bool, h: Authority)
    requires HostAt(buf, off, n, foundAt, h) && h.s == s_http_host_v6_zone_start && 0 < k && n + k <= |buf|
    requires forall i :: n <= i < n + k ==> IsZoneChar(buf[i])
    ensures HostAt(buf, off, n + k, foundAt, h.(s := s_http_host_v6_zone, host := Span(h.host.off, h.host.len + k)))
    decreases k
  {
    hide HostAt, IsZoneChar;
    ZoneStays(buf[n + k - 1]);
    if k > 1 {
      ZoneRun(buf, off, n, k - 1, foundAt, h);
      HostStep(buf, off, n + k - 1, foundAt, h.(s := s_http_host_v6_zone, host := Span(h.host.off, h.host.len + k - 1)),
               h.(s := s_http_host_v6_zone, host := Span(h.host.off, h.host.len + k)));
    } else {
      HostStep(buf, off, n, foundAt, h, h.(s := s_http_host_v6_zone, host := Longer(h.host)));
    }
  }

  lemma ZoneStays(ch: byte)
    requires IsZoneChar(ch)
    ensures ParseHostChar(s_http_host_v6_zone, ch) == s_http_host_v6_zone
    ensures ParseHostChar(s_http_host_v6_zone_start, ch) == s_http_host_v6_zone
  {}

  /** An IP literal between its brackets. */
  lemma LiteralRun(buf: seq<byte>, off: nat, n: nat, host: HostName, foundAt: bool, h: Authority)
    requires host.Literal? && host.Legal() && Stands(buf, n, host.Written())
    requires HostAt(buf, off, n, foundAt, h) && h.s == s_http_host_start && h.host.len == 0
    ensures HostAt(buf, off, n + |host.Written()|, foundAt,
      h.(s := s_http_host_v6_end, host := Span(n + 1, |host.Text()|)))
  {
    hide HostAt, Stands, IsAddressChar, IsZoneChar, All;
    var a := host.address;
    var z := if host.zone.Some? then ['%' as int] + host.zone.value else [];
    LiteralStands(buf, n, host, z);
    var g := h.(s := s_http_host_v6_start);
    HostStep(buf, off, n, foundAt, h, g);
    AllStand(buf, n + 1, a, IsAddressChar);
    AddressRun(buf, off, n + 1, |a|, foundAt, g);
    var b := g.(s := s_http_host_v6, host := Span(n + 1, |a|));
    var e := n + 1 + |a| + |z|;
    if host.zone.Some? {
      b := ZoneAfterAddress(buf, off, n + 1 + |a|, host.zone.value, foundAt, b);
    }
    HostStep(buf, off, e, foundAt, b, b.(s := s_http_host_v6_end));
  }

  lemma LiteralStands(buf: seq<byte>, n: nat, host: HostName, z: seq<byte>)
    requires host.Literal? && z == (if host.zone.Some? then ['%' as int] + host.zone.value else [])
    requires Stands(buf, n, host.Written())
    ensures var a, e := host.address, n + 1 + |host.address| + |z|;
      && Stands(buf, n + 1, a) && Stands(buf, n + 1 + |a|, z)
      && e < |buf| && buf[n] == '[' as int && buf[e] == ']' as int
      && host.Text() == a + z && |host.Written()| == |a| + |z| + 2
  {
    hide Stands;
    var a, e := host.address, n + 1 + |host.address| + |z|;
    assert host.Written() == ['[' as int] + (a + (z + [']' as int]));
    StandsBoth(buf, n, ['[' as int], a + (z + [']' as int]));
    StandsBoth(buf, n + 1, a, z + [']' as int]);
    StandsBoth(buf, n + 1 + |a|, z, [']' as int]);
    StandsWith(buf, n, ['[' as int], 0);
    StandsWith(buf, e, [']' as int], 0);
    Fits(buf, e, [']' as int]);
  }

  lemma ZoneAfterAddress(buf: seq<byte>, off: nat, n: nat, zone: seq<byte>, foundAt: bool, h: Authority)
    returns (g: Authority)
    requires HostAt(buf, off, n, foundAt, h) && h.s == s_http_host_v6 && Stands(buf, n, ['%' as int] + zone)
    requires |zone| > 0 && All(zone, IsZoneChar)
    ensures g == h.(s := s_http_host_v6_zone, host := Span(h.host.off, h.host.len + 1 + |zone|))
    ensures HostAt(buf, off, n + 1 + |zone|, foundAt, g)
  {
    hide HostAt, Stands, IsZoneChar;
    StandsBoth(buf, n, ['%' as int], zone);
    StandsWith(buf, n, ['%' as int], 0);
    Fits(buf, n, ['%' as int]);
    AllStand(buf, n + 1, zone, IsZoneChar);
    var f := h.(s := s_http_host_v6_zone_start, host := Longer(h.host));
    HostStep(buf, off, n, foundAt, h, f);
    ZoneRun(buf, off, n + 1, |zone|, foundAt, f);
    g := f.(s := s_http_host_v6_zone, host := Span(f.host.off, f.host.len + |zone|));
  }

  lemma {:induction false} PortRun(buf: seq<byte>, off: nat, n: nat, k: nat, foundAt: bool, h: Authority)
    requires HostAt(buf, off, n, foundAt, h) && h.s == s_http_host_port_start && 0 < k && n + k <= |buf|
    requires forall i :: n <= i < n + k ==> IsNum(buf[i])
    ensures HostAt(buf, off, n + k, foundAt, h.(s := s_http_host_port, port := Some(Span(n, k))))
    decreases k
  {
    hide HostAt;
    if k > 1 {
      PortRun(buf, off, n, k - 1, foundAt, h);
      HostStep(buf, off, n + k - 1, foundAt, h.(s := s_http_host_port, port := Some(Span(n, k - 1))),
               h.(s := s_http_host_port, port := Some(Span(n, k))));
    } else {
      HostStep(buf, off, n, foundAt, h, h.(s := s_http_host_port, port := Some(Span(n, 1))));
    }
  }

  /** Where the parts of the authority at `n` are. */
  function Parts(p: Pieces, n: nat): Authority {
    var host := n + |UserText(p)|;
    Authority(if p.port.Some? then s_http_host_port else if p.host.Name? then s_http_host else s_http_host_v6_end,
              if p.user.Some? then Some(Span(n, |p.user.value|)) else None,
              Span(host + p.host.Bracket(), |p.host.Text()|),
              if p.port.Some? then Some(Span(host + |p.host.Written()| + 1, |p.port.value|)) else None)
  }

  lemma AllStand(buf: seq<byte>, n: nat, t: seq<byte>, p: byte -> bool)
    requires Stands(buf, n, t) && All(t, p)
    ensures n + |t| <= |buf| && forall i :: n <= i < n + |t| ==> p(buf[i])
  {
    hide Stands;
    Fits(buf, n, t);
    forall i | n <= i < n + |t|
      ensures p(buf[i])
    {
      StandsWith(buf, n, t, i - n);
    }
  }

  lemma AuthorityDivides(buf: seq<byte>, n: nat, p: Pieces)
    requires Legal(p) && Stands(buf, n, AuthorityText(p))
    ensures HostAt(buf, n, n + |AuthorityText(p)|, p.user.Some?, Parts(p, n))
  {
    hide HostAt, Stands, Decimal, IsUserinfoChar, IsHostChar, HostBegun, All;
    var at := p.user.Some?;
    var k := n + |UserText(p)|;
    var w := p.host.Written();
    assert AuthorityText(p) == UserText(p) + (w + PortText(p));
    StandsBoth(buf, n, UserText(p), w + PortText(p));
    StandsBoth(buf, k, w, PortText(p));
    var h := UserFirst(buf, n, p);
    var g := HostRun(buf, n, k, p.host, at, h);
    if p.port.Some? {
      PortAfterName(buf, n, k + |w|, p.port.value, at, g);
    }
  }

  lemma HostRun(buf: seq<byte>, off: nat, n: nat, host: HostName, foundAt: bool, h: Authority) returns (g: Authority)
    requires host.Legal() && Stands(buf, n, host.Written())
    requires HostAt(buf, off, n, foundAt, h) && h.s == s_http_host_start && h.host.len == 0
    ensures g == h.(s := if host.Name? then s_http_host else s_http_host_v6_end,
                    host := Span(n + host.Bracket(), |host.Text()|))
    ensures HostAt(buf, off, n + |host.Written()|, foundAt, g)
  {
    hide HostAt, Stands, IsHostChar, IsAddressChar, IsZoneChar;
    if host.Name? {
      AllStand(buf, n, host.name, IsHostChar);
      NameRun(buf, off, n, |host.name|, foundAt, h);
      g := h.(s := s_http_host, host := Span(n, |host.name|));
    } else {
      LiteralRun(buf, off, n, host, foundAt, h);
      g := h.(s := s_http_host_v6_end, host := Span(n + 1, |host.Text()|));
    }
  }

  /** The user, if any, and the sign after it. */
  lemma UserFirst(buf: seq<byte>, n: nat, p: Pieces) returns (h: Authority)
    requires Legal(p) && Stands(buf, n, UserText(p))
    ensures HostAt(buf, n, n + |UserText(p)|, p.user.Some?, h)
    ensures h.s == s_http_host_start && h.host.len == 0 && h.port == None
    ensures h.user == if p.user.Some? then Some(Span(n, |p.user.value|)) else None
  {
    hide Stands, Decimal, IsUserinfoChar, IsHostChar;
    Fits(buf, n, UserText(p));
    h := HostBegun(n, p.user.Some?);
    if p.user.Some? {
      var u := p.user.value;
      StandsBoth(buf, n, u, ['@' as int]);
      StandsWith(buf, n + |u|, ['@' as int], 0);
      AllStand(buf, n, u, IsUserinfoChar);
      UserRun(buf, n, n, |u|, h);
      var g := h.(s := s_http_userinfo, user := Some(Span(n, |u|)));
      h := g.(s := s_http_host_start);
      HostStep(buf, n, n + |u|, true, g, h);
    }
  }

  lemma PortAfterName(buf: seq<byte>, off: nat, n: nat, digits: seq<byte>, foundAt: bool, h: Authority)
    requires HostAt(buf, off, n, foundAt, h) && (h.s == s_http_host || h.s == s_http_host_v6_end)
    requires Stands(buf, n, [':' as int] + digits)
    requires |digits| > 0 && All(digits, IsNum)
    ensures HostAt(buf, off, n + 1 + |digits|, foundAt,
                   h.(s := s_http_host_port, port := Some(Span(n + 1, |digits|))))
  {
    hide Stands, HostAt;
    StandsBoth(buf, n, [':' as int], digits);
    StandsWith(buf, n, [':' as int], 0);
    AllStand(buf, n + 1, digits, IsNum);
    var g := h.(s := s_http_host_port_start);
    HostStep(buf, off, n, foundAt, h, g);
    PortRun(buf, off, n + 1, |digits|, foundAt, g);
  }

  // ---- the round trip ------------------------------------------------------------------------

  /** The text of a field, if it is set. */
  function Taken(u: ParsedUrl, buf: seq<byte>, f: Part): Option<seq<byte>> {
    if f in u.fields && u.fields[f].End() <= |buf| then Some(buf[u.fields[f].off..u.fields[f].End()]) else None
  }

  function IfAny(t: seq<byte>): Option<seq<byte>> {
    if |t| > 0 then Some(t) else None
  }

  /** The parts come back, each in its field, and the port as its value. */
  predicate GivesBack(u: ParsedUrl, buf: seq<byte>, p: Pieces)
  {
    && Taken(u, buf, Schema) == Some(p.schema) && Taken(u, buf, UserInfo) == p.user
    && Taken(u, buf, Host) == Some(p.host.Text()) && Taken(u, buf, Port) == p.port
    && Taken(u, buf, Path) == IfAny(p.path) && Taken(u, buf, Query) == p.query
    && Taken(u, buf, Fragment) == p.fragment
    && u.port == if p.port.Some? then Decimal(0, p.port.value) else 0
  }

  /** A fragment right after the authority is not understood. */
  predicate Understood(p: Pieces) {
    p.fragment.Some? ==> |p.path| > 0 || p.query.Some?
  }

  /** The fields after the first pass, without what follows the authority. */
  function FrontFields(p: Pieces): Spans {
    map[Schema := Span(0, |p.schema|)][Host := Span(|p.schema| + 3, |AuthorityText(p)|)]
  }

  function PathAt(p: Pieces): nat {
    |p.schema| + 3 + |AuthorityText(p)|
  }

  function PathFields(p: Pieces): Spans {
    if |p.path| > 0 then FrontFields(p)[Path := Span(PathAt(p), |p.path|)] else FrontFields(p)
  }

  function QueryAt(p: Pieces): nat {
    PathAt(p) + |p.path|
  }

  function QueryFields(p: Pieces): Spans {
    if p.query.Some? then PathFields(p)[Query := Span(QueryAt(p) + 1, |p.query.value|)] else PathFields(p)
  }

  function FragmentAt(p: Pieces): nat {
    QueryAt(p) + |QueryText(p)|
  }

  function AllFields(p: Pieces): Spans {
    if p.fragment.Some? then QueryFields(p)[Fragment := Span(FragmentAt(p) + 1, |p.fragment.value|)] else QueryFields(p)
  }

  /** Where each piece stands in the assembled text. */
  lemma PiecesStand(p: Pieces)
    ensures
      var buf := Assembled(p);
      && Stands(buf, 0, p.schema) && Stands(buf, |p.schema|, [':' as int, '/' as int, '/' as int])
      && Stands(buf, |p.schema| + 3, AuthorityText(p)) && Stands(buf, PathAt(p), p.path)
      && Stands(buf, QueryAt(p), QueryText(p)) && Stands(buf, FragmentAt(p), FragmentText(p))
      && |buf| == FragmentAt(p) + |FragmentText(p)|
  {
    hide AuthorityText, QueryText, FragmentText, Stands;
    var buf := Assembled(p);
    var a, b, c, d, e, f := p.schema, [':' as int, '/' as int, '/' as int], AuthorityText(p), p.path, QueryText(p),
      FragmentText(p);
    Joined6(a, b, c, d, e, f);
    Whole(buf);
    StandsBoth(buf, 0, a, b + (c + (d + (e + f))));
    StandsBoth(buf, |a|, b, c + (d + (e + f)));
    StandsBoth(buf, |a| + 3, c, d + (e + f));
    StandsBoth(buf, PathAt(p), d, e + f);
    StandsBoth(buf, QueryAt(p), e, f);
  }

  lemma Whole(buf: seq<byte>)
    ensures Stands(buf, 0, buf)
  {}

  lemma Joined6(a: seq<byte>, b: seq<byte>, c: seq<byte>, d: seq<byte>, e: seq<byte>, f: seq<byte>)
    ensures a + b + c + d + e + f == a + (b + (c + (d + (e + f))))
  {}

  /** The first pass up to the fragment. */
  lemma FrontScanned(p: Pieces) returns (c: Scan)
    requires Legal(p)
    ensures At(Assembled(p), FragmentAt(p), c)
    ensures c.fields == QueryFields(p) && c.foundAt == p.user.Some? && c.last != Some(Fragment)
    ensures c.s == if p.query.Some? then s_req_query_string else if |p.path| > 0 then s_req_path else s_req_server
  {
    hide At, Stands, AuthorityText, Assembled, Decimal, All;
    var buf := Assembled(p);
    PiecesStand(p);
    SchemaRuns(buf, p.schema);
    c := Scan(s_req_server_start, Some(Schema), map[Schema := Span(0, |p.schema|)], false);
    AuthorityRuns(buf, |p.schema| + 3, p, c);
    c := Scan(s_req_server, Some(Host), FrontFields(p), p.user.Some?);
    if |p.path| > 0 {
      PathRuns(buf, PathAt(p), p.path, c);
      c := Scan(s_req_path, Some(Path), PathFields(p), p.user.Some?);
    }
    if p.query.Some? {
      QueryRuns(buf, QueryAt(p), p.query.value, c);
      c := Scan(s_req_query_string, Some(Query), QueryFields(p), p.user.Some?);
    }
  }

  /** The first pass over the whole text. */
  lemma AllScanned(p: Pieces)
    requires Legal(p)
    ensures
      match ScanTo(Assembled(p), |Assembled(p)|, false)
      case None => !Understood(p)
      case Some(c) => Understood(p) && c.fields == AllFields(p) && c.foundAt == p.user.Some?
  {
    hide Stands, AuthorityText, Assembled, Decimal, All, ScanTo;
    var buf, n := Assembled(p), FragmentAt(p);
    PiecesStand(p);
    var c := FrontScanned(p);
    if p.fragment.Some? {
      if Understood(p) {
        FragmentRuns(buf, n, p.fragment.value, c);
      } else {
        Fits(buf, n, FragmentText(p));
        StandsWith(buf, n, FragmentText(p), 0);
        Marks(c.s);
        OneByte(buf, n, c);
        ScanStops(buf, n + 1, false);
      }
    }
  }

  lemma TextAt(buf: seq<byte>, n: nat, t: seq<byte>)
    requires Stands(buf, n, t)
    ensures n + |t| <= |buf| && buf[n..n + |t|] == t
  {}

  /** Where the authority's pieces stand. */
  lemma AuthorityStands(p: Pieces)
    requires Legal(p)
    ensures
      var buf, a := Assembled(p), |p.schema| + 3;
      var k := a + |UserText(p)|;
      && (p.user.Some? ==> Stands(buf, a, p.user.value)) && Stands(buf, k + p.host.Bracket(), p.host.Text())
      && (p.port.Some? ==> Stands(buf, k + |p.host.Written()| + 1, p.port.value))
  {
    hide Stands, Assembled, Decimal, All, PathAt, QueryAt, FragmentAt, QueryText, FragmentText;
    var buf, a := Assembled(p), |p.schema| + 3;
    PiecesStand(p);
    var w := p.host.Written();
    assert AuthorityText(p) == UserText(p) + (w + PortText(p));
    StandsBoth(buf, a, UserText(p), w + PortText(p));
    StandsBoth(buf, a + |UserText(p)|, w, PortText(p));
    HostStands(buf, a + |UserText(p)|, p.host);
    if p.user.Some? {
      StandsBoth(buf, a, p.user.value, ['@' as int]);
    }
    if p.port.Some? {
      StandsBoth(buf, a + |UserText(p)| + |w|, [':' as int], p.port.value);
    }
  }

  lemma HostStands(buf: seq<byte>, n: nat, h: HostName)
    requires Stands(buf, n, h.Written())
    ensures Stands(buf, n + h.Bracket(), h.Text())
  {
    hide Stands;
    if h.Literal? {
      StandsBoth(buf, n, ['[' as int] + h.Text(), [']' as int]);
      StandsBoth(buf, n, ['[' as int], h.Text());
    }
  }

  /** A URL put together from legal parts is taken apart into the same parts; the one kind that is refused
      is a fragment that follows the authority directly. */
  lemma AssembledRoundTrip(p: Pieces)
    requires Legal(p)
    ensures ParseUrl(Assembled(p), false).Some? <==> Understood(p)
    ensures Understood(p) ==> GivesBack(ParseUrl(Assembled(p), false).value, Assembled(p), p)
  {
    hide Stands, Assembled, Decimal, All, ScanTo, HostTo, GivesBack, Understood, Legal, ParseUrl;
    var buf := Assembled(p);
    if Understood(p) {
      var u := ParsedUrl((AllFields(p) - {Host}) + AuthoritySpans(Parts(p, |p.schema| + 3)), PortOf(p));
      AssembledParses(p);
      FieldsGiven(p, buf, u);
    } else {
      AllScanned(p);
      NotScanned(buf, false);
    }
  }

  lemma NotScanned(buf: seq<byte>, isConnect: bool)
    requires ScanTo(buf, |buf|, isConnect) == None
    ensures ParseUrl(buf, isConnect) == None
  {}

  function PortOf(p: Pieces): nat {
    if p.port.Some? then Decimal(0, p.port.value) else 0
  }

  /** The fields and the port that are found in the assembled text. */
  lemma AssembledParses(p: Pieces)
    requires Legal(p) && Understood(p)
    ensures
      ParseUrl(Assembled(p), false)
      == Some(ParsedUrl((AllFields(p) - {Host}) + AuthoritySpans(Parts(p, |p.schema| + 3)), PortOf(p)))
  {
    hide Stands, AuthorityText, Assembled, Decimal, All, ScanTo, HostTo, Understood, UserText, AllFields, ParseUrl,
      AuthoritySpans, DigitsAt;
    var buf, a := Assembled(p), |p.schema| + 3;
    var h := Parts(p, a);
    AllScanned(p);
    PiecesStand(p);
    TextAt(buf, a, AuthorityText(p));
    AuthorityDivides(buf, a, p);
    FieldsOf(p);
    PortGiven(p, buf);
    ParseIs(buf, false, ScanTo(buf, |buf|, false).value, h);
  }

  lemma FieldsOf(p: Pieces)
    ensures Schema in AllFields(p) && Host in AllFields(p)
    ensures AllFields(p)[Host] == Span(|p.schema| + 3, |AuthorityText(p)|)
  {
    hide AuthorityText, QueryText;
  }

  lemma PortGiven(p: Pieces, buf: seq<byte>)
    requires Legal(p) && buf == Assembled(p)
    ensures p.port.Some? ==>
      var x := Parts(p, |p.schema| + 3).port.value;
      x.End() <= |buf| && buf[x.off..x.End()] == p.port.value
  {
    hide Assembled, Stands, Decimal, All;
    AuthorityStands(p);
    if p.port.Some? {
      TextAt(buf, |p.schema| + 3 + |UserText(p)| + |p.host.Written()| + 1, p.port.value);
    }
  }

  function Lookup(fields: Spans, f: Part): Option<Span> {
    if f in fields then Some(fields[f]) else None
  }

  /** The span of a piece, if there is one. */
  function SpanIf(piece: Option<seq<byte>>, off: nat): Option<Span> {
    if piece.Some? then Some(Span(off, |piece.value|)) else None
  }

  /** Where every field is. */
  lemma FieldTable(p: Pieces, fields: Spans)
    requires |p.host.Text()| > 0 && fields == (AllFields(p) - {Host}) + AuthoritySpans(Parts(p, |p.schema| + 3))
    ensures
      var a := |p.schema| + 3;
      var k := a + |UserText(p)|;
      && Lookup(fields, Schema) == Some(Span(0, |p.schema|))
      && Lookup(fields, UserInfo) == SpanIf(p.user, a)
      && Lookup(fields, Host) == Some(Span(k + p.host.Bracket(), |p.host.Text()|))
      && Lookup(fields, Port) == SpanIf(p.port, k + |p.host.Written()| + 1)
      && Lookup(fields, Path) == SpanIf(IfAny(p.path), PathAt(p))
      && Lookup(fields, Query) == SpanIf(p.query, QueryAt(p) + 1)
      && Lookup(fields, Fragment) == SpanIf(p.fragment, FragmentAt(p) + 1)
  {
    hide AuthorityText, UserText, QueryText, PathAt, QueryAt, FragmentAt;
  }

  /** A field whose piece stands where the field is gives the piece. */
  lemma Gives(u: ParsedUrl, buf: seq<byte>, f: Part, off: nat, t: seq<byte>)
    requires Lookup(u.fields, f) == Some(Span(off, |t|)) && Stands(buf, off, t)
    ensures Taken(u, buf, f) == Some(t)
  {}

  lemma GivesNothing(u: ParsedUrl, buf: seq<byte>, f: Part)
    requires Lookup(u.fields, f) == None
    ensures Taken(u, buf, f) == None
  {}

  lemma FieldsGiven(p: Pieces, buf: seq<byte>, u: ParsedUrl)
    requires Legal(p) && buf == Assembled(p)
    requires u.fields == (AllFields(p) - {Host}) + AuthoritySpans(Parts(p, |p.schema| + 3))
    requires u.port == PortOf(p)
    ensures GivesBack(u, buf, p)
  {
    hide Assembled, Stands, Decimal, All, AuthorityText, AllFields, AuthoritySpans, Parts, Taken, Lookup;
    AuthorityStands(p);
    PiecesStand(p);
    FieldTable(p, u.fields);
    var a := |p.schema| + 3;
    var k := a + |UserText(p)|;
    Gives(u, buf, Schema, 0, p.schema);
    Gives(u, buf, Host, k + p.host.Bracket(), p.host.Text());
    if p.user.Some? { Gives(u, buf, UserInfo, a, p.user.value); } else { GivesNothing(u, buf, UserInfo); }
    if p.port.Some? {
      Gives(u, buf, Port, k + |p.host.Written()| + 1, p.port.value);
    } else {
      GivesNothing(u, buf, Port);
    }
    if |p.path| > 0 { Gives(u, buf, Path, PathAt(p), p.path); } else { GivesNothing(u, buf, Path); }
    if p.query.Some? {
      StandsBoth(buf, QueryAt(p), ['?' as int], p.query.value);
      Gives(u, buf, Query, QueryAt(p) + 1, p.query.value);
    } else {
      GivesNothing(u, buf, Query);
    }
    if p.fragment.Some? {
      StandsBoth(buf, FragmentAt(p), ['#' as int], p.fragment.value);
      Gives(u, buf, Fragment, FragmentAt(p) + 1, p.fragment.value);
    } else {
      GivesNothing(u, buf, Fragment);
    }
  }

  /** A fragment right after the authority, as in "a://b#c", is refused although every part of the URL is legal. */
  lemma FragmentAfterAuthority()
    ensures
      var p := Pieces(['a' as int], None, Name(['b' as int]), None, [], None, Some(['c' as int]));
      && Legal(p) && ParseUrl(Assembled(p), false) == None
      && Assembled(p) == ['a' as int, ':' as int, '/' as int, '/' as int, 'b' as int, '#' as int, 'c' as int]
  {
    var p := Pieces(['a' as int], None, Name(['b' as int]), None, [], None, Some(['c' as int]));
    AssembledRoundTrip(p);
  }

  // ---- CONNECT -------------------------------------------------------------------------------

  /** host:port, as CONNECT takes it */
  function Target(h: HostName, port: seq<byte>): seq<byte> {
    h.Written() + [':' as int] + port
  }

  lemma {:induction false} TargetScanned(buf: seq<byte>, k: nat)
    requires All(buf, IsAuthorityChar) && 0 < k <= |buf|
    ensures ScanTo(buf, k, true) == Some(Scan(s_req_server, Some(Host), map[Host := Span(0, k)], false))
  {
    hide ParseUrlChar, IsAuthorityChar;
    ServerStays(s_req_server_start, buf[k - 1]);
    ServerStays(s_req_server, buf[k - 1]);
    if k > 1 {
      TargetScanned(buf, k - 1);
      assert map[Host := Span(0, k - 1)][Host := Span(0, k)] == map[Host := Span(0, k)];
    } else {
      assert ScanTo(buf, 0, true) == Some(Begun(true));
      assert Begun(true).fields[Host := Span(0, 1)] == map[Host := Span(0, 1)];
    }
  }

  /** Where the two parts of it are. */
  function DividedTarget(h: HostName, port: seq<byte>): Authority {
    Authority(s_http_host_port, None, Span(h.Bracket(), |h.Text()|), Some(Span(|h.Written()| + 1, |port|)))
  }

  function TargetFields(h: HostName, port: seq<byte>): Spans {
    (map[Host := Span(0, |Target(h, port)|)] - {Host}) + AuthoritySpans(DividedTarget(h, port))
  }

  predicate LegalTarget(h: HostName, port: seq<byte>) {
    h.Legal() && |port| > 0 && All(port, IsNum) && Decimal(0, port) <= 65535
  }

  lemma TargetStands(h: HostName, port: seq<byte>)
    ensures
      var buf := Target(h, port);
      && h.Bracket() + |h.Text()| <= |buf| && buf[h.Bracket()..h.Bracket() + |h.Text()|] == h.Text()
      && |buf| == |h.Written()| + 1 + |port| && buf[|h.Written()| + 1..|h.Written()| + 1 + |port|] == port
  {
    hide Stands;
    var buf, w := Target(h, port), h.Written();
    assert buf == w + ([':' as int] + port);
    Whole(buf);
    StandsBoth(buf, 0, w, [':' as int] + port);
    StandsBoth(buf, |w|, [':' as int], port);
    HostStands(buf, 0, h);
    TextAt(buf, h.Bracket(), h.Text());
    TextAt(buf, |w| + 1, port);
  }

  lemma TargetDivides(h: HostName, port: seq<byte>)
    requires LegalTarget(h, port)
    ensures
      var buf := Target(h, port);
      && ScanTo(buf, |buf|, true) == Some(Scan(s_req_server, Some(Host), map[Host := Span(0, |buf|)], false))
      && HostTo(buf, 0, |buf|, false) == Some(DividedTarget(h, port))
  {
    hide Stands, Decimal, All, ScanTo, HostTo, IsHostChar, IsAddressChar, IsZoneChar;
    var buf := Target(h, port);
    var p := Pieces(['a' as int], None, h, Some(port), [], None, None);
    DummyIsLegal(p);
    assert buf == h.Written() + ([':' as int] + port) == AuthorityText(p);
    HostAndPort(h, Some(port));
    TargetScanned(buf, |buf|);
    Whole(buf);
    AuthorityDivides(buf, 0, p);
  }

  lemma TargetParsed(h: HostName, port: seq<byte>)
    requires LegalTarget(h, port)
    ensures ParseUrl(Target(h, port), true) == Some(ParsedUrl(TargetFields(h, port), Decimal(0, port)))
  {
    hide Target, Decimal, All, ScanTo, HostTo, Finished, IsHostChar, IsAddressChar, IsZoneChar;
    TargetDivides(h, port);
    TargetStands(h, port);
    FieldsOfTarget(h, port);
    TargetFinished(Target(h, port), TargetFields(h, port), Span(|h.Written()| + 1, |port|), port);
  }

  /** A legal host and port are taken apart into the same host and port. */
  lemma TargetRoundTrip(h: HostName, port: seq<byte>)
    requires LegalTarget(h, port)
    ensures
      var buf := Target(h, port);
      var r := ParseUrl(buf, true);
      && r.Some? && r.value.port == Decimal(0, port) && r.value.fields.Keys == {Host, Port}
      && Taken(r.value, buf, Host) == Some(h.Text()) && Taken(r.value, buf, Port) == Some(port)
  {
    hide Target, Decimal, All, ParseUrl, TargetFields, IsHostChar, IsAddressChar, IsZoneChar;
    TargetParsed(h, port);
    TargetStands(h, port);
    FieldsOfTarget(h, port);
  }

  lemma DummyIsLegal(p: Pieces)
    requires p == Pieces(['a' as int], None, p.host, p.port, [], None, None) && p.host.Legal()
    requires p.port.Some? && |p.port.value| > 0 && All(p.port.value, IsNum) && Decimal(0, p.port.value) <= 65535
    ensures Legal(p)
  {
    hide IsHostChar, IsAddressChar, IsZoneChar;
  }

  lemma FieldsOfTarget(h: HostName, port: seq<byte>)
    requires h.Legal()
    ensures
      var u := TargetFields(h, port);
      u.Keys == {Host, Port} && u[Host] == DividedTarget(h, port).host && u[Port] == DividedTarget(h, port).port.value
  {
    hide IsHostChar, IsAddressChar, IsZoneChar, All, Target;
    HostIsThere(h);
  }

  lemma HostIsThere(h: HostName)
    requires h.Legal()
    ensures |h.Text()| > 0
  {
    hide IsHostChar, IsAddressChar, IsZoneChar, All;
  }

  lemma TargetFinished(buf: seq<byte>, fields: Spans, x: Span, port: seq<byte>)
    requires fields.Keys == {Host, Port} && x.End() <= |buf| && buf[x.off..x.End()] == port
    requires All(port, IsNum) && Decimal(0, port) <= 65535
    ensures DigitsAt(buf, x) && Finished(buf, fields, Some(x), true) == Some(ParsedUrl(fields, Decimal(0, port)))
  {
    hide Decimal, IsNum;
    assert forall i :: x.off <= i < x.End() ==> buf[i] == port[i - x.off];
  }

  /** The CONNECT target "h:80", handed over without its last digit, has port 80. */
  lemma PortReadsOn()
    ensures
      var buf := ['h' as int, ':' as int, '8' as int];
      var r := ParseUrl(buf, true);
      && r.Some? && r.value.port == 8
      && ReadOn(r, buf, ['0' as int]) == Some(r.value.(port := 80))
  {
    hide ParseUrl, TargetFields;
    var h, port := Name(['h' as int]), ['8' as int];
    assert Target(h, port) == ['h' as int, ':' as int, '8' as int];
    OneDigit(0, '8' as int);
    OneDigit(8, '0' as int);
    TargetParsed(h, port);
    FieldsOfTarget(h, port);
  }
}
