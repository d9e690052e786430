/** The characters and targets of RFC 7230 and RFC 3986, and what the parser takes for them. */
module HttpGrammar {
  import opened HttpLog
  import opened HttpStep
  import opened HttpOptions
  import opened HttpMessage
  import opened HttpUrl

  predicate Between(b: byte, from: char, to: char) {
    from as int <= b <= to as int
  }

  predicate IsLetter(b: byte) {
    Between(b, 'A', 'Z') || Between(b, 'a', 'z')
  }

  predicate IsDigit(b: byte) {
    Between(b, '0', '9')
  }

  // ---- characters --------------------------------------------------------------------------

  /** A character of a token: section 3.2.6 of RFC 7230. */
  predicate IsTchar(b: byte) {
    IsLetter(b) || IsDigit(b) || (b < 128 && b as char in "!#$%&'*+-.^_`|~")
  }

  /** Tokens are made of exactly these characters, and are compared without letter case. */
  lemma TokenIs(b: byte)
    ensures Token(b) == if IsTchar(b) then Fold(b) else 0
  {}

  /** A character of a header value: visible ones, bytes from 128 on, blanks and tabs, as in section 3.2. */
  predicate IsFieldByte(b: byte) {
    Between(b, '!', '~') || 0x80 <= b || b == SPACE || b == TAB
  }

  lemma ValueByteIs(b: byte)
    ensures IsValueByte(b) <==> IsFieldByte(b)
  {}

  /** Section 2 of RFC 3986. */
  predicate IsUnreserved(b: byte) {
    IsLetter(b) || IsDigit(b) || (b < 128 && b as char in "-._~")
  }

  predicate IsSubDelim(b: byte) {
    b < 128 && b as char in "!$&'()*+,;="
  }

  /** A character of a path segment. */
  predicate IsPchar(b: byte) {
    IsUnreserved(b) || IsSubDelim(b) || (b < 128 && b as char in "%:@")
  }

  /** The user information and the host of an authority may have exactly the characters of section 3.2.1. */
  lemma UserinfoIs(b: byte)
    ensures IsUserinfoChar(b) <==> IsUnreserved(b) || IsSubDelim(b) || b == '%' as int || b == ':' as int
  {}

  /** A URL taken apart may have a host of letters, digits, hyphens and dots. */
  lemma HostIs(b: byte)
    ensures IsHostChar(b) <==> IsLetter(b) || IsDigit(b) || b == '-' as int || b == '.' as int
  {}

  // ---- targets -----------------------------------------------------------------------------

  predicate IsVisible(b: byte) {
    Between(b, '!', '~')
  }

  predicate AllVisible(t: seq<byte>) {
    forall i :: 0 <= i < |t| ==> IsVisible(t[i])
  }

  lemma {:induction false} UrlFromConcat(s: State, t: seq<byte>, u: seq<byte>)
    ensures UrlFrom(s, t + u) == UrlFrom(UrlFrom(s, t), u)
    decreases |u|
  {
    hide ParseUrlChar;
    if u == [] {
      assert t + u == t;
    } else {
      UrlFromConcat(s, t, u[..|u| - 1]);
      assert (t + u)[..|t + u| - 1] == t + u[..|u| - 1];
    }
  }

  /** In the path, the query and the fragment. */
  predicate PastHost(s: State) {
    || s.s_req_path? || s.s_req_query_string_start? || s.s_req_query_string? || s.s_req_fragment_start?
    || s.s_req_fragment?
  }

  lemma PastHostGoesOn(s: State, b: byte)
    requires PastHost(s)
    ensures if IsVisible(b) then PastHost(ParseUrlChar(s, b)) else ParseUrlChar(s, b).s_dead?
  {}

  lemma {:induction false} PastHostReads(s: State, t: seq<byte>)
    requires PastHost(s)
    ensures if AllVisible(t) then PastHost(UrlFrom(s, t)) else UrlFrom(s, t).s_dead?
  {
    hide ParseUrlChar, IsVisible;
    if t != [] {
      var init, b := t[..|t| - 1], t[|t| - 1];
      PastHostReads(s, init);
      if AllVisible(init) {
        PastHostGoesOn(UrlFrom(s, init), b);
        assert AllVisible(t) <==> IsVisible(b);
      } else {
        DeadStays(UrlFrom(s, init), b);
        assert !AllVisible(t) by {
          var i :| 0 <= i < |init| && !IsVisible(init[i]);
          assert t[i] == init[i];
        }
      }
    }
  }

  /** A target that begins with a slash, or with an asterisk, is legal exactly if all of it is visible ASCII, but for
      CONNECT. */
  lemma SlashTarget(v: Method, t: seq<byte>)
    requires !v.CONNECT? && |t| > 0 && (t[0] == '/' as int || t[0] == '*' as int)
    ensures IsTarget(v, t) <==> AllVisible(t)
  {
    UrlFromConcat(s_req_spaces_before_url, [t[0]], t[1..]);
    assert t == [t[0]] + t[1..];
    assert [t[0]][..0] == [];
    assert UrlFrom(s_req_spaces_before_url, []) == s_req_spaces_before_url;
    assert UrlFrom(s_req_spaces_before_url, [t[0]]) == s_req_path;
    PastHostReads(s_req_path, t[1..]);
    if AllVisible(t[1..]) {
      forall i | 0 <= i < |t|
        ensures IsVisible(t[i])
      {
        assert i > 0 ==> t[i] == t[1..][i - 1];
      }
    }
    if AllVisible(t) {
      assert forall i :: 0 <= i < |t[1..]| ==> t[1..][i] == t[i + 1];
    }
  }

  /** The origin form of section 5.3.1 of RFC 7230: an absolute path, and a query behind the first question mark. */
  predicate IsOriginForm(t: seq<byte>) {
    && |t| > 0 && t[0] == '/' as int
    && forall i :: 0 <= i < |t| ==> IsPchar(t[i]) || t[i] == '/' as int || t[i] == '?' as int
  }

  lemma OriginIsTarget(v: Method, t: seq<byte>)
    requires !v.CONNECT? && IsOriginForm(t)
    ensures IsTarget(v, t)
  {
    forall i | 0 <= i < |t|
      ensures IsVisible(t[i])
    {
      OriginVisible(t[i]);
    }
    SlashTarget(v, t);
  }

  lemma OriginVisible(b: byte)
    requires IsPchar(b) || b == '/' as int || b == '?' as int
    ensures IsVisible(b)
  {}

  // ---- the absolute form -------------------------------------------------------------------

  predicate IsAuthorityByte(b: byte) {
    IsUnreserved(b) || IsSubDelim(b) || (b < 128 && b as char in "%:[]@")
  }

  /** The characters of a host, a port and user information, and never two "@" in a row. */
  predicate IsAuthority(t: seq<byte>) {
    && |t| > 0 && (forall i :: 0 <= i < |t| ==> IsAuthorityByte(t[i]))
    && forall i :: 0 < i < |t| ==> t[i - 1] != '@' as int || t[i] != '@' as int
  }

  /** Section 5.3.2: a scheme of letters, an authority, and a path or a query, if any. */
  predicate IsAbsoluteForm(scheme: seq<byte>, authority: seq<byte>, rest: seq<byte>) {
    && |scheme| > 0 && (forall i :: 0 <= i < |scheme| ==> IsLetter(scheme[i])) && IsAuthority(authority)
    && (rest == [] || rest[0] == '/' as int || rest[0] == '?' as int) && AllVisible(rest)
  }

  const COLON_SLASHES: seq<byte> := [58, 47, 47]

  lemma {:induction false} SchemeReads(t: seq<byte>)
    requires |t| > 0 && forall i :: 0 <= i < |t| ==> IsLetter(t[i])
    ensures UrlFrom(s_req_spaces_before_url, t).s_req_schema?
    decreases |t|
  {
    if |t| > 1 {
      SchemeReads(t[..|t| - 1]);
    } else {
      assert t[..0] == [];
    }
  }

  lemma SlashesRead()
    ensures UrlFrom(s_req_schema, COLON_SLASHES).s_req_server_start?
  {
    var t := COLON_SLASHES;
    assert t[..2][..1] == [58] && t[..2][1] == 47 && [58 as byte][..0] == [];
    assert UrlFrom(s_req_schema, [58]) == s_req_schema_slash;
    assert UrlFrom(s_req_schema, t[..2]) == s_req_schema_slash_slash;
  }

  lemma {:induction false} AuthorityReads(t: seq<byte>)
    requires IsAuthority(t)
    ensures
      var s := UrlFrom(s_req_server_start, t);
      if t[|t| - 1] == '@' as int then s.s_req_server_with_at? else s.s_req_server?
    decreases |t|
  {
    var init, b := t[..|t| - 1], t[|t| - 1];
    if |t| > 1 {
      AuthorityReads(init);
      assert init[|init| - 1] == t[|t| - 2];
      AuthorityGoesOn(UrlFrom(s_req_server_start, init), b);
    } else {
      assert init == [];
      AuthorityGoesOn(s_req_server_start, b);
    }
  }

  lemma AuthorityGoesOn(s: State, b: byte)
    requires s.s_req_server_start? || s.s_req_server? || (s.s_req_server_with_at? && b != '@' as int)
    requires IsAuthorityByte(b)
    ensures
      var r := ParseUrlChar(s, b);
      if b == '@' as int then r.s_req_server_with_at? else r.s_req_server?
  {
    UserinfoIs(b);
    hide IsUserinfoChar;
  }

  /** The target of CONNECT is an authority: section 5.3.3 of RFC 7230. */
  lemma AuthorityIsTarget(t: seq<byte>)
    requires IsAuthority(t)
    ensures IsTarget(CONNECT, t)
  {
    AuthorityReads(t);
  }

  lemma HostEnds(s: State, b: byte)
    requires (s.s_req_server? || s.s_req_server_with_at?) && (b == '/' as int || b == '?' as int)
    ensures PastHost(ParseUrlChar(s, b))
  {}

  lemma AbsoluteIsTarget(v: Method, scheme: seq<byte>, authority: seq<byte>, rest: seq<byte>)
    requires !v.CONNECT? && IsAbsoluteForm(scheme, authority, rest)
    ensures IsTarget(v, scheme + (COLON_SLASHES + (authority + rest)))
  {
    hide ParseUrlChar;
    var start := s_req_spaces_before_url;
    UrlFromConcat(start, scheme, COLON_SLASHES + (authority + rest));
    SchemeReads(scheme);
    UrlFromConcat(s_req_schema, COLON_SLASHES, authority + rest);
    SlashesRead();
    UrlFromConcat(s_req_server_start, authority, rest);
    AuthorityReads(authority);
    var s := UrlFrom(s_req_server_start, authority);
    if rest == [] {
      assert UrlFrom(s, rest) == s;
    } else {
      RestReads(s, rest);
    }
  }

  lemma RestReads(s: State, rest: seq<byte>)
    requires (s.s_req_server? || s.s_req_server_with_at?) && AllVisible(rest)
    requires |rest| > 0 && (rest[0] == '/' as int || rest[0] == '?' as int)
    ensures PastHost(UrlFrom(s, rest))
  {
    hide ParseUrlChar;
    assert rest == [rest[0]] + rest[1..] && [rest[0]][..0] == [];
    UrlFromConcat(s, [rest[0]], rest[1..]);
    HostEnds(s, rest[0]);
    assert UrlFrom(s, []) == s;
    assert UrlFrom(s, [rest[0]]) == ParseUrlChar(s, rest[0]);
    PastHostReads(ParseUrlChar(s, rest[0]), rest[1..]);
  }
}
