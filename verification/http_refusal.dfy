/** Which request lines and header lines the parser takes, and that it refuses all others. */
module HttpRefusal {
  import opened HttpLog
  import opened HttpNumber
  import opened HttpStep
  import opened HttpRun
  import opened HttpOptions
  import opened HttpMessage

  predicate FailsWith(r: Progress, e: Errno) {
    r.how == Fail && r.q.errno == e
  }

  /** One byte, without its callbacks. */
  lemma ByteTaken(s: Progress, b: byte, m: Machine, cb: HeadersCompleteCallback)
    requires Runs(m, cb) && s.how == Go
    ensures m.step(s, b).q == Dispatch(s.q, b, cb).q && m.step(s, b).how == Dispatch(s.q, b, cb).how
  {
    hide Dispatch;
    Stepped(s, b, m, cb);
  }

  lemma StaysRefused(s: Progress, b: byte, e: Errno, m: Machine, cb: HeadersCompleteCallback)
    requires Runs(m, cb) && FailsWith(s, e)
    ensures m.step(s, b) == s
  {
    assert Watch(s, b);
  }

  // ---- methods -----------------------------------------------------------------------------

  /** The first `n` bytes are those of this method's name. */
  predicate BeginsMethod(w: seq<byte>, n: nat, v: Method) {
    && n <= |w| && n <= |MethodName(v)|
    && forall i :: 0 <= i < n ==> w[i] == MethodName(v)[i] as int
  }

  /** Two methods have the same first `n` characters. */
  predicate Share(u: Method, v: Method, n: nat) {
    && n <= |MethodName(u)| && n <= |MethodName(v)|
    && forall i :: 0 <= i < n ==> MethodName(v)[i] == MethodName(u)[i]
  }

  predicate Agrees(u: Method, n: nat, b: byte, v: Method) {
    Share(u, v, n) && n < |MethodName(v)| && MethodName(v)[n] as int == b
  }

  /** The parser supposes only methods that begin with what was read. */
  lemma SwitchAgrees(u: Method, n: nat, b: byte)
    ensures SwitchMethod(u, n, b).Known? ==> Agrees(u, n, b, SwitchMethod(u, n, b).m)
  {
    if u == POST || u == PUT || u == PROPFIND {
      SwitchFromP(u, n, b);
    } else if u == MKCOL || u == CONNECT {
      SwitchFromMC(u, n, b);
    } else {
      SwitchFromOthers(u, n, b);
    }
    hide Agrees;
  }

  lemma SwitchFromP(u: Method, n: nat, b: byte)
    requires u == POST || u == PUT || u == PROPFIND
    ensures SwitchMethod(u, n, b).Known? ==> Agrees(u, n, b, SwitchMethod(u, n, b).m)
  {}

  lemma SwitchFromMC(u: Method, n: nat, b: byte)
    requires u == MKCOL || u == CONNECT
    ensures SwitchMethod(u, n, b).Known? ==> Agrees(u, n, b, SwitchMethod(u, n, b).m)
  {}

  lemma SwitchFromOthers(u: Method, n: nat, b: byte)
    requires u != POST && u != PUT && u != PROPFIND && u != MKCOL && u != CONNECT
    ensures SwitchMethod(u, n, b).Known? ==> Agrees(u, n, b, SwitchMethod(u, n, b).m)
  {
    if u == UNLOCK {
      SwitchFromUnlock(n, b);
    } else if u == SUBSCRIBE || u == REPORT || u == LOCK {
      SwitchFromSrl(u, n, b);
    } else {
      assert SwitchMethod(u, n, b).Unknown?;
    }
    hide Agrees, SwitchMethod;
  }

  lemma SwitchFromUnlock(n: nat, b: byte)
    ensures SwitchMethod(UNLOCK, n, b).Known? ==> Agrees(UNLOCK, n, b, SwitchMethod(UNLOCK, n, b).m)
  {}

  lemma SwitchFromSrl(u: Method, n: nat, b: byte)
    requires u == SUBSCRIBE || u == REPORT || u == LOCK
    ensures SwitchMethod(u, n, b).Known? ==> Agrees(u, n, b, SwitchMethod(u, n, b).m)
  {}

  lemma FirstAgrees(b: byte)
    ensures
      match FirstMethod(b)
      case Known(v) => |MethodName(v)| > 1 && MethodName(v)[0] as int == b
      case Unknown => true
  {}

  lemma DashAgrees()
    ensures Agrees(MKCOL, 1, '-' as int, MSEARCH)
  {}

  lemma CharIsSpelled(v: Method, n: nat)
    requires n <= |MethodName(v)|
    ensures CharAt(MethodName(v), n) != SPACE && (CharAt(MethodName(v), n) == 0 <==> n == |MethodName(v)|)
  {
    if n < |MethodName(v)| {
      MethodChar(v, n);
    }
  }

  /** A byte of a method that is not the blank behind it. */
  lemma MethodByte(q: Fields, b: byte, cb: HeadersCompleteCallback)
    requires q.state.s_req_method? && q.index <= |MethodName(q.verb)| && b != SPACE
    ensures
      var o, n := Dispatch(q, b, cb), q.index;
      if o.how == Fail then o.q.errno == INVALID_METHOD
      else o.how == Go && o.q == q.(verb := o.q.verb, index := n + 1) && Agrees(q.verb, n, b, o.q.verb)
  {
    hide MethodName, SwitchMethod, Agrees, IsAlpha;
    SwitchAgrees(q.verb, q.index, b);
    DashAgrees();
    SameAgrees(q.verb, q.index, b);
  }

  lemma SameAgrees(u: Method, n: nat, b: byte)
    ensures b != 0 && b == CharAt(MethodName(u), n) ==> Agrees(u, n, b, u)
  {
    hide MethodName;
  }

  lemma MethodBlank(q: Fields, cb: HeadersCompleteCallback)
    requires q.state.s_req_method? && q.index <= |MethodName(q.verb)|
    ensures
      var o := Dispatch(q, SPACE, cb);
      if q.index == |MethodName(q.verb)| then o == To(q.(index := q.index + 1), s_req_spaces_before_url)
      else o.how == Fail && o.q.errno == INVALID_METHOD
  {
    CharIsSpelled(q.verb, q.index);
    hide MethodName, SwitchMethod;
  }

  lemma FirstByte(q: Fields, b: byte, cb: HeadersCompleteCallback)
    requires Waits(q, false) && b != CR && b != LF
    ensures
      var o := Dispatch(q, b, cb);
      if o.how == Fail then o.q.errno == INVALID_METHOD
      else o.how == Go && o.q.state.s_req_method? && o.q.index == 1 && Clean(o.q, o.q.verb)
           && |MethodName(o.q.verb)| > 1 && MethodName(o.q.verb)[0] as int == b
  {
    hide MethodName, FirstMethod, IsAlpha;
    FirstAgrees(b);
  }

  predicate InMethod(r: Progress, w: seq<byte>, n: nat) {
    && r.how == Go && r.q.state.s_req_method? && r.q.index == n && Clean(r.q, r.q.verb) && BeginsMethod(w, n, r.q.verb)
  }

  lemma {:induction false} MethodFront(s: Progress, w: seq<byte>, n: nat, m: Machine, cb: HeadersCompleteCallback)
    requires Runs(m, cb) && s.how == Go && Waits(s.q, false) && 1 <= n <= |w| && w[0] != CR && w[0] != LF
    requires forall i :: 0 <= i < |w| ==> w[i] != SPACE
    ensures
      var r := RunTo(s, w, n, m);
      FailsWith(r, INVALID_METHOD) || InMethod(r, w, n)
    decreases n
  {
    hide Runs, Dispatch, MethodName, Agrees;
    var before, b := RunTo(s, w, n - 1, m), w[n - 1];
    if n == 1 {
      assert before == s;
      FirstByte(s.q, b, cb);
      ByteTaken(s, b, m, cb);
    } else {
      MethodFront(s, w, n - 1, m, cb);
      if before.how == Go {
        MethodByte(before.q, b, cb);
        ByteTaken(before, b, m, cb);
        if m.step(before, b).how == Go {
          BeginsMore(w, n - 1, before.q.verb, m.step(before, b).q.verb);
        }
      } else {
        StaysRefused(before, b, INVALID_METHOD, m, cb);
      }
    }
  }

  lemma BeginsMore(w: seq<byte>, n: nat, u: Method, v: Method)
    requires n < |w| && BeginsMethod(w, n, u) && Agrees(u, n, w[n], v)
    ensures BeginsMethod(w, n + 1, v)
  {
    hide MethodName;
  }

  ghost predicate IsMethod(w: seq<byte>, v: Method) {
    w == Bytes(MethodName(v))
  }

  /** A word is taken exactly if it is the name of a method, and then for that method. */
  lemma MethodTaken(s: Progress, w: seq<byte>, m: Machine, cb: HeadersCompleteCallback)
    requires Runs(m, cb) && s.how == Go && Waits(s.q, false) && |w| > 0 && w[0] != CR && w[0] != LF
    requires forall i :: 0 <= i < |w| ==> w[i] != SPACE
    ensures
      var r := Run(s, w + [SPACE], m);
      if exists v :: IsMethod(w, v) then
        r.how == Go && r.q.state.s_req_spaces_before_url? && IsMethod(w, r.q.verb) && Clean(r.q, r.q.verb)
      else FailsWith(r, INVALID_METHOD)
  {
    hide Runs, Dispatch, MethodName, Run, RunTo, Bytes, BeginsMethod;
    var a := Run(s, w, m);
    MethodFront(s, w, |w|, m, cb);
    WholeRun(s, w, m);
    RunConcat(s, w, [SPACE], m);
    RunOne(a, SPACE, m);
    if v :| IsMethod(w, v) {
      FirstVerb(v);
      MethodRead(s, v, |w|, m, cb);
      MethodEnds(a.q, v, cb);
      ByteTaken(a, SPACE, m, cb);
    } else if a.how == Go {
      BeginsAll(w, a.q.verb);
      MethodBlank(a.q, cb);
      ByteTaken(a, SPACE, m, cb);
    } else {
      StaysRefused(a, SPACE, INVALID_METHOD, m, cb);
    }
  }

  lemma BeginsAll(w: seq<byte>, v: Method)
    requires BeginsMethod(w, |w|, v)
    ensures |w| <= |MethodName(v)| && (|w| == |MethodName(v)| ==> IsMethod(w, v))
  {
    hide MethodName;
    if |w| == |MethodName(v)| {
      forall i | 0 <= i < |w|
        ensures w[i] == Bytes(MethodName(v))[i]
      {
        MethodChar(v, i);
      }
    }
  }

  // ---- targets -----------------------------------------------------------------------------

  lemma UrlByte(q: Fields, u: State, b: byte, cb: HeadersCompleteCallback)
    requires if q.state.s_req_spaces_before_url? then u == UrlStart(q.verb) else IsUrlState(q.state) && u == q.state
    requires b != SPACE && b != CR && b != LF
    ensures
      var o, v := Dispatch(q, b, cb), ParseUrlChar(u, b);
      if v.s_dead? then o.how == Fail && o.q.errno == INVALID_URL
      else o.how == Go && o.q == q.(state := v) && IsUrlState(v)
  {
    UrlCharState(u, b);
    hide ParseUrlChar;
  }

  lemma {:induction false} TargetFront(s: Progress, t: seq<byte>, n: nat, m: Machine, cb: HeadersCompleteCallback)
    requires Runs(m, cb) && s.how == Go && s.q.state.s_req_spaces_before_url? && 1 <= n <= |t|
    requires forall i :: 0 <= i < |t| ==> t[i] != SPACE && t[i] != CR && t[i] != LF
    ensures
      var r, u := RunTo(s, t, n, m), UrlFrom(UrlStart(s.q.verb), t[..n]);
      if u.s_dead? then FailsWith(r, INVALID_URL) else r.how == Go && r.q == s.q.(state := u) && IsUrlState(u)
    decreases n
  {
    hide Runs, Dispatch, ParseUrlChar, IsUrlState;
    var before, b, start := RunTo(s, t, n - 1, m), t[n - 1], UrlStart(s.q.verb);
    assert t[..n][..n - 1] == t[..n - 1] && t[..n] == t[..n - 1] + [b];
    if n == 1 {
      assert t[..0] == [] && before == s;
      UrlByte(s.q, start, b, cb);
      ByteTaken(s, b, m, cb);
    } else {
      TargetFront(s, t, n - 1, m, cb);
      if before.how == Go {
        NotYetUrl();
        UrlByte(before.q, before.q.state, b, cb);
        ByteTaken(before, b, m, cb);
      } else {
        DeadStays(UrlFrom(start, t[..n - 1]), b);
        StaysRefused(before, b, INVALID_URL, m, cb);
      }
    }
  }

  lemma UrlBlank(q: Fields, cb: HeadersCompleteCallback)
    requires IsUrlState(q.state)
    ensures
      var o := Dispatch(q, SPACE, cb);
      if IsLateUrlState(q.state) then o == After(Deliver(Url), To(q, s_req_http_start))
      else o.how == Fail && o.q.errno == INVALID_URL
  {}

  /** A target is taken exactly if it is a legal one. */
  lemma TargetTaken(s: Progress, t: seq<byte>, m: Machine, cb: HeadersCompleteCallback)
    requires Runs(m, cb) && s.how == Go && s.q.state.s_req_spaces_before_url? && |t| > 0
    requires forall i :: 0 <= i < |t| ==> t[i] != SPACE && t[i] != CR && t[i] != LF
    ensures
      var r := Run(s, t + [SPACE], m);
      if IsTarget(s.q.verb, t) then r.how == Go && r.q == s.q.(state := s_req_http_start) else FailsWith(r, INVALID_URL)
  {
    hide Runs, Dispatch, Run, RunTo, ParseUrlChar;
    var a := Run(s, t, m);
    TargetFront(s, t, |t|, m, cb);
    WholeRun(s, t, m);
    assert t[..|t|] == t;
    RunConcat(s, t, [SPACE], m);
    RunOne(a, SPACE, m);
    if a.how == Go {
      UrlBlank(a.q, cb);
      ByteTaken(a, SPACE, m, cb);
    } else {
      StaysRefused(a, SPACE, INVALID_URL, m, cb);
    }
  }

  // ---- versions ----------------------------------------------------------------------------

  const HTTP_SLASH: seq<byte> := [72, 84, 84, 80, 47]
  const POINT: byte := 46

  predicate IsMajor(d: seq<byte>) {
    |d| > 0 && IsNumeral(d) && d[0] != '0' as int && Decimal(0, d) <= 999
  }

  predicate IsMinor(d: seq<byte>) {
    |d| > 0 && IsNumeral(d) && Decimal(0, d) <= 999
  }

  function VersionWith(major: seq<byte>, minor: seq<byte>): seq<byte> {
    HTTP_SLASH + (major + ([POINT] + minor))
  }

  /** What has been read of a version in each state. */
  predicate Shape(q: Fields, u: seq<byte>, d: seq<byte>, e: seq<byte>) {
    match q.state
    case s_req_http_start => u == []
    case s_req_http_H => u == HTTP_SLASH[..1]
    case s_req_http_HT => u == HTTP_SLASH[..2]
    case s_req_http_HTT => u == HTTP_SLASH[..3]
    case s_req_http_HTTP => u == HTTP_SLASH[..4]
    case s_req_first_http_major => u == HTTP_SLASH
    case s_req_http_major => u == HTTP_SLASH + d && IsMajor(d) && q.httpMajor == Decimal(0, d)
    case s_req_first_http_minor => u == HTTP_SLASH + (d + [POINT]) && IsMajor(d) && q.httpMajor == Decimal(0, d)
    case s_req_http_minor =>
      && u == VersionWith(d, e) && IsMajor(d) && IsMinor(e)
      && q.httpMajor == Decimal(0, d) && q.httpMinor == Decimal(0, e)
    case _ => false
  }

  lemma OneMoreDigit(d: seq<byte>, b: byte)
    requires IsNumeral(d) && IsNum(b)
    ensures IsNumeral(d + [b]) && Decimal(0, d + [b]) == Decimal(0, d) * 10 + Digit(b)
  {
    DecimalConcat(0, d, [b]);
    OneDigit(Decimal(0, d), b);
  }

  /** One byte of a version that is no line end. */
  lemma VersionByteTaken(q: Fields, u: seq<byte>, d: seq<byte>, e: seq<byte>, b: byte, cb: HeadersCompleteCallback)
    returns (d': seq<byte>, e': seq<byte>)
    requires Shape(q, u, d, e) && b != CR && b != LF && (u == [] ==> b != SPACE)
    ensures
      var o := Dispatch(q, b, cb);
      o.how == Fail
      || (o.how == Go && o.q == q.(state := o.q.state, httpMajor := o.q.httpMajor, httpMinor := o.q.httpMinor)
          && Shape(o.q, u + [b], d', e'))
  {
    hide Dispatch, OnRequestLine, IsNumeral, Decimal;
    d', e' := d, e;
    InRequestLine(q, b, cb);
    if q.state.s_req_http_major? || q.state.s_req_http_minor? {
      if IsNum(b) {
        MoreDigits(q, u, d, e, b);
        if q.state.s_req_http_major? {
          d' := d + [b];
        } else {
          e' := e + [b];
        }
      } else {
        PointTaken(q, u, d, b);
      }
    } else if q.state.s_req_first_http_major? || q.state.s_req_first_http_minor? {
      FirstDigitTaken(q, u, d, b);
      if q.state.s_req_first_http_major? {
        d' := [b];
      } else {
        e' := [b];
      }
    } else {
      ProtocolTaken(q, u, d, e, b);
    }
  }

  lemma ProtocolTaken(q: Fields, u: seq<byte>, d: seq<byte>, e: seq<byte>, b: byte)
    requires Shape(q, u, d, e) && (u == [] ==> b != SPACE) && |u| < 5
    ensures
      var o := OnRequestLine(q, b);
      o.how == Fail || (o.how == Go && o.q == q.(state := o.q.state) && Shape(o.q, u + [b], d, e))
  {
    hide IsMajor, IsMinor;
  }

  lemma FirstDigitTaken(q: Fields, u: seq<byte>, d: seq<byte>, b: byte)
    requires Shape(q, u, d, []) && (q.state.s_req_first_http_major? || q.state.s_req_first_http_minor?)
    ensures
      var o := OnRequestLine(q, b);
      || o.how == Fail
      || (o.how == Go && o.q == q.(state := o.q.state, httpMajor := o.q.httpMajor, httpMinor := o.q.httpMinor)
          && Shape(o.q, u + [b], if q.state.s_req_first_http_major? then [b] else d, [b]))
  {
    if IsNum(b) {
      OneDigit(0, b);
      assert (HTTP_SLASH + (d + [POINT])) + [b] == VersionWith(d, [b]);
    }
    hide Decimal;
  }

  lemma MoreDigits(q: Fields, u: seq<byte>, d: seq<byte>, e: seq<byte>, b: byte)
    requires Shape(q, u, d, e) && (q.state.s_req_http_major? || q.state.s_req_http_minor?) && IsNum(b)
    ensures
      var o := OnRequestLine(q, b);
      || o.how == Fail
      || (o.how == Go && o.q == q.(httpMajor := o.q.httpMajor, httpMinor := o.q.httpMinor)
          && if q.state.s_req_http_major? then Shape(o.q, u + [b], d + [b], e) else Shape(o.q, u + [b], d, e + [b]))
  {
    hide Decimal, IsNumeral;
    if q.state.s_req_http_major? {
      OneMoreDigit(d, b);
      assert (HTTP_SLASH + d) + [b] == HTTP_SLASH + (d + [b]);
    } else {
      OneMoreDigit(e, b);
      assert VersionWith(d, e) + [b] == VersionWith(d, e + [b]);
    }
  }

  lemma PointTaken(q: Fields, u: seq<byte>, d: seq<byte>, b: byte)
    requires (q.state.s_req_http_major? && Shape(q, u, d, [])) || q.state.s_req_http_minor?
    requires !IsNum(b) && b != CR && b != LF
    ensures
      var o := OnRequestLine(q, b);
      o.how == Fail || (o.how == Go && o.q == q.(state := o.q.state) && forall e :: Shape(o.q, u + [b], d, e))
  {
    hide Decimal, IsNumeral;
    assert (HTTP_SLASH + d) + [POINT] == HTTP_SLASH + (d + [POINT]);
  }

  /** Nothing but state and version changes. */
  predicate VersionOnly(q: Fields, p: Fields) {
    p == q.(state := p.state, httpMajor := p.httpMajor, httpMinor := p.httpMinor)
  }

  lemma {:induction false} VersionFront(s: Progress, x: seq<byte>, n: nat, m: Machine, cb: HeadersCompleteCallback)
    returns (d: seq<byte>, e: seq<byte>)
    requires Runs(m, cb) && s.how == Go && s.q.state.s_req_http_start? && n <= |x| && |x| > 0 && x[0] != SPACE
    requires forall i :: 0 <= i < |x| ==> x[i] != CR && x[i] != LF
    ensures
      var r := RunTo(s, x, n, m);
      r.how == Fail || (r.how == Go && VersionOnly(s.q, r.q) && Shape(r.q, x[..n], d, e))
    decreases n
  {
    hide Runs, Dispatch, Shape;
    d, e := [], [];
    if n == 0 {
      NothingShaped(s.q);
      assert x[..0] == [];
    } else {
      var before, b := RunTo(s, x, n - 1, m), x[n - 1];
      assert x[..n] == x[..n - 1] + [b];
      d, e := VersionFront(s, x, n - 1, m, cb);
      if before.how == Go {
        ByteTaken(before, b, m, cb);
        d, e := VersionByteTaken(before.q, x[..n - 1], d, e, b, cb);
      } else {
        assert Watch(before, b);
        StaysFailed(before, b, m, cb);
      }
    }
  }

  lemma StaysFailed(s: Progress, b: byte, m: Machine, cb: HeadersCompleteCallback)
    requires Runs(m, cb) && s.how == Fail
    ensures m.step(s, b) == s
  {
    assert Watch(s, b);
  }

  lemma NothingShaped(q: Fields)
    requires q.state.s_req_http_start?
    ensures Shape(q, [], [], [])
  {}

  lemma VersionLineEnds(q: Fields, u: seq<byte>, d: seq<byte>, e: seq<byte>, cb: HeadersCompleteCallback)
    requires Shape(q, u, d, e)
    ensures
      var o := Dispatch(q, CR, cb);
      if q.state.s_req_http_minor? then o == To(q, s_req_line_almost_done) else o.how == Fail
  {
    hide IsMajor, IsMinor;
  }

  lemma LineFeedTaken(q: Fields, cb: HeadersCompleteCallback)
    requires q.state.s_req_line_almost_done?
    ensures Dispatch(q, LF, cb) == To(q, s_header_field_start)
  {}

  ghost predicate IsVersionText(x: seq<byte>) {
    exists d, e :: IsVersionOf(x, d, e)
  }

  predicate IsVersionOf(x: seq<byte>, d: seq<byte>, e: seq<byte>) {
    x == VersionWith(d, e) && IsMajor(d) && IsMinor(e)
  }

  lemma ShapeIsVersion(q: Fields, u: seq<byte>, d: seq<byte>, e: seq<byte>)
    requires Shape(q, u, d, e) && q.state.s_req_http_minor?
    ensures IsVersionOf(u, d, e) && q.httpMajor == Decimal(0, d) && q.httpMinor == Decimal(0, e)
  {}

  // ---- versions that are taken -------------------------------------------------------------

  /** The parser in front of the `n`-th byte of a version. */
  function VersionAt(q: Fields, d: seq<byte>, e: seq<byte>, n: nat): Fields {
    var k := 5 + |d|;
    if n == 0 then q.(state := s_req_http_start)
    else if n == 1 then q.(state := s_req_http_H)
    else if n == 2 then q.(state := s_req_http_HT)
    else if n == 3 then q.(state := s_req_http_HTT)
    else if n == 4 then q.(state := s_req_http_HTTP)
    else if n == 5 then q.(state := s_req_first_http_major)
    else if n <= k then q.(state := s_req_http_major, httpMajor := Decimal(0, d[..n - 5]))
    else if n == k + 1 then q.(state := s_req_first_http_minor, httpMajor := Decimal(0, d))
    else
      q.(state := s_req_http_minor, httpMajor := Decimal(0, d),
         httpMinor := if n - (k + 1) <= |e| then Decimal(0, e[..n - (k + 1)]) else 0)
  }

  lemma ProtocolAt(q: Fields, d: seq<byte>, e: seq<byte>, n: nat)
    requires n < 5
    ensures OnRequestLine(VersionAt(q, d, e, n), VersionWith(d, e)[n]) == Next(VersionAt(q, d, e, n + 1))
  {
    assert VersionWith(d, e)[n] == HTTP_SLASH[n];
  }

  lemma {:induction false} FrontSmall(d: seq<byte>, n: nat)
    requires IsNumeral(d) && n <= |d|
    ensures IsNumeral(d[..n]) && Decimal(0, d[..n]) <= Decimal(0, d)
  {
    assert d == d[..n] + d[n..];
    DecimalConcat(0, d[..n], d[n..]);
    DecimalGrows(Decimal(0, d[..n]), d[n..]);
  }

  /** A digit of a number that fits. */
  lemma DigitFits(d: seq<byte>, n: nat)
    requires IsNumeral(d) && n < |d| && Decimal(0, d) <= 999
    ensures IsNum(d[n]) && Decimal(0, d[..n + 1]) == Decimal(0, d[..n]) * 10 + Digit(d[n]) <= 999
    ensures n == 0 ==> Decimal(0, d[..1]) == Digit(d[0])
  {
    FrontSmall(d, n);
    FrontSmall(d, n + 1);
    assert d[..n + 1] == d[..n] + [d[n]];
    OneMoreDigit(d[..n], d[n]);
    assert Decimal(0, d[..0]) == 0;
  }

  lemma MajorAt(q: Fields, d: seq<byte>, e: seq<byte>, n: nat)
    requires IsMajor(d) && 5 <= n < 5 + |d|
    ensures OnRequestLine(VersionAt(q, d, e, n), VersionWith(d, e)[n]) == Next(VersionAt(q, d, e, n + 1))
  {
    assert VersionWith(d, e)[n] == d[n - 5];
    DigitFits(d, n - 5);
    hide Decimal;
  }

  lemma PointAt(q: Fields, d: seq<byte>, e: seq<byte>)
    requires IsMajor(d)
    ensures
      var n := 5 + |d|;
      OnRequestLine(VersionAt(q, d, e, n), VersionWith(d, e)[n]) == Next(VersionAt(q, d, e, n + 1))
  {
    assert VersionWith(d, e)[5 + |d|] == POINT && d[..|d|] == d;
    hide Decimal;
  }

  lemma MinorAt(q: Fields, d: seq<byte>, e: seq<byte>, n: nat)
    requires IsMajor(d) && IsMinor(e) && 6 + |d| <= n < 6 + |d| + |e|
    ensures OnRequestLine(VersionAt(q, d, e, n), VersionWith(d, e)[n]) == Next(VersionAt(q, d, e, n + 1))
  {
    var i := n - (6 + |d|);
    assert VersionWith(d, e)[n] == e[i];
    DigitFits(e, i);
    hide Decimal;
  }

  lemma {:induction false} VersionTakenTo(s: Progress, d: seq<byte>, e: seq<byte>, n: nat, m: Machine,
                                          cb: HeadersCompleteCallback)
    requires Runs(m, cb) && s.how == Go && s.q.state.s_req_http_start? && IsMajor(d) && IsMinor(e)
    requires n <= |VersionWith(d, e)|
    ensures var r := RunTo(s, VersionWith(d, e), n, m); r.how == Go && r.q == VersionAt(s.q, d, e, n)
    decreases n
  {
    hide Runs, Dispatch, VersionAt, IsMajor, IsMinor, OnRequestLine;
    if n == 0 {
      StartsAt(s.q, d, e);
    } else {
      var k := n - 1;
      var before, b := RunTo(s, VersionWith(d, e), k, m), VersionWith(d, e)[k];
      VersionTakenTo(s, d, e, k, m, cb);
      if k < 5 {
        ProtocolAt(s.q, d, e, k);
      } else if k < 5 + |d| {
        MajorAt(s.q, d, e, k);
      } else if k == 5 + |d| {
        PointAt(s.q, d, e);
      } else {
        MinorAt(s.q, d, e, k);
      }
      InLineAt(s.q, d, e, k, b, cb);
      ByteTaken(before, b, m, cb);
    }
  }

  lemma StartsAt(q: Fields, d: seq<byte>, e: seq<byte>)
    requires q.state.s_req_http_start?
    ensures q == VersionAt(q, d, e, 0)
  {}

  lemma InLineAt(q: Fields, d: seq<byte>, e: seq<byte>, n: nat, b: byte, cb: HeadersCompleteCallback)
    ensures Dispatch(VersionAt(q, d, e, n), b, cb) == OnRequestLine(VersionAt(q, d, e, n), b)
  {
    hide Decimal, OnRequestLine;
  }

  lemma VersionAtEnd(q: Fields, d: seq<byte>, e: seq<byte>)
    requires IsMajor(d) && IsMinor(e)
    ensures
      var r := VersionAt(q, d, e, |VersionWith(d, e)|);
      r == q.(state := s_req_http_minor, httpMajor := Decimal(0, d), httpMinor := Decimal(0, e))
  {
    assert e[..|e|] == e;
  }

  /** A version is taken exactly if it is "HTTP/" and two numbers up to 999 with a point between them, the first of
      which does not begin with a zero. */
  lemma VersionTaken(s: Progress, x: seq<byte>, m: Machine, cb: HeadersCompleteCallback)
    requires Runs(m, cb) && s.how == Go && s.q.state.s_req_http_start? && |x| > 0 && x[0] != SPACE
    requires forall i :: 0 <= i < |x| ==> x[i] != CR && x[i] != LF
    ensures
      var r := Run(s, x + [CR, LF], m);
      if IsVersionText(x) then
        && r.how == Go && r.q.state.s_header_field_start? && VersionOnly(s.q, r.q)
        && exists d, e :: IsVersionOf(x, d, e) && r.q.httpMajor == Decimal(0, d) && r.q.httpMinor == Decimal(0, e)
      else r.how == Fail
  {
    hide Runs, Dispatch, Run, RunTo, Shape, IsVersionOf, VersionAt, VersionWith;
    var a := Run(s, x, m);
    WholeRun(s, x, m);
    RunConcat(s, x, [CR, LF], m);
    TwoSteps(a, CR, LF, m);
    if IsVersionText(x) {
      var d, e :| IsVersionOf(x, d, e);
      VersionParts(x, d, e);
      VersionTakenTo(s, d, e, |x|, m, cb);
      VersionAtEnd(s.q, d, e);
      MinorEnds(a.q, cb);
      ByteTaken(a, CR, m, cb);
      LineFeedTaken(m.step(a, CR).q, cb);
      ByteTaken(m.step(a, CR), LF, m, cb);
    } else {
      var d, e := VersionFront(s, x, |x|, m, cb);
      assert x[..|x|] == x;
      if a.how == Go {
        VersionLineEnds(a.q, x, d, e, cb);
        ByteTaken(a, CR, m, cb);
        if a.q.state.s_req_http_minor? {
          ShapeIsVersion(a.q, x, d, e);
        }
      } else {
        StaysFailed(a, CR, m, cb);
      }
      StaysOver(m.step(a, CR), LF, m, cb);
    }
  }

  lemma VersionParts(x: seq<byte>, d: seq<byte>, e: seq<byte>)
    requires IsVersionOf(x, d, e)
    ensures x == VersionWith(d, e) && IsMajor(d) && IsMinor(e)
  {}

  lemma MinorEnds(q: Fields, cb: HeadersCompleteCallback)
    requires q.state.s_req_http_minor?
    ensures Dispatch(q, CR, cb) == To(q, s_req_line_almost_done)
  {}

  lemma StaysOver(s: Progress, b: byte, m: Machine, cb: HeadersCompleteCallback)
    requires Runs(m, cb)
    ensures s.how == Fail ==> m.step(s, b) == s
  {
    assert Watch(s, b);
  }

  // ---- request lines -----------------------------------------------------------------------

  /** Three words with a blank between them: the first two without blanks, the last beginning with none, and no line end
      in any. */
  predicate ThreeWords(w: seq<byte>, t: seq<byte>, x: seq<byte>) {
    && |w| > 0 && |t| > 0 && |x| > 0 && x[0] != SPACE && w[0] != CR && w[0] != LF
    && (forall i :: 0 <= i < |w| ==> w[i] != SPACE)
    && (forall i :: 0 <= i < |t| ==> t[i] != SPACE && t[i] != CR && t[i] != LF)
    && forall i :: 0 <= i < |x| ==> x[i] != CR && x[i] != LF
  }

  function WordsLine(w: seq<byte>, t: seq<byte>, x: seq<byte>): seq<byte> {
    (w + [SPACE]) + ((t + [SPACE]) + (x + [CR, LF]))
  }

  ghost predicate IsRequestLine(w: seq<byte>, t: seq<byte>, x: seq<byte>) {
    exists v :: IsMethod(w, v) && IsTarget(v, t) && IsVersionText(x)
  }

  /** A request line is taken exactly if it is the name of a method, a legal target for it and a version. */
  lemma RequestLineTaken(s: Progress, w: seq<byte>, t: seq<byte>, x: seq<byte>, m: Machine,
                         cb: HeadersCompleteCallback)
    requires Runs(m, cb) && s.how == Go && Waits(s.q, false) && ThreeWords(w, t, x)
    ensures
      var r := Run(s, WordsLine(w, t, x), m);
      if IsRequestLine(w, t, x) then r.how == Go && r.q.state.s_header_field_start? && IsMethod(w, r.q.verb)
      else r.how == Fail
  {
    hide Runs, Run, IsTarget, IsVersionText, IsMethod;
    var a := Run(s, w + [SPACE], m);
    MethodTaken(s, w, m, cb);
    RunConcat(s, w + [SPACE], (t + [SPACE]) + (x + [CR, LF]), m);
    if a.how == Go {
      var b := Run(a, t + [SPACE], m);
      TargetTaken(a, t, m, cb);
      RunConcat(a, t + [SPACE], x + [CR, LF], m);
      forall v | IsMethod(w, v)
        ensures v == a.q.verb
      {
        OneMethod(w, v, a.q.verb);
      }
      if b.how == Go {
        VersionTaken(b, x, m, cb);
      } else {
        FailedRun(b, x + [CR, LF], m, cb);
      }
    } else {
      FailedRun(a, (t + [SPACE]) + (x + [CR, LF]), m, cb);
    }
  }

  lemma {:induction false} FailedRun(s: Progress, data: seq<byte>, m: Machine, cb: HeadersCompleteCallback)
    requires Runs(m, cb) && s.how == Fail
    ensures Run(s, data, m) == s
  {
    RunStuck(s, data, 0, |data|, m);
  }

  /** No two methods have the same name. */
  lemma OneMethod(w: seq<byte>, u: Method, v: Method)
    requires IsMethod(w, u) && IsMethod(w, v)
    ensures u == v
  {
    SameLetters(w, u, v);
    NamesDiffer(u, v);
  }

  lemma SameLetters(w: seq<byte>, u: Method, v: Method)
    requires IsMethod(w, u) && IsMethod(w, v)
    ensures MethodName(u) == MethodName(v)
  {
    hide MethodName;
    forall i | 0 <= i < |w|
      ensures MethodName(u)[i] == MethodName(v)[i]
    {
      MethodChar(u, i);
      MethodChar(v, i);
    }
  }

  lemma NamesDiffer(u: Method, v: Method)
    ensures MethodName(u) == MethodName(v) ==> u == v
  {
  }

  // ---- names of headers --------------------------------------------------------------------

  lemma NameByte(q: Fields, b: byte, cb: HeadersCompleteCallback)
    requires q.state.s_header_field? && IsFieldState(q.headerState) && b != ':' as int
    ensures
      var o := Dispatch(q, b, cb);
      if Token(b) == 0 then o.how == Fail && o.q.errno == INVALID_HEADER_TOKEN
      else o.how == Go && o.q == q.(headerState := o.q.headerState, index := o.q.index) && IsFieldState(o.q.headerState)
  {
    hide Token, MatchName;
    MatchesStay(q.headerState, q.index, b, Token(b));
  }

  lemma MatchesStay(h: HeaderState, index: nat, ch: byte, c: byte)
    requires IsFieldState(h)
    ensures IsFieldState(FieldChar(h, index, ch, c).0)
  {}

  lemma FirstNameByte(q: Fields, b: byte, cb: HeadersCompleteCallback)
    requires q.state.s_header_field_start? && b != CR && b != LF
    ensures
      var o := Dispatch(q, b, cb);
      if Token(b) == 0 then o.how == Fail && o.q.errno == INVALID_HEADER_TOKEN
      else
        && o.how == Go && o.q == q.(state := s_header_field, headerState := o.q.headerState, index := 0)
        && IsFieldState(o.q.headerState)
  {
    hide Token;
  }

  predicate TokenFront(name: seq<byte>, n: nat)
    requires n <= |name|
  {
    forall i :: 0 <= i < n ==> Token(name[i]) != 0
  }

  lemma {:induction false} NameFront(s: Progress, v: Line, f: Frame, log: seq<Event>, name: seq<byte>, n: nat,
                                     m: Machine, cb: HeadersCompleteCallback)
    requires Runs(m, cb) && AtLine(s, v, f, log) && 1 <= n <= |name|
    requires name[0] != SPACE && name[0] != TAB && name[0] != CR && name[0] != LF
    requires forall i :: 0 <= i < |name| ==> name[i] != ':' as int
    ensures
      var r := RunTo(s, name, n, m);
      if TokenFront(name, n) then
        r.how == Go && r.q.state.s_header_field? && IsFieldState(r.q.headerState) && Head(r.q, v, f)
      else FailsWith(r, INVALID_HEADER_TOKEN)
    decreases n
  {
    hide Runs, Dispatch, Token, Settled, SettledLog, Head, IsFieldState;
    var before, b := RunTo(s, name, n - 1, m), name[n - 1];
    if n == 1 {
      var t := s.(q := Settled(s.q), log := SettledLog(s));
      assert before == s;
      LineSettles(s, b, m, cb);
      FirstNameByte(t.q, b, cb);
      ByteTaken(t, b, m, cb);
      if Token(b) != 0 {
        HeadAlike(t.q, m.step(s, b).q, v, f);
      }
    } else {
      NameFront(s, v, f, log, name, n - 1, m, cb);
      if before.how == Go {
        NameByte(before.q, b, cb);
        ByteTaken(before, b, m, cb);
        if Token(b) != 0 {
          HeadAlike(before.q, m.step(before, b).q, v, f);
        }
      } else {
        StaysRefused(before, b, INVALID_HEADER_TOKEN, m, cb);
      }
    }
  }

  /** The name of a header is taken exactly if it is a token. */
  lemma NameTaken(s: Progress, v: Line, f: Frame, log: seq<Event>, name: seq<byte>, m: Machine,
                  cb: HeadersCompleteCallback)
    requires Runs(m, cb) && AtLine(s, v, f, log) && |name| > 0
    requires name[0] != SPACE && name[0] != TAB && name[0] != CR && name[0] != LF
    requires forall i :: 0 <= i < |name| ==> name[i] != ':' as int
    ensures
      var r := Run(s, name + [':' as int], m);
      if IsToken(name) then r.how == Go && r.q.state.s_header_value_discard_ws? && Head(r.q, v, f)
      else FailsWith(r, INVALID_HEADER_TOKEN)
  {
    hide Runs, Dispatch, Run, RunTo, AtLine, Head, Token;
    var a := Run(s, name, m);
    NameFront(s, v, f, log, name, |name|, m, cb);
    WholeRun(s, name, m);
    RunConcat(s, name, [':' as int], m);
    RunOne(a, ':' as int, m);
    if a.how == Go {
      ColonEnds(a.q, cb);
      ByteTaken(a, ':' as int, m, cb);
      HeadStays(a.q, s_header_value_discard_ws, v, f);
    } else {
      StaysRefused(a, ':' as int, INVALID_HEADER_TOKEN, m, cb);
    }
  }

  // ---- values of headers -------------------------------------------------------------------

  /** The states in which a value is read that is no length. */
  predicate Reading(h: HeaderState) {
    !h.h_connection? && !h.h_transfer_encoding? && !h.h_content_length?
  }

  lemma ReadingStays(q: Fields, b: byte)
    requires Reading(q.headerState)
    ensures ValueChar(q, b).ValueOk? && Reading(ValueChar(q, b).h)
  {
    hide Token, Lower, CharAt;
  }

  lemma ValueByte(q: Fields, b: byte, cb: HeadersCompleteCallback)
    requires q.state.s_header_value? && Reading(q.headerState) && !q.lenient && b != CR && b != LF
    ensures
      var o := Dispatch(q, b, cb);
      if !IsHeaderChar(b) then o.how == Fail && o.q.errno == INVALID_HEADER_TOKEN
      else o.how == Go && o.q.state.s_header_value? && Reading(o.q.headerState) && !o.q.lenient
  {
    hide ValueChar;
    ReadingStays(q, b);
  }

  lemma FirstValueByte(q: Fields, b: byte, cb: HeadersCompleteCallback)
    requires q.state.s_header_value_discard_ws? && IsFieldState(q.headerState) && !q.headerState.h_content_length?
    requires b != SPACE && b != TAB && b != CR && b != LF && !q.lenient
    ensures
      var o := Dispatch(q, b, cb);
      o.how == Go && o.q.state.s_header_value? && Reading(o.q.headerState) && !o.q.lenient
  {
    hide Lower;
  }

  predicate FieldBytes(value: seq<byte>, n: nat)
    requires n <= |value|
  {
    forall i :: 1 <= i < n ==> IsValueByte(value[i])
  }

  lemma {:induction false} ValueFront(s: Progress, value: seq<byte>, n: nat, m: Machine, cb: HeadersCompleteCallback)
    requires Runs(m, cb) && s.how == Go && s.q.state.s_header_value_discard_ws? && !s.q.lenient
    requires IsFieldState(s.q.headerState) && !s.q.headerState.h_content_length?
    requires 1 <= n <= |value| && value[0] != SPACE && value[0] != TAB
    requires forall i :: 0 <= i < |value| ==> value[i] != CR && value[i] != LF
    ensures
      var r := RunTo(s, value, n, m);
      if FieldBytes(value, n) then
        r.how == Go && r.q.state.s_header_value? && Reading(r.q.headerState) && !r.q.lenient
      else FailsWith(r, INVALID_HEADER_TOKEN)
    decreases n
  {
    hide Runs, Dispatch, IsHeaderChar, Reading, IsFieldState;
    var before, b := RunTo(s, value, n - 1, m), value[n - 1];
    if n == 1 {
      assert before == s;
      FirstValueByte(s.q, b, cb);
      ByteTaken(s, b, m, cb);
    } else {
      ValueFront(s, value, n - 1, m, cb);
      if before.how == Go {
        ValueByte(before.q, b, cb);
        ByteTaken(before, b, m, cb);
      } else {
        StaysRefused(before, b, INVALID_HEADER_TOKEN, m, cb);
      }
    }
  }

  /** A value other than a length is taken exactly if all of it but its first byte may stand in a value: the first byte
      is not looked at. */
  lemma ValueTaken(s: Progress, value: seq<byte>, m: Machine, cb: HeadersCompleteCallback)
    requires Runs(m, cb) && s.how == Go && s.q.state.s_header_value_discard_ws? && !s.q.lenient
    requires IsFieldState(s.q.headerState) && !s.q.headerState.h_content_length?
    requires |value| > 0 && value[0] != SPACE && value[0] != TAB
    requires forall i :: 0 <= i < |value| ==> value[i] != CR && value[i] != LF
    ensures
      var r := Run(s, value + [CR], m);
      if FieldBytes(value, |value|) then r.how == Go && r.q.state.s_header_almost_done?
      else FailsWith(r, INVALID_HEADER_TOKEN)
  {
    hide Runs, Dispatch, Run, RunTo, FieldBytes;
    var a := Run(s, value, m);
    ValueFront(s, value, |value|, m, cb);
    WholeRun(s, value, m);
    RunConcat(s, value, [CR], m);
    RunOne(a, CR, m);
    if a.how == Go {
      ValueEnds(a.q, cb);
      ByteTaken(a, CR, m, cb);
    } else {
      StaysRefused(a, CR, INVALID_HEADER_TOKEN, m, cb);
    }
  }

  /** A value of a single control character is taken, though it is no value of RFC 7230; behind a letter the same
      character is refused. */
  lemma ControlTaken()
    ensures FieldBytes([1], 1) && !IsValue([1]) && !FieldBytes(['a' as int, 1], 2)
  {
    var value: seq<byte> := [1];
    var other: seq<byte> := ['a' as int, 1];
    assert !IsValueByte(value[0]) && !IsValueByte(other[1]);
  }
}
