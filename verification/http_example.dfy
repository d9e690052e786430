/** Two concrete requests that show what the cuts of a message change. */
module HttpExample {
  import opened HttpLog
  import opened HttpStep
  import opened HttpRun
  import opened HttpParser
  import opened HttpFeed

  /** "GET /", a line feed, and "AB" */
  const OPENING: seq<byte> := ['G' as int, 'E' as int, 'T' as int, SPACE, '/' as int, LF, 'A' as int, 'B' as int]

  /** A colon, "xy", and a byte that is not allowed in a header value */
  const VALUE: seq<byte> := [':' as int, 'x' as int, 'y' as int, 1]

  const MESSAGE := OPENING + VALUE

  const START := Progress(Init(REQUEST), [], 0, Go, 0, 0)

  /** The bytewise run over the first bytes of a message, none of which sets the header count back. */
  predicate Reached(data: seq<byte>, p: nat, m: Machine, q: Fields)
    requires p <= |data|
  {
    var r := RunTo(START, data, p, m);
    r.q == q && r.how == Go && r.n == p && r.nread == p && r.peak == p
  }

  // ---- how the parser gets through the message ---------------------------------------------

  /** The parser of a request for which nothing but its state, its index and the minor version is set. */
  function In(state: State, index: nat, minor: nat): Fields {
    Init(REQUEST).(state := state, verb := GET, index := index, contentLength := ULLONG_MAX, httpMinor := minor)
  }

  /** A byte that is passed with no count set back. */
  predicate Leads(q: Fields, ch: byte, cb: HeadersCompleteCallback, q': Fields) {
    var o := Dispatch(q, ch, cb);
    o.how == Go && !o.reset && o.q == q' && ParsingHeader(q.state)
  }

  lemma MethodLeads(cb: HeadersCompleteCallback)
    ensures Leads(Init(REQUEST), 'G' as int, cb, In(s_req_method, 1, 0))
    ensures Leads(In(s_req_method, 1, 0), 'E' as int, cb, In(s_req_method, 2, 0))
    ensures Leads(In(s_req_method, 2, 0), 'T' as int, cb, In(s_req_method, 3, 0))
    ensures Leads(In(s_req_method, 3, 0), SPACE, cb, In(s_req_spaces_before_url, 4, 0))
  {}

  lemma UrlLeads(cb: HeadersCompleteCallback)
    ensures Leads(In(s_req_spaces_before_url, 4, 0), '/' as int, cb, In(s_req_path, 4, 0))
    ensures Leads(In(s_req_path, 4, 0), LF, cb, In(s_header_field_start, 4, 9))
  {}

  lemma NameLeads(cb: HeadersCompleteCallback)
    ensures Leads(In(s_header_field_start, 4, 9), 'A' as int, cb, In(s_header_field, 0, 9))
    ensures Leads(In(s_header_field, 0, 9), 'B' as int, cb, In(s_header_field, 0, 9))
    ensures Leads(In(s_header_field, 0, 9), ':' as int, cb, In(s_header_value_discard_ws, 0, 9))
  {
    hide Leads;
    NameStartLeads(cb);
    NameByteLeads(cb);
    ColonLeads(cb);
  }

  lemma NameStartLeads(cb: HeadersCompleteCallback)
    ensures Leads(In(s_header_field_start, 4, 9), 'A' as int, cb, In(s_header_field, 0, 9))
  {}

  lemma NameByteLeads(cb: HeadersCompleteCallback)
    ensures Leads(In(s_header_field, 0, 9), 'B' as int, cb, In(s_header_field, 0, 9))
  {}

  lemma ColonLeads(cb: HeadersCompleteCallback)
    ensures Leads(In(s_header_field, 0, 9), ':' as int, cb, In(s_header_value_discard_ws, 0, 9))
  {}

  lemma ValueLeads(cb: HeadersCompleteCallback)
    ensures Leads(In(s_header_value_discard_ws, 0, 9), 'x' as int, cb, In(s_header_value, 0, 9))
    ensures Leads(In(s_header_value, 0, 9), 'y' as int, cb, In(s_header_value, 0, 9))
  {
    hide Leads;
    ValueStartLeads(cb);
    ValueByteLeads(cb);
  }

  lemma ValueStartLeads(cb: HeadersCompleteCallback)
    ensures Leads(In(s_header_value_discard_ws, 0, 9), 'x' as int, cb, In(s_header_value, 0, 9))
  {}

  lemma ValueByteLeads(cb: HeadersCompleteCallback)
    ensures Leads(In(s_header_value, 0, 9), 'y' as int, cb, In(s_header_value, 0, 9))
  {}

  lemma Further(data: seq<byte>, p: nat, m: Machine, cb: HeadersCompleteCallback, q: Fields, q': Fields)
    requires Steps(m) && Implements(m.sw, cb) && p < |data| && Reached(data, p, m, q) && Leads(q, data[p], cb, q')
    ensures Reached(data, p + 1, m, q')
  {
    hide Dispatch;
    assert Watch(RunTo(START, data, p, m), data[p]) && Consult(q, data[p]);
  }

  lemma OpeningReached(data: seq<byte>, m: Machine, cb: HeadersCompleteCallback)
    requires Steps(m) && Implements(m.sw, cb) && OPENING <= data
    ensures Reached(data, 7, m, In(s_header_field, 0, 9)) && Reached(data, 8, m, In(s_header_field, 0, 9))
  {
    hide Leads, In, Reached;
    assert forall i :: 0 <= i < 8 ==> data[i] == OPENING[i];
    MethodLeads(cb);
    UrlLeads(cb);
    NameLeads(cb);
    NothingReached(data, m);
    Further(data, 0, m, cb, Init(REQUEST), In(s_req_method, 1, 0));
    Further(data, 1, m, cb, In(s_req_method, 1, 0), In(s_req_method, 2, 0));
    Further(data, 2, m, cb, In(s_req_method, 2, 0), In(s_req_method, 3, 0));
    Further(data, 3, m, cb, In(s_req_method, 3, 0), In(s_req_spaces_before_url, 4, 0));
    Further(data, 4, m, cb, In(s_req_spaces_before_url, 4, 0), In(s_req_path, 4, 0));
    Further(data, 5, m, cb, In(s_req_path, 4, 0), In(s_header_field_start, 4, 9));
    Further(data, 6, m, cb, In(s_header_field_start, 4, 9), In(s_header_field, 0, 9));
    Further(data, 7, m, cb, In(s_header_field, 0, 9), In(s_header_field, 0, 9));
  }

  lemma NothingReached(data: seq<byte>, m: Machine)
    ensures Reached(data, 0, m, Init(REQUEST))
  {}

  lemma MessageReached(m: Machine, cb: HeadersCompleteCallback)
    requires Steps(m) && Implements(m.sw, cb)
    ensures Reached(MESSAGE, 9, m, In(s_header_value_discard_ws, 0, 9))
    ensures Reached(MESSAGE, 10, m, In(s_header_value, 0, 9)) && Reached(MESSAGE, 11, m, In(s_header_value, 0, 9))
  {
    hide Leads, In, Reached;
    OpeningReached(MESSAGE, m, cb);
    NameLeads(cb);
    ValueLeads(cb);
    Further(MESSAGE, 8, m, cb, In(s_header_field, 0, 9), In(s_header_value_discard_ws, 0, 9));
    Further(MESSAGE, 9, m, cb, In(s_header_value_discard_ws, 0, 9), In(s_header_value, 0, 9));
    Further(MESSAGE, 10, m, cb, In(s_header_value, 0, 9), In(s_header_value, 0, 9));
  }

  // ---- the two examples --------------------------------------------------------------------

  /** Bytewise, the message fails at its last byte, which a call for the whole of it jumps over. */
  lemma MessageSkips(m: Machine, cb: HeadersCompleteCallback)
    requires Steps(m) && Implements(m.sw, cb)
    ensures SkipsBadByte(START, MESSAGE, m) && Run(START, MESSAGE, m).n == 11
    ensures Run(START, MESSAGE, m).peak == 12
  {
    MessageReached(m, cb);
    var r := RunTo(START, MESSAGE, 11, m);
    PlainByte(r.q, 1, m, cb);
    assert Watch(r, 1) && MESSAGE[11] == 1;
  }

  /** One message from a fresh parser, in one call and cut before its last byte: the first call goes on past the
      illegal byte, the second run fails there. */
  method IllegalByteNeedsTheRightCut(cb: HeadersCompleteCallback) returns (n: nat, k: nat, whole: Errno, cut: Errno)
    ensures whole == HEADER_OVERFLOW || n == 12
    ensures cut == INVALID_HEADER_TOKEN && k == 11
  {
    var one := new Parser(REQUEST, cb);
    var two := new Parser(REQUEST, cb);
    MessageSkips(one.m, cb);
    n, k := FeedWholeAndCut(one, two, MESSAGE, 11);
    whole, cut := one.f.errno, two.f.errno;
  }

  lemma AllRead(data: seq<byte>, m: Machine, p: Fields, q: Fields)
    requires 0 < |data| < HTTP_MAX_HEADER_SIZE && Reached(data, |data| - 1, m, p) && Reached(data, |data|, m, q)
    ensures var s, r := START, Run(START, data, m);
      && !SkipsBadByte(s, data, m) && !OverLimit(s, data, m) && (CutsHeader(s, data, m) <==> GoesOn(p.state, q.state))
      && r.how == Go && r.q == q && r.nread == |data|
  {}

  lemma NamedReached(m: Machine, cb: HeadersCompleteCallback)
    requires Steps(m) && Implements(m.sw, cb)
    ensures Reached(OPENING + [':' as int], 8, m, In(s_header_field, 0, 9))
    ensures Reached(OPENING + [':' as int], 9, m, In(s_header_value_discard_ws, 0, 9))
  {
    hide Leads, In, Reached;
    OpeningReached(OPENING + [':' as int], m, cb);
    NameLeads(cb);
    Further(OPENING + [':' as int], 8, m, cb, In(s_header_field, 0, 9), In(s_header_value_discard_ws, 0, 9));
  }

  lemma ColonRun(t: Progress, m: Machine, cb: HeadersCompleteCallback)
    requires Steps(m) && Implements(m.sw, cb)
    requires t == Progress(In(s_header_field, 0, 9), t.log, 0, Go, 9, 0)
    ensures var r, data := Run(t, [':' as int], m), [':' as int];
      && !SkipsBadByte(t, data, m) && !OverLimit(t, data, m) && !CutsHeader(t, data, m)
      && r.how == Go && r.q == In(s_header_value_discard_ws, 0, 9) && r.nread == 10
  {
    NameLeads(cb);
    hide Dispatch, StepEvents;
    assert Consult(t.q, ':' as int) && Watch(t, ':' as int);
    assert RunTo(t, [':' as int], 0, m) == t;
    assert RunTo(t, [':' as int], 1, m) == m.step(t, ':' as int);
  }

  /** A header name in one call, and cut behind its last character: the parsers are in the same state, but the
      second has counted a byte more. */
  method CutNameCountsTwice(cb: HeadersCompleteCallback) returns (whole: nat, cut: nat, same: bool)
    ensures whole == 9 && cut == 10 && same
  {
    hide SkipsBadByte, OverLimit, CutsHeader, RunTo, Reached;
    var one := new Parser(REQUEST, cb);
    var two := new Parser(REQUEST, cb);
    OpeningReached(OPENING, two.m, cb);
    AllRead(OPENING, two.m, In(s_header_field, 0, 9), In(s_header_field, 0, 9));
    NamedReached(one.m, cb);
    AllRead(OPENING + [':' as int], one.m, In(s_header_field, 0, 9), In(s_header_value_discard_ws, 0, 9));
    ghost var lost;
    var n;
    n, lost := one.Execute(OPENING + [':' as int]);
    n, lost := two.Execute(OPENING);
    ColonRun(two.Start(), two.m, cb);
    n, lost := two.Execute([':' as int]);
    whole, cut, same := one.nread, two.nread, one.f == two.f;
  }
}
