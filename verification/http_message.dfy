/** From a message to its callbacks: what the parser reports of a request or a response that is put together from its
    first line, headers and a body. */
module HttpMessage {
  import opened HttpLog
  import opened HttpNumber
  import opened HttpStep
  import opened HttpRun
  import opened HttpFraming
  import opened HttpOptions
  import opened Options

  // ---- names of headers --------------------------------------------------------------------

  const CONNECTION := "connection"
  const PROXY_CONNECTION := "proxy-connection"
  const CONTENT_LENGTH := "content-length"
  const TRANSFER_ENCODING := "transfer-encoding"
  const UPGRADE := "upgrade"

  predicate PrefixOf(t: seq<byte>, w: string) {
    |t| <= |w| && forall i :: 0 <= i < |t| ==> t[i] == w[i] as int
  }

  /** A name in lower case is this word. */
  predicate IsWord(t: seq<byte>, w: string) {
    |t| == |w| && PrefixOf(t, w)
  }

  /** What a header is about, as far as the parser cares. */
  datatype Topic = Connecting | Sizing | Coding | Upgrading | Other

  function TopicOf(t: seq<byte>): Topic {
    if IsWord(t, CONNECTION) || IsWord(t, PROXY_CONNECTION) then Connecting
    else if IsWord(t, CONTENT_LENGTH) then Sizing
    else if IsWord(t, TRANSFER_ENCODING) then Coding
    else if IsWord(t, UPGRADE) then Upgrading
    else Other
  }

  /** And what the parser takes it to be about once it has read the name. */
  function TopicAt(h: HeaderState): Topic {
    match h
    case h_connection => Connecting
    case h_content_length => Sizing
    case h_transfer_encoding => Coding
    case h_upgrade => Upgrading
    case _ => Other
  }

  /** A name in lower case. */
  function Lowered(name: seq<byte>): (t: seq<byte>)
    ensures |t| == |name|
  {
    if name == [] then [] else Lowered(name[..|name| - 1]) + [Token(name[|name| - 1])]
  }

  /** The state that a name in lower case leads to. */
  function FieldStart(c: byte): HeaderState {
    if c == 'c' as int then h_C
    else if c == 'p' as int then h_matching_proxy_connection
    else if c == 't' as int then h_matching_transfer_encoding
    else if c == 'u' as int then h_matching_upgrade
    else h_general
  }

  predicate NoPrefix(t: seq<byte>) {
    && !PrefixOf(t, CONNECTION) && !PrefixOf(t, PROXY_CONNECTION) && !PrefixOf(t, CONTENT_LENGTH)
    && !PrefixOf(t, TRANSFER_ENCODING) && !PrefixOf(t, UPGRADE)
  }

  /** The front of a name: which word it could still become. */
  predicate Tracks(t: seq<byte>, h: HeaderState, i: nat) {
    match h
    case h_C => PrefixOf(t, "c") && |t| == 1 && i == 0
    case h_CO => PrefixOf(t, "co") && |t| == 2 && i == 1
    case h_CON => PrefixOf(t, "con") && |t| == 3 && i == 2
    case h_matching_connection => 4 <= |t| < 10 && PrefixOf(t, CONNECTION) && i == |t| - 1
    case h_matching_content_length => 4 <= |t| < 14 && PrefixOf(t, CONTENT_LENGTH) && i == |t| - 1
    case h_matching_proxy_connection => 1 <= |t| < 16 && PrefixOf(t, PROXY_CONNECTION) && i == |t| - 1
    case h_matching_transfer_encoding => 1 <= |t| < 17 && PrefixOf(t, TRANSFER_ENCODING) && i == |t| - 1
    case h_matching_upgrade => 1 <= |t| < 7 && PrefixOf(t, UPGRADE) && i == |t| - 1
    case h_connection => IsWord(t, CONNECTION) || IsWord(t, PROXY_CONNECTION)
    case h_content_length => IsWord(t, CONTENT_LENGTH)
    case h_transfer_encoding => IsWord(t, TRANSFER_ENCODING)
    case h_upgrade => IsWord(t, UPGRADE)
    case h_general => NoPrefix(t)
    case _ => false
  }

  lemma PrefixMore(t: seq<byte>, c: byte, w: string)
    ensures PrefixOf(t + [c], w) <==> PrefixOf(t, w) && |t| < |w| && c == w[|t|] as int
  {
    var u := t + [c];
    assert u[|t|] == c;
    if PrefixOf(u, w) {
      assert forall i :: 0 <= i < |t| ==> t[i] == u[i];
    }
  }

  predicate IsTopicWord(w: string) {
    w == CONNECTION || w == PROXY_CONNECTION || w == CONTENT_LENGTH || w == TRANSFER_ENCODING || w == UPGRADE
  }

  lemma Differ(t: seq<byte>, w: string, v: string, k: nat)
    requires PrefixOf(t, w) && k < |t| && k < |v| && w[k] != v[k]
    ensures !PrefixOf(t, v)
  {
    assert t[k] == w[k] as int;
  }

  /** Past where two of the words part, a prefix of one is not a prefix of another. */
  lemma Alone(t: seq<byte>, w: string)
    requires IsTopicWord(w) && PrefixOf(t, w) && |t| >= 1 && (w == CONNECTION || w == CONTENT_LENGTH ==> |t| >= 4)
    ensures w != CONNECTION ==> !PrefixOf(t, CONNECTION)
    ensures w != PROXY_CONNECTION ==> !PrefixOf(t, PROXY_CONNECTION)
    ensures w != CONTENT_LENGTH ==> !PrefixOf(t, CONTENT_LENGTH)
    ensures w != TRANSFER_ENCODING ==> !PrefixOf(t, TRANSFER_ENCODING)
    ensures w != UPGRADE ==> !PrefixOf(t, UPGRADE)
  {
    hide PrefixOf;
    if w != CONNECTION { Differ(t, w, CONNECTION, if w == CONTENT_LENGTH then 3 else 0); }
    if w != PROXY_CONNECTION { Differ(t, w, PROXY_CONNECTION, 0); }
    if w != CONTENT_LENGTH { Differ(t, w, CONTENT_LENGTH, if w == CONNECTION then 3 else 0); }
    if w != TRANSFER_ENCODING { Differ(t, w, TRANSFER_ENCODING, 0); }
    if w != UPGRADE { Differ(t, w, UPGRADE, 0); }
  }

  lemma AllMore(t: seq<byte>, c: byte)
    ensures NoPrefix(t) ==> NoPrefix(t + [c])
  {
    hide PrefixOf;
    PrefixMore(t, c, CONNECTION);
    PrefixMore(t, c, PROXY_CONNECTION);
    PrefixMore(t, c, CONTENT_LENGTH);
    PrefixMore(t, c, TRANSFER_ENCODING);
    PrefixMore(t, c, UPGRADE);
  }

  /** A character that does not go on with the word leads to a name that is none of the words. */
  lemma Lost(t: seq<byte>, c: byte, w: string)
    requires IsTopicWord(w) && PrefixOf(t, w) && |t| >= 1 && (w == CONNECTION || w == CONTENT_LENGTH ==> |t| >= 4)
    requires |t| == |w| || c != w[|t|] as int
    ensures NoPrefix(t + [c])
  {
    hide PrefixOf;
    Alone(t, w);
    PrefixMore(t, c, CONNECTION);
    PrefixMore(t, c, PROXY_CONNECTION);
    PrefixMore(t, c, CONTENT_LENGTH);
    PrefixMore(t, c, TRANSFER_ENCODING);
    PrefixMore(t, c, UPGRADE);
  }

  /** While a word is matched: it goes on, is complete, or is lost. */
  lemma MatchTracks(t: seq<byte>, c: byte, w: string, hit: HeaderState, h: HeaderState)
    requires IsTopicWord(w) && PrefixOf(t, w) && 1 <= |t| < |w| && (w == CONNECTION || w == CONTENT_LENGTH ==> |t| >= 4)
    requires c != 0
    ensures
      var r := MatchName(w, hit, h, |t| - 1, c);
      || (r.0 == h_general && NoPrefix(t + [c]))
      || (r.0 == hit && IsWord(t + [c], w))
      || (r.0 == h && PrefixOf(t + [c], w) && |t| + 1 < |w| && r.1 == |t|)
  {
    hide PrefixOf, NoPrefix;
    PrefixMore(t, c, w);
    if c != w[|t|] as int {
      Lost(t, c, w);
    }
  }

  /** The three states in which a name may become either of two words. */
  lemma EarlyTracks(t: seq<byte>, h: HeaderState, i: nat, ch: byte, c: byte)
    requires Tracks(t, h, i) && (h.h_C? || h.h_CO? || h.h_CON?)
    ensures Tracks(t + [c], FieldChar(h, i, ch, c).0, FieldChar(h, i, ch, c).1)
  {
    var u := t + [c];
    assert u[|t|] == c && forall k :: 0 <= k < |t| ==> u[k] == t[k];
    assert u[0] == 'c' as int;
    assert PrefixOf(u, CONNECTION) ==> u[|t|] == CONNECTION[|t|] as int;
    assert PrefixOf(u, CONTENT_LENGTH) ==> u[|t|] == CONTENT_LENGTH[|t|] as int;
  }

  lemma FieldTracks(t: seq<byte>, h: HeaderState, i: nat, ch: byte, c: byte)
    requires Tracks(t, h, i) && c != 0 && ch != SPACE
    ensures Tracks(t + [c], FieldChar(h, i, ch, c).0, FieldChar(h, i, ch, c).1)
  {
    if h.h_C? || h.h_CO? || h.h_CON? {
      EarlyTracks(t, h, i, ch, c);
    } else {
      hide PrefixOf, NoPrefix, MatchName;
      AllMore(t, c);
      match h
      case h_matching_connection => MatchTracks(t, c, CONNECTION, h_connection, h);
      case h_matching_content_length => MatchTracks(t, c, CONTENT_LENGTH, h_content_length, h);
      case h_matching_proxy_connection => MatchTracks(t, c, PROXY_CONNECTION, h_connection, h);
      case h_matching_transfer_encoding => MatchTracks(t, c, TRANSFER_ENCODING, h_transfer_encoding, h);
      case h_matching_upgrade => MatchTracks(t, c, UPGRADE, h_upgrade, h);
      case h_connection => if IsWord(t, CONNECTION) { Lost(t, c, CONNECTION); } else { Lost(t, c, PROXY_CONNECTION); }
      case h_content_length => Lost(t, c, CONTENT_LENGTH);
      case h_transfer_encoding => Lost(t, c, TRANSFER_ENCODING);
      case h_upgrade => Lost(t, c, UPGRADE);
      case _ =>
    }
  }

  lemma StartTracks(c: byte)
    ensures Tracks([c], FieldStart(c), 0)
  {
    var t := [c];
    assert forall w :: IsTopicWord(w) && PrefixOf(t, w) ==> c == w[0] as int;
  }

  /** So the name is told apart exactly. */
  lemma TracksTell(t: seq<byte>, h: HeaderState, i: nat)
    requires Tracks(t, h, i) && |t| > 0
    ensures TopicAt(h) == TopicOf(t)
  {
    if h.h_C? || h.h_CO? || h.h_CON? {
    } else if h.h_general? {
    } else {
      hide PrefixOf, NoPrefix;
      match h
      case h_matching_connection => Alone(t, CONNECTION);
      case h_matching_content_length => Alone(t, CONTENT_LENGTH);
      case h_matching_proxy_connection => Alone(t, PROXY_CONNECTION);
      case h_matching_transfer_encoding => Alone(t, TRANSFER_ENCODING);
      case h_matching_upgrade => Alone(t, UPGRADE);
      case h_connection => if IsWord(t, CONNECTION) { Alone(t, CONNECTION); } else { Alone(t, PROXY_CONNECTION); }
      case h_content_length => Alone(t, CONTENT_LENGTH);
      case h_transfer_encoding => Alone(t, TRANSFER_ENCODING);
      case _ => Alone(t, UPGRADE);
    }
  }

  // ---- methods -----------------------------------------------------------------------------

  /** The method that the parser supposes once it has read the first `i` characters of a method. */
  function Supposed(m: Method, i: nat): Method {
    match m
    case PUT => if i < 2 then POST else PUT
    case PATCH => if i < 2 then POST else PATCH
    case PURGE => if i < 2 then POST else if i < 3 then PUT else PURGE
    case PROPFIND => if i < 2 then POST else PROPFIND
    case PROPPATCH => if i < 2 then POST else if i < 5 then PROPFIND else PROPPATCH
    case COPY => if i < 3 then CONNECT else COPY
    case CHECKOUT => if i < 2 then CONNECT else CHECKOUT
    case MOVE => if i < 2 then MKCOL else MOVE
    case MERGE => if i < 2 then MKCOL else MERGE
    case MSEARCH => if i < 2 then MKCOL else MSEARCH
    case MKACTIVITY => if i < 3 then MKCOL else MKACTIVITY
    case MKCALENDAR => if i < 4 then MKCOL else MKCALENDAR
    case SEARCH => if i < 2 then SUBSCRIBE else SEARCH
    case REBIND => if i < 3 then REPORT else REBIND
    case UNBIND => if i < 3 then UNLOCK else UNBIND
    case UNSUBSCRIBE => if i < 3 then UNLOCK else UNSUBSCRIBE
    case UNLINK => if i < 4 then UNLOCK else UNLINK
    case LINK => if i < 2 then LOCK else LINK
    case _ => m
  }

  /** What the switch makes of a character of a method. */
  function VerbAfter(v: Method, i: nat, ch: byte): MaybeMethod {
    if ch == CharAt(MethodName(v), i) then MaybeMethod.Known(v)
    else if IsAlpha(ch) then SwitchMethod(v, i, ch)
    else if ch == '-' as int && i == 1 && v == MKCOL then MaybeMethod.Known(MSEARCH)
    else Unknown
  }

  lemma NextVerb(m: Method, i: nat)
    requires 1 <= i < |MethodName(m)|
    ensures VerbAfter(Supposed(m, i), i, MethodName(m)[i] as int) == MaybeMethod.Known(Supposed(m, i + 1))
  {
    if Supposed(m, i) == Supposed(m, i + 1) {
      VerbStays(m, i);
    } else {
      VerbSwitches(m, i);
    }
    hide MethodName, Supposed, VerbAfter;
  }

  lemma VerbStays(m: Method, i: nat)
    requires 1 <= i < |MethodName(m)| && Supposed(m, i) == Supposed(m, i + 1)
    ensures VerbAfter(Supposed(m, i), i, MethodName(m)[i] as int) == MaybeMethod.Known(Supposed(m, i + 1))
  {
    hide SwitchMethod, IsAlpha;
  }

  lemma VerbSwitches(m: Method, i: nat)
    requires 1 <= i < |MethodName(m)| && Supposed(m, i) != Supposed(m, i + 1)
    ensures VerbAfter(Supposed(m, i), i, MethodName(m)[i] as int) == MaybeMethod.Known(Supposed(m, i + 1))
  {}

  lemma FirstVerb(m: Method)
    ensures FirstMethod(MethodName(m)[0] as int) == MaybeMethod.Known(Supposed(m, 1))
    ensures Supposed(m, |MethodName(m)|) == m && |MethodName(m)| > 1
  {}

  // ---- one byte ----------------------------------------------------------------------------

  ghost predicate Runs(m: Machine, cb: HeadersCompleteCallback) {
    Steps(m) && Implements(m.sw, cb)
  }

  /** The callbacks of one byte for which the switch has this outcome. */
  function EventsOf(o: Outcome, s: State, b: byte): seq<Event> {
    var r := Apply(o.acts, Resume(s), [b], 0);
    if o.how == Go then r.0 + Flush(r.1, [b]) else r.0
  }

  /** A run that goes on, where it is and what it has reported. */
  predicate Is(r: Progress, q: Fields, log: seq<Event>) {
    r.how == Go && r.q == q && r.log == log
  }

  lemma Stepped(s: Progress, b: byte, m: Machine, cb: HeadersCompleteCallback)
    requires Runs(m, cb) && s.how == Go
    ensures
      var o, r := Dispatch(s.q, b, cb), m.step(s, b);
      r.q == o.q && r.how == o.how && r.log == AddAll(s.log, EventsOf(o, s.q.state, b))
  {
    hide Dispatch, Apply, Flush;
    assert Watch(s, b) && Consult(s.q, b);
  }

  /** A byte that brings no callback. */
  lemma Quiet(s: Progress, b: byte, m: Machine, cb: HeadersCompleteCallback)
    requires Runs(m, cb) && s.how == Go && ResumeKind(s.q.state) == None
    requires Dispatch(s.q, b, cb).acts == Done && Dispatch(s.q, b, cb).how == Go
    ensures Is(m.step(s, b), Dispatch(s.q, b, cb).q, s.log)
  {
    hide Dispatch;
    Stepped(s, b, m, cb);
    assert EventsOf(Dispatch(s.q, b, cb), s.q.state, b) == [];
  }

  /** A byte of data under a mark. */
  lemma Kept(s: Progress, b: byte, m: Machine, cb: HeadersCompleteCallback, k: Kind)
    requires Runs(m, cb) && s.how == Go && Dispatch(s.q, b, cb).how == Go
    requires
      var acts := Dispatch(s.q, b, cb).acts;
      || (ResumeKind(s.q.state) == Some(k) && acts == Done)
      || (ResumeKind(s.q.state) == None && acts == Then(Mark(k), Done))
    ensures Is(m.step(s, b), Dispatch(s.q, b, cb).q, Add(s.log, Data(k, [b])))
  {
    hide Dispatch;
    Stepped(s, b, m, cb);
    assert [b][0..] == [b];
    OneMark(k, b);
    assert EventsOf(Dispatch(s.q, b, cb), s.q.state, b) == [Data(k, [b])];
    AddAllOne(s.log, Data(k, [b]));
  }

  lemma OneMark(k: Kind, b: byte)
    ensures Apply(Then(Mark(k), Done), Unset, [b], 0) == ([], Set(k, 0))
    ensures Apply(Then(Deliver(k), Done), Set(k, 0), [b], 0) == ([Data(k, [])], Unset)
    ensures Apply(Then(Deliver(k), Done), Unset, [b], 0) == ([], Unset)
  {
    var none: seq<Event> := [];
    assert none + none == none;
    assert Apply(Done, Set(k, 0), [b], 0) == (none, Set(k, 0));
    assert Apply(Done, Unset, [b], 0) == ([], Unset);
    assert [b][0..0] == [];
    assert [Data(k, [])] + [] == [Data(k, [])];
  }

  /** The byte behind data: the last callback of it is empty. */
  lemma Ended(s: Progress, b: byte, m: Machine, cb: HeadersCompleteCallback, k: Kind)
    requires Runs(m, cb) && s.how == Go && ResumeKind(s.q.state) == Some(k)
    requires Dispatch(s.q, b, cb).acts == Then(Deliver(k), Done) && Dispatch(s.q, b, cb).how == Go
    requires |s.log| > 0 && s.log[|s.log| - 1].Data? && s.log[|s.log| - 1].kind == k
    ensures Is(m.step(s, b), Dispatch(s.q, b, cb).q, s.log)
  {
    hide Dispatch;
    Stepped(s, b, m, cb);
    OneMark(k, b);
    assert EventsOf(Dispatch(s.q, b, cb), s.q.state, b) == [Data(k, [])];
    AddAllOne(s.log, Data(k, []));
    var last := s.log[|s.log| - 1];
    assert last.bytes + [] == last.bytes;
    assert s.log == s.log[..|s.log| - 1] + [last];
  }

  /** A byte that brings notifications. */
  lemma Noted(s: Progress, b: byte, m: Machine, cb: HeadersCompleteCallback, n: Note)
    requires Runs(m, cb) && s.how == Go && ResumeKind(s.q.state) == None
    requires Dispatch(s.q, b, cb).acts == Then(Notify(n), Done) && Dispatch(s.q, b, cb).how == Go
    ensures Is(m.step(s, b), Dispatch(s.q, b, cb).q, s.log + [Notice(n)])
  {
    hide Dispatch;
    Stepped(s, b, m, cb);
    assert Apply(Then(Notify(n), Done), Unset, [b], 0) == ([Notice(n)], Unset) by {
      assert Apply(Done, Unset, [b], 0) == ([], Unset);
      assert [Notice(n)] + [] == [Notice(n)];
    }
    assert EventsOf(Dispatch(s.q, b, cb), s.q.state, b) == [Notice(n)];
    AddAllOne(s.log, Notice(n));
  }

  lemma NotedTwice(s: Progress, b: byte, m: Machine, cb: HeadersCompleteCallback, n: Note, k: Note)
    requires Runs(m, cb) && s.how == Go && ResumeKind(s.q.state) == None
    requires Dispatch(s.q, b, cb).acts == Then(Notify(n), Then(Notify(k), Done)) && Dispatch(s.q, b, cb).how != Fail
    ensures
      var r, o := m.step(s, b), Dispatch(s.q, b, cb);
      r.how == o.how && r.q == o.q && r.log == s.log + [Notice(n), Notice(k)]
  {
    hide Dispatch;
    Stepped(s, b, m, cb);
    assert Apply(Then(Notify(k), Done), Unset, [b], 0) == ([Notice(k)], Unset) by {
      assert Apply(Done, Unset, [b], 0) == ([], Unset);
      assert [Notice(k)] + [] == [Notice(k)];
    }
    assert Apply(Then(Notify(n), Then(Notify(k), Done)), Unset, [b], 0) == ([Notice(n)] + [Notice(k)], Unset);
    assert EventsOf(Dispatch(s.q, b, cb), s.q.state, b) == [Notice(n)] + [Notice(k)];
    AddAllConcat(s.log, [Notice(n)], [Notice(k)]);
    AddAllOne(s.log, Notice(n));
    AddAllOne(s.log + [Notice(n)], Notice(k));
    assert s.log + [Notice(n)] + [Notice(k)] == s.log + [Notice(n), Notice(k)];
  }

  /** Data grows byte by byte. */
  lemma Grows(log: seq<Event>, k: Kind, data: seq<byte>, b: byte)
    ensures Add(log + [Data(k, data)], Data(k, [b])) == log + [Data(k, data + [b])]
  {
    var l := log + [Data(k, data)];
    assert l[..|l| - 1] == log;
  }

  predicate EndsWith(log: seq<Event>, k: Kind) {
    |log| > 0 && log[|log| - 1].Data? && log[|log| - 1].kind == k
  }

  lemma Begins(log: seq<Event>, k: Kind, b: byte)
    requires !EndsWith(log, k)
    ensures Add(log, Data(k, [b])) == log + [Data(k, [b])] && EndsWith(log + [Data(k, [b])], k)
  {}

  lemma RunOne(s: Progress, b: byte, m: Machine)
    ensures Run(s, [b], m) == m.step(s, b)
  {
    assert RunTo(s, [b], 0, m) == s;
  }

  lemma RunFirst(s: Progress, b: byte, rest: seq<byte>, m: Machine)
    ensures Run(s, [b] + rest, m) == Run(m.step(s, b), rest, m)
  {
    RunConcat(s, [b], rest, m);
    RunOne(s, b, m);
  }

  // ---- the request line --------------------------------------------------------------------

  /** The URL automaton over the bytes of a target, and where it starts: the target of CONNECT is an authority. */
  function UrlFrom(s: State, t: seq<byte>): State {
    if t == [] then s else ParseUrlChar(UrlFrom(s, t[..|t| - 1]), t[|t| - 1])
  }

  function UrlStart(v: Method): State {
    if v.CONNECT? then s_req_server_start else s_req_spaces_before_url
  }

  /** A target that may end where it does. */
  predicate IsTarget(v: Method, t: seq<byte>) {
    t != [] && IsLateUrlState(UrlFrom(UrlStart(v), t))
  }

  function Bytes(w: string): (t: seq<byte>)
    ensures |t| == |w|
    ensures forall i :: 0 <= i < |w| && w[i] as int < 256 ==> t[i] == w[i] as int
  {
    seq(|w|, i requires 0 <= i < |w| => if w[i] as int < 256 then w[i] as int else 0)
  }

  /** A parser of requests, or of responses. */
  predicate Directed(q: Fields, reply: bool) {
    if reply then q.typ.RESPONSE? && !q.verb.CONNECT? else q.typ.REQUEST?
  }

  /** It waits for a message. */
  predicate Waits(q: Fields, reply: bool) {
    Directed(q, reply) && q.errno == OK && q.state == if reply then s_start_res else s_start_req
  }

  /** What is known of the parser from the method on. */
  predicate Clean(q: Fields, v: Method) {
    && q.typ.REQUEST? && q.errno == OK && q.flags == NO_FLAGS && q.contentLength == ULLONG_MAX && q.verb == v
  }

  lemma MethodChar(m: Method, i: nat)
    requires i < |MethodName(m)|
    ensures SPACE < MethodName(m)[i] as int < 128
  {}

  lemma MethodStep(q: Fields, m: Method, i: nat, cb: HeadersCompleteCallback)
    requires 1 <= i < |MethodName(m)| && q.state.s_req_method? && Clean(q, Supposed(m, i)) && q.index == i
    ensures SPACE < MethodName(m)[i] as int < 128
    ensures Dispatch(q, MethodName(m)[i] as int, cb) == Next(q.(verb := Supposed(m, i + 1), index := i + 1))
  {
    hide MethodName, Supposed, SwitchMethod, IsAlpha;
    MethodChar(m, i);
    NextVerb(m, i);
    assert q.(verb := q.verb) == q;
  }

  lemma {:induction false} MethodRead(s: Progress, v: Method, n: nat, m: Machine, cb: HeadersCompleteCallback)
    requires Runs(m, cb) && s.how == Go && Waits(s.q, false) && 1 <= n <= |MethodName(v)|
    ensures
      var r := RunTo(s, Bytes(MethodName(v)), n, m);
      && r.how == Go && r.log == s.log + [Notice(MessageBegin)]
      && r.q.state.s_req_method? && Clean(r.q, Supposed(v, n)) && r.q.index == n
    decreases n
  {
    hide MethodName, Supposed, Dispatch, Runs;
    MethodChar(v, n - 1);
    var data := Bytes(MethodName(v));
    var before := RunTo(s, data, n - 1, m);
    if n == 1 {
      FirstVerb(v);
      FirstDispatch(s.q, v, cb);
      Noted(s, data[0], m, cb, MessageBegin);
      assert before == s;
    } else {
      MethodRead(s, v, n - 1, m, cb);
      MethodStep(before.q, v, n - 1, cb);
      Quiet(before, data[n - 1], m, cb);
    }
  }

  lemma FirstDispatch(q: Fields, v: Method, cb: HeadersCompleteCallback)
    requires Waits(q, false) && |MethodName(v)| > 1 && MethodName(v)[0] as int < 256
    requires FirstMethod(MethodName(v)[0] as int) == MaybeMethod.Known(Supposed(v, 1))
    ensures
      var o := Dispatch(q, MethodName(v)[0] as int, cb);
      && o.how == Go && o.acts == Then(Notify(MessageBegin), Done)
      && o.q.state.s_req_method? && Clean(o.q, Supposed(v, 1)) && o.q.index == 1
  {
    hide MethodName, Supposed;
  }

  lemma MethodEnds(q: Fields, v: Method, cb: HeadersCompleteCallback)
    requires q.state.s_req_method? && q.verb == v && q.index == |MethodName(v)|
    ensures Dispatch(q, SPACE, cb) == To(q.(index := q.index + 1), s_req_spaces_before_url)
  {
    hide MethodName;
  }

  lemma {:induction false} UrlAlive(s: State, t: seq<byte>, n: nat)
    requires n <= |t| && !UrlFrom(s, t).s_dead?
    ensures !UrlFrom(s, t[..n]).s_dead?
    decreases |t|
  {
    hide ParseUrlChar;
    if n == |t| {
      assert t[..n] == t;
    } else {
      var init := t[..|t| - 1];
      DeadStays(UrlFrom(s, init), t[|t| - 1]);
      UrlAlive(s, init, n);
      assert init[..n] == t[..n];
    }
  }

  lemma DeadStays(s: State, ch: byte)
    ensures s.s_dead? ==> ParseUrlChar(s, ch).s_dead?
  {
    hide IsAlpha, IsUrlChar;
  }

  lemma UrlCharState(s: State, ch: byte)
    ensures ParseUrlChar(s, ch).s_dead? || IsUrlState(ParseUrlChar(s, ch))
    ensures ch == SPACE || ch == CR || ch == LF ==> ParseUrlChar(s, ch).s_dead?
  {
    hide IsAlpha, IsUrlChar, IsUserinfoChar;
  }

  lemma UrlStep(q: Fields, ch: byte, cb: HeadersCompleteCallback)
    requires IsUrlState(q.state) && !ParseUrlChar(q.state, ch).s_dead?
    ensures Dispatch(q, ch, cb) == To(q, ParseUrlChar(q.state, ch))
  {
    UrlCharState(q.state, ch);
    hide ParseUrlChar;
  }

  lemma UrlBegins(q: Fields, ch: byte, cb: HeadersCompleteCallback)
    requires q.state.s_req_spaces_before_url? && !ParseUrlChar(UrlStart(q.verb), ch).s_dead?
    ensures Dispatch(q, ch, cb) == After(Mark(Url), To(q, ParseUrlChar(UrlStart(q.verb), ch)))
  {
    UrlCharState(UrlStart(q.verb), ch);
    hide ParseUrlChar;
  }

  lemma {:induction false} TargetRead(s: Progress, t: seq<byte>, n: nat, m: Machine, cb: HeadersCompleteCallback)
    requires Runs(m, cb) && s.how == Go && s.q.state.s_req_spaces_before_url?
    requires IsTarget(s.q.verb, t) && 1 <= n <= |t| && !EndsWith(s.log, Url)
    ensures
      var u := UrlFrom(UrlStart(s.q.verb), t[..n]);
      IsUrlState(u) && Is(RunTo(s, t, n, m), s.q.(state := u), s.log + [Data(Url, t[..n])])
    decreases n
  {
    hide Runs, Dispatch, ParseUrlChar, IsUrlState;
    var before, b, start := RunTo(s, t, n - 1, m), t[n - 1], UrlStart(s.q.verb);
    UrlAlive(start, t, n);
    assert t[..n][..n - 1] == t[..n - 1] && t[..n] == t[..n - 1] + [b];
    UrlCharState(UrlFrom(start, t[..n - 1]), b);
    if n == 1 {
      assert t[..0] == [] && before == s;
      NotYetUrl();
      UrlBegins(s.q, b, cb);
      Kept(s, b, m, cb, Url);
      Begins(s.log, Url, b);
    } else {
      TargetRead(s, t, n - 1, m, cb);
      MarkedUrl(before.q.state);
      UrlStep(before.q, b, cb);
      Kept(before, b, m, cb, Url);
      Grows(s.log, Url, t[..n - 1], b);
    }
  }

  lemma NotYetUrl()
    ensures !IsUrlState(s_req_spaces_before_url) && ResumeKind(s_req_spaces_before_url) == None
  {}

  lemma MarkedUrl(s: State)
    requires IsUrlState(s)
    ensures ResumeKind(s) == Some(Url)
  {}

  lemma TargetEnds(s: Progress, m: Machine, cb: HeadersCompleteCallback)
    requires Runs(m, cb) && s.how == Go && IsLateUrlState(s.q.state) && EndsWith(s.log, Url)
    ensures Is(m.step(s, SPACE), s.q.(state := s_req_http_start), s.log)
  {
    hide Runs;
    assert Dispatch(s.q, SPACE, cb) == After(Deliver(Url), To(s.q, s_req_http_start));
    MarkedUrl(s.q.state);
    Ended(s, SPACE, m, cb, Url);
  }

  lemma Onward(s: Progress, b: byte, q: Fields, m: Machine, cb: HeadersCompleteCallback)
    requires Runs(m, cb) && s.how == Go && ResumeKind(s.q.state) == None && Dispatch(s.q, b, cb) == Next(q)
    ensures Is(m.step(s, b), q, s.log)
  {
    hide Dispatch, Runs;
    Quiet(s, b, m, cb);
  }

  predicate IsVersion(major: byte, minor: byte) {
    '1' as int <= major <= '9' as int && IsNum(minor)
  }

  /** "HTTP/1.1" and the end of the line, byte by byte */
  function VersionByte(major: byte, minor: byte, i: nat): byte {
    if i == 0 then 'H' as int
    else if i == 1 || i == 2 then 'T' as int
    else if i == 3 then 'P' as int
    else if i == 4 then '/' as int
    else if i == 5 then major
    else if i == 6 then '.' as int
    else if i == 7 then minor
    else if i == 8 then CR
    else LF
  }

  function VersionText(major: byte, minor: byte): seq<byte> {
    seq(10, i requires 0 <= i < 10 => VersionByte(major, minor, i))
  }

  /** The parser in front of the `i`-th byte of it. */
  function InVersion(q: Fields, major: byte, minor: byte, i: nat): Fields {
    var p := q.(httpMajor := Digit(major));
    if i == 0 then q.(state := s_req_http_start)
    else if i == 1 then q.(state := s_req_http_H)
    else if i == 2 then q.(state := s_req_http_HT)
    else if i == 3 then q.(state := s_req_http_HTT)
    else if i == 4 then q.(state := s_req_http_HTTP)
    else if i == 5 then q.(state := s_req_first_http_major)
    else if i == 6 then p.(state := s_req_http_major)
    else if i == 7 then p.(state := s_req_first_http_minor)
    else if i == 8 then p.(state := s_req_http_minor, httpMinor := Digit(minor))
    else if i == 9 then p.(state := s_req_line_almost_done, httpMinor := Digit(minor))
    else p.(state := s_header_field_start, httpMinor := Digit(minor))
  }

  lemma VersionStep(q: Fields, major: byte, minor: byte, i: nat, cb: HeadersCompleteCallback)
    requires IsVersion(major, minor) && i < 10
    ensures ResumeKind(InVersion(q, major, minor, i).state) == None
    ensures Dispatch(InVersion(q, major, minor, i), VersionByte(major, minor, i), cb)
      == Next(InVersion(q, major, minor, i + 1))
  {
    hide Dispatch, OnRequestLine;
    var p := InVersion(q, major, minor, i);
    InRequestLine(p, VersionByte(major, minor, i), cb);
    if i < 5 {
      ConstantStep(q, major, minor, i);
    } else {
      NumberStep(q, major, minor, i);
    }
  }

  lemma InRequestLine(q: Fields, b: byte, cb: HeadersCompleteCallback)
    ensures GroupOf(q.state).GRequestLine? ==> Dispatch(q, b, cb) == OnRequestLine(q, b) && ResumeKind(q.state) == None
  {}

  lemma ConstantStep(q: Fields, major: byte, minor: byte, i: nat)
    requires i < 5
    ensures
      OnRequestLine(InVersion(q, major, minor, i), VersionByte(major, minor, i))
        == Next(InVersion(q, major, minor, i + 1))
  {}

  lemma NumberStep(q: Fields, major: byte, minor: byte, i: nat)
    requires IsVersion(major, minor) && 5 <= i < 10
    ensures
      OnRequestLine(InVersion(q, major, minor, i), VersionByte(major, minor, i))
        == Next(InVersion(q, major, minor, i + 1))
  {}

  lemma {:induction false} VersionRead(s: Progress, q: Fields, major: byte, minor: byte, n: nat, m: Machine,
                                       cb: HeadersCompleteCallback)
    requires Runs(m, cb) && s.how == Go && IsVersion(major, minor) && n <= 10 && s.q == InVersion(q, major, minor, 0)
    ensures |VersionText(major, minor)| == 10
    ensures Is(RunTo(s, VersionText(major, minor), n, m), InVersion(q, major, minor, n), s.log)
    decreases n
  {
    if n > 0 {
      hide Runs, InVersion, Dispatch, VersionByte;
      VersionRead(s, q, major, minor, n - 1, m, cb);
      VersionStep(q, major, minor, n - 1, cb);
      Onward(RunTo(s, VersionText(major, minor), n - 1, m), VersionByte(major, minor, n - 1),
             InVersion(q, major, minor, n), m, cb);
    }
  }

  /** method SP target SP version CRLF */
  function RequestLine(v: Method, target: seq<byte>, major: byte, minor: byte): seq<byte> {
    Bytes(MethodName(v)) + ([SPACE] + (target + ([SPACE] + VersionText(major, minor))))
  }

  lemma WholeRun(s: Progress, data: seq<byte>, m: Machine)
    ensures Run(s, data, m) == RunTo(s, data, |data|, m)
  {}

  lemma RequestLineRead(s: Progress, v: Method, target: seq<byte>, major: byte, minor: byte, m: Machine,
                        cb: HeadersCompleteCallback)
    requires Runs(m, cb) && s.how == Go && Waits(s.q, false) && IsTarget(v, target) && IsVersion(major, minor)
    ensures
      var r := Run(s, RequestLine(v, target, major, minor), m);
      && r.how == Go && r.q.state.s_header_field_start? && Clean(r.q, v)
      && r.q.httpMajor == Digit(major) && r.q.httpMinor == Digit(minor)
      && r.log == s.log + [Notice(MessageBegin), Data(Url, target)]
  {
    hide Runs, Run, RunTo, IsVersion, MethodName, Bytes, VersionText, ParseUrlChar, Supposed, Dispatch, InVersion;
    var name, rest := Bytes(MethodName(v)), target + ([SPACE] + VersionText(major, minor));
    FirstVerb(v);
    var a := Run(s, name, m);
    MethodRead(s, v, |name|, m, cb);
    WholeRun(s, name, m);
    var b := m.step(a, SPACE);
    MethodEnds(a.q, v, cb);
    Onward(a, SPACE, a.q.(index := a.q.index + 1, state := s_req_spaces_before_url), m, cb);
    var c := Run(b, target, m);
    TargetRead(b, target, |target|, m, cb);
    WholeRun(b, target, m);
    assert target[..|target|] == target;
    var d := m.step(c, SPACE);
    TargetEnds(c, m, cb);
    var q := d.q;
    StartsVersion(q, major, minor);
    VersionRead(d, q, major, minor, 10, m, cb);
    WholeRun(d, VersionText(major, minor), m);
    EndsVersion(q, v, major, minor);
    RunConcat(s, name, [SPACE] + rest, m);
    RunFirst(a, SPACE, rest, m);
    RunConcat(b, target, [SPACE] + VersionText(major, minor), m);
    RunFirst(c, SPACE, VersionText(major, minor), m);
    assert s.log + [Notice(MessageBegin)] + [Data(Url, target)] == s.log + [Notice(MessageBegin), Data(Url, target)];
  }

  lemma StartsVersion(q: Fields, major: byte, minor: byte)
    requires q.state.s_req_http_start?
    ensures q == InVersion(q, major, minor, 0)
  {}

  lemma EndsVersion(q: Fields, v: Method, major: byte, minor: byte)
    requires Clean(q, v)
    ensures
      var p := InVersion(q, major, minor, 10);
      p.state.s_header_field_start? && Clean(p, v) && p.httpMajor == Digit(major) && p.httpMinor == Digit(minor)
  {}

  // ---- the status line ---------------------------------------------------------------------

  /** A status code of three digits. */
  predicate IsCode(code: seq<byte>) {
    |code| == 3 && IsNum(code[0]) && IsNum(code[1]) && IsNum(code[2])
  }

  function CodeOf(code: seq<byte>): nat
    requires IsCode(code)
  {
    Digit(code[0]) * 100 + Digit(code[1]) * 10 + Digit(code[2])
  }

  predicate IsReason(reason: seq<byte>) {
    forall i :: 0 <= i < |reason| ==> reason[i] != CR && reason[i] != LF
  }

  /** "HTTP/1.1 200 ", byte by byte */
  function StatusByte(major: byte, minor: byte, code: seq<byte>, i: nat): byte
    requires IsCode(code)
  {
    if i < 8 then VersionByte(major, minor, i)
    else if 9 <= i < 12 then code[i - 9]
    else SPACE
  }

  function CodeText(major: byte, minor: byte, code: seq<byte>): seq<byte>
    requires IsCode(code)
  {
    seq(13, i requires 0 <= i < 13 => StatusByte(major, minor, code, i))
  }

  /** The parser in front of the `i`-th byte of it, but for the first. */
  function InStatus(q: Fields, major: byte, minor: byte, code: seq<byte>, i: nat): Fields
    requires IsCode(code)
  {
    var p := q.(flags := NO_FLAGS, contentLength := ULLONG_MAX);
    var v := p.(httpMajor := Digit(major));
    var w := v.(httpMinor := Digit(minor));
    if i <= 1 then p.(state := s_res_H)
    else if i == 2 then p.(state := s_res_HT)
    else if i == 3 then p.(state := s_res_HTT)
    else if i == 4 then p.(state := s_res_HTTP)
    else if i == 5 then p.(state := s_res_first_http_major)
    else if i == 6 then v.(state := s_res_http_major)
    else if i == 7 then v.(state := s_res_first_http_minor)
    else if i == 8 then w.(state := s_res_http_minor)
    else if i == 9 then w.(state := s_res_first_status_code)
    else if i == 10 then w.(state := s_res_status_code, statusCode := Digit(code[0]))
    else if i == 11 then w.(state := s_res_status_code, statusCode := Digit(code[0]) * 10 + Digit(code[1]))
    else if i == 12 then w.(state := s_res_status_code, statusCode := CodeOf(code))
    else w.(state := s_res_status_start, statusCode := CodeOf(code))
  }

  lemma FirstStatus(q: Fields, major: byte, minor: byte, code: seq<byte>, cb: HeadersCompleteCallback)
    requires q.state.s_start_res? && IsCode(code)
    ensures Dispatch(q, 'H' as int, cb) == After(Notify(MessageBegin), Next(InStatus(q, major, minor, code, 1)))
    ensures ResumeKind(q.state) == None
  {}

  lemma StatusStep(q: Fields, major: byte, minor: byte, code: seq<byte>, i: nat, cb: HeadersCompleteCallback)
    requires IsNum(major) && IsNum(minor) && IsCode(code) && 1 <= i < 13
    ensures ResumeKind(InStatus(q, major, minor, code, i).state) == None
    ensures Dispatch(InStatus(q, major, minor, code, i), StatusByte(major, minor, code, i), cb)
      == Next(InStatus(q, major, minor, code, i + 1))
  {
    hide Dispatch, OnStatusLine;
    var p := InStatus(q, major, minor, code, i);
    InStatusLine(p, StatusByte(major, minor, code, i), cb);
    if i < 5 {
      ProtocolStep(q, major, minor, code, i);
    } else if i < 9 {
      StatusVersionStep(q, major, minor, code, i);
    } else {
      CodeStep(q, major, minor, code, i);
    }
  }

  lemma InStatusLine(q: Fields, b: byte, cb: HeadersCompleteCallback)
    ensures GroupOf(q.state).GStatusLine? ==> Dispatch(q, b, cb) == OnStatusLine(q, b)
    ensures GroupOf(q.state).GStatusLine? && !q.state.s_res_status? ==> ResumeKind(q.state) == None
  {}

  lemma ProtocolStep(q: Fields, major: byte, minor: byte, code: seq<byte>, i: nat)
    requires IsCode(code) && 1 <= i < 5
    ensures OnStatusLine(InStatus(q, major, minor, code, i), StatusByte(major, minor, code, i))
      == Next(InStatus(q, major, minor, code, i + 1))
  {}

  lemma StatusVersionStep(q: Fields, major: byte, minor: byte, code: seq<byte>, i: nat)
    requires IsNum(major) && IsNum(minor) && IsCode(code) && 5 <= i < 9
    ensures OnStatusLine(InStatus(q, major, minor, code, i), StatusByte(major, minor, code, i))
      == Next(InStatus(q, major, minor, code, i + 1))
  {}

  lemma CodeStep(q: Fields, major: byte, minor: byte, code: seq<byte>, i: nat)
    requires IsCode(code) && 9 <= i < 13
    ensures OnStatusLine(InStatus(q, major, minor, code, i), StatusByte(major, minor, code, i))
      == Next(InStatus(q, major, minor, code, i + 1))
  {}

  lemma {:induction false} StatusRead(s: Progress, major: byte, minor: byte, code: seq<byte>, n: nat, m: Machine,
                                      cb: HeadersCompleteCallback)
    requires Runs(m, cb) && s.how == Go && Waits(s.q, true) && IsNum(major) && IsNum(minor) && IsCode(code)
    requires 1 <= n <= 13
    ensures |CodeText(major, minor, code)| == 13
    ensures Is(RunTo(s, CodeText(major, minor, code), n, m), InStatus(s.q, major, minor, code, n),
               s.log + [Notice(MessageBegin)])
    decreases n
  {
    hide Runs, InStatus, Dispatch, StatusByte, IsCode;
    var text := CodeText(major, minor, code);
    if n == 1 {
      FirstStatus(s.q, major, minor, code, cb);
      FirstStatusByte(major, minor, code);
      Noted(s, text[0], m, cb, MessageBegin);
      assert RunTo(s, text, 0, m) == s;
    } else {
      StatusRead(s, major, minor, code, n - 1, m, cb);
      StatusStep(s.q, major, minor, code, n - 1, cb);
      Onward(RunTo(s, text, n - 1, m), StatusByte(major, minor, code, n - 1), InStatus(s.q, major, minor, code, n), m,
             cb);
    }
  }

  lemma FirstStatusByte(major: byte, minor: byte, code: seq<byte>)
    requires IsCode(code)
    ensures StatusByte(major, minor, code, 0) == 'H' as int
  {}

  lemma ReasonStep(q: Fields, b: byte, cb: HeadersCompleteCallback)
    requires b != CR && b != LF
    ensures q.state.s_res_status_start? ==>
      Dispatch(q, b, cb) == After(Mark(StatusText), Next(q.(index := 0, state := s_res_status)))
    ensures q.state.s_res_status? ==> Dispatch(q, b, cb) == Next(q)
  {}

  lemma {:induction false} ReasonRead(s: Progress, reason: seq<byte>, n: nat, m: Machine, cb: HeadersCompleteCallback)
    requires Runs(m, cb) && s.how == Go && s.q.state.s_res_status_start? && IsReason(reason) && 1 <= n <= |reason|
    requires !EndsWith(s.log, StatusText)
    ensures
      Is(RunTo(s, reason, n, m), s.q.(index := 0, state := s_res_status), s.log + [Data(StatusText, reason[..n])])
    decreases n
  {
    hide Runs, Dispatch;
    var before, b := RunTo(s, reason, n - 1, m), reason[n - 1];
    assert reason[..n] == reason[..n - 1] + [b];
    ReasonStep(before.q, b, cb);
    if n == 1 {
      assert before == s && reason[..1] == [b];
      Kept(s, b, m, cb, StatusText);
      Begins(s.log, StatusText, b);
    } else {
      ReasonRead(s, reason, n - 1, m, cb);
      Kept(before, b, m, cb, StatusText);
      Grows(s.log, StatusText, reason[..n - 1], b);
    }
  }

  /** The callback for the reason, if there is one. */
  function ReasonEvents(reason: seq<byte>): seq<Event> {
    if reason == [] then [] else [Data(StatusText, reason)]
  }

  lemma StatusEnds(q: Fields, cb: HeadersCompleteCallback)
    ensures q.state.s_res_status_start? ==> Dispatch(q, CR, cb) == Next(q.(state := s_res_line_almost_done))
    ensures q.state.s_res_status? ==>
      Dispatch(q, CR, cb) == After(Deliver(StatusText), Next(q.(state := s_res_line_almost_done)))
    ensures q.state.s_res_line_almost_done? ==> Dispatch(q, LF, cb) == Next(q.(state := s_header_field_start))
  {}

  /** The reason and the end of the line. */
  lemma ReasonLineRead(s: Progress, reason: seq<byte>, m: Machine, cb: HeadersCompleteCallback)
    requires Runs(m, cb) && s.how == Go && s.q.state.s_res_status_start? && IsReason(reason)
    requires !EndsWith(s.log, StatusText)
    ensures
      var r := Run(s, reason + [CR, LF], m);
      && r.how == Go && r.q == s.q.(index := r.q.index, state := s_header_field_start)
      && r.log == s.log + ReasonEvents(reason)
  {
    hide Runs, Dispatch, RunTo;
    var a := Run(s, reason, m);
    WholeRun(s, reason, m);
    RunConcat(s, reason, [CR, LF], m);
    TwoSteps(a, CR, LF, m);
    if reason == [] {
      NoBytes(s, m);
      StatusEnds(s.q, cb);
      Onward(s, CR, s.q.(state := s_res_line_almost_done), m, cb);
    } else {
      ReasonRead(s, reason, |reason|, m, cb);
      assert reason[..|reason|] == reason;
      StatusEnds(a.q, cb);
      Ended(a, CR, m, cb, StatusText);
    }
    var b := m.step(a, CR);
    StatusEnds(b.q, cb);
    Onward(b, LF, b.q.(state := s_header_field_start), m, cb);
  }

  /** version SP code SP reason CRLF */
  function ResponseLine(major: byte, minor: byte, code: seq<byte>, reason: seq<byte>): seq<byte>
    requires IsCode(code)
  {
    CodeText(major, minor, code) + (reason + [CR, LF])
  }

  lemma ResponseLineRead(s: Progress, major: byte, minor: byte, code: seq<byte>, reason: seq<byte>, m: Machine,
                         cb: HeadersCompleteCallback)
    requires Runs(m, cb) && s.how == Go && Waits(s.q, true) && IsNum(major) && IsNum(minor) && IsCode(code)
    requires IsReason(reason)
    ensures
      var r := Run(s, ResponseLine(major, minor, code, reason), m);
      && r.how == Go && r.q.state.s_header_field_start? && Directed(r.q, true) && r.q.errno == OK
      && r.q.flags == NO_FLAGS && r.q.contentLength == ULLONG_MAX && r.q.statusCode == CodeOf(code)
      && r.q.httpMajor == Digit(major) && r.q.httpMinor == Digit(minor)
      && r.log == s.log + ([Notice(MessageBegin)] + ReasonEvents(reason))
  {
    hide Runs, RunTo, Run, StatusByte, IsCode;
    var a := Run(s, CodeText(major, minor, code), m);
    StatusRead(s, major, minor, code, 13, m, cb);
    WholeRun(s, CodeText(major, minor, code), m);
    ReasonLineRead(a, reason, m, cb);
    RunConcat(s, CodeText(major, minor, code), reason + [CR, LF], m);
    assert s.log + [Notice(MessageBegin)] + ReasonEvents(reason)
      == s.log + ([Notice(MessageBegin)] + ReasonEvents(reason));
  }

  // ---- headers -----------------------------------------------------------------------------

  datatype Header = Header(name: seq<byte>, value: seq<byte>)

  predicate IsToken(name: seq<byte>) {
    |name| > 0 && forall i :: 0 <= i < |name| ==> Token(name[i]) != 0
  }

  predicate IsValue(value: seq<byte>) {
    && (|value| > 0 ==> value[0] != SPACE && value[0] != TAB)
    && forall i :: 0 <= i < |value| ==> IsValueByte(value[i])
  }

  /** What the headers so far say: how the body is delimited, and which connection options there are. `recent` is a
      version from 1.1 on. */
  datatype Frame = Frame(chunked: bool, length: Option<nat>, recent: bool, keepAlive: bool, close: bool, switches: bool,
    upgrade: bool)

  predicate IsLength(value: seq<byte>) {
    |value| > 0 && IsNumeral(value) && Decimal(0, value) < DECIMAL_LIMIT
  }

  predicate IsChunked(value: seq<byte>) {
    |value| == 7 && forall i :: 0 <= i < 7 ==> Lower(value[i]) == "chunked"[i] as int
  }

  /** A list of connection options is added. */
  function Heeding(f: Frame, value: seq<byte>): Frame {
    f.(keepAlive := f.keepAlive || Found(value, KEEP_ALIVE), close := f.close || Found(value, CLOSE),
       switches := f.switches || Found(value, SWITCH))
  }

  /** The connection is kept after the message: from version 1.1 on unless it is to be closed, and before if it is to be
      kept alive. */
  predicate IsKept(f: Frame) {
    if f.recent then !f.close else f.keepAlive
  }

  /** What a header adds to it; nothing if the message is not one of those described here. */
  function FrameAfter(f: Frame, h: Header): Option<Frame> {
    match TopicOf(Lowered(h.name))
    case Connecting => Some(Heeding(f, h.value))
    case Sizing => if f.length == None && IsLength(h.value) then Some(f.(length := Some(Decimal(0, h.value)))) else None
    case Coding => if IsChunked(h.value) then Some(f.(chunked := true)) else None
    case Upgrading => Some(f.(upgrade := f.upgrade || |h.value| > 0))
    case Other => Some(f)
  }

  /** The same, as the parser's fields have it. */
  predicate Persistent(q: Fields) {
    if q.httpMajor > 0 && q.httpMinor > 0 then !q.flags.close else q.flags.keepAlive
  }

  /** What the first line was: that of a request, or of a response. */
  datatype Line = Asked(verb: Method) | Answered(status: nat)

  predicate HasRead(q: Fields, v: Line) {
    match v
    case Asked(verb) => q.typ.REQUEST? && q.verb == verb
    case Answered(status) => q.typ.RESPONSE? && q.statusCode == status && !q.verb.CONNECT?
  }

  /** What is known of the parser between headers. */
  predicate Head(q: Fields, v: Line, f: Frame) {
    && HasRead(q, v) && q.errno == OK
    && !q.flags.trailing && !q.flags.skipBody && q.flags.upgrade == f.upgrade && q.flags.chunked == f.chunked
    && q.flags.hasLength == f.length.Some? && q.contentLength == (if f.length.Some? then f.length.value else ULLONG_MAX)
    && q.flags.keepAlive == f.keepAlive && q.flags.close == f.close && q.flags.connectionUpgrade == f.switches
    && (q.httpMajor > 0 && q.httpMinor > 0) == f.recent
  }

  predicate BehindValue(s: State) {
    s.s_header_value_lws? || s.s_header_value_discard_lws?
  }

  /** The parser once the line of a header is known to be over, and what it then has reported. */
  function Settled(q: Fields): Fields {
    if BehindValue(q.state) then q.(flags := Recognised(q.headerState, q.flags), state := s_header_field_start) else q
  }

  function SettledLog(s: Progress): seq<Event> {
    if s.q.state.s_header_value_discard_lws? then Add(s.log, Data(HeaderValue, [])) else s.log
  }

  /** At the start of a line. */
  predicate AtLine(s: Progress, v: Line, f: Frame, log: seq<Event>) {
    && s.how == Go && Settled(s.q).state.s_header_field_start? && Head(Settled(s.q), v, f) && SettledLog(s) == log
  }

  /** A line that does not begin with white space is read as if the one before had been over already. */
  lemma LineSettles(s: Progress, b: byte, m: Machine, cb: HeadersCompleteCallback)
    requires Runs(m, cb) && s.how == Go && b != SPACE && b != TAB && Settled(s.q).state.s_header_field_start?
    ensures
      var t := s.(q := Settled(s.q), log := SettledLog(s));
      var r, u := m.step(s, b), m.step(t, b);
      r.q == u.q && r.how == u.how && r.log == u.log
  {
    hide Runs, Dispatch, OnFieldStart, EventsOf, Settled;
    var t := s.(q := Settled(s.q), log := SettledLog(s));
    Stepped(s, b, m, cb);
    Stepped(t, b, m, cb);
    LineDispatch(s.q, b, cb);
    var o := OnFieldStart(Settled(s.q), b, cb);
    if s.q.state.s_header_value_discard_lws? {
      EmptyValueFirst(o, b);
      AddAllConcat(s.log, [Data(HeaderValue, [])], EventsOf(o, s_header_field_start, b));
      AddAllOne(s.log, Data(HeaderValue, []));
    } else {
      EventsAlike(o, s.q.state, b);
    }
  }

  lemma EventsAlike(o: Outcome, s: State, b: byte)
    requires s.s_header_value_lws? || s.s_header_field_start?
    ensures EventsOf(o, s, b) == EventsOf(o, s_header_field_start, b)
  {}

  lemma LineDispatch(q: Fields, b: byte, cb: HeadersCompleteCallback)
    requires b != SPACE && b != TAB && Settled(q).state.s_header_field_start?
    ensures Dispatch(Settled(q), b, cb) == OnFieldStart(Settled(q), b, cb)
    ensures Dispatch(q, b, cb)
      == var o := OnFieldStart(Settled(q), b, cb);
         if q.state.s_header_value_discard_lws? then After(Mark(HeaderValue), After(Deliver(HeaderValue), o)) else o
    ensures q.state.s_header_value_discard_lws? || q.state.s_header_value_lws? || q.state.s_header_field_start?
  {
    hide OnFieldStart, Recognised;
  }

  lemma EmptyValueFirst(o: Outcome, b: byte)
    ensures EventsOf(After(Mark(HeaderValue), After(Deliver(HeaderValue), o)), s_header_value_discard_lws, b)
      == [Data(HeaderValue, [])] + EventsOf(o, s_header_field_start, b)
  {
    var none: seq<Event> := [];
    var r := Apply(o.acts, Unset, [b], 0);
    assert [b][0..0] == [];
    assert Apply(Then(Deliver(HeaderValue), o.acts), Set(HeaderValue, 0), [b], 0)
      == ([Data(HeaderValue, [])] + r.0, r.1);
    assert none + ([Data(HeaderValue, [])] + r.0) == [Data(HeaderValue, [])] + r.0;
    assert [Data(HeaderValue, [])] + r.0 + Flush(r.1, [b]) == [Data(HeaderValue, [])] + (r.0 + Flush(r.1, [b]));
  }

  lemma TokenByte(b: byte)
    requires Token(b) != 0
    ensures b != SPACE && b != TAB && b != CR && b != LF
  {}

  lemma NameStarts(q: Fields, b: byte, cb: HeadersCompleteCallback)
    requires q.state.s_header_field_start? && Token(b) != 0
    ensures Dispatch(q, b, cb)
      == After(Mark(HeaderField), Next(q.(state := s_header_field, index := 0, headerState := FieldStart(Token(b)))))
  {
    TokenByte(b);
    hide Token;
  }

  lemma NameGoesOn(q: Fields, b: byte, cb: HeadersCompleteCallback, t: seq<byte>)
    requires q.state.s_header_field? && Token(b) != 0 && Tracks(t, q.headerState, q.index)
    ensures
      var r := FieldChar(q.headerState, q.index, b, Token(b));
      Dispatch(q, b, cb) == Next(q.(headerState := r.0, index := r.1))
  {
    hide Token, FieldChar, PrefixOf, NoPrefix;
  }

  lemma {:induction false} NameRead(s: Progress, v: Line, f: Frame, log: seq<Event>, name: seq<byte>, n: nat,
                                    m: Machine, cb: HeadersCompleteCallback)
    requires Runs(m, cb) && AtLine(s, v, f, log) && IsToken(name) && 1 <= n <= |name| && !EndsWith(log, HeaderField)
    ensures
      var r := RunTo(s, name, n, m);
      && r.how == Go && r.q.state.s_header_field? && Head(r.q, v, f)
      && Tracks(Lowered(name[..n]), r.q.headerState, r.q.index) && r.log == log + [Data(HeaderField, name[..n])]
    decreases n
  {
    hide Runs, Dispatch, Token, FieldChar, FieldStart, Tracks, Settled, SettledLog, Head;
    var before, b := RunTo(s, name, n - 1, m), name[n - 1];
    assert name[..n][..n - 1] == name[..n - 1] && name[..n] == name[..n - 1] + [b];
    TokenByte(b);
    if n == 1 {
      var t := s.(q := Settled(s.q), log := SettledLog(s));
      assert before == s && name[..1] == [b] && Lowered([b][..0]) == [];
      LineSettles(s, b, m, cb);
      NameStarts(t.q, b, cb);
      Kept(t, b, m, cb, HeaderField);
      Begins(log, HeaderField, b);
      StartTracks(Token(b));
      HeadAlike(t.q, m.step(s, b).q, v, f);
      assert Lowered([b]) == [Token(b)];
    } else {
      NameRead(s, v, f, log, name, n - 1, m, cb);
      NameGoesOn(before.q, b, cb, Lowered(name[..n - 1]));
      Kept(before, b, m, cb, HeaderField);
      Grows(log, HeaderField, name[..n - 1], b);
      FieldTracks(Lowered(name[..n - 1]), before.q.headerState, before.q.index, b, Token(b));
      HeadAlike(before.q, m.step(before, b).q, v, f);
    }
  }

  /** Where the parser stands in a name does not matter. */
  lemma HeadAlike(q: Fields, p: Fields, v: Line, f: Frame)
    requires p == q.(state := p.state, headerState := p.headerState, index := p.index)
    ensures Head(p, v, f) == Head(q, v, f)
  {}

  lemma ColonEnds(q: Fields, cb: HeadersCompleteCallback)
    requires q.state.s_header_field?
    ensures Dispatch(q, ':' as int, cb) == After(Deliver(HeaderField), To(q, s_header_value_discard_ws))
  {}

  lemma BlankPasses(q: Fields, cb: HeadersCompleteCallback)
    requires q.state.s_header_value_discard_ws?
    ensures Dispatch(q, SPACE, cb) == Next(q)
  {}

  /** name: and a blank */
  lemma NameEnds(s: Progress, v: Line, f: Frame, log: seq<Event>, name: seq<byte>, m: Machine,
                 cb: HeadersCompleteCallback)
    requires Runs(m, cb) && AtLine(s, v, f, log) && IsToken(name) && !EndsWith(log, HeaderField)
    ensures
      var r := Run(s, name + [':' as int, SPACE], m);
      && r.how == Go && r.q.state.s_header_value_discard_ws? && Head(r.q, v, f)
      && TopicAt(r.q.headerState) == TopicOf(Lowered(name)) && IsFieldState(r.q.headerState)
      && r.log == log + [Data(HeaderField, name)]
  {
    hide Runs, Dispatch, Tracks, AtLine, RunTo, IsToken, TopicOf, TopicAt, IsFieldState;
    var a := Run(s, name, m);
    TokenNotEmpty(name);
    NameRead(s, v, f, log, name, |name|, m, cb);
    WholeRun(s, name, m);
    assert name[..|name|] == name;
    TracksTell(Lowered(name), a.q.headerState, a.q.index);
    TracksField(Lowered(name), a.q.headerState, a.q.index);
    ColonEnds(a.q, cb);
    Ended(a, ':' as int, m, cb, HeaderField);
    var b := m.step(a, ':' as int);
    BlankPasses(b.q, cb);
    Onward(b, SPACE, b.q, m, cb);
    RunConcat(s, name, [':' as int, SPACE], m);
    assert [':' as int, SPACE] == [':' as int] + [SPACE];
    RunFirst(a, ':' as int, [SPACE], m);
    RunOne(b, SPACE, m);
  }

  lemma TokenNotEmpty(name: seq<byte>)
    requires IsToken(name)
    ensures |name| > 0
  {}

  lemma TracksField(t: seq<byte>, h: HeaderState, i: nat)
    requires Tracks(t, h, i)
    ensures IsFieldState(h)
  {
    hide PrefixOf, NoPrefix;
  }

  // ---- values of headers -------------------------------------------------------------------

  /** The flags without the options of the value that is being read. */
  function FlagsAt(flags: Flags, f: Frame): Flags {
    flags.(keepAlive := f.keepAlive, close := f.close, connectionUpgrade := f.switches)
  }

  /** The parser once it has read the first bytes `u` of a value. */
  predicate InValue(q: Fields, v: Line, f: Frame, topic: Topic, u: seq<byte>) {
    && q.state.s_header_value?
    && match topic
       case Other => q.headerState.h_general? && Head(q, v, f)
       case Connecting =>
         Head(q.(flags := FlagsAt(q.flags, f)), v, f) && Knows(q, FlagsAt(q.flags, f), Pieces(u))
       case Sizing =>
         && q.headerState.h_content_length? && f.length == None
         && Head(q, v, f.(length := Some(Decimal(0, u))))
       case Coding =>
         && Head(q, v, f)
         && if |u| < 7 then q.headerState.h_matching_transfer_encoding_chunked? && q.index + 1 == |u|
            else q.headerState.h_transfer_encoding_chunked?
       case Upgrading => q.headerState.h_general? && Head(q, v, f.(upgrade := true))
  }

  /** A value that is understood for its topic. */
  predicate Suits(f: Frame, topic: Topic, value: seq<byte>) {
    match topic
    case Connecting => true
    case Sizing => f.length == None && IsLength(value)
    case Coding => IsChunked(value)
    case Upgrading => true
    case Other => true
  }

  lemma ValueStarts(q: Fields, v: Line, f: Frame, topic: Topic, b: byte, cb: HeadersCompleteCallback)
    requires q.state.s_header_value_discard_ws? && Head(q, v, f)
    requires TopicAt(q.headerState) == topic && IsFieldState(q.headerState)
    requires b != SPACE && b != TAB && IsValueByte(b)
    requires topic.Sizing? ==> IsNum(b) && f.length == None
    requires topic.Coding? ==> Lower(b) == 'c' as int
    ensures
      var o := Dispatch(q, b, cb);
      o.how == Go && o.acts == Then(Mark(HeaderValue), Done) && InValue(o.q, v, f, topic, [b])
  {
    hide Decimal, Lower, Dispatch, Head, InValue, OnValueStart;
    assert Dispatch(q, b, cb) == OnValueStart(q, b) by {
      FirstOfValue(q, b, cb);
    }
    if topic.Connecting? {
      FirstOption(q, v, f, b);
    } else {
      FirstRead(q, v, f, topic, b);
    }
  }

  lemma FirstOption(q: Fields, v: Line, f: Frame, b: byte)
    requires Head(q, v, f) && q.headerState.h_connection? && IsValueByte(b) && b != SPACE
    ensures
      var o := OnValueStart(q, b);
      o.how == Go && o.acts == Then(Mark(HeaderValue), Done) && InValue(o.q, v, f, Connecting, [b])
  {
    hide Knows, Pieces, IsValueByte, Head;
    var o := OnValueStart(q, b);
    assert o.q == q.(state := s_header_value, index := 0, headerState := StartOption(Lower(b)));
    hide StartOption, Lower, OnValueStart;
    KnowsFirst(o.q, b);
    FlagsHere(q, v, f);
    HeadAlike(q, o.q, v, f);
  }

  lemma FlagsHere(q: Fields, v: Line, f: Frame)
    requires Head(q, v, f)
    ensures FlagsAt(q.flags, f) == q.flags
  {}

  lemma FirstOfValue(q: Fields, b: byte, cb: HeadersCompleteCallback)
    requires q.state.s_header_value_discard_ws? && b != SPACE && b != TAB && b != CR && b != LF
    ensures Dispatch(q, b, cb) == OnValueStart(q, b)
  {
    hide OnValueStart;
  }

  lemma FirstRead(q: Fields, v: Line, f: Frame, topic: Topic, b: byte)
    requires Head(q, v, f) && TopicAt(q.headerState) == topic && IsFieldState(q.headerState) && !topic.Connecting?
    requires topic.Sizing? ==> IsNum(b) && f.length == None
    requires topic.Coding? ==> Lower(b) == 'c' as int
    ensures
      var o := OnValueStart(q, b);
      o.how == Go && o.acts == Then(Mark(HeaderValue), Done) && InValue(o.q, v, f, topic, [b])
  {
    hide Lower;
    var o := OnValueStart(q, b);
    match topic {
      case Sizing => FirstDigitRead(q, v, f, b);
      case Upgrading => FirstOfUpgrade(q, v, f, b);
      case _ => HeadAlike(q, o.q, v, f);
    }
  }

  lemma FirstDigitRead(q: Fields, v: Line, f: Frame, b: byte)
    requires Head(q, v, f) && q.headerState.h_content_length? && IsNum(b) && f.length == None
    ensures
      var o := OnValueStart(q, b);
      o.how == Go && o.acts == Then(Mark(HeaderValue), Done) && InValue(o.q, v, f, Sizing, [b])
  {
    OneDigit(0, b);
    hide Decimal, Lower;
  }

  lemma FirstOfUpgrade(q: Fields, v: Line, f: Frame, b: byte)
    requires Head(q, v, f) && q.headerState.h_upgrade?
    ensures
      var o := OnValueStart(q, b);
      o.how == Go && o.acts == Then(Mark(HeaderValue), Done) && InValue(o.q, v, f, Upgrading, [b])
  {
    hide Lower;
  }

  lemma FlagsAgain(q: Fields, flags: Flags, f: Frame, ps: seq<seq<byte>>)
    requires |ps| > 0 && Knows(q, flags, ps) && flags == FlagsAt(flags, f)
    ensures FlagsAt(q.flags, f) == flags
  {
    hide Heard, Stands;
  }

  lemma OptionGoesOn(q: Fields, v: Line, f: Frame, u: seq<byte>, b: byte)
    requires InValue(q, v, f, Connecting, u) && IsValueByte(b)
    ensures
      var r := ValueChar(q, b);
      && r.ValueOk?
      && InValue(q.(headerState := r.h, index := r.index, flags := r.flags, contentLength := r.contentLength), v, f,
                 Connecting, u + [b])
  {
    hide Knows, ValueChar, Pieces;
    var r, flags := ValueChar(q, b), FlagsAt(q.flags, f);
    KnowsMore(q, flags, u, b);
    FlagsAgain(Valued(q, r), flags, f, Pieces(u + [b]));
    assert Valued(q, r) == q.(headerState := r.h, index := r.index, flags := r.flags, contentLength := r.contentLength);
  }

  lemma LengthGoesOn(q: Fields, value: seq<byte>, n: nat)
    requires 1 <= n < |value| && IsLength(value) && q.headerState.h_content_length?
    requires q.contentLength == Decimal(0, value[..n])
    ensures Decimal(0, value[..n + 1]) < DECIMAL_LIMIT
    ensures ValueChar(q, value[n]) == ValueOk(h_content_length, q.index, q.flags, Decimal(0, value[..n + 1]))
  {
    var u, b := value[..n], value[n];
    assert value[..n + 1] == u + [b] && value == (u + [b]) + value[n + 1..];
    DecimalConcat(0, u, [b]);
    OneDigit(Decimal(0, u), b);
    DecimalConcat(0, u + [b], value[n + 1..]);
    DecimalGrows(Decimal(0, u + [b]), value[n + 1..]);
    hide Decimal, Lower;
  }

  lemma CodingGoesOn(q: Fields, value: seq<byte>, n: nat)
    requires 1 <= n < |value| && IsChunked(value)
    requires q.headerState.h_matching_transfer_encoding_chunked? && q.index + 1 == n
    ensures
      ValueChar(q, value[n])
      == ValueOk(if n + 1 < 7 then h_matching_transfer_encoding_chunked else h_transfer_encoding_chunked, n, q.flags,
                 q.contentLength)
  {
    hide Lower;
  }

  lemma ValueDispatch(q: Fields, b: byte, cb: HeadersCompleteCallback)
    requires q.state.s_header_value? && IsValueByte(b) && ValueChar(q, b).ValueOk?
    ensures
      var r := ValueChar(q, b);
      Dispatch(q, b, cb)
      == Next(q.(headerState := r.h, index := r.index, flags := r.flags, contentLength := r.contentLength))
  {
    hide ValueChar;
  }

  lemma ValueGoesOn(q: Fields, v: Line, f: Frame, topic: Topic, value: seq<byte>, n: nat, cb: HeadersCompleteCallback)
    requires 1 <= n < |value| && IsValueByte(value[n]) && Suits(f, topic, value) && InValue(q, v, f, topic, value[..n])
    ensures
      var o := Dispatch(q, value[n], cb);
      o.how == Go && o.acts == Done && InValue(o.q, v, f, topic, value[..n + 1])
  {
    hide Dispatch, ValueChar, Decimal, IsValueByte, IsLength, IsChunked;
    var b := value[n];
    match topic {
      case Connecting =>
        assert value[..n + 1] == value[..n] + [b];
        OptionGoesOn(q, v, f, value[..n], b);
      case Sizing => LengthGoesOn(q, value, n);
      case Coding =>
        ChunkedLength(value);
        CodingGoesOn(q, value, n);
      case _ => GeneralGoesOn(q, b);
    }
    ValueDispatch(q, b, cb);
  }

  lemma ChunkedLength(value: seq<byte>)
    requires IsChunked(value)
    ensures |value| == 7
  {}

  lemma GeneralGoesOn(q: Fields, b: byte)
    requires q.headerState.h_general?
    ensures ValueChar(q, b) == KeepValue(q, h_general)
  {}

  lemma {:induction false} ValueRead(s: Progress, v: Line, f: Frame, topic: Topic, value: seq<byte>, n: nat,
                                     m: Machine, cb: HeadersCompleteCallback)
    requires Runs(m, cb) && s.how == Go && s.q.state.s_header_value_discard_ws? && Head(s.q, v, f)
    requires TopicAt(s.q.headerState) == topic && IsFieldState(s.q.headerState)
    requires IsValue(value) && Suits(f, topic, value) && 1 <= n <= |value| && !EndsWith(s.log, HeaderValue)
    ensures
      var r := RunTo(s, value, n, m);
      r.how == Go && InValue(r.q, v, f, topic, value[..n]) && r.log == s.log + [Data(HeaderValue, value[..n])]
    decreases n
  {
    hide Runs, Dispatch, Head, TopicAt, IsFieldState;
    var before, b := RunTo(s, value, n - 1, m), value[n - 1];
    assert value[..n] == value[..n - 1] + [b];
    if n == 1 {
      assert before == s && value[..1] == [b];
      FirstFits(f, topic, value);
      ValueStarts(s.q, v, f, topic, b, cb);
      Kept(s, b, m, cb, HeaderValue);
      Begins(s.log, HeaderValue, b);
    } else {
      ValueRead(s, v, f, topic, value, n - 1, m, cb);
      ValueGoesOn(before.q, v, f, topic, value, n - 1, cb);
      Kept(before, b, m, cb, HeaderValue);
      Grows(s.log, HeaderValue, value[..n - 1], b);
    }
  }

  lemma FirstFits(f: Frame, topic: Topic, value: seq<byte>)
    requires Suits(f, topic, value) && |value| > 0
    ensures topic.Sizing? ==> IsNum(value[0]) && f.length == None
    ensures topic.Coding? ==> Lower(value[0]) == 'c' as int
  {}

  lemma ValueEnds(q: Fields, cb: HeadersCompleteCallback)
    ensures q.state.s_header_value? ==> Dispatch(q, CR, cb) == After(Deliver(HeaderValue), To(q, s_header_almost_done))
    ensures q.state.s_header_almost_done? ==> Dispatch(q, LF, cb) == To(q, s_header_value_lws)
    ensures q.state.s_header_value_discard_ws? ==> Dispatch(q, CR, cb) == To(q, s_header_value_discard_ws_almost_done)
    ensures q.state.s_header_value_discard_ws_almost_done? ==> Dispatch(q, LF, cb) == To(q, s_header_value_discard_lws)
  {
    hide ValueChar, Recognised;
  }

  /** The frame once a value is over. */
  function FrameWith(f: Frame, topic: Topic, value: seq<byte>): Frame {
    match topic
    case Connecting => Heeding(f, value)
    case Sizing => f.(length := Some(Decimal(0, value)))
    case Coding => f.(chunked := true)
    case Upgrading => f.(upgrade := f.upgrade || |value| > 0)
    case Other => f
  }

  lemma ValueSettles(q: Fields, v: Line, f: Frame, topic: Topic, value: seq<byte>)
    requires InValue(q, v, f, topic, value) && Suits(f, topic, value) && |value| > 0
    ensures Head(Settled(q.(state := s_header_value_lws)), v, FrameWith(f, topic, value))
  {
    hide Decimal, IsLength, Head, Knows, Heeding, Recognised, Settled;
    match topic {
      case Connecting => OptionsSettle(q, v, f, value);
      case Coding => CodingSettles(q, v, f, value);
      case _ => OthersSettle(q);
    }
    HeadElsewhere(q, v);
  }

  lemma OptionsSettle(q: Fields, v: Line, f: Frame, value: seq<byte>)
    requires Head(q.(flags := FlagsAt(q.flags, f)), v, f) && Knows(q, FlagsAt(q.flags, f), Pieces(value))
    ensures Head(Settled(q.(state := s_header_value_lws)), v, Heeding(f, value))
  {
    hide Knows, Pieces, Recognised, Found;
    KnowsAll(q, FlagsAt(q.flags, f), value);
  }

  lemma CodingSettles(q: Fields, v: Line, f: Frame, value: seq<byte>)
    requires InValue(q, v, f, Coding, value) && IsChunked(value)
    ensures Head(Settled(q.(state := s_header_value_lws)), v, f.(chunked := true))
  {}

  lemma OthersSettle(q: Fields)
    requires q.headerState.h_content_length? || q.headerState.h_general?
    ensures Settled(q.(state := s_header_value_lws)) == q.(state := s_header_field_start)
  {}

  /** Where the parser stands in a line does not matter. */
  lemma HeadElsewhere(q: Fields, v: Line)
    ensures forall f, s :: Head(q.(state := s), v, f) == Head(q, v, f)
  {}

  lemma EmptySettles(q: Fields, v: Line, f: Frame)
    requires Head(q, v, f) && IsFieldState(q.headerState)
    ensures Head(Settled(q.(state := s_header_value_discard_lws)), v, f)
  {
    assert Recognised(q.headerState, q.flags) == q.flags;
    hide IsFieldState, Recognised, Head;
    HeadElsewhere(q, v);
    assert Settled(q.(state := s_header_value_discard_lws)) == q.(state := s_header_field_start);
  }

  lemma TwoSteps(s: Progress, a: byte, b: byte, m: Machine)
    ensures Run(s, [a, b], m) == m.step(m.step(s, a), b)
  {
    assert [a, b] == [a] + [b];
    RunFirst(s, a, [b], m);
    RunOne(m.step(s, a), b, m);
  }

  /** A value and the end of its line. */
  lemma ValueLineRead(s: Progress, v: Line, f: Frame, topic: Topic, value: seq<byte>, m: Machine,
                      cb: HeadersCompleteCallback)
    requires Runs(m, cb) && s.how == Go && s.q.state.s_header_value_discard_ws? && Head(s.q, v, f)
    requires TopicAt(s.q.headerState) == topic && IsFieldState(s.q.headerState)
    requires IsValue(value) && |value| > 0 && Suits(f, topic, value) && !EndsWith(s.log, HeaderValue)
    ensures
      AtLine(Run(s, value + [CR, LF], m), v, FrameWith(f, topic, value), s.log + [Data(HeaderValue, value)])
  {
    hide Runs, Dispatch, Head, TopicAt, IsFieldState, RunTo, InValue, Suits, FrameWith, Settled, IsValue;
    var a := Run(s, value, m);
    ValueRead(s, v, f, topic, value, |value|, m, cb);
    WholeRun(s, value, m);
    assert value[..|value|] == value;
    IsInValue(a.q, v, f, topic, value);
    ValueEnds(a.q, cb);
    Ended(a, CR, m, cb, HeaderValue);
    var b := m.step(a, CR);
    ValueEnds(b.q, cb);
    Onward(b, LF, b.q.(state := s_header_value_lws), m, cb);
    ValueSettles(a.q, v, f, topic, value);
    RunConcat(s, value, [CR, LF], m);
    TwoSteps(a, CR, LF, m);
    SettledIs(a.q.(state := s_header_value_lws));
    assert b.q.(state := s_header_value_lws) == a.q.(state := s_header_value_lws);
  }

  lemma IsInValue(q: Fields, v: Line, f: Frame, topic: Topic, u: seq<byte>)
    requires InValue(q, v, f, topic, u)
    ensures q.state.s_header_value?
  {}

  lemma SettledIs(q: Fields)
    requires BehindValue(q.state)
    ensures Settled(q).state.s_header_field_start?
  {
    hide Recognised;
  }

  lemma EmptyLineRead(s: Progress, v: Line, f: Frame, m: Machine, cb: HeadersCompleteCallback)
    requires Runs(m, cb) && s.how == Go && s.q.state.s_header_value_discard_ws? && Head(s.q, v, f)
    requires IsFieldState(s.q.headerState) && !EndsWith(s.log, HeaderValue)
    ensures AtLine(Run(s, [CR, LF], m), v, f, s.log + [Data(HeaderValue, [])])
  {
    hide Runs, Dispatch, Head, IsFieldState, Settled;
    var a := m.step(s, CR);
    ValueEnds(s.q, cb);
    Onward(s, CR, s.q.(state := s_header_value_discard_ws_almost_done), m, cb);
    ValueEnds(a.q, cb);
    Onward(a, LF, a.q.(state := s_header_value_discard_lws), m, cb);
    TwoSteps(s, CR, LF, m);
    EmptySettles(s.q, v, f);
    SettledIs(s.q.(state := s_header_value_discard_lws));
    assert a.q.(state := s_header_value_discard_lws) == s.q.(state := s_header_value_discard_lws);
  }

  function HeaderText(h: Header): seq<byte> {
    (h.name + [':' as int, SPACE]) + (h.value + [CR, LF])
  }

  function HeaderEvents(h: Header): seq<Event> {
    [Data(HeaderField, h.name), Data(HeaderValue, h.value)]
  }

  lemma HeaderRead(s: Progress, v: Line, f: Frame, log: seq<Event>, h: Header, m: Machine,
                   cb: HeadersCompleteCallback)
    requires Runs(m, cb) && AtLine(s, v, f, log) && !EndsWith(log, HeaderField)
    requires IsToken(h.name) && IsValue(h.value) && FrameAfter(f, h).Some?
    ensures AtLine(Run(s, HeaderText(h), m), v, FrameAfter(f, h).value, log + HeaderEvents(h))
  {
    var topic := TopicOf(Lowered(h.name));
    FrameFits(f, h);
    hide Runs, AtLine, IsToken, IsValue, TopicOf, TopicAt, Suits, Head, FrameAfter, Run, IsFieldState, FrameWith;
    var a := Run(s, h.name + [':' as int, SPACE], m);
    NameEnds(s, v, f, log, h.name, m, cb);
    RunConcat(s, h.name + [':' as int, SPACE], h.value + [CR, LF], m);
    assert log + [Data(HeaderField, h.name)] + [Data(HeaderValue, h.value)] == log + HeaderEvents(h);
    if |h.value| > 0 {
      ValueLineRead(a, v, f, topic, h.value, m, cb);
    } else {
      EmptyLineRead(a, v, f, m, cb);
      assert h.value + [CR, LF] == [CR, LF] && h.value == [];
    }
  }

  lemma FrameFits(f: Frame, h: Header)
    requires FrameAfter(f, h).Some?
    ensures
      var topic := TopicOf(Lowered(h.name));
      && Suits(f, topic, h.value) && FrameAfter(f, h).value == FrameWith(f, topic, h.value)
      && (|h.value| == 0 ==> FrameWith(f, topic, h.value) == f)
  {
    hide TopicOf, Decimal, Found;
    NothingFound(KEEP_ALIVE);
    NothingFound(CLOSE);
    NothingFound(SWITCH);
    assert |h.value| == 0 ==> h.value == [];
  }

  function HeaderTexts(headers: seq<Header>): seq<byte> {
    if headers == [] then [] else HeaderText(headers[0]) + HeaderTexts(headers[1..])
  }

  function AllHeaderEvents(headers: seq<Header>): seq<Event> {
    if headers == [] then [] else HeaderEvents(headers[0]) + AllHeaderEvents(headers[1..])
  }

  /** What the headers say about the body; nothing if they are not legal. */
  function FrameOf(f: Frame, headers: seq<Header>): Option<Frame>
    decreases |headers|
  {
    if headers == [] then Some(f)
    else
      var h := headers[0];
      if IsToken(h.name) && IsValue(h.value) && FrameAfter(f, h).Some? then
        FrameOf(FrameAfter(f, h).value, headers[1..])
      else None
  }

  lemma {:induction false} HeadersRead(s: Progress, v: Line, f: Frame, log: seq<Event>, headers: seq<Header>,
                                       m: Machine, cb: HeadersCompleteCallback)
    requires Runs(m, cb) && AtLine(s, v, f, log) && !EndsWith(log, HeaderField) && FrameOf(f, headers).Some?
    ensures
      var all := log + AllHeaderEvents(headers);
      AtLine(Run(s, HeaderTexts(headers), m), v, FrameOf(f, headers).value, all) && !EndsWith(all, HeaderField)
    decreases |headers|
  {
    hide Runs, AtLine, IsToken, IsValue, FrameAfter, HeaderText, Run;
    if headers == [] {
      NoBytes(s, m);
      assert log + AllHeaderEvents(headers) == log;
    } else {
      var h := headers[0];
      HeaderRead(s, v, f, log, h, m, cb);
      RunConcat(s, HeaderText(h), HeaderTexts(headers[1..]), m);
      HeadersRead(Run(s, HeaderText(h), m), v, FrameAfter(f, h).value, log + HeaderEvents(h), headers[1..], m, cb);
      assert log + HeaderEvents(h) + AllHeaderEvents(headers[1..]) == log + AllHeaderEvents(headers);
    }
  }

  lemma NoBytes(s: Progress, m: Machine)
    ensures Run(s, [], m) == s
  {}

  // ---- the end of the headers --------------------------------------------------------------

  /** Every message is to be read as it is. */
  ghost predicate Proceeds(cb: HeadersCompleteCallback) {
    forall q: Fields :: cb(q) == Proceed
  }

  /** The parser leaves the connection to another protocol behind the message: after CONNECT, and where an Upgrade
      header goes with the option "upgrade". */
  predicate Leaves(v: Line, f: Frame) {
    v == Asked(CONNECT) || (f.upgrade && f.switches)
  }

  /** A response whose body goes on until the connection is closed, as section 3.3.3 of RFC 7230 has it: it has no
      length, and its status is none of those without a body. */
  predicate UntilClosed(v: Line, f: Frame) {
    && v.Answered? && v.status / 100 != 1 && v.status != 204 && v.status != 304
    && !f.chunked && f.length == None
  }

  /** How the body is delimited, as `on_headers_complete` can tell. */
  function FramingOf(v: Line, f: Frame): Framing {
    if v == Asked(CONNECT) then NoBody
    else if f.chunked then Chunked
    else if f.length.Some? && f.length.value > 0 then Framing.Length(f.length.value)
    else if UntilClosed(v, f) && !Leaves(v, f) then UntilEof
    else NoBody
  }

  predicate Unambiguous(f: Frame) {
    !(f.chunked && f.length.Some?) && (f.length.Some? ==> f.length.value < DECIMAL_LIMIT)
  }

  /** What comes behind a message: whether the parser reads responses, whether the connection is kept, and whether it is
      left to another protocol. */
  datatype Outlook = Outlook(reply: bool, keeps: bool, leaves: bool)
  {
    function How(): How {
      if leaves then Exit else Go
    }
  }

  function OutlookOf(v: Line, f: Frame): Outlook {
    Outlook(v.Answered?, IsKept(f) && !UntilClosed(v, f), Leaves(v, f))
  }

  lemma CrEndsHeaders(q: Fields, cb: HeadersCompleteCallback)
    requires q.state.s_header_field_start?
    ensures Dispatch(q, CR, cb) == To(q, s_headers_almost_done)
  {}

  /** What is known of the parser while a body is read. */
  predicate InBody(q: Fields, chunked: bool, e: Outlook) {
    && Directed(q, e.reply) && q.errno == OK && q.upgrade == e.leaves && !q.flags.trailing && q.flags.chunked == chunked
    && Persistent(q) == e.keeps
  }

  /** A parser between two messages, or behind the last one that it takes. */
  predicate Rests(q: Fields, e: Outlook) {
    && Directed(q, e.reply) && q.errno == OK
    && q.state == if !e.keeps then s_dead else if e.reply then s_start_res else s_start_req
  }

  /** The parser with its headers over. */
  predicate HeadOver(q: Fields, v: Line, f: Frame) {
    match FramingOf(v, f)
    case NoBody => Rests(q, OutlookOf(v, f))
    case Length(n) => q.state.s_body_identity? && q.contentLength == n && InBody(q, false, OutlookOf(v, f))
    case Chunked => q.state.s_chunk_size_start? && InBody(q, true, OutlookOf(v, f))
    case UntilEof => q.state.s_body_identity_eof? && Directed(q, true) && q.errno == OK
  }

  function HowOver(v: Line, f: Frame): How {
    if FramingOf(v, f).NoBody? then OutlookOf(v, f).How() else Go
  }

  /** What the parser does with the last byte of the headers. */
  lemma HeadersEndDispatch(q: Fields, v: Line, f: Frame, cb: HeadersCompleteCallback)
    requires q.state.s_headers_almost_done? && Head(q, v, f) && Unambiguous(f) && Proceeds(cb)
    ensures
      var o := Dispatch(q, LF, cb);
      && o.how == HowOver(v, f) && HeadOver(o.q, v, f)
      && o.acts == Then(Notify(HeadersComplete(FramingOf(v, f))),
                        if FramingOf(v, f).NoBody? then Then(Notify(MessageComplete), Done) else Done)
  {
    var p := q.(state := s_headers_done, upgrade := Leaves(v, f));
    assert cb(p) == Proceed;
    AlmostDone(q, v, f, cb);
    FramingFits(p, v, f);
    DoneDispatch(p, v, f);
    hide OnHeadersAlmostDone, OnHeadersDone, FramingOf, HeadOver, HowOver, BodyFraming, Head, Leaves;
  }

  lemma AlmostDone(q: Fields, v: Line, f: Frame, cb: HeadersCompleteCallback)
    requires q.state.s_headers_almost_done? && Head(q, v, f) && Unambiguous(f)
    ensures
      var p := q.(state := s_headers_done, upgrade := Leaves(v, f));
      && Head(p, v, f)
      && (cb(p) == Proceed ==>
            Dispatch(q, LF, cb) == After(Notify(HeadersComplete(BodyFraming(p))), OnHeadersDone(p, LF)))
  {
    hide BodyFraming, OnHeadersDone, UntilClosed;
  }

  lemma FramingFits(p: Fields, v: Line, f: Frame)
    requires Head(p, v, f) && Unambiguous(f) && p.upgrade == Leaves(v, f)
    ensures BodyFraming(p) == FramingOf(v, f)
    ensures LeavesForUpgrade(p) || !NeedsEof(p) || FramingOf(v, f).UntilEof?
    ensures LeavesForUpgrade(p) <==> Leaves(v, f) && FramingOf(v, f).NoBody?
  {}

  lemma MessageStays(p: Fields, v: Line, f: Frame)
    requires Head(p, v, f) && Unambiguous(f)
    ensures Rests(p.(state := NewMessage(p)), OutlookOf(v, f))
  {}

  lemma DoneDispatch(p: Fields, v: Line, f: Frame)
    requires Head(p, v, f) && Unambiguous(f) && p.upgrade == Leaves(v, f)
    ensures
      var o := OnHeadersDone(p, LF);
      && o.how == HowOver(v, f) && HeadOver(o.q, v, f)
      && o.acts == if FramingOf(v, f).NoBody? then Then(Notify(MessageComplete), Done) else Done
  {
    hide NewMessage;
    MessageStays(p, v, f);
  }

  /** The callbacks for the end of the headers. */
  function EndEvents(g: Framing): seq<Event> {
    [Notice(HeadersComplete(g))] + if g.NoBody? then [Notice(MessageComplete)] else []
  }

  lemma HeadStays(q: Fields, s: State, v: Line, f: Frame)
    ensures Head(q.(state := s), v, f) == Head(q, v, f)
  {}

  lemma HeadersEnd(s: Progress, v: Line, f: Frame, log: seq<Event>, m: Machine, cb: HeadersCompleteCallback)
    requires Runs(m, cb) && Proceeds(cb) && AtLine(s, v, f, log) && Unambiguous(f)
    ensures
      var r := Run(s, [CR, LF], m);
      r.how == HowOver(v, f) && HeadOver(r.q, v, f) && r.log == log + EndEvents(FramingOf(v, f))
  {
    hide Runs, Dispatch, Settled, SettledLog, Proceeds, Unambiguous, Head, FramingOf, HeadOver, OutlookOf;
    HeadStays(Settled(s.q), s_headers_almost_done, v, f);
    var t := s.(q := Settled(s.q), log := SettledLog(s));
    LineSettles(s, CR, m, cb);
    CrEndsHeaders(t.q, cb);
    Onward(t, CR, t.q.(state := s_headers_almost_done), m, cb);
    var a := m.step(s, CR);
    TwoSteps(s, CR, LF, m);
    HeadersEndDispatch(a.q, v, f, cb);
    var g := FramingOf(v, f);
    if g.NoBody? {
      NotedTwice(a, LF, m, cb, HeadersComplete(g), MessageComplete);
      assert [Notice(HeadersComplete(g))] + [Notice(MessageComplete)]
        == [Notice(HeadersComplete(g)), Notice(MessageComplete)];
    } else {
      Noted(a, LF, m, cb, HeadersComplete(g));
      assert EndEvents(g) == [Notice(HeadersComplete(g))];
    }
  }

  // ---- a body of a known length ------------------------------------------------------------

  lemma BodyDispatch(e: Outlook, q: Fields, b: byte, cb: HeadersCompleteCallback)
    requires q.state.s_body_identity? && 0 < q.contentLength < ULLONG_MAX && InBody(q, false, e)
    ensures q.contentLength > 1 ==>
      Dispatch(q, b, cb) == After(Mark(Body), Next(q.(contentLength := q.contentLength - 1)))
    ensures q.contentLength == 1 ==>
      var o := Dispatch(q, b, cb);
      && o.how == e.How()
      && o.acts == Then(Mark(Body), Then(DeliverThrough(Body), Then(Notify(MessageComplete), Done)))
      && Rests(o.q, e)
  {}

  lemma LastOfBody(o: Outcome, b: byte)
    requires o.acts == Then(Mark(Body), Then(DeliverThrough(Body), Then(Notify(MessageComplete), Done)))
    ensures EventsOf(o, s_body_identity, b) == [Data(Body, [b])] + [Notice(MessageComplete)]
  {
    var none: seq<Event> := [];
    assert Apply(Then(Notify(MessageComplete), Done), Unset, [b], 0) == ([Notice(MessageComplete)], Unset) by {
      assert Apply(Done, Unset, [b], 0) == (none, Unset);
      assert [Notice(MessageComplete)] + none == [Notice(MessageComplete)];
    }
    assert [b][0..1] == [b];
    assert Apply(o.acts.tail, Set(Body, 0), [b], 0) == ([Data(Body, [b])] + [Notice(MessageComplete)], Unset);
    assert none + ([Data(Body, [b])] + [Notice(MessageComplete)]) == [Data(Body, [b])] + [Notice(MessageComplete)];
    assert Apply(o.acts, Unset, [b], 0).0 == [Data(Body, [b])] + [Notice(MessageComplete)];
  }

  lemma {:induction false} BodyRead(e: Outlook, s: Progress, bytes: seq<byte>, n: nat, m: Machine,
                                    cb: HeadersCompleteCallback)
    requires Runs(m, cb) && s.how == Go && s.q.state.s_body_identity? && InBody(s.q, false, e)
    requires s.q.contentLength == |bytes| < ULLONG_MAX && 1 <= n < |bytes| && !EndsWith(s.log, Body)
    ensures Is(RunTo(s, bytes, n, m), s.q.(contentLength := |bytes| - n), s.log + [Data(Body, bytes[..n])])
    decreases n
  {
    hide Runs, Dispatch;
    var before, b := RunTo(s, bytes, n - 1, m), bytes[n - 1];
    assert bytes[..n] == bytes[..n - 1] + [b];
    if n == 1 {
      assert before == s && bytes[..1] == [b];
      BodyDispatch(e, s.q, b, cb);
      Kept(s, b, m, cb, Body);
      Begins(s.log, Body, b);
    } else {
      BodyRead(e, s, bytes, n - 1, m, cb);
      BodyDispatch(e, before.q, b, cb);
      Kept(before, b, m, cb, Body);
      Grows(s.log, Body, bytes[..n - 1], b);
    }
  }

  /** The callbacks of the last byte join those before. */
  lemma LastJoins(log: seq<Event>, init: seq<byte>, b: byte)
    requires !EndsWith(log, Body)
    ensures
      var was := if init == [] then log else log + [Data(Body, init)];
      AddAll(was, [Data(Body, [b])] + [Notice(MessageComplete)])
      == log + [Data(Body, init + [b]), Notice(MessageComplete)]
  {
    var was := if init == [] then log else log + [Data(Body, init)];
    AddAllConcat(was, [Data(Body, [b])], [Notice(MessageComplete)]);
    AddAllOne(was, Data(Body, [b]));
    if init == [] {
      Begins(log, Body, b);
      assert init + [b] == [b];
    } else {
      Grows(log, Body, init, b);
    }
    AddAllOne(log + [Data(Body, init + [b])], Notice(MessageComplete));
    assert log + [Data(Body, init + [b])] + [Notice(MessageComplete)]
      == log + [Data(Body, init + [b]), Notice(MessageComplete)];
  }

  lemma WholeBody(e: Outlook, s: Progress, bytes: seq<byte>, m: Machine, cb: HeadersCompleteCallback)
    requires Runs(m, cb) && s.how == Go && s.q.state.s_body_identity? && InBody(s.q, false, e)
    requires s.q.contentLength == |bytes| < ULLONG_MAX && |bytes| > 0 && !EndsWith(s.log, Body)
    ensures
      var r := Run(s, bytes, m);
      r.how == e.How() && Rests(r.q, e) && r.log == s.log + [Data(Body, bytes), Notice(MessageComplete)]
  {
    hide Runs, Dispatch, Rests, EndsWith, EventsOf;
    var n := |bytes|;
    var before, b := RunTo(s, bytes, n - 1, m), bytes[n - 1];
    assert bytes == bytes[..n - 1] + [b];
    if n > 1 {
      BodyRead(e, s, bytes, n - 1, m, cb);
    } else {
      assert before == s && bytes[..0] == [];
    }
    BodyDispatch(e, before.q, b, cb);
    Stepped(before, b, m, cb);
    LastOfBody(Dispatch(before.q, b, cb), b);
    LastJoins(s.log, bytes[..n - 1], b);
  }

  // ---- a body in chunks --------------------------------------------------------------------

  /** The size of a chunk as it is written, and its bytes. */
  datatype Chunk = Chunk(size: seq<byte>, bytes: seq<byte>)

  predicate IsSize(size: seq<byte>, n: nat) {
    |size| > 0 && IsHexText(size) && Hexadecimal(0, size) == n < HEX_LIMIT
  }

  lemma FirstSizeByte(e: Outlook, q: Fields, b: byte, cb: HeadersCompleteCallback)
    requires q.state.s_chunk_size_start? && InBody(q, true, e) && Unhex(b) != -1
    ensures Unhex(b) >= 0 && Dispatch(q, b, cb) == Next(q.(state := s_chunk_size, contentLength := Unhex(b)))
  {}

  lemma NextSizeByte(e: Outlook, q: Fields, b: byte, cb: HeadersCompleteCallback)
    requires q.state.s_chunk_size? && InBody(q, true, e) && Unhex(b) != -1
    requires q.contentLength * 16 + Unhex(b) < HEX_LIMIT
    ensures Dispatch(q, b, cb) == Next(q.(contentLength := q.contentLength * 16 + Unhex(b)))
  {}

  lemma HexadecimalGrows(size: seq<byte>, n: nat)
    requires IsHexText(size) && n <= |size|
    ensures Hexadecimal(0, size[..n]) <= Hexadecimal(0, size)
  {
    assert size == size[..n] + size[n..];
    HexadecimalConcat(0, size[..n], size[n..]);
    HexGrows(Hexadecimal(0, size[..n]), size[n..]);
  }

  lemma {:induction false} HexGrows(n: nat, text: seq<byte>)
    ensures n <= Hexadecimal(n, text)
    decreases |text|
  {
    if text != [] && Unhex(text[0]) != -1 {
      HexGrows(n * 16 + Unhex(text[0]), text[1..]);
    }
  }

  lemma {:induction false} SizeRead(e: Outlook, s: Progress, size: seq<byte>, n: nat, m: Machine,
                                    cb: HeadersCompleteCallback)
    requires Runs(m, cb) && s.how == Go && s.q.state.s_chunk_size_start? && InBody(s.q, true, e)
    requires IsSize(size, Hexadecimal(0, size)) && 1 <= n <= |size|
    ensures Hexadecimal(0, size[..n]) < HEX_LIMIT
    ensures Is(RunTo(s, size, n, m), s.q.(state := s_chunk_size, contentLength := Hexadecimal(0, size[..n])), s.log)
    decreases n
  {
    hide Runs, Dispatch, Hexadecimal, Unhex;
    var before, b := RunTo(s, size, n - 1, m), size[n - 1];
    assert size[..n] == size[..n - 1] + [b];
    HexadecimalGrows(size, n);
    if n == 1 {
      assert before == s && size[..1] == [b];
      OneHexDigit(0, b);
      FirstSizeByte(e, s.q, b, cb);
      Onward(s, b, s.q.(state := s_chunk_size, contentLength := Unhex(b)), m, cb);
    } else {
      SizeRead(e, s, size, n - 1, m, cb);
      HexadecimalConcat(0, size[..n - 1], [b]);
      OneHexDigit(Hexadecimal(0, size[..n - 1]), b);
      NextSizeByte(e, before.q, b, cb);
      Onward(before, b, before.q.(contentLength := before.q.contentLength * 16 + Unhex(b)), m, cb);
    }
  }

  lemma SizeEnds(e: Outlook, q: Fields, cb: HeadersCompleteCallback)
    requires InBody(q, true, e)
    ensures q.state.s_chunk_size? ==> Dispatch(q, CR, cb) == Next(q.(state := s_chunk_size_almost_done))
    ensures q.state.s_chunk_size_almost_done? ==>
      Dispatch(q, LF, cb)
      == After(Notify(ChunkHeader(q.contentLength)),
               Outcome(if q.contentLength == 0 then
                         q.(flags := q.flags.(trailing := true), state := s_header_field_start)
                       else q.(state := s_chunk_data), Done, Go, true))
  {}

  /** The line of a chunk's size. */
  lemma SizeLineRead(e: Outlook, s: Progress, size: seq<byte>, m: Machine, cb: HeadersCompleteCallback)
    requires Runs(m, cb) && s.how == Go && s.q.state.s_chunk_size_start? && InBody(s.q, true, e)
    requires IsSize(size, Hexadecimal(0, size))
    ensures
      var n, r := Hexadecimal(0, size), Run(s, size + [CR, LF], m);
      && r.how == Go && r.log == s.log + [Notice(ChunkHeader(n))]
      && r.q == (if n == 0 then
                   s.q.(contentLength := 0, flags := s.q.flags.(trailing := true), state := s_header_field_start)
                 else s.q.(contentLength := n, state := s_chunk_data))
  {
    hide Runs, Dispatch, Hexadecimal, RunTo, IsHexText;
    var a := Run(s, size, m);
    SizeRead(e, s, size, |size|, m, cb);
    WholeRun(s, size, m);
    assert size[..|size|] == size;
    SizeEnds(e, a.q, cb);
    Onward(a, CR, a.q.(state := s_chunk_size_almost_done), m, cb);
    var b := m.step(a, CR);
    SizeEnds(e, b.q, cb);
    Noted(b, LF, m, cb, ChunkHeader(b.q.contentLength));
    RunConcat(s, size, [CR, LF], m);
    TwoSteps(a, CR, LF, m);
  }

  lemma ChunkDispatch(e: Outlook, q: Fields, b: byte, cb: HeadersCompleteCallback)
    requires q.state.s_chunk_data? && InBody(q, true, e) && 0 < q.contentLength < ULLONG_MAX
    ensures Dispatch(q, b, cb)
      == After(Mark(Body), Next(q.(contentLength := q.contentLength - 1,
                                   state := if q.contentLength == 1 then s_chunk_data_almost_done else s_chunk_data)))
  {}

  lemma {:induction false} ChunkBytesRead(e: Outlook, s: Progress, bytes: seq<byte>, n: nat, m: Machine,
                                          cb: HeadersCompleteCallback)
    requires Runs(m, cb) && s.how == Go && s.q.state.s_chunk_data? && InBody(s.q, true, e)
    requires s.q.contentLength == |bytes| < ULLONG_MAX && 1 <= n <= |bytes| && !EndsWith(s.log, Body)
    ensures
      Is(RunTo(s, bytes, n, m),
         s.q.(contentLength := |bytes| - n, state := if n == |bytes| then s_chunk_data_almost_done else s_chunk_data),
         s.log + [Data(Body, bytes[..n])])
    decreases n
  {
    hide Runs, Dispatch;
    var before, b := RunTo(s, bytes, n - 1, m), bytes[n - 1];
    assert bytes[..n] == bytes[..n - 1] + [b];
    if n == 1 {
      assert before == s && bytes[..1] == [b];
      ChunkDispatch(e, s.q, b, cb);
      Kept(s, b, m, cb, Body);
      Begins(s.log, Body, b);
    } else {
      ChunkBytesRead(e, s, bytes, n - 1, m, cb);
      ChunkDispatch(e, before.q, b, cb);
      Kept(before, b, m, cb, Body);
      Grows(s.log, Body, bytes[..n - 1], b);
    }
  }

  lemma ChunkEndDispatch(e: Outlook, q: Fields, cb: HeadersCompleteCallback)
    requires InBody(q, true, e)
    ensures q.state.s_chunk_data_almost_done? && q.contentLength == 0 ==>
      Dispatch(q, CR, cb) == After(Deliver(Body), Next(q.(state := s_chunk_data_done)))
    ensures q.state.s_chunk_data_done? ==>
      Dispatch(q, LF, cb) == After(Notify(ChunkComplete), Outcome(q.(state := s_chunk_size_start), Done, Go, true))
  {}

  lemma NothingDelivered(q: Fields)
    ensures EventsOf(After(Deliver(Body), Next(q)), s_chunk_data_almost_done, CR) == []
  {
    OneMark(Body, CR);
  }

  lemma ChunkEnds(e: Outlook, s: Progress, m: Machine, cb: HeadersCompleteCallback)
    requires Runs(m, cb) && s.how == Go && s.q.state.s_chunk_data_almost_done? && InBody(s.q, true, e)
    requires s.q.contentLength == 0
    ensures Is(Run(s, [CR, LF], m), s.q.(state := s_chunk_size_start), s.log + [Notice(ChunkComplete)])
  {
    hide Runs, Dispatch;
    var a := m.step(s, CR);
    ChunkEndDispatch(e, s.q, cb);
    Stepped(s, CR, m, cb);
    NothingDelivered(s.q.(state := s_chunk_data_done));
    ChunkEndDispatch(e, a.q, cb);
    Noted(a, LF, m, cb, ChunkComplete);
    TwoSteps(s, CR, LF, m);
  }

  function ChunkText(c: Chunk): seq<byte> {
    (c.size + [CR, LF]) + (c.bytes + [CR, LF])
  }

  function ChunkEvents(c: Chunk): seq<Event> {
    [Notice(ChunkHeader(|c.bytes|)), Data(Body, c.bytes), Notice(ChunkComplete)]
  }

  predicate IsChunk(c: Chunk) {
    |c.bytes| > 0 && IsSize(c.size, |c.bytes|)
  }

  lemma ChunkRead(e: Outlook, s: Progress, c: Chunk, m: Machine, cb: HeadersCompleteCallback)
    requires Runs(m, cb) && s.how == Go && s.q.state.s_chunk_size_start? && InBody(s.q, true, e) && IsChunk(c)
    ensures
      var r := Run(s, ChunkText(c), m);
      && r.how == Go && r.q.state.s_chunk_size_start? && InBody(r.q, true, e) && r.log == s.log + ChunkEvents(c)
  {
    hide Runs, RunTo, IsHexText, Hexadecimal;
    var a := Run(s, c.size + [CR, LF], m);
    SizeLineRead(e, s, c.size, m, cb);
    var b := Run(a, c.bytes, m);
    ChunkBytesRead(e, a, c.bytes, |c.bytes|, m, cb);
    WholeRun(a, c.bytes, m);
    assert c.bytes[..|c.bytes|] == c.bytes;
    ChunkEnds(e, b, m, cb);
    RunConcat(s, c.size + [CR, LF], c.bytes + [CR, LF], m);
    RunConcat(a, c.bytes, [CR, LF], m);
    assert s.log + [Notice(ChunkHeader(|c.bytes|))] + [Data(Body, c.bytes)] + [Notice(ChunkComplete)]
      == s.log + ChunkEvents(c);
  }

  function ChunkTexts(chunks: seq<Chunk>): seq<byte> {
    if chunks == [] then [] else ChunkText(chunks[0]) + ChunkTexts(chunks[1..])
  }

  function AllChunkEvents(chunks: seq<Chunk>): seq<Event> {
    if chunks == [] then [] else ChunkEvents(chunks[0]) + AllChunkEvents(chunks[1..])
  }

  lemma {:induction false} ChunksRead(e: Outlook, s: Progress, chunks: seq<Chunk>, m: Machine,
                                      cb: HeadersCompleteCallback)
    requires Runs(m, cb) && s.how == Go && s.q.state.s_chunk_size_start? && InBody(s.q, true, e)
    requires forall i :: 0 <= i < |chunks| ==> IsChunk(chunks[i])
    ensures
      var r := Run(s, ChunkTexts(chunks), m);
      && r.how == Go && r.q.state.s_chunk_size_start? && InBody(r.q, true, e)
      && r.log == s.log + AllChunkEvents(chunks)
    decreases |chunks|
  {
    hide Runs, IsChunk, ChunkText, ChunkEvents, InBody, Run;
    if chunks == [] {
      NoBytes(s, m);
    } else {
      ChunkRead(e, s, chunks[0], m, cb);
      RunConcat(s, ChunkText(chunks[0]), ChunkTexts(chunks[1..]), m);
      ChunksRead(e, Run(s, ChunkText(chunks[0]), m), chunks[1..], m, cb);
      assert s.log + ChunkEvents(chunks[0]) + AllChunkEvents(chunks[1..]) == s.log + AllChunkEvents(chunks);
    }
  }

  lemma TrailerDispatch(e: Outlook, q: Fields, cb: HeadersCompleteCallback)
    requires q.flags.trailing && InBody(q.(flags := q.flags.(trailing := false)), true, e)
    ensures q.state.s_header_field_start? ==> Dispatch(q, CR, cb) == Next(q.(state := s_headers_almost_done))
    ensures q.state.s_headers_almost_done? ==>
      var o := Dispatch(q, LF, cb);
      && o.how == e.How() && o.acts == Then(Notify(ChunkComplete), Then(Notify(MessageComplete), Done))
      && Rests(o.q, e)
  {}

  /** The last chunk, which is empty, and the end of the message. */
  lemma LastChunkRead(e: Outlook, s: Progress, last: seq<byte>, m: Machine, cb: HeadersCompleteCallback)
    requires Runs(m, cb) && s.how == Go && s.q.state.s_chunk_size_start? && InBody(s.q, true, e) && IsSize(last, 0)
    ensures
      var r := Run(s, (last + [CR, LF]) + [CR, LF], m);
      && r.how == e.How() && Rests(r.q, e)
      && r.log == s.log + [Notice(ChunkHeader(0)), Notice(ChunkComplete), Notice(MessageComplete)]
  {
    hide Runs, Dispatch, RunTo, IsHexText, Hexadecimal, InBody, Rests;
    var a := Run(s, last + [CR, LF], m);
    SizeLineRead(e, s, last, m, cb);
    assert a.q.(flags := a.q.flags.(trailing := false)) == s.q.(contentLength := 0, state := s_header_field_start) by {
      NotTrailing(e, s.q);
    }
    TrailersAlike(e, s.q, a.q);
    TrailerDispatch(e, a.q, cb);
    Onward(a, CR, a.q.(state := s_headers_almost_done), m, cb);
    var b := m.step(a, CR);
    TrailersAlike(e, s.q, b.q);
    TrailerDispatch(e, b.q, cb);
    NotedTwice(b, LF, m, cb, ChunkComplete, MessageComplete);
    RunConcat(s, last + [CR, LF], [CR, LF], m);
    TwoSteps(a, CR, LF, m);
    assert s.log + [Notice(ChunkHeader(0))] + [Notice(ChunkComplete), Notice(MessageComplete)]
      == s.log + [Notice(ChunkHeader(0)), Notice(ChunkComplete), Notice(MessageComplete)];
  }

  lemma NotTrailing(e: Outlook, q: Fields)
    requires InBody(q, true, e)
    ensures !q.flags.trailing
  {}

  lemma TrailersAlike(e: Outlook, q: Fields, p: Fields)
    requires InBody(q, true, e)
    requires p == q.(contentLength := 0, flags := q.flags.(trailing := true), state := p.state)
    ensures InBody(p.(flags := p.flags.(trailing := false)), true, e)
  {}

  // ---- a body up to the end of the connection ----------------------------------------------

  lemma EofDispatch(q: Fields, b: byte, cb: HeadersCompleteCallback)
    requires q.state.s_body_identity_eof?
    ensures Dispatch(q, b, cb) == After(Mark(Body), Next(q)) && ResumeKind(q.state) == None
  {}

  lemma {:induction false} EofBodyRead(s: Progress, bytes: seq<byte>, n: nat, m: Machine, cb: HeadersCompleteCallback)
    requires Runs(m, cb) && s.how == Go && s.q.state.s_body_identity_eof? && 1 <= n <= |bytes| && !EndsWith(s.log, Body)
    ensures Is(RunTo(s, bytes, n, m), s.q, s.log + [Data(Body, bytes[..n])])
    decreases n
  {
    hide Runs, Dispatch;
    var before, b := RunTo(s, bytes, n - 1, m), bytes[n - 1];
    assert bytes[..n] == bytes[..n - 1] + [b];
    EofDispatch(s.q, b, cb);
    if n == 1 {
      assert before == s && bytes[..1] == [b];
      Kept(s, b, m, cb, Body);
      Begins(s.log, Body, b);
    } else {
      EofBodyRead(s, bytes, n - 1, m, cb);
      Kept(before, b, m, cb, Body);
      Grows(s.log, Body, bytes[..n - 1], b);
    }
  }

  // ---- whole messages ----------------------------------------------------------------------

  datatype Content = Nothing | Plain(bytes: seq<byte>) | InChunks(chunks: seq<Chunk>, last: seq<byte>)
                   | ToTheEnd(bytes: seq<byte>)

  datatype Message =
    | Request(verb: Method, target: seq<byte>, major: byte, minor: byte, headers: seq<Header>, content: Content)
    | Response(major: byte, minor: byte, code: seq<byte>, reason: seq<byte>, headers: seq<Header>, content: Content)

  function ContentText(c: Content): seq<byte> {
    match c
    case Nothing => []
    case Plain(bytes) => bytes
    case InChunks(chunks, last) => ChunkTexts(chunks) + ((last + [CR, LF]) + [CR, LF])
    case ToTheEnd(bytes) => bytes
  }

  predicate LegalLine(x: Message) {
    match x
    case Request(verb, target, major, minor, _, _) => IsTarget(verb, target) && IsVersion(major, minor)
    case Response(major, minor, code, reason, _, _) => IsNum(major) && IsNum(minor) && IsCode(code) && IsReason(reason)
  }

  function LineText(x: Message): seq<byte>
    requires LegalLine(x)
  {
    match x
    case Request(verb, target, major, minor, _, _) => RequestLine(verb, target, major, minor)
    case Response(major, minor, code, reason, _, _) => ResponseLine(major, minor, code, reason)
  }

  function LineOf(x: Message): Line
    requires LegalLine(x)
  {
    if x.Request? then Asked(x.verb) else Answered(CodeOf(x.code))
  }

  function LineEvents(x: Message): seq<Event> {
    [Notice(MessageBegin)] + if x.Request? then [Data(Url, x.target)] else ReasonEvents(x.reason)
  }

  /** A message as it goes over the wire. */
  function MessageText(x: Message): seq<byte>
    requires LegalLine(x)
  {
    LineText(x) + (HeaderTexts(x.headers) + ([CR, LF] + ContentText(x.content)))
  }

  function FirstFrame(x: Message): Frame {
    Frame(false, None, x.major > '0' as int && x.minor > '0' as int, false, false, false, false)
  }

  /** The body is the one that the headers announce. */
  predicate ContentFits(g: Framing, c: Content) {
    match c
    case Nothing => g.NoBody?
    case Plain(bytes) => g == Framing.Length(|bytes|)
    case InChunks(chunks, last) =>
      g.Chunked? && IsSize(last, 0) && forall i :: 0 <= i < |chunks| ==> IsChunk(chunks[i])
    case ToTheEnd(_) => g.UntilEof?
  }

  predicate LegalMessage(x: Message) {
    && LegalLine(x)
    && match FrameOf(FirstFrame(x), x.headers)
       case None => false
       case Some(f) => !(f.chunked && f.length.Some?) && ContentFits(FramingOf(LineOf(x), f), x.content)
  }

  /** What its headers say. */
  function HeadOf(x: Message): Frame
    requires LegalMessage(x)
  {
    FrameOf(FirstFrame(x), x.headers).value
  }

  function OutlookAfter(x: Message): Outlook
    requires LegalMessage(x)
  {
    OutlookOf(LineOf(x), HeadOf(x))
  }

  function ContentEvents(c: Content): seq<Event> {
    match c
    case Nothing => []
    case Plain(bytes) => [Data(Body, bytes), Notice(MessageComplete)]
    case InChunks(chunks, _) =>
      AllChunkEvents(chunks) + [Notice(ChunkHeader(0)), Notice(ChunkComplete), Notice(MessageComplete)]
    case ToTheEnd(bytes) => if bytes == [] then [] else [Data(Body, bytes)]
  }

  /** What is to be reported of it. */
  function MessageEvents(x: Message): seq<Event>
    requires LegalMessage(x)
  {
    LineEvents(x)
    + (AllHeaderEvents(x.headers) + (EndEvents(FramingOf(LineOf(x), HeadOf(x))) + ContentEvents(x.content)))
  }

  /** The parser behind a message: it waits for the next one, is dead, or still reads a body that only the end of the
      connection completes. */
  predicate IsOver(q: Fields, x: Message)
    requires LegalMessage(x)
  {
    if x.content.ToTheEnd? then q.state.s_body_identity_eof? && Directed(q, true) && q.errno == OK
    else Rests(q, OutlookAfter(x))
  }

  function HowAfter(x: Message): How
    requires LegalMessage(x)
  {
    if x.content.ToTheEnd? then Go else OutlookAfter(x).How()
  }

  lemma {:induction false} FrameSmall(f: Frame, headers: seq<Header>)
    requires f.length.Some? ==> f.length.value < DECIMAL_LIMIT
    ensures FrameOf(f, headers).Some? && FrameOf(f, headers).value.length.Some? ==>
      FrameOf(f, headers).value.length.value < DECIMAL_LIMIT
    decreases |headers|
  {
    hide IsToken, IsValue, TopicOf, Decimal, IsNumeral, Found;
    if headers != [] && FrameAfter(f, headers[0]).Some? {
      FrameSmall(FrameAfter(f, headers[0]).value, headers[1..]);
    }
  }

  lemma ContentRead(s: Progress, v: Line, f: Frame, c: Content, m: Machine, cb: HeadersCompleteCallback)
    requires Runs(m, cb) && Unambiguous(f) && ContentFits(FramingOf(v, f), c) && !EndsWith(s.log, Body)
    requires s.how == HowOver(v, f) && HeadOver(s.q, v, f)
    ensures
      var r := Run(s, ContentText(c), m);
      && r.log == s.log + ContentEvents(c)
      && if c.ToTheEnd? then r.how == Go && r.q == s.q
         else r.how == OutlookOf(v, f).How() && Rests(r.q, OutlookOf(v, f))
  {
    hide Runs, Rests, IsSize, IsChunk, Run, InBody, ChunkTexts, AllChunkEvents, OutlookOf, FramingOf;
    var e := OutlookOf(v, f);
    match c
    case Nothing =>
      NoBytes(s, m);
    case Plain(bytes) =>
      LengthFits(v, f);
      WholeBody(e, s, bytes, m, cb);
    case InChunks(chunks, last) =>
      ChunksRead(e, s, chunks, m, cb);
      LastChunkRead(e, Run(s, ChunkTexts(chunks), m), last, m, cb);
      RunConcat(s, ChunkTexts(chunks), (last + [CR, LF]) + [CR, LF], m);
    case ToTheEnd(bytes) =>
      EofContentRead(s, bytes, m, cb);
  }

  lemma LengthFits(v: Line, f: Frame)
    requires Unambiguous(f)
    ensures FramingOf(v, f).Length? ==> 0 < FramingOf(v, f).n < ULLONG_MAX
  {}

  lemma EofContentRead(s: Progress, bytes: seq<byte>, m: Machine, cb: HeadersCompleteCallback)
    requires Runs(m, cb) && s.how == Go && s.q.state.s_body_identity_eof? && !EndsWith(s.log, Body)
    ensures Is(Run(s, bytes, m), s.q, s.log + ContentEvents(ToTheEnd(bytes)))
  {
    hide Runs;
    if bytes == [] {
      NoBytes(s, m);
    } else {
      EofBodyRead(s, bytes, |bytes|, m, cb);
      assert bytes[..|bytes|] == bytes;
    }
  }

  lemma LineRead(s: Progress, x: Message, m: Machine, cb: HeadersCompleteCallback)
    requires Runs(m, cb) && s.how == Go && LegalLine(x) && Waits(s.q, x.Response?)
    ensures
      var r, log := Run(s, LineText(x), m), s.log + LineEvents(x);
      AtLine(r, LineOf(x), FirstFrame(x), log) && !EndsWith(log, HeaderField)
  {
    hide Runs, Run, RequestLine, ResponseLine, IsTarget;
    if x.Request? {
      RequestLineRead(s, x.verb, x.target, x.major, x.minor, m, cb);
      assert [Notice(MessageBegin)] + [Data(Url, x.target)] == [Notice(MessageBegin), Data(Url, x.target)];
    } else {
      ResponseLineRead(s, x.major, x.minor, x.code, x.reason, m, cb);
    }
    FirstHead(Run(s, LineText(x), m), x, s.log + LineEvents(x));
  }

  lemma FirstHead(s: Progress, x: Message, log: seq<Event>)
    requires s.how == Go && s.q.state.s_header_field_start? && s.log == log && LegalLine(x) && HasRead(s.q, LineOf(x))
    requires s.q.errno == OK && s.q.flags == NO_FLAGS && s.q.contentLength == ULLONG_MAX
    requires s.q.httpMajor == Digit(x.major) && s.q.httpMinor == Digit(x.minor)
    ensures AtLine(s, LineOf(x), FirstFrame(x), log)
  {
    hide IsTarget, IsReason, IsCode, CodeOf;
  }

  /** A message that is put together from legal parts is reported part by part: the target or the reason, every name and
      value, the framing and the body, in their order, with nothing added, and the parser is ready for what comes
      next. */
  lemma MessageIsReported(s: Progress, x: Message, m: Machine, cb: HeadersCompleteCallback)
    requires Runs(m, cb) && Proceeds(cb) && s.how == Go && LegalMessage(x) && Waits(s.q, x.Response?)
    ensures
      var t := Run(s, MessageText(x), m);
      t.log == s.log + MessageEvents(x) && t.how == HowAfter(x) && IsOver(t.q, x)
  {
    hide Runs, Proceeds, Run, LineText, HeaderTexts, AllHeaderEvents, FrameOf, ContentText, ContentEvents, LineOf,
      ContentFits, LegalLine, Rests, EndEvents, LineEvents, FramingOf, OutlookOf;
    var v, f := LineOf(x), HeadOf(x);
    var a := Run(s, LineText(x), m);
    LineRead(s, x, m, cb);
    var start := s.log + LineEvents(x);
    var b := Run(a, HeaderTexts(x.headers), m);
    HeadersRead(a, v, FirstFrame(x), start, x.headers, m, cb);
    FrameSmall(FirstFrame(x), x.headers);
    var all := start + AllHeaderEvents(x.headers);
    var c := Run(b, [CR, LF], m);
    HeadersEnd(b, v, f, all, m, cb);
    NotInBody(all, FramingOf(v, f));
    ContentRead(c, v, f, x.content, m, cb);
    EofFits(c.q, v, f, x.content);
    RunConcat(s, LineText(x), HeaderTexts(x.headers) + ([CR, LF] + ContentText(x.content)), m);
    RunConcat(a, HeaderTexts(x.headers), [CR, LF] + ContentText(x.content), m);
    RunConcat(b, [CR, LF], ContentText(x.content), m);
    FourJoined(s.log, LineEvents(x), AllHeaderEvents(x.headers), EndEvents(FramingOf(v, f)), ContentEvents(x.content));
  }

  lemma EofFits(q: Fields, v: Line, f: Frame, c: Content)
    requires HeadOver(q, v, f) && ContentFits(FramingOf(v, f), c)
    ensures c.ToTheEnd? ==> q.state.s_body_identity_eof? && Directed(q, true) && q.errno == OK
  {
    hide FramingOf, InBody, Rests;
  }

  lemma NotInBody(log: seq<Event>, g: Framing)
    ensures !EndsWith(log + EndEvents(g), Body)
  {}

  lemma FourJoined(log: seq<Event>, a: seq<Event>, b: seq<Event>, c: seq<Event>, d: seq<Event>)
    ensures log + a + b + c + d == log + (a + (b + (c + d)))
  {}

  // ---- whether the connection is kept ------------------------------------------------------

  /** Some Connection header, under either name, has this option. */
  predicate HasOption(headers: seq<Header>, w: string) {
    exists i :: 0 <= i < |headers| && OptionAt(headers[i], w)
  }

  predicate OptionAt(h: Header, w: string) {
    TopicOf(Lowered(h.name)) == Connecting && Found(h.value, w)
  }

  predicate HasUpgrade(headers: seq<Header>) {
    exists i :: 0 <= i < |headers| && UpgradeAt(headers[i])
  }

  predicate UpgradeAt(h: Header) {
    TopicOf(Lowered(h.name)) == Upgrading && |h.value| > 0
  }

  lemma OptionsOfOne(f: Frame, h: Header)
    requires FrameAfter(f, h).Some?
    ensures
      var g := FrameAfter(f, h).value;
      && g.recent == f.recent && (g.close <==> f.close || OptionAt(h, CLOSE))
      && (g.keepAlive <==> f.keepAlive || OptionAt(h, KEEP_ALIVE))
      && (g.switches <==> f.switches || OptionAt(h, SWITCH)) && (g.upgrade <==> f.upgrade || UpgradeAt(h))
  {
    hide TopicOf, Decimal, IsNumeral, IsChunked, Found;
  }

  lemma {:induction false} OptionsCollected(f: Frame, headers: seq<Header>)
    requires FrameOf(f, headers).Some?
    ensures
      var g := FrameOf(f, headers).value;
      && g.recent == f.recent && (g.close <==> f.close || HasOption(headers, CLOSE))
      && (g.keepAlive <==> f.keepAlive || HasOption(headers, KEEP_ALIVE))
      && (g.switches <==> f.switches || HasOption(headers, SWITCH))
      && (g.upgrade <==> f.upgrade || HasUpgrade(headers))
    decreases |headers|
  {
    hide IsToken, IsValue, FrameAfter, OptionAt, UpgradeAt, HasOption, HasUpgrade;
    if headers == [] {
      NoOptions();
    } else {
      OptionsOfOne(f, headers[0]);
      OptionsCollected(FrameAfter(f, headers[0]).value, headers[1..]);
      FirstOrRest(headers, KEEP_ALIVE);
      FirstOrRest(headers, CLOSE);
      FirstOrRest(headers, SWITCH);
      FirstUpgrade(headers);
    }
  }

  lemma NoOptions()
    ensures (forall w :: !HasOption([], w)) && !HasUpgrade([])
  {}

  lemma FirstOrRest(headers: seq<Header>, w: string)
    requires headers != []
    ensures HasOption(headers, w) <==> OptionAt(headers[0], w) || HasOption(headers[1..], w)
  {
    hide OptionAt;
    if i :| 0 <= i < |headers| && OptionAt(headers[i], w) {
      assert i > 0 ==> OptionAt(headers[1..][i - 1], w);
    }
    if i :| 0 <= i < |headers| - 1 && OptionAt(headers[1..][i], w) {
      assert OptionAt(headers[i + 1], w);
    }
  }

  lemma FirstUpgrade(headers: seq<Header>)
    requires headers != []
    ensures HasUpgrade(headers) <==> UpgradeAt(headers[0]) || HasUpgrade(headers[1..])
  {
    hide UpgradeAt;
    if i :| 0 <= i < |headers| && UpgradeAt(headers[i]) {
      assert i > 0 ==> UpgradeAt(headers[1..][i - 1]);
    }
    if i :| 0 <= i < |headers| - 1 && UpgradeAt(headers[1..][i]) {
      assert UpgradeAt(headers[i + 1]);
    }
  }

  /** From version 1.1 on the connection is kept exactly if no header has the option "close", and before exactly if one
      has the option "keep-alive"; but not behind a response whose body only the end of the connection could end. The
      parser leaves the connection exactly after CONNECT, or if there is an Upgrade header and the option "upgrade". */
  lemma KeepsIff(x: Message)
    requires LegalMessage(x)
    ensures OutlookAfter(x).keeps <==>
      && !UntilClosed(LineOf(x), HeadOf(x))
      && if x.major > '0' as int && x.minor > '0' as int then !HasOption(x.headers, CLOSE)
         else HasOption(x.headers, KEEP_ALIVE)
    ensures OutlookAfter(x).leaves <==>
      (x.Request? && x.verb == CONNECT) || (HasUpgrade(x.headers) && HasOption(x.headers, SWITCH))
  {
    hide HasOption, HasUpgrade, ContentFits, IsTarget, UntilClosed, FrameOf, IsReason, CodeOf;
    OptionsCollected(FirstFrame(x), x.headers);
  }

  // ---- messages one after the other --------------------------------------------------------

  /** Another message can follow. */
  predicate CanFollow(x: Message)
    requires LegalMessage(x)
  {
    !x.content.ToTheEnd? && OutlookAfter(x).keeps && !OutlookAfter(x).leaves
  }

  /** Legal messages of one direction, after each of which but the last another can follow. */
  predicate LegalMessages(xs: seq<Message>, reply: bool)
    decreases |xs|
  {
    xs != [] ==>
      && LegalMessage(xs[0]) && xs[0].Response? == reply && LegalMessages(xs[1..], reply)
      && (|xs| > 1 ==> CanFollow(xs[0]))
  }

  function MessageTexts(xs: seq<Message>, reply: bool): seq<byte>
    requires LegalMessages(xs, reply)
    decreases |xs|
  {
    if xs == [] then [] else MessageText(xs[0]) + MessageTexts(xs[1..], reply)
  }

  function AllMessageEvents(xs: seq<Message>, reply: bool): seq<Event>
    requires LegalMessages(xs, reply)
    decreases |xs|
  {
    if xs == [] then [] else MessageEvents(xs[0]) + AllMessageEvents(xs[1..], reply)
  }

  lemma {:induction false} LastIsLegal(xs: seq<Message>, reply: bool)
    requires LegalMessages(xs, reply) && xs != []
    ensures LegalMessage(xs[|xs| - 1]) && xs[|xs| - 1].Response? == reply
    decreases |xs|
  {
    hide LegalMessage, CanFollow;
    if |xs| > 1 {
      LastIsLegal(xs[1..], reply);
    }
  }

  /** The parser behind all of them is as it is behind the last. */
  predicate AllOver(q: Fields, how: How, xs: seq<Message>, reply: bool)
    requires LegalMessages(xs, reply)
  {
    if xs == [] then how == Go && Waits(q, reply)
    else
      LastIsLegal(xs, reply);
      how == HowAfter(xs[|xs| - 1]) && IsOver(q, xs[|xs| - 1])
  }

  lemma LineIsLegal(x: Message)
    requires LegalMessage(x)
    ensures LegalLine(x)
  {}

  lemma FollowWaits(q: Fields, x: Message)
    requires LegalMessage(x) && CanFollow(x) && IsOver(q, x)
    ensures HowAfter(x) == Go && Waits(q, x.Response?)
  {
    hide LegalMessage, HeadOf;
  }

  /** Messages on one connection are reported one after the other. The parser then waits for another one exactly if the
      connection is kept after the last. */
  lemma {:induction false} MessagesAreReported(s: Progress, xs: seq<Message>, reply: bool, m: Machine,
                                               cb: HeadersCompleteCallback)
    requires Runs(m, cb) && Proceeds(cb) && s.how == Go && Waits(s.q, reply) && LegalMessages(xs, reply)
    ensures
      var t := Run(s, MessageTexts(xs, reply), m);
      t.log == s.log + AllMessageEvents(xs, reply) && AllOver(t.q, t.how, xs, reply)
    decreases |xs|
  {
    hide Runs, Proceeds, Run, LegalMessage, MessageText, MessageEvents, CanFollow, HowAfter, IsOver, Waits;
    if xs == [] {
      NoBytes(s, m);
    } else {
      var x := xs[0];
      LineIsLegal(x);
      MessageIsReported(s, x, m, cb);
      var t := Run(s, MessageText(x), m);
      RunConcat(s, MessageText(x), MessageTexts(xs[1..], reply), m);
      if |xs| > 1 {
        FollowWaits(t.q, x);
        MessagesAreReported(t, xs[1..], reply, m, cb);
        assert s.log + MessageEvents(x) + AllMessageEvents(xs[1..], reply) == s.log + AllMessageEvents(xs, reply);
      } else {
        NoBytes(t, m);
        assert xs[1..] == [];
        assert s.log + MessageEvents(x) == s.log + (MessageEvents(x) + AllMessageEvents([], reply));
      }
    }
  }

  /** No other message can follow them, and the connection is not left to another protocol. */
  predicate Closes(xs: seq<Message>, reply: bool)
    requires LegalMessages(xs, reply)
  {
    xs != [] &&
      (LastIsLegal(xs, reply);
       var x := xs[|xs| - 1];
       !x.content.ToTheEnd? && !OutlookAfter(x).keeps && !OutlookAfter(x).leaves)
  }

  lemma ClosedIsDead(q: Fields, how: How, xs: seq<Message>, reply: bool)
    requires LegalMessages(xs, reply) && Closes(xs, reply) && AllOver(q, how, xs, reply)
    ensures how == Go && q.state.s_dead?
  {
    hide LegalMessages, LegalMessage, HeadOf;
    LastIsLegal(xs, reply);
  }

  /** Behind a message that does not keep the connection only line ends are passed over; any other byte is refused. */
  lemma NothingMore(s: Progress, xs: seq<Message>, reply: bool, ends: seq<byte>, b: byte, m: Machine,
                    cb: HeadersCompleteCallback)
    requires Runs(m, cb) && Proceeds(cb) && s.how == Go && Waits(s.q, reply)
    requires LegalMessages(xs, reply) && Closes(xs, reply)
    requires (forall i :: 0 <= i < |ends| ==> ends[i] == CR || ends[i] == LF) && b != CR && b != LF
    ensures
      var t := Run(s, MessageTexts(xs, reply) + (ends + [b]), m);
      t.how == Fail && t.q.errno == CLOSED_CONNECTION && t.log == s.log + AllMessageEvents(xs, reply)
  {
    hide Runs, Proceeds, Run, LegalMessages, Closes, MessageTexts, AllMessageEvents, AllOver;
    MessagesAreReported(s, xs, reply, m, cb);
    RunConcat(s, MessageTexts(xs, reply), ends + [b], m);
    var t := Run(s, MessageTexts(xs, reply), m);
    ClosedIsDead(t.q, t.how, xs, reply);
    EndsPassed(t, ends, |ends|, m, cb);
    WholeRun(t, ends, m);
    RunConcat(t, ends, [b], m);
    var u := Run(t, ends, m);
    RunOne(u, b, m);
    Refused(u, b, m, cb);
  }

  lemma Refused(s: Progress, b: byte, m: Machine, cb: HeadersCompleteCallback)
    requires Runs(m, cb) && s.how == Go && s.q.state.s_dead? && b != CR && b != LF
    ensures var t := m.step(s, b); t.how == Fail && t.q.errno == CLOSED_CONNECTION && t.log == s.log
  {
    hide Runs;
    Stepped(s, b, m, cb);
    assert Dispatch(s.q, b, cb) == Error(s.q, CLOSED_CONNECTION);
    assert EventsOf(Error(s.q, CLOSED_CONNECTION), s_dead, b) == [];
  }

  lemma {:induction false} EndsPassed(s: Progress, ends: seq<byte>, n: nat, m: Machine, cb: HeadersCompleteCallback)
    requires Runs(m, cb) && s.how == Go && s.q.state.s_dead? && n <= |ends|
    requires forall i :: 0 <= i < |ends| ==> ends[i] == CR || ends[i] == LF
    ensures Is(RunTo(s, ends, n, m), s.q, s.log)
    decreases n
  {
    hide Runs, Dispatch;
    if n > 0 {
      EndsPassed(s, ends, n - 1, m, cb);
      EndPasses(s.q, ends[n - 1], cb);
      Onward(RunTo(s, ends, n - 1, m), ends[n - 1], s.q, m, cb);
    }
  }

  lemma EndPasses(q: Fields, b: byte, cb: HeadersCompleteCallback)
    requires q.state.s_dead? && (b == CR || b == LF)
    ensures Dispatch(q, b, cb) == Next(q) && ResumeKind(q.state) == None
  {}
}
