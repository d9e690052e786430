/** What the callbacks of the HTTP parser say about messages: every complete message is given exactly
    the body its headers announce, and no assertion of the parser can fail. */
module HttpFraming {
  import opened HttpLog
  import opened HttpNumber
  import opened HttpStep
  import opened HttpRun
  import opened Options

  // ---- auditing a trace --------------------------------------------------------------------

  datatype Mode =
    | Idle           // between messages, in a start line or in the headers
    | Fixed          // in a body of known length
    | BetweenChunks
    | InChunk
    | LastChunk      // after the empty chunk: in the trailers
    | Eof            // in a body that ends with the connection
    | Closing        // nothing but the end of the message may follow
    | Broken

  /** `declared` is the Content-Length, or the sum of the chunk sizes so far; `got` is what `on_body` has
      been given since the headers were complete. */
  datatype Audit = Audit(mode: Mode, declared: nat, got: nat)

  const FRESH := Audit(Idle, 0, 0)
  const BROKEN := Audit(Broken, 0, 0)

  function AuditData(a: Audit, k: Kind, n: nat): Audit {
    if k.Body? then
      if a.mode.Eof? then a.(got := a.got + n)
      else if (a.mode.Fixed? || a.mode.InChunk?) && a.got + n <= a.declared then a.(got := a.got + n)
      else BROKEN
    else if a.mode.Idle? || (a.mode.LastChunk? && (k.HeaderField? || k.HeaderValue?)) then a
    else BROKEN
  }

  function AuditNote(a: Audit, note: Note): Audit {
    match note
    case MessageBegin => if a.mode.Idle? then a else BROKEN
    case HeadersComplete(framing) =>
      if !a.mode.Idle? then BROKEN
      else match framing {
        case NoBody => Audit(Closing, 0, 0)
        case Length(n) => Audit(Fixed, n, 0)
        case Chunked => Audit(BetweenChunks, 0, 0)
        case UntilEof => Audit(Eof, 0, 0)
      }
    case ChunkHeader(size) =>
      if !a.mode.BetweenChunks? then BROKEN
      else Audit(if size == 0 then LastChunk else InChunk, a.declared + size, a.got)
    case ChunkComplete =>
      if a.got != a.declared then BROKEN
      else if a.mode.InChunk? then a.(mode := BetweenChunks)
      else if a.mode.LastChunk? then a.(mode := Closing)
      else BROKEN
    case MessageComplete =>
      if (a.mode.Closing? || a.mode.Fixed?) && a.got == a.declared then a.(mode := Idle) else BROKEN
  }

  function AuditEvent(a: Audit, e: Event): Audit {
    match e
    case Data(k, bytes) => AuditData(a, k, |bytes|)
    case Notice(note) => AuditNote(a, note)
  }

  function AuditLog(a: Audit, log: seq<Event>): Audit {
    if log == [] then a else AuditEvent(AuditLog(a, log[..|log| - 1]), log[|log| - 1])
  }

  lemma AuditAdd(a: Audit, log: seq<Event>, e: Event)
    ensures AuditLog(a, Add(log, e)) == AuditEvent(AuditLog(a, log), e)
  {
    var joined := Add(log, e);
    assert joined[..|joined| - 1] == if |joined| > |log| then log else log[..|log| - 1];
  }

  /** Joining data callbacks does not change the audit. */
  lemma {:induction false} AuditAddAll(a: Audit, log: seq<Event>, es: seq<Event>)
    ensures AuditLog(a, AddAll(log, es)) == AuditLog(AuditLog(a, log), es)
  {
    if es != [] {
      AuditAddAll(a, log, es[..|es| - 1]);
      AuditAdd(a, AddAll(log, es[..|es| - 1]), es[|es| - 1]);
    }
  }

  lemma {:induction false} AuditConcat(a: Audit, u: seq<Event>, v: seq<Event>)
    ensures AuditLog(a, u + v) == AuditLog(AuditLog(a, u), v)
  {
    if v == [] {
      assert u + v == u;
    } else {
      assert (u + v)[..|u + v| - 1] == u + v[..|v| - 1];
      AuditConcat(a, u, v[..|v| - 1]);
    }
  }

  lemma {:induction false} BrokenStays(a: Audit, log: seq<Event>)
    requires a.mode.Broken?
    ensures AuditLog(a, log).mode.Broken?
  {
    if log != [] {
      BrokenStays(a, log[..|log| - 1]);
    }
  }

  // ---- what an unbroken audit means --------------------------------------------------------

  function BodyBytes(log: seq<Event>): nat {
    if log == [] then 0
    else
      var e := log[|log| - 1];
      BodyBytes(log[..|log| - 1]) + if e.Data? && e.kind.Body? then |e.bytes| else 0
  }

  function ChunkBytes(log: seq<Event>): nat {
    if log == [] then 0
    else
      var e := log[|log| - 1];
      ChunkBytes(log[..|log| - 1]) + if e.Notice? && e.note.ChunkHeader? then e.note.size else 0
  }

  predicate IsHeadersComplete(e: Event) {
    e.Notice? && e.note.HeadersComplete?
  }

  predicate IsMessageComplete(e: Event) {
    e.Notice? && e.note.MessageComplete?
  }

  /** The length that the framing announces for the message whose events after its headers are `log`. */
  function Announced(framing: Framing, log: seq<Event>): nat {
    match framing
    case NoBody => 0
    case Length(n) => n
    case Chunked => ChunkBytes(log)
    case UntilEof => 0
  }

  /** `j` is where the headers of the message that `log` ends in are complete. */
  predicate OpenedAt(log: seq<Event>, j: nat) {
    && j < |log| && IsHeadersComplete(log[j])
    && (forall i :: j < i < |log| ==> !IsHeadersComplete(log[i]) && !IsMessageComplete(log[i]))
  }

  predicate InMessage(a: Audit) {
    !a.mode.Idle? && !a.mode.Broken?
  }

  /** The audit's figures are those of the events `since` the headers with `framing` were complete. */
  predicate Sums(a: Audit, framing: Framing, since: seq<Event>) {
    && a.got == BodyBytes(since) && a.declared == Announced(framing, since)
    && (a.mode.Eof? <==> framing.UntilEof?)
    && (framing.NoBody? || framing.Length? ==> a.mode.Closing? || a.mode.Fixed?)
    && (a.mode.Fixed? ==> framing.Length?)
  }

  lemma SumsStep(a: Audit, framing: Framing, since: seq<Event>, e: Event)
    requires Sums(a, framing, since) && InMessage(a) && InMessage(AuditEvent(a, e))
    ensures Sums(AuditEvent(a, e), framing, since + [e])
  {
    assert (since + [e])[..|since|] == since;
  }

  lemma {:induction false} AuditSums(log: seq<Event>) returns (j: nat)
    requires InMessage(AuditLog(FRESH, log))
    ensures OpenedAt(log, j) && Sums(AuditLog(FRESH, log), log[j].note.framing, log[j + 1..])
  {
    NothingAudited(log);
    hide Sums, AuditLog, AuditEvent, AuditNote, AuditData, InMessage;
    var init, e := log[..|log| - 1], log[|log| - 1];
    AuditLast(FRESH, log);
    OnlyHeadersOpen(AuditLog(FRESH, init), e);
    if IsHeadersComplete(e) {
      j := |init|;
      assert log[j + 1..] == [];
      SumsStart(AuditLog(FRESH, init), e.note.framing);
      NoteAudited(AuditLog(FRESH, init), e);
    } else {
      j := AuditSums(init);
      SumsStep(AuditLog(FRESH, init), log[j].note.framing, init[j + 1..], e);
      assert log[j + 1..] == init[j + 1..] + [e];
    }
  }

  lemma NothingAudited(log: seq<Event>)
    requires InMessage(AuditLog(FRESH, log))
    ensures |log| > 0
  {}

  lemma AuditLast(a: Audit, log: seq<Event>)
    requires |log| > 0
    ensures AuditLog(a, log) == AuditEvent(AuditLog(a, log[..|log| - 1]), log[|log| - 1])
  {}

  lemma NoteAudited(a: Audit, e: Event)
    requires e.Notice?
    ensures AuditEvent(a, e) == AuditNote(a, e.note)
  {}

  /** Only completed headers take the audit into a message, and a complete message takes it out. */
  lemma OnlyHeadersOpen(a: Audit, e: Event)
    requires InMessage(AuditEvent(a, e))
    ensures !IsMessageComplete(e) && if IsHeadersComplete(e) then a.mode.Idle? else InMessage(a)
  {}

  lemma SumsStart(a: Audit, framing: Framing)
    requires a.mode.Idle?
    ensures Sums(AuditNote(a, HeadersComplete(framing)), framing, [])
  {}

  /** Every `message_complete` of an unbroken trace closes exactly one `headers_complete`, and in between
      `on_body` was given exactly the Content-Length or the sum of the chunk sizes; a body that is read
      until the connection ends is not closed by it. */
  lemma CompleteMeansConserved(log: seq<Event>, i: nat) returns (j: nat)
    requires !AuditLog(FRESH, log).mode.Broken? && i < |log| && IsMessageComplete(log[i])
    ensures OpenedAt(log[..i], j)
    ensures BodyBytes(log[j + 1..i]) == Announced(log[j].note.framing, log[j + 1..i])
    ensures !log[j].note.framing.UntilEof?
  {
    assert log == log[..i] + [log[i]] + log[i + 1..];
    AuditConcat(FRESH, log[..i] + [log[i]], log[i + 1..]);
    if AuditLog(FRESH, log[..i] + [log[i]]).mode.Broken? {
      BrokenStays(AuditLog(FRESH, log[..i] + [log[i]]), log[i + 1..]);
    }
    assert (log[..i] + [log[i]])[..i] == log[..i];
    assert InMessage(AuditLog(FRESH, log[..i]));
    j := AuditSums(log[..i]);
    assert log[..i][j + 1..] == log[j + 1..i];
  }

  // ---- one pass of the switch --------------------------------------------------------------

  /** What one action of a pass does to the audit, given the mark that is set; marks are one byte long here. */
  function AuditAct(a: Audit, act: Act, mk: Option<Kind>): Audit {
    match act
    case Mark(_) => a
    case Deliver(k) => if mk.Some? then AuditData(a, k, 0) else a
    case DeliverThrough(k) => if mk.Some? then AuditData(a, k, 1) else a
    case Notify(n) => AuditNote(a, n)
  }

  function MarkAct(act: Act, mk: Option<Kind>): Option<Kind> {
    match act
    case Mark(k) => if mk.Some? then mk else Some(k)
    case Notify(_) => mk
    case _ => None
  }

  function AuditActs(a: Audit, acts: Acts, mk: Option<Kind>): Audit
    decreases acts
  {
    match acts
    case Done => a
    case Then(act, rest) => AuditActs(AuditAct(a, act, mk), rest, MarkAct(act, mk))
  }

  function MarkActs(acts: Acts, mk: Option<Kind>): Option<Kind>
    decreases acts
  {
    match acts
    case Done => mk
    case Then(act, rest) => MarkActs(rest, MarkAct(act, mk))
  }

  /** The audit at the end of a one-byte call, with what is left under the mark delivered. */
  function AuditEnd(a: Audit, how: How, mk: Option<Kind>): Audit {
    if how == Go && mk.Some? then AuditData(a, mk.value, 1) else a
  }

  function AuditPass(a: Audit, o: Outcome, mk: Option<Kind>): Audit {
    AuditEnd(AuditActs(a, o.acts, mk), o.how, MarkActs(o.acts, mk))
  }

  lemma AuditOne(a: Audit, e: Event)
    ensures AuditLog(a, [e]) == AuditEvent(a, e)
  {
    assert [e][..0] == [];
  }

  lemma AuditApplyAct(a: Audit, act: Act, slot: Slot, b: byte)
    requires slot.Set? ==> slot.start == 0
    ensures var r := ApplyAct(act, slot, [b], 0);
            && AuditLog(a, r.0) == AuditAct(a, act, KindOf(slot))
            && KindOf(r.1) == MarkAct(act, KindOf(slot)) && (r.1.Set? ==> r.1.start == 0)
  {
    var r := ApplyAct(act, slot, [b], 0);
    if r.0 != [] {
      assert r.0 == [r.0[0]];
      AuditOne(a, r.0[0]);
    }
  }

  lemma {:induction false} AuditApply(a: Audit, acts: Acts, slot: Slot, b: byte)
    requires slot.Set? ==> slot.start == 0
    ensures var r := Apply(acts, slot, [b], 0);
            && AuditLog(a, r.0) == AuditActs(a, acts, KindOf(slot))
            && KindOf(r.1) == MarkActs(acts, KindOf(slot)) && (r.1.Set? ==> r.1.start == 0)
    decreases acts
  {
    hide ApplyAct, AuditAct, MarkAct;
    if acts.Then? {
      var first := ApplyAct(acts.head, slot, [b], 0);
      AuditApplyAct(a, acts.head, slot, b);
      AuditApply(AuditLog(a, first.0), acts.tail, first.1, b);
      AuditConcat(a, first.0, Apply(acts.tail, first.1, [b], 0).0);
    }
  }

  /** A one-byte call of the parser, as the audit sees it. */
  lemma AuditStep(s: Progress, b: byte, sw: Switch)
    requires s.how == Go
    ensures AuditLog(FRESH, Step(s, b, sw).log) == AuditPass(AuditLog(FRESH, s.log), sw(s.q, b), ResumeKind(s.q.state))
  {
    hide AuditActs, MarkActs, AuditData, AuditNote, AuditLog, Apply, AddAll;
    var o := sw(s.q, b);
    var a := AuditLog(FRESH, s.log);
    var r := Apply(o.acts, Resume(s.q.state), [b], 0);
    AuditAddAll(FRESH, s.log, StepEvents(s.q, b, sw));
    AuditApply(a, o.acts, Resume(s.q.state), b);
    if o.how == Go && r.1.Set? {
      AuditConcat(a, r.0, Flush(r.1, [b]));
      AuditOne(AuditLog(a, r.0), Data(r.1.kind, [b]));
      assert [b][0..] == [b];
    } else if o.how == Go {
      assert r.0 + [] == r.0;
    }
  }

  // ---- the states a parser can rest in -----------------------------------------------------

  predicate IsHeaderState(s: State) {
    s.s_header_field_start? || s.s_header_field?
    || s.s_header_value_discard_ws? || s.s_header_value_discard_ws_almost_done?
    || s.s_header_value_discard_lws? || s.s_header_value_start? || s.s_header_value? || s.s_header_value_lws?
    || s.s_header_almost_done? || s.s_headers_almost_done?
  }

  predicate IsStart(s: State) {
    s.s_dead? || s.s_start_req_or_res? || s.s_start_res? || s.s_start_req?
  }

  predicate IsChunkState(s: State) {
    s.s_chunk_size_start? || s.s_chunk_size? || s.s_chunk_parameters? || s.s_chunk_size_almost_done?
    || s.s_chunk_data? || s.s_chunk_data_almost_done? || s.s_chunk_data_done?
  }

  predicate IsValueState(h: HeaderState) {
    !h.h_connection? && !h.h_transfer_encoding?
  }

  /** What the assertions of the source rely on beside the audit. */
  predicate Sound(q: Fields) {
    && (q.state.s_header_field? ==> IsFieldState(q.headerState))
    && (q.state.s_header_value? ==> IsValueState(q.headerState))
    && (q.state.s_req_method? ==> q.index <= |MethodName(q.verb)|)
  }

  predicate InHeaders(trailing: bool, a: Audit) {
    if trailing then a.mode.LastChunk? && a.got == a.declared else a.mode.Idle?
  }

  predicate InChunks(q: Fields, a: Audit) {
    && q.flags.chunked && !q.flags.trailing
    && match q.state
       case s_chunk_size_start => a.mode.BetweenChunks? && a.got == a.declared
       case s_chunk_data =>
         a.mode.InChunk? && a.got + q.contentLength == a.declared && 0 < q.contentLength < ULLONG_MAX
       case s_chunk_data_almost_done => a.mode.InChunk? && a.got == a.declared && q.contentLength == 0
       case s_chunk_data_done => a.mode.InChunk? && a.got == a.declared
       case _ => a.mode.BetweenChunks? && a.got == a.declared && q.contentLength < ULLONG_MAX
  }

  /** The audit of the callbacks so far matches the state the parser rests in. */
  predicate Fits(q: Fields, a: Audit) {
    if IsHeaderState(q.state) then InHeaders(q.flags.trailing, a)
    else if IsChunkState(q.state) then InChunks(q, a)
    else if IsStart(q.state) then a.mode.Idle?
    else match q.state
      case s_body_identity => a.mode.Fixed? && a.got + q.contentLength == a.declared && 0 < q.contentLength < ULLONG_MAX
      case s_body_identity_eof => a.mode.Eof?
      case s_headers_done => false
      case s_message_done => false
      case _ => a.mode.Idle? && !q.flags.trailing
  }

  /** A pass that no assertion stops, that leaves the audit unbroken, and whose next state fits. */
  predicate Keeps(a: Audit, o: Outcome, mk: Option<Kind>) {
    var b := AuditPass(a, o, mk);
    && !b.mode.Broken? && o.q.errno != ASSERTION_FAILED
    && (o.how == Go ==> Fits(o.q, b) && Sound(o.q))
  }

  // ---- start lines and headers -------------------------------------------------------------

  predicate IsLineState(s: State) {
    !IsHeaderState(s) && !IsChunkState(s) && !IsStart(s)
    && !s.s_body_identity? && !s.s_body_identity_eof? && !s.s_headers_done? && !s.s_message_done?
  }

  predicate LineActs(acts: Acts, mk: Option<Kind>) {
    match acts
    case Done => mk == None || mk == Some(Url) || mk == Some(StatusText)
    case Then(Mark(k), Done) => (k.Url? || k.StatusText?) && (mk == None || mk == Some(k))
    case Then(Deliver(k), Done) => k.Url? || k.StatusText?
    case Then(Notify(n), Done) => n.MessageBegin? && mk == None
    case _ => false
  }

  /** A pass in a start line: it stays there, or reaches the headers. */
  predicate LineOutcome(o: Outcome, mk: Option<Kind>) {
    && o.q.errno != ASSERTION_FAILED && o.how != Exit && LineActs(o.acts, mk)
    && (o.how == Go ==>
          IsStart(o.q.state)
          || (!o.q.flags.trailing && (IsLineState(o.q.state) || o.q.state.s_header_field_start?)))
    && (o.how == Go && o.q.state.s_req_method? ==> o.q.index <= |MethodName(o.q.verb)|)
  }

  lemma LineOutcomeKeeps(a: Audit, o: Outcome, mk: Option<Kind>)
    requires a.mode.Idle? && LineOutcome(o, mk)
    ensures Keeps(a, o, mk)
  {
    hide MethodName, IsFieldState, IsValueState;
  }

  lemma StartReqKeeps(q: Fields, ch: byte)
    requires q.state.s_start_req? && q.errno == OK
    ensures LineOutcome(OnStartReq(q, ch), None)
  {}

  /** A method is only switched to at an index inside its name. */
  lemma SwitchedMethodIsLonger(v: Method, index: nat, ch: byte)
    ensures SwitchMethod(v, index, ch).Known? ==> index < |MethodName(SwitchMethod(v, index, ch).m)|
    ensures 1 < |MethodName(MSEARCH)|
  {}

  lemma MethodKeeps(q: Fields, ch: byte)
    requires q.state.s_req_method? && q.errno == OK && !q.flags.trailing && Sound(q)
    ensures LineOutcome(OnMethod(q, ch), None)
  {
    hide MethodName, SwitchMethod;
    SwitchedMethodIsLonger(q.verb, q.index, ch);
  }

  lemma StartKeeps(q: Fields, ch: byte)
    requires GroupOf(q.state).GStart? && q.errno == OK && (IsStart(q.state) || !q.flags.trailing) && Sound(q)
    ensures LineOutcome(OnStart(q, ch), None)
  {
    hide OnMethod, OnStartReq;
    if q.state.s_req_method? {
      MethodKeeps(q, ch);
    } else if q.state.s_start_req? {
      StartReqKeeps(q, ch);
    } else if q.state.s_start_req_or_res? {
      StartReqKeeps(q.(flags := NO_FLAGS, contentLength := ULLONG_MAX, typ := REQUEST, state := s_start_req), ch);
    }
  }

  lemma VersionKeeps(q: Fields, ch: byte)
    requires GroupOf(q.state).GStatusLine? && !IsStatusState(q.state) && q.errno == OK && !q.flags.trailing
    ensures LineOutcome(OnStatusLine(q, ch), None)
  {}

  lemma StatusKeeps(q: Fields, ch: byte)
    requires IsStatusState(q.state) && q.errno == OK && !q.flags.trailing
    ensures LineOutcome(OnStatusLine(q, ch), ResumeKind(q.state))
  {
    hide Expect, GroupOf;
  }

  lemma UrlCharKeeps(q: Fields, s: State, ch: byte)
    requires q.errno == OK && !q.flags.trailing
    ensures LineOutcome(OnUrlChar(q, s, ch), Some(Url)) && OnUrlChar(q, s, ch).acts == Done
  {
    hide IsUrlChar, IsUserinfoChar, MethodName;
    UrlCharStays(s, ch);
  }

  lemma UrlCharStays(s: State, ch: byte)
    ensures var t := ParseUrlChar(s, ch); t.s_dead? || (IsLineState(t) && !t.s_req_method?)
  {
    hide IsUrlChar, IsUserinfoChar;
  }

  lemma UrlKeeps(q: Fields, ch: byte)
    requires GroupOf(q.state).GUrl? && q.errno == OK && !q.flags.trailing
    ensures LineOutcome(OnUrl(q, ch), ResumeKind(q.state))
  {
    hide OnUrlChar;
    UrlCharKeeps(q, q.state, ch);
    UrlCharKeeps(q, s_req_server_start, ch);
  }

  lemma RequestLineKeeps(q: Fields, ch: byte)
    requires GroupOf(q.state).GRequestLine? && q.errno == OK && !q.flags.trailing
    ensures LineOutcome(OnRequestLine(q, ch), None)
  {}

  predicate HeaderActs(acts: Acts, mk: Option<Kind>) {
    match acts
    case Done => mk == None || mk == Some(HeaderField) || mk == Some(HeaderValue)
    case Then(Mark(k), rest) => (k.HeaderField? || k.HeaderValue?) && HeaderActs(rest, MarkAct(acts.head, mk))
    case Then(Deliver(k), rest) => (k.HeaderField? || k.HeaderValue?) && HeaderActs(rest, None)
    case _ => false
  }

  /** A pass that stays in the headers or trailers. */
  predicate HeaderOutcome(o: Outcome, trailing: bool, mk: Option<Kind>) {
    && o.q.errno != ASSERTION_FAILED && o.how != Exit && HeaderActs(o.acts, mk)
    && (o.how == Go ==> IsHeaderState(o.q.state) && o.q.flags.trailing == trailing && Sound(o.q))
  }

  lemma {:induction false} HeaderActsKeep(a: Audit, acts: Acts, mk: Option<Kind>)
    requires (a.mode.Idle? || a.mode.LastChunk?) && HeaderActs(acts, mk)
    ensures AuditActs(a, acts, mk) == a && HeaderActs(Done, MarkActs(acts, mk))
    decreases acts
  {
    if acts.Then? {
      HeaderActsKeep(a, acts.tail, MarkAct(acts.head, mk));
    }
  }

  lemma HeaderOutcomeKeeps(a: Audit, o: Outcome, trailing: bool, mk: Option<Kind>)
    requires InHeaders(trailing, a) && HeaderOutcome(o, trailing, mk)
    ensures Keeps(a, o, mk)
  {
    HeaderActsKeep(a, o.acts, mk);
  }

  lemma FieldKeeps(q: Fields, ch: byte)
    requires q.state.s_header_field? && q.errno == OK && Sound(q)
    ensures HeaderOutcome(OnHeaderField(q, ch), q.flags.trailing, Some(HeaderField))
  {}

  lemma ValueCharKeeps(q: Fields, ch: byte)
    requires IsValueState(q.headerState) && q.state.s_header_value?
    ensures match ValueChar(q, ch)
            case ValueOk(h, _, flags, _) => IsValueState(h) && flags.trailing == q.flags.trailing
            case ValueError(e) => e != ASSERTION_FAILED
  {
    hide MatchValue, LengthChar, TokenStartChar, OptionChar, Lower;
    var c := Lower(ch);
    LengthHarmless(q, ch);
    TokenStartHarmless(q, c);
    OptionHarmless(q, ch);
    MatchHarmless("chunked", h_transfer_encoding_chunked, h_general, q, c);
    MatchHarmless("keep-alive", h_connection_keep_alive, h_matching_connection_token, q, c);
    MatchHarmless("close", h_connection_close, h_matching_connection_token, q, c);
    MatchHarmless("upgrade", h_connection_upgrade, h_matching_connection_token, q, c);
  }

  /** A result that keeps a header value in its states and out of the trailer flag. */
  predicate Harmless(r: ValueResult, trailing: bool) {
    match r
    case ValueOk(h, _, flags, _) => IsValueState(h) && flags.trailing == trailing
    case ValueError(e) => e != ASSERTION_FAILED
  }

  lemma LengthHarmless(q: Fields, ch: byte)
    ensures Harmless(LengthChar(q, ch), q.flags.trailing)
  {}

  lemma TokenStartHarmless(q: Fields, c: byte)
    ensures Harmless(TokenStartChar(q, c), q.flags.trailing)
  {
    hide Token;
  }

  lemma OptionHarmless(q: Fields, ch: byte)
    requires IsValueState(q.headerState)
    ensures Harmless(OptionChar(q, ch), q.flags.trailing)
  {}

  lemma MatchHarmless(word: string, hit: HeaderState, miss: HeaderState, q: Fields, c: byte)
    requires IsValueState(hit) && IsValueState(miss) && IsValueState(q.headerState)
    ensures Harmless(MatchValue(word, hit, miss, q.headerState, q, c), q.flags.trailing)
  {
    hide CharAt;
  }

  lemma ValueKeeps(q: Fields, ch: byte)
    requires q.state.s_header_value? && q.errno == OK && Sound(q)
    ensures HeaderOutcome(OnHeaderValue(q, ch), q.flags.trailing, Some(HeaderValue))
  {
    hide ValueChar;
    ValueCharKeeps(q, ch);
  }

  lemma ValueStartKeeps(q: Fields, ch: byte)
    requires q.errno == OK
    ensures HeaderOutcome(OnValueStart(q, ch), q.flags.trailing, None)
  {
    hide HeaderActs, IsHeaderState, Sound, OnValueStart;
    ValueStartShape(q, ch);
    ValueStateSound(OnValueStart(q, ch).q);
    MarkedValue();
  }

  lemma ValueStartShape(q: Fields, ch: byte)
    requires q.errno == OK
    ensures
      var o := OnValueStart(q, ch);
      && o.acts == Then(Mark(HeaderValue), Done) && o.how != Exit && o.q.errno != ASSERTION_FAILED
      && o.q.state == s_header_value && o.q.flags.trailing == q.flags.trailing
      && (o.how == Go ==> IsValueState(o.q.headerState))
  {
    hide Lower, IsNum, StartLength, StartOption;
    StartLengthShape(q.(state := s_header_value, index := 0), ch);
    StartOptionShape(Lower(ch));
  }

  lemma StartLengthShape(p: Fields, ch: byte)
    requires p.errno == OK
    ensures
      var o := StartLength(p, ch);
      && o.acts == Done && o.how != Exit && o.q.errno != ASSERTION_FAILED && o.q.state == p.state
      && o.q.flags.trailing == p.flags.trailing && o.q.headerState == p.headerState
  {
    hide IsNum;
  }

  lemma StartOptionShape(c: byte)
    ensures IsValueState(StartOption(c))
  {}

  lemma ValueStateSound(q: Fields)
    requires q.state == s_header_value
    ensures IsHeaderState(q.state) && (IsValueState(q.headerState) ==> Sound(q))
  {}

  lemma MarkedValue()
    ensures HeaderActs(Then(Mark(HeaderValue), Done), None)
  {
    assert MarkAct(Mark(HeaderValue), None) == Some(HeaderValue);
    assert HeaderActs(Done, Some(HeaderValue));
  }

  // ---- the end of the headers --------------------------------------------------------------

  lemma MessageDoneKeeps(a: Audit, q: Fields)
    requires (a.mode.Closing? || a.mode.Fixed?) && a.got == a.declared && q.errno == OK
    ensures Keeps(a, OnMessageDone(q), None)
  {}

  /** The parser goes into the kind of body that `headers_complete` was told about. */
  lemma HeadersDoneKeeps(a: Audit, q: Fields, ch: byte)
    requires a == AuditNote(FRESH, HeadersComplete(BodyFraming(q))) && q.errno == OK && !q.flags.trailing
    ensures Keeps(a, OnHeadersDone(q, ch), None)
  {
    hide Keeps, NewMessage, Fits, OnHeadersDone, BodyFraming;
    HeadersDoneCases(a, q, ch);
    if ch != LF {
      ErrorKeeps(a, q, STRICT, None);
    } else if BodyFraming(q).NoBody? {
      CompleteKeeps(a, q, if LeavesForUpgrade(q) then Exit else Go);
    } else {
      RestKeeps(a, OnHeadersDone(q, ch).q, None, true);
    }
  }

  lemma HeadersDoneCases(a: Audit, q: Fields, ch: byte)
    requires a == AuditNote(FRESH, HeadersComplete(BodyFraming(q))) && q.errno == OK && !q.flags.trailing
    ensures !a.mode.Broken?
    ensures ch != LF ==> OnHeadersDone(q, ch) == Error(q, STRICT)
    ensures ch == LF && BodyFraming(q).NoBody? ==> a == Audit(Closing, 0, 0)
    ensures ch == LF && BodyFraming(q).NoBody? ==>
      OnHeadersDone(q, ch) == Outcome(q.(state := NewMessage(q)), Then(Notify(MessageComplete), Done),
                                      if LeavesForUpgrade(q) then Exit else Go, true)
    ensures ch == LF && !BodyFraming(q).NoBody? ==>
      var p := OnHeadersDone(q, ch).q;
      OnHeadersDone(q, ch) == Outcome(p, Done, Go, true) && Fits(p, a) && Sound(p) && p.errno == OK
  {
    hide NeedsEof, NewMessage;
  }

  /** Completing a message whose body is all there. */
  lemma CompleteKeeps(a: Audit, q: Fields, how: How)
    requires (a.mode.Closing? || a.mode.Fixed?) && a.got == a.declared && q.errno == OK && how != Fail
    ensures Keeps(a, Outcome(q.(state := NewMessage(q)), Then(Notify(MessageComplete), Done), how, true), None)
  {}

  lemma AlmostDoneKeeps(a: Audit, q: Fields, ch: byte, cb: HeadersCompleteCallback)
    requires InHeaders(q.flags.trailing, a) && q.errno == OK
    ensures Keeps(a, OnHeadersAlmostDone(q, ch, cb), None)
  {
    hide Keeps, OnMessageDone, OnHeadersDone, BodyFraming;
    if ch != LF {
      ErrorKeeps(a, q, STRICT, None);
    } else if q.flags.trailing {
      var p := q.(state := s_message_done);
      MessageDoneKeeps(a.(mode := Closing), p);
      KeepsAfter(a, Notify(ChunkComplete), OnMessageDone(p), None);
    } else if q.flags.chunked && q.flags.hasLength {
      ErrorKeeps(a, q, UNEXPECTED_CONTENT_LENGTH, None);
    } else {
      var p := q.(state := s_headers_done,
        upgrade := (q.flags.upgrade && q.flags.connectionUpgrade) || q.verb.CONNECT?);
      var j := Judged(p, cb(p));
      var note := HeadersComplete(BodyFraming(j));
      HeadersDoneKeeps(AuditNote(FRESH, note), j, ch);
      KeepsAfter(a, Notify(note), OnHeadersDone(j, ch), None);
    }
  }

  lemma KeepsAfter(a: Audit, act: Act, o: Outcome, mk: Option<Kind>)
    ensures Keeps(a, After(act, o), mk) == Keeps(AuditAct(a, act, mk), o, MarkAct(act, mk))
  {}

  lemma RestKeeps(a: Audit, q: Fields, mk: Option<Kind>, reset: bool)
    requires var b := AuditEnd(a, Go, mk); Fits(q, b) && Sound(q) && !b.mode.Broken? && q.errno == OK
    ensures Keeps(a, Outcome(q, Done, Go, reset), mk)
  {}

  lemma ErrorKeeps(a: Audit, q: Fields, e: Errno, mk: Option<Kind>)
    requires !a.mode.Broken? && e != ASSERTION_FAILED
    ensures Keeps(a, Error(q, e), mk)
  {}

  lemma FieldStartOutcome(q: Fields, ch: byte, cb: HeadersCompleteCallback)
    requires q.errno == OK && ch != LF && IsHeaderState(q.state)
    ensures HeaderOutcome(OnFieldStart(q, ch, cb), q.flags.trailing, None)
  {}

  lemma FieldStartKeeps(a: Audit, q: Fields, ch: byte, cb: HeadersCompleteCallback)
    requires InHeaders(q.flags.trailing, a) && q.errno == OK && IsHeaderState(q.state)
    ensures Keeps(a, OnFieldStart(q, ch, cb), None)
  {
    hide Keeps, OnHeadersAlmostDone, HeaderOutcome;
    if ch == LF {
      AlmostDoneKeeps(a, q.(state := s_headers_almost_done), ch, cb);
    } else {
      FieldStartOutcome(q, ch, cb);
      HeaderOutcomeKeeps(a, OnFieldStart(q, ch, cb), q.flags.trailing, None);
    }
  }

  /** The header end states that do not start the next header. */
  lemma HeaderEndOutcome(q: Fields, ch: byte, cb: HeadersCompleteCallback)
    requires GroupOf(q.state).GHeaderEnd? && q.errno == OK
    requires q.state.s_header_value_lws? || q.state.s_header_value_discard_lws? ==> ch == SPACE || ch == TAB
    ensures HeaderOutcome(OnHeaderEnd(q, ch, cb), q.flags.trailing, None)
  {
    hide OnValueStart, OnFieldStart;
    ValueStartKeeps(q, ch);
    ValueStartKeeps(q.(state := s_header_value_start), ch);
  }

  lemma RecognisedKeepsTrailing(h: HeaderState, flags: Flags)
    ensures Recognised(h, flags).trailing == flags.trailing
  {}

  /** The line after a header value begins a new field. */
  lemma FoldEndKeeps(a: Audit, q: Fields, ch: byte, cb: HeadersCompleteCallback)
    requires q.state.s_header_value_lws? || q.state.s_header_value_discard_lws?
    requires ch != SPACE && ch != TAB && InHeaders(q.flags.trailing, a) && q.errno == OK
    ensures Keeps(a, OnHeaderEnd(q, ch, cb), None)
  {
    hide Keeps, OnFieldStart, OnValueStart, HeaderOutcome, Recognised;
    RecognisedKeepsTrailing(q.headerState, q.flags);
    var p := q.(flags := Recognised(q.headerState, q.flags), state := s_header_field_start);
    FieldStartKeeps(a, p, ch, cb);
    KeepsAfter(a, Deliver(HeaderValue), OnFieldStart(p, ch, cb), Some(HeaderValue));
    KeepsAfter(a, Mark(HeaderValue), After(Deliver(HeaderValue), OnFieldStart(p, ch, cb)), None);
  }

  lemma HeaderEndKeeps(a: Audit, q: Fields, ch: byte, cb: HeadersCompleteCallback)
    requires GroupOf(q.state).GHeaderEnd? && InHeaders(q.flags.trailing, a) && q.errno == OK
    ensures Keeps(a, OnHeaderEnd(q, ch, cb), None)
  {
    hide Keeps, OnHeaderEnd, HeaderOutcome, InHeaders;
    if (q.state.s_header_value_lws? || q.state.s_header_value_discard_lws?) && ch != SPACE && ch != TAB {
      FoldEndKeeps(a, q, ch, cb);
    } else {
      HeaderEndOutcome(q, ch, cb);
      HeaderOutcomeKeeps(a, OnHeaderEnd(q, ch, cb), q.flags.trailing, None);
    }
  }

  // ---- bodies ------------------------------------------------------------------------------

  lemma IdentityKeeps(a: Audit, q: Fields)
    requires q.state.s_body_identity? && Fits(q, a) && q.errno == OK
    ensures Keeps(a, OnIdentity(q), None)
  {
    hide OnMessageDone, Keeps;
    var p := q.(contentLength := 0, state := s_message_done);
    if q.contentLength == 1 {
      var b := a.(got := a.got + 1);
      MessageDoneKeeps(b, p);
      KeepsAfter(a, DeliverThrough(Body), OnMessageDone(p), Some(Body));
      KeepsAfter(a, Mark(Body), After(DeliverThrough(Body), OnMessageDone(p)), None);
    } else {
      var r := q.(contentLength := q.contentLength - 1);
      RestKeeps(a, r, Some(Body), false);
      KeepsAfter(a, Mark(Body), Next(r), None);
    }
  }

  /** The parser once a byte of a chunk, or of a body without a length, is passed. */
  function Drawn(q: Fields): Fields
    requires q.state.s_chunk_data? || q.state.s_body_identity_eof?
    requires q.state.s_chunk_data? ==> 0 < q.contentLength
  {
    if q.state.s_body_identity_eof? then q
    else
      q.(contentLength := q.contentLength - 1,
         state := if q.contentLength == 1 then s_chunk_data_almost_done else s_chunk_data)
  }

  lemma ChunkData(q: Fields, a: Audit, ch: byte)
    requires (q.state.s_chunk_data? || q.state.s_body_identity_eof?) && Fits(q, a)
    ensures q.state.s_chunk_data? ==> 0 < q.contentLength
    ensures OnBody(q, ch) == After(Mark(Body), Next(Drawn(q)))
  {
    hide OnIdentity, OnChunkSize, OnMessageDone;
  }

  lemma DrawnFits(q: Fields, a: Audit)
    requires (q.state.s_chunk_data? || q.state.s_body_identity_eof?) && Fits(q, a)
    requires q.state.s_chunk_data? ==> 0 < q.contentLength
    ensures var b := AuditEnd(a, Go, Some(Body)); Fits(Drawn(q), b) && Sound(Drawn(q)) && !b.mode.Broken?
  {
    hide MethodName, IsFieldState, IsValueState;
  }

  lemma ChunkDataKeeps(a: Audit, q: Fields, ch: byte)
    requires (q.state.s_chunk_data? || q.state.s_body_identity_eof?) && Fits(q, a) && q.errno == OK
    ensures Keeps(a, OnBody(q, ch), None)
  {
    hide Keeps, OnBody, Fits, Sound, AuditEnd;
    ChunkData(q, a, ch);
    DrawnFits(q, a);
    RestKeeps(a, Drawn(q), Some(Body), false);
    KeepsAfter(a, Mark(Body), Next(Drawn(q)), None);
  }

  lemma ChunkCr(q: Fields, ch: byte)
    requires q.state.s_chunk_data_almost_done? && q.flags.chunked && q.contentLength == 0
    ensures OnBody(q, ch) == if ch != CR then Error(q, STRICT)
      else After(Deliver(Body), Next(q.(state := s_chunk_data_done)))
  {}

  lemma ChunkCrKeeps(a: Audit, q: Fields, ch: byte)
    requires q.state.s_chunk_data_almost_done? && Fits(q, a) && q.errno == OK
    ensures Keeps(a, OnBody(q, ch), None)
  {
    hide Keeps, OnBody;
    ChunkCr(q, ch);
    ErrorKeeps(a, q, STRICT, None);
    var p := q.(state := s_chunk_data_done);
    RestKeeps(a, p, None, false);
    KeepsAfter(a, Deliver(Body), Next(p), None);
  }

  lemma ChunkLf(q: Fields, ch: byte)
    requires q.state.s_chunk_data_done? && q.flags.chunked
    ensures OnBody(q, ch) == if ch != LF then Error(q, STRICT)
      else After(Notify(ChunkComplete), Outcome(q.(state := s_chunk_size_start), Done, Go, true))
  {}

  lemma ChunkLfKeeps(a: Audit, q: Fields, ch: byte)
    requires q.state.s_chunk_data_done? && Fits(q, a) && q.errno == OK
    ensures Keeps(a, OnBody(q, ch), None)
  {
    hide Keeps, OnBody;
    ChunkLf(q, ch);
    ErrorKeeps(a, q, STRICT, None);
    var p := q.(state := s_chunk_size_start);
    RestKeeps(a.(mode := BetweenChunks), p, None, true);
    KeepsAfter(a, Notify(ChunkComplete), Outcome(p, Done, Go, true), None);
  }

  /** Bytes of a chunk header before its line ends. */
  predicate ChunkLineOutcome(o: Outcome) {
    && o.acts == Done && o.q.errno != ASSERTION_FAILED && o.how != Exit
    && (o.how == Go ==>
          && (o.q.state.s_chunk_size? || o.q.state.s_chunk_parameters? || o.q.state.s_chunk_size_almost_done?)
          && o.q.flags.chunked && !o.q.flags.trailing && o.q.contentLength < ULLONG_MAX)
  }

  lemma ChunkLineKeeps(a: Audit, o: Outcome)
    requires ChunkLineOutcome(o) && a.mode.BetweenChunks? && a.got == a.declared
    ensures Keeps(a, o, None)
  {}

  lemma ChunkLine(q: Fields, ch: byte)
    requires q.state.s_chunk_size_start? || q.state.s_chunk_size? || q.state.s_chunk_parameters?
    requires q.flags.chunked && !q.flags.trailing && q.errno == OK
    requires q.state.s_chunk_size_start? || q.contentLength < ULLONG_MAX
    ensures ChunkLineOutcome(OnBody(q, ch))
  {}

  /** The parser once a chunk header is complete, and the audit then. */
  function Opened(q: Fields): Fields {
    if q.contentLength == 0 then q.(flags := q.flags.(trailing := true), state := s_header_field_start)
    else q.(state := s_chunk_data)
  }

  lemma OpenedChunkFits(a: Audit, q: Fields)
    requires q.state.s_chunk_size_almost_done? && Fits(q, a)
    ensures Fits(Opened(q), AuditNote(a, ChunkHeader(q.contentLength)))
    ensures Sound(Opened(q)) && !AuditNote(a, ChunkHeader(q.contentLength)).mode.Broken? && !a.mode.Broken?
  {
    hide MethodName, IsFieldState, IsValueState;
  }

  lemma ChunkSizeEnd(q: Fields, ch: byte)
    requires q.state.s_chunk_size_almost_done? && q.flags.chunked
    ensures OnBody(q, ch) == if ch != LF then Error(q, STRICT)
      else After(Notify(ChunkHeader(q.contentLength)), Outcome(Opened(q), Done, Go, true))
  {}

  lemma ChunkSizeEndKeeps(a: Audit, q: Fields, ch: byte)
    requires q.state.s_chunk_size_almost_done? && q.flags.chunked && Fits(q, a) && q.errno == OK
    ensures Keeps(a, OnBody(q, ch), None)
  {
    hide Keeps, Fits, AuditNote, OnBody;
    ChunkSizeEnd(q, ch);
    OpenedChunkFits(a, q);
    ErrorKeeps(a, q, STRICT, None);
    RestKeeps(AuditNote(a, ChunkHeader(q.contentLength)), Opened(q), None, true);
    KeepsAfter(a, Notify(ChunkHeader(q.contentLength)), Outcome(Opened(q), Done, Go, true), None);
  }

  lemma BodyKeeps(a: Audit, q: Fields, ch: byte)
    requires GroupOf(q.state).GBody? && Fits(q, a) && q.errno == OK
    ensures Keeps(a, OnBody(q, ch), None)
  {
    hide Keeps, OnIdentity, ChunkLineOutcome;
    match q.state
    case s_body_identity => assert OnBody(q, ch) == OnIdentity(q); IdentityKeeps(a, q);
    case s_chunk_data | s_body_identity_eof => ChunkDataKeeps(a, q, ch);
    case s_chunk_data_almost_done => ChunkCrKeeps(a, q, ch);
    case s_chunk_data_done => ChunkLfKeeps(a, q, ch);
    case s_chunk_size_almost_done => ChunkSizeEndKeeps(a, q, ch);
    case s_message_done =>
    case _ => ChunkLine(q, ch); ChunkLineKeeps(a, OnBody(q, ch));
  }

  // ---- whole runs --------------------------------------------------------------------------

  lemma FirstLineKeeps(a: Audit, q: Fields, ch: byte, cb: HeadersCompleteCallback)
    requires GroupOf(q.state) in {GStart, GStatusLine, GUrl, GRequestLine} && Fits(q, a) && Sound(q) && q.errno == OK
    ensures Keeps(a, Dispatch(q, ch, cb), ResumeKind(q.state))
  {
    hide Keeps, LineOutcome, OnStart, OnStatusLine, OnUrl, OnRequestLine;
    match GroupOf(q.state) {
      case GStart => StartKeeps(q, ch);
      case GStatusLine => if IsStatusState(q.state) { StatusKeeps(q, ch); } else { VersionKeeps(q, ch); }
      case GUrl => UrlKeeps(q, ch);
      case _ => RequestLineKeeps(q, ch);
    }
    LineOutcomeKeeps(a, Dispatch(q, ch, cb), ResumeKind(q.state));
  }

  lemma HeaderKeeps(a: Audit, q: Fields, ch: byte, cb: HeadersCompleteCallback)
    requires IsHeaderState(q.state) && InHeaders(q.flags.trailing, a) && Sound(q) && q.errno == OK
    ensures Keeps(a, Dispatch(q, ch, cb), ResumeKind(q.state))
  {
    hide Keeps, HeaderOutcome, Sound, OnFieldStart, OnHeaderField, OnHeaderValue, OnHeaderEnd, OnHeadersAlmostDone,
      InHeaders;
    match GroupOf(q.state)
    case GField =>
      FieldKeeps(q, ch);
      HeaderOutcomeKeeps(a, OnHeaderField(q, ch), q.flags.trailing, Some(HeaderField));
    case GValue =>
      ValueKeeps(q, ch);
      HeaderOutcomeKeeps(a, OnHeaderValue(q, ch), q.flags.trailing, Some(HeaderValue));
    case GFieldStart => FieldStartKeeps(a, q, ch, cb);
    case GHeaderEnd => HeaderEndKeeps(a, q, ch, cb);
    case _ => AlmostDoneKeeps(a, q, ch, cb);
  }

  /** Every pass of the switch from a state that fits the audit. */
  lemma DispatchKeeps(a: Audit, q: Fields, ch: byte, cb: HeadersCompleteCallback)
    requires Fits(q, a) && Sound(q) && q.errno == OK
    ensures Keeps(a, Dispatch(q, ch, cb), ResumeKind(q.state))
  {
    hide Keeps, Dispatch, Sound;
    if GroupOf(q.state).GBody? {
      DispatchBody(q, ch, cb);
      BodyKeeps(a, q, ch);
    } else if IsHeaderState(q.state) {
      HeaderKeeps(a, q, ch, cb);
    } else {
      FirstLineKeeps(a, q, ch, cb);
    }
  }

  lemma DispatchBody(q: Fields, ch: byte, cb: HeadersCompleteCallback)
    requires GroupOf(q.state).GBody?
    ensures Dispatch(q, ch, cb) == OnBody(q, ch)
    ensures ResumeKind(q.state) == None
  {}

  /** A run is framed: its audit is unbroken and no assertion has failed; while it goes on the parser rests
      in a state that fits what its callbacks have been told. */
  predicate Framed(r: Progress) {
    var a := AuditLog(FRESH, r.log);
    && !a.mode.Broken? && r.q.errno != ASSERTION_FAILED
    && (r.how == Go ==> Fits(r.q, a) && Sound(r.q) && r.q.errno == OK)
  }

  /** A fresh parser, or one at rest between messages. */
  lemma {:induction false} RunIsFramed(s: Progress, data: seq<byte>, p: nat, m: Machine, cb: HeadersCompleteCallback)
    requires Steps(m) && Implements(m.sw, cb) && p <= |data| && Framed(s)
    ensures Framed(RunTo(s, data, p, m))
  {
    if p > 0 {
      RunIsFramed(s, data, p - 1, m, cb);
      StepIsFramed(RunTo(s, data, p - 1, m), data[p - 1], m, cb);
    }
  }

  lemma StepIsFramed(s: Progress, b: byte, m: Machine, cb: HeadersCompleteCallback)
    requires Steps(m) && Implements(m.sw, cb) && Framed(s)
    ensures Framed(m.step(s, b))
  {
    hide Fits, Sound, Dispatch;
    assert Watch(s, b) && Consult(s.q, b);
    if s.how == Go {
      AuditStep(s, b, m.sw);
      DispatchKeeps(AuditLog(FRESH, s.log), s.q, b, cb);
      DispatchOrderly(s.q, b, cb, ResumeKind(s.q.state));
    }
  }

  lemma FreshIsFramed(typ: ParserType)
    ensures Framed(Progress(Init(typ), [], 0, Go, 0, 0))
  {}

  // ---- bodies that end with the connection ---------------------------------------------------

  lemma BodyAdded(log: seq<Event>, e: Event)
    ensures BodyBytes(Add(log, e)) == BodyBytes(log) + if e.Data? && e.kind.Body? then |e.bytes| else 0
  {
    var joined := Add(log, e);
    assert joined[..|joined| - 1] == if |joined| > |log| then log else log[..|log| - 1];
  }

  lemma EofEvents(q: Fields, b: byte, sw: Switch)
    requires q.state.s_body_identity_eof? && sw(q, b) == After(Mark(Body), Next(q))
    ensures StepEvents(q, b, sw) == [Data(Body, [b])]
  {
    var acts := Then(Mark(Body), Done);
    assert Apply(acts.tail, Set(Body, 0), [b], 0) == ([], Set(Body, 0));
    var r := Apply(acts, Unset, [b], 0);
    assert r.0 == [] && r.1 == Set(Body, 0);
    assert Flush(Set(Body, 0), [b]) == [Data(Body, [b])] by {
      assert [b][0..] == [b];
    }
  }

  lemma EofByte(s: Progress, b: byte, m: Machine, cb: HeadersCompleteCallback)
    requires Steps(m) && Implements(m.sw, cb) && s.how == Go && s.q.state.s_body_identity_eof?
    ensures var r := m.step(s, b);
      r.how == Go && r.q == s.q && BodyBytes(r.log) == BodyBytes(s.log) + 1
  {
    assert Watch(s, b) && Consult(s.q, b);
    EofEvents(s.q, b, m.sw);
    hide StepEvents, Dispatch;
    AddAllOne(s.log, Data(Body, [b]));
    BodyAdded(s.log, Data(Body, [b]));
  }

  /** Where no length is announced, every byte up to the end of the connection goes to `on_body`. */
  lemma {:induction false} EofBodyIsDelivered(s: Progress, data: seq<byte>, p: nat, m: Machine,
                                              cb: HeadersCompleteCallback)
    requires Steps(m) && Implements(m.sw, cb) && p <= |data| && s.how == Go && s.q.state.s_body_identity_eof?
    ensures var r := RunTo(s, data, p, m);
      r.how == Go && r.q == s.q && BodyBytes(r.log) == BodyBytes(s.log) + p
  {
    if p > 0 {
      EofBodyIsDelivered(s, data, p - 1, m, cb);
      EofByte(RunTo(s, data, p - 1, m), data[p - 1], m, cb);
    }
  }

  /** The `message_complete` that the end of the connection brings closes exactly one `headers_complete`, that of a
      message without a length. */
  lemma EofMessageIsOpen(r: Progress) returns (j: nat)
    requires Framed(r) && r.how == Go && r.q.state.s_body_identity_eof?
    ensures OpenedAt(r.log, j) && r.log[j].note.framing.UntilEof?
  {
    j := AuditSums(r.log);
  }

  // ---- lengths -----------------------------------------------------------------------------

  predicate IsHexText(text: seq<byte>) {
    forall i :: 0 <= i < |text| ==> Unhex(text[i]) != -1
  }

  /** The first decimal number that is rejected: six short of 2^64. */
  const DECIMAL_LIMIT: nat := 18446744073709551610

  /** The first hexadecimal number that is rejected: sixteen short of 2^64. */
  const HEX_LIMIT: nat := 18446744073709551600

  lemma LengthByte(q: Fields, ch: byte, m: Machine, cb: HeadersCompleteCallback)
    requires Implements(m.sw, cb) && q.state.s_header_value? && q.headerState.h_content_length?
    requires IsNum(ch) || ch == SPACE
    ensures m.sw(q, ch) ==
      if ch == SPACE then Next(q)
      else if (ULLONG_MAX - 10) / 10 < q.contentLength then Error(q, INVALID_CONTENT_LENGTH)
      else Next(q.(contentLength := q.contentLength * 10 + (ch - '0' as int)))
  {
    assert Consult(q, ch);
    assert q.(headerState := h_content_length) == q;
    assert q.(contentLength := q.contentLength) == q;
  }

  /** A Content-Length is read with its blanks passed over: it is accepted exactly when the number of the digits that
      remain is below the limit, and then `content_length` is that number, short of the sentinel; otherwise the run
      fails with the length error. */
  lemma {:induction false} ContentLengthIsDecimal(s: Progress, text: seq<byte>, p: nat, m: Machine,
                                                  cb: HeadersCompleteCallback)
    requires Steps(m) && Implements(m.sw, cb) && p <= |text| && IsLengthText(text)
    requires s.how == Go && s.q.state.s_header_value? && s.q.headerState.h_content_length?
    requires s.q.contentLength < DECIMAL_LIMIT
    ensures var r := RunTo(s, text, p, m);
            var n := Decimal(s.q.contentLength, Unspaced(text[..p]));
            && (r.how == Go <==> n < DECIMAL_LIMIT)
            && (r.how == Go ==> r.q == s.q.(contentLength := n) && n < ULLONG_MAX)
            && (r.how != Go ==> r.how == Fail && r.q.errno == INVALID_CONTENT_LENGTH)
  {
    hide StepEvents, AddAll, Decimal;
    if p == 0 {
      NoText(s.q.contentLength);
    } else {
      var before := RunTo(s, text, p - 1, m);
      ContentLengthIsDecimal(s, text, p - 1, m, cb);
      assert text[..p][..p - 1] == text[..p - 1] && text[..p][p - 1] == text[p - 1];
      if text[p - 1] != SPACE {
        DecimalConcat(s.q.contentLength, Unspaced(text[..p - 1]), [text[p - 1]]);
        OneDigit(Decimal(s.q.contentLength, Unspaced(text[..p - 1])), text[p - 1]);
      }
      assert Watch(before, text[p - 1]);
      if before.how == Go {
        LengthByte(before.q, text[p - 1], m, cb);
      }
    }
  }

  lemma NoText(n: nat)
    ensures Decimal(n, Unspaced([])) == n && Hexadecimal(n, []) == n
  {}

  /** What is accepted is the numeral up to the first blank exactly if no digit follows a blank, or if there is
      nothing but zeros. */
  lemma ContentLengthIsNumeral(s: Progress, text: seq<byte>, m: Machine, cb: HeadersCompleteCallback)
    requires Steps(m) && Implements(m.sw, cb) && IsLengthText(text)
    requires s.how == Go && s.q.state.s_header_value? && s.q.headerState.h_content_length?
    requires s.q.contentLength < DECIMAL_LIMIT && RunTo(s, text, |text|, m).how == Go
    ensures RunTo(s, text, |text|, m).q.contentLength == Decimal(s.q.contentLength, text)
            <==> !ResumesAfterBlank(text) || (s.q.contentLength == 0 && AllZero(text))
  {
    hide Decimal, ResumesAfterBlank, AllZero, RunTo;
    ContentLengthIsDecimal(s, text, |text|, m, cb);
    assert text[..|text|] == text;
    UnspacedIsSame(s.q.contentLength, text);
  }

  /** "Content-Length: 5 6" announces 56 bytes. */
  lemma BlankInsideLength(s: Progress, m: Machine, cb: HeadersCompleteCallback)
    requires Steps(m) && Implements(m.sw, cb)
    requires s.how == Go && s.q.state.s_header_value? && s.q.headerState.h_content_length? && s.q.contentLength == 5
    ensures var text := [SPACE, '6' as int];
      && RunTo(s, text, 2, m).how == Go && RunTo(s, text, 2, m).q.contentLength == 56
      && Decimal(s.q.contentLength, text) == 5
  {
    hide RunTo;
    var text := [SPACE, '6' as int];
    ContentLengthIsDecimal(s, text, 2, m, cb);
    assert text[..2] == text && text[..1] == [SPACE] && text[..1][..0] == [];
    assert Unspaced(text[..1]) == [];
    assert Unspaced(text) == ['6' as int];
    OneDigit(5, '6' as int);
  }

  lemma ChunkSizeByte(q: Fields, ch: byte, m: Machine, cb: HeadersCompleteCallback)
    requires Implements(m.sw, cb) && q.state.s_chunk_size? && q.flags.chunked && Unhex(ch) != -1
    ensures m.sw(q, ch) ==
      if (ULLONG_MAX - 16) / 16 < q.contentLength then Error(q, INVALID_CONTENT_LENGTH)
      else Next(q.(contentLength := q.contentLength * 16 + Unhex(ch)))
  {
    assert Consult(q, ch);
  }

  /** The same for a chunk size. */
  lemma {:induction false} ChunkSizeIsHexadecimal(s: Progress, text: seq<byte>, p: nat, m: Machine,
                                                  cb: HeadersCompleteCallback)
    requires Steps(m) && Implements(m.sw, cb) && p <= |text| && IsHexText(text)
    requires s.how == Go && s.q.state.s_chunk_size? && s.q.flags.chunked && s.q.contentLength < HEX_LIMIT
    ensures var r := RunTo(s, text, p, m);
            var n := Hexadecimal(s.q.contentLength, text[..p]);
            && (r.how == Go <==> n < HEX_LIMIT)
            && (r.how == Go ==> r.q == s.q.(contentLength := n) && n < ULLONG_MAX)
            && (r.how != Go ==> r.how == Fail && r.q.errno == INVALID_CONTENT_LENGTH)
  {
    hide StepEvents, AddAll, Hexadecimal, Unhex;
    if p == 0 {
      NoText(s.q.contentLength);
    } else {
      var before := RunTo(s, text, p - 1, m);
      ChunkSizeIsHexadecimal(s, text, p - 1, m, cb);
      assert text[..p] == text[..p - 1] + [text[p - 1]];
      HexadecimalConcat(s.q.contentLength, text[..p - 1], [text[p - 1]]);
      OneHexDigit(Hexadecimal(s.q.contentLength, text[..p - 1]), text[p - 1]);
      assert Watch(before, text[p - 1]);
      if before.how == Go {
        ChunkSizeByte(before.q, text[p - 1], m, cb);
      }
    }
  }
}
