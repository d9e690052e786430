/** Feeding the HTTP parser one byte per call, which is the specification that feeding it any
    other way is measured against. */
module HttpRun {
  import opened HttpLog
  import opened HttpStep
  import opened Options

  // ---- marks -------------------------------------------------------------------------------

  /** The mark of `http_parser_execute` that is set, if any: `Dispatch` never sets a second one
      (`DispatchFits`), so one slot stands for the five mark variables. */
  datatype Slot = Unset | Set(kind: Kind, start: nat)

  function KindOf(slot: Slot): Option<Kind> {
    match slot case Unset => None case Set(k, _) => Some(k)
  }

  predicate IsUrlState(s: State) {
    IsEarlyUrlState(s) || IsLateUrlState(s)
  }

  /** The mark that a call sets at the start of its buffer because the parser is in the middle of `s`. */
  function ResumeKind(s: State): Option<Kind> {
    if s.s_header_field? then Some(HeaderField)
    else if s.s_header_value? then Some(HeaderValue)
    else if IsUrlState(s) then Some(Url)
    else if s.s_res_status? then Some(StatusText)
    else None
  }

  function Resume(s: State): Slot {
    match ResumeKind(s) case None => Unset case Some(k) => Set(k, 0)
  }

  /** The body mark may or may not be set in these states. */
  predicate IsBodyState(s: State) {
    s.s_chunk_data? || s.s_chunk_data_almost_done? || s.s_body_identity? || s.s_body_identity_eof?
  }

  /** States in which bytes of this buffer wait under a mark, if the parser has seen any of them. */
  predicate Marked(s: State) {
    ResumeKind(s).Some? || s.s_chunk_data_almost_done?
  }

  /** Which mark can be set when the switch is entered in state `s`. */
  predicate MarkFits(s: State, mk: Option<Kind>) {
    if ResumeKind(s).Some? then mk == ResumeKind(s)
    else if IsBodyState(s) then mk == None || mk == Some(Body)
    else mk == None
  }

  predicate ActFits(a: Act, mk: Option<Kind>) {
    match a
    case Mark(k) => mk == None || mk == Some(k)
    case Deliver(k) => mk == None || mk == Some(k)
    case DeliverThrough(k) => mk == Some(k)
    case Notify(_) => mk == None
  }

  function KindAfterAct(a: Act, mk: Option<Kind>): Option<Kind> {
    match a
    case Mark(k) => Some(k)
    case Notify(_) => mk
    case _ => None
  }

  /** No action sets a second mark, delivers under another mark, or notifies while a mark is set. */
  predicate ActsFit(acts: Acts, mk: Option<Kind>) {
    match acts
    case Done => true
    case Then(a, rest) => ActFits(a, mk) && ActsFit(rest, KindAfterAct(a, mk))
  }

  function KindAfter(acts: Acts, mk: Option<Kind>): Option<Kind> {
    match acts
    case Done => mk
    case Then(a, rest) => KindAfter(rest, KindAfterAct(a, mk))
  }

  /** What one action does at offset `p` of a buffer: the callbacks made and the mark afterwards. */
  function ApplyAct(a: Act, slot: Slot, data: seq<byte>, p: nat): (r: (seq<Event>, Slot))
    requires p < |data|
    requires slot.Set? ==> slot.start <= p
    ensures r.1.Set? ==> r.1.start <= p
  {
    match a
    case Mark(k) => ([], if slot.Set? then slot else Set(k, p))
    case Deliver(k) =>
      if slot.Set? then ([Data(k, data[slot.start..p])], Unset) else ([], slot)
    case DeliverThrough(k) =>
      if slot.Set? then ([Data(k, data[slot.start..p + 1])], Unset) else ([], slot)
    case Notify(n) => ([Notice(n)], slot)
  }

  function Apply(acts: Acts, slot: Slot, data: seq<byte>, p: nat): (r: (seq<Event>, Slot))
    requires p < |data|
    requires slot.Set? ==> slot.start <= p
    ensures r.1.Set? ==> r.1.start <= p
  {
    match acts
    case Done => ([], slot)
    case Then(a, tail) =>
      var first := ApplyAct(a, slot, data, p);
      var rest := Apply(tail, first.1, data, p);
      (first.0 + rest.0, rest.1)
  }

  /** The leftover mark, delivered when the buffer is exhausted. */
  function Flush(slot: Slot, data: seq<byte>): seq<Event>
    requires slot.Set? ==> slot.start <= |data|
  {
    match slot case Unset => [] case Set(k, m) => [Data(k, data[m..])]
  }

  // ---- the byte-at-a-time run --------------------------------------------------------------

  /** A parser together with its joined trace, the bytes it has consumed, how the last byte ended,
      the number of header bytes since `nread` was last reset, and the largest that number has been. */
  datatype Progress = Progress(q: Fields, log: seq<Event>, n: nat, how: How, nread: nat, peak: nat)

  function Max(a: nat, b: nat): nat {
    if a < b then b else a
  }

  /** The callbacks of a call on the one-byte buffer `[b]`. */
  function StepEvents(q: Fields, b: byte, sw: Switch): seq<Event> {
    var o := sw(q, b);
    var r := Apply(o.acts, Resume(q.state), [b], 0);
    if o.how == Go then r.0 + Flush(r.1, [b]) else r.0
  }

  function Counted(q: Fields, nread: nat): nat {
    if ParsingHeader(q.state) then nread + 1 else nread
  }

  /** A call on a one-byte buffer. */
  function Step(s: Progress, b: byte, sw: Switch): Progress {
    if s.how != Go then s
    else
      var o := sw(s.q, b);
      var c := Counted(s.q, s.nread);
      Progress(o.q, AddAll(s.log, StepEvents(s.q, b, sw)), if o.how == Fail then s.n else s.n + 1, o.how,
               if o.reset then 0 else c, Max(s.peak, c))
  }

  /** The switch and the one-byte call as the run lemmas see them: whatever they do is only known
      where `Consult` or `Watch` says so, which keeps the 60 states out of proofs that do not need them. */
  datatype Machine = Machine(sw: Switch, step: (Progress, byte) -> Progress)

  predicate Watch(s: Progress, b: byte) {
    true
  }

  ghost predicate Steps(m: Machine) {
    forall s: Progress, b: byte {:trigger Watch(s, b)} :: m.step(s, b) == Step(s, b, m.sw)
  }

  function MachineOf(cb: HeadersCompleteCallback): (m: Machine)
    ensures Steps(m) && Implements(m.sw, cb)
  {
    var sw := SwitchOf(cb);
    Machine(sw, (s: Progress, b: byte) => Step(s, b, sw))
  }

  /** One call per byte for the first `p` bytes, until an error or an upgrade ends it. */
  function RunTo(s: Progress, data: seq<byte>, p: nat, m: Machine): Progress
    requires p <= |data|
  {
    if p == 0 then s else m.step(RunTo(s, data, p - 1, m), data[p - 1])
  }

  function Run(s: Progress, data: seq<byte>, m: Machine): Progress {
    RunTo(s, data, |data|, m)
  }

  lemma {:induction false} RunToConcat(s: Progress, a: seq<byte>, b: seq<byte>, p: nat, m: Machine)
    requires p <= |b|
    ensures RunTo(s, a + b, |a| + p, m) == RunTo(Run(s, a, m), b, p, m)
  {
    if p == 0 {
      RunToPrefix(s, a, b, |a|, m);
    } else {
      RunToConcat(s, a, b, p - 1, m);
    }
  }

  lemma {:induction false} RunToPrefix(s: Progress, a: seq<byte>, b: seq<byte>, p: nat, m: Machine)
    requires p <= |a|
    ensures RunTo(s, a + b, p, m) == RunTo(s, a, p, m)
  {
    if p > 0 {
      RunToPrefix(s, a, b, p - 1, m);
    }
  }

  /** Feeding two buffers one byte at a time is feeding their concatenation. */
  lemma RunConcat(s: Progress, a: seq<byte>, b: seq<byte>, m: Machine)
    ensures Run(s, a + b, m) == Run(Run(s, a, m), b, m)
  {
    RunToConcat(s, a, b, |b|, m);
  }

  /** Once a run has failed or left, further bytes change nothing. */
  lemma {:induction false} RunStuck(s: Progress, data: seq<byte>, k: nat, p: nat, m: Machine)
    requires Steps(m) && k <= p <= |data| && RunTo(s, data, k, m).how != Go
    ensures RunTo(s, data, p, m) == RunTo(s, data, k, m)
  {
    if k < p {
      RunStuck(s, data, k, p - 1, m);
      assert Watch(RunTo(s, data, p - 1, m), data[p - 1]);
    }
  }

  /** How many bytes a run consumes: all of them unless it stops. */
  lemma {:induction false} RunConsumes(s: Progress, data: seq<byte>, p: nat, m: Machine)
    requires Steps(m) && s.how == Go && p <= |data|
    ensures var r := RunTo(s, data, p, m);
            && s.n <= r.n <= s.n + p
            && (r.how == Go ==> r.n == s.n + p)
            && (r.how == Fail ==> r.n < s.n + p)
  {
    if p > 0 {
      RunConsumes(s, data, p - 1, m);
      assert Watch(RunTo(s, data, p - 1, m), data[p - 1]);
    }
  }

  /** The peak covers every count before it. */
  lemma {:induction false} PeakGrows(s: Progress, data: seq<byte>, k: nat, p: nat, m: Machine)
    requires Steps(m) && k <= p <= |data|
    ensures RunTo(s, data, k, m).peak <= RunTo(s, data, p, m).peak
  {
    if k < p {
      PeakGrows(s, data, k, p - 1, m);
      assert Watch(RunTo(s, data, p - 1, m), data[p - 1]);
    }
  }

  // ---- one byte in the middle of a buffer --------------------------------------------------

  /** Before the switch has run on byte `p`: the bytewise log `l` is the joined trace `t` of this
      buffer plus the data under the mark; `s1` is the mark of the one-byte call, `s2` of this one. */
  predicate Alike(l: seq<Event>, s1: Slot, t: seq<Event>, s2: Slot, data: seq<byte>, p: nat) {
    match s2
    case Unset => s1 == Unset && t == l
    case Set(k, m) =>
      && m <= p <= |data|
      && (s1 == Set(k, 0) || (s1 == Unset && k == Body && m < p))
      && l == if m < p then Add(t, Data(k, data[m..p])) else t
  }

  /** Between two bytes: the bytewise log is the joined trace plus the data under the mark. */
  predicate Synced(l: seq<Event>, t: seq<Event>, slot: Slot, data: seq<byte>, p: nat) {
    match slot
    case Unset => t == l
    case Set(k, m) => m <= p <= |data| && l == if m < p then Add(t, Data(k, data[m..p])) else t
  }

  lemma SimulateAct(a: Act, l: seq<Event>, s1: Slot, t: seq<Event>, s2: Slot, data: seq<byte>, p: nat)
    requires p < |data|
    requires Alike(l, s1, t, s2, data, p) && (s1.Set? ==> s1.start == 0)
    requires ActFits(a, KindOf(s1)) && ActFits(a, KindOf(s2))
    ensures var r1 := ApplyAct(a, s1, [data[p]], 0);
            var r2 := ApplyAct(a, s2, data, p);
            && (r1.1.Set? ==> r1.1.start == 0)
            && KindOf(r1.1) == KindAfterAct(a, KindOf(s1)) && KindOf(r2.1) == KindAfterAct(a, KindOf(s2))
            && Alike(AddAll(l, r1.0), r1.1, AddAll(t, r2.0), r2.1, data, p)
  {
    var b := data[p];
    var r1 := ApplyAct(a, s1, [b], 0);
    var r2 := ApplyAct(a, s2, data, p);
    if s1.Set? && s2.Set? && !a.Mark? {
      var k, m := s2.kind, s2.start;
      assert [b][0..0] == [] && [b][0..1] == [b];
      assert data[m..p + 1] == data[m..p] + [b];
      AddTwice(t, k, data[m..p], []);
      AddTwice(t, k, data[m..p], [b]);
      assert data[m..p] + [] == data[m..p];
      if m == p {
        assert data[m..p] == [];
        assert [] + [b] == [b];
      }
    }
    if r1.0 != [] {
      AddAllOne(l, r1.0[0]);
    }
    if r2.0 != [] {
      AddAllOne(t, r2.0[0]);
    }
  }

  lemma {:induction false} Simulate(acts: Acts, l: seq<Event>, s1: Slot, t: seq<Event>, s2: Slot, data: seq<byte>,
                                    p: nat)
    requires p < |data|
    requires Alike(l, s1, t, s2, data, p) && (s1.Set? ==> s1.start == 0)
    requires ActsFit(acts, KindOf(s1)) && ActsFit(acts, KindOf(s2))
    ensures var r1 := Apply(acts, s1, [data[p]], 0);
            var r2 := Apply(acts, s2, data, p);
            && (r1.1.Set? ==> r1.1.start == 0)
            && KindOf(r1.1) == KindAfter(acts, KindOf(s1)) && KindOf(r2.1) == KindAfter(acts, KindOf(s2))
            && Alike(AddAll(l, r1.0), r1.1, AddAll(t, r2.0), r2.1, data, p)
  {
    if acts.Then? {
      var b := [data[p]];
      var a := acts.head;
      SimulateAct(a, l, s1, t, s2, data, p);
      var f1 := ApplyAct(a, s1, b, 0);
      var f2 := ApplyAct(a, s2, data, p);
      Simulate(acts.tail, AddAll(l, f1.0), f1.1, AddAll(t, f2.0), f2.1, data, p);
      AddAllConcat(l, f1.0, Apply(acts.tail, f1.1, b, 0).0);
      AddAllConcat(t, f2.0, Apply(acts.tail, f2.1, data, p).0);
    }
  }

  /** The actions of a pass that keeps to one mark and reports an error exactly when it fails. */
  predicate Orderly(o: Outcome, mk: Option<Kind>) {
    && (o.how == Fail <==> o.q.errno != OK) && o.q.errno != HEADER_OVERFLOW
    && ActsFit(o.acts, mk)
    && (o.how == Go ==> MarkFits(o.q.state, KindAfter(o.acts, mk)))
    && (o.how == Exit ==> KindAfter(o.acts, mk) == None)
    && (o.how == Go && o.q.state.s_chunk_data_almost_done? ==> KindAfter(o.acts, mk) == Some(Body))
  }

  lemma AfterFits(a: Act, o: Outcome, mk: Option<Kind>)
    requires ActFits(a, mk) && Orderly(o, KindAfterAct(a, mk))
    ensures Orderly(After(a, o), mk)
  {}

  lemma StartReqFits(q: Fields, ch: byte)
    requires q.errno == OK
    requires q.state.s_start_req?
    ensures Orderly(OnStartReq(q, ch), None)
  {}

  lemma MethodFits(q: Fields, ch: byte)
    requires q.errno == OK
    requires q.state.s_req_method?
    ensures Orderly(OnMethod(q, ch), None)
  {}

  lemma StartFits(q: Fields, ch: byte)
    requires q.errno == OK
    requires GroupOf(q.state) == GStart
    ensures Orderly(OnStart(q, ch), None)
  {
    hide OnStartReq, OnMethod;
    match q.state
    case s_start_req => StartReqFits(q, ch);
    case s_start_req_or_res =>
      StartReqFits(q.(flags := NO_FLAGS, contentLength := ULLONG_MAX, typ := REQUEST, state := s_start_req), ch);
    case s_req_method => MethodFits(q, ch);
    case _ =>
  }

  lemma VersionFits(q: Fields, ch: byte)
    requires q.errno == OK
    requires GroupOf(q.state) == GStatusLine && !IsStatusState(q.state)
    ensures Orderly(OnStatusLine(q, ch), None)
  {}

  predicate IsStatusState(s: State) {
    s.s_res_first_status_code? || s.s_res_status_code? || s.s_res_status_start? || s.s_res_status?
  }

  lemma StatusFits(q: Fields, ch: byte)
    requires q.errno == OK
    requires IsStatusState(q.state)
    ensures Orderly(OnStatusLine(q, ch), ResumeKind(q.state))
  {}

  lemma UrlCharFits(q: Fields, s: State, ch: byte)
    requires q.errno == OK
    ensures Orderly(OnUrlChar(q, s, ch), Some(Url))
  {}

  lemma UrlFits(q: Fields, ch: byte)
    requires q.errno == OK
    requires GroupOf(q.state) == GUrl
    ensures Orderly(OnUrl(q, ch), ResumeKind(q.state))
  {
    hide OnUrlChar;
    var s := if q.state.s_req_spaces_before_url? && q.verb.CONNECT? then s_req_server_start else q.state;
    UrlCharFits(q, s, ch);
  }

  lemma RequestLineFits(q: Fields, ch: byte)
    requires q.errno == OK
    requires GroupOf(q.state) == GRequestLine
    ensures Orderly(OnRequestLine(q, ch), None)
  {
    hide OnRequestLine, Orderly;
    if InNumber(q.state) {
      RequestNumberFits(q, ch);
    } else {
      RequestWordFits(q, ch);
    }
  }

  /** A number of the version is being read. */
  predicate InNumber(s: State) {
    s.s_req_first_http_major? || s.s_req_http_major? || s.s_req_first_http_minor? || s.s_req_http_minor?
  }

  lemma RequestNumberFits(q: Fields, ch: byte)
    requires q.errno == OK && InNumber(q.state)
    ensures Orderly(OnRequestLine(q, ch), None)
  {}

  lemma RequestWordFits(q: Fields, ch: byte)
    requires q.errno == OK && GroupOf(q.state) == GRequestLine && !InNumber(q.state)
    ensures Orderly(OnRequestLine(q, ch), None)
  {}

  lemma FieldFits(q: Fields, ch: byte)
    requires q.errno == OK
    requires q.state.s_header_field?
    ensures Orderly(OnHeaderField(q, ch), Some(HeaderField))
  {}

  lemma ValueFits(q: Fields, ch: byte)
    requires q.errno == OK
    requires q.state.s_header_value?
    ensures Orderly(OnHeaderValue(q, ch), Some(HeaderValue))
  {}

  lemma MessageDoneFits(q: Fields)
    requires q.errno == OK
    ensures Orderly(OnMessageDone(q), None)
  {}

  lemma HeadersDoneFits(q: Fields, ch: byte)
    requires q.errno == OK
    ensures Orderly(OnHeadersDone(q, ch), None)
  {}

  /** The end of the headers is reached from several states, all without a mark. */
  lemma AlmostDoneFits(q: Fields, ch: byte, cb: HeadersCompleteCallback)
    requires q.errno == OK
    ensures Orderly(OnHeadersAlmostDone(q, ch, cb), None)
  {
    var o := OnHeadersAlmostDone(q, ch, cb);
    if ch == LF && q.flags.trailing {
      MessageDoneFits(q.(state := s_message_done));
      AfterFits(Notify(ChunkComplete), OnMessageDone(q.(state := s_message_done)), None);
    } else if ch == LF && !(q.flags.chunked && q.flags.hasLength) {
      var p := q.(state := s_headers_done,
        upgrade := (q.flags.upgrade && q.flags.connectionUpgrade) || q.verb.CONNECT?);
      var j := Judged(p, cb(p));
      HeadersDoneFits(j, ch);
      AfterFits(Notify(HeadersComplete(BodyFraming(j))), OnHeadersDone(j, ch), None);
    }
  }

  lemma FieldStartFits(q: Fields, ch: byte, cb: HeadersCompleteCallback)
    requires q.errno == OK
    ensures Orderly(OnFieldStart(q, ch, cb), None)
  {
    AlmostDoneFits(q.(state := s_headers_almost_done), ch, cb);
  }

  lemma ValueStartFits(q: Fields, ch: byte)
    requires q.errno == OK
    ensures Orderly(OnValueStart(q, ch), None)
  {}

  /** An empty header value is delivered before the next header starts. */
  lemma EmptyValueFits(q: Fields, ch: byte, cb: HeadersCompleteCallback)
    requires q.errno == OK
    ensures Orderly(After(Mark(HeaderValue), After(Deliver(HeaderValue), OnFieldStart(q, ch, cb))), None)
  {
    var o := OnFieldStart(q, ch, cb);
    FieldStartFits(q, ch, cb);
    AfterFits(Deliver(HeaderValue), o, Some(HeaderValue));
    AfterFits(Mark(HeaderValue), After(Deliver(HeaderValue), o), None);
  }

  lemma FoldFits(q: Fields, ch: byte, cb: HeadersCompleteCallback)
    requires q.errno == OK
    requires q.state.s_header_value_lws?
    ensures Orderly(OnHeaderEnd(q, ch, cb), None)
  {
    FieldStartFits(q.(flags := Recognised(q.headerState, q.flags), state := s_header_field_start), ch, cb);
    ValueStartFits(q.(state := s_header_value_start), ch);
  }

  lemma HeaderEndFits(q: Fields, ch: byte, cb: HeadersCompleteCallback)
    requires q.errno == OK
    requires GroupOf(q.state) == GHeaderEnd
    ensures Orderly(OnHeaderEnd(q, ch, cb), None)
  {
    hide OnFieldStart, OnValueStart, Recognised;
    var p := q.(flags := Recognised(q.headerState, q.flags), state := s_header_field_start);
    match q.state
    case s_header_value_lws => FoldFits(q, ch, cb);
    case s_header_value_discard_lws => EmptyValueFits(p, ch, cb);
    case s_header_almost_done | s_header_value_discard_ws_almost_done =>
    case _ => ValueStartFits(q, ch);
  }

  lemma IdentityFits(q: Fields, mk: Option<Kind>)
    requires q.errno == OK
    requires q.state.s_body_identity? && MarkFits(q.state, mk)
    ensures Orderly(OnIdentity(q), mk)
  {
    var p := q.(contentLength := 0, state := s_message_done);
    MessageDoneFits(p);
    AfterFits(DeliverThrough(Body), OnMessageDone(p), Some(Body));
    AfterFits(Mark(Body), After(DeliverThrough(Body), OnMessageDone(p)), mk);
  }

  lemma ChunkDataFits(q: Fields, ch: byte, mk: Option<Kind>)
    requires q.errno == OK
    requires q.state.s_chunk_data? || q.state.s_chunk_data_almost_done? || q.state.s_body_identity_eof?
    requires mk == None || mk == Some(Body)
    ensures Orderly(OnBody(q, ch), mk)
  {}

  lemma ChunkSizeFits(q: Fields, ch: byte)
    requires q.errno == OK && q.state.s_chunk_size?
    ensures Orderly(OnBody(q, ch), None)
  {}

  lemma ChunkHeaderFits(q: Fields, ch: byte)
    requires q.errno == OK
    requires GroupOf(q.state) == GBody && !IsBodyState(q.state) && !q.state.s_message_done?
    ensures Orderly(OnBody(q, ch), None)
  {
    if q.state.s_chunk_size? {
      ChunkSizeFits(q, ch);
    }
    hide OnChunkSize;
    assert ActsFit(Done, None) && KindAfter(Done, None) == None;
  }

  lemma BodyFits(q: Fields, ch: byte, mk: Option<Kind>)
    requires q.errno == OK
    requires GroupOf(q.state) == GBody && MarkFits(q.state, mk)
    ensures Orderly(OnBody(q, ch), mk)
  {
    hide OnMessageDone, OnIdentity, OnChunkSize;
    match q.state
    case s_body_identity => IdentityFits(q, mk);
    case s_message_done => MessageDoneFits(q);
    case s_chunk_data | s_chunk_data_almost_done | s_body_identity_eof => ChunkDataFits(q, ch, mk);
    case _ => ChunkHeaderFits(q, ch);
  }

  /** Whether a body mark was set before a body byte makes no difference to the mark after it. */
  lemma BodyForgets(q: Fields, ch: byte, mk: Option<Kind>)
    requires GroupOf(q.state) == GBody && MarkFits(q.state, mk) && OnBody(q, ch).how == Go
    ensures KindAfter(OnBody(q, ch).acts, mk) == KindAfter(OnBody(q, ch).acts, ResumeKind(q.state))
  {}

  lemma DispatchForgets(q: Fields, ch: byte, cb: HeadersCompleteCallback, mk: Option<Kind>)
    requires MarkFits(q.state, mk) && Dispatch(q, ch, cb).how == Go
    ensures KindAfter(Dispatch(q, ch, cb).acts, mk) == KindAfter(Dispatch(q, ch, cb).acts, ResumeKind(q.state))
  {
    if GroupOf(q.state) == GBody {
      BodyForgets(q, ch, mk);
    }
  }

  lemma FirstLineFits(q: Fields, ch: byte, cb: HeadersCompleteCallback, mk: Option<Kind>)
    requires q.errno == OK
    requires MarkFits(q.state, mk)
    requires GroupOf(q.state) in {GStart, GStatusLine, GUrl, GRequestLine}
    ensures Orderly(Dispatch(q, ch, cb), mk)
  {
    hide OnStart, OnStatusLine, OnUrl, OnRequestLine;
    match GroupOf(q.state)
    case GStart => StartFits(q, ch);
    case GStatusLine => if IsStatusState(q.state) { StatusFits(q, ch); } else { VersionFits(q, ch); }
    case GUrl => UrlFits(q, ch);
    case _ => RequestLineFits(q, ch);
  }

  /** The source's closing assertion: whatever the byte, at most one mark is ever set, data is only
      delivered under its own mark, and notifications come between data callbacks. */
  lemma DispatchFits(q: Fields, ch: byte, cb: HeadersCompleteCallback, mk: Option<Kind>)
    requires q.errno == OK
    requires MarkFits(q.state, mk)
    ensures Orderly(Dispatch(q, ch, cb), mk)
  {
    hide OnFieldStart, OnHeaderField, OnHeaderValue, OnHeaderEnd, OnHeadersAlmostDone, OnHeadersDone, OnBody;
    match GroupOf(q.state)
    case GFieldStart => FieldStartFits(q, ch, cb);
    case GField => FieldFits(q, ch);
    case GValue => ValueFits(q, ch);
    case GHeaderEnd => HeaderEndFits(q, ch, cb);
    case GAlmostDone => AlmostDoneFits(q, ch, cb);
    case GDone => HeadersDoneFits(q, ch);
    case GBody => BodyFits(q, ch, mk);
    case _ => FirstLineFits(q, ch, cb, mk);
  }

  /** Orderly whether the mark is carried over from earlier bytes of the buffer or resumed, and with
      the same mark afterwards. */
  predicate OrderlyAt(q: Fields, o: Outcome, mk: Option<Kind>) {
    && Orderly(o, mk) && Orderly(o, ResumeKind(q.state))
    && (o.how == Go ==> KindAfter(o.acts, mk) == KindAfter(o.acts, ResumeKind(q.state)))
    && (o.how == Fail && o.q.errno != ASSERTION_FAILED ==> if Marked(q.state) then o.acts == Done else mk == None)
  }

  /** A failing pass leaves a mark set before it alone. */
  lemma FailLeavesMark(q: Fields, ch: byte, cb: HeadersCompleteCallback)
    requires q.errno == OK
    ensures var o := Dispatch(q, ch, cb);
      o.how == Fail && o.q.errno != ASSERTION_FAILED ==>
        if Marked(q.state) then o.acts == Done else !IsBodyState(q.state)
  {
    hide ParseUrlChar, Recognised, OnFieldStart, OnValueStart, OnHeadersDone, OnHeadersAlmostDone, OnChunkSize,
      OnMethod;
    hide FieldChar, MethodName, Unhex;
  }

  lemma DispatchOrderly(q: Fields, ch: byte, cb: HeadersCompleteCallback, mk: Option<Kind>)
    requires q.errno == OK && MarkFits(q.state, mk)
    ensures OrderlyAt(q, Dispatch(q, ch, cb), mk)
  {
    hide Dispatch, Orderly;
    DispatchFits(q, ch, cb, mk);
    DispatchFits(q, ch, cb, ResumeKind(q.state));
    FailLeavesMark(q, ch, cb);
    if Dispatch(q, ch, cb).how == Go {
      DispatchForgets(q, ch, cb, mk);
    }
  }

  /** One pass of an orderly switch at offset `p` of a buffer does what a call on that one byte does, up
      to the data that stays under the mark: delivered later, or lost if the pass fails. */
  lemma StepInBuffer(s: Progress, data: seq<byte>, p: nat, sw: Switch, slot: Slot, t: seq<Event>)
    requires p < |data| && (slot.Set? ==> slot.start <= p)
    requires s.how == Go && Synced(s.log, t, slot, data, p)
    requires MarkFits(s.q.state, KindOf(slot)) && OrderlyAt(s.q, sw(s.q, data[p]), KindOf(slot))
    requires slot.Set? && slot.start == p ==> p == 0 && ResumeKind(s.q.state) == Some(slot.kind)
    ensures var o := sw(s.q, data[p]);
            var r := Apply(o.acts, slot, data, p);
            var s' := Step(s, data[p], sw);
            && (o.how == Go ==> Synced(s'.log, AddAll(t, r.0), r.1, data, p + 1))
            && (o.how == Fail ==> Synced(s'.log, AddAll(t, r.0), r.1, data, p))
            && (o.how == Exit ==> s'.log == AddAll(t, r.0) && r.1 == Unset)
  {
    var q, b := s.q, data[p];
    var o := sw(q, b);
    var s1 := Resume(q.state);
    Simulate(o.acts, s.log, s1, t, slot, data, p);
    var r1 := Apply(o.acts, s1, [b], 0);
    var r2 := Apply(o.acts, slot, data, p);
    if o.how == Go {
      AddAllConcat(s.log, r1.0, Flush(r1.1, [b]));
      FlushOne(AddAll(s.log, r1.0), r1.1, AddAll(t, r2.0), r2.1, data, p);
    }
  }

  /** Delivering the current byte at the end of a one-byte call keeps the logs in step. */
  lemma FlushOne(l: seq<Event>, s1: Slot, t: seq<Event>, s2: Slot, data: seq<byte>, p: nat)
    requires p < |data| && Alike(l, s1, t, s2, data, p)
    requires (s1.Set? ==> s1.start == 0) && KindOf(s1) == KindOf(s2)
    ensures Synced(AddAll(l, Flush(s1, [data[p]])), t, s2, data, p + 1)
  {
    if s2.Set? {
      var k, m := s2.kind, s2.start;
      assert [data[p]][0..] == [data[p]];
      AddAllOne(l, Data(k, [data[p]]));
      assert data[m..p + 1] == data[m..p] + [data[p]];
      AddTwice(t, k, data[m..p], [data[p]]);
      if m == p {
        assert data[m..p + 1] == [data[p]];
      }
    }
  }
}
