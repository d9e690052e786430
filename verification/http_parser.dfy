/** `http_parser_execute` as the source runs it: a cursor over the whole buffer, a mark into it, the
    bulk loops over header names, header values and bodies, and the flush of the leftover mark. */
module HttpParser {
  import opened HttpLog
  import opened HttpStep
  import opened HttpRun
  import opened Options

  // ---- where a whole-buffer call and the bytewise run can part -----------------------------

  /** Inside a header value whose text the parser does not look at. */
  predicate InPlainValue(q: Fields) {
    q.state.s_header_value? && q.headerState.h_general?
  }

  predicate BadHeaderByte(q: Fields, b: byte) {
    !q.lenient && !IsHeaderChar(b)
  }

  /** The byte that stops a bytewise run is an illegal one inside a plain header value, and the byte
      before it in this buffer is in that value too: the skip to the end of the line jumps over it. */
  predicate SkipsBadByte(s: Progress, data: seq<byte>, m: Machine) {
    var r := Run(s, data, m);
    var k := r.n - s.n;
    && r.how == Fail && 0 < k < |data|
    && InPlainValue(RunTo(s, data, k - 1, m).q)
    && InPlainValue(RunTo(s, data, k, m).q)
    && BadHeaderByte(r.q, data[k])
  }

  /** A header name or value goes on from one byte to the next. */
  predicate GoesOn(a: State, b: State) {
    (a.s_header_field? && b.s_header_field?) || (a.s_header_value? && b.s_header_value?)
  }

  /** Offset `p` is in a header name or value of which this buffer has at least a byte before. */
  predicate Amid(s: Progress, data: seq<byte>, p: nat, m: Machine)
    requires p <= |data|
  {
    0 < p && RunTo(s, data, p, m).how == Go && GoesOn(RunTo(s, data, p - 1, m).q.state, RunTo(s, data, p, m).q.state)
  }

  /** Where the part of it that is in this buffer starts. */
  function RunStart(s: Progress, data: seq<byte>, p: nat, m: Machine): (r: nat)
    requires p <= |data|
    ensures r <= p
  {
    if Amid(s, data, p, m) then RunStart(s, data, p - 1, m) else p
  }

  /** The buffer ends in the middle of a header name or value: its bytes there are counted once more than they are. */
  predicate CutsHeader(s: Progress, data: seq<byte>, m: Machine) {
    Amid(s, data, |data|, m)
  }

  /** The bytewise run fails at a byte of a header value. */
  predicate FailsInValue(s: Progress, data: seq<byte>, m: Machine) {
    var r := Run(s, data, m);
    r.how == Fail && 0 <= r.n - s.n < |data| && RunTo(s, data, r.n - s.n, m).q.state.s_header_value?
  }

  /** The header limit is exceeded. The count is looked at where a header name or value starts and again behind it,
      also at the end of the buffer, but not where a value is broken off by an error. */
  predicate OverLimit(s: Progress, data: seq<byte>, m: Machine) {
    var r := Run(s, data, m);
    if FailsInValue(s, data, m) then
      RunTo(s, data, RunStart(s, data, r.n - s.n, m) + 1, m).peak > HTTP_MAX_HEADER_SIZE
    else r.peak > HTTP_MAX_HEADER_SIZE || (CutsHeader(s, data, m) && r.nread + 1 > HTTP_MAX_HEADER_SIZE)
  }

  /** Equal up to the header state, which is not written back when an illegal byte is met. */
  predicate SameUpToHeaderState(a: Fields, b: Fields) {
    a == b.(headerState := a.headerState)
  }

  // ---- the bytewise run beside the cursor --------------------------------------------------

  /** The bytewise run over the first `p` bytes has fields `q` and count `n`, and its log is the
      joined trace `t` plus the data under the mark. */
  predicate At(s: Progress, data: seq<byte>, p: nat, m: Machine, slot: Slot, n: int, q: Fields, t: seq<Event>) {
    && s.how == Go && p <= |data|
    && var r := RunTo(s, data, p, m);
    && r.how == Go && r.q == q && r.nread == n && Synced(r.log, t, slot, data, p)
  }

  /** The bytewise run fails at byte `p` with fields `q`; its log is `t` plus the data under the mark. */
  predicate FailedAt(s: Progress, data: seq<byte>, p: nat, m: Machine, slot: Slot, q: Fields, t: seq<Event>) {
    && s.how == Go
    && var r := Run(s, data, m);
    && r.how == Fail && r.n == s.n + p && p < |data| && SameUpToHeaderState(q, r.q) && Synced(r.log, t, slot, data, p)
  }

  /** Data of this buffer is still under a mark when the switch is entered for byte `p`. */
  predicate LosesData(s: Progress, data: seq<byte>, p: nat, m: Machine)
    requires p <= |data|
  {
    0 < p && Marked(RunTo(s, data, p, m).q.state)
  }

  /** Whether data is left under the mark by a failing pass. */
  predicate LossAt(s: Progress, data: seq<byte>, p: nat, m: Machine, slot: Slot, q: Fields)
    requires p <= |data|
  {
    q.errno != ASSERTION_FAILED ==> (slot.Set? && slot.start < p <==> LosesData(s, data, p, m))
  }

  /** The bytewise run leaves for an upgrade at byte `p`. */
  predicate LeftAt(s: Progress, data: seq<byte>, p: nat, m: Machine, n: nat, q: Fields, t: seq<Event>) {
    Run(s, data, m) == Progress(q, t, s.n + p + 1, Exit, n, Run(s, data, m).peak)
  }

  /** The mark is as state `q.state` demands at offset `p`. */
  predicate Ready(q: Fields, slot: Slot, p: nat) {
    && q.errno == OK
    && MarkFits(q.state, KindOf(slot))
    && (slot.Set? ==> slot.start <= p && (slot.start == p ==> p == 0 && ResumeKind(q.state) == Some(slot.kind)))
    && (q.state.s_chunk_data_almost_done? && 0 < p ==> slot.Set?)
  }

  /** No count of the run so far exceeded the limit, unless the count now does. */
  predicate Low(s: Progress, data: seq<byte>, p: nat, m: Machine, n: int) {
    p <= |data| && (RunTo(s, data, p, m).peak <= HTTP_MAX_HEADER_SIZE || RunTo(s, data, p, m).peak <= n)
  }

  /** A run does not reach back over the start of another. */
  lemma {:induction false} StartsBehind(s: Progress, data: seq<byte>, p: nat, k: nat, m: Machine)
    requires p <= k <= |data| && !Amid(s, data, p, m)
    ensures p <= RunStart(s, data, k, m)
  {
    hide Amid;
    if p < k && Amid(s, data, k, m) {
      StartsBehind(s, data, p, k - 1, m);
    }
  }

  /** A count above the limit at a byte where a run starts, or behind it, exceeds the limit. */
  lemma CountOver(s: Progress, data: seq<byte>, p: nat, m: Machine)
    requires Steps(m) && s.how == Go && p < |data| && RunTo(s, data, p, m).how == Go
    requires var r := RunTo(s, data, p, m); Counted(r.q, r.nread) > HTTP_MAX_HEADER_SIZE
    requires FailsInValue(s, data, m) ==>
      var k := Run(s, data, m).n - s.n; k < p || p <= RunStart(s, data, k, m)
    ensures OverLimit(s, data, m)
  {
    hide RunStart, Amid;
    assert Watch(RunTo(s, data, p, m), data[p]);
    PeakGrows(s, data, p + 1, |data|, m);
    if FailsInValue(s, data, m) {
      var k := Run(s, data, m).n - s.n;
      FailsBehind(s, data, p, m);
      PeakGrows(s, data, p + 1, RunStart(s, data, k, m) + 1, m);
    }
  }

  /** A run that goes on at a byte fails no earlier. */
  lemma FailsBehind(s: Progress, data: seq<byte>, p: nat, m: Machine)
    requires Steps(m) && s.how == Go && p <= |data| && RunTo(s, data, p, m).how == Go
    ensures Run(s, data, m).how == Fail ==> p <= Run(s, data, m).n - s.n < |data|
  {
    RunConsumes(s, data, p, m);
    RunConsumes(s, data, |data|, m);
    NGrows(s, data, p, |data|, m);
  }

  lemma {:induction false} NGrows(s: Progress, data: seq<byte>, k: nat, p: nat, m: Machine)
    requires Steps(m) && k <= p <= |data|
    ensures RunTo(s, data, k, m).n <= RunTo(s, data, p, m).n
  {
    if k < p {
      NGrows(s, data, k, p - 1, m);
      assert Watch(RunTo(s, data, p - 1, m), data[p - 1]);
    }
  }

  lemma {:induction false} ApplyReady(acts: Acts, slot: Slot, data: seq<byte>, p: nat)
    requires p < |data| && (slot.Set? ==> slot.start <= p) && ActsFit(acts, KindOf(slot))
    ensures KindOf(Apply(acts, slot, data, p).1) == KindAfter(acts, KindOf(slot))
  {
    if acts.Then? {
      ApplyReady(acts.tail, ApplyAct(acts.head, slot, data, p).1, data, p);
    }
  }

  /** One pass of the switch keeps this buffer beside the bytewise run. */
  lemma PassKeepsAt(s: Progress, data: seq<byte>, p: nat, m: Machine, slot: Slot, n: nat, q: Fields, t: seq<Event>)
    requires Steps(m) && p < |data| && Ready(q, slot, p) && At(s, data, p, m, slot, n, q, t)
    requires OrderlyAt(q, m.sw(q, data[p]), KindOf(slot))
    ensures var o := m.sw(q, data[p]);
            var r := Apply(o.acts, slot, data, p);
            var t' := AddAll(t, r.0);
            var n' := if o.reset then 0 else Counted(q, n);
            match o.how
            case Go => At(s, data, p + 1, m, r.1, n', o.q, t')
            case Fail => FailedAt(s, data, p, m, r.1, o.q, t')
            case Exit => LeftAt(s, data, p, m, n', o.q, t') && r.1 == Unset
    ensures RunTo(s, data, p + 1, m).peak == Max(RunTo(s, data, p, m).peak, Counted(q, n))
    ensures m.sw(q, data[p]).how != Go ==> Run(s, data, m) == RunTo(s, data, p + 1, m)
  {
    StepInBuffer(RunTo(s, data, p, m), data, p, m.sw, slot, t);
    assert Watch(RunTo(s, data, p, m), data[p]);
    RunConsumes(s, data, p, m);
    if m.sw(q, data[p]).how != Go {
      RunStuck(s, data, p + 1, |data|, m);
    }
  }

  /** A failing pass loses the data that was under the mark when it began, and no other. */
  lemma PassLoses(s: Progress, data: seq<byte>, p: nat, m: Machine, slot: Slot, q: Fields)
    requires p < |data| && Ready(q, slot, p) && RunTo(s, data, p, m).q == q
    requires OrderlyAt(q, m.sw(q, data[p]), KindOf(slot)) && m.sw(q, data[p]).how == Fail
    ensures var o := m.sw(q, data[p]); LossAt(s, data, p, m, Apply(o.acts, slot, data, p).1, o.q)
  {
    var o := m.sw(q, data[p]);
    if !Marked(q.state) && slot == Unset {
      ApplyFromUnset(o.acts, slot, data, p);
    }
  }

  lemma {:induction false} ApplyFromUnset(acts: Acts, slot: Slot, data: seq<byte>, p: nat)
    requires p < |data| && (slot.Set? ==> slot.start == p)
    ensures var r := Apply(acts, slot, data, p).1; r.Set? ==> r.start == p
  {
    if acts.Then? {
      ApplyFromUnset(acts.tail, ApplyAct(acts.head, slot, data, p).1, data, p);
    }
  }

  lemma QuietIsOrderly(q: Fields, q': Fields, mk: Option<Kind>)
    requires q.state.s_header_field? || q.state.s_header_value?
    requires MarkFits(q.state, mk) && ResumeKind(q.state) == mk && q'.errno == OK && q'.state == q.state
    ensures OrderlyAt(q, Next(q'), mk)
  {}

  /** A pass that only changes fields: bytes inside a header name or value. */
  lemma QuietKeepsAt(s: Progress, data: seq<byte>, p: nat, m: Machine, slot: Slot, n: nat, q: Fields, t: seq<Event>,
                     q': Fields)
    requires Steps(m) && p < |data| && Ready(q, slot, p) && At(s, data, p, m, slot, n, q, t)
    requires q.state.s_header_field? || q.state.s_header_value?
    requires m.sw(q, data[p]) == Next(q') && q'.errno == OK && q'.state == q.state
    ensures At(s, data, p + 1, m, slot, n + 1, q', t)
    ensures Low(s, data, p, m, n) ==> Low(s, data, p + 1, m, n + 1)
    ensures RunStart(s, data, p + 1, m) == RunStart(s, data, p, m) && Amid(s, data, p + 1, m)
  {
    QuietIsOrderly(q, q', KindOf(slot));
    PassKeepsAt(s, data, p, m, slot, n, q, t);
  }

  lemma FieldByte(q: Fields, ch: byte, m: Machine, cb: HeadersCompleteCallback)
    requires Implements(m.sw, cb) && q.state.s_header_field? && Token(ch) != 0
    ensures m.sw(q, ch) ==
            if !IsFieldState(q.headerState) then Error(q, ASSERTION_FAILED)
            else var h := FieldChar(q.headerState, q.index, ch, Token(ch)); Next(q.(headerState := h.0, index := h.1))
  {
    assert Consult(q, ch);
  }

  lemma FieldEnd(q: Fields, ch: byte, m: Machine, cb: HeadersCompleteCallback)
    requires Implements(m.sw, cb) && q.state.s_header_field? && (Token(ch) == 0 || !IsFieldState(q.headerState))
    ensures var o := m.sw(q, ch); o.how != Exit && (o.how == Go ==> o.q.state.s_header_value_discard_ws?)
  {
    assert Consult(q, ch);
  }

  lemma ValueByte(q: Fields, ch: byte, m: Machine, cb: HeadersCompleteCallback)
    requires Implements(m.sw, cb) && q.state.s_header_value?
    ensures m.sw(q, ch) == OnHeaderValue(q, ch)
  {
    assert Consult(q, ch);
  }

  /** The end of a header value. */
  lemma ValueEnd(q: Fields, ch: byte, m: Machine, cb: HeadersCompleteCallback)
    requires Implements(m.sw, cb) && q.state.s_header_value? && (ch == CR || ch == LF)
    ensures m.sw(q, ch) ==
            After(Deliver(HeaderValue), To(q, if ch == CR then s_header_almost_done else s_header_value_lws))
  {
    assert Consult(q, ch);
  }

  lemma PlainByte(q: Fields, ch: byte, m: Machine, cb: HeadersCompleteCallback)
    requires Implements(m.sw, cb) && InPlainValue(q) && ch != CR && ch != LF
    ensures m.sw(q, ch) == if BadHeaderByte(q, ch) then Error(q, INVALID_HEADER_TOKEN) else Next(q)
  {
    ValueByte(q, ch, m, cb);
    assert q.(headerState := h_general) == q;
  }

  /** An illegal byte right after another byte of the same plain value is one the skip jumps over. */
  lemma JumpedOver(s: Progress, data: seq<byte>, p: nat, m: Machine, slot: Slot, n: nat, q: Fields, t: seq<Event>)
    requires Steps(m) && p + 1 < |data| && At(s, data, p, m, slot, n, q, t) && At(s, data, p + 1, m, slot, n + 1, q, t)
    requires InPlainValue(q) && BadHeaderByte(q, data[p + 1])
    requires m.sw(q, data[p + 1]) == Error(q, INVALID_HEADER_TOKEN)
    ensures SkipsBadByte(s, data, m) && Run(s, data, m).n == s.n + p + 1
  {
    RunConsumes(s, data, p + 1, m);
    assert Watch(RunTo(s, data, p + 1, m), data[p + 1]);
    RunStuck(s, data, p + 2, |data|, m);
  }

  /** Two offsets in the same header name or value. */
  predicate Same(s: Progress, data: seq<byte>, p: nat, e: nat, m: Machine)
    requires p <= e <= |data|
  {
    RunStart(s, data, e, m) == RunStart(s, data, p, m)
  }

  /** A byte after the first of a plain header value passes, or is jumped over. */
  lemma PlainStep(s: Progress, data: seq<byte>, p: nat, m: Machine, cb: HeadersCompleteCallback,
                  slot: Slot, n: nat, q: Fields, t: seq<Event>)
    requires Steps(m) && Implements(m.sw, cb) && p + 1 < |data| && Ready(q, slot, p) && InPlainValue(q)
    requires At(s, data, p, m, slot, n, q, t) && At(s, data, p + 1, m, slot, n + 1, q, t)
    requires data[p + 1] != CR && data[p + 1] != LF
    ensures if BadHeaderByte(q, data[p + 1]) then SkipsBadByte(s, data, m) && Run(s, data, m).n == s.n + p + 1
            else At(s, data, p + 2, m, slot, n + 2, q, t) && Same(s, data, p + 1, p + 2, m)
    ensures !BadHeaderByte(q, data[p + 1]) && Low(s, data, p + 1, m, n + 1) ==> Low(s, data, p + 2, m, n + 2)
  {
    PlainByte(q, data[p + 1], m, cb);
    if BadHeaderByte(q, data[p + 1]) {
      JumpedOver(s, data, p, m, slot, n, q, t);
    } else {
      QuietKeepsAt(s, data, p + 1, m, slot, n + 1, q, t, q);
    }
  }

  /** Legal bytes other than CR and LF pass through a plain header value unnoticed; an illegal one
      after the first stops the bytewise run there. */
  lemma {:induction false} PlainValueRun(s: Progress, data: seq<byte>, p: nat, e: nat, m: Machine,
                                         cb: HeadersCompleteCallback, slot: Slot, n: nat, q: Fields, t: seq<Event>)
    requires Steps(m) && Implements(m.sw, cb) && p < e <= |data| && Ready(q, slot, p) && InPlainValue(q)
    requires At(s, data, p, m, slot, n, q, t) && At(s, data, p + 1, m, slot, n + 1, q, t)
    requires Low(s, data, p + 1, m, n + 1) && forall i :: p <= i < e ==> data[i] != CR && data[i] != LF
    ensures (SkipsBadByte(s, data, m) && Run(s, data, m).n < s.n + e)
      || (At(s, data, e, m, slot, n + (e - p), q, t) && Low(s, data, e, m, n + (e - p)) && Same(s, data, p + 1, e, m))
    decreases e - p
  {
    if p + 1 < e {
      PlainStep(s, data, p, m, cb, slot, n, q, t);
      if !BadHeaderByte(q, data[p + 1]) {
        PlainValueRun(s, data, p + 1, e, m, cb, slot, n + 1, q, t);
      }
    }
  }

  /** Jumping from a checked byte of a plain header value to `e`, with no line end on the way. */
  lemma JumpRun(s: Progress, data: seq<byte>, p: nat, e: nat, m: Machine, cb: HeadersCompleteCallback,
                slot: Slot, n: nat, q: Fields, t: seq<Event>)
    requires Steps(m) && Implements(m.sw, cb) && p < e <= |data| && Ready(q, slot, p) && InPlainValue(q)
    requires At(s, data, p, m, slot, n, q, t) && !BadHeaderByte(q, data[p])
    requires Low(s, data, p, m, n) && forall i :: p <= i < e ==> data[i] != CR && data[i] != LF
    ensures Jumped(s, data, e, m)
      || (At(s, data, e, m, slot, n + (e - p), q, t) && Low(s, data, e, m, n + (e - p)) && Same(s, data, p, e, m))
  {
    PlainByte(q, data[p], m, cb);
    QuietKeepsAt(s, data, p, m, slot, n, q, t, q);
    PlainValueRun(s, data, p, e, m, cb, slot, n, q, t);
  }

  /** Byte `p` is not in the middle of a plain header value of this buffer. */
  predicate Fresh(s: Progress, data: seq<byte>, p: nat, m: Machine)
    requires p <= |data|
  {
    p == 0 || !InPlainValue(RunTo(s, data, p - 1, m).q)
  }

  /** The bytewise run has stopped at a byte the skip jumps over, before `e`. */
  predicate Jumped(s: Progress, data: seq<byte>, e: nat, m: Machine) {
    SkipsBadByte(s, data, m) && Run(s, data, m).n < s.n + e
  }

  /** The byte at which a run fails. */
  lemma {:induction false} FailPoint(s: Progress, data: seq<byte>, p: nat, m: Machine)
    requires Steps(m) && s.how == Go && p <= |data| && RunTo(s, data, p, m).how == Fail
    ensures var k := RunTo(s, data, p, m).n - s.n;
      0 <= k < p && RunTo(s, data, k, m).how == Go && RunTo(s, data, k + 1, m) == RunTo(s, data, p, m)
  {
    assert Watch(RunTo(s, data, p - 1, m), data[p - 1]);
    RunConsumes(s, data, p - 1, m);
    if RunTo(s, data, p - 1, m).how == Fail {
      FailPoint(s, data, p - 1, m);
    }
  }

  lemma {:induction false} StartsBefore(s: Progress, data: seq<byte>, p: nat, k: nat, m: Machine)
    requires p <= k <= |data| && RunStart(s, data, k, m) < p
    ensures Same(s, data, p, k, m)
  {
    hide Amid;
    if p < k {
      StartsBefore(s, data, p, k - 1, m);
    }
  }

  /** Within one header value, a plain one stays plain. */
  lemma {:induction false} PlainStays(s: Progress, data: seq<byte>, p: nat, k: nat, m: Machine,
                                      cb: HeadersCompleteCallback)
    requires Steps(m) && Implements(m.sw, cb) && p <= k <= |data| && RunStart(s, data, k, m) <= p
    requires InPlainValue(RunTo(s, data, p, m).q)
    ensures InPlainValue(RunTo(s, data, k, m).q)
  {
    if p < k {
      PlainStays(s, data, p, k - 1, m, cb);
      var r := RunTo(s, data, k - 1, m);
      assert Watch(r, data[k - 1]);
      if data[k - 1] == CR || data[k - 1] == LF {
        ValueEnd(r.q, data[k - 1], m, cb);
      } else {
        PlainByte(r.q, data[k - 1], m, cb);
      }
    }
  }

  /** A run that fails in a plain value after its first byte fails at an illegal byte that the skip jumps over. */
  lemma PlainFailsSkipping(s: Progress, data: seq<byte>, p: nat, m: Machine, cb: HeadersCompleteCallback)
    requires Steps(m) && Implements(m.sw, cb) && s.how == Go && p < |data| && InPlainValue(RunTo(s, data, p, m).q)
    requires FailsInValue(s, data, m)
    requires var k := Run(s, data, m).n - s.n; p < k && RunStart(s, data, k, m) <= p
    ensures SkipsBadByte(s, data, m)
  {
    var k := Run(s, data, m).n - s.n;
    FailPoint(s, data, |data|, m);
    PlainStays(s, data, p, k, m, cb);
    PlainStays(s, data, p, k - 1, m, cb);
    var r := RunTo(s, data, k, m);
    assert Watch(r, data[k]);
    if data[k] == CR || data[k] == LF {
      ValueEnd(r.q, data[k], m, cb);
    } else {
      PlainByte(r.q, data[k], m, cb);
    }
  }

  /** What the skip over a plain header value does, with `e` where it stops; a skip longer than the limit stops at
      the end of the buffer, whatever it jumps over. */
  lemma SkipRun(s: Progress, data: seq<byte>, p: nat, e: nat, m: Machine, cb: HeadersCompleteCallback,
                slot: Slot, n: nat, q: Fields, t: seq<Event>)
    requires Steps(m) && Implements(m.sw, cb) && p < e <= |data| && Ready(q, slot, p) && InPlainValue(q)
    requires At(s, data, p, m, slot, n, q, t) && Low(s, data, p, m, n) && !BadHeaderByte(q, data[p])
    requires forall i :: p <= i < e && i < p + HTTP_MAX_HEADER_SIZE ==> data[i] != CR && data[i] != LF
    requires e - p > HTTP_MAX_HEADER_SIZE ==> e == |data|
    ensures Jumped(s, data, e, m)
      || (if e - p > HTTP_MAX_HEADER_SIZE then OverLimit(s, data, m)
          else At(s, data, e, m, slot, n + (e - p), q, t) && Low(s, data, e, m, n + (e - p)) && Same(s, data, p, e, m))
  {
    hide OverLimit;
    if e - p <= HTTP_MAX_HEADER_SIZE {
      JumpRun(s, data, p, e, m, cb, slot, n, q, t);
    } else {
      LongSkip(s, data, p, m, cb, slot, n, q, t);
    }
  }

  /** A run that skips a byte fails at it. */
  lemma SkipFails(s: Progress, data: seq<byte>, m: Machine)
    requires Steps(m) && s.how == Go && SkipsBadByte(s, data, m)
    ensures Run(s, data, m).how == Fail && Run(s, data, m).n < s.n + |data|
  {}

  lemma LongSkip(s: Progress, data: seq<byte>, p: nat, m: Machine, cb: HeadersCompleteCallback,
                 slot: Slot, n: nat, q: Fields, t: seq<Event>)
    requires Steps(m) && Implements(m.sw, cb) && Ready(q, slot, p) && InPlainValue(q)
    requires p + HTTP_MAX_HEADER_SIZE < |data| && !BadHeaderByte(q, data[p])
    requires At(s, data, p, m, slot, n, q, t) && Low(s, data, p, m, n)
    requires forall i :: p <= i < p + HTTP_MAX_HEADER_SIZE ==> data[i] != CR && data[i] != LF
    ensures Jumped(s, data, |data|, m) || OverLimit(s, data, m)
  {
    hide OverLimit, RunStart, Ready, Synced, SkipsBadByte, Low;
    var j := p + HTTP_MAX_HEADER_SIZE;
    JumpRun(s, data, p, j, m, cb, slot, n, q, t);
    if SkipsBadByte(s, data, m) {
      SkipFails(s, data, m);
    } else {
      PlainFailsLater(s, data, p, j, m, cb);
      CountOver(s, data, j, m);
    }
  }

  /** A run that jumps over nothing and fails in a value fails in none that has gone on plainly before. */
  lemma PlainFailsLater(s: Progress, data: seq<byte>, p: nat, j: nat, m: Machine, cb: HeadersCompleteCallback)
    requires Steps(m) && Implements(m.sw, cb) && s.how == Go && p < j < |data| && InPlainValue(RunTo(s, data, p, m).q)
    requires RunTo(s, data, j, m).how == Go && Same(s, data, p, j, m) && !SkipsBadByte(s, data, m)
    ensures FailsInValue(s, data, m) ==> j <= RunStart(s, data, Run(s, data, m).n - s.n, m)
  {
    hide RunStart, SkipsBadByte;
    FailsBehind(s, data, j, m);
    if FailsInValue(s, data, m) {
      var k := Run(s, data, m).n - s.n;
      if RunStart(s, data, k, m) < j {
        StartsBefore(s, data, j, k, m);
        PlainFailsSkipping(s, data, p, m, cb);
      }
    }
  }

  /** A pass that only reports an error. */
  lemma ErrorKeepsAt(s: Progress, data: seq<byte>, p: nat, m: Machine, slot: Slot, n: nat, q: Fields, t: seq<Event>,
                     e: Errno)
    requires Steps(m) && p < |data| && Ready(q, slot, p) && At(s, data, p, m, slot, n, q, t)
    requires m.sw(q, data[p]) == Error(q, e) && e != OK && q.state.s_header_value?
    ensures FailedAt(s, data, p, m, slot, q.(errno := e), t) && LossAt(s, data, p, m, slot, q.(errno := e))
    ensures RunTo(s, data, p + 1, m).how == Fail
  {
    assert Watch(RunTo(s, data, p, m), data[p]);
    RunConsumes(s, data, p, m);
    RunStuck(s, data, p + 1, |data|, m);
    assert StepEvents(q, data[p], m.sw) == [];
  }

  /** The byte that ends a header value. */
  lemma ValueEndKeepsAt(s: Progress, data: seq<byte>, p: nat, m: Machine, cb: HeadersCompleteCallback,
                        slot: Slot, n: nat, q: Fields, t: seq<Event>)
    requires Steps(m) && Implements(m.sw, cb) && p < |data| && Ready(q, slot, p) && q.state.s_header_value?
    requires At(s, data, p, m, slot, n, q, t) && (data[p] == CR || data[p] == LF)
    ensures At(s, data, p + 1, m, Unset, n + 1,
               q.(state := if data[p] == CR then s_header_almost_done else s_header_value_lws),
               Add(t, Data(HeaderValue, data[slot.start..p])))
  {
    var q' := q.(state := if data[p] == CR then s_header_almost_done else s_header_value_lws);
    ValueEnd(q, data[p], m, cb);
    EndIsOrderly(q, q');
    PassKeepsAt(s, data, p, m, slot, n, q, t);
    var value := Data(HeaderValue, data[slot.start..p]);
    assert Apply(Then(Deliver(HeaderValue), Done), slot, data, p).0 == [value] + [] == [value];
    AddAllOne(t, value);
  }

  lemma EndIsOrderly(q: Fields, q': Fields)
    requires q.state.s_header_value? && q'.errno == OK
    requires (q'.state.s_header_almost_done? || q'.state.s_header_value_lws?)
    ensures OrderlyAt(q, After(Deliver(HeaderValue), Next(q')), Some(HeaderValue))
  {}

  // ---- blocks of body bytes ----------------------------------------------------------------

  predicate InBlock(q: Fields) {
    || (q.state.s_body_identity? && q.contentLength != ULLONG_MAX)
    || (q.state.s_chunk_data? && q.flags.chunked && q.contentLength != ULLONG_MAX)
    || q.state.s_body_identity_eof?
  }

  /** The parser after `j` more body bytes that do not complete the body or chunk. */
  function Taken(q: Fields, j: nat): Fields
    requires q.state.s_body_identity_eof? || j <= q.contentLength
  {
    if q.state.s_body_identity_eof? then q else q.(contentLength := q.contentLength - j)
  }

  function BodyMark(slot: Slot, p: nat): Slot {
    if slot.Set? then slot else Set(Body, p)
  }

  lemma BodyByte(q: Fields, ch: byte, sw: Switch, cb: HeadersCompleteCallback)
    requires Implements(sw, cb) && InBlock(q) && (q.state.s_body_identity_eof? || q.contentLength > 1)
    ensures sw(q, ch) == After(Mark(Body), Next(Taken(q, 1)))
  {
    assert Consult(q, ch);
  }

  lemma BodyIsOrderly(q: Fields, mk: Option<Kind>)
    requires q.errno == OK && InBlock(q) && (q.state.s_body_identity_eof? || q.contentLength > 1)
    requires mk == None || mk == Some(Body)
    ensures OrderlyAt(q, After(Mark(Body), Next(Taken(q, 1))), mk)
  {}

  lemma BlockStep(s: Progress, data: seq<byte>, p: nat, m: Machine, cb: HeadersCompleteCallback,
                  slot: Slot, n: nat, q: Fields, t: seq<Event>)
    requires Steps(m) && Implements(m.sw, cb) && Ready(q, slot, p) && InBlock(q)
    requires p < |data| && (q.state.s_body_identity_eof? || q.contentLength > 1)
    requires At(s, data, p, m, slot, n, q, t) && Low(s, data, p, m, n)
    ensures At(s, data, p + 1, m, BodyMark(slot, p), n, Taken(q, 1), t) && Low(s, data, p + 1, m, n)
  {
    BodyByte(q, data[p], m.sw, cb);
    BodyIsOrderly(q, KindOf(slot));
    PassKeepsAt(s, data, p, m, slot, n, q, t);
    assert Apply(After(Mark(Body), Next(Taken(q, 1))).acts, slot, data, p) == ([], BodyMark(slot, p));
  }

  /** Skipping a block of body bytes that leaves at least one byte of the body to come. */
  lemma {:induction false} BlockRun(s: Progress, data: seq<byte>, p: nat, j: nat, m: Machine,
                                    cb: HeadersCompleteCallback, slot: Slot, n: nat, q: Fields, t: seq<Event>)
    requires Steps(m) && Implements(m.sw, cb) && Ready(q, slot, p) && InBlock(q)
    requires p + j <= |data| && (q.state.s_body_identity_eof? || j < q.contentLength)
    requires At(s, data, p, m, slot, n, q, t) && Low(s, data, p, m, n)
    ensures j > 0 ==> At(s, data, p + j, m, BodyMark(slot, p), n, Taken(q, j), t) && Low(s, data, p + j, m, n)
    decreases j
  {
    hide RunTo, Synced;
    if j > 0 {
      BlockStep(s, data, p, m, cb, slot, n, q, t);
      BlockRun(s, data, p + 1, j - 1, m, cb, BodyMark(slot, p), n, Taken(q, 1), t);
    }
  }

  /** A pass outside header values that fails does not fail at a byte the skip jumps over. */
  lemma PassDoesNotSkip(s: Progress, data: seq<byte>, p: nat, m: Machine, slot: Slot, q: Fields, q': Fields,
                        t: seq<Event>)
    requires p < |data| && RunTo(s, data, p, m).q == q && !InPlainValue(q)
    requires FailedAt(s, data, p, m, slot, q', t)
    ensures !SkipsBadByte(s, data, m)
  {}

  /** A pass outside header values that stops the run within the limit does not exceed it. */
  lemma PassWithinLimit(s: Progress, data: seq<byte>, p: nat, m: Machine)
    requires Steps(m) && s.how == Go && p < |data| && RunTo(s, data, p, m).how == Go
    requires !RunTo(s, data, p, m).q.state.s_header_value?
    requires RunTo(s, data, p + 1, m).how != Go && RunTo(s, data, p + 1, m).peak <= HTTP_MAX_HEADER_SIZE
    ensures !OverLimit(s, data, m)
  {
    RunStuck(s, data, p + 1, |data|, m);
    RunConsumes(s, data, p, m);
    assert Watch(RunTo(s, data, p, m), data[p]);
  }

  /** What a pass of the switch with outcome `o` shows about the bytewise run. */
  predicate PassShows(s: Progress, data: seq<byte>, p: nat, m: Machine, n: nat, o: Outcome, slot: Slot, t: seq<Event>)
    requires p < |data|
  {
    match o.how
    case Go => At(s, data, p + 1, m, slot, n, o.q, t) && Low(s, data, p + 1, m, 0)
    case Fail =>
      && FailedAt(s, data, p, m, slot, o.q, t) && LossAt(s, data, p, m, slot, o.q)
      && !SkipsBadByte(s, data, m) && !OverLimit(s, data, m)
    case Exit => LeftAt(s, data, p, m, n, o.q, t) && slot == Unset && !OverLimit(s, data, m)
  }

  lemma PassOutcome(s: Progress, data: seq<byte>, p: nat, m: Machine, slot: Slot, n: nat, q: Fields, trace: seq<Event>)
    requires Steps(m) && p < |data| && Ready(q, slot, p) && !q.state.s_header_value?
    requires At(s, data, p, m, slot, n, q, Joined(trace)) && OrderlyAt(q, m.sw(q, data[p]), KindOf(slot))
    requires Low(s, data, p, m, n) && Counted(q, n) <= HTTP_MAX_HEADER_SIZE
    ensures var o := m.sw(q, data[p]);
            var r := Apply(o.acts, slot, data, p);
            PassShows(s, data, p, m, if o.reset then 0 else Counted(q, n), o, r.1, Joined(trace + r.0))
  {
    hide OverLimit;
    var o := m.sw(q, data[p]);
    var r := Apply(o.acts, slot, data, p);
    PassKeepsAt(s, data, p, m, slot, n, q, Joined(trace));
    JoinedConcat(trace, r.0);
    if o.how != Go {
      assert Watch(RunTo(s, data, p, m), data[p]);
      PassWithinLimit(s, data, p, m);
    }
    if o.how == Fail {
      PassLoses(s, data, p, m, slot, q);
      PassDoesNotSkip(s, data, p, m, r.1, q, o.q, Joined(trace + r.0));
    }
  }

  predicate StartsFresh(o: Outcome) {
    o.how != Fail && o.q.state.s_chunk_size_start? ==> o.reset
  }

  lemma StartStartsFresh(q: Fields, ch: byte)
    ensures StartsFresh(OnStart(q, ch))
  {}

  lemma StatusLineStartsFresh(q: Fields, ch: byte)
    ensures StartsFresh(OnStatusLine(q, ch))
  {}

  lemma UrlStartsFresh(q: Fields, ch: byte)
    ensures StartsFresh(OnUrl(q, ch))
  {}

  lemma RequestLineStartsFresh(q: Fields, ch: byte)
    ensures StartsFresh(OnRequestLine(q, ch))
  {}

  lemma HeaderStartsFresh(q: Fields, ch: byte)
    ensures q.state.s_header_field? ==> StartsFresh(OnHeaderField(q, ch))
    ensures q.state.s_header_value? ==> StartsFresh(OnHeaderValue(q, ch))
  {}

  lemma BodyStartsFresh(q: Fields, ch: byte)
    ensures StartsFresh(OnBody(q, ch))
  {}

  lemma FieldStartStartsFresh(q: Fields, ch: byte, cb: HeadersCompleteCallback)
    ensures StartsFresh(OnFieldStart(q, ch, cb))
  {
    hide OnHeadersAlmostDone;
    AlmostDoneStartsFresh(q.(state := s_headers_almost_done), ch, cb);
  }

  lemma HeaderEndStartsFresh(q: Fields, ch: byte, cb: HeadersCompleteCallback)
    ensures StartsFresh(OnHeaderEnd(q, ch, cb))
  {
    hide OnValueStart, OnFieldStart, Recognised;
    FieldStartStartsFresh(q.(flags := Recognised(q.headerState, q.flags), state := s_header_field_start), ch, cb);
    ValueStartStartsFresh(q, ch);
    ValueStartStartsFresh(q.(state := s_header_value_start), ch);
  }

  lemma ValueStartStartsFresh(q: Fields, ch: byte)
    ensures StartsFresh(OnValueStart(q, ch))
  {}

  lemma AlmostDoneStartsFresh(q: Fields, ch: byte, cb: HeadersCompleteCallback)
    ensures StartsFresh(OnHeadersAlmostDone(q, ch, cb)) && StartsFresh(OnHeadersDone(q, ch))
  {}

  /** Every pass that leads to the start of a chunk size sets the header count back. */
  lemma ChunkSizeStartsFresh(q: Fields, ch: byte, cb: HeadersCompleteCallback)
    ensures StartsFresh(Dispatch(q, ch, cb))
  {
    hide OnStart, OnStatusLine, OnUrl, OnRequestLine, OnFieldStart, OnHeaderField, OnHeaderValue, OnHeaderEnd,
         OnHeadersAlmostDone, OnHeadersDone, OnBody, StartsFresh;
    match GroupOf(q.state)
    case GStart => StartStartsFresh(q, ch);
    case GStatusLine => StatusLineStartsFresh(q, ch);
    case GUrl => UrlStartsFresh(q, ch);
    case GRequestLine => RequestLineStartsFresh(q, ch);
    case GField | GValue => HeaderStartsFresh(q, ch);
    case GFieldStart => FieldStartStartsFresh(q, ch, cb);
    case GHeaderEnd => HeaderEndStartsFresh(q, ch, cb);
    case GAlmostDone | GDone => AlmostDoneStartsFresh(q, ch, cb);
    case GBody => BodyStartsFresh(q, ch);
  }

  // ---- exceeding the limit -----------------------------------------------------------------

  /** A header value that starts behind another state starts behind it. */
  lemma {:induction false} ValueStartsBehind(s: Progress, data: seq<byte>, p: nat, k: nat, m: Machine)
    requires p <= k <= |data| && RunTo(s, data, k, m).q.state.s_header_value?
    requires !RunTo(s, data, p, m).q.state.s_header_value?
    ensures p < RunStart(s, data, k, m)
  {
    if Amid(s, data, k, m) {
      ValueStartsBehind(s, data, p, k - 1, m);
    }
  }

  /** Outside header values every count is looked at. */
  lemma CountOverOutside(s: Progress, data: seq<byte>, p: nat, m: Machine)
    requires Steps(m) && s.how == Go && p < |data| && RunTo(s, data, p, m).how == Go
    requires var r := RunTo(s, data, p, m); Counted(r.q, r.nread) > HTTP_MAX_HEADER_SIZE && !r.q.state.s_header_value?
    ensures OverLimit(s, data, m)
  {
    hide OverLimit;
    FailsBehind(s, data, p, m);
    if FailsInValue(s, data, m) {
      ValueStartsBehind(s, data, p, Run(s, data, m).n - s.n, m);
    }
    CountOver(s, data, p, m);
  }

  /** So is the count at a byte that ends a header value. */
  lemma CountOverBehind(s: Progress, data: seq<byte>, p: nat, m: Machine)
    requires Steps(m) && s.how == Go && p < |data| && RunTo(s, data, p + 1, m).how == Go
    requires var r := RunTo(s, data, p, m); r.how == Go && Counted(r.q, r.nread) > HTTP_MAX_HEADER_SIZE
    requires !RunTo(s, data, p + 1, m).q.state.s_header_value?
    ensures OverLimit(s, data, m)
  {
    hide OverLimit;
    FailsBehind(s, data, p + 1, m);
    if FailsInValue(s, data, m) {
      ValueStartsBehind(s, data, p + 1, Run(s, data, m).n - s.n, m);
    }
    CountOver(s, data, p, m);
  }

  /** And the count at a byte where a turn of the main loop starts. */
  lemma CountOverAtStart(s: Progress, data: seq<byte>, p: nat, m: Machine)
    requires Steps(m) && s.how == Go && p < |data| && !Amid(s, data, p, m)
    requires var r := RunTo(s, data, p, m); r.how == Go && Counted(r.q, r.nread) > HTTP_MAX_HEADER_SIZE
    ensures OverLimit(s, data, m)
  {
    hide OverLimit;
    FailsBehind(s, data, p, m);
    if FailsInValue(s, data, m) {
      StartsBehind(s, data, p, Run(s, data, m).n - s.n, m);
    }
    CountOver(s, data, p, m);
  }

  /** So is the count at the end of the buffer, which there is one too high. */
  lemma EndsOver(s: Progress, data: seq<byte>, start: nat, m: Machine)
    requires start < |data| && !Amid(s, data, start, m) && Same(s, data, start, |data|, m)
    requires Run(s, data, m).how == Go && Run(s, data, m).nread + 1 > HTTP_MAX_HEADER_SIZE
    ensures OverLimit(s, data, m)
  {}

  lemma FreshStart(s: Progress, data: seq<byte>, start: nat, m: Machine)
    requires start <= |data| && !Amid(s, data, start, m)
    requires RunTo(s, data, start, m).how == Go && RunTo(s, data, start, m).q.state.s_header_value?
    ensures Fresh(s, data, start, m)
  {}

  /** A part of a header value starts within the limit. */
  predicate Began(s: Progress, data: seq<byte>, start: nat, m: Machine) {
    start < |data| && !Amid(s, data, start, m) && RunTo(s, data, start + 1, m).peak <= HTTP_MAX_HEADER_SIZE
  }

  lemma BeginsWithinLimit(s: Progress, data: seq<byte>, start: nat, m: Machine, n: int)
    requires Steps(m) && start < |data| && !Amid(s, data, start, m) && Low(s, data, start, m, n)
    requires n < HTTP_MAX_HEADER_SIZE
    requires var r := RunTo(s, data, start, m); r.how == Go && r.nread == n && ParsingHeader(r.q.state)
    ensures Began(s, data, start, m)
  {
    assert Watch(RunTo(s, data, start, m), data[start]);
  }

  /** A failure in it comes before its count is looked at again. */
  lemma FailsWithinLimit(s: Progress, data: seq<byte>, start: nat, p: nat, m: Machine)
    requires Steps(m) && s.how == Go && start <= p < |data| && Began(s, data, start, m) && Same(s, data, start, p, m)
    requires RunTo(s, data, p, m).how == Go && RunTo(s, data, p, m).q.state.s_header_value?
    requires RunTo(s, data, p + 1, m).how == Fail
    ensures !OverLimit(s, data, m)
  {
    RunStuck(s, data, p + 1, |data|, m);
    RunConsumes(s, data, p, m);
    assert Watch(RunTo(s, data, p, m), data[p]);
  }

  // ---- the parser object -------------------------------------------------------------------

  class Parser {
    var f: Fields
    var nread: nat
    var trace: seq<Event>  // every callback made so far
    const cb: HeadersCompleteCallback
    const m: Machine  // the byte-at-a-time parser with the same callback

    /** `http_parser_init`. */
    constructor (typ: ParserType, cb: HeadersCompleteCallback)
      ensures Valid() && this.cb == cb && m == MachineOf(cb)
      ensures f == Init(typ) && nread == 0 && trace == []
    {
      f, nread, trace, this.cb, m := Init(typ), 0, [], cb, MachineOf(cb);
    }

    ghost predicate Valid() {
      Steps(m) && Implements(m.sw, cb)
    }

    /** This parser as the start of a bytewise run. */
    ghost function Start(): Progress
      reads this
    {
      Progress(f, Joined(trace), 0, Go, nread, 0)
    }

    /** What the header count always keeps to. */
    ghost predicate Counting()
      reads this
    {
      f.errno == OK ==> nread <= HTTP_MAX_HEADER_SIZE && (f.state.s_chunk_size_start? ==> nread == 0)
    }

    /** The bytewise run is where this parser is, `extra` header bytes behind. */
    ghost predicate InSync(s: Progress, data: seq<byte>, p: nat, slot: Slot, extra: int)
      reads this
    {
      At(s, data, p, m, slot, nread - extra, f, Joined(trace)) && Low(s, data, p, m, nread - extra)
    }

    /** So it is between two turns of the main loop; only a header name or value that the buffer cuts has been
        counted once too often. */
    ghost predicate InStep(s: Progress, data: seq<byte>, p: nat, slot: Slot)
      reads this
    {
      && p <= |data| && (p < |data| ==> !Amid(s, data, p, m))
      && InSync(s, data, p, slot, if Amid(s, data, p, m) then 1 else 0)
    }

    /** What a pass that stops the call has to show for itself. */
    ghost predicate Stopped(s: Progress, data: seq<byte>, p: nat, slot: Slot, how: How)
      reads this
    {
      match how
      case Go => true
      case Fail =>
        if f.errno == HEADER_OVERFLOW then OverLimit(s, data, m)
        else
          && FailedAt(s, data, p, m, slot, f, Joined(trace)) && LossAt(s, data, p, m, slot, f)
          && !SkipsBadByte(s, data, m) && !OverLimit(s, data, m)
      case Exit => LeftAt(s, data, p, m, nread, f, Joined(trace)) && slot == Unset && !OverLimit(s, data, m)
    }

    /** The switch for one byte, outside the bulk loops. */
    method Pass(data: seq<byte>, p: nat, slot: Slot, ghost s: Progress, ghost good: bool)
      returns (slot': Slot, how: How)
      requires Valid() && p < |data| && Ready(f, slot, p) && !f.state.s_header_value? && nread <= HTTP_MAX_HEADER_SIZE
      requires good ==> InSync(s, data, p, slot, if ParsingHeader(f.state) then 1 else 0)
      modifies this
      ensures slot'.Set? ==> slot'.start <= p
      ensures how == Go ==> Ready(f, slot', p + 1) && Counting()
      ensures how == Go && good ==> InSync(s, data, p + 1, slot', 0)
      ensures how == Fail <==> f.errno != OK
      ensures how == Exit ==> Counting()
      ensures good ==> Stopped(s, data, p, slot', how)
      ensures f == m.sw(old(f), data[p]).q && how == m.sw(old(f), data[p]).how
    {
      hide Dispatch, RunTo, Synced, Joined, SkipsBadByte, OverLimit;
      ChunkSizeStartsFresh(f, data[p], cb);
      ghost var n := nread;
      var o := Dispatch(f, data[p], cb);
      DispatchOrderly(f, data[p], cb, KindOf(slot));
      ApplyReady(o.acts, slot, data, p);
      var r := Apply(o.acts, slot, data, p);
      assert Consult(f, data[p]);
      if good {
        PassOutcome(s, data, p, m, slot, if ParsingHeader(f.state) then n - 1 else n, f, trace);
      }
      f, trace, slot', how := o.q, trace + r.0, r.1, o.how;
      if o.reset {
        nread := 0;
      }
    }

    /** Adds the bytes of a header run to `nread`, as `COUNT_HEADER_SIZE` does. */
    method CountRun(bytes: nat) returns (how: How)
      requires f.errno == OK
      modifies this
      ensures nread == old(nread) + bytes && trace == old(trace)
      ensures how == if nread > HTTP_MAX_HEADER_SIZE then Fail else Go
      ensures f == if how == Fail then old(f).(errno := HEADER_OVERFLOW) else old(f)
    {
      nread := nread + bytes;
      how := Go;
      if nread > HTTP_MAX_HEADER_SIZE {
        f := f.(errno := HEADER_OVERFLOW);
        how := Fail;
      }
    }

    /** The loop over the token characters of a header name. */
    method FieldScan(data: seq<byte>, start: nat, slot: Slot, ghost s: Progress, ghost good: bool) returns (p: nat)
      requires Valid() && start < |data| && Ready(f, slot, start) && f.state.s_header_field?
      requires good ==> InSync(s, data, start, slot, 1)
      modifies this`f
      ensures start <= p <= |data| && Ready(f, slot, p) && f.state.s_header_field?
      ensures p == |data| || Token(data[p]) == 0 || !IsFieldState(f.headerState)
      ensures good ==> InSync(s, data, p, slot, 1 - (p - start)) && Same(s, data, start, p, m)
    {
      hide At, Low, Ready, Token, FieldChar, IsFieldState, RunStart;
      p := start;
      while p < |data| && Token(data[p]) != 0 && IsFieldState(f.headerState)
        invariant start <= p <= |data|
        invariant Ready(f, slot, p) && f.state.s_header_field?
        invariant good ==> InSync(s, data, p, slot, 1 - (p - start)) && Same(s, data, start, p, m)
      {
        FieldScanOne(data, p, slot, s, good, 1 - (p - start));
        p := p + 1;
      }
    }

    /** One turn of that loop. */
    method FieldScanOne(data: seq<byte>, p: nat, slot: Slot, ghost s: Progress, ghost good: bool, ghost extra: int)
      requires Valid() && p < |data| && Ready(f, slot, p) && f.state.s_header_field?
      requires Token(data[p]) != 0 && IsFieldState(f.headerState)
      requires good ==> InSync(s, data, p, slot, extra)
      modifies this`f
      ensures Ready(f, slot, p + 1) && f.state.s_header_field?
      ensures good ==> InSync(s, data, p + 1, slot, extra - 1) && Same(s, data, p, p + 1, m)
    {
      hide FieldChar, Token;
      ghost var q := f;
      var h := FieldChar(f.headerState, f.index, data[p], Token(data[p]));
      f := f.(headerState := h.0, index := h.1);
      if good {
        FieldByte(q, data[p], m, cb);
        QuietKeepsAt(s, data, p, m, slot, nread - extra, q, Joined(trace), f);
      }
    }

    /** `memchr`: the first `c` among `limit` bytes from `from`, or -1. */
    static method MemChr(data: seq<byte>, from: nat, c: byte, limit: nat) returns (i: int)
      requires from + limit <= |data|
      ensures i == -1 || from <= i < from + limit
      ensures i != -1 ==> data[i] == c
      ensures forall j :: from <= j < (if i == -1 then from + limit else i) ==> data[j] != c
    {
      i := from;
      while i < from + limit
        invariant from <= i <= from + limit
        invariant forall j :: from <= j < i ==> data[j] != c
      {
        if data[i] == c {
          return;
        }
        i := i + 1;
      }
      i := -1;
    }

    /** Where the skip over a plain header value stops: at a line end within the header limit, else at
        the end of the buffer. */
    static method LineEnd(data: seq<byte>, p: nat) returns (e: nat)
      requires p < |data| && data[p] != CR && data[p] != LF
      ensures p < e <= |data|
      ensures forall i :: p <= i < e && i < p + HTTP_MAX_HEADER_SIZE ==> data[i] != CR && data[i] != LF
      ensures e < |data| ==> e < p + HTTP_MAX_HEADER_SIZE && (data[e] == CR || data[e] == LF)
    {
      var limit := if |data| - p < HTTP_MAX_HEADER_SIZE then |data| - p else HTTP_MAX_HEADER_SIZE;
      var cr := MemChr(data, p, CR, limit);
      var lf := MemChr(data, p, LF, limit);
      if cr != -1 {
        e := if lf != -1 && cr >= lf then lf else cr;
      } else if lf != -1 {
        e := lf;
      } else {
        e := |data|;
      }
    }

    /** `s_header_field`, after the loop. */
    method FieldTail(data: seq<byte>, start: nat, end: nat, slot: Slot, ghost s: Progress, ghost good: bool)
      returns (slot': Slot, how: How)
      requires Valid() && start <= end <= |data| && Ready(f, slot, end) && f.state.s_header_field?
      requires end == |data| || Token(data[end]) == 0 || !IsFieldState(f.headerState)
      requires start < |data|
      requires good ==>
        InSync(s, data, end, slot, 1 - (end - start)) && !Amid(s, data, start, m) && Same(s, data, start, end, m)
      modifies this
      ensures slot'.Set? ==> slot'.start <= end
      ensures how == Go ==> Counting() && if end == |data| then slot' == slot && f == old(f)
        else Ready(f, slot', end + 1)
      ensures how == Go && end < |data| ==> f.state.s_header_value_discard_ws?
      ensures how == Go && good ==> if end == |data| then InStep(s, data, end, slot)
        else InStep(s, data, end + 1, slot')
      ensures how == Fail <==> f.errno != OK
      ensures how != Exit
      ensures good ==> Stopped(s, data, end, slot', how)
    {
      hide OverLimit, RunTo, Synced, SkipsBadByte, Joined;
      slot' := slot;
      ghost var q := f;
      how := CountRun(end - start);
      if how == Fail {
        if good {
          if end < |data| {
            CountOverOutside(s, data, end, m);
          } else {
            EndsOver(s, data, start, m);
          }
        }
      } else if end < |data| {
        FieldEnd(f, data[end], m, cb);
        slot', how := Pass(data, end, slot, s, good);
      }
    }

    /** `s_header_field`. */
    method FieldRun(data: seq<byte>, start: nat, slot: Slot, ghost s: Progress, ghost good: bool)
      returns (p: nat, slot': Slot, how: How)
      requires Valid() && start < |data| && Ready(f, slot, start) && f.state.s_header_field?
      requires good ==> InSync(s, data, start, slot, 1) && !Amid(s, data, start, m)
      modifies this
      ensures start <= p <= |data| && (slot'.Set? ==> slot'.start <= p)
      ensures how == Go ==> start < p && Ready(f, slot', p) && Counting()
      ensures how == Go && good ==> InStep(s, data, p, slot')
      ensures how == Go ==> if f.state.s_header_field? then p == |data| else f.state.s_header_value_discard_ws?
      ensures how == Fail <==> f.errno != OK
      ensures how != Exit
      ensures good ==> Stopped(s, data, p, slot', how)
    {
      hide OverLimit, At, Low, Amid, RunStart;
      p := FieldScan(data, start, slot, s, good);
      slot', how := FieldTail(data, start, p, slot, s, good);
      if how == Go && p < |data| {
        p := p + 1;
      }
    }

    /** One character of a header value the parser looks at; `h` is the local copy of the header state. */
    method ValueStep(h: HeaderState, ch: byte) returns (h': HeaderState, how: How)
      requires Valid() && f.errno == OK && f.state.s_header_value? && ch != CR && ch != LF
      requires !BadHeaderByte(f, ch)
      modifies this`f
      ensures f.state == old(f.state) && how != Exit
      ensures how == Go ==> f.errno == OK && m.sw(old(f).(headerState := h), ch) == Next(f.(headerState := h'))
      ensures how == Fail ==> f.errno != OK && f.errno != HEADER_OVERFLOW
      ensures how == Fail ==> f == old(f).(headerState := h, errno := f.errno)
      ensures how == Fail ==> m.sw(old(f).(headerState := h), ch) == Error(old(f).(headerState := h), f.errno)
    {
      var q := f.(headerState := h);
      ValueByte(q, ch, m, cb);
      match ValueChar(q, ch)
      case ValueOk(h1, index, flags, contentLength) =>
        h', how := h1, Go;
        f := f.(index := index, flags := flags, contentLength := contentLength);
      case ValueError(e) =>
        h', how := h, Fail;
        f := q.(errno := e);
    }

    /** The bytewise run is where the scan of a header value is, unless the skip over a plain value has
        gone past the byte that stops it, or past the header limit. */
    ghost predicate Scanned(s: Progress, data: seq<byte>, start: nat, p: nat, slot: Slot, h: HeaderState)
      reads this
    {
      || Jumped(s, data, p, m)
      || (OverLimit(s, data, m) && p == |data| && p - start > HTTP_MAX_HEADER_SIZE)
      || (&& start <= p <= |data|
          && At(s, data, p, m, slot, nread - 1 + (p - start), f.(headerState := h), Joined(trace))
          && Low(s, data, p, m, nread - 1 + (p - start)) && Same(s, data, start, p, m))
    }

    ghost predicate AtEndOrFresh(s: Progress, data: seq<byte>, p: nat)
      requires p <= |data|
    {
      Jumped(s, data, p, m) || p == |data| || data[p] == CR || data[p] == LF || Fresh(s, data, p, m)
    }

    lemma RejectKeeps(s: Progress, data: seq<byte>, start: nat, p: nat, slot: Slot, h: HeaderState)
      requires Valid() && p < |data| && Ready(f, slot, p) && f.state.s_header_value?
      requires Scanned(s, data, start, p, slot, h) && (Jumped(s, data, p, m) || Fresh(s, data, p, m))
      requires Began(s, data, start, m) && data[p] != CR && data[p] != LF && BadHeaderByte(f, data[p])
      ensures var q := f.(errno := INVALID_HEADER_TOKEN);
        || Jumped(s, data, p, m)
        || (&& FailedAt(s, data, p, m, slot, q, Joined(trace)) && LossAt(s, data, p, m, slot, q)
            && !SkipsBadByte(s, data, m) && !OverLimit(s, data, m))
    {
      hide OverLimit, Synced, Low, RunStart;
      var q := f.(headerState := h);
      ValueByte(q, data[p], m, cb);
      if !Jumped(s, data, p, m) {
        ErrorKeepsAt(s, data, p, m, slot, nread - 1 + (p - start), q, Joined(trace), INVALID_HEADER_TOKEN);
        FailsWithinLimit(s, data, start, p, m);
      }
    }

    /** One turn of the loop over a header value: a skip to the end of a plain value, or one character. */
    method ValueAdvance(data: seq<byte>, start: nat, from: nat, slot: Slot, h0: HeaderState, ghost s: Progress,
                        ghost good: bool)
      returns (p: nat, h: HeaderState, how: How)
      requires Valid() && start <= from < |data| && Ready(f, slot, from) && f.state.s_header_value?
      requires data[from] != CR && data[from] != LF && !BadHeaderByte(f, data[from])
      requires good ==> Scanned(s, data, start, from, slot, h0) && Began(s, data, start, m)
      modifies this`f
      ensures from <= p <= |data| && f.state.s_header_value? && how != Exit
      ensures how == Go ==> from < p && Ready(f, slot, p)
      ensures how == Fail ==> f.errno != OK && f.errno != HEADER_OVERFLOW
      ensures how == Go && good ==> Scanned(s, data, start, p, slot, h) && AtEndOrFresh(s, data, p)
      ensures how == Fail && good ==> Jumped(s, data, p, m) || Stopped(s, data, p, slot, how)
    {
      hide SkipsBadByte, RunTo, OverLimit, Synced, Joined, Low, RunStart, Began;
      ghost var q, n := f.(headerState := h0), nread - 1 + (from - start);
      ghost var synced := good && !Jumped(s, data, from, m);
      if h0.h_general? {
        h, how := h0, Go;
        p := LineEnd(data, from);
        if synced {
          SkipRun(s, data, from, p, m, cb, slot, n, q, Joined(trace));
        }
      } else {
        p := from;
        h, how := ValueStep(h0, data[p]);
        if how == Fail {
          if synced {
            ErrorKeepsAt(s, data, p, m, slot, n, q, Joined(trace), f.errno);
            FailsWithinLimit(s, data, start, p, m);
            PassDoesNotSkip(s, data, p, m, slot, q, f, Joined(trace));
          }
        } else {
          if synced {
            QuietKeepsAt(s, data, p, m, slot, n, q, Joined(trace), f.(headerState := h));
          }
          p := p + 1;
        }
      }
    }

    /** The loop over the characters of a header value. */
    method ValueScan(data: seq<byte>, start: nat, slot: Slot, ghost s: Progress, ghost good: bool)
      returns (p: nat, h: HeaderState, how: How)
      requires Valid() && start < |data| && Ready(f, slot, start) && f.state.s_header_value?
      requires good ==> InSync(s, data, start, slot, 1) && Fresh(s, data, start, m) && Began(s, data, start, m)
      modifies this`f
      ensures start <= p <= |data| && f.state.s_header_value? && how != Exit
      ensures how == Go ==> Ready(f, slot, p) && (p == |data| || data[p] == CR || data[p] == LF)
      ensures how == Fail ==> f.errno != OK && f.errno != HEADER_OVERFLOW
      ensures how == Go && good ==> Scanned(s, data, start, p, slot, h)
      ensures how == Fail && good ==> Jumped(s, data, p, m) || Stopped(s, data, p, slot, how)
    {
      hide At, OverLimit, Low, RunStart, Began, SkipsBadByte, FailedAt, LossAt;
      p, h, how := start, f.headerState, Go;
      while p < |data| && data[p] != CR && data[p] != LF
        invariant start <= p <= |data| && how == Go
        invariant Ready(f, slot, p) && f.state.s_header_value?
        invariant good ==> Scanned(s, data, start, p, slot, h) && AtEndOrFresh(s, data, p)
      {
        if BadHeaderByte(f, data[p]) {
          if good {
            RejectKeeps(s, data, start, p, slot, h);
          }
          f, how := f.(errno := INVALID_HEADER_TOKEN), Fail;
          return;
        }
        p, h, how := ValueAdvance(data, start, p, slot, h, s, good);
        if how == Fail {
          return;
        }
      }
    }

    /** The byte that ends a header value, with the value delivered and its bytes counted. */
    lemma ValueTailKeeps(s: Progress, data: seq<byte>, start: nat, end: nat, slot: Slot, h: HeaderState, value: Event)
      requires Valid() && start <= end < |data| && Ready(f, slot, end) && f.state.s_header_value?
      requires (data[end] == CR || data[end] == LF) && value == Data(HeaderValue, data[slot.start..end])
      requires Scanned(s, data, start, end, slot, h) && !Jumped(s, data, end, m)
      ensures
        var n := nread + (end - start);
        var q := f.(headerState := h, state := if data[end] == CR then s_header_almost_done else s_header_value_lws);
        && !Amid(s, data, end + 1, m)
        && (if n > HTTP_MAX_HEADER_SIZE then OverLimit(s, data, m)
            else At(s, data, end + 1, m, Unset, n, q, Joined(trace + [value])) && Low(s, data, end + 1, m, n))
    {
      hide SkipsBadByte, OverLimit, Synced, Joined, RunStart;
      var q, t, n := f.(headerState := h), Joined(trace), nread - 1 + (end - start);
      ValueEndKeepsAt(s, data, end, m, cb, slot, n, q, t);
      JoinedConcat(trace, [value]);
      AddAllOne(t, value);
      if nread + (end - start) > HTTP_MAX_HEADER_SIZE {
        CountOverBehind(s, data, end, m);
      }
      assert Watch(RunTo(s, data, end, m), data[end]);
    }

    /** `s_header_value`, once the loop has met a line end at `end`. */
    method ValueTail(data: seq<byte>, start: nat, end: nat, slot: Slot, h: HeaderState, ghost s: Progress,
                     ghost good: bool)
      returns (how: How)
      requires Valid() && start <= end < |data| && Ready(f, slot, end) && f.state.s_header_value?
      requires data[end] == CR || data[end] == LF
      requires good ==> Scanned(s, data, start, end, slot, h)
      modifies this
      ensures how == Go ==> Ready(f, Unset, end + 1) && !f.state.s_header_value? && Counting()
      ensures how == Fail <==> f.errno == HEADER_OVERFLOW
      ensures how == Fail <==> f.errno != OK
      ensures how != Exit
      ensures how == Go && good ==> Jumped(s, data, end, m) || InStep(s, data, end + 1, Unset)
      ensures how == Fail && good ==> Jumped(s, data, end, m) || OverLimit(s, data, m)
    {
      hide SkipsBadByte, RunTo, OverLimit, Synced, Joined, RunStart, Jumped, Valid;
      hide Low, Amid, At, Scanned;
      var value := Data(HeaderValue, data[slot.start..end]);
      if good && !Jumped(s, data, end, m) {
        ValueTailKeeps(s, data, start, end, slot, h, value);
      }
      f := f.(state := s_header_almost_done);
      if data[end] == CR {
        f := f.(headerState := h);
        trace := trace + [value];
        how := CountRun(end - start);
      } else {
        how := CountRun(end - start);
        if how == Fail {
          return;
        }
        trace := trace + [value];
        f := f.(headerState := h, state := s_header_value_lws);
      }
    }

    /** `s_header_value`. */
    method ValueRun(data: seq<byte>, start: nat, slot: Slot, ghost s: Progress, ghost good: bool)
      returns (p: nat, slot': Slot, how: How)
      requires Valid() && start < |data| && Ready(f, slot, start) && f.state.s_header_value?
      requires nread <= HTTP_MAX_HEADER_SIZE
      requires good ==> InSync(s, data, start, slot, 1) && !Amid(s, data, start, m)
      modifies this
      ensures start <= p <= |data| && (slot'.Set? ==> slot'.start <= p)
      ensures how == Go ==> start < p && Ready(f, slot', p) && Counting()
      ensures how == Go && f.state.s_header_value? ==> p == |data|
      ensures how == Go && good ==> Jumped(s, data, p, m) || InStep(s, data, p, slot')
      ensures how == Fail <==> f.errno != OK
      ensures how != Exit
      ensures how == Fail && good ==> Jumped(s, data, p, m) || Stopped(s, data, p, slot', how)
    {
      hide SkipsBadByte, Synced, RunTo, Run, OverLimit, Began, RunStart;
      var h;
      slot' := slot;
      if good {
        FreshStart(s, data, start, m);
        BeginsWithinLimit(s, data, start, m, nread - 1);
      }
      p, h, how := ValueScan(data, start, slot, s, good);
      if how == Fail {
        return;
      }
      if p < |data| {
        how := ValueTail(data, start, p, slot, h, s, good);
        if how == Go {
          slot', p := Unset, p + 1;
        }
      } else {
        f := f.(headerState := h);
        if good {
          ValueEnds(s, data, start, slot, h);
        }
        how := CountRun(p - start);
      }
    }

    /** A header value that the end of the buffer cuts. */
    lemma ValueEnds(s: Progress, data: seq<byte>, start: nat, slot: Slot, h: HeaderState)
      requires Valid() && start < |data| && !Amid(s, data, start, m) && f.headerState == h && f.state.s_header_value?
      requires Scanned(s, data, start, |data|, slot, h)
      ensures nread + (|data| - start) > HTTP_MAX_HEADER_SIZE ==> Jumped(s, data, |data|, m) || OverLimit(s, data, m)
      ensures nread + (|data| - start) <= HTTP_MAX_HEADER_SIZE ==>
        || Jumped(s, data, |data|, m)
        || (Amid(s, data, |data|, m) && InSync(s, data, |data|, slot, 1 - (|data| - start)))
    {
      hide SkipsBadByte, OverLimit, Synced, Joined;
      assert f.(headerState := h) == f;
      if !Jumped(s, data, |data|, m) && !OverLimit(s, data, m) && nread + (|data| - start) > HTTP_MAX_HEADER_SIZE {
        EndsOver(s, data, start, m);
      }
    }

    /** Takes all but the last byte of a block of body bytes at once. */
    method BlockSkip(data: seq<byte>, start: nat, slot: Slot, ghost s: Progress, ghost good: bool)
      returns (p: nat, slot': Slot)
      requires Valid() && start < |data| && Ready(f, slot, start)
      requires good ==> InSync(s, data, start, slot, if ParsingHeader(f.state) then 1 else 0)
      modifies this`f
      ensures start <= p < |data| && Ready(f, slot', p) && f.state == old(f.state)
      ensures good ==> InSync(s, data, p, slot', if ParsingHeader(f.state) then 1 else 0)
    {
      hide RunTo, Synced, Joined, Low;
      slot', p := slot, start;
      if InBlock(f) && (f.state.s_body_identity_eof? || f.contentLength > 0) {
        var toRead := |data| - start;
        if !f.state.s_body_identity_eof? && f.contentLength < toRead {
          toRead := f.contentLength;
        }
        if good {
          BlockRun(s, data, start, toRead - 1, m, cb, slot, nread, f, Joined(trace));
        }
        p := start + toRead - 1;
        if toRead > 1 {
          slot' := BodyMark(slot, start);
          f := Taken(f, toRead - 1);
        }
      }
    }

    /** All other states. In `s_body_identity`, `s_chunk_data` and `s_body_identity_eof` the last byte of
        the block goes through the switch, which tells whether the body or chunk is complete. */
    method BodyBlock(data: seq<byte>, start: nat, slot: Slot, ghost s: Progress, ghost good: bool)
      returns (p: nat, slot': Slot, how: How)
      requires Valid() && start < |data| && Ready(f, slot, start)
      requires !f.state.s_header_field? && !f.state.s_header_value? && nread <= HTTP_MAX_HEADER_SIZE
      requires good ==> InSync(s, data, start, slot, if ParsingHeader(f.state) then 1 else 0)
      modifies this
      ensures start <= p <= |data| && (slot'.Set? ==> slot'.start <= p)
      ensures how == Go ==> start < p && Ready(f, slot', p) && Counting()
      ensures how == Go && good ==> InStep(s, data, p, slot')
      ensures how == Fail <==> f.errno != OK
      ensures good ==> Stopped(s, data, p, slot', how)
      ensures how == Exit ==> p < |data| && Counting()
    {
      hide RunTo, Run, SkipsBadByte, OverLimit, FailedAt, LossAt, LeftAt, Synced, Low;
      p, slot' := BlockSkip(data, start, slot, s, good);
      slot', how := Pass(data, p, slot', s, good);
      if how == Go {
        p := p + 1;
      }
    }

    /** One turn of the main loop. */
    method Turn(data: seq<byte>, start: nat, slot: Slot, ghost s: Progress, ghost good: bool)
      returns (p: nat, slot': Slot, how: How)
      requires Valid() && start < |data| && Ready(f, slot, start) && Counting()
      requires good ==> InStep(s, data, start, slot)
      modifies this
      ensures start <= p <= |data| && (slot'.Set? ==> slot'.start <= p)
      ensures how == Go ==> start < p && Ready(f, slot', p)
      ensures Counting()
      ensures how == Go && good ==> Jumped(s, data, p, m) || InStep(s, data, p, slot')
      ensures how == Fail <==> f.errno != OK
      ensures how != Go && good ==> Jumped(s, data, p, m) || Stopped(s, data, p, slot', how)
      ensures how == Exit ==> p < |data|
    {
      hide Amid, OverLimit, Low;
      p, slot', how := start, slot, Go;
      if ParsingHeader(f.state) {
        how := CountRun(1);
        if how == Fail {
          if good {
            CountOverAtStart(s, data, start, m);
          }
          return;
        }
      }
      assert f.state.s_chunk_size_start? ==> nread == 1;
      if f.state.s_header_field? {
        p, slot', how := FieldRun(data, start, slot, s, good);
      } else if f.state.s_header_value? {
        p, slot', how := ValueRun(data, start, slot, s, good);
      } else {
        p, slot', how := BodyBlock(data, start, slot, s, good);
      }
    }

    /** This parser, after a call that consumed `n` bytes, is where the bytewise run from `s` ends, and its
        joined trace is the bytewise one but for `lost`: the data under the mark when a pass failed, which
        no callback ever receives. */
    ghost predicate Agrees(s: Progress, data: seq<byte>, n: nat, lost: seq<Event>)
      reads this
    {
      var r := Run(s, data, m);
      && n == r.n <= |data|
      && (r.how == Fail <==> f.errno != OK)
      && AddAll(Joined(trace), lost) == r.log
      && (if r.how == Fail then
            SameUpToHeaderState(f, r.q) && IsTail(lost, data[..n]) && LosesOnFail(s, data, n, lost)
          else f == r.q && lost == [] && nread == r.nread + if CutsHeader(s, data, m) then 1 else 0)
    }

    /** Data is lost exactly when the switch was entered for the failing byte with data under a mark. */
    ghost predicate LosesOnFail(s: Progress, data: seq<byte>, n: nat, lost: seq<Event>)
      requires n <= |data|
      reads this
    {
      f.errno != ASSERTION_FAILED ==> (lost != [] <==> LosesData(s, data, n, m))
    }

    /** This parser after the end of the input, told by an empty buffer. */
    ghost predicate AtEnd(q: Fields, t: seq<Event>, n: nat)
      reads this
    {
      match q.state
      case s_body_identity_eof => n == 0 && f == q && trace == t + [Notice(MessageComplete)]
      case s_dead | s_start_req_or_res | s_start_res | s_start_req => n == 0 && f == q && trace == t
      case _ => n == 1 && f == q.(errno := INVALID_EOF_STATE) && trace == t
    }

    /** `http_parser_execute` at the end of the input. */
    method AtEof() returns (n: nat)
      requires f.errno == OK
      modifies this
      ensures nread == old(nread) && AtEnd(old(f), old(trace), n)
    {
      match f.state
      case s_body_identity_eof => trace, n := trace + [Notice(MessageComplete)], 0;
      case s_dead | s_start_req_or_res | s_start_res | s_start_req => n := 0;
      case _ => f, n := f.(errno := INVALID_EOF_STATE), 1;
    }

    /** The main loop of `http_parser_execute`, up to its end or an exit. */
    method Loop(data: seq<byte>, ghost s: Progress) returns (p: nat, slot: Slot, how: How)
      requires Valid() && f.errno == OK && s == Start() && Counting()
      modifies this
      ensures p <= |data| && (slot.Set? ==> slot.start <= p) && Counting()
      ensures how == Fail <==> f.errno != OK
      ensures how == Exit ==> p < |data|
      ensures how == Go ==> p == |data| && (slot.Set? && slot.start == p ==> p == 0)
      ensures Jumped(s, data, p, m) || Stopped(s, data, p, slot, how)
      ensures how == Go ==> Jumped(s, data, p, m) || InStep(s, data, p, slot)
    {
      slot, p, how := Resume(f.state), 0, Go;
      ghost var good := true;
      while p < |data| && how == Go
        invariant p <= |data| && (slot.Set? ==> slot.start <= p)
        invariant (how == Go ==> Ready(f, slot, p)) && Counting()
        invariant how == Fail <==> f.errno != OK
        invariant how == Exit ==> p < |data|
        invariant !good ==> Jumped(s, data, p, m)
        invariant good && how == Go ==> InStep(s, data, p, slot)
        invariant good ==> Stopped(s, data, p, slot, how)
        decreases |data| - p, how == Go
      {
        p, slot, how := Turn(data, p, slot, s, good);
        if Jumped(s, data, p, m) {
          good := false;
        }
      }
    }

    /** `http_parser_execute`. Where the bytewise run meets an illegal byte that the skip over a plain header
        value jumps over, and only there, the call goes on past it; otherwise it fails with `HEADER_OVERFLOW`
        exactly if the header limit is exceeded, and agrees with the bytewise run in everything else. */
    method Execute(data: seq<byte>) returns (n: nat, ghost lost: seq<Event>)
      requires Valid() && Counting()
      modifies this
      ensures Counting() && (data != [] ==> n <= |data|)
      ensures old(f.errno) != OK ==> n == 0 && lost == [] && f == old(f) && nread == old(nread) && trace == old(trace)
      ensures old(f.errno) == OK && data == [] ==> lost == [] && nread == old(nread) && AtEnd(old(f), old(trace), n)
      ensures old(f.errno) == OK && data != [] ==>
        if SkipsBadByte(old(Start()), data, m) then f.errno == HEADER_OVERFLOW || n > Run(old(Start()), data, m).n
        else if OverLimit(old(Start()), data, m) then f.errno == HEADER_OVERFLOW
        else f.errno != HEADER_OVERFLOW && Agrees(old(Start()), data, n, lost)
    {
      ghost var s := Start();
      hide SkipsBadByte, OverLimit, LosesData, Ready, SameUpToHeaderState, Synced, Joined, Low, RunTo;
      lost := [];
      if f.errno != OK {
        return 0, [];
      }
      if data == [] {
        n := AtEof();
        return;
      }
      var p, slot, how := Loop(data, s);
      if SkipsBadByte(s, data, m) {
        SkipFails(s, data, m);
      }
      match how
      case Go =>
        FlushAgrees(s, data, m, slot, nread, f, trace);
        trace, n := trace + Flush(slot, data), |data|;
      case Fail =>
        n := p;
        if slot.Set? && slot.start < p {
          lost := [Data(slot.kind, data[slot.start..p])];
        }
        LostAgrees(s, data, p, m, slot, f, Joined(trace));
      case Exit =>
        n := p + 1;
    }
  }

  /** At the end of the buffer the leftover mark delivers what the bytewise run has delivered before. */
  lemma FlushAgrees(s: Progress, data: seq<byte>, m: Machine, slot: Slot, nread: nat, q: Fields, trace: seq<Event>)
    requires Steps(m) && s.how == Go && (slot.Set? ==> slot.start < |data|)
    ensures var n := nread - if CutsHeader(s, data, m) then 1 else 0;
      At(s, data, |data|, m, slot, n, q, Joined(trace)) ==>
        var r := Run(s, data, m);
        && r.how == Go && r.q == q && r.nread == n && r.n == s.n + |data|
        && AddAll(Joined(trace + Flush(slot, data)), []) == r.log && !FailsInValue(s, data, m)
        && (Low(s, data, |data|, m, n) && nread <= HTTP_MAX_HEADER_SIZE ==> !OverLimit(s, data, m))
  {
    var rest := Flush(slot, data);
    JoinedConcat(trace, rest);
    if slot.Set? {
      assert data[slot.start..|data|] == data[slot.start..];
      AddAllOne(Joined(trace), rest[0]);
    }
    RunConsumes(s, data, |data|, m);
  }

  /** What a failing call has lost is the data under its mark. */
  lemma LostAgrees(s: Progress, data: seq<byte>, p: nat, m: Machine, slot: Slot, q: Fields, t: seq<Event>)
    requires p <= |data| && (slot.Set? ==> slot.start <= p)
    ensures var lost := if slot.Set? && slot.start < p then [Data(slot.kind, data[slot.start..p])] else [];
      && IsTail(lost, data[..p])
      && (FailedAt(s, data, p, m, slot, q, t) ==> AddAll(t, lost) == Run(s, data, m).log)
  {
    if slot.Set? && slot.start < p {
      AddAllOne(t, Data(slot.kind, data[slot.start..p]));
    }
  }

  /** `lost` is nothing, or one piece of data taken from the end of `data`. */
  predicate IsTail(lost: seq<Event>, data: seq<byte>) {
    || lost == []
    || (&& |lost| == 1 && lost[0].Data? && 0 < |lost[0].bytes| <= |data|
        && lost[0].bytes == data[|data| - |lost[0].bytes|..])
  }
}
