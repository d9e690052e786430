/** Feeding an HTTP message to the parser in pieces: how it is cut makes no difference. */
module HttpFeed {
  import opened HttpLog
  import opened HttpStep
  import opened HttpRun
  import opened HttpParser
  import opened HttpFraming

  function Concat(pieces: seq<seq<byte>>): seq<byte> {
    if pieces == [] then [] else Concat(pieces[..|pieces| - 1]) + pieces[|pieces| - 1]
  }

  lemma {:induction false} ConcatPrefix(pieces: seq<seq<byte>>, i: nat)
    requires i <= |pieces|
    ensures Concat(pieces[..i]) <= Concat(pieces)
    decreases |pieces|
  {
    if i == |pieces| {
      assert pieces[..i] == pieces;
    } else {
      var init := pieces[..|pieces| - 1];
      assert init[..i] == pieces[..i];
      ConcatPrefix(init, i);
    }
  }

  /** A run from a parser that has consumed other bytes before, with a count up to `e` too high. */
  predicate Alongside(a: Progress, b: Progress, shift: int, e: nat) {
    && a.q == b.q && a.log == b.log && a.how == b.how && a.n + shift == b.n
    && b.nread <= a.nread <= b.nread + e && a.peak <= b.peak + e
  }

  lemma {:induction false} RunAlongside(a: Progress, b: Progress, data: seq<byte>, p: nat, m: Machine, shift: int,
                                        e: nat)
    requires Steps(m) && p <= |data| && Alongside(a, b, shift, e)
    ensures Alongside(RunTo(a, data, p, m), RunTo(b, data, p, m), shift, e)
  {
    if p > 0 {
      RunAlongside(a, b, data, p - 1, m, shift, e);
      assert Watch(RunTo(a, data, p - 1, m), data[p - 1]);
      assert Watch(RunTo(b, data, p - 1, m), data[p - 1]);
    }
  }

  /** The run over a piece as part of the run over everything. */
  lemma RunPiece(s: Progress, before: seq<byte>, piece: seq<byte>, data: seq<byte>, m: Machine)
    requires Steps(m) && before + piece <= data
    ensures Run(s, before + piece, m) == Run(Run(s, before, m), piece, m)
    ensures Run(s, before + piece, m).peak <= Run(s, data, m).peak
    ensures Run(s, before + piece, m).how != Go ==> Run(s, data, m) == Run(s, before + piece, m)
  {
    RunConcat(s, before, piece, m);
    var k := |before + piece|;
    assert data == (before + piece) + data[k..];
    RunToPrefix(s, before + piece, data[k..], k, m);
    PeakGrows(s, data, k, |data|, m);
    if Run(s, before + piece, m).how != Go {
      RunStuck(s, data, k, |data|, m);
    }
  }

  /** An illegal byte jumped over in a piece is jumped over in the whole. */
  lemma SkipsInWhole(s: Progress, before: seq<byte>, piece: seq<byte>, data: seq<byte>, m: Machine, a: Progress,
                     shift: int, e: nat)
    requires Steps(m) && before + piece <= data && s.how == Go && Run(s, before, m).how == Go
    requires Alongside(a, Run(s, before, m), shift, e) && SkipsBadByte(a, piece, m)
    ensures SkipsBadByte(s, data, m)
  {
    var b := Run(s, before, m);
    var k := Run(a, piece, m).n - a.n;
    RunAlongside(a, b, piece, |piece|, m, shift, e);
    RunAlongside(a, b, piece, k, m, shift, e);
    RunAlongside(a, b, piece, k - 1, m, shift, e);
    RunPiece(s, before, piece, data, m);
    RunConsumes(s, before, |before|, m);
    var rest := data[|before + piece|..];
    assert data == (before + piece) + rest;
    RunToConcat(s, before, piece, k, m);
    RunToConcat(s, before, piece, k - 1, m);
    RunToPrefix(s, before + piece, rest, |before| + k, m);
    RunToPrefix(s, before + piece, rest, |before| + k - 1, m);
    assert data[|before| + k] == piece[k];
  }

  // ---- counting over several pieces --------------------------------------------------------

  /** The start of another call. */
  function Again(a: Progress): Progress {
    Progress(a.q, a.log, 0, Go, a.nread, 0)
  }

  /** A parser that is fed pieces, as it counts: bytewise, but once more at every end of a piece that cuts a header
      name or value. */
  function Fed(s: Progress, pieces: seq<seq<byte>>, m: Machine): Progress {
    if pieces == [] then s
    else
      var a, piece := Fed(s, pieces[..|pieces| - 1], m), pieces[|pieces| - 1];
      if a.how != Go then a
      else
        var r := Run(Again(a), piece, m);
        if CutsHeader(Again(a), piece, m) then r.(nread := r.nread + 1) else r
  }

  /** The header limit is exceeded in some piece. */
  predicate Overflows(s: Progress, pieces: seq<seq<byte>>, m: Machine) {
    exists i :: 0 <= i < |pieces| && OverflowsAt(s, pieces, i, m)
  }

  predicate OverflowsAt(s: Progress, pieces: seq<seq<byte>>, i: nat, m: Machine)
    requires i < |pieces|
  {
    Fed(s, pieces[..i], m).how == Go && OverLimit(Again(Fed(s, pieces[..i], m)), pieces[i], m)
  }

  /** How many of the pieces cut a header name or value at their end. */
  function Cuts(s: Progress, pieces: seq<seq<byte>>, m: Machine): nat {
    if pieces == [] then 0
    else Cuts(s, pieces[..|pieces| - 1], m) + if CutsHeader(s, Concat(pieces), m) then 1 else 0
  }

  /** Whether a piece cuts a header name or value does not depend on the pieces before it. */
  lemma CutsInWhole(s: Progress, before: seq<byte>, piece: seq<byte>, m: Machine, a: Progress, shift: int, e: nat)
    requires Steps(m) && piece != [] && Alongside(a, Run(s, before, m), shift, e)
    ensures CutsHeader(a, piece, m) <==> CutsHeader(s, before + piece, m)
  {
    RunToConcat(s, before, piece, |piece|, m);
    RunToConcat(s, before, piece, |piece| - 1, m);
    RunAlongside(a, Run(s, before, m), piece, |piece|, m, shift, e);
    RunAlongside(a, Run(s, before, m), piece, |piece| - 1, m, shift, e);
  }

  lemma ConcatLast(pieces: seq<seq<byte>>)
    requires pieces != []
    ensures Concat(pieces) == Concat(pieces[..|pieces| - 1]) + pieces[|pieces| - 1]
  {}

  /** Fed in pieces or at once, the parser is in the same place and has made the same callbacks; the pieces that cut
      a header name or value have each added at most one to the count. */
  lemma {:induction false} FedAlongside(s: Progress, pieces: seq<seq<byte>>, m: Machine)
    requires Steps(m) && s.how == Go && s.n == 0 && s.peak == 0
    requires forall i :: 0 <= i < |pieces| ==> pieces[i] != []
    ensures var a, b := Fed(s, pieces, m), Run(s, Concat(pieces), m);
      && a.q == b.q && a.log == b.log && a.how == b.how
      && (b.how == Go ==> b.nread <= a.nread <= b.nread + Cuts(s, pieces, m))
  {
    hide CutsHeader;
    if pieces != [] {
      var init, piece := pieces[..|pieces| - 1], pieces[|pieces| - 1];
      FedAlongside(s, init, m);
      ConcatLast(pieces);
      var a, b := Fed(s, init, m), Run(s, Concat(init), m);
      RunPiece(s, Concat(init), piece, Concat(pieces), m);
      if a.how == Go {
        RunAlongside(Again(a), b, piece, |piece|, m, b.n, Cuts(s, init, m));
        CutsInWhole(s, Concat(init), piece, m, Again(a), b.n, Cuts(s, init, m));
      } else {
        RunStuck(b, piece, 0, |piece|, m);
      }
    }
  }

  /** The count after a byte is covered by the peak. */
  lemma NreadWithin(s: Progress, data: seq<byte>, m: Machine)
    requires Steps(m) && data != [] && Run(s, data, m).how == Go
    ensures Run(s, data, m).nread <= Run(s, data, m).peak
  {
    assert Watch(RunTo(s, data, |data| - 1, m), data[|data| - 1]);
  }

  lemma {:induction false} CutsGrow(s: Progress, pieces: seq<seq<byte>>, i: nat, m: Machine)
    requires i <= |pieces|
    ensures Cuts(s, pieces[..i], m) <= Cuts(s, pieces, m)
  {
    if i == |pieces| {
      assert pieces[..i] == pieces;
    } else {
      var init := pieces[..|pieces| - 1];
      assert init[..i] == pieces[..i];
      CutsGrow(s, init, i, m);
    }
  }

  /** Only the pieces that cut a header name or value bring the limit nearer, each by one byte. */
  lemma FarFromLimit(s: Progress, pieces: seq<seq<byte>>, m: Machine)
    requires Steps(m) && s.how == Go && s.n == 0 && s.peak == 0
    requires forall i :: 0 <= i < |pieces| ==> pieces[i] != []
    requires Run(s, Concat(pieces), m).peak + Cuts(s, pieces, m) <= HTTP_MAX_HEADER_SIZE
    ensures !Overflows(s, pieces, m)
  {
    forall i | 0 <= i < |pieces|
      ensures !OverflowsAt(s, pieces, i, m)
    {
      FarAt(s, pieces, i, m);
    }
  }

  lemma FarAt(s: Progress, pieces: seq<seq<byte>>, i: nat, m: Machine)
    requires Steps(m) && s.how == Go && s.n == 0 && s.peak == 0 && i < |pieces|
    requires forall i :: 0 <= i < |pieces| ==> pieces[i] != []
    requires Run(s, Concat(pieces), m).peak + Cuts(s, pieces, m) <= HTTP_MAX_HEADER_SIZE
    ensures !OverflowsAt(s, pieces, i, m)
  {
    hide CutsHeader;
    var init, piece := pieces[..i], pieces[i];
    var more := pieces[..i + 1];
    assert more[..i] == init && more[i] == piece;
    FedAlongside(s, init, m);
    ConcatLast(more);
    ConcatPrefix(pieces, i + 1);
    CutsGrow(s, pieces, i + 1, m);
    var a, b := Again(Fed(s, init, m)), Run(s, Concat(init), m);
    var e := Cuts(s, init, m);
    if b.how == Go {
      RunPiece(s, Concat(init), piece, Concat(pieces), m);
      RunAlongside(a, b, piece, |piece|, m, b.n, e);
      CutsInWhole(s, Concat(init), piece, m, a, b.n, e);
      LowPeak(a, piece, m);
    }
  }

  lemma LowPeak(a: Progress, piece: seq<byte>, m: Machine)
    requires Steps(m) && a.how == Go && piece != [] && Run(a, piece, m).peak <= HTTP_MAX_HEADER_SIZE
    requires CutsHeader(a, piece, m) ==> Run(a, piece, m).peak + 1 <= HTTP_MAX_HEADER_SIZE
    ensures !OverLimit(a, piece, m)
  {
    var r := Run(a, piece, m);
    if FailsInValue(a, piece, m) {
      PeakGrows(a, piece, RunStart(a, piece, r.n - a.n, m) + 1, |piece|, m);
    } else if CutsHeader(a, piece, m) {
      NreadWithin(a, piece, m);
    }
  }

  // ---- feeding -----------------------------------------------------------------------------

  /** The parser is where the bytewise run over `data` ends, having made its callbacks but for `lost`. */
  ghost predicate AsBytewise(parser: Parser, s: Progress, data: seq<byte>, consumed: nat, lost: seq<Event>)
    reads parser
  {
    var r := Run(s, data, parser.m);
    && consumed + s.n == r.n && (r.how == Fail <==> parser.f.errno != OK)
    && AddAll(Joined(parser.trace), lost) == r.log
    && (if r.how == Fail then SameUpToHeaderState(parser.f, r.q) else parser.f == r.q && lost == [])
  }

  /** Feeds pieces until one is not consumed to its end, as a reader of a socket does. If the bytes as a whole hold
      no illegal one that is jumped over, the outcome depends on the bytes alone, unless the header limit is
      exceeded; whether it is, depends on the cuts as `Overflows` says. */
  method Feed(parser: Parser, pieces: seq<seq<byte>>) returns (consumed: nat, ghost lost: seq<Event>)
    requires parser.Valid() && parser.Counting() && parser.f.errno == OK
    requires forall i :: 0 <= i < |pieces| ==> pieces[i] != []
    requires !SkipsBadByte(parser.Start(), Concat(pieces), parser.m)
    requires Run(parser.Start(), Concat(pieces), parser.m).how != Exit
    modifies parser
    ensures parser.Counting()
    ensures
      if Overflows(old(parser.Start()), pieces, parser.m) then parser.f.errno == HEADER_OVERFLOW
      else parser.f.errno != HEADER_OVERFLOW && AsBytewise(parser, old(parser.Start()), Concat(pieces), consumed, lost)
  {
    hide SkipsBadByte, OverLimit, RunTo, CutsHeader, SameUpToHeaderState;
    ghost var s, data := parser.Start(), Concat(pieces);
    NothingFed(s, pieces, parser.m);
    var i, going := 0, true;
    consumed, lost := 0, [];
    while i < |pieces| && going
      invariant i <= |pieces| && parser.Valid() && parser.Counting()
      invariant going ==> parser.f.errno == OK && lost == []
      invariant going ==> var a := Fed(s, pieces[..i], parser.m);
        && a.how == Go && parser.Start() == Again(a) && consumed == Run(s, Concat(pieces[..i]), parser.m).n
      invariant going || parser.f.errno != HEADER_OVERFLOW ==> forall k :: 0 <= k < i ==>
        !OverflowsAt(s, pieces, k, parser.m)
      invariant !going ==>
        if parser.f.errno == HEADER_OVERFLOW then Overflows(s, pieces, parser.m)
        else AsBytewise(parser, s, data, consumed, lost) && Fed(s, pieces[..i], parser.m).how == Fail
      decreases |pieces| - i
    {
      ghost var a := Fed(s, pieces[..i], parser.m);
      assert pieces[..i + 1][..i] == pieces[..i];
      going, consumed, lost := FeedOne(parser, pieces, i, s, consumed);
      i := i + 1;
    }
    assert pieces[..|pieces|] == pieces;
    FedAlongside(s, pieces, parser.m);
    if !going && parser.f.errno != HEADER_OVERFLOW {
      forall k | i <= k < |pieces|
        ensures !OverflowsAt(s, pieces, k, parser.m)
      {
        FedStays(s, pieces, i, k, parser.m);
      }
    }
  }

  lemma NothingFed(s: Progress, pieces: seq<seq<byte>>, m: Machine)
    ensures Fed(s, pieces[..0], m) == s && Run(s, Concat(pieces[..0]), m) == s
  {}

  /** Nothing more is fed to a parser that has stopped. */
  lemma {:induction false} FedStays(s: Progress, pieces: seq<seq<byte>>, i: nat, k: nat, m: Machine)
    requires i <= k <= |pieces| && Fed(s, pieces[..i], m).how != Go
    ensures Fed(s, pieces[..k], m).how != Go
  {
    if i < k {
      FedStays(s, pieces, i, k - 1, m);
      assert pieces[..k][..k - 1] == pieces[..k - 1];
    }
  }

  /** One more piece; `going` says that the next one is to follow. */
  method FeedOne(parser: Parser, pieces: seq<seq<byte>>, i: nat, ghost s: Progress, consumed: nat)
    returns (going: bool, total: nat, ghost lost: seq<Event>)
    requires parser.Valid() && parser.Counting() && parser.f.errno == OK && s.how == Go && s.n == 0 && s.peak == 0
    requires i < |pieces| && forall i :: 0 <= i < |pieces| ==> pieces[i] != []
    requires var a := Fed(s, pieces[..i], parser.m);
      a.how == Go && parser.Start() == Again(a) && consumed == Run(s, Concat(pieces[..i]), parser.m).n
    requires !SkipsBadByte(s, Concat(pieces), parser.m) && Run(s, Concat(pieces), parser.m).how != Exit
    modifies parser
    ensures parser.Counting() && (going ==> parser.f.errno == OK && lost == [])
    ensures going ==> var a := Fed(s, pieces[..i + 1], parser.m);
      a.how == Go && parser.Start() == Again(a) && total == Run(s, Concat(pieces[..i + 1]), parser.m).n
    ensures OverflowsAt(s, pieces, i, parser.m) <==> parser.f.errno == HEADER_OVERFLOW
    ensures !going && parser.f.errno != HEADER_OVERFLOW ==>
      AsBytewise(parser, s, Concat(pieces), total, lost) && Fed(s, pieces[..i + 1], parser.m).how == Fail
  {
    ghost var m, a, piece := parser.m, parser.Start(), pieces[i];
    PieceFed(s, pieces, i, m);
    var n;
    n, lost := parser.Execute(pieces[i]);
    total := consumed + n;
    going := parser.f.errno == OK && n == |pieces[i]|;
    RunConsumes(a, piece, |piece|, m);
  }

  /** What feeding one more piece has to do with the run over everything. */
  lemma PieceFed(s: Progress, pieces: seq<seq<byte>>, i: nat, m: Machine)
    requires Steps(m) && s.how == Go && s.n == 0 && s.peak == 0
    requires i < |pieces| && forall i :: 0 <= i < |pieces| ==> pieces[i] != []
    requires Fed(s, pieces[..i], m).how == Go && !SkipsBadByte(s, Concat(pieces), m)
    ensures
      var a := Again(Fed(s, pieces[..i], m));
      var b := Run(s, Concat(pieces[..i]), m);
      var r, w := Run(a, pieces[i], m), Run(s, Concat(pieces[..i + 1]), m);
      && b.how == Go && !SkipsBadByte(a, pieces[i], m)
      && Fed(s, pieces[..i + 1], m) == (if CutsHeader(a, pieces[i], m) then r.(nread := r.nread + 1) else r)
      && r.q == w.q && r.log == w.log && r.how == w.how && r.n + b.n == w.n
      && (r.how != Go ==> w == Run(s, Concat(pieces), m))
  {
    hide SkipsBadByte, CutsHeader;
    var init, piece, more := pieces[..i], pieces[i], pieces[..i + 1];
    assert more[..i] == init && more[i] == piece;
    FedAlongside(s, init, m);
    ConcatLast(more);
    ConcatPrefix(pieces, i + 1);
    var a, b := Again(Fed(s, init, m)), Run(s, Concat(init), m);
    RunPiece(s, Concat(init), piece, Concat(pieces), m);
    RunAlongside(a, b, piece, |piece|, m, b.n, Cuts(s, init, m));
    if SkipsBadByte(a, piece, m) {
      SkipsInWhole(s, Concat(init), piece, Concat(pieces), m, a, b.n, Cuts(s, init, m));
    }
  }

  /** The same bytes cut in two ways leave two fresh parsers in the same state, with the same errors and
      the same callbacks once adjacent data is joined and the data lost to an error is put back. */
  method FeedTwoWays(one: Parser, two: Parser, cuts: seq<seq<byte>>, others: seq<seq<byte>>)
    returns (n: nat, k: nat, ghost lostOne: seq<Event>, ghost lostTwo: seq<Event>)
    requires one != two && one.Valid() && two.Valid() && one.m == two.m && one.Counting()
    requires one.f == two.f && one.f.errno == OK && one.nread == two.nread && one.trace == two.trace
    requires forall i :: 0 <= i < |cuts| ==> cuts[i] != []
    requires forall i :: 0 <= i < |others| ==> others[i] != []
    requires Concat(cuts) == Concat(others)
    requires !SkipsBadByte(one.Start(), Concat(cuts), one.m) && Run(one.Start(), Concat(cuts), one.m).how != Exit
    modifies one, two
    ensures one.f.errno == HEADER_OVERFLOW <==> Overflows(old(one.Start()), cuts, one.m)
    ensures two.f.errno == HEADER_OVERFLOW <==> Overflows(old(one.Start()), others, one.m)
    ensures one.f.errno != HEADER_OVERFLOW && two.f.errno != HEADER_OVERFLOW ==>
      && n == k && SameUpToHeaderState(one.f, two.f) && (one.f.errno == OK ==> one.f == two.f)
      && AddAll(Joined(one.trace), lostOne) == AddAll(Joined(two.trace), lostTwo)
      && (one.f.errno == OK ==> Joined(one.trace) == Joined(two.trace))
  {
    hide SkipsBadByte, Overflows, RunTo;
    n, lostOne := Feed(one, cuts);
    k, lostTwo := Feed(two, others);
  }

  // ---- when the cuts do make a difference --------------------------------------------------

  /** Where the whole jumps over an illegal byte, a cut right before it catches it: away from the header limit, the
      outcome is independent of the cuts exactly if nothing is jumped over. */
  method FeedWholeAndCut(one: Parser, two: Parser, data: seq<byte>, cut: nat) returns (n: nat, k: nat)
    requires one != two && one.Valid() && two.Valid() && one.m == two.m && one.Counting()
    requires one.f == two.f && one.f.errno == OK && one.nread == two.nread && one.trace == two.trace
    requires SkipsBadByte(one.Start(), data, one.m) && cut == Run(one.Start(), data, one.m).n
    requires Run(one.Start(), data, one.m).peak < HTTP_MAX_HEADER_SIZE
    modifies one, two
    ensures two.f.errno == INVALID_HEADER_TOKEN && k == cut
    ensures n <= |data| && (one.f.errno == HEADER_OVERFLOW || n > k)
  {
    hide SkipsBadByte;
    ghost var s, m := two.Start(), one.m;
    ghost var lost;
    n, lost := one.Execute(data);
    hide OverLimit, CutsHeader, LosesData, Synced;
    CutSkips(s, data, m, cut, two.cb);
    k, lost := two.Execute(data[..cut]);
    ghost var t := two.Start();
    CutFails(t, data[cut..], m, two.cb);
    var j;
    j, lost := two.Execute(data[cut..]);
    k := k + j;
  }

  /** Up to the illegal byte nothing is wrong. */
  lemma CutSkips(s: Progress, data: seq<byte>, m: Machine, cut: nat, cb: HeadersCompleteCallback)
    requires Steps(m) && Implements(m.sw, cb) && s.how == Go && s.n == 0 && s.peak == 0
    requires SkipsBadByte(s, data, m) && cut == Run(s, data, m).n && Run(s, data, m).peak < HTTP_MAX_HEADER_SIZE
    ensures 0 < cut < |data|
    ensures var r := Run(s, data[..cut], m);
      && !SkipsBadByte(s, data[..cut], m) && !OverLimit(s, data[..cut], m)
      && r.how == Go && r.n == cut && InPlainValue(r.q) && CutsHeader(s, data[..cut], m)
      && r.nread + 1 < HTTP_MAX_HEADER_SIZE && BadHeaderByte(r.q, data[cut]) && data[cut] != CR && data[cut] != LF
  {
    var before, rest := data[..cut], data[cut..];
    assert data == before + rest && |before| == cut;
    RunToPrefix(s, before, rest, cut, m);
    RunToPrefix(s, before, rest, cut - 1, m);
    FailPoint(s, data, |data|, m);
    PeakAtFailure(s, data, cut, m);
    RunConsumes(s, before, cut, m);
    hide RunTo;
    SkippedByte(s, data, cut, m, cb);
    LowPeak(s, before, m);
  }

  lemma PeakAtFailure(s: Progress, data: seq<byte>, cut: nat, m: Machine)
    requires Steps(m) && cut < |data| && RunTo(s, data, cut, m).how == Go && InPlainValue(RunTo(s, data, cut, m).q)
    ensures var r := RunTo(s, data, cut, m); r.nread + 1 <= Run(s, data, m).peak && r.peak <= Run(s, data, m).peak
  {
    assert Watch(RunTo(s, data, cut, m), data[cut]);
    PeakGrows(s, data, cut + 1, |data|, m);
  }

  lemma SkippedByte(s: Progress, data: seq<byte>, cut: nat, m: Machine, cb: HeadersCompleteCallback)
    requires Steps(m) && Implements(m.sw, cb) && cut < |data|
    requires var r := RunTo(s, data, cut, m); r.how == Go && InPlainValue(r.q)
    requires RunTo(s, data, cut + 1, m).how == Fail
    ensures BadHeaderByte(RunTo(s, data, cut, m).q, data[cut]) && data[cut] != CR && data[cut] != LF
  {
    var r := RunTo(s, data, cut, m);
    assert Watch(r, data[cut]);
    if data[cut] == CR || data[cut] == LF {
      ValueEnd(r.q, data[cut], m, cb);
    } else {
      PlainByte(r.q, data[cut], m, cb);
    }
  }

  /** A call that starts at an illegal byte of a plain value fails there. */
  lemma CutFails(t: Progress, rest: seq<byte>, m: Machine, cb: HeadersCompleteCallback)
    requires Steps(m) && Implements(m.sw, cb) && t.how == Go && t.n == 0 && t.peak == 0 && rest != []
    requires InPlainValue(t.q) && BadHeaderByte(t.q, rest[0]) && rest[0] != CR && rest[0] != LF
    requires t.nread < HTTP_MAX_HEADER_SIZE
    ensures var r := Run(t, rest, m); r.how == Fail && r.n == 0 && r.q.errno == INVALID_HEADER_TOKEN
    ensures !SkipsBadByte(t, rest, m) && !OverLimit(t, rest, m)
  {
    PlainByte(t.q, rest[0], m, cb);
    assert RunTo(t, rest, 0, m) == t;
    assert Watch(t, rest[0]);
    assert RunTo(t, rest, 1, m) == m.step(t, rest[0]);
    RunStuck(t, rest, 1, |rest|, m);
    LowPeak(t, rest, m);
  }

  /** However it is fed, the callbacks of a parser that started between messages keep their accounts. */
  lemma TraceIsFramed(parser: Parser, s: Progress, data: seq<byte>, consumed: nat, lost: seq<Event>)
    requires parser.Valid() && AsBytewise(parser, s, data, consumed, lost) && Framed(s)
    ensures !AuditLog(FRESH, Joined(parser.trace)).mode.Broken?
    ensures parser.f.errno != ASSERTION_FAILED
  {
    hide Fits, Sound, RunTo, AuditEvent;
    RunIsFramed(s, data, |data|, parser.m, parser.cb);
    AuditAddAll(FRESH, Joined(parser.trace), lost);
    if AuditLog(FRESH, Joined(parser.trace)).mode.Broken? {
      BrokenStays(AuditLog(FRESH, Joined(parser.trace)), lost);
    }
  }
}
