/** A button: the debouncer that samples its pin, and the timers that tell its presses apart. */
module Button {
  const DOUBLE_PRESS_TIME := 450
  const LONG_PRESS_TIME := 460
  const VERY_LONG_PRESS_TIME := 1500
  const HOLD_PRESS_TIME := 8000
  const DISABLE_TIME := 40
  const HELD := 15
  const WORD := 0x1_0000_0000

  // ---- Debouncing ----

  /** How many samples at the end have a level. */
  function Trailing(levels: seq<bool>, b: bool): (n: nat)
    ensures n <= |levels|
    ensures forall i :: |levels| - n <= i < |levels| ==> levels[i] == b
    ensures n < |levels| ==> levels[|levels| - n - 1] != b
  {
    if |levels| == 0 || levels[|levels| - 1] != b then 0 else 1 + Trailing(levels[..|levels| - 1], b)
  }

  /** The last `n` samples all have a level. */
  predicate Steady(levels: seq<bool>, n: nat, b: bool) {
    n <= |levels| && forall i :: |levels| - n <= i < |levels| ==> levels[i] == b
  }

  /** The level of the latest `n` equal samples in a row, or the level at the start if there were none. */
  function Settled(start: bool, n: nat, levels: seq<bool>): bool {
    if |levels| == 0 then start
    else if Steady(levels, n, levels[|levels| - 1]) then levels[|levels| - 1]
    else Settled(start, n, levels[..|levels| - 1])
  }

  /** The debounced level, and how far it is from falling or rising. */
  datatype Contact = Contact(state: bool, value: nat)

  function Touched(c: Contact, maxEval: nat, read: bool): Contact {
    if read then
      if c.state then c.(value := maxEval)
      else
        var value := if c.value < maxEval then c.value + 1 else c.value;
        Contact(value == maxEval, value)
    else if !c.state then c.(value := 0)
    else
      var value := if c.value > 0 then c.value - 1 else 0;
      Contact(value != 0, value)
  }

  function Sampled(start: bool, maxEval: nat, levels: seq<bool>): Contact {
    if |levels| == 0 then Contact(start, if start then maxEval else 0)
    else Touched(Sampled(start, maxEval, levels[..|levels| - 1]), maxEval, levels[|levels| - 1])
  }

  /** The debounced level flips exactly on the last of `maxEval` opposite samples in a row: it is always the
      level of the latest such row. */
  lemma {:induction false} Debounced(start: bool, maxEval: nat, levels: seq<bool>)
    requires maxEval > 0
    ensures var c := Sampled(start, maxEval, levels);
      && c.state == Settled(start, maxEval, levels)
      && Trailing(levels, !c.state) < maxEval
      && c.value == (if c.state then maxEval - Trailing(levels, false) else Trailing(levels, true))
  {
    if |levels| > 0 {
      var before, last := levels[..|levels| - 1], levels[|levels| - 1];
      Debounced(start, maxEval, before);
      var c := Sampled(start, maxEval, before);
      assert Trailing(levels, last) == 1 + Trailing(before, last) && Trailing(levels, !last) == 0;
      SteadyTrails(levels, maxEval, last);
      if last == c.state {
        assert Settled(start, maxEval, levels) == c.state;
      }
    }
  }

  lemma SteadyTrails(levels: seq<bool>, n: nat, b: bool)
    ensures Steady(levels, n, b) <==> n <= Trailing(levels, b)
  {
    var t := Trailing(levels, b);
    if t < n <= |levels| {
      assert levels[|levels| - t - 1] != b;
    }
  }

  // ---- What presses mean ----

  /** Which callbacks a button has, and the length of a tick in milliseconds. */
  datatype Setup = Setup(period: nat, inverted: bool, maxEval: nat, announced: bool, doubled: bool, long: bool,
    veryLong: bool, held: bool)
  {
    /** Every timer lasts at least a tick. */
    predicate Valid() {
      0 < period <= DOUBLE_PRESS_TIME && 0 < maxEval <= 255
    }

    function Ticks(ms: nat): nat
      requires Valid()
    {
      ms / period
    }
  }

  datatype Call = Announced | Single | Double | Long | VeryLong | Hold

  /** A press from its first to its last tick; `armed` unless it had begun before the button was created. */
  datatype Press = Press(down: nat, up: nat, armed: bool)

  /** The length of a press, as far as a 32-bit tick counter can tell. */
  function Length(p: Press): nat {
    (p.up - p.down) % WORD
  }

  predicate IsHeld(b: Setup, p: Press)
    requires b.Valid()
  {
    b.held && p.armed && p.up - p.down >= b.Ticks(HOLD_PRESS_TIME)
  }

  predicate IsShort(b: Setup, p: Press)
    requires b.Valid()
  {
    !IsHeld(b, p) && Length(p) <= b.Ticks(LONG_PRESS_TIME)
  }

  /** What a press that is not short stands for: the callback of its length, or of the next shorter that exists. */
  function Outcome(b: Setup, p: Press): Call
    requires b.Valid()
  {
    if IsHeld(b, p) then Hold
    else if Length(p) > b.Ticks(VERY_LONG_PRESS_TIME) && b.veryLong then VeryLong
    else if Length(p) > b.Ticks(LONG_PRESS_TIME) && b.long then Long
    else Single
  }

  /** Two presses make a double press when the second ends soon enough after the first. */
  predicate Paired(b: Setup, p: Press, q: Press)
    requires b.Valid()
  {
    b.doubled && q.up < p.up + b.Ticks(DOUBLE_PRESS_TIME)
  }

  /** The calls that presses stand for, in their order: short presses are paired from the left. */
  function Meaning(b: Setup, ps: seq<Press>): seq<Call>
    requires b.Valid()
  {
    if |ps| == 0 then []
    else if IsShort(b, ps[0]) && |ps| > 1 && Paired(b, ps[0], ps[1]) then [Double] + Meaning(b, ps[2..])
    else [Outcome(b, ps[0])] + Meaning(b, ps[1..])
  }

  /** The last press is short and not the second of a pair: a further press could still pair with it. */
  predicate Open(b: Setup, ps: seq<Press>)
    requires b.Valid()
  {
    if |ps| == 0 then false
    else if IsShort(b, ps[0]) && |ps| > 1 && Paired(b, ps[0], ps[1]) then Open(b, ps[2..])
    else if |ps| == 1 then b.doubled && IsShort(b, ps[0])
    else Open(b, ps[1..])
  }

  function Weight(calls: seq<Call>): nat {
    if |calls| == 0 then 0
    else (match calls[0] case Double => 2 case Announced => 0 case _ => 1) + Weight(calls[1..])
  }

  /** Every press is accounted for exactly once, and a double call stands for two. */
  lemma {:induction false} MeaningWeighs(b: Setup, ps: seq<Press>)
    requires b.Valid()
    ensures Weight(Meaning(b, ps)) == |ps|
  {
    if |ps| > 0 {
      var m := Meaning(b, ps);
      if IsShort(b, ps[0]) && |ps| > 1 && Paired(b, ps[0], ps[1]) {
        MeaningWeighs(b, ps[2..]);
        assert m[1..] == Meaning(b, ps[2..]);
      } else {
        MeaningWeighs(b, ps[1..]);
        assert m[1..] == Meaning(b, ps[1..]);
      }
    }
  }

  /** An open press has been taken for a single one so far. */
  lemma {:induction false} OpenIsSingle(b: Setup, ps: seq<Press>)
    requires b.Valid() && Open(b, ps)
    ensures |ps| > 0 && b.doubled && IsShort(b, ps[|ps| - 1])
    ensures |Meaning(b, ps)| > 0 && Meaning(b, ps)[|Meaning(b, ps)| - 1] == Single
  {
    hide IsShort, Paired, Outcome;
    if IsShort(b, ps[0]) && |ps| > 1 && Paired(b, ps[0], ps[1]) {
      OpenIsSingle(b, ps[2..]);
    } else if |ps| > 1 {
      OpenIsSingle(b, ps[1..]);
    } else {
      ShortIsSingle(b, ps[0]);
    }
  }

  lemma ShortIsSingle(b: Setup, p: Press)
    requires b.Valid() && IsShort(b, p)
    ensures Outcome(b, p) == Single
  {
    TimesAreOrdered(b);
  }

  lemma TimesAreOrdered(b: Setup)
    requires b.Valid()
    ensures b.Ticks(DOUBLE_PRESS_TIME) <= b.Ticks(LONG_PRESS_TIME) <= b.Ticks(VERY_LONG_PRESS_TIME)
    ensures 0 < b.Ticks(DOUBLE_PRESS_TIME) < b.Ticks(HOLD_PRESS_TIME)
  {
    QuotientGrows(DOUBLE_PRESS_TIME, LONG_PRESS_TIME, b.period);
    QuotientGrows(LONG_PRESS_TIME, VERY_LONG_PRESS_TIME, b.period);
    QuotientGrows(b.period, DOUBLE_PRESS_TIME, b.period);
    QuotientGrows(DOUBLE_PRESS_TIME + b.period, HOLD_PRESS_TIME, b.period);
    assert (DOUBLE_PRESS_TIME + b.period) / b.period == DOUBLE_PRESS_TIME / b.period + 1;
  }

  lemma QuotientGrows(m: nat, n: nat, d: nat)
    requires m <= n && d > 0
    ensures m / d <= n / d
  {
    ProductGrows(n / d + 1, m / d, d);
  }

  lemma ProductGrows(a: nat, b: nat, d: nat)
    ensures a <= b ==> a * d <= b * d
  {}

  /** One more press: it makes a double call of an open press that it pairs with, and adds its own call else. */
  lemma {:induction false} OneMorePress(b: Setup, ps: seq<Press>, q: Press)
    requires b.Valid()
    ensures Open(b, ps) && Paired(b, ps[|ps| - 1], q) ==>
      |Meaning(b, ps)| > 0 && !Open(b, ps + [q]) &&
      Meaning(b, ps + [q]) == Meaning(b, ps)[..|Meaning(b, ps)| - 1] + [Double]
    ensures !(Open(b, ps) && Paired(b, ps[|ps| - 1], q)) ==>
      Meaning(b, ps + [q]) == Meaning(b, ps) + [Outcome(b, q)] && (Open(b, ps + [q]) <==> b.doubled && IsShort(b, q))
  {
    hide IsShort, Outcome, Paired;
    if |ps| < 2 {
      SecondPress(b, ps, q);
    } else {
      var n := if IsShort(b, ps[0]) && Paired(b, ps[0], ps[1]) then 2 else 1;
      OneMorePress(b, ps[n..], q);
      Behind(b, ps, n);
      Behind(b, ps + [q], n);
      assert (ps + [q])[n..] == ps[n..] + [q];
      if Open(b, ps[n..]) {
        OpenIsSingle(b, ps[n..]);
      }
      FirstStays(Meaning(b, ps)[0], Meaning(b, ps[n..]), Outcome(b, q));
    }
  }

  lemma SecondPress(b: Setup, ps: seq<Press>, q: Press)
    requires b.Valid() && |ps| < 2
    ensures Open(b, ps) && Paired(b, ps[|ps| - 1], q) ==>
      |Meaning(b, ps)| > 0 && !Open(b, ps + [q]) &&
      Meaning(b, ps + [q]) == Meaning(b, ps)[..|Meaning(b, ps)| - 1] + [Double]
    ensures !(Open(b, ps) && Paired(b, ps[|ps| - 1], q)) ==>
      Meaning(b, ps + [q]) == Meaning(b, ps) + [Outcome(b, q)] && (Open(b, ps + [q]) <==> b.doubled && IsShort(b, q))
  {
    hide IsShort, Outcome;
    var all := ps + [q];
    assert Meaning(b, [q]) == [Outcome(b, q)] by { assert [q][1..] == []; }
    if |ps| == 1 {
      assert ps[1..] == [] && all[1..] == [q] && all[2..] == [];
    } else {
      assert all == [q];
    }
  }

  /** What the first press, or the first pair, leaves behind. */
  lemma Behind(b: Setup, ps: seq<Press>, n: nat)
    requires b.Valid() && |ps| > 1 && n == (if IsShort(b, ps[0]) && Paired(b, ps[0], ps[1]) then 2 else 1)
    ensures Open(b, ps) == Open(b, ps[n..])
    ensures Meaning(b, ps) == [if n == 2 then Double else Outcome(b, ps[0])] + Meaning(b, ps[n..])
  {
    hide IsShort, Outcome, Paired;
  }

  lemma FirstStays(c: Call, m: seq<Call>, d: Call)
    ensures ([c] + m) + [d] == [c] + (m + [d])
    ensures |m| > 0 ==> ([c] + m)[..|m|] + [Double] == [c] + (m[..|m| - 1] + [Double])
  {}
}
