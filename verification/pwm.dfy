/** The software PWM: a timer worker that visits the edges of all channels in order, and dithered duties. */
module Pwm {
  const MAX: nat := 65535
  const WORD: nat := 0x1_0000_0000

  // ---- Setting a duty ----

  /** A sum or difference of sixteen-bit numbers, stored in sixteen bits. */
  function Short(n: int): (s: nat)
    ensures s <= MAX && (0 <= n <= MAX ==> s == n) && (-65536 <= n < 0 ==> s == n + 65536)
  {
    n % 65536
  }

  /** Eight duties around `d`, from the highest down to the lowest and up again. */
  function Dithered(d: nat, dither: nat): (duty: seq<nat>)
    ensures |duty| == 8 && forall i :: 0 <= i < 8 ==> duty[i] <= MAX
  {
    var h := dither / 2;
    [Short(d + dither), Short(d + h), Short(d), Short(d - h), Short(d - dither), Short(d - h), Short(d), Short(d + h)]
  }

  function Sum(s: seq<nat>): nat {
    if |s| == 0 then 0 else s[0] + Sum(s[1..])
  }

  /** A product of sixteen-bit numbers, scaled back. */
  function Scaled(duty: nat, dithering: nat): nat {
    dithering * duty / MAX
  }

  lemma ScaledBound(duty: nat, dithering: nat)
    requires duty <= MAX && dithering <= MAX
    ensures Scaled(duty, dithering) <= dithering && Scaled(duty, dithering) <= duty
    ensures dithering * duty < WORD
  {
    assert dithering * duty <= dithering * MAX;
    assert dithering * duty <= MAX * duty;
  }

  /** How far the duties of the cycles go from the duty asked for. */
  function Spread(duty: nat, dithering: nat): nat
    requires duty <= MAX && dithering <= MAX
  {
    if dithering == 0 || duty == 0 || duty == MAX then 0
    else if duty >= MAX - dithering then MAX - duty
    else if duty <= dithering then 0
    else Scaled(duty, dithering)
  }

  /** The duty as a channel stores it: for the leading edge, its complement. */
  function Inner(leading: bool, duty: nat): (d: nat)
    requires duty <= MAX
    ensures d <= MAX
  {
    if leading then MAX - duty else duty
  }

  /** The one case in which a cycle's duty leaves the range: a dithering so large that it reaches from a duty
      in the lower half to the top. */
  predicate Overreaches(d: nat, dithering: nat) {
    0 < d && MAX <= d + dithering && 2 * d < MAX
  }

  lemma SumOfEight(a: nat, b: nat, c: nat, d: nat, e: nat, f: nat, g: nat, h: nat)
    ensures Sum([a, b, c, d, e, f, g, h]) == a + b + c + d + e + f + g + h
  {
    var s := [a, b, c, d, e, f, g, h];
    assert s[1..] == [b, c, d, e, f, g, h] && s[1..][1..] == [c, d, e, f, g, h];
    assert Sum([h]) == h by { assert [h][1..] == []; }
    assert Sum([g, h]) == g + h by { assert [g, h][1..] == [h]; }
    assert Sum([e, f, g, h]) == e + f + g + h by { assert [e, f, g, h][1..] == [f, g, h] && [f, g, h][1..] == [g, h]; }
    assert Sum([c, d, e, f, g, h]) == c + d + e + f + g + h by {
      assert [c, d, e, f, g, h][1..] == [d, e, f, g, h] && [d, e, f, g, h][1..] == [e, f, g, h];
    }
  }

  /** Within reach, no duty leaves the range; that is always so for a dithering in the lower half. */
  lemma SpreadFits(d: nat, dithering: nat)
    requires d <= MAX && dithering <= MAX
    ensures d + Spread(d, dithering) <= MAX
    ensures Spread(d, dithering) <= d <==> !Overreaches(d, dithering)
    ensures dithering <= 32767 ==> !Overreaches(d, dithering)
  {
    hide Scaled;
    ScaledBound(d, dithering);
  }

  /** Dithering neither adds nor takes away: the duties of eight cycles sum to eight times the duty asked for,
      exactly unless it overreaches. */
  lemma DutyConserved(d: nat, dithering: nat)
    requires d <= MAX && dithering <= MAX
    ensures Sum(Dithered(d, Spread(d, dithering))) == 8 * d <==> !Overreaches(d, dithering)
  {
    hide Spread, Overreaches;
    var x := Spread(d, dithering);
    var h := x / 2;
    SpreadFits(d, dithering);
    SumOfEight(Short(d + x), Short(d + h), Short(d), Short(d - h), Short(d - x), Short(d - h), Short(d), Short(d + h));
  }

  /** A duty of 1 dithered by 65534 leaves the range, and the eight duties do not sum to eight. */
  lemma OneOverreaches()
    ensures Overreaches(1, 65534) && Sum(Dithered(1, Spread(1, 65534))) != 8
  {
    DutyConserved(1, 65534);
  }

  /** `x` is as far as the duties go from `d`: to the top where the dithering reaches it, nowhere where it reaches
      below 0, and otherwise the share of the dithering that `d` is of a full duty. */
  ghost predicate Reach(d: nat, dithering: nat, x: nat) {
    if d == 0 || d == MAX then x == 0
    else if MAX <= d + dithering then x == MAX - d
    else if d <= dithering then x == 0
    else MAX * x <= dithering * d < MAX * (x + 1)
  }

  /** The duties of the eight cycles: as far above `d` as below, falling from the first to the fifth by way of half as
      far, and rising again in the same steps. */
  ghost predicate Profile(s: seq<int>, d: nat, x: nat) {
    && |s| == 8 && s[0] - d == d - s[4] == x && s[1] - d == d - s[3] == x / 2 && s[2] == d
    && forall i :: 0 < i < 4 ==> s[8 - i] == s[i]
  }

  /** What a channel stores for a duty: those duties, but for an overreaching dithering those below 0 are 65536 too
      high. */
  ghost predicate Stored(s: seq<nat>, d: nat, dithering: nat) {
    && |s| == 8 && s[0] >= d && Reach(d, dithering, s[0] - d)
    && exists p: seq<int> :: Profile(p, d, s[0] - d) && Wrapped(s, p, Overreaches(d, dithering))
  }

  ghost predicate Wrapped(s: seq<nat>, p: seq<int>, below: bool) {
    && |s| == |p| && (below <==> exists i :: 0 <= i < |p| && p[i] < 0)
    && forall i :: 0 <= i < |p| ==> s[i] == if p[i] < 0 then p[i] + 65536 else p[i]
  }

  lemma SpreadReaches(d: nat, dithering: nat)
    requires d <= MAX && dithering <= MAX
    ensures Reach(d, dithering, Spread(d, dithering))
  {
    var n := dithering * d;
    assert Scaled(d, dithering) == n / MAX;
    assert MAX * (n / MAX) <= n < MAX * (n / MAX + 1);
  }

  lemma DitheredIsStored(d: nat, dithering: nat)
    requires d <= MAX && dithering <= MAX
    ensures Stored(Dithered(d, Spread(d, dithering)), d, dithering)
  {
    hide Spread, Overreaches, Reach;
    SpreadFits(d, dithering);
    SpreadReaches(d, dithering);
    var x := Spread(d, dithering);
    var s, h := Dithered(d, x), x / 2;
    var p: seq<int> := [d + x, d + h, d, d - h, d - x, d - h, d, d + h];
    assert Profile(p, d, s[0] - d);
    assert x > d ==> p[4] < 0;
    assert Wrapped(s, p, Overreaches(d, dithering));
  }

  /** All eight duties are the one asked for exactly if the dithering is too small to show, or would reach below 0 and
      does not reach the top. */
  lemma UnditheredIff(s: seq<nat>, d: nat, dithering: nat)
    requires d <= MAX && dithering <= MAX && Stored(s, d, dithering)
    ensures (forall i :: 0 <= i < 8 ==> s[i] == d)
      <==> d == 0 || d == MAX || (d + dithering < MAX && (d <= dithering || dithering * d < MAX))
  {
    var p: seq<int> :| Profile(p, d, s[0] - d) && Wrapped(s, p, Overreaches(d, dithering));
    assert s[0] == d ==> forall i :: 0 <= i < 8 ==> s[i] == d;
  }

  /** Within reach the duties of the first five cycles fall, and those of the others rise again. */
  lemma DutiesFall(s: seq<nat>, d: nat, dithering: nat)
    requires d <= MAX && dithering <= MAX && Stored(s, d, dithering) && !Overreaches(d, dithering)
    ensures s[0] >= s[1] >= s[2] >= s[3] >= s[4] && s[4] <= s[5] <= s[6] <= s[7] <= s[0]
    ensures s[0] - d <= dithering
  {
    var p: seq<int> :| Profile(p, d, s[0] - d) && Wrapped(s, p, false);
    assert s[5] == s[3] && s[6] == s[2] && s[7] == s[1] by {
      assert p[8 - 3] == p[3] && p[8 - 2] == p[2] && p[8 - 1] == p[1];
    }
    ScaledBound(d, dithering);
  }

  /** There is one way to store a duty. */
  lemma StoredOnce(s: seq<nat>, t: seq<nat>, d: nat, dithering: nat)
    requires d <= MAX && dithering <= MAX && Stored(s, d, dithering) && Stored(t, d, dithering)
    ensures s == t
  {
    var x, y := s[0] - d, t[0] - d;
    ReachOnce(d, dithering, x, y);
    hide Reach, Overreaches;
    var p: seq<int> :| Profile(p, d, x) && Wrapped(s, p, Overreaches(d, dithering));
    var q: seq<int> :| Profile(q, d, x) && Wrapped(t, q, Overreaches(d, dithering));
    ProfileOnce(p, q, d, x);
  }

  lemma ReachOnce(d: nat, dithering: nat, x: nat, y: nat)
    requires Reach(d, dithering, x) && Reach(d, dithering, y)
    ensures x == y
  {
    var n := dithering * d;
    assert MAX * x <= n < MAX * x + MAX && MAX * y <= n < MAX * y + MAX ==> x == y;
  }

  lemma ProfileOnce(p: seq<int>, q: seq<int>, d: nat, x: nat)
    requires Profile(p, d, x) && Profile(q, d, x)
    ensures p == q
  {
    assert p[8 - 1] == q[8 - 1] && p[8 - 2] == q[8 - 2] && p[8 - 3] == q[8 - 3];
    assert forall i :: 0 <= i < 8 ==> p[i] == q[i];
  }

  lemma ShortItself(d: nat)
    requires d <= MAX
    ensures Short(d) == d
  {}

  // ---- The worker ----

  /** A channel's duties for the eight cycles. */
  datatype Channel = Channel(gpio: nat, inverted: bool, leading: bool, dithering: nat, duty: seq<nat>)

  predicate Ready(ch: Channel) {
    |ch.duty| == 8 && ch.dithering <= MAX && forall i :: 0 <= i < 8 ==> ch.duty[i] <= MAX
  }

  /** The duties of all channels in a cycle. */
  function Duties(channels: seq<Channel>, cycle: nat): (d: seq<nat>)
    requires cycle < 8 && forall i :: 0 <= i < |channels| ==> Ready(channels[i])
    ensures |d| == |channels|
    ensures forall i :: 0 <= i < |channels| ==> Ready(channels[i]) && d[i] == channels[i].duty[cycle] <= MAX
  {
    seq(|channels|, i requires 0 <= i < |channels| => assert Ready(channels[i]); channels[i].duty[cycle])
  }

  /** `n` is the next edge after a position, or the end of the period. */
  ghost predicate IsNext(duties: seq<nat>, c: nat, n: nat) {
    c < n <= MAX && (n < MAX ==> n in duties) && forall i :: 0 <= i < |duties| ==> duties[i] <= c || n <= duties[i]
  }

  /** The positions of a period: from 0 up, and exactly the duties that are neither 0 nor full. */
  ghost predicate Edges(positions: seq<nat>, duties: seq<nat>) {
    Edged(positions, duties, MAX)
  }

  /** The same, as far as a position. */
  ghost predicate Edged(positions: seq<nat>, duties: seq<nat>, c: nat) {
    && (forall i, j :: 0 <= i < j < |positions| ==> positions[i] < positions[j])
    && (forall i :: 0 <= i < |positions| ==> positions[i] < c && (positions[i] == 0 || positions[i] in duties))
    && (c > 0 ==> 0 in positions)
    && forall i :: 0 <= i < |duties| && 0 < duties[i] < c ==> duties[i] in positions
  }

  /** The timer ticks of the interval from one position to the next, in unsigned 32-bit arithmetic. */
  function Load(from: nat, to: nat, maxLoad: nat): (t: nat)
    requires from <= to
    ensures t >= 1
  {
    var t := (to - from) * maxLoad % WORD / MAX;
    if t == 0 then 1 else t
  }

  /** So many ticks are a share, up to one tick for each interval. */
  ghost predicate Near(ticks: nat, share: int, n: nat) {
    MAX * ticks <= share + MAX * n && share <= MAX * ticks + MAX * n
  }

  /** The product for an interval does not fit in 32 bits. */
  predicate Wraps(from: int, to: int, maxLoad: nat) {
    (to - from) * maxLoad >= WORD
  }

  /** An interval's ticks are off by at most one from its share exactly if its product does not wrap. */
  lemma LoadNear(from: nat, to: nat, maxLoad: nat)
    requires from <= to <= MAX
    ensures Near(Load(from, to, maxLoad), (to - from) * maxLoad, 1) <==> !Wraps(from, to, maxLoad)
  {
    Grows(0, to - from, maxLoad);
    NearOfShare((to - from) * maxLoad);
  }

  lemma NearOfShare(x: nat)
    ensures
      var t := if x % WORD / MAX == 0 then 1 else x % WORD / MAX;
      Near(t, x, 1) <==> x < WORD
  {
    var y := x % WORD;
    assert MAX * (y / MAX) <= y < MAX * (y / MAX) + MAX;
    assert x >= WORD ==> y <= x - WORD;
  }

  lemma {:induction false} Grows(a: nat, b: nat, c: nat)
    requires a <= b
    ensures 0 <= a * c <= b * c
  {
    if c > 0 {
      Grows(a, b, c - 1);
    }
  }

  /** Where the interval from a position ends. */
  function Following(positions: seq<nat>, i: nat, end: nat): nat {
    if i + 1 < |positions| then positions[i + 1] else end
  }

  /** No interval between these positions, up to the end, wraps. */
  ghost predicate NoneWraps(positions: seq<nat>, end: nat, maxLoad: nat) {
    forall i :: 0 <= i < |positions| ==> !Wraps(positions[i], Following(positions, i, end), maxLoad)
  }

  lemma OneMoreWraps(positions: seq<nat>, c: nat, next: nat, maxLoad: nat)
    requires NoneWraps(positions + [c], next, maxLoad)
    ensures NoneWraps(positions, c, maxLoad) && !Wraps(c, next, maxLoad)
  {
    hide Wraps;
    var p, n := positions + [c], |positions|;
    assert p[n] == c && Following(p, n, next) == next;
    forall i | 0 <= i < n
      ensures !Wraps(positions[i], Following(positions, i, c), maxLoad)
    {
      assert p[i] == positions[i] && Following(p, i, next) == Following(positions, i, c);
    }
  }

  /** Nothing wraps if a whole period would not. */
  lemma WholeFits(positions: seq<nat>, end: nat, maxLoad: nat)
    requires MAX * maxLoad < WORD && end <= MAX && forall i :: 0 <= i < |positions| ==> positions[i] <= MAX
    ensures NoneWraps(positions, end, maxLoad)
  {
    forall i | 0 <= i < |positions|
      ensures !Wraps(positions[i], Following(positions, i, end), maxLoad)
    {
      OneFits(positions[i], Following(positions, i, end), maxLoad);
    }
  }

  lemma OneFits(from: nat, to: nat, maxLoad: nat)
    requires MAX * maxLoad < WORD && from <= MAX && to <= MAX
    ensures !Wraps(from, to, maxLoad)
  {
    if to >= from {
      Grows(to - from, MAX, maxLoad);
    } else {
      Grows(0, from - to, maxLoad);
      assert (to - from) * maxLoad == -((from - to) * maxLoad);
    }
  }

  /** At 100 Hz on an ESP32, whose timer counts 80000 to a period, a period with a single edge near its end wraps. */
  lemma HundredHertzWraps()
    ensures Wraps(0, 60000, 80000) && Load(0, 60000, 80000) == 7706 && 60000 * 80000 / MAX == 73243
  {}

  function LightsOf(channels: seq<Channel>, pins: map<nat, bool>): (l: seq<bool>)
    requires forall i :: 0 <= i < |channels| ==> channels[i].gpio in pins
    ensures |l| == |channels|
    ensures forall i :: 0 <= i < |l| ==> l[i] == (pins[channels[i].gpio] != channels[i].inverted)
  {
    seq(|channels|, i requires 0 <= i < |channels| => pins[channels[i].gpio] != channels[i].inverted)
  }

  class Driver {
    var channels: seq<Channel>
    var pins: map<nat, bool>
    var currentDuty: nat
    var cycle: nat
    var maxLoad: nat
    var load: nat

    predicate Valid()
      reads this
    {
      && cycle < 8 && currentDuty < MAX
      && (forall i :: 0 <= i < |channels| ==> Ready(channels[i]) && channels[i].gpio in pins)
      && forall i, j :: 0 <= i < j < |channels| ==> channels[i].gpio != channels[j].gpio
    }

    /** The channel's pin is at its active level. */
    predicate Lit(i: nat)
      requires Valid() && i < |channels|
      reads this
    {
      pins[channels[i].gpio] != channels[i].inverted
    }

    function Now(): seq<nat>
      requires Valid()
      reads this
    {
      Duties(channels, cycle)
    }

    /** At a position other than 0, the channels whose duty was not reached are still on. */
    predicate InStep()
      requires Valid()
      reads this
    {
      currentDuty > 0 ==> forall i :: 0 <= i < |channels| && Now()[i] >= currentDuty ==> Lit(i)
    }

    constructor (maxLoad: nat)
      ensures Valid() && InStep() && channels == [] && currentDuty == 0 && cycle == 0 && this.maxLoad == maxLoad
    {
      channels, pins, currentDuty, cycle, load := [], map[], 0, 0, 1;
      this.maxLoad := maxLoad;
    }

    /** Stores a duty in the channel of a pin, if there is one. */
    method SetDuty(gpio: nat, duty: nat)
      requires Valid() && duty <= MAX
      modifies `channels
      ensures Valid() && |channels| == old(|channels|)
      ensures forall i :: 0 <= i < |channels| ==>
        var ch := old(channels)[i];
        channels[i] ==
          if ch.gpio == gpio then
            ch.(duty := Dithered(Inner(ch.leading, duty), Spread(Inner(ch.leading, duty), ch.dithering)))
          else ch
      ensures forall i :: 0 <= i < |channels| && old(channels)[i].gpio == gpio ==>
        Stored(channels[i].duty, Inner(channels[i].leading, duty), channels[i].dithering)
    {
      hide Stored, Dithered, Spread, Inner;
      var k := 0;
      while k < |channels| && channels[k].gpio != gpio
        invariant k <= |channels| && forall i :: 0 <= i < k ==> channels[i].gpio != gpio
      {
        k := k + 1;
      }
      if k < |channels| {
        var ch := channels[k];
        var stored := FillDuty(Inner(ch.leading, duty), ch.dithering);
        channels := channels[k := ch.(duty := stored)];
      }
    }

    method FillDuty(d: nat, dithering: nat) returns (duty: seq<nat>)
      requires d <= MAX && dithering <= MAX
      ensures duty == Dithered(d, Spread(d, dithering)) && Stored(duty, d, dithering)
    {
      DitheredIsStored(d, dithering);
      hide Stored, Reach;
      hide Short, Scaled;
      ShortItself(d);
      if dithering == 0 || d == 0 || d == MAX {
        duty := seq(8, _ => d);
        return;
      }
      var x := dithering;
      if d >= MAX - x {
        x := MAX - d;
      } else if d <= x {
        x := 0;
      } else {
        x := Scaled(d, x);
      }
      duty := Mirror([Short(d + x), Short(d + x / 2), d, Short(d - x / 2), Short(d - x)]);
    }

    /** The last three duties are those of the way down, in reverse. */
    method Mirror(down: seq<nat>) returns (duty: seq<nat>)
      requires |down| == 5
      ensures duty == down + [down[3], down[2], down[1]]
    {
      duty := down;
      for i := 5 to 8
        invariant duty == (down + [down[3], down[2], down[1]])[..i]
      {
        duty := duty + [duty[8 - i]];
      }
    }

    /** Writes a channel's pin; no other channel has it. */
    method WritePin(i: nat, level: bool)
      requires Valid() && i < |channels|
      modifies `pins
      ensures Valid()
      ensures forall j :: 0 <= j < |channels| ==>
        Lit(j) == if j == i then level != channels[i].inverted else old(Lit(j))
    {
      pins := pins[channels[i].gpio := level];
    }

    /** One call of the worker, at an edge: channels whose duty is reached go off, at the start of a period
        the others go on, and the timer is loaded up to the next edge. */
    method Worker()
      requires Valid() && InStep()
      modifies `pins, `currentDuty, `cycle, `load
      ensures Valid() && InStep()
      ensures cycle == if old(currentDuty) == 0 then (old(cycle) + 1) % 8 else old(cycle)
      ensures forall i :: 0 <= i < |channels| ==> (Lit(i) <==> Now()[i] > old(currentDuty))
      ensures IsNext(Now(), old(currentDuty), if currentDuty == 0 then MAX else currentDuty)
      ensures load == Load(old(currentDuty), if currentDuty == 0 then MAX else currentDuty, maxLoad)
    {
      if currentDuty == 0 {
        cycle := (cycle + 1) % 8;
        SwitchOn();
      }
      var nextDuty := SwitchOff();
      load := Load(currentDuty, nextDuty, maxLoad);
      if nextDuty == MAX {
        currentDuty := 0;
      } else {
        currentDuty := nextDuty;
      }
    }

    /** The first loop: at the start of a period. */
    method SwitchOn()
      requires Valid()
      modifies `pins
      ensures Valid() && forall i :: 0 <= i < |channels| ==> (Lit(i) <==> Now()[i] > 0)
    {
      for i := 0 to |channels|
        invariant Valid() && forall j :: 0 <= j < i ==> (Lit(j) <==> Now()[j] > 0)
      {
        var ch := channels[i];
        assert Now()[i] == ch.duty[cycle];
        if ch.duty[cycle] == 0 {
          WritePin(i, ch.inverted);
        } else {
          WritePin(i, !ch.inverted);
        }
      }
    }

    /** The second loop: what is due goes off, and the nearest edge beyond is found. */
    method SwitchOff() returns (nextDuty: nat)
      requires Valid()
      requires forall i :: 0 <= i < |channels| && Now()[i] > currentDuty ==> Lit(i)
      modifies `pins
      ensures Valid() && IsNext(Now(), currentDuty, nextDuty)
      ensures forall i :: 0 <= i < |channels| ==> (Lit(i) <==> Now()[i] > currentDuty)
    {
      nextDuty := MAX;
      for i := 0 to |channels|
        invariant Valid()
        invariant forall j :: 0 <= j < i ==> (Lit(j) <==> Now()[j] > currentDuty)
        invariant forall j :: i <= j < |channels| && Now()[j] > currentDuty ==> Lit(j)
        invariant currentDuty < nextDuty <= MAX && (nextDuty < MAX ==> nextDuty in Now())
        invariant forall j :: 0 <= j < i ==> Now()[j] <= currentDuty || nextDuty <= Now()[j]
      {
        var ch := channels[i];
        assert Now()[i] == ch.duty[cycle];
        if ch.duty[cycle] <= currentDuty {
          WritePin(i, ch.inverted);
        } else if ch.duty[cycle] > currentDuty && ch.duty[cycle] < nextDuty {
          nextDuty := ch.duty[cycle];
        }
      }
    }

    /** Which channels are on. */
    function Lights(): (l: seq<bool>)
      requires Valid()
      reads this
      ensures |l| == |channels| && forall i :: 0 <= i < |l| ==> l[i] == Lit(i)
    {
      LightsOf(channels, pins)
    }

    /** One worker call and the interval after it. */
    method Interval(ticks: nat, ghost positions: seq<nat>, ghost onTime: seq<nat>)
      returns (more: nat, ghost edges: seq<nat>, ghost longer: seq<nat>)
      requires Valid() && InStep() && |onTime| == |channels|
      requires
        if currentDuty == 0 then positions == [] && forall i :: 0 <= i < |onTime| ==> onTime[i] == 0
        else currentDuty in Now() && Edged(positions, Now(), currentDuty) && Elapsed(onTime, Now(), currentDuty)
      requires NoneWraps(positions, currentDuty, maxLoad) ==> Near(ticks, currentDuty * maxLoad, |positions|)
      modifies `pins, `currentDuty, `cycle, `load
      ensures Valid() && InStep() && (currentDuty > 0 ==> currentDuty > old(currentDuty) && currentDuty in Now())
      ensures cycle == if old(currentDuty) == 0 then (old(cycle) + 1) % 8 else old(cycle)
      ensures
        var next := if currentDuty == 0 then MAX else currentDuty;
        && Edged(edges, Now(), next) && Elapsed(longer, Now(), next)
        && (NoneWraps(edges, next, maxLoad) ==> Near(more, next * maxLoad, |edges|))
    {
      hide InStep, Load, Duties, Near, NoneWraps, Wraps;
      ghost var c := currentDuty;
      Worker();
      more := ticks + load;
      ghost var next := if currentDuty == 0 then MAX else currentDuty;
      edges := positions + [c];
      longer := Longer(onTime, Lights(), next - c);
      if NoneWraps(edges, next, maxLoad) {
        OneMoreWraps(positions, c, next, maxLoad);
        NearGrows(ticks, c, next, maxLoad, |positions|);
      }
      EdgedGrows(positions, Now(), c, next);
      ElapsedGrows(onTime, Now(), Lights(), c, next);
    }

    /** One period: worker calls from one start of a period to the next, with the duties unchanged. `onTime`
        is for how long each channel's pin was at its active level, in duty units. The period has its length unless an
        interval wraps, which none does if a whole period would not. */
    method Period() returns (ghost positions: seq<nat>, ticks: nat, ghost onTime: seq<nat>)
      requires Valid() && InStep() && currentDuty == 0
      modifies `pins, `currentDuty, `cycle, `load
      ensures Valid() && InStep() && currentDuty == 0 && cycle == (old(cycle) + 1) % 8
      ensures Edges(positions, Now()) && onTime == Now()
      ensures MAX * maxLoad < WORD ==> NoneWraps(positions, MAX, maxLoad)
      ensures NoneWraps(positions, MAX, maxLoad) ==> maxLoad - |positions| <= ticks <= maxLoad + |positions|
    {
      hide InStep, Duties, NoneWraps, Wraps;
      assert NoneWraps([], 0, maxLoad) ==> Near(0, 0, 0);
      hide Edged;
      ticks, positions, onTime := 0, [], seq(|channels|, _ => 0);
      ticks, positions, onTime := Interval(ticks, positions, onTime);
      while currentDuty != 0
        invariant Valid() && InStep() && cycle == (old(cycle) + 1) % 8
        invariant currentDuty > 0 ==> currentDuty in Now()
        invariant
          var next := if currentDuty == 0 then MAX else currentDuty;
          && Edged(positions, Now(), next) && Elapsed(onTime, Now(), next)
          && (NoneWraps(positions, next, maxLoad) ==> Near(ticks, next * maxLoad, |positions|))
        decreases if currentDuty == 0 then 0 else MAX - currentDuty
      {
        ticks, positions, onTime := Interval(ticks, positions, onTime);
      }
      AllElapsed(onTime, Now());
      if MAX * maxLoad < WORD {
        EdgesAreInside(positions, Now());
        WholeFits(positions, MAX, maxLoad);
      }
    }
  }

  /** The sum of a channel's duties over `n` cycles from the one after `start` on. */
  function CycleSum(duty: seq<nat>, start: nat, n: nat): nat
    requires |duty| == 8
  {
    if n == 0 then 0 else CycleSum(duty, start, n - 1) + duty[(start + n) % 8]
  }

  lemma {:induction false} CycleShift(duty: seq<nat>, start: nat, n: nat)
    requires |duty| == 8
    ensures CycleSum(duty, start, n + 1) == duty[(start + 1) % 8] + CycleSum(duty, start + 1, n)
  {
    if n > 0 {
      CycleShift(duty, start, n - 1);
      assert start + 1 + n == start + (n + 1);
    } else {
      assert CycleSum(duty, start, 0) == 0;
    }
  }

  /** Eight cycles, whichever is the first, are all of them. */
  lemma {:induction false} EightCycles(duty: seq<nat>, start: nat)
    requires |duty| == 8 && start < 8
    ensures CycleSum(duty, start, 8) == Sum(duty)
    decreases 8 - start
  {
    if start == 7 {
      FromTheFirst(duty);
    } else {
      CycleShift(duty, start, 8);
      assert (start + 9) % 8 == (start + 1) % 8;
      EightCycles(duty, start + 1);
    }
  }

  lemma FromTheFirst(duty: seq<nat>)
    requires |duty| == 8
    ensures CycleSum(duty, 7, 8) == Sum(duty)
  {
    SumOfEight(duty[0], duty[1], duty[2], duty[3], duty[4], duty[5], duty[6], duty[7]);
    assert duty == [duty[0], duty[1], duty[2], duty[3], duty[4], duty[5], duty[6], duty[7]];
    hide Sum;
    assert CycleSum(duty, 7, 1) == duty[0];
    assert CycleSum(duty, 7, 3) == CycleSum(duty, 7, 1) + duty[1] + duty[2];
    assert CycleSum(duty, 7, 5) == CycleSum(duty, 7, 3) + duty[3] + duty[4];
    assert CycleSum(duty, 7, 7) == CycleSum(duty, 7, 5) + duty[5] + duty[6];
  }

  /** Eight periods with the duties unchanged: each channel's pin is at its active level for the sum of its
      duties. With a duty stored within reach that is eight times the duty. */
  method EightPeriods(pwm: Driver) returns (ghost onTime: seq<nat>)
    requires pwm.Valid() && pwm.InStep() && pwm.currentDuty == 0
    modifies pwm`pins, pwm`currentDuty, pwm`cycle, pwm`load
    ensures pwm.Valid() && pwm.InStep() && pwm.currentDuty == 0
    ensures |onTime| == |pwm.channels|
    ensures forall k :: 0 <= k < |onTime| ==> Ready(pwm.channels[k]) && onTime[k] == Sum(pwm.channels[k].duty)
  {
    hide Driver.InStep, CycleSum, Edges, Duties;
    ghost var start, channels := pwm.cycle, pwm.channels;
    onTime := NoneSummed(channels, start);
    for n := 0 to 8
      invariant pwm.Valid() && pwm.InStep() && pwm.currentDuty == 0 && pwm.cycle == (start + n) % 8
      invariant Summed(onTime, channels, start, n)
    {
      ghost var positions, on;
      var ticks;
      positions, ticks, on := pwm.Period();
      NowIs(pwm, on);
      onTime := AddSummed(onTime, channels, start, n, on);
    }
    forall k | 0 <= k < |onTime|
      ensures Ready(channels[k]) && onTime[k] == Sum(channels[k].duty)
    {
      EightCycles(channels[k].duty, start);
    }
  }

  ghost predicate Summed(onTime: seq<nat>, channels: seq<Channel>, start: nat, n: nat) {
    && |onTime| == |channels|
    && forall k :: 0 <= k < |channels| ==> Ready(channels[k]) && onTime[k] == CycleSum(channels[k].duty, start, n)
  }

  lemma NoneSummed(channels: seq<Channel>, start: nat) returns (onTime: seq<nat>)
    requires forall k :: 0 <= k < |channels| ==> Ready(channels[k])
    ensures Summed(onTime, channels, start, 0)
  {
    onTime := seq(|channels|, _ => 0);
  }

  lemma NowIs(pwm: Driver, on: seq<nat>)
    requires pwm.Valid() && on == pwm.Now()
    ensures |on| == |pwm.channels|
    ensures forall k :: 0 <= k < |on| ==> Ready(pwm.channels[k]) && on[k] == pwm.channels[k].duty[pwm.cycle]
  {}

  lemma AddSummed(onTime: seq<nat>, channels: seq<Channel>, start: nat, n: nat, on: seq<nat>) returns (more: seq<nat>)
    requires Summed(onTime, channels, start, n) && |on| == |channels|
    requires forall k :: 0 <= k < |on| ==> Ready(channels[k]) && on[k] == channels[k].duty[(start + n + 1) % 8]
    ensures Summed(more, channels, start, n + 1)
  {
    more := seq(|channels|, k requires 0 <= k < |channels| => onTime[k] + on[k]);
    forall k | 0 <= k < |channels|
      ensures Ready(channels[k]) && more[k] == CycleSum(channels[k].duty, start, n + 1)
    {
      assert Ready(channels[k]) && (start + n + 1) % 8 == (start + (n + 1)) % 8;
    }
  }

  /** What setting a duty promises: over eight periods the pin is at the active level, or for a channel on the
      leading edge off it, for eight times the duty set. */
  lemma SetDutyIsOnTime(ch: Channel, duty: nat)
    requires duty <= MAX && ch.dithering <= MAX && !Overreaches(Inner(ch.leading, duty), ch.dithering)
    requires ch.duty == Dithered(Inner(ch.leading, duty), Spread(Inner(ch.leading, duty), ch.dithering))
    ensures if ch.leading then 8 * MAX - Sum(ch.duty) == 8 * duty else Sum(ch.duty) == 8 * duty
  {
    hide Sum, Dithered, Spread, Overreaches;
    DutyConserved(Inner(ch.leading, duty), ch.dithering);
  }

  lemma NearGrows(ticks: nat, c: nat, next: nat, maxLoad: nat, n: nat)
    requires c <= next <= MAX && !Wraps(c, next, maxLoad) && Near(ticks, c * maxLoad, n)
    ensures Near(ticks + Load(c, next, maxLoad), next * maxLoad, n + 1)
  {
    hide Load, Wraps;
    LoadNear(c, next, maxLoad);
    Distributes(c, next, maxLoad);
  }

  lemma Distributes(c: nat, next: nat, maxLoad: nat)
    ensures (next - c) * maxLoad == next * maxLoad - c * maxLoad
  {}

  lemma EdgesAreInside(positions: seq<nat>, duties: seq<nat>)
    requires Edges(positions, duties)
    ensures forall i :: 0 <= i < |positions| ==> positions[i] <= MAX
  {}

  lemma EdgedGrows(positions: seq<nat>, duties: seq<nat>, c: nat, next: nat)
    requires IsNext(duties, c, next) && (c == 0 || c in duties)
    requires if c == 0 then positions == [] else Edged(positions, duties, c)
    ensures Edged(positions + [c], duties, next)
  {
    var p := positions + [c];
    forall i | 0 <= i < |duties| && 0 < duties[i] < next
      ensures duties[i] in p
    {
      if duties[i] < c {
        assert duties[i] in positions;
      } else {
        assert p[|positions|] == duties[i];
      }
    }
    assert c == 0 ==> p[0] == 0;
  }

  /** For how long a channel of each duty is on up to a position. */
  ghost predicate Elapsed(onTime: seq<nat>, duties: seq<nat>, c: nat) {
    && |onTime| == |duties|
    && forall i :: 0 <= i < |duties| ==> onTime[i] == if duties[i] < c then duties[i] else c
  }

  /** The on-times after another interval with these channels on. */
  ghost function Longer(onTime: seq<nat>, lit: seq<bool>, n: int): (r: seq<nat>)
    requires |onTime| == |lit| && n >= 0
    ensures |r| == |lit| && forall i :: 0 <= i < |r| ==> r[i] == onTime[i] + if lit[i] then n else 0
  {
    seq(|lit|, i requires 0 <= i < |lit| => onTime[i] + if lit[i] then n else 0)
  }

  lemma ElapsedGrows(onTime: seq<nat>, duties: seq<nat>, lit: seq<bool>, c: nat, next: nat)
    requires IsNext(duties, c, next) && |onTime| == |lit| == |duties|
    requires forall i :: 0 <= i < |lit| ==> (lit[i] <==> duties[i] > c)
    requires if c == 0 then forall i :: 0 <= i < |onTime| ==> onTime[i] == 0 else Elapsed(onTime, duties, c)
    ensures Elapsed(Longer(onTime, lit, next - c), duties, next)
  {}

  lemma AllElapsed(onTime: seq<nat>, duties: seq<nat>)
    requires Elapsed(onTime, duties, MAX) && forall i :: 0 <= i < |duties| ==> duties[i] <= MAX
    ensures onTime == duties
  {}
}
