/** The button at work: its samples and timers over whole runs, and the calls that its presses lead to. */
module ButtonRun {
  import opened Button

  datatype Timer = Idle | Due(at: nat)

  datatype State = State(contact: Contact, previous: bool, count: nat, last: nat, press: Timer, hold: Timer,
    calls: seq<Call>)

  // ---- What one event does ----

  /** Whether events are heard: not within the disable time after it was last set. */
  predicate Heard(b: Setup, now: nat, quiet: nat)
    requires b.Valid()
  {
    (now - quiet) % WORD > b.Ticks(DISABLE_TIME)
  }

  function Called(s: State, c: Call): State {
    s.(calls := s.calls + [c])
  }

  function SingleFired(s: State): State {
    Called(s.(press := Idle, count := 0), Single)
  }

  function HoldFired(s: State): State {
    Called(s.(hold := Idle, count := HELD), Hold)
  }

  predicate Expired(t: Timer, now: nat) {
    t.Due? && t.at <= now
  }

  /** The timers that have expired call back, the press timer first. */
  function Elapsed(s: State, now: nat): State {
    var s := if Expired(s.press, now) then SingleFired(s) else s;
    if Expired(s.hold, now) then HoldFired(s) else s
  }

  function PushedDown(b: Setup, s: State, now: nat, quiet: nat): State
    requires b.Valid()
  {
    if !Heard(b, now, quiet) then s
    else
      var s := if b.announced then Called(s, Announced) else s;
      s.(hold := if b.held then Due(now + b.Ticks(HOLD_PRESS_TIME)) else s.hold, last := now % WORD)
  }

  function PushedUp(b: Setup, s: State, now: nat, quiet: nat): State
    requires b.Valid()
  {
    if !Heard(b, now, quiet) then s
    else if s.count == HELD then s.(count := 0)
    else
      var length := (now - s.last) % WORD;
      var s := s.(hold := Idle);
      if length > b.Ticks(VERY_LONG_PRESS_TIME) then
        Called(s.(count := 0), if b.veryLong then VeryLong else if b.long then Long else Single)
      else if length > b.Ticks(LONG_PRESS_TIME) then
        Called(s.(count := 0), if b.long then Long else Single)
      else if b.doubled then
        if s.count + 1 > 1 then Called(s.(press := Idle, count := 0), Double)
        else s.(count := s.count + 1, press := Due(now + b.Ticks(DOUBLE_PRESS_TIME)))
      else Called(s, Single)
  }

  function Evaluated(b: Setup, s: State, now: nat, quiet: nat, read: bool): State
    requires b.Valid()
  {
    var c := Touched(s.contact, b.maxEval, read);
    var t := s.(contact := c, previous := c.state);
    if c.state == s.previous then t
    else if c.state != b.inverted then PushedUp(b, t, now, quiet)
    else PushedDown(b, t, now, quiet)
  }

  function Created(b: Setup, start: bool): State {
    State(Contact(start, if start then b.maxEval else 0), start, 0, 0, Idle, Idle, [])
  }

  /** The difference of two 32-bit tick counts is that of the ticks, as far as 32 bits can tell. */
  lemma Wraps(now: nat, since: int)
    ensures (now % WORD - since) % WORD == (now - since) % WORD
  {}

  lemma LengthCounts(p: Press)
    ensures (p.up - p.down % WORD) % WORD == Length(p)
  {
    var d := p.down / WORD;
    assert p.up - p.down % WORD == p.up - p.down + d * WORD;
  }

  /** A button in normal mode. `calls` are the callback lists it has run; the disable time is shared by all buttons
      and set by whoever wants them quiet for a while. */
  class AdvButton {
    const setup: Setup
    var value: nat
    var state: bool
    var oldState: bool
    var pressCount: nat
    var lastEventTime: nat
    var pressTimer: Timer
    var holdTimer: Timer
    var disableTime: nat
    var calls: seq<Call>

    ghost function Now(): State
      reads this
    {
      State(Contact(state, value), oldState, pressCount, lastEventTime, pressTimer, holdTimer, calls)
    }

    constructor (setup: Setup, level: bool)
      requires setup.Valid()
      ensures this.setup == setup && disableTime == 0 && Now() == Created(setup, level)
    {
      this.setup := setup;
      state, oldState := level, level;
      value := if level then setup.maxEval else 0;
      pressCount, lastEventTime, disableTime := 0, 0, 0;
      pressTimer, holdTimer := Idle, Idle;
      calls := [];
    }

    method Run(call: Call)
      modifies this`calls
      ensures Now() == Called(old(Now()), call)
    {
      calls := calls + [call];
    }

    method SetDisableTime(now: nat)
      modifies this`disableTime
      ensures disableTime == now % WORD && Now() == old(Now())
    {
      disableTime := now % WORD;
    }

    method PushDown(now: nat)
      requires setup.Valid()
      modifies this`calls, this`holdTimer, this`lastEventTime
      ensures Now() == PushedDown(setup, old(Now()), now, disableTime)
    {
      Wraps(now, disableTime);
      if (now % WORD - disableTime) % WORD > setup.Ticks(DISABLE_TIME) {
        if setup.announced {
          Run(Announced);
        }
        if setup.held {
          holdTimer := Due(now + setup.Ticks(HOLD_PRESS_TIME));
        }
        lastEventTime := now % WORD;
      }
    }

    method PushUp(now: nat)
      requires setup.Valid()
      modifies this`calls, this`holdTimer, this`pressTimer, this`pressCount
      ensures Now() == PushedUp(setup, old(Now()), now, disableTime)
    {
      Wraps(now, disableTime);
      Wraps(now, lastEventTime);
      if (now % WORD - disableTime) % WORD > setup.Ticks(DISABLE_TIME) {
        if pressCount == HELD {
          pressCount := 0;
          return;
        }
        holdTimer := Idle;
        var length := (now % WORD - lastEventTime) % WORD;
        if length > setup.Ticks(VERY_LONG_PRESS_TIME) {
          pressCount := 0;
          Run(if setup.veryLong then VeryLong else if setup.long then Long else Single);
        } else if length > setup.Ticks(LONG_PRESS_TIME) {
          pressCount := 0;
          Run(if setup.long then Long else Single);
        } else if setup.doubled {
          pressCount := pressCount + 1;
          if pressCount > 1 {
            pressTimer := Idle;
            pressCount := 0;
            Run(Double);
          } else {
            pressTimer := Due(now + setup.Ticks(DOUBLE_PRESS_TIME));
          }
        } else {
          Run(Single);
        }
      }
    }

    method SingleCallback()
      modifies this`calls, this`pressTimer, this`pressCount
      ensures Now() == SingleFired(old(Now()))
    {
      pressTimer := Idle;
      pressCount := 0;
      Run(Single);
    }

    method HoldCallback()
      modifies this`calls, this`holdTimer, this`pressCount
      ensures Now() == HoldFired(old(Now()))
    {
      holdTimer := Idle;
      pressCount := HELD;
      Run(Hold);
    }

    /** The timers of FreeRTOS: an expired timer is idle again, and calls back. */
    method Elapse(now: nat)
      modifies this`calls, this`pressTimer, this`holdTimer, this`pressCount
      ensures Now() == Elapsed(old(Now()), now)
    {
      if pressTimer.Due? && pressTimer.at <= now {
        SingleCallback();
      }
      if holdTimer.Due? && holdTimer.at <= now {
        HoldCallback();
      }
    }

    method Evaluate(now: nat, read: bool)
      requires setup.Valid()
      modifies this
      ensures Now() == Evaluated(setup, old(Now()), now, disableTime, read) && disableTime == old(disableTime)
    {
      if read {
        if state {
          value := setup.maxEval;
        } else {
          if value < setup.maxEval {
            value := value + 1;
          }
          if value == setup.maxEval {
            state := true;
          }
        }
      } else {
        if !state {
          value := 0;
        } else {
          if value > 0 {
            value := value - 1;
          }
          if value == 0 {
            state := false;
          }
        }
      }
      if state != oldState {
        oldState := state;
        if state != setup.inverted {
          PushUp(now);
        } else {
          PushDown(now);
        }
      }
    }
  }

  // ---- Whole runs ----

  /** A sample of the pin, or the disable time being set. Timers that expire by then have called back before. */
  datatype Event = Sample(now: nat, read: bool) | Quieted(now: nat)

  datatype World = World(button: State, quiet: nat)

  function Happened(b: Setup, w: World, e: Event): World
    requires b.Valid()
  {
    var s := Elapsed(w.button, e.now);
    match e
    case Sample(now, read) => w.(button := Evaluated(b, s, now, w.quiet, read))
    case Quieted(now) => World(s, now % WORD)
  }

  function After(b: Setup, start: bool, events: seq<Event>): World
    requires b.Valid()
  {
    if |events| == 0 then World(Created(b, start), 0)
    else Happened(b, After(b, start, events[..|events| - 1]), events[|events| - 1])
  }

  /** The pin's history, from the samples alone: whether it is down now and since when, and the presses it saw. */
  datatype History = History(levels: seq<bool>, down: bool, since: nat, armed: bool, presses: seq<Press>)

  function Recorded(b: Setup, start: bool, h: History, e: Event): History {
    if e.Quieted? then h
    else
      var levels := h.levels + [e.read];
      var down := Settled(start, b.maxEval, levels) == b.inverted;
      if down && !h.down then History(levels, true, e.now, true, h.presses)
      else if !down && h.down then History(levels, false, h.since, h.armed, h.presses
        + [Press(h.since, e.now, h.armed)])
      else h.(levels := levels)
  }

  function Past(b: Setup, start: bool, events: seq<Event>): History {
    if |events| == 0 then History([], start == b.inverted, 0, false, [])
    else Recorded(b, start, Past(b, start, events[..|events| - 1]), events[|events| - 1])
  }

  /** Events come in their order, and nothing happens to the contact while the button is disabled. */
  predicate Undisturbed(b: Setup, start: bool, events: seq<Event>)
    requires b.Valid()
  {
    |events| > 0 ==>
      var before, e := events[..|events| - 1], events[|events| - 1];
      && Undisturbed(b, start, before)
      && (|before| > 0 ==> before[|before| - 1].now <= e.now)
      && (Past(b, start, events).down != Past(b, start, before).down ==>
            Heard(b, e.now, After(b, start, before).quiet))
  }

  /** The calls that were made for presses. */
  function Releases(calls: seq<Call>): seq<Call> {
    if |calls| == 0 then []
    else
      var c := calls[|calls| - 1];
      With(Releases(calls[..|calls| - 1]), c != Announced, c)
  }

  lemma ReleasesOneMore(calls: seq<Call>, c: Call)
    ensures Releases(calls + [c]) == With(Releases(calls), c != Announced, c)
  {
    assert (calls + [c])[..|calls|] == calls;
  }

  /** The last press could still become the first of a double press. */
  predicate Waiting(b: Setup, h: History, now: nat)
    requires b.Valid()
  {
    Open(b, h.presses) && |h.presses| > 0 && now < h.presses[|h.presses| - 1].up + b.Ticks(DOUBLE_PRESS_TIME)
  }

  /** The press under way has been held long enough. */
  predicate Holding(b: Setup, h: History, now: nat)
    requires b.Valid()
  {
    h.down && IsHeld(b, Press(h.since, now, h.armed))
  }

  // ---- What always holds between events ----

  predicate Ordered(h: History, now: nat) {
    && (h.down ==> h.since <= now)
    && forall i :: 0 <= i < |h.presses| ==> h.presses[i].up <= now && (h.down ==> h.presses[i].up <= h.since)
  }

  predicate TimersAgree(b: Setup, s: State, h: History, now: nat)
    requires b.Valid()
  {
    && s.count == (if Holding(b, h, now) then HELD else if Waiting(b, h, now) then 1 else 0)
    && s.press == (if Waiting(b, h, now) then Due(h.presses[|h.presses| - 1].up + b.Ticks(DOUBLE_PRESS_TIME)) else Idle)
    && s.hold == (if h.down && b.held && h.armed && !Holding(b, h, now) then Due(h.since + b.Ticks(HOLD_PRESS_TIME))
                  else Idle)
  }

  predicate ContactAgrees(b: Setup, start: bool, s: State, h: History) {
    && s.contact == Sampled(start, b.maxEval, h.levels)
    && s.previous == s.contact.state
    && h.down == (s.contact.state == b.inverted)
    && (h.down ==> s.last == h.since % WORD)
  }

  /** The calls so far are those the presses stand for, but for one that is waiting, and with one that is held. */
  predicate CallsAgree(b: Setup, calls: seq<Call>, h: History, now: nat)
    requires b.Valid()
  {
    With(Releases(calls), Waiting(b, h, now), Single) == With(Meaning(b, h.presses), Holding(b, h, now), Hold)
  }

  function With(calls: seq<Call>, more: bool, c: Call): seq<Call> {
    if more then calls + [c] else calls
  }

  /** A press held long enough ends the waiting for another. */
  lemma HoldingEndsWaiting(b: Setup, h: History, now: nat)
    requires b.Valid() && Ordered(h, now) && Holding(b, h, now)
    ensures !Waiting(b, h, now)
  {
    hide Open;
    TimesAreOrdered(b);
  }

  /** As time goes by, the timers tell exactly when the waiting is over and when a press is held. */
  lemma TimePasses(b: Setup, s: State, h: History, before: nat, now: nat)
    requires b.Valid() && before <= now && Ordered(h, before)
    requires TimersAgree(b, s, h, before) && CallsAgree(b, s.calls, h, before)
    ensures var t := Elapsed(s, now);
      && Ordered(h, now) && TimersAgree(b, t, h, now) && CallsAgree(b, t.calls, h, now)
      && t.contact == s.contact && t.previous == s.previous && t.last == s.last
  {
    hide Open, Meaning, Releases;
    TimesAreOrdered(b);
    if Holding(b, h, now) {
      HoldingEndsWaiting(b, h, now);
    }
    if Holding(b, h, before) {
      HoldingEndsWaiting(b, h, before);
    }
    ReleasesOneMore(s.calls, Single);
    ReleasesOneMore(s.calls, Hold);
    ReleasesOneMore(s.calls + [Single], Hold);
  }

  lemma GoesDown(b: Setup, s: State, h: History, g: History, now: nat, quiet: nat)
    requires b.Valid() && Ordered(h, now) && TimersAgree(b, s, h, now) && CallsAgree(b, s.calls, h, now)
    requires Heard(b, now, quiet) && !h.down && g == History(g.levels, true, now, true, h.presses)
    ensures var t := PushedDown(b, s, now, quiet);
      && Ordered(g, now) && TimersAgree(b, t, g, now) && CallsAgree(b, t.calls, g, now)
      && t.contact == s.contact && t.previous == s.previous && t.last == now % WORD
  {
    hide Open, Meaning, Releases, Heard;
    TimesAreOrdered(b);
    ReleasesOneMore(s.calls, Announced);
  }

  /** What the counter and the lengths in ticks decide about a press that ends. */
  function Ended(b: Setup, s: State, q: Press): State
    requires b.Valid()
  {
    if s.count == HELD then s.(count := 0)
    else if !IsShort(b, q) then Called(s.(hold := Idle, count := 0), Outcome(b, q))
    else if !b.doubled then Called(s.(hold := Idle), Single)
    else if s.count >= 1 then Called(s.(hold := Idle, press := Idle, count := 0), Double)
    else s.(hold := Idle, count := 1, press := Due(q.up + b.Ticks(DOUBLE_PRESS_TIME)))
  }

  lemma UpEnds(b: Setup, s: State, h: History, now: nat, quiet: nat)
    requires b.Valid() && Ordered(h, now) && TimersAgree(b, s, h, now)
    requires Heard(b, now, quiet) && h.down && s.last == h.since % WORD
    ensures PushedUp(b, s, now, quiet) == Ended(b, s, Press(h.since, now, h.armed))
  {
    hide Open, Heard, Waiting;
    TimesAreOrdered(b);
    LengthCounts(Press(h.since, now, h.armed));
    hide Length;
  }

  /** A press that pairs with one that is waiting is short. */
  lemma WaitingPairs(b: Setup, h: History, now: nat)
    requires b.Valid() && Ordered(h, now) && h.down
    ensures var q := Press(h.since, now, h.armed);
      && (Waiting(b, h, now) ==> IsShort(b, q) && !Holding(b, h, now))
      && (Waiting(b, h, now) <==> Open(b, h.presses) && |h.presses| > 0 && Paired(b, h.presses[|h.presses| - 1], q))
  {
    hide Meaning;
    TimesAreOrdered(b);
    if Open(b, h.presses) {
      hide Open;
      OpenIsSingle(b, h.presses);
    }
  }

  lemma GoesUp(b: Setup, s: State, h: History, g: History, now: nat)
    requires b.Valid() && Ordered(h, now) && TimersAgree(b, s, h, now) && CallsAgree(b, s.calls, h, now)
    requires
      var q := Press(h.since, now, h.armed);
      h.down && g == History(g.levels, false, h.since, h.armed, h.presses + [q])
    ensures var t := Ended(b, s, Press(h.since, now, h.armed));
      && Ordered(g, now) && TimersAgree(b, t, g, now) && CallsAgree(b, t.calls, g, now)
      && t.contact == s.contact && t.previous == s.previous
  {
    hide Open, Meaning, Releases, Paired;
    var q := Press(h.since, now, h.armed);
    TimesAreOrdered(b);
    WaitingPairs(b, h, now);
    OneMorePress(b, h.presses, q);
    ReleasesOneMore(s.calls, Outcome(b, q));
    ReleasesOneMore(s.calls, Double);
    if IsShort(b, q) {
      ShortIsSingle(b, q);
    }
    if Open(b, h.presses) {
      OpenIsSingle(b, h.presses);
    }
  }

  // ---- Over whole runs ----

  function Clock(events: seq<Event>): nat {
    if |events| == 0 then 0 else events[|events| - 1].now
  }

  ghost predicate Agrees(b: Setup, start: bool, s: State, h: History, now: nat)
    requires b.Valid()
  {
    ContactAgrees(b, start, s, h) && Ordered(h, now) && TimersAgree(b, s, h, now) && CallsAgree(b, s.calls, h, now)
  }

  lemma SampleAgrees(b: Setup, start: bool, s: State, h: History, now: nat, quiet: nat, read: bool)
    requires b.Valid() && Agrees(b, start, s, h, now)
    requires Recorded(b, start, h, Sample(now, read)).down != h.down ==> Heard(b, now, quiet)
    ensures Agrees(b, start, Evaluated(b, s, now, quiet, read), Recorded(b, start, h, Sample(now, read)), now)
  {
    hide TimersAgree, CallsAgree, Touched, Settled, PushedUp, PushedDown, Ended, Heard;
    var g := Recorded(b, start, h, Sample(now, read));
    var c := Touched(s.contact, b.maxEval, read);
    var t := s.(contact := c, previous := c.state);
    NextSample(b, start, h.levels, read);
    Moved(b, s, t, h, now);
    if g.down && !h.down {
      GoesDown(b, t, h, g, now, quiet);
    } else if !g.down && h.down {
      UpEnds(b, t, h, now, quiet);
      GoesUp(b, t, h, g, now);
    } else {
      Relabelled(b, t, h, g, now);
    }
  }

  lemma NextSample(b: Setup, start: bool, levels: seq<bool>, read: bool)
    requires b.Valid()
    ensures Sampled(start, b.maxEval, levels + [read]) == Touched(Sampled(start, b.maxEval, levels), b.maxEval, read)
    ensures Sampled(start, b.maxEval, levels + [read]).state == Settled(start, b.maxEval, levels + [read])
  {
    assert (levels + [read])[..|levels|] == levels;
    Debounced(start, b.maxEval, levels + [read]);
  }

  /** Neither the contact's own state nor the levels matter to timers and calls. */
  lemma Moved(b: Setup, s: State, t: State, h: History, now: nat)
    requires b.Valid() && TimersAgree(b, s, h, now) && CallsAgree(b, s.calls, h, now)
    requires t == s.(contact := t.contact, previous := t.previous)
    ensures TimersAgree(b, t, h, now) && CallsAgree(b, t.calls, h, now) && t.last == s.last
  {}

  lemma Relabelled(b: Setup, s: State, h: History, g: History, now: nat)
    requires b.Valid() && TimersAgree(b, s, h, now) && CallsAgree(b, s.calls, h, now) && g == h.(levels := g.levels)
    ensures TimersAgree(b, s, g, now) && CallsAgree(b, s.calls, g, now)
  {}

  lemma {:induction false} RunAgrees(b: Setup, start: bool, events: seq<Event>)
    requires b.Valid() && Undisturbed(b, start, events)
    ensures Agrees(b, start, After(b, start, events).button, Past(b, start, events), Clock(events))
  {
    hide TimersAgree, CallsAgree, Elapsed, Evaluated, Heard, Recorded;
    if |events| == 0 {
      StartAgrees(b, start);
    } else {
      var before, e := events[..|events| - 1], events[|events| - 1];
      RunAgrees(b, start, before);
      var w, h := After(b, start, before), Past(b, start, before);
      TimePasses(b, w.button, h, Clock(before), e.now);
      if e.Sample? {
        SampleAgrees(b, start, Elapsed(w.button, e.now), h, e.now, w.quiet, e.read);
      } else {
        NotSampled(b, start, h, e);
      }
    }
  }

  lemma NotSampled(b: Setup, start: bool, h: History, e: Event)
    requires e.Quieted?
    ensures Recorded(b, start, h, e) == h
  {}

  lemma StartAgrees(b: Setup, start: bool)
    requires b.Valid()
    ensures Agrees(b, start, Created(b, start), Past(b, start, []), 0)
  {}

  /** The calls of an undisturbed run are those that its presses mean. The call of a short press is delayed while
      another could make it a double press, and that of a held press comes while it is still down. */
  lemma CallsAreTheMeaning(b: Setup, start: bool, events: seq<Event>)
    requires b.Valid() && Undisturbed(b, start, events)
    ensures var h, now := Past(b, start, events), Clock(events);
      With(Releases(After(b, start, events).button.calls), Waiting(b, h, now), Single) ==
      With(Meaning(b, h.presses), Holding(b, h, now), Hold)
  {
    RunAgrees(b, start, events);
  }

  /** Every release is accounted for exactly once: by a single, long, very long or hold call, as one of the two of
      a double call, or as waiting; and the hold call of a press still down is the only one without a release. */
  lemma EveryReleaseCounts(b: Setup, start: bool, events: seq<Event>)
    requires b.Valid() && Undisturbed(b, start, events)
    ensures var h, now := Past(b, start, events), Clock(events);
      Weight(Releases(After(b, start, events).button.calls)) + (if Waiting(b, h, now) then 1 else 0) ==
      |h.presses| + if Holding(b, h, now) then 1 else 0
  {
    var h, now := Past(b, start, events), Clock(events);
    CallsAreTheMeaning(b, start, events);
    hide Waiting, Holding, After, Past, Meaning, Releases;
    MeaningWeighs(b, h.presses);
    WeightOneMore(Releases(After(b, start, events).button.calls), Single);
    WeightOneMore(Meaning(b, h.presses), Hold);
  }

  lemma {:induction false} WeightOneMore(calls: seq<Call>, c: Call)
    requires c == Single || c == Hold
    ensures Weight(calls + [c]) == Weight(calls) + 1
  {
    if |calls| == 0 {
      assert (calls + [c])[1..] == [];
    } else {
      assert (calls + [c])[1..] == calls[1..] + [c] && (calls + [c])[0] == calls[0];
      WeightOneMore(calls[1..], c);
    }
  }

  // ---- The whole sequence of calls ---------------------------------------------------------

  function CallIf(c: bool, call: Call): seq<Call> {
    if c then [call] else []
  }

  /** The calls as time goes by from one moment of a history to another: waiting ends with a single call, and a press
      is held at last. */
  function Meanwhile(b: Setup, h: History, before: nat, now: nat): seq<Call>
    requires b.Valid()
  {
    CallIf(Waiting(b, h, before) && !Waiting(b, h, now), Single)
    + CallIf(!Holding(b, h, before) && Holding(b, h, now), Hold)
  }

  /** The call at a release: none if the press was held or may become the first of a pair. */
  function AtRelease(b: Setup, h: History, now: nat): seq<Call>
    requires b.Valid()
  {
    var q := Press(h.since, now, h.armed);
    if Holding(b, h, now) then []
    else if Waiting(b, h, now) then [Double]
    else CallIf(!IsShort(b, q) || !b.doubled, Outcome(b, q))
  }

  /** The calls of the events, one after another, by what the pin's history was before and after each of them: a push
      down is announced when it comes, before anything that is called for its press. */
  function Told(b: Setup, start: bool, events: seq<Event>): seq<Call>
    requires b.Valid()
  {
    if |events| == 0 then []
    else
      var before, e := events[..|events| - 1], events[|events| - 1];
      var h, g := Past(b, start, before), Past(b, start, events);
      Told(b, start, before) + Meanwhile(b, h, Clock(before), e.now)
      + if g.down == h.down then [] else if g.down then CallIf(b.announced, Announced) else AtRelease(b, h, e.now)
  }

  /** Timers that agree with the history call back when its waiting ends and when its press is held. */
  lemma ElapsedTells(b: Setup, s: State, h: History, before: nat, now: nat)
    requires b.Valid() && before <= now && Ordered(h, before) && TimersAgree(b, s, h, before)
    ensures Elapsed(s, now).calls == s.calls + Meanwhile(b, h, before, now)
  {
    hide Open;
    TimesAreOrdered(b);
    if Holding(b, h, before) {
      HoldingEndsWaiting(b, h, before);
    }
  }

  lemma ReleaseTells(b: Setup, s: State, h: History, now: nat, quiet: nat)
    requires b.Valid() && Ordered(h, now) && TimersAgree(b, s, h, now)
    requires Heard(b, now, quiet) && h.down && s.last == h.since % WORD
    ensures PushedUp(b, s, now, quiet).calls == s.calls + AtRelease(b, h, now)
  {
    hide Open, Heard, PushedUp, Length;
    UpEnds(b, s, h, now, quiet);
    WaitingPairs(b, h, now);
    var q := Press(h.since, now, h.armed);
    if IsShort(b, q) {
      ShortIsSingle(b, q);
    }
  }

  lemma SampleTells(b: Setup, start: bool, s: State, h: History, now: nat, quiet: nat, read: bool)
    requires b.Valid() && Agrees(b, start, s, h, now)
    requires Recorded(b, start, h, Sample(now, read)).down != h.down ==> Heard(b, now, quiet)
    ensures
      var g := Recorded(b, start, h, Sample(now, read));
      Evaluated(b, s, now, quiet, read).calls == s.calls
        + if g.down == h.down then [] else if g.down then CallIf(b.announced, Announced) else AtRelease(b, h, now)
  {
    hide TimersAgree, CallsAgree, Touched, Settled, PushedUp, Heard, AtRelease;
    var c := Touched(s.contact, b.maxEval, read);
    var t := s.(contact := c, previous := c.state);
    NextSample(b, start, h.levels, read);
    Moved(b, s, t, h, now);
    var g := Recorded(b, start, h, Sample(now, read));
    if !g.down && h.down {
      ReleaseTells(b, t, h, now, quiet);
    }
  }

  /** The calls of an undisturbed run, announcements and all, are those that its history tells, each at its event. */
  lemma {:induction false} CallsAreTold(b: Setup, start: bool, events: seq<Event>)
    requires b.Valid() && Undisturbed(b, start, events)
    ensures After(b, start, events).button.calls == Told(b, start, events)
  {
    hide TimersAgree, CallsAgree, Elapsed, Evaluated, Heard, Recorded, Meanwhile, AtRelease, ContactAgrees, Ordered;
    if |events| > 0 {
      var before, e := events[..|events| - 1], events[|events| - 1];
      CallsAreTold(b, start, before);
      RunAgrees(b, start, before);
      var w, h := After(b, start, before), Past(b, start, before);
      ElapsedTells(b, w.button, h, Clock(before), e.now);
      ElapsedAgrees(b, start, w.button, h, Clock(before), e.now);
      if e.Sample? {
        SampleTells(b, start, Elapsed(w.button, e.now), h, e.now, w.quiet, e.read);
      } else {
        NotSampled(b, start, h, e);
      }
    }
  }

  function Count(calls: seq<Call>, c: Call): nat {
    if |calls| == 0 then 0 else Count(calls[..|calls| - 1], c) + if calls[|calls| - 1] == c then 1 else 0
  }

  lemma NoneCounted()
    ensures forall c :: Count([], c) == 0
  {}

  lemma CountOneMore(calls: seq<Call>, more: Call, c: Call)
    ensures Count(calls + [more], c) == Count(calls, c) + if more == c then 1 else 0
  {
    assert (calls + [more])[..|calls|] == calls;
  }

  /** The tick count to which the disable time was last set. */
  function Quiet(events: seq<Event>): nat {
    if |events| == 0 then 0
    else
      var e := events[|events| - 1];
      if e.Quieted? then e.now % WORD else Quiet(events[..|events| - 1])
  }

  /** How many push downs came when the button was not disabled. */
  function HeardDowns(b: Setup, start: bool, events: seq<Event>): nat
    requires b.Valid()
  {
    if |events| == 0 then 0
    else
      var before, e := events[..|events| - 1], events[|events| - 1];
      var down := Past(b, start, events).down && !Past(b, start, before).down;
      HeardDowns(b, start, before) + if down && Heard(b, e.now, Quiet(before)) then 1 else 0
  }

  /** In any run, disturbed or not, the contact follows the samples. */
  lemma {:induction false} ContactFollows(b: Setup, start: bool, events: seq<Event>)
    requires b.Valid()
    ensures
      var s, h := After(b, start, events).button, Past(b, start, events);
      && s.contact == Sampled(start, b.maxEval, h.levels) && s.previous == s.contact.state
      && h.down == (s.contact.state == b.inverted)
    ensures After(b, start, events).quiet == Quiet(events)
  {
    hide Touched, Settled, Heard, Elapsed, Evaluated;
    if |events| > 0 {
      var before, e := events[..|events| - 1], events[|events| - 1];
      ContactFollows(b, start, before);
      var w := After(b, start, before);
      ElapsedAnnounces(w.button, e.now);
      if e.Sample? {
        NextSample(b, start, Past(b, start, before).levels, e.read);
        EvaluatedTouches(b, Elapsed(w.button, e.now), e.now, w.quiet, e.read);
      }
    }
  }

  lemma EvaluatedTouches(b: Setup, s: State, now: nat, quiet: nat, read: bool)
    requires b.Valid()
    ensures
      var t := Evaluated(b, s, now, quiet, read);
      t.contact == Touched(s.contact, b.maxEval, read) && t.previous == t.contact.state
  {
    hide Heard, Touched, PushedUp;
    var c := Touched(s.contact, b.maxEval, read);
    UpLeavesContact(b, s.(contact := c, previous := c.state), now, quiet);
  }

  lemma ElapsedAnnounces(s: State, now: nat)
    ensures Count(Elapsed(s, now).calls, Announced) == Count(s.calls, Announced)
    ensures Elapsed(s, now).contact == s.contact && Elapsed(s, now).previous == s.previous
  {
    CountOneMore(s.calls, Single, Announced);
    CountOneMore(s.calls, Hold, Announced);
    CountOneMore(s.calls + [Single], Hold, Announced);
  }

  lemma ReleaseAnnounces(b: Setup, s: State, now: nat, quiet: nat)
    requires b.Valid()
    ensures Count(PushedUp(b, s, now, quiet).calls, Announced) == Count(s.calls, Announced)
  {
    hide Heard, Count;
    CountOneMore(s.calls, Single, Announced);
    CountOneMore(s.calls, Double, Announced);
    CountOneMore(s.calls, Long, Announced);
    CountOneMore(s.calls, VeryLong, Announced);
  }

  lemma EvaluatedAnnounces(b: Setup, s: State, now: nat, quiet: nat, read: bool)
    requires b.Valid() && s.previous == s.contact.state
    ensures
      var t := Evaluated(b, s, now, quiet, read);
      var down := t.contact.state != s.contact.state && t.contact.state == b.inverted && Heard(b, now, quiet);
      Count(t.calls, Announced) == Count(s.calls, Announced) + if b.announced && down then 1 else 0
  {
    hide Heard, Count, PushedUp, Touched;
    var c := Touched(s.contact, b.maxEval, read);
    ReleaseAnnounces(b, s.(contact := c, previous := c.state), now, quiet);
    CountOneMore(s.calls, Announced, Announced);
    EvaluatedTouches(b, s, now, quiet, read);
  }

  lemma UpLeavesContact(b: Setup, s: State, now: nat, quiet: nat)
    requires b.Valid()
    ensures var t := PushedUp(b, s, now, quiet); t.contact == s.contact && t.previous == s.previous
  {
    hide Heard;
  }

  /** Whatever happens, every push down that is heard is announced once, and nothing else is. */
  lemma {:induction false} HeardDownsAreAnnounced(b: Setup, start: bool, events: seq<Event>)
    requires b.Valid()
    ensures Count(After(b, start, events).button.calls, Announced)
      == if b.announced then HeardDowns(b, start, events) else 0
  {
    hide Elapsed, Evaluated, Heard, Settled, Count, Recorded, Touched, Sampled;
    if |events| > 0 {
      var before, e := events[..|events| - 1], events[|events| - 1];
      HeardDownsAreAnnounced(b, start, before);
      ContactFollows(b, start, before);
      ContactFollows(b, start, events);
      var w := After(b, start, before);
      ElapsedAnnounces(w.button, e.now);
      if e.Sample? {
        EvaluatedAnnounces(b, Elapsed(w.button, e.now), e.now, w.quiet, e.read);
      } else {
        NotSampled(b, start, Past(b, start, before), e);
      }
    } else {
      NoneCounted();
    }
  }

  /** In an undisturbed run these are all push downs: those of the presses and of the one under way, but for one that
      was there from the start. */
  lemma {:induction false} AllDownsAreHeard(b: Setup, start: bool, events: seq<Event>)
    requires b.Valid() && Undisturbed(b, start, events)
    ensures
      var h := Past(b, start, events);
      HeardDowns(b, start, events) + (if start == b.inverted then 1 else 0) == |h.presses| + if h.down then 1 else 0
  {
    hide Heard, Settled;
    if |events| > 0 {
      var before := events[..|events| - 1];
      AllDownsAreHeard(b, start, before);
      ContactFollows(b, start, before);
    }
  }

  /** A new button, and what happens to it: with the code's own steps it makes the calls of the run. */
  method Perform(setup: Setup, level: bool, events: seq<Event>) returns (button: AdvButton)
    requires setup.Valid()
    ensures fresh(button) && button.setup == setup
    ensures World(button.Now(), button.disableTime) == After(setup, level, events)
    ensures Undisturbed(setup, level, events) ==>
      var h, now := Past(setup, level, events), Clock(events);
      With(Releases(button.calls), Waiting(setup, h, now), Single) ==
      With(Meaning(setup, h.presses), Holding(setup, h, now), Hold)
    ensures Undisturbed(setup, level, events) ==> button.calls == Told(setup, level, events)
    ensures Count(button.calls, Announced) == if setup.announced then HeardDowns(setup, level, events) else 0
  {
    hide Elapsed, Evaluated, Undisturbed, Waiting, Holding, Meaning, Releases, Told, Count, HeardDowns;
    button := new AdvButton(setup, level);
    var i := 0;
    while i < |events|
      invariant i <= |events| && fresh(button) && button.setup == setup
      invariant World(button.Now(), button.disableTime) == After(setup, level, events[..i])
    {
      assert events[..i + 1][..i] == events[..i];
      button.Elapse(events[i].now);
      match events[i] {
        case Sample(now, read) => button.Evaluate(now, read);
        case Quieted(now) => button.SetDisableTime(now);
      }
      i := i + 1;
    }
    assert events[..|events|] == events;
    HeardDownsAreAnnounced(setup, level, events);
    if Undisturbed(setup, level, events) {
      CallsAreTheMeaning(setup, level, events);
      CallsAreTold(setup, level, events);
    }
  }

  // ---- Runs that are disturbed ----

  /** A release that falls into the disable time is not heard, and neither is it later: the hold timer of a press
      goes on, and the hold callback is run although the button has long been up. */
  lemma UnheardReleaseIsHeld(b: Setup, s: State, down: nat, up: nat, quieted: nat, later: nat)
    requires b.Valid() && b.held && s.count != HELD && s.press == Idle
    requires s.hold == Due(down + b.Ticks(HOLD_PRESS_TIME))
    requires down <= quieted <= up < down + b.Ticks(HOLD_PRESS_TIME) <= later
    requires up - quieted <= b.Ticks(DISABLE_TIME) < WORD
    ensures var t := Elapsed(PushedUp(b, s, up, quieted % WORD), later);
      t.calls == s.calls + [Hold] && t.count == HELD
  {
    Wraps(quieted, up);
    assert (up - quieted % WORD) % WORD == up - quieted by {
      LengthCounts(Press(quieted, up, true));
    }
  }

  /** What an unheard release leaves disagrees with the history, whatever the press was. */
  lemma UnheardDisagrees(b: Setup, s: State, h: History, g: History, now: nat)
    requires b.Valid() && Ordered(h, now) && TimersAgree(b, s, h, now) && CallsAgree(b, s.calls, h, now)
    requires
      var q := Press(h.since, now, h.armed);
      h.down && g == History(g.levels, false, h.since, h.armed, h.presses + [q])
    ensures !(TimersAgree(b, s, g, now) && CallsAgree(b, s.calls, g, now))
  {
    hide Open, Meaning, Releases, Paired;
    var q := Press(h.since, now, h.armed);
    TimesAreOrdered(b);
    WaitingPairs(b, h, now);
    OneMorePress(b, h.presses, q);
    if Open(b, h.presses) {
      OpenIsSingle(b, h.presses);
    }
    if !Waiting(b, h, now) {
      assert |Meaning(b, g.presses)| == |Meaning(b, h.presses)| + 1;
    }
  }

  /** A release keeps timers, counter and calls in agreement with the history exactly if it is heard. */
  lemma ReleaseNeedsHearing(b: Setup, start: bool, s: State, h: History, now: nat, quiet: nat, read: bool)
    requires b.Valid() && Agrees(b, start, s, h, now)
    requires h.down && !Recorded(b, start, h, Sample(now, read)).down
    ensures Agrees(b, start, Evaluated(b, s, now, quiet, read), Recorded(b, start, h, Sample(now, read)), now)
      <==> Heard(b, now, quiet)
  {
    if Heard(b, now, quiet) {
      SampleAgrees(b, start, s, h, now, quiet, read);
    } else {
      hide TimersAgree, CallsAgree, Touched, Settled;
      var g := Recorded(b, start, h, Sample(now, read));
      var c := Touched(s.contact, b.maxEval, read);
      var t := s.(contact := c, previous := c.state);
      NextSample(b, start, h.levels, read);
      Moved(b, s, t, h, now);
      UnheardDisagrees(b, t, h, g, now);
    }
  }

  /** A run that was not disturbed before its last event, a release, agrees with its history after it exactly if it
      is not disturbed by it either. */
  lemma LastReleaseNeedsHearing(b: Setup, start: bool, events: seq<Event>)
    requires b.Valid() && |events| > 0 && Undisturbed(b, start, events[..|events| - 1]) && events[|events| - 1].Sample?
    requires |events| > 1 ==> events[|events| - 2].now <= events[|events| - 1].now
    requires Past(b, start, events[..|events| - 1]).down && !Past(b, start, events).down
    ensures Agrees(b, start, After(b, start, events).button, Past(b, start, events), Clock(events))
      <==> Undisturbed(b, start, events)
  {
    hide TimersAgree, CallsAgree, ContactAgrees, Ordered, Elapsed, Evaluated, Heard, Recorded;
    var before, e := events[..|events| - 1], events[|events| - 1];
    RunAgrees(b, start, before);
    var w, h := After(b, start, before), Past(b, start, before);
    ElapsedAgrees(b, start, w.button, h, Clock(before), e.now);
    ReleaseNeedsHearing(b, start, Elapsed(w.button, e.now), h, e.now, w.quiet, e.read);
  }

  /** What an unheard push down leaves: the timers agree unless there is a hold to wait for. */
  lemma UnheardDown(b: Setup, s: State, h: History, g: History, now: nat)
    requires b.Valid() && Ordered(h, now) && TimersAgree(b, s, h, now) && CallsAgree(b, s.calls, h, now)
    requires !h.down && g == History(g.levels, true, now, true, h.presses)
    ensures Ordered(g, now) && CallsAgree(b, s.calls, g, now)
    ensures TimersAgree(b, s, g, now) <==> !b.held
  {
    hide Open, Meaning, Releases;
    TimesAreOrdered(b);
  }

  /** A push down keeps the agreement exactly if it is heard, or if it changes nothing: no hold is waited for and the
      last push down that was heard came at the same tick. */
  lemma DownNeedsHearing(b: Setup, start: bool, s: State, h: History, now: nat, quiet: nat, read: bool)
    requires b.Valid() && Agrees(b, start, s, h, now)
    requires !h.down && Recorded(b, start, h, Sample(now, read)).down
    ensures Agrees(b, start, Evaluated(b, s, now, quiet, read), Recorded(b, start, h, Sample(now, read)), now)
      <==> Heard(b, now, quiet) || (!b.held && s.last == now % WORD)
  {
    if Heard(b, now, quiet) {
      SampleAgrees(b, start, s, h, now, quiet, read);
    } else {
      hide TimersAgree, CallsAgree, Touched, Settled;
      var g := Recorded(b, start, h, Sample(now, read));
      var c := Touched(s.contact, b.maxEval, read);
      var t := s.(contact := c, previous := c.state);
      NextSample(b, start, h.levels, read);
      Moved(b, s, t, h, now);
      UnheardDown(b, t, h, g, now);
    }
  }

  /** The same for the last event of a run. */
  lemma LastDownNeedsHearing(b: Setup, start: bool, events: seq<Event>)
    requires b.Valid() && |events| > 0 && Undisturbed(b, start, events[..|events| - 1]) && events[|events| - 1].Sample?
    requires |events| > 1 ==> events[|events| - 2].now <= events[|events| - 1].now
    requires !Past(b, start, events[..|events| - 1]).down && Past(b, start, events).down
    ensures
      var w := After(b, start, events[..|events| - 1]);
      Agrees(b, start, After(b, start, events).button, Past(b, start, events), Clock(events))
      <==> Undisturbed(b, start, events) || (!b.held && w.button.last == events[|events| - 1].now % WORD)
  {
    hide TimersAgree, CallsAgree, ContactAgrees, Ordered, Elapsed, Evaluated, Heard, Recorded;
    var before, e := events[..|events| - 1], events[|events| - 1];
    RunAgrees(b, start, before);
    var w, h := After(b, start, before), Past(b, start, before);
    ElapsedAgrees(b, start, w.button, h, Clock(before), e.now);
    ElapsedLast(w.button, e.now);
    DownNeedsHearing(b, start, Elapsed(w.button, e.now), h, e.now, w.quiet, e.read);
  }

  lemma ElapsedLast(s: State, now: nat)
    ensures Elapsed(s, now).last == s.last
  {}

  /** A press whose beginning was not heard is taken for one that has lasted since the last push down that was. */
  lemma UnheardDownIsLonger(b: Setup, s: State, since: nat, up: nat, quiet: nat)
    requires b.Valid() && Heard(b, up, quiet) && since <= up && s.last == since % WORD && s.count in {0, 1, HELD}
    ensures PushedUp(b, s, up, quiet) == Ended(b, s, Press(since, up, false))
  {
    hide Heard;
    TimesAreOrdered(b);
    LengthCounts(Press(since, up, false));
  }

  lemma ElapsedAgrees(b: Setup, start: bool, s: State, h: History, before: nat, now: nat)
    requires b.Valid() && before <= now && Agrees(b, start, s, h, before)
    ensures Agrees(b, start, Elapsed(s, now), h, now)
  {
    hide TimersAgree, CallsAgree, Elapsed;
    TimePasses(b, s, h, before, now);
  }

  // ---- an example of it --------------------------------------------------------------------

  /** A button with ticks of ten milliseconds and a hold callback, of which one sample is enough. */
  const HOLDABLE := Setup(10, false, 1, false, false, false, false, true)

  /** Down at tick 10; the disable time is set at tick 20; up at tick 22; and a look at tick 900. */
  const UNHEARD := [Sample(10, false), Quieted(20), Sample(22, true), Sample(900, true)]

  /** The press lasted twelve ticks and was over long ago, but the only call is that of a hold. */
  lemma HeldThoughUp()
    ensures
      var h, w := Past(HOLDABLE, true, UNHEARD), After(HOLDABLE, true, UNHEARD);
      && !h.down && h.presses == [Press(10, 22, true)] && Meaning(HOLDABLE, h.presses) == [Single]
      && w.button.calls == [Hold] && w.button.count == HELD
  {
    var e := UNHEARD;
    assert e[..3][..2][..1] == [e[0]] && e[..3][..2] == [e[0], e[1]] && e[..3] == [e[0], e[1], e[2]];
    assert [e[0]][..0] == [];
    HeldThoughUpDown();
  }

  lemma HeldThoughUpDown()
    ensures Past(HOLDABLE, true, [UNHEARD[0]]) == History([false], true, 10, true, [])
    ensures After(HOLDABLE, true, [UNHEARD[0]]).button.hold == Due(810)
  {}

  /** A button with callbacks for longer presses, of which one sample is enough. */
  const LENGTHY := Setup(10, false, 1, false, false, true, true, false)

  /** The disable time is set at tick 200; down at tick 202 and up at tick 210. */
  const UNHEARD_DOWN := [Quieted(200), Sample(202, false), Sample(210, true)]

  /** The press lasted eight ticks, and the call is that of a very long one. */
  lemma VeryLongThoughShort()
    ensures
      var h, w := Past(LENGTHY, true, UNHEARD_DOWN), After(LENGTHY, true, UNHEARD_DOWN);
      && h.presses == [Press(202, 210, true)] && Meaning(LENGTHY, h.presses) == [Single]
      && w.button.calls == [VeryLong]
  {
    var e := UNHEARD_DOWN;
    assert e[..2] == [e[0], e[1]] && e[..2][..1] == [e[0]] && [e[0]][..0] == [];
    assert [Press(202, 210, true)][1..] == [];
    VeryLongDown();
  }

  lemma VeryLongDown()
    ensures Past(LENGTHY, true, UNHEARD_DOWN[..2]) == History([false], true, 202, true, [])
    ensures After(LENGTHY, true, UNHEARD_DOWN[..2])
      == World(State(Contact(false, 0), false, 0, 0, Idle, Idle, []), 200)
  {
    var e := UNHEARD_DOWN;
    assert e[..2] == [e[0], e[1]] && e[..2][..1] == [e[0]] && [e[0]][..0] == [];
    assert Past(LENGTHY, true, [e[0]]) == History([], false, 0, false, []);
    assert After(LENGTHY, true, [e[0]]) == World(Created(LENGTHY, true), 200);
  }
}
