/**
 * The button reader: debouncing, clicks, long presses and the all-buttons combination, over whole traces of samples.
 */
module Buttons {
  import opened Arithmetic
  import opened Wrappers

  const NUM_BUTTONS := 4
  const DEBOUNCE_TICKS := 2
  const LONG_PRESS_TICKS := 40
  const ALL_LONG_PRESS_TICKS := 250
  const UINT16_MAX := 0xFFFF
  const UINT32_MAX := 0xFFFF_FFFF

  datatype ButtonEvent = Click | LongPress

  datatype ButtonInput = ButtonInput(id: nat, event: ButtonEvent)

  // Wiring is active-low: a set bit is a released button.
  predicate RawHigh(port: bv16, i: nat)
    requires i < NUM_BUTTONS
  {
    port & ((1 as bv16) << i) != 0
  }

  // ---------- what a trace of levels means ----------

  // The levels of button i in the successful samples so far; true is released.
  function Levels(history: seq<bv16>, i: nat): (levels: seq<bool>)
    requires i < NUM_BUTTONS
    ensures |levels| == |history|
  {
    seq(|history|, k requires 0 <= k < |history| => RawHigh(history[k], i))
  }

  // Pressed, by the last two equal samples.
  predicate Pressed(levels: seq<bool>) {
    var n := |levels|;
    if n < DEBOUNCE_TICKS then false
    else if levels[n - 1] == levels[n - 2] then !levels[n - 1]
    else Pressed(levels[..n - 1])
  }

  // For how many samples the button has been pressed without a break.
  function Held(levels: seq<bool>): (n: nat)
    ensures n > 0 <==> Pressed(levels)
  {
    if !Pressed(levels) then 0 else 1 + Held(levels[..|levels| - 1])
  }

  // What the last sample gives rise to: a long press when the hold reaches 40 samples, a click when a shorter one ends.
  function EventAfter(levels: seq<bool>): Option<ButtonEvent> {
    if Held(levels) == LONG_PRESS_TICKS then Some(LongPress)
    else if levels != [] && !Pressed(levels) && 0 < Held(levels[..|levels| - 1]) < LONG_PRESS_TICKS then Some(Click)
    else None
  }

  predicate AllPressed(history: seq<bv16>) {
    forall i: nat | i < NUM_BUTTONS :: Pressed(Levels(history, i))
  }

  function AllHeld(history: seq<bv16>): nat {
    if history == [] || !AllPressed(history) then 0 else 1 + AllHeld(history[..|history| - 1])
  }

  // Pin i is button 3 - i, or i in an upside-down enclosure.
  function ButtonOf(i: nat, inverted: bool): nat
    requires i < NUM_BUTTONS
  {
    if inverted then i else NUM_BUTTONS - 1 - i
  }

  // The events of the last sample, from the first n buttons.
  function SampleEvents(history: seq<bv16>, inverted: bool, n: nat): seq<ButtonInput>
    requires n <= NUM_BUTTONS
  {
    if n == 0 then []
    else SampleEvents(history, inverted, n - 1) + Sent(EventAfter(Levels(history, n - 1)), ButtonOf(n - 1, inverted))
  }

  function Sent(event: Option<ButtonEvent>, id: nat): seq<ButtonInput> {
    match event
    case None => []
    case Some(e) => [ButtonInput(id, e)]
  }

  function Events(history: seq<bv16>, inverted: bool): seq<ButtonInput> {
    if history == [] then []
    else Events(history[..|history| - 1], inverted) + SampleEvents(history, inverted, NUM_BUTTONS)
  }

  function Combos(history: seq<bv16>): nat {
    if history == [] then 0
    else Combos(history[..|history| - 1]) + if AllHeld(history) == ALL_LONG_PRESS_TICKS then 1 else 0
  }

  // ---------- the reader ----------

  datatype State = State(lastRaw: bool, stableTicks: nat, pressed: bool, pressTicks: nat, longFired: bool)

  // The state of a button after these levels.
  ghost predicate Tracks(s: State, levels: seq<bool>) {
    var n := |levels|;
    && s.lastRaw == (n == 0 || levels[n - 1])
    && s.stableTicks == (if n < 2 then n else if levels[n - 1] == levels[n - 2] then DEBOUNCE_TICKS else 1)
    && s.pressed == Pressed(levels)
    && (s.pressed ==>
       s.pressTicks == Min(Held(levels), UINT16_MAX) && s.longFired == (Held(levels) >= LONG_PRESS_TICKS))
  }

  class ButtonReader {
    const inverted: bool
    const hasCallback: bool
    const state: array<State>
    var allPressedTicks: nat
    var allLongFired: bool
    // Attempts to queue an event, and callbacks made.
    var sent: seq<ButtonInput>
    var callbacks: nat
    ghost var history: seq<bv16>

    constructor (inverted: bool, hasCallback: bool)
      ensures Valid() && history == [] && this.inverted == inverted && this.hasCallback == hasCallback && fresh(state)
    {
      this.inverted, this.hasCallback := inverted, hasCallback;
      state := new State[NUM_BUTTONS](_ => State(true, 0, false, 0, false));
      allPressedTicks, allLongFired, sent, callbacks, history := 0, false, [], 0, [];
    }

    ghost predicate Buttons(h: seq<bv16>, n: nat)
      reads this, state
    {
      state.Length == NUM_BUTTONS && forall i: nat | i < n && i < NUM_BUTTONS :: Tracks(state[i], Levels(h, i))
    }

    ghost predicate Valid()
      reads this, state
    {
      && Buttons(history, NUM_BUTTONS)
      && allPressedTicks == Min(AllHeld(history), UINT32_MAX)
         && allLongFired == (AllHeld(history) >= ALL_LONG_PRESS_TICKS)
      && sent == Events(history, inverted) && callbacks == if hasCallback then Combos(history) else 0
    }

    // One button of one sample.
    method PollButton(i: nat, rawHigh: bool, ghost levels: seq<bool>)
      requires state.Length == NUM_BUTTONS && i < NUM_BUTTONS && Tracks(state[i], levels)
      modifies state, this`sent
      ensures Tracks(state[i], levels + [rawHigh])
      ensures sent == old(sent) + Sent(EventAfter(levels + [rawHigh]), ButtonOf(i, inverted))
      ensures forall j | 0 <= j < state.Length && j != i :: state[j] == old(state[j])
    {
      var s := state[i];
      ghost var now := levels + [rawHigh];
      assert now[..|now| - 1] == levels;
      if rawHigh == s.lastRaw {
        if s.stableTicks < DEBOUNCE_TICKS { s := s.(stableTicks := s.stableTicks + 1); }
      } else {
        s := s.(lastRaw := rawHigh, stableTicks := 1);
      }
      var debouncedPressed := !s.lastRaw;
      if s.stableTicks >= DEBOUNCE_TICKS && debouncedPressed != s.pressed {
        if debouncedPressed {
          s := s.(pressed := true, pressTicks := 0, longFired := false);
        } else {
          s := s.(pressed := false);
          if !s.longFired {
            sent := sent + [ButtonInput(ButtonOf(i, inverted), Click)];
          }
          s := s.(pressTicks := 0);
        }
      }
      if s.pressed {
        if s.pressTicks < UINT16_MAX { s := s.(pressTicks := s.pressTicks + 1); }
        if !s.longFired && s.pressTicks >= LONG_PRESS_TICKS {
          s := s.(longFired := true);
          sent := sent + [ButtonInput(ButtonOf(i, inverted), LongPress)];
        }
      }
      state[i] := s;
    }

    method PollButtons(rawPort: bv16, ghost now: seq<bv16>)
      requires Buttons(history, NUM_BUTTONS) && sent == Events(history, inverted) && now == history + [rawPort]
      modifies state, this`sent
      ensures Buttons(now, NUM_BUTTONS) && sent == Events(now, inverted)
    {
      hide Tracks, EventAfter, RawHigh, Pressed, Held;
      assert now[..|now| - 1] == history;
      for i := 0 to NUM_BUTTONS
        invariant forall j: nat | j < i :: Tracks(state[j], Levels(now, j))
        invariant forall j: nat | i <= j < NUM_BUTTONS :: Tracks(state[j], Levels(history, j))
        invariant sent == Events(history, inverted) + SampleEvents(now, inverted, i)
      {
        LevelsGrow(history, rawPort, i);
        PollButton(i, RawHigh(rawPort, i), Levels(history, i));
        assert sent == Events(history, inverted) + SampleEvents(now, inverted, i + 1);
      }
    }

    method AllButtonsPressed(ghost now: seq<bv16>) returns (allHeld: bool)
      requires Buttons(now, NUM_BUTTONS)
      ensures allHeld <==> AllPressed(now)
    {
      hide Tracks, Pressed;
      for i := 0 to NUM_BUTTONS
        invariant forall j: nat | j < i :: Pressed(Levels(now, j))
        invariant Buttons(now, NUM_BUTTONS)
      {
        PressedIs(state[i], Levels(now, i));
        if !state[i].pressed {
          return false;
        }
      }
      return true;
    }

    // One successful sample: every button in turn, then the all-buttons combination.
    method Poll(rawPort: bv16)
      requires Valid()
      modifies this, state
      ensures Valid() && history == old(history) + [rawPort]
    {
      hide Buttons, Events, AllPressed;
      ghost var now := history + [rawPort];
      assert now[..|now| - 1] == history;
      PollButtons(rawPort, now);
      var allHeld := AllButtonsPressed(now);
      label Polled:
      if allHeld {
        if allPressedTicks < UINT32_MAX { allPressedTicks := allPressedTicks + 1; }
        if !allLongFired && allPressedTicks >= ALL_LONG_PRESS_TICKS {
          allLongFired := true;
          if hasCallback { callbacks := callbacks + 1; }
        }
      } else {
        allPressedTicks := 0;
        allLongFired := false;
      }
      history := now;
      SameButtons@Polled(now);
    }

    twostate lemma SameButtons(h: seq<bv16>)
      requires old(Buttons(h, NUM_BUTTONS)) && forall i | 0 <= i < state.Length :: state[i] == old(state[i])
      ensures Buttons(h, NUM_BUTTONS)
    {}

    // The polling loop, on whatever it reads: failed reads are skipped and change nothing.
    method Run(samples: seq<Option<bv16>>)
      requires Valid()
      modifies this, state
      ensures Valid() && history == old(history) + Successful(samples)
    {
      hide Valid;
      for k := 0 to |samples|
        invariant Valid() && history == old(history) + Successful(samples[..k])
      {
        assert samples[..k + 1][..k] == samples[..k];
        if samples[k].Some? {
          Poll(samples[k].value);
        }
      }
      assert samples[..|samples|] == samples;
    }
  }

  function Successful(samples: seq<Option<bv16>>): seq<bv16> {
    if samples == [] then []
    else
      var last := samples[|samples| - 1];
      Successful(samples[..|samples| - 1]) + if last.Some? then [last.value] else []
  }

  lemma LevelsGrow(history: seq<bv16>, port: bv16, i: nat)
    requires i < NUM_BUTTONS
    ensures Levels(history + [port], i) == Levels(history, i) + [RawHigh(port, i)]
  {}

  lemma PressedIs(s: State, levels: seq<bool>)
    requires Tracks(s, levels)
    ensures s.pressed == Pressed(levels)
  {}

  // ---------- properties of every trace ----------

  // A press from sample a to sample b: released just before, pressed throughout, released just after.
  ghost predicate IsPress(levels: seq<bool>, a: nat, b: nat) {
    && a < b < |levels| && !Pressed(levels[..a]) && !Pressed(levels[..b + 1])
    && forall k | a < k <= b :: Pressed(levels[..k])
  }

  lemma {:induction false} HeldSince(levels: seq<bool>, a: nat, k: nat)
    requires a <= k <= |levels| && !Pressed(levels[..a]) && forall j | a < j <= k :: Pressed(levels[..j])
    ensures Held(levels[..k]) == k - a
  {
    if k > a {
      HeldSince(levels, a, k - 1);
      assert levels[..k][..k - 1] == levels[..k - 1];
    }
  }

  // Every press that ends gives exactly one event: a long press after 40 samples if it lasted so long, and otherwise a
  // click at its end.
  lemma PressHasOneEvent(levels: seq<bool>, a: nat, b: nat)
    requires IsPress(levels, a, b)
    ensures b - a >= 40 ==> EventAfter(levels[..a + 40]) == Some(LongPress)
    ensures b - a < 40 ==> EventAfter(levels[..b + 1]) == Some(Click)
    ensures forall k | a < k <= b + 1 && k != (if b - a >= 40 then a + 40 else b + 1) ::
              EventAfter(levels[..k]) == None
  {
    hide Pressed, Held;
    forall k | a < k <= b + 1
      ensures EventAfter(levels[..k]) == if k == b + 1 then (if b - a < 40 then Some(Click) else None)
                                         else if k - a == 40 then Some(LongPress) else None
    {
      assert levels[..k][..k - 1] == levels[..k - 1];
      HeldSince(levels, a, k - 1);
      if k <= b { HeldSince(levels, a, k); }
    }
  }

  // Nothing is sent while a button stays released.
  lemma NoEventAtRest(levels: seq<bool>)
    requires levels != [] && !Pressed(levels) && !Pressed(levels[..|levels| - 1])
    ensures EventAfter(levels) == None
  {
    hide Pressed;
  }

  // Two equal samples decide, low for pressed.
  lemma TwoSamplesDecide(levels: seq<bool>, level: bool)
    ensures Pressed(levels + [level, level]) == !level
  {
    var now := levels + [level, level];
    assert now[|now| - 1] == now[|now| - 2] == level;
  }

  // The levels of a pin, by its value in the port word.
  function PinLevels(history: seq<bv16>, mask: bv16): (levels: seq<bool>)
    ensures |levels| == |history|
  {
    seq(|history|, k requires 0 <= k < |history| => history[k] & mask != 0)
  }

  lemma PinMask(port: bv16, i: nat)
    requires i < 4
    ensures RawHigh(port, i) == (port & [1, 2, 4, 8][i] != 0)
  {
    if i == 0 {} else if i == 1 {} else if i == 2 {} else {}
  }

  // Button b is the pin of value 8, 4, 2 or 1, or 1, 2, 4 or 8 in an upside-down enclosure: it has an event in the
  // sample exactly when the levels of that pin give rise to it.
  lemma ButtonHasPin(history: seq<bv16>, inverted: bool, b: nat, e: ButtonEvent)
    requires b < 4
    ensures ButtonInput(b, e) in SampleEvents(history, inverted, 4)
       <==> EventAfter(PinLevels(history, if inverted then [1, 2, 4, 8][b] else [8, 4, 2, 1][b])) == Some(e)
  {
    hide EventAfter, RawHigh;
    forall i: nat | i < 4 ensures Levels(history, i) == PinLevels(history, [1, 2, 4, 8][i]) {
      forall k | 0 <= k < |history| ensures Levels(history, i)[k] == PinLevels(history, [1, 2, 4, 8][i])[k] {
        PinMask(history[k], i);
      }
    }
    assert SampleEvents(history, inverted, 0) == [];
    assert SampleEvents(history, inverted, 2)
        == SampleEvents(history, inverted, 1) + Sent(EventAfter(Levels(history, 1)), ButtonOf(1, inverted));
    assert SampleEvents(history, inverted, 3)
        == SampleEvents(history, inverted, 2) + Sent(EventAfter(Levels(history, 2)), ButtonOf(2, inverted));
  }

  lemma PressedNow(levels: seq<bool>, level: bool)
    requires levels != []
    ensures Pressed(levels + [level]) == if level == levels[|levels| - 1] then !level else Pressed(levels)
  {
    assert (levels + [level])[..|levels|] == levels;
  }

  // A level that lasts one sample changes nothing, and neither does the way back from it.
  lemma BounceIgnored(levels: seq<bool>, level: bool)
    requires |levels| >= 2 && levels[|levels| - 1] == levels[|levels| - 2] && level != levels[|levels| - 1]
    ensures Pressed(levels + [level]) == Pressed(levels)
    ensures Pressed(levels + [level] + [!level]) == Pressed(levels) == Pressed(levels + [level] + [!level] + [!level])
  {
    PressedNow(levels, level);
    PressedNow(levels + [level], !level);
    PressedNow(levels + [level] + [!level], !level);
  }

  // All four buttons pressed from sample a to sample b.
  ghost predicate IsStretch(history: seq<bv16>, a: nat, b: nat) {
    && a < b <= |history| && !AllPressed(history[..a]) && forall k | a < k <= b :: AllPressed(history[..k])
  }

  lemma {:induction false} AllHeldSince(history: seq<bv16>, a: nat, b: nat, k: nat)
    requires IsStretch(history, a, b) && a <= k <= b
    ensures AllHeld(history[..k]) == k - a
  {
    hide AllPressed;
    if k > a {
      AllHeldSince(history, a, b, k - 1);
      assert history[..k][..k - 1] == history[..k - 1];
    }
  }

  // The callback is made once in a stretch of at least 250 samples, at the 250th, and not in a shorter one.
  lemma {:induction false} StretchHasOneCombo(history: seq<bv16>, a: nat, b: nat)
    requires IsStretch(history, a, b)
    ensures Combos(history[..b]) == Combos(history[..a]) + if b - a >= 250 then 1 else 0
    decreases b
  {
    hide AllPressed, AllHeld;
    AllHeldSince(history, a, b, b);
    assert history[..b][..b - 1] == history[..b - 1];
    if b - 1 > a { StretchHasOneCombo(history, a, b - 1); }
  }

  // Outside such stretches the callback is never made.
  lemma NoComboAtRest(history: seq<bv16>)
    requires history != [] && !AllPressed(history)
    ensures Combos(history) == Combos(history[..|history| - 1])
  {
    hide AllPressed;
  }
}
