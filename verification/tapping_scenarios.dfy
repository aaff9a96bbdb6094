/** Concrete runs: repeated quick taps of any number, and runs that show where order and decisions go wrong. */
module TappingScenarios {
  import opened Events
  import opened Tapping
  import opened TappingOrder
  import opened TappingDecision
  import opened HostView

  // ---------------------------------------------------------------- counting taps

  datatype Tap = Tap(down: Time16, up: Time16)

  function PressOf(k: Key, t: Tap): Event { Event(k, t.down, KeyEvent, true) }

  function ReleaseOf(k: Key, t: Tap): Event { Event(k, t.up, KeyEvent, false) }

  function TapEvents(k: Key, taps: seq<Tap>): seq<Event> {
    if taps == [] then []
    else TapEvents(k, taps[..|taps| - 1]) + [PressOf(k, taps[|taps| - 1])] + [ReleaseOf(k, taps[|taps| - 1])]
  }

  /** Each tap is shorter than `term`, and follows the one before it within both terms. */
  ghost predicate QuickTaps(taps: seq<Tap>, term: Time16, quick: Time16) {
    && (forall i :: 0 <= i < |taps| ==> Diff16(taps[i].up, taps[i].down) < term)
    && (forall i :: 0 < i < |taps| ==>
          Diff16(taps[i].down, taps[i - 1].up) < quick && Diff16(taps[i].down, taps[i - 1].up) < term)
  }

  function CountOf(n: nat): TapCount { if n < 15 then n else 15 }

  /** What the host is told of `n` taps: the `i`th one carries tap count `i`, up to the 4-bit limit. */
  ghost predicate CountedTaps(k: Key, taps: seq<Tap>, log: seq<Output>) {
    && |log| == 2 * |taps|
    && forall i :: 0 <= i < |taps| ==>
      && log[2 * i].Processed? && log[2 * i].record == Record(PressOf(k, taps[i]), CountOf(i + 1), false)
      && log[2 * i + 1] == Processed(Record(ReleaseOf(k, taps[i]), CountOf(i + 1), false), FromEvent)
  }

  ghost predicate TapKey(cfg: Config, k: Key, term: Time16, quick: Time16) {
    forall w: World, r: Record :: r.event.key == k && !r.event.IsTick() ==>
      IsTap(cfg, w, r) && cfg.tappingTerm(w, r) == term && cfg.quickTapTerm(w, r) == quick
  }

  /** Press and release, starting idle: the release settles the tap, waits, and is retried at once. */
  lemma FirstTap(cfg: Config, s: State, k: Key, t: Tap, term: Time16, quick: Time16)
    requires TapKey(cfg, k, term, quick) && Diff16(t.up, t.down) < term
    requires s.tapping.event.IsTick() && s.buffer == []
    ensures var s' := Step(cfg, Step(cfg, s, PressOf(k, t)), ReleaseOf(k, t));
      var press, release := Record(PressOf(k, t), 1, false), Record(ReleaseOf(k, t), 1, false);
      s' == State(release, [], World(s.world.received + [PressOf(k, t)] + [ReleaseOf(k, t)],
                                     s.world.log + [Processed(press, FromTappingKey)] +
                                     [Processed(release, FromEvent)]))
  {
    var p, q := PressOf(k, t), ReleaseOf(k, t);
    var s1 := Step(cfg, s, p);
    assert s1 == Receive(s, p).(tapping := Record(p, 0, false));
    var a := Accept(cfg, s1, q);
    var tapped := Record(p, 1, false);
    assert a == Emit(Receive(s1, q), tapped, FromTappingKey).(tapping := tapped, buffer := [Record(q, 1, false)]);
    var o := ProcessTapping(cfg, a, a.buffer[0]);
    assert o.consumed;
    assert Drain(cfg, a) == o.state.(buffer := []);
  }

  /** Press and release again soon enough: both are handed over at once with the next count. */
  lemma NextTap(cfg: Config, s: State, k: Key, t: Tap, term: Time16, quick: Time16)
    requires TapKey(cfg, k, term, quick) && Diff16(t.up, t.down) < term
    requires s.tapping.event.key == k && !s.tapping.event.IsTick() && !s.tapping.event.pressed
    requires s.tapping.count > 0 && !s.tapping.interrupted && s.buffer == []
    requires Diff16(t.down, s.tapping.event.time) < quick && Diff16(t.down, s.tapping.event.time) < term
    ensures var s' := Step(cfg, Step(cfg, s, PressOf(k, t)), ReleaseOf(k, t));
      var n: TapCount := if s.tapping.count < 15 then s.tapping.count + 1 else 15;
      var press, release := Record(PressOf(k, t), n, false), Record(ReleaseOf(k, t), n, false);
      s' == State(release, [], World(s.world.received + [PressOf(k, t)] + [ReleaseOf(k, t)],
                                     s.world.log + [Processed(press, FromEvent)] + [Processed(release, FromEvent)]))
  {
  }

  lemma CountOneMore(k: Key, taps: seq<Tap>, t: Tap, log: seq<Output>, press: Output, release: Output)
    requires CountedTaps(k, taps, log)
    requires press.Processed? && press.record == Record(PressOf(k, t), CountOf(|taps| + 1), false)
    requires release == Processed(Record(ReleaseOf(k, t), CountOf(|taps| + 1), false), FromEvent)
    ensures CountedTaps(k, taps + [t], log + [press] + [release])
  {
  }

  /** The state after `taps`: idle if there were none, else waiting for the next quick tap. */
  ghost predicate AfterTaps(k: Key, taps: seq<Tap>, s: State) {
    && CountedTaps(k, taps, s.world.log)
    && s.buffer == []
    && (taps == [] ==> s.tapping.event.IsTick())
    && (taps != [] ==> s.tapping == Record(ReleaseOf(k, taps[|taps| - 1]), CountOf(|taps|), false))
  }

  lemma OneMoreTap(cfg: Config, k: Key, taps: seq<Tap>, t: Tap, s: State, term: Time16, quick: Time16)
    requires TapKey(cfg, k, term, quick) && QuickTaps(taps + [t], term, quick)
    requires AfterTaps(k, taps, s)
    ensures AfterTaps(k, taps + [t], Step(cfg, Step(cfg, s, PressOf(k, t)), ReleaseOf(k, t)))
  {
    var n := CountOf(|taps| + 1);
    var release := Processed(Record(ReleaseOf(k, t), n, false), FromEvent);
    assert (taps + [t])[|taps|] == t;
    if taps == [] {
      FirstTap(cfg, s, k, t, term, quick);
      CountOneMore(k, taps, t, s.world.log, Processed(Record(PressOf(k, t), n, false), FromTappingKey), release);
    } else {
      assert (taps + [t])[|taps| - 1] == taps[|taps| - 1];
      NextTap(cfg, s, k, t, term, quick);
      CountOneMore(k, taps, t, s.world.log, Processed(Record(PressOf(k, t), n, false), FromEvent), release);
    }
  }

  /** However often the key is tapped, the `i`th quick tap is reported with count `i`, up to 15. */
  lemma {:induction false} TapsAreCounted(cfg: Config, k: Key, taps: seq<Tap>, term: Time16, quick: Time16)
    requires TapKey(cfg, k, term, quick) && QuickTaps(taps, term, quick)
    ensures AfterTaps(k, taps, Run(cfg, TapEvents(k, taps)))
  {
    if taps != [] {
      var taps', t := taps[..|taps| - 1], taps[|taps| - 1];
      assert taps == taps' + [t];
      TapsAreCounted(cfg, k, taps', term, quick);
      var es' := TapEvents(k, taps');
      RunAppend(cfg, es', PressOf(k, t));
      RunAppend(cfg, es' + [PressOf(k, t)], ReleaseOf(k, t));
      OneMoreTap(cfg, k, taps', t, Run(cfg, es'), term, quick);
    }
  }

  lemma RunAppend(cfg: Config, es: seq<Event>, e: Event)
    ensures Run(cfg, es + [e]) == Step(cfg, Run(cfg, es), e)
  {
    assert (es + [e])[..|es + [e]| - 1] == es;
  }

  /** A plain key in between breaks the series: pressed again, however soon, the key is undecided as at first. */
  lemma InterruptedSeriesStartsAnew(cfg: Config, s: State, other: Event, again: Event)
    requires !s.tapping.event.IsTick() && !s.tapping.event.pressed && s.buffer == []
    requires other.kind == KeyEvent && other.pressed && other.key != s.tapping.event.key
    requires !IsTapAction(cfg.action(Receive(s, other).world, other.key))
    requires WithinTappingTerm(cfg, Receive(s, other), other)
    requires again.kind == KeyEvent && again.pressed && again.key == s.tapping.event.key
    requires WithinTappingTerm(cfg, Receive(Step(cfg, s, other), again), again)
    ensures var s' := Step(cfg, Step(cfg, s, other), again);
      && s'.tapping == Record(again, 0, false) && s'.buffer == []
      && s'.world.log == s.world.log + [Processed(Record(other, 0, false), FromEvent)]
  {
  }

  /** Undecided anew: the press may become a tap or a hold, and nothing has been handed over for it. */
  ghost predicate StartsAnew(s: State, press: Event, before: State) {
    s.tapping == Record(press, 0, false) && s.buffer == [] && s.world.log == before.world.log
  }

  /**
   A release that comes the term or more after its press ends the series: whether the key was decided or not,
   pressed again at any time it is undecided.
   */
  lemma LateReleaseEndsSeries(cfg: Config, s: State, k: Key, up: Time16, again: Time16, term: Time16, quick: Time16)
    requires TapKey(cfg, k, term, quick)
    requires s.tapping.event.kind == KeyEvent && s.tapping.event.pressed && s.tapping.event.key == k && s.buffer == []
    requires Diff16(up, s.tapping.event.time) >= term
    ensures var s' := Step(cfg, s, Event(k, up, KeyEvent, false));
      && !IsUnsettled(s'.tapping) && s'.buffer == []
      && StartsAnew(Step(cfg, s', Event(k, again, KeyEvent, true)), Event(k, again, KeyEvent, true), s')
  {
    var release, press := Event(k, up, KeyEvent, false), Event(k, again, KeyEvent, true);
    if s.tapping.count == 0 {
      var a := Accept(cfg, s, release);
      var held := Emit(Receive(s, release), s.tapping, FromTappingKey);
      assert a == held.(tapping := NO_RECORD, buffer := [Record(release, 0, false)]);
      var o := ProcessTapping(cfg, a, a.buffer[0]);
      assert o == Outcome(Emit(a, a.buffer[0], FromEvent), a.buffer[0], true);
      assert Drain(cfg, a) == o.state.(buffer := []);
    }
    var s' := Step(cfg, s, release);
    assert s'.tapping == NO_RECORD && s'.buffer == [];
  }

  /** After any quick taps, and one more press that is held beyond the term, the next press is undecided. */
  lemma HoldEndsTaps(cfg: Config, k: Key, taps: seq<Tap>, last: Tap, again: Time16, term: Time16, quick: Time16)
    requires TapKey(cfg, k, term, quick) && QuickTaps(taps, term, quick) && Diff16(last.up, last.down) >= term
    ensures var held := TapEvents(k, taps) + [PressOf(k, last)] + [ReleaseOf(k, last)];
      var press := Event(k, again, KeyEvent, true);
      StartsAnew(Run(cfg, held + [press]), press, Run(cfg, held))
  {
    var es := TapEvents(k, taps);
    var s := Run(cfg, es);
    TapsAreCounted(cfg, k, taps, term, quick);
    RunAppend(cfg, es, PressOf(k, last));
    RunAppend(cfg, es + [PressOf(k, last)], ReleaseOf(k, last));
    RunAppend(cfg, es + [PressOf(k, last)] + [ReleaseOf(k, last)], Event(k, again, KeyEvent, true));
    PressedAgainIff(cfg, s, k, taps, last.down, term, quick);
    LateReleaseEndsSeries(cfg, Run(cfg, es + [PressOf(k, last)]), k, last.up, again, term, quick);
  }

  /**
   After quick taps the next press of the key counts on, and is handed over at once, exactly if it comes within
   the quick tap term and the tapping term of the last release; otherwise it starts anew.
   */
  lemma PressedAgainIff(cfg: Config, s: State, k: Key, taps: seq<Tap>, down: Time16, term: Time16, quick: Time16)
    requires TapKey(cfg, k, term, quick) && AfterTaps(k, taps, s)
    ensures var press := Event(k, down, KeyEvent, true);
      var s' := Step(cfg, s, press);
      if taps != [] && Diff16(down, taps[|taps| - 1].up) < quick && Diff16(down, taps[|taps| - 1].up) < term then
        && s'.tapping == Record(press, CountOf(|taps| + 1), false) && s'.buffer == []
        && s'.world.log == s.world.log + [Processed(Record(press, CountOf(|taps| + 1), false), FromEvent)]
      else StartsAnew(s', press, s)
  {
    var press := Event(k, down, KeyEvent, true);
    if taps != [] && Diff16(down, taps[|taps| - 1].up) >= term {
      var a := Accept(cfg, s, press);
      assert a == Receive(s, press).(tapping := NO_RECORD, buffer := [Record(press, 0, false)]);
      var b := a.(tapping := a.buffer[0]);
      assert !EndsTap(cfg, b, b.buffer[0].event);
      assert ScanTapFrom(cfg, b, 1) == ScanTapFrom(cfg, b, 0) == b;
      assert Drain(cfg, a) == b.(buffer := []);
    }
  }

  // ---------------------------------------------------------------- where the order is lost

  const TAP_A := Key(0, 0)
  const TAP_C := Key(0, 1)
  const PLAIN_E := Key(0, 2)
  const TAP_D := Key(0, 3)
  const PLAIN_X := Key(0, 4)

  /** Left shift when held and KC_A when tapped; KC_B; and left shift. */
  const SHIFT_OR_A: nat := 0x2204
  const PLAIN_B: nat := 0x0005
  const SHIFT: nat := 0x00E1

  function ActionOf(k: Key): nat {
    if k == TAP_A || k == TAP_C || k == TAP_D then SHIFT_OR_A else if k == PLAIN_X then SHIFT else PLAIN_B
  }

  /** The default configuration with three tap-hold keys and a 200 ms term. */
  function DefaultConfig(): Config {
    Config((w, k) => ActionOf(k), (w, r) => 200, (w, r) => 200, (w, r) => false, (w, r) => false)
  }

  const A_DOWN := Event(TAP_A, 0, KeyEvent, true)
  const C_DOWN := Event(TAP_C, 100, KeyEvent, true)
  const E_DOWN := Event(PLAIN_E, 301, KeyEvent, true)
  const E_UP := Event(PLAIN_E, 302, KeyEvent, false)

  /** The machine after the first one, two, three and four events. */
  function AfterA(): State {
    State(Record(A_DOWN, 0, false), [], World([A_DOWN], []))
  }

  function AfterC(): State {
    State(Record(A_DOWN, 0, true), [Record(C_DOWN, 0, false)], World([A_DOWN, C_DOWN], []))
  }

  function AfterE(): State {
    State(NO_RECORD, [Record(E_DOWN, 0, false)],
          World([A_DOWN, C_DOWN, E_DOWN], [Processed(Record(A_DOWN, 0, true), FromTappingKey),
                                           Processed(Record(C_DOWN, 0, false), FromTappingKey)]))
  }

  function AfterRelease(): State {
    State(NO_RECORD, [],
          World([A_DOWN, C_DOWN, E_DOWN, E_UP], [Processed(Record(A_DOWN, 0, true), FromTappingKey),
                                                 Processed(Record(C_DOWN, 0, false), FromTappingKey),
                                                 Processed(Record(E_UP, 0, false), FromEvent),
                                                 Processed(Record(E_DOWN, 0, false), FromEvent)]))
  }

  lemma StepA()
    ensures Run(DefaultConfig(), [A_DOWN]) == AfterA()
  {
    RunAppend(DefaultConfig(), [], A_DOWN);
    assert [] + [A_DOWN] == [A_DOWN];
  }

  lemma StepC()
    ensures Step(DefaultConfig(), AfterA(), C_DOWN) == AfterC()
  {
    assert WithinTappingTerm(DefaultConfig(), Receive(AfterA(), C_DOWN), C_DOWN);
    assert Accept(DefaultConfig(), AfterA(), C_DOWN) == AfterC();
  }

  /** E arrives late for A and for C: both become holds, and the retry loop stops with E still waiting. */
  lemma StepE()
    ensures Step(DefaultConfig(), AfterC(), E_DOWN) == AfterE()
  {
    var cfg := DefaultConfig();
    var a := Accept(cfg, AfterC(), E_DOWN);
    assert a == State(NO_RECORD, [Record(C_DOWN, 0, false), Record(E_DOWN, 0, false)],
                      World([A_DOWN, C_DOWN, E_DOWN], [Processed(Record(A_DOWN, 0, true), FromTappingKey)]));
    var b := a.(tapping := Record(C_DOWN, 0, false));
    assert !EndsTap(cfg, b, b.buffer[0].event) && !EndsTap(cfg, b, b.buffer[1].event);
    assert ScanTapFrom(cfg, b, 2) == ScanTapFrom(cfg, b, 1) == ScanTapFrom(cfg, b, 0) == b;
    var c := b.(buffer := [Record(E_DOWN, 0, false)]);
    assert ProcessTapping(cfg, a, a.buffer[0]) == Outcome(b, a.buffer[0], true);
    assert Drain(cfg, a) == Drain(cfg, c) by { assert b.buffer[1..] == c.buffer; }
    assert !ProcessTapping(cfg, c, c.buffer[0]).consumed;
    assert c.buffer[0 := c.buffer[0]] == c.buffer;
  }

  lemma StepRelease()
    ensures Step(DefaultConfig(), AfterE(), E_UP) == AfterRelease()
  {
    var cfg := DefaultConfig();
    var a := Accept(cfg, AfterE(), E_UP);
    assert a == Emit(Receive(AfterE(), E_UP), Record(E_UP, 0, false), FromEvent);
    var o := ProcessTapping(cfg, a, a.buffer[0]);
    assert o == Outcome(Emit(a, Record(E_DOWN, 0, false), FromEvent), a.buffer[0], true);
    assert a.buffer[1..] == [];
  }

  /**
   The order is not kept on every run: with no tick between the late key press and its release,
   the release is handed over before the press. No event was lost and the buffer never filled.
   */
  lemma ReleaseOvertakesPress()
    ensures Run(DefaultConfig(), [A_DOWN, C_DOWN, E_DOWN, E_UP]) == AfterRelease()
    ensures !SafeArrival(DefaultConfig(), Run(DefaultConfig(), [A_DOWN, C_DOWN, E_DOWN]), E_UP)
  {
    var cfg := DefaultConfig();
    StepA();
    StepC();
    StepE();
    StepRelease();
    RunAppend(cfg, [A_DOWN], C_DOWN);
    assert [A_DOWN] + [C_DOWN] == [A_DOWN, C_DOWN];
    RunAppend(cfg, [A_DOWN, C_DOWN], E_DOWN);
    assert [A_DOWN, C_DOWN] + [E_DOWN] == [A_DOWN, C_DOWN, E_DOWN];
    RunAppend(cfg, [A_DOWN, C_DOWN, E_DOWN], E_UP);
    assert [A_DOWN, C_DOWN, E_DOWN] + [E_UP] == [A_DOWN, C_DOWN, E_DOWN, E_UP];
    assert AfterE().buffer[0].event.key == E_UP.key;
  }

  // ---------------------------------------------------------------- where decisions go wrong

  const D_DOWN := Event(TAP_D, 305, KeyEvent, true)

  function AfterD(): State {
    AfterE().(world := World([A_DOWN, C_DOWN, E_DOWN, D_DOWN],
                             AfterE().world.log + [Processed(Record(D_DOWN, 0, false), FromTappingKey)]))
  }

  lemma StepD()
    ensures Step(DefaultConfig(), AfterE(), D_DOWN) == AfterD()
  {
    var cfg, e := DefaultConfig(), Record(E_DOWN, 0, false);
    var a := Accept(cfg, AfterE(), D_DOWN);
    var b := Receive(AfterE(), D_DOWN).(tapping := Record(D_DOWN, 0, false));
    assert !EndsTap(cfg, b, b.buffer[0].event);
    assert ScanTapFrom(cfg, b, 1) == ScanTapFrom(cfg, b, 0) == b;
    assert a == b;
    assert ProcessTapping(cfg, a, e) == Outcome(Emit(a, a.tapping, FromTappingKey).(tapping := NO_RECORD), e, false);
    assert a.buffer[0 := e] == a.buffer;
  }

  /**
   A hold that nothing justifies: pressed at 305, D is handed over as a hold by the very step that receives
   it, because E, pressed at 301, seems to come 65532 ms later. All arrivals were safe and nothing was lost.
   */
  lemma HeldAtOnce()
    ensures Run(DefaultConfig(), [A_DOWN, C_DOWN, E_DOWN, D_DOWN]) == AfterD()
    ensures SafeThroughout(DefaultConfig(), [A_DOWN, C_DOWN, E_DOWN, D_DOWN])
    ensures TakenPast(DefaultConfig(), Run(DefaultConfig(), [A_DOWN, C_DOWN, E_DOWN]), D_DOWN)
  {
    var cfg := DefaultConfig();
    ReleaseOvertakesPress();
    StepA();
    StepC();
    StepE();
    StepD();
    assert [] + [A_DOWN] == [A_DOWN];
    assert [A_DOWN] + [C_DOWN] == [A_DOWN, C_DOWN];
    assert [A_DOWN, C_DOWN] + [E_DOWN] == [A_DOWN, C_DOWN, E_DOWN];
    assert [A_DOWN, C_DOWN, E_DOWN] + [D_DOWN] == [A_DOWN, C_DOWN, E_DOWN, D_DOWN];
    SafeAppend(cfg, [], A_DOWN);
    SafeAppend(cfg, [A_DOWN], C_DOWN);
    SafeAppend(cfg, [A_DOWN, C_DOWN], E_DOWN);
    SafeAppend(cfg, [A_DOWN, C_DOWN, E_DOWN], D_DOWN);
  }

  lemma SafeAppend(cfg: Config, es: seq<Event>, e: Event)
    ensures SafeThroughout(cfg, es + [e]) <==> SafeThroughout(cfg, es) && SafeArrival(cfg, Run(cfg, es), e)
    ensures Run(cfg, es + [e]) == Step(cfg, Run(cfg, es), e)
  {
    assert (es + [e])[..|es + [e]| - 1] == es;
  }

  const X_DOWN := Event(PLAIN_X, 0, KeyEvent, true)
  const LATER_A_DOWN := Event(TAP_A, 10, KeyEvent, true)
  const X_UP := Event(PLAIN_X, 20, KeyEvent, false)
  const X_AGAIN := Event(PLAIN_X, 30, KeyEvent, true)

  function PermissiveConfig(): Config {
    DefaultConfig().(permissiveHold := (w, r) => true)
  }

  const X_LOG := [Processed(Record(X_DOWN, 0, false), FromEvent)]

  function AfterLaterA(): State {
    State(Record(LATER_A_DOWN, 0, false), [], World([X_DOWN, LATER_A_DOWN], X_LOG))
  }

  function AfterXUp(): State {
    AfterLaterA().(buffer := [Record(X_UP, 0, false)], world := World([X_DOWN, LATER_A_DOWN, X_UP], X_LOG))
  }

  lemma StepX()
    ensures Step(PermissiveConfig(), INITIAL, X_DOWN) == State(NO_RECORD, [], World([X_DOWN], X_LOG))
  {
  }

  lemma StepLaterA()
    ensures Step(PermissiveConfig(), State(NO_RECORD, [], World([X_DOWN], X_LOG)), LATER_A_DOWN) == AfterLaterA()
  {
  }

  lemma StepXUp()
    ensures Step(PermissiveConfig(), AfterLaterA(), X_UP) == AfterXUp()
  {
  }

  lemma StepXAgain()
    ensures Step(PermissiveConfig(), AfterXUp(), X_AGAIN).world.log ==
            X_LOG + [Processed(Record(LATER_A_DOWN, 0, true), FromTappingKey)]
  {
    var a := Accept(PermissiveConfig(), AfterXUp(), X_AGAIN);
    assert a.buffer == [Record(X_UP, 0, false), Record(X_AGAIN, 0, false)];
    assert IsCounterpart(a.buffer[1].event, X_UP);
  }

  /**
   Permissive hold is meant for a key pressed and released while the tapping key is down. A modifier that
   was down before is released, which has to wait, and pressed again: that settles the tapping key too.
   */
  lemma PermissiveHoldWithoutNestedTap()
    ensures Run(PermissiveConfig(), [X_DOWN, LATER_A_DOWN, X_UP, X_AGAIN]).world.log ==
            [Processed(Record(X_DOWN, 0, false), FromEvent), Processed(Record(LATER_A_DOWN, 0, true), FromTappingKey)]
  {
    StepX();
    StepLaterA();
    StepXUp();
    StepXAgain();
    RunAppend(PermissiveConfig(), [], X_DOWN);
    RunAppend(PermissiveConfig(), [X_DOWN], LATER_A_DOWN);
    assert [] + [X_DOWN] == [X_DOWN];
    assert [X_DOWN] + [LATER_A_DOWN] == [X_DOWN, LATER_A_DOWN];
    RunAppend(PermissiveConfig(), [X_DOWN, LATER_A_DOWN], X_UP);
    RunAppend(PermissiveConfig(), [X_DOWN, LATER_A_DOWN, X_UP], X_AGAIN);
    assert [X_DOWN, LATER_A_DOWN] + [X_UP] == [X_DOWN, LATER_A_DOWN, X_UP];
    assert [X_DOWN, LATER_A_DOWN, X_UP] + [X_AGAIN] == [X_DOWN, LATER_A_DOWN, X_UP, X_AGAIN];
  }

  // ---------------------------------------------------------------- where the host loses a key that is held

  const A_UP := Event(TAP_A, 50, KeyEvent, false)
  const A_AGAIN := Event(TAP_A, 100, KeyEvent, true)
  const C_LATER := Event(TAP_C, 150, KeyEvent, true)
  const C_UP := Event(TAP_C, 160, KeyEvent, false)
  const A_LET_GO := Event(TAP_A, 170, KeyEvent, false)

  const TAPPED_A := [Processed(Record(A_DOWN, 1, false), FromTappingKey), Processed(Record(A_UP, 1, false), FromEvent)]
  const HELD_A := TAPPED_A + [Processed(Record(A_AGAIN, 2, false), FromEvent)]
  const LOST_A := HELD_A + [Processed(Record(Event(TAP_A, 150, KeyEvent, false), 2, false), SyntheticRelease)]
  const TAPPED_C := LOST_A + [Processed(Record(C_LATER, 1, false), FromTappingKey),
                              Processed(Record(C_UP, 1, false), FromEvent)]

  lemma StepAUp()
    ensures Step(DefaultConfig(), AfterA(), A_UP) == State(Record(A_UP, 1, false), [], World([A_DOWN, A_UP], TAPPED_A))
  {
    var cfg := DefaultConfig();
    StepA();
    RunAppend(cfg, [], A_DOWN);
    assert [] + [A_DOWN] == [A_DOWN];
    FirstTap(cfg, INITIAL, TAP_A, Tap(0, 50), 200, 200);
  }

  lemma StepAAgain(s: State)
    requires s.tapping == Record(A_UP, 1, false) && s.buffer == [] && s.world.log == TAPPED_A
    ensures Step(DefaultConfig(), s, A_AGAIN) ==
            State(Record(A_AGAIN, 2, false), [], World(s.world.received + [A_AGAIN], HELD_A))
  {
  }

  lemma StepCLater(s: State)
    requires s.tapping == Record(A_AGAIN, 2, false) && s.buffer == [] && s.world.log == HELD_A
    ensures Step(DefaultConfig(), s, C_LATER) ==
            State(Record(C_LATER, 0, false), [], World(s.world.received + [C_LATER], LOST_A))
  {
  }

  lemma StepCUp(s: State)
    requires s.tapping == Record(C_LATER, 0, false) && s.buffer == [] && s.world.log == LOST_A
    ensures Step(DefaultConfig(), s, C_UP) ==
            State(Record(C_UP, 1, false), [], World(s.world.received + [C_UP], TAPPED_C))
  {
    var cfg, tapped, up := DefaultConfig(), Record(C_LATER, 1, false), Record(C_UP, 1, false);
    var a := Accept(cfg, s, C_UP);
    assert a == Emit(Receive(s, C_UP), tapped, FromTappingKey).(tapping := tapped, buffer := [up]);
    var o := ProcessTapping(cfg, a, up);
    assert o == Outcome(Emit(a, up, FromEvent).(tapping := up), up, true);
    assert Drain(cfg, a) == o.state.(buffer := []);
    assert LOST_A + [Processed(tapped, FromTappingKey)] + [Processed(up, FromEvent)] == TAPPED_C;
  }

  lemma StepALetGo(s: State)
    requires s.tapping == Record(C_UP, 1, false) && s.buffer == [] && s.world.log == TAPPED_C
    ensures Step(DefaultConfig(), s, A_LET_GO) ==
            State(s.tapping, [], World(s.world.received + [A_LET_GO],
                  TAPPED_C + [Processed(Record(A_LET_GO, 0, false), FromEvent)]))
  {
  }

  lemma LostWhileHeld()
    ensures LastMadeUp(TAPPED_C, TAP_A)
  {
    assert TAPPED_C[..|TAPPED_C| - 1][..|LOST_A|] == LOST_A;
  }

  lemma HeldAfterTap()
    ensures Run(DefaultConfig(), [A_DOWN, A_UP, A_AGAIN]) ==
            State(Record(A_AGAIN, 2, false), [], World([A_DOWN, A_UP, A_AGAIN], HELD_A))
    ensures SafeThroughout(DefaultConfig(), [A_DOWN, A_UP, A_AGAIN])
  {
    var cfg := DefaultConfig();
    var es0: seq<Event> := [];
    var es1, es2 := [A_DOWN], [A_DOWN, A_UP];
    assert es1 == es0 + [A_DOWN] && es2 == es1 + [A_UP] && [A_DOWN, A_UP, A_AGAIN] == es2 + [A_AGAIN];
    StepA();
    SafeAppend(cfg, es0, A_DOWN);
    StepAUp();
    SafeAppend(cfg, es1, A_UP);
    StepAAgain(Run(cfg, es2));
    SafeAppend(cfg, es2, A_AGAIN);
  }

  /**
   A is tapped and held, then C is tapped: the host is told that A is up. The machine is idle, A is still
   held on its switch, and when it is let go the host is told so a second time.
   */
  lemma HostLosesHeldKey()
    ensures var s := Run(DefaultConfig(), [A_DOWN, A_UP, A_AGAIN, C_LATER, C_UP]);
      s.buffer == [] && !IsUnsettled(s.tapping) && s.world.log == TAPPED_C && LastMadeUp(s.world.log, TAP_A)
    ensures Run(DefaultConfig(), [A_DOWN, A_UP, A_AGAIN, C_LATER, C_UP, A_LET_GO]).world.log ==
            TAPPED_C + [Processed(Record(A_LET_GO, 0, false), FromEvent)]
    ensures SafeThroughout(DefaultConfig(), [A_DOWN, A_UP, A_AGAIN, C_LATER, C_UP, A_LET_GO])
  {
    var cfg := DefaultConfig();
    var es3 := [A_DOWN, A_UP, A_AGAIN];
    var es4 := es3 + [C_LATER];
    var es5 := es4 + [C_UP];
    HeldAfterTap();
    StepCLater(Run(cfg, es3));
    SafeAppend(cfg, es3, C_LATER);
    StepCUp(Run(cfg, es4));
    SafeAppend(cfg, es4, C_UP);
    StepALetGo(Run(cfg, es5));
    SafeAppend(cfg, es5, A_LET_GO);
    LostWhileHeld();
    assert [A_DOWN, A_UP, A_AGAIN, C_LATER, C_UP] == es5;
    assert [A_DOWN, A_UP, A_AGAIN, C_LATER, C_UP, A_LET_GO] == es5 + [A_LET_GO];
  }
}
