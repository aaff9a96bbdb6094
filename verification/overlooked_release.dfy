/**
 How a key that was let go within its term comes to be a hold: pressed again after a tap and another key, all while
 some third key was undecided, its press takes over without a look at what waits.
 */
module OverlookedRelease {
  import opened Events
  import opened Tapping
  import opened TappingOrder
  import opened TappingScenarios

  const D_FIRST := Event(TAP_D, 0, KeyEvent, true)
  const A_TAP := Event(TAP_A, 10, KeyEvent, true)
  const A_TAPPED := Event(TAP_A, 20, KeyEvent, false)
  const E_TYPED := Event(PLAIN_E, 30, KeyEvent, true)
  const A_SECOND := Event(TAP_A, 40, KeyEvent, true)
  const X_TYPED := Event(PLAIN_X, 50, KeyEvent, true)
  const A_SECOND_UP := Event(TAP_A, 60, KeyEvent, false)
  const TICK_200 := Event(Key(0, 0), 200, TickEvent, false)
  const TICK_250 := Event(Key(0, 0), 250, TickEvent, false)

  function Plain(e: Event): Record { Record(e, 0, false) }

  const TYPED_EVENTS := [A_TAP, A_TAPPED, E_TYPED, A_SECOND, X_TYPED, A_SECOND_UP]
  const WAITING := [Plain(A_TAP), Plain(A_TAPPED), Plain(E_TYPED), Plain(A_SECOND), Plain(X_TYPED), Plain(A_SECOND_UP)]

  const D_HELD := [Processed(Record(D_FIRST, 0, true), FromTappingKey)]
  const A_TAP_DONE := D_HELD + [Processed(Record(A_TAP, 1, false), FromTappingKey)]
  const A_TAPPED_DONE := A_TAP_DONE + [Processed(Record(A_TAPPED, 1, false), FromEvent)]
  const E_DONE := A_TAPPED_DONE + [Processed(Plain(E_TYPED), FromEvent)]
  const A_HELD := E_DONE + [Processed(Record(A_SECOND, 0, true), FromTappingKey)]
  const ALL_DONE := A_HELD + [Processed(Plain(X_TYPED), FromEvent), Processed(Plain(A_SECOND_UP), FromEvent)]

  /** Behind the undecided D everything waits for its turn. */
  lemma Waits(s: State, e: Event)
    requires s.tapping.event == D_FIRST && s.tapping.count == 0 && |s.buffer| < 7
    requires s.buffer != [] ==> s.buffer[0] == Plain(A_TAP)
    requires !e.IsTick() && e.time < 200 && e.key != TAP_D && (e.pressed || Typed(s.buffer, e))
    requires s.buffer == [] ==> e == A_TAP
    ensures var interrupted := s.tapping.interrupted || e.pressed || s.buffer != [];
      Step(DefaultConfig(), s, e) == State(Record(D_FIRST, 0, interrupted), s.buffer + [Plain(e)],
                                           World(s.world.received + [e], s.world.log))
  {
    var cfg := DefaultConfig();
    var a := Accept(cfg, s, e);
    assert a == State(Record(D_FIRST, 0, s.tapping.interrupted || e.pressed), s.buffer + [Plain(e)],
                      World(s.world.received + [e], s.world.log));
    assert a.buffer[0] == Plain(A_TAP);
    assert a.buffer[0 := a.buffer[0]] == a.buffer;
  }

  lemma FirstWait(es0: seq<Event>)
    requires Run(DefaultConfig(), es0) == State(Plain(D_FIRST), [], World([D_FIRST], []))
    ensures var s := Run(DefaultConfig(), es0 + [A_TAP] + [A_TAPPED] + [E_TYPED]);
      && s.tapping == Record(D_FIRST, 0, true) && s.world.log == []
      && s.buffer == [Plain(A_TAP), Plain(A_TAPPED), Plain(E_TYPED)]
  {
    var cfg := DefaultConfig();
    var es1 := es0 + [A_TAP];
    var es2 := es1 + [A_TAPPED];
    RunAppend(cfg, es0, A_TAP);
    RunAppend(cfg, es1, A_TAPPED);
    RunAppend(cfg, es2, E_TYPED);
    Waits(Run(cfg, es0), A_TAP);
    assert IsCounterpart(Run(cfg, es1).buffer[0].event, A_TAPPED);
    Waits(Run(cfg, es1), A_TAPPED);
    Waits(Run(cfg, es2), E_TYPED);
  }

  lemma AllWait()
    ensures var s := Run(DefaultConfig(), [D_FIRST] + TYPED_EVENTS);
      s.tapping == Record(D_FIRST, 0, true) && s.buffer == WAITING && s.world.log == []
  {
    var cfg := DefaultConfig();
    var none: seq<Event> := [];
    var es0 := none + [D_FIRST];
    RunAppend(cfg, none, D_FIRST);
    FirstWait(es0);
    var es3 := es0 + [A_TAP] + [A_TAPPED] + [E_TYPED];
    RestWait(Run(cfg, es3), es3);
    AllEvents();
  }

  lemma AllEvents()
    ensures var none: seq<Event> := [];
      [D_FIRST] + TYPED_EVENTS ==
      none + [D_FIRST] + [A_TAP] + [A_TAPPED] + [E_TYPED] + [A_SECOND] + [X_TYPED] + [A_SECOND_UP]
  {
  }

  lemma RestWait(s: State, es3: seq<Event>)
    requires s == Run(DefaultConfig(), es3) && s.tapping == Record(D_FIRST, 0, true) && s.world.log == []
    requires s.buffer == [Plain(A_TAP), Plain(A_TAPPED), Plain(E_TYPED)]
    ensures var s' := Run(DefaultConfig(), es3 + [A_SECOND] + [X_TYPED] + [A_SECOND_UP]);
      s'.tapping == Record(D_FIRST, 0, true) && s'.buffer == WAITING && s'.world.log == []
  {
    var cfg := DefaultConfig();
    var es4 := es3 + [A_SECOND];
    var es5 := es4 + [X_TYPED];
    RunAppend(cfg, es3, A_SECOND);
    RunAppend(cfg, es4, X_TYPED);
    RunAppend(cfg, es5, A_SECOND_UP);
    Waits(s, A_SECOND);
    Waits(Run(cfg, es4), X_TYPED);
    assert IsCounterpart(Run(cfg, es5).buffer[0].event, A_SECOND_UP);
    Waits(Run(cfg, es5), A_SECOND_UP);
  }

  /** The tap of A is handed over. */
  lemma TapGoes(s: State)
    requires s.tapping == NO_RECORD && s.buffer == WAITING && s.world.log == D_HELD
    ensures ProcessTapping(DefaultConfig(), s, s.buffer[0]).consumed
    ensures Retry(DefaultConfig(), s) ==
            State(Record(A_TAP, 1, false), [Record(A_TAPPED, 1, false)] + WAITING[2..],
                  World(s.world.received, A_TAP_DONE))
  {
    var cfg := DefaultConfig();
    var b := s.(tapping := s.buffer[0]);
    assert !EndsTap(cfg, b, b.buffer[0].event) && EndsTap(cfg, b, b.buffer[1].event);
    assert ScanTapFrom(cfg, b, 0) == ScanTapFrom(cfg, b, 1) == SettleAsTapped(b, 1);
  }

  /** Its release and E follow; the second press of A takes over, and stays undecided at X. */
  lemma SecondStaysUndecided(s: State)
    requires s.tapping == Record(A_TAP, 1, false) && s.world.log == A_TAP_DONE
    requires s.buffer == [Record(A_TAPPED, 1, false)] + WAITING[2..]
    ensures Drain(DefaultConfig(), s) ==
            State(Record(A_SECOND, 0, true), [Plain(X_TYPED), Plain(A_SECOND_UP)], World(s.world.received, E_DONE))
  {
    var cfg := DefaultConfig();
    var s1 := State(Record(A_TAPPED, 1, false), WAITING[2..], World(s.world.received, A_TAPPED_DONE));
    var s2 := State(Record(A_TAPPED, 1, true), WAITING[3..], World(s.world.received, E_DONE));
    var s3 := State(Plain(A_SECOND), WAITING[4..], World(s.world.received, E_DONE));
    assert Retry(cfg, s) == s1;
    assert Retry(cfg, s1) == s2;
    assert Retry(cfg, s2) == s3;
    assert Drain(cfg, s) == Drain(cfg, s1);
    assert Drain(cfg, s1) == Drain(cfg, s2);
    assert Drain(cfg, s2) == Drain(cfg, s3);
    StopsAtX(s3);
  }

  lemma StopsAtX(s: State)
    requires s.tapping == Plain(A_SECOND) && s.buffer == WAITING[4..]
    ensures Drain(DefaultConfig(), s) ==
            State(Record(A_SECOND, 0, true), [Plain(X_TYPED), Plain(A_SECOND_UP)], s.world)
  {
    var r := s.buffer[0];
    assert r == Plain(X_TYPED);
    assert ProcessTapping(DefaultConfig(), s, r) == Outcome(s.(tapping := Record(A_SECOND, 0, true)), r, false);
  }

  lemma TickSettlesD(s: State)
    requires s.tapping == Record(D_FIRST, 0, true) && s.buffer == WAITING && s.world.log == []
    ensures Step(DefaultConfig(), s, TICK_200) ==
            State(Record(A_SECOND, 0, true), [Plain(X_TYPED), Plain(A_SECOND_UP)],
                  World(s.world.received + [TICK_200], E_DONE))
  {
    var cfg := DefaultConfig();
    var a := Accept(cfg, s, TICK_200);
    assert a == State(NO_RECORD, WAITING, World(s.world.received + [TICK_200], D_HELD));
    TapGoes(a);
    SecondStaysUndecided(Retry(cfg, a));
  }

  lemma TickHoldsA(s: State)
    requires s.tapping == Record(A_SECOND, 0, true) && s.buffer == [Plain(X_TYPED), Plain(A_SECOND_UP)]
    requires s.world.log == E_DONE
    ensures Step(DefaultConfig(), s, TICK_250).world.log == ALL_DONE
  {
    var cfg := DefaultConfig();
    var w := World(s.world.received + [TICK_250], A_HELD);
    var a := Accept(cfg, s, TICK_250);
    assert a == State(NO_RECORD, s.buffer, w);
    var x, up := Processed(Plain(X_TYPED), FromEvent), Processed(Plain(A_SECOND_UP), FromEvent);
    var s1 := State(NO_RECORD, [Plain(A_SECOND_UP)], w.(log := A_HELD + [x]));
    assert Retry(cfg, a) == s1;
    assert Retry(cfg, s1) == State(NO_RECORD, [], w.(log := A_HELD + [x] + [up]));
    assert Drain(cfg, s1) == Retry(cfg, s1);
    assert A_HELD + [x] + [up] == ALL_DONE;
  }

  /** The second time A is down for 20 ms of its 200, and it is handed over as a hold. */
  lemma HeldThoughReleased()
    ensures Run(DefaultConfig(), [D_FIRST] + TYPED_EVENTS + [TICK_200, TICK_250]).world.log == ALL_DONE
    ensures Processed(Record(A_SECOND, 0, true), FromTappingKey) in ALL_DONE
    ensures Diff16(A_SECOND_UP.time, A_SECOND.time) == 20
  {
    var cfg, es := DefaultConfig(), [D_FIRST] + TYPED_EVENTS;
    AllWait();
    RunAppend(cfg, es, TICK_200);
    RunAppend(cfg, es + [TICK_200], TICK_250);
    TickSettlesD(Run(cfg, es));
    TickHoldsA(Run(cfg, es + [TICK_200]));
    assert es + [TICK_200, TICK_250] == es + [TICK_200] + [TICK_250];
  }
}
