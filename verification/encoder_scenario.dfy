/**
 How the release of an encoder's turn comes to be processed behind the press of the opposite turn, although
 `quantum/encoder.c` sends press and release of a turn one after the other: here with a delay of 20 ms between.
 */
module EncoderScenario {
  import opened Events
  import opened Tapping
  import opened TappingOrder
  import opened TappingScenarios
  import LayerCache

  const C_TAP := Event(TAP_C, 5, KeyEvent, true)
  const C_TAPPED := Event(TAP_C, 15, KeyEvent, false)
  const CW := Event(LayerCache.TURN_CW, 195, EncoderCwEvent, true)
  const CW_UP := Event(LayerCache.TURN_CW, 215, EncoderCwEvent, false)
  const CCW := Event(LayerCache.TURN_CCW, 235, EncoderCcwEvent, true)

  const WAITING_TAP := [Record(C_TAP, 0, false), Record(C_TAPPED, 0, false)]

  lemma StepCTap()
    ensures Step(DefaultConfig(), AfterA(), C_TAP) ==
            State(Record(A_DOWN, 0, true), [Record(C_TAP, 0, false)], World([A_DOWN, C_TAP], []))
  {
    var a := Accept(DefaultConfig(), AfterA(), C_TAP);
    assert a == State(Record(A_DOWN, 0, true), [Record(C_TAP, 0, false)], World([A_DOWN, C_TAP], []));
  }

  lemma StepCTapped(s: State)
    requires s == State(Record(A_DOWN, 0, true), [Record(C_TAP, 0, false)], World([A_DOWN, C_TAP], []))
    ensures Step(DefaultConfig(), s, C_TAPPED) ==
            State(Record(A_DOWN, 0, true), WAITING_TAP, World([A_DOWN, C_TAP, C_TAPPED], []))
  {
    assert IsCounterpart(s.buffer[0].event, C_TAPPED);
    var a := Accept(DefaultConfig(), s, C_TAPPED);
    assert a == State(Record(A_DOWN, 0, true), WAITING_TAP, World([A_DOWN, C_TAP, C_TAPPED], []));
    assert a.buffer[0 := a.buffer[0]] == a.buffer;
  }

  lemma StepCw(s: State)
    requires s == State(Record(A_DOWN, 0, true), WAITING_TAP, World([A_DOWN, C_TAP, C_TAPPED], []))
    ensures Step(DefaultConfig(), s, CW) ==
            State(Record(A_DOWN, 0, true), WAITING_TAP + [Record(CW, 0, false)],
                  World([A_DOWN, C_TAP, C_TAPPED, CW], []))
  {
    var a := Accept(DefaultConfig(), s, CW);
    assert a == State(Record(A_DOWN, 0, true), WAITING_TAP + [Record(CW, 0, false)],
                      World([A_DOWN, C_TAP, C_TAPPED, CW], []));
    assert a.buffer[0 := a.buffer[0]] == a.buffer;
  }

  const HELD_A_TAPPED_C := [Processed(Record(A_DOWN, 0, true), FromTappingKey),
                            Processed(Record(C_TAP, 1, false), FromTappingKey),
                            Processed(Record(C_TAPPED, 1, false), FromEvent)]
  const TURNED := HELD_A_TAPPED_C + [Processed(Record(CW, 0, false), FromEvent)]
  const OVERTAKEN := TURNED + [Processed(Record(CCW, 0, false), FromEvent),
                                Processed(Record(CW_UP, 0, false), FromEvent)]

  /** The waiting tap of C and the turn after it are handed over; then the term of the tap is over. */
  lemma DrainTap(s: State)
    requires s.tapping == NO_RECORD && s.world.log == [Processed(Record(A_DOWN, 0, true), FromTappingKey)]
    requires s.buffer == WAITING_TAP + [Record(CW, 0, false), Record(CW_UP, 0, false)]
    ensures Drain(DefaultConfig(), s) ==
            State(NO_RECORD, [Record(CW_UP, 0, false)], World(s.world.received, TURNED))
  {
    var cfg, c, up := DefaultConfig(), Record(C_TAP, 1, false), Record(C_TAPPED, 1, false);
    var w1 := World(s.world.received,
          [Processed(Record(A_DOWN, 0, true), FromTappingKey), Processed(c, FromTappingKey)]);
    var s1 := State(c, [up, Record(CW, 0, false), Record(CW_UP, 0, false)], w1);
    var s2 := State(up, [Record(CW, 0, false), Record(CW_UP, 0, false)], World(s.world.received, HELD_A_TAPPED_C));
    var s3 := State(up.(interrupted := true), [Record(CW_UP, 0, false)], World(s.world.received, TURNED));
    FirstRound(s);
    assert Retry(cfg, s1) == s2;
    assert Retry(cfg, s2) == s3;
    assert !ProcessTapping(cfg, s3, s3.buffer[0]).consumed;
    assert Drain(cfg, s3) == State(NO_RECORD, [Record(CW_UP, 0, false)], World(s.world.received, TURNED));
    assert Drain(cfg, s2) == Drain(cfg, s3);
    assert Drain(cfg, s1) == Drain(cfg, s2);
  }

  lemma FirstRound(s: State)
    requires s.tapping == NO_RECORD && s.world.log == [Processed(Record(A_DOWN, 0, true), FromTappingKey)]
    requires s.buffer == WAITING_TAP + [Record(CW, 0, false), Record(CW_UP, 0, false)]
    ensures ProcessTapping(DefaultConfig(), s, s.buffer[0]).consumed
    ensures Retry(DefaultConfig(), s) ==
            State(Record(C_TAP, 1, false), [Record(C_TAPPED, 1, false), Record(CW, 0, false), Record(CW_UP, 0, false)],
                  World(s.world.received, [Processed(Record(A_DOWN, 0, true), FromTappingKey),
                                           Processed(Record(C_TAP, 1, false), FromTappingKey)]))
  {
    var cfg := DefaultConfig();
    var b := s.(tapping := s.buffer[0]);
    assert !EndsTap(cfg, b, b.buffer[0].event) && EndsTap(cfg, b, b.buffer[1].event);
    assert ScanTapFrom(cfg, b, 0) == ScanTapFrom(cfg, b, 1) == SettleAsTapped(b, 1);
  }

  lemma StepCwUp(s: State)
    requires s.tapping == Record(A_DOWN, 0, true) && s.buffer == WAITING_TAP + [Record(CW, 0, false)] &&
      s.world.log == []
    ensures Step(DefaultConfig(), s, CW_UP) ==
            State(NO_RECORD, [Record(CW_UP, 0, false)], World(s.world.received + [CW_UP], TURNED))
  {
    var a := Accept(DefaultConfig(), s, CW_UP);
    assert a.buffer == WAITING_TAP + [Record(CW, 0, false), Record(CW_UP, 0, false)];
    DrainTap(a);
  }

  lemma StepCcw(s: State)
    requires s.tapping == NO_RECORD && s.buffer == [Record(CW_UP, 0, false)] && s.world.log == TURNED
    ensures Step(DefaultConfig(), s, CCW).world.log == OVERTAKEN
  {
    var cfg := DefaultConfig();
    var a := Accept(cfg, s, CCW);
    assert a == Emit(Receive(s, CCW), Record(CCW, 0, false), FromEvent);
    var o := ProcessTapping(cfg, a, a.buffer[0]);
    assert o == Outcome(Emit(a, a.buffer[0], FromEvent), a.buffer[0], true);
    assert Drain(cfg, a) == o.state.(buffer := []);
  }

  lemma TapWaits()
    ensures Run(DefaultConfig(), [A_DOWN, C_TAP, C_TAPPED]) ==
            State(Record(A_DOWN, 0, true), WAITING_TAP, World([A_DOWN, C_TAP, C_TAPPED], []))
    ensures SafeThroughout(DefaultConfig(), [A_DOWN, C_TAP, C_TAPPED])
  {
    var cfg := DefaultConfig();
    var es0: seq<Event> := [];
    var es1, es2 := [A_DOWN], [A_DOWN, C_TAP];
    assert es1 == es0 + [A_DOWN] && es2 == es1 + [C_TAP] && [A_DOWN, C_TAP, C_TAPPED] == es2 + [C_TAPPED];
    StepA();
    SafeAppend(cfg, es0, A_DOWN);
    StepCTap();
    SafeAppend(cfg, es1, C_TAP);
    StepCTapped(Run(cfg, es2));
    SafeAppend(cfg, es2, C_TAPPED);
  }

  /** The counter-clockwise press is handed over before the clockwise release that came before it. */
  lemma TurnOvertakesRelease()
    ensures Run(DefaultConfig(), [A_DOWN, C_TAP, C_TAPPED, CW, CW_UP, CCW]).world.log == OVERTAKEN
    ensures SafeThroughout(DefaultConfig(), [A_DOWN, C_TAP, C_TAPPED, CW, CW_UP, CCW])
  {
    var cfg := DefaultConfig();
    var es3 := [A_DOWN, C_TAP, C_TAPPED];
    var es4 := es3 + [CW];
    var es5 := es4 + [CW_UP];
    TapWaits();
    StepCw(Run(cfg, es3));
    SafeAppend(cfg, es3, CW);
    StepCwUp(Run(cfg, es4));
    SafeAppend(cfg, es4, CW_UP);
    StepCcw(Run(cfg, es5));
    SafeAppend(cfg, es5, CCW);
    assert [A_DOWN, C_TAP, C_TAPPED, CW, CW_UP, CCW] == es5 + [CCW];
  }

  // ---------------------------------------------------------------- what the layer cache makes of it

  /** What the records processed mean to the layer cache. */
  function ChangesOf(log: seq<Output>): (cs: seq<LayerCache.Change>)
    requires KeyboardCleared !in log
    ensures |cs| == |log|
  {
    seq(|log|, i requires 0 <= i < |log| =>
      assert log[i] in log;
      var e := log[i].record.event;
      if e.pressed then LayerCache.Press(e.key) else LayerCache.Release(e.key))
  }

  lemma {:induction false} LayersStay(z: LayerCache.Size, s: LayerCache.State, cs: seq<LayerCache.Change>, k: Key)
    requires forall i :: 0 <= i < |cs| ==> !cs[i].Switch?
    ensures LayerCache.Resolve(z, LayerCache.Run(z, s, cs), k) == LayerCache.Resolve(z, s, k)
  {
    if cs != [] {
      LayersStay(z, s, cs[..|cs| - 1], k);
    }
  }

  /** Just before that release is processed, the layer recalled for it is not the one its press was resolved to. */
  lemma TurnReleasedOnOtherLayer()
    ensures var z, s := LayerCache.TWO_LAYERS, LayerCache.BothLayersOn();
      var cs := ChangesOf(OVERTAKEN);
      && cs[3] == LayerCache.Press(LayerCache.TURN_CW) && cs[5] == LayerCache.Release(LayerCache.TURN_CW)
      && LayerCache.Resolve(z, LayerCache.Run(z, s, cs[..3]), LayerCache.TURN_CW) == 0
      && LayerCache.Recall(z, LayerCache.Run(z, s, cs[..5]), LayerCache.TURN_CW) == 1
  {
    var z, s, cs := LayerCache.TWO_LAYERS, LayerCache.BothLayersOn(), ChangesOf(OVERTAKEN);
    assert cs[..5][..4] == cs[..4];
    LayerCache.TopOfTwo(LayerCache.TURN_CW);
    LayerCache.TopOfTwo(LayerCache.TURN_CCW);
    LayersStay(z, s, cs[..3], LayerCache.TURN_CW);
    LayersStay(z, s, cs[..4], LayerCache.TURN_CCW);
    LayerCache.ReleaseUsesPressLayer(z, s, cs[..5], 4, LayerCache.TURN_CCW);
  }
}
