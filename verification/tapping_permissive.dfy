/**
 Permissive hold: meant for a key pressed and released while the tapping key is down. The code only asks whether
 press and release of that key meet in the waiting buffer, in whichever order they came.
 */
module TappingPermissive {
  import opened Events
  import opened Tapping
  import opened TappingOrder
  import opened TappingTrail
  import opened TappingDecision

  /** Tried now, the record would neither decide the undecided tapping key nor be handed over ahead of it. */
  predicate Rests(cfg: Config, s: State, r: Record) {
    !Decides(cfg, s, r) && !Passes(cfg, s, r)
  }

  /** The state after the first attempt at `e`, before it is queued if it has to be. */
  function Tried(cfg: Config, s: State, e: Event): State {
    ProcessTapping(cfg, Receive(s, e), Record(e, 0, false)).state
  }

  /** The event does not decide the key, nor does what waits longest, or the event itself tried once more. */
  predicate DecidesNothingAlone(cfg: Config, s: State, e: Event) {
    && !Decides(cfg, Receive(s, e), Record(e, 0, false))
    && if s.buffer == [] then e.pressed ==> !Decides(cfg, Tried(cfg, s, e), Record(e, 0, false))
       else Rests(cfg, Tried(cfg, s, e), s.buffer[0])
  }

  /** From `s` to `s'` the tapping key was handed over, decided. */
  ghost predicate HandsOver(s: State, s': State) {
    exists i :: |s.world.log| <= i < |s'.world.log| && IsDecisionOn(s.tapping, s'.world.log[i])
  }

  predicate IsDecisionOn(tapping: Record, x: Output) {
    IsDecision(x) && x.record.event == tapping.event
  }

  /** A release waits longest, and `e` presses its key again. */
  predicate PressesAgain(s: State, e: Event) {
    s.buffer != [] && !s.buffer[0].event.pressed && e.pressed && e.key == s.buffer[0].event.key
  }

  lemma FirstAttempt(cfg: Config, s: State, e: Event)
    requires Inv(s) && IsUnsettled(s.tapping) && !e.IsTick() && !Overflows(cfg, s, e)
    requires !Decides(cfg, Receive(s, e), Record(e, 0, false))
    ensures var o, a, r := Tried(cfg, s, e), Accept(cfg, s, e), Record(e, 0, false);
      && IsUnsettled(o.tapping) && o.tapping.event == s.tapping.event && o.buffer == s.buffer
      && a == (if Passes(cfg, Receive(s, e), r) then o else o.(buffer := s.buffer + [r]))
      && s.world.log <= o.world.log && !HandsOver(s, o)
  {
    MeetsUndecided(cfg, Receive(s, e), Record(e, 0, false));
  }

  /** The retry loop ends at once with an undecided key if what waits longest rests. */
  lemma DrainRests(cfg: Config, s: State)
    requires Inv(s) && IsUnsettled(s.tapping)
    requires s.buffer != [] ==> !Passes(cfg, s, s.buffer[0])
    ensures HandsOver(s, Drain(cfg, s)) <==> s.buffer != [] && Decides(cfg, s, s.buffer[0])
    ensures !IsUnsettled(Drain(cfg, s).tapping) <==> s.buffer != [] && Decides(cfg, s, s.buffer[0])
    ensures s.world.log <= Drain(cfg, s).world.log
  {
    if s.buffer != [] {
      MeetsUndecided(cfg, s, s.buffer[0]);
      if Decides(cfg, s, s.buffer[0]) {
        assert IsDecisionOn(s.tapping, Drain(cfg, s).world.log[|s.world.log|]);
      }
    }
  }

  lemma HandsOverLater(s: State, o: State, s': State)
    requires s.world.log <= o.world.log <= s'.world.log && !HandsOver(s, o) && o.tapping.event == s.tapping.event
    ensures HandsOver(s, s') <==> HandsOver(o, s')
  {
    assert forall i :: 0 <= i < |o.world.log| ==> o.world.log[i] == s'.world.log[i];
  }

  /** With the newest record queued behind it, a resting release decides exactly if that is its counterpart. */
  lemma CounterpartWakes(cfg: Config, s: State, r: Record)
    requires s.buffer != [] && Rests(cfg, s, s.buffer[0])
    ensures var a, b := s.(buffer := s.buffer + [r]), s.buffer[0];
      && (Decides(cfg, a, b) <==>
            !b.event.pressed && IsCounterpart(r.event, b.event) && cfg.permissiveHold(s.world, s.tapping))
      && !Passes(cfg, a, b)
  {
    var a, b := s.(buffer := s.buffer + [r]), s.buffer[0];
    assert Typed(a.buffer, b.event) <==> Typed(s.buffer, b.event) || IsCounterpart(r.event, b.event) by {
      assert a.buffer[|s.buffer|] == r;
      assert forall i :: 0 <= i < |s.buffer| ==> a.buffer[i] == s.buffer[i];
    }
  }

  /**
   In every mode: an event that decides nothing by itself makes the step hand over the undecided key if and only if
   it presses the key again whose release waits longest, and permissive hold is on for the tapping key.
   */
  lemma WaitingReleaseDecidesIff(cfg: Config, s: State, e: Event)
    requires Inv(s) && IsUnsettled(s.tapping) && !e.IsTick() && !Overflows(cfg, s, e)
    requires DecidesNothingAlone(cfg, s, e)
    ensures HandsOver(s, Step(cfg, s, e)) <==>
            PressesAgain(s, e) && cfg.permissiveHold(Tried(cfg, s, e).world, Tried(cfg, s, e).tapping)
    ensures HandsOver(s, Step(cfg, s, e)) <==> !IsUnsettled(Step(cfg, s, e).tapping)
  {
    var o, a, r := Tried(cfg, s, e), Accept(cfg, s, e), Record(e, 0, false);
    FirstAttempt(cfg, s, e);
    AcceptInv(cfg, s, e);
    HandsOverLater(s, a, Drain(cfg, a));
    if Passes(cfg, Receive(s, e), r) {
      DrainRests(cfg, a);
    } else if s.buffer == [] {
      ReleaseTriedTwice(cfg, s, e);
      assert a.buffer[0] == r;
      AloneRests(cfg, o, r);
      DrainRests(cfg, a);
    } else {
      CounterpartWakes(cfg, o, r);
      assert a.buffer[0] == s.buffer[0];
      DrainRests(cfg, a);
    }
  }

  /** A release that has to wait leaves the machine as it was. */
  lemma ReleaseTriedTwice(cfg: Config, s: State, e: Event)
    requires Inv(s) && IsUnsettled(s.tapping) && !e.IsTick() && !Overflows(cfg, s, e)
    requires DecidesNothingAlone(cfg, s, e) && s.buffer == [] && !Passes(cfg, Receive(s, e), Record(e, 0, false))
    ensures Rests(cfg, Tried(cfg, s, e), Record(e, 0, false))
  {
  }

  /** A record is not its own counterpart: alone in the buffer it rests as it did outside. */
  lemma AloneRests(cfg: Config, o: State, r: Record)
    requires o.buffer == [] && Rests(cfg, o, r)
    ensures Rests(cfg, o.(buffer := [r]), r)
  {
  }

  // ---------------------------------------------------------------- over runs, when settings stay as they are

  /** What a key does, and its term, do not depend on what happens; and the only mode is permissive hold. */
  ghost predicate SteadyPermissive(cfg: Config) {
    && (forall w, w', k :: cfg.action(w, k) == cfg.action(w', k))
    && (forall w, w', r: Record, r': Record :: r.event.key == r'.event.key ==>
          cfg.tappingTerm(w, r) == cfg.tappingTerm(w', r'))
    && (forall w, r :: cfg.permissiveHold(w, r) && !cfg.holdOnOtherKeyPress(w, r))
  }

  /** What waits longest behind an undecided key rests. */
  ghost predicate HeadRests(cfg: Config, s: State) {
    IsUnsettled(s.tapping) && s.buffer != [] ==> Rests(cfg, s, s.buffer[0])
  }

  lemma SteadyRests(cfg: Config, s: State, s': State, r: Record)
    requires SteadyPermissive(cfg) && s'.tapping.event == s.tapping.event && s'.buffer == s.buffer
    ensures Decides(cfg, s', r) == Decides(cfg, s, r) && Passes(cfg, s', r) == Passes(cfg, s, r)
  {
  }

  /** Not consumed, and the key still undecided: the record stays as it is and rests. */
  lemma StoppedAtHead(cfg: Config, s: State)
    requires Inv(s) && SteadyPermissive(cfg) && s.buffer != []
    requires !ProcessTapping(cfg, s, s.buffer[0]).consumed
    ensures HeadRests(cfg, Retry(cfg, s))
  {
    var r := s.buffer[0];
    NotTakenOver(cfg, s, r);
    if IsUnsettled(s.tapping) {
      MeetsUndecided(cfg, s, r);
      if !Decides(cfg, s, r) {
        assert Retry(cfg, s).buffer == s.buffer;
        SteadyRests(cfg, s, Retry(cfg, s), r);
      }
    } else {
      NothingToDecide(cfg, s, r);
    }
  }

  /** Wherever the retry loop stops with an undecided key, it stops at a record that rests. */
  lemma {:induction false} DrainLeavesResting(cfg: Config, s: State)
    requires Inv(s) && SteadyPermissive(cfg)
    ensures HeadRests(cfg, Drain(cfg, s))
    decreases |s.buffer|
  {
    if s.buffer != [] {
      RetryInv(cfg, s);
      if ProcessTapping(cfg, s, s.buffer[0]).consumed {
        DrainLeavesResting(cfg, Retry(cfg, s));
      } else {
        StoppedAtHead(cfg, s);
      }
    }
  }

  lemma RunLeavesResting(cfg: Config, es: seq<Event>)
    requires SteadyPermissive(cfg)
    ensures HeadRests(cfg, Run(cfg, es))
  {
    if es != [] {
      var s, e := Run(cfg, es[..|es| - 1]), es[|es| - 1];
      RunInv(cfg, es[..|es| - 1]);
      AcceptInv(cfg, s, e);
      DrainLeavesResting(cfg, Accept(cfg, s, e));
    }
  }

  lemma SteadyDecidesNothing(cfg: Config, s: State, e: Event)
    requires SteadyPermissive(cfg) && Inv(s) && IsUnsettled(s.tapping) && HeadRests(cfg, s) && !e.IsTick()
    requires !Decides(cfg, Receive(s, e), Record(e, 0, false))
    ensures DecidesNothingAlone(cfg, s, e)
  {
    var o := Tried(cfg, s, e);
    MeetsUndecided(cfg, Receive(s, e), Record(e, 0, false));
    SteadyRests(cfg, Receive(s, e), o, Record(e, 0, false));
    if s.buffer != [] {
      SteadyRests(cfg, s, o, s.buffer[0]);
    }
  }

  /** What permissive hold is for: a press that waits while the key is undecided is let go. */
  predicate EndsNestedTap(s: State, e: Event) {
    !e.pressed && Typed(s.buffer, e)
  }

  lemma DecidesAtOnce(cfg: Config, s: State, e: Event)
    requires Inv(s) && IsUnsettled(s.tapping) && !e.IsTick() && Decides(cfg, Receive(s, e), Record(e, 0, false))
    ensures HandsOver(s, Step(cfg, s, e))
  {
    MeetsUndecided(cfg, Receive(s, e), Record(e, 0, false));
    AcceptInv(cfg, s, e);
    DrainExtends(cfg, Accept(cfg, s, e));
    assert IsDecisionOn(s.tapping, Accept(cfg, s, e).world.log[|s.world.log|]);
    assert IsDecisionOn(s.tapping, Step(cfg, s, e).world.log[|s.world.log|]);
  }

  lemma DrainExtends(cfg: Config, s: State)
    ensures s.world.log <= Drain(cfg, s).world.log
  {
    assert Extends(s, Drain(cfg, s));
  }

  /**
   Under permissive hold, after any run that leaves a key undecided: an event within its term, and not its own
   release, makes it a hold if and only if it ends a nested tap, or presses a key again whose release waits longest.
   */
  lemma PermissiveHoldIff(cfg: Config, es: seq<Event>, e: Event)
    requires SteadyPermissive(cfg)
    requires var s := Run(cfg, es);
      && IsUnsettled(s.tapping) && !e.IsTick() && !Overflows(cfg, s, e)
      && WithinTappingTerm(cfg, Receive(s, e), e) && !IsTappingRelease(s, e)
    ensures var s := Run(cfg, es);
      HandsOver(s, Step(cfg, s, e)) <==> EndsNestedTap(s, e) || PressesAgain(s, e)
  {
    var s := Run(cfg, es);
    RunInv(cfg, es);
    if EndsNestedTap(s, e) {
      DecidesAtOnce(cfg, s, e);
    } else {
      RunLeavesResting(cfg, es);
      SteadyDecidesNothing(cfg, s, e);
      WaitingReleaseDecidesIff(cfg, s, e);
    }
  }
}
