/** What single events do, told by the state and the event alone: undecided, held, tapped and full. */
module TappingLaws {
  import opened Events
  import opened Tapping
  import opened TappingOrder
  import opened TappingTrail
  import opened TappingScenarios

  // ---------------------------------------------------------------- while a key is undecided

  /**
   A press that does not settle the undecided key waits behind all others and marks the key as interrupted. With
   seven records waiting there is no room: everything is forgotten and the keyboard cleared.
   */
  lemma PressWhileUndecided(cfg: Config, s: State, e: Event)
    requires Inv(s) && IsUnsettled(s.tapping) && !e.IsTick() && e.pressed
    requires WithinTappingTerm(cfg, Receive(s, e), e)
    requires !cfg.holdOnOtherKeyPress(Receive(s, e).world, s.tapping.(interrupted := true))
    ensures var a := Accept(cfg, s, e);
      if |s.buffer| < 7 then
        && a.tapping == s.tapping.(interrupted := true) && a.buffer == s.buffer + [Record(e, 0, false)]
        && a.world.log == s.world.log
      else
        && a.tapping.event.IsTick() && a.buffer == [] && a.world.log == s.world.log + [KeyboardCleared]
  {
  }

  /** Its own release within the term, nothing else waiting: a tap, press and release handed over alike. */
  lemma ReleaseWhileUndecided(cfg: Config, s: State, e: Event)
    requires IsUnsettled(s.tapping) && s.buffer == []
    requires !e.IsTick() && !e.pressed && e.key == s.tapping.event.key
    requires forall w, r: Record :: r.event == s.tapping.event ==>
      Diff16(e.time, s.tapping.event.time) < cfg.tappingTerm(w, r)
    ensures var press, release := s.tapping.(count := 1), Record(e, 1, s.tapping.interrupted);
      var s' := Step(cfg, s, e);
      && s'.tapping == release && s'.buffer == []
      && s'.world.log == s.world.log + [Processed(press, FromTappingKey)] + [Processed(release, FromEvent)]
  {
    var press, release := s.tapping.(count := 1), Record(e, 1, s.tapping.interrupted);
    var a := Accept(cfg, s, e);
    assert a == Emit(Receive(s, e), press, FromTappingKey).(tapping := press, buffer := [release]);
    var o := ProcessTapping(cfg, a, release);
    assert o == Outcome(Emit(a, release, FromEvent).(tapping := release), release, true);
    assert Drain(cfg, a) == o.state.(buffer := []);
  }

  // ---------------------------------------------------------------- while a tapped key is down

  /** Neither ticks nor other keys change anything about a key that is down as a tap; other keys pass at once. */
  lemma OthersWhileTapped(cfg: Config, s: State, e: Event)
    requires !s.tapping.event.IsTick() && s.tapping.event.pressed && s.tapping.count > 0 && s.buffer == []
    requires e.IsTick() || (e.key != s.tapping.event.key &&
                            !(e.pressed && IsTapAction(cfg.action(Receive(s, e).world, e.key))))
    ensures var s' := Step(cfg, s, e);
      && s'.tapping == s.tapping && s'.buffer == []
      && s'.world.log == s.world.log + (if e.IsTick() then [] else [Processed(Record(e, 0, false), FromEvent)])
  {
  }

  /** Its release carries the count and the mark of its press. */
  lemma ReleaseWhileTapped(cfg: Config, s: State, e: Event)
    requires !s.tapping.event.IsTick() && s.tapping.event.pressed && s.tapping.count > 0 && s.buffer == []
    requires !e.IsTick() && !e.pressed && e.key == s.tapping.event.key
    ensures Step(cfg, s, e).world.log ==
            s.world.log + [Processed(Record(e, s.tapping.count, s.tapping.interrupted), FromEvent)]
  {
  }

  // ---------------------------------------------------------------- taking over

  /** The press just taken over is undecided although its release within the term waits already. */
  ghost predicate ReleaseOverlooked(cfg: Config, o: State) {
    IsUnsettled(o.tapping) && exists i :: 0 <= i < |o.buffer| && EndsTap(cfg, o, o.buffer[i].event)
  }

  lemma {:induction false} NoneBeforeFirst(cfg: Config, s: State, i: nat)
    requires i <= |s.buffer|
    ensures forall k :: i <= k < FirstRelease(cfg, s, i) ==> !EndsTap(cfg, s, s.buffer[k].event)
    decreases |s.buffer| - i
  {
    if i < |s.buffer| && !EndsTap(cfg, s, s.buffer[i].event) {
      NoneBeforeFirst(cfg, s, i + 1);
    }
  }

  /**
   When a press takes over, its release is overlooked if and only if it waits, and the key had just been tapped:
   then the code does not look for it.
   */
  lemma OverlookedIff(cfg: Config, s: State, r: Record)
    requires TakesOver(cfg, s, r) && r.count == 0 && ReadyFor(s, r)
    ensures ReleaseOverlooked(cfg, ProcessTapping(cfg, s, r).state) <==>
      && !s.tapping.event.IsTick() && !s.tapping.event.pressed && s.tapping.event.key == r.event.key
      && exists i :: 0 <= i < |s.buffer| && EndsTap(cfg, s.(tapping := r), s.buffer[i].event)
  {
    TakingOver(cfg, s, r);
    NoneBeforeFirst(cfg, TakenOver(s, r), 0);
  }

  /** By the arrival alone: a tap-hold press is decided at once exactly if its release within the term waits. */
  lemma PressMeetsReleaseIff(cfg: Config, s: State, e: Event, term: Time16, quick: Time16)
    requires Inv(s) && TapKey(cfg, e.key, term, quick) && !e.IsTick() && e.pressed
    requires || s.tapping.event.IsTick()
             || (s.tapping.event.pressed && s.tapping.count > 0)
             || (!s.tapping.event.pressed && s.tapping.event.key != e.key && WithinTappingTerm(cfg, Receive(s, e), e))
    ensures var a := Accept(cfg, s, e);
      && a.tapping.event == e
      && (a.tapping.count == 1 <==> exists i :: 0 <= i < |s.buffer| && IsReleaseInTerm(s.buffer[i].event, e, term))
      && (a.tapping.count != 1 ==> a.tapping == Record(e, 0, false))
  {
    var s0, r := Receive(s, e), Record(e, 0, false);
    TakingOver(cfg, s0, r);
    var b := TakenOver(s0, r);
    NoneBeforeFirst(cfg, b, 0);
    var j := FirstRelease(cfg, b, 0);
    forall i | 0 <= i < |s.buffer|
      ensures EndsTap(cfg, b, s.buffer[i].event) <==> IsReleaseInTerm(s.buffer[i].event, e, term)
    {
    }
    if j < |s.buffer| {
      assert IsReleaseInTerm(s.buffer[j].event, e, term);
    }
  }

  predicate IsReleaseInTerm(waiting: Event, press: Event, term: Time16) {
    !waiting.IsTick() && !waiting.pressed && waiting.key == press.key && Diff16(waiting.time, press.time) < term
  }
}
