/** Nothing waits for ever: late ticks empty the waiting buffer and settle the tapping key. */
module TappingDrain {
  import opened Events
  import opened Tapping
  import opened TappingOrder

  /** A tick at least the tapping term away from the current tapping key, on the 16-bit clock. */
  predicate IsLateTick(cfg: Config, s: State, e: Event) {
    e.IsTick() && (!s.tapping.event.IsTick() ==> !WithinTappingTerm(cfg, Receive(s, e), e))
  }

  function RunFrom(cfg: Config, s: State, es: seq<Event>): State {
    if es == [] then s else Step(cfg, RunFrom(cfg, s, es[..|es| - 1]), es[|es| - 1])
  }

  ghost predicate AllLateTicks(cfg: Config, s: State, es: seq<Event>) {
    es == [] ||
    (AllLateTicks(cfg, s, es[..|es| - 1]) && IsLateTick(cfg, RunFrom(cfg, s, es[..|es| - 1]), es[|es| - 1]))
  }

  /** With the tapping key gone or settled, the next waiting record is always consumed. */
  lemma HeadIsConsumed(cfg: Config, s: State, r: Record)
    requires s.tapping.event.IsTick() || (s.tapping.event.pressed && s.tapping.count > 0)
    ensures ProcessTapping(cfg, s, r).consumed
  {
  }

  /** Each late tick strictly shortens a waiting buffer; on an empty one it leaves nothing unsettled. */
  lemma LateTickShortens(cfg: Config, s: State, e: Event)
    requires Inv(s) && IsLateTick(cfg, s, e)
    ensures s.buffer != [] ==> |Step(cfg, s, e).buffer| < |s.buffer|
    ensures s.buffer == [] ==> Step(cfg, s, e).buffer == [] && !IsUnsettled(Step(cfg, s, e).tapping)
  {
    var a := Accept(cfg, s, e);
    assert a.buffer == s.buffer;
    if s.buffer != [] {
      HeadIsConsumed(cfg, a, a.buffer[0]);
    }
  }

  lemma {:induction false} LateTicksShorten(cfg: Config, s: State, ticks: seq<Event>)
    requires Inv(s) && AllLateTicks(cfg, s, ticks)
    ensures Inv(RunFrom(cfg, s, ticks))
    ensures |RunFrom(cfg, s, ticks).buffer| <= if |ticks| < |s.buffer| then |s.buffer| - |ticks| else 0
    ensures |ticks| > |s.buffer| ==> !IsUnsettled(RunFrom(cfg, s, ticks).tapping)
  {
    if ticks != [] {
      var ticks', e := ticks[..|ticks| - 1], ticks[|ticks| - 1];
      LateTicksShorten(cfg, s, ticks');
      var s' := RunFrom(cfg, s, ticks');
      LateTickShortens(cfg, s', e);
      StepInv(cfg, s', e);
    }
  }

  lemma {:induction false} TicksConserve(cfg: Config, s: State, ticks: seq<Event>)
    requires Inv(s) && AllLateTicks(cfg, s, ticks)
    ensures multiset(Flow(RunFrom(cfg, s, ticks))) == multiset(Flow(s))
    ensures Inv(RunFrom(cfg, s, ticks))
  {
    if ticks != [] {
      var ticks', e := ticks[..|ticks| - 1], ticks[|ticks| - 1];
      TicksConserve(cfg, s, ticks');
      var s' := RunFrom(cfg, s, ticks');
      AcceptTick(cfg, s', e);
      AcceptInv(cfg, s', e);
      DrainKeeps(cfg, Accept(cfg, s', e));
    }
  }

  lemma FlowAllEmitted(s: State)
    requires s.buffer == [] && !IsUnsettled(s.tapping)
    ensures Flow(s) == Emitted(s.world.log)
  {
  }

  lemma LateTicksDeliver(cfg: Config, s: State, ticks: seq<Event>)
    requires Inv(s) && AllLateTicks(cfg, s, ticks) && |ticks| > |s.buffer|
    ensures multiset(Emitted(RunFrom(cfg, s, ticks).world.log)) == multiset(Flow(s))
  {
    LateTicksShorten(cfg, s, ticks);
    TicksConserve(cfg, s, ticks);
    FlowAllEmitted(RunFrom(cfg, s, ticks));
  }

  /**
   After any run without overflow, eight late ticks are enough for every event
   received to have been handed to `process_record`, exactly once.
   */
  lemma EverythingIsDelivered(cfg: Config, es: seq<Event>, ticks: seq<Event>)
    requires KeyboardCleared !in Run(cfg, es).world.log
    requires AllLateTicks(cfg, Run(cfg, es), ticks)
    requires |ticks| >= WAITING_BUFFER_SIZE
    ensures multiset(Emitted(RunFrom(cfg, Run(cfg, es), ticks).world.log)) == multiset(NonTick(es))
  {
    RunInv(cfg, es);
    RunConserves(cfg, es);
    LateTicksDeliver(cfg, Run(cfg, es), ticks);
  }
}
