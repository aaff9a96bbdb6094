/**
 Decisions made out of turn: a tapping key settled by a record that came before its press. The retry
 loop can stop with records waiting and nothing undecided; a press that then takes over meets them.
 */
module TappingTurns {
  import opened Events
  import opened Tapping
  import opened TappingOrder
  import opened TappingTrail
  import opened TappingDecision

  ghost predicate OutOfTurn(x: Output, o: Origin) {
    IsDecision(x) && o.cause < o.press
  }

  /** One of the outputs from number `n` on is a decision out of turn. */
  ghost predicate AnyOutOfTurn(s: State, t: Trail, n: nat)
    requires SameSize(s, t)
  {
    exists i :: n <= i < |t.log| && OutOfTurn(s.world.log[i], t.log[i])
  }

  /** An undecided press at position `p` meets the waiting records: an older one decides it. */
  predicate OlderDecides(cfg: Config, s: State, p: nat, waiting: seq<nat>)
    requires |waiting| == |s.buffer|
    decreases |s.buffer|
  {
    && waiting != [] && waiting[0] < p
    && (|| Decides(cfg, s, s.buffer[0])
        || (Passes(cfg, s, s.buffer[0]) &&
            OlderDecides(cfg, Emit(s, s.buffer[0], FromEvent).(buffer := s.buffer[1..]), p, waiting[1..])))
  }

  /**
   The next event makes for a decision out of turn: it is a press taking over whose release waits
   already, or it leaves undecided a press that an older waiting record then decides.
   */
  predicate DecidesOutOfTurn(cfg: Config, s: State, t: Trail, e: Event)
    requires SameSize(s, t)
  {
    var s0, r := Receive(s, e), Record(e, 0, false);
    var a, ta := Accept(cfg, s, e), AcceptTrail(cfg, s, t, e);
    || (Scans(cfg, s0, r) && FirstRelease(cfg, TakenOver(s0, r), 0) < |s.buffer|)
    || (IsUnsettled(a.tapping) && OlderDecides(cfg, a, ta.tapping, ta.buffer))
  }

  lemma SplitNew(s: State, t: Trail, m: nat, s': State, t': Trail, n: nat)
    requires SameSize(s, t) && SameSize(s', t') && n <= m == |t.log|
    requires s.world.log <= s'.world.log && t.log <= t'.log
    ensures AnyOutOfTurn(s', t', n) <==> AnyOutOfTurn(s, t, n) || AnyOutOfTurn(s', t', m)
  {
    forall i | n <= i < |t'.log| && OutOfTurn(s'.world.log[i], t'.log[i])
      ensures AnyOutOfTurn(s, t, n) || AnyOutOfTurn(s', t', m)
    {
      if i < m {
        assert OutOfTurn(s.world.log[i], t.log[i]);
      }
    }
    forall i | n <= i < |t.log| && OutOfTurn(s.world.log[i], t.log[i]) ensures AnyOutOfTurn(s', t', n) {
      assert OutOfTurn(s'.world.log[i], t'.log[i]);
    }
  }

  /** Trying the record that waits longest: only an undecided press older records wait for is decided out of turn. */
  lemma RetryOutOfTurnIff(cfg: Config, s: State, t: Trail)
    requires Inv(s) && Traced(s, t) && s.buffer != []
    ensures AnyOutOfTurn(Retry(cfg, s), RetryTrail(cfg, s, t), |t.log|) <==>
            IsUnsettled(s.tapping) && t.buffer[0] < t.tapping && Decides(cfg, s, s.buffer[0])
  {
    var r, p := s.buffer[0], t.buffer[0];
    var w, a := Retry(cfg, s).world, RetryTrail(cfg, s, t);
    if TakesOver(cfg, s, r) {
      TakingOver(cfg, s, r);
    } else if !IsUnsettled(s.tapping) {
      NothingToDecide(cfg, s, r);
    } else {
      MeetsUndecided(cfg, s, r);
      if Decides(cfg, s, r) && p < t.tapping {
        assert OutOfTurn(w.log[|t.log|], a.log[|t.log|]);
      }
    }
  }

  lemma {:induction false} DrainOutOfTurnIff(cfg: Config, s: State, t: Trail)
    requires Inv(s) && Traced(s, t)
    ensures AnyOutOfTurn(Drain(cfg, s), DrainTrail(cfg, s, t), |t.log|) <==>
            IsUnsettled(s.tapping) && OlderDecides(cfg, s, t.tapping, t.buffer)
    decreases |s.buffer|
  {
    if s.buffer != [] {
      var r, s', t' := s.buffer[0], Retry(cfg, s), RetryTrail(cfg, s, t);
      RetryOutOfTurnIff(cfg, s, t);
      RetryInv(cfg, s);
      MeetsHead(cfg, s, t);
      AttemptTraces(cfg, s, t, r, t.buffer[0]);
      if ProcessTapping(cfg, s, r).consumed {
        DrainOutOfTurnIff(cfg, s', t');
        SplitNew(s', t', |t'.log|, Drain(cfg, s), DrainTrail(cfg, s, t), |t.log|);
        if IsUnsettled(s.tapping) {
          MeetsUndecided(cfg, s, r);
        }
      } else if IsUnsettled(s.tapping) {
        MeetsUndecided(cfg, s, r);
      }
    }
  }

  lemma AcceptOutOfTurnIff(cfg: Config, s: State, t: Trail, e: Event)
    requires Inv(s) && Traced(s, t)
    ensures var s0, r := Receive(s, e), Record(e, 0, false);
      AnyOutOfTurn(Accept(cfg, s, e), AcceptTrail(cfg, s, t, e), |t.log|) <==>
      Scans(cfg, s0, r) && FirstRelease(cfg, TakenOver(s0, r), 0) < |s.buffer|
  {
    var s0, r, n := Receive(s, e), Record(e, 0, false), |s.world.received|;
    var w', t' := Accept(cfg, s, e).world, AcceptTrail(cfg, s, t, e);
    if TakesOver(cfg, s0, r) {
      TakingOver(cfg, s0, r);
      var b := TakenOver(s0, r);
      if Scans(cfg, s0, r) && FirstRelease(cfg, b, 0) < |b.buffer| {
        assert OutOfTurn(w'.log[|b.world.log|], t'.log[|b.world.log|]);
      }
    } else if !IsUnsettled(s.tapping) {
      NothingToDecide(cfg, s0, r);
    } else if e.IsTick() && WithinTappingTerm(cfg, s0, e) {
      TickWithinTerm(cfg, s0, r);
    } else {
      MeetsUndecided(cfg, s0, r);
    }
  }

  /** From every state, in every mode: the exact condition for the next event to make for such a decision. */
  lemma StepOutOfTurnIff(cfg: Config, past: set<nat>, s: State, t: Trail, e: Event)
    requires Kept(cfg, past, s, t)
    ensures AnyOutOfTurn(Step(cfg, s, e), StepTrail(cfg, s, t, e), |t.log|) <==> DecidesOutOfTurn(cfg, s, t, e)
  {
    var a, ta := Accept(cfg, s, e), AcceptTrail(cfg, s, t, e);
    AcceptOutOfTurnIff(cfg, s, t, e);
    AcceptKeeps(cfg, past + {|s.world.received|}, s, t, e);
    DrainOutOfTurnIff(cfg, a, ta);
    SplitNew(a, ta, |ta.log|, Step(cfg, s, e), StepTrail(cfg, s, t, e), |t.log|);
  }

  lemma LastStepOutOfTurnIff(cfg: Config, es: seq<Event>)
    requires es != []
    ensures var m := |es| - 1;
      AnyOutOfTurn(Run(cfg, es), RunTrail(cfg, es), 0) <==>
      AnyOutOfTurn(Run(cfg, es[..m]), RunTrail(cfg, es[..m]), 0) ||
      DecidesOutOfTurn(cfg, Run(cfg, es[..m]), RunTrail(cfg, es[..m]), es[m])
  {
    var m := |es| - 1;
    var s, t := Run(cfg, es[..m]), RunTrail(cfg, es[..m]);
    RunKeeps(cfg, es[..m]);
    StepOutOfTurnIff(cfg, Past(cfg, es[..m]), s, t, es[m]);
    SplitNew(s, t, |t.log|, Run(cfg, es), RunTrail(cfg, es), 0);
  }

  /** No event of the run met the condition. */
  ghost predicate InTurnThroughout(cfg: Config, es: seq<Event>) {
    es == [] ||
    (var m := |es| - 1;
     InTurnThroughout(cfg, es[..m]) && !DecidesOutOfTurn(cfg, Run(cfg, es[..m]), RunTrail(cfg, es[..m]), es[m]))
  }

  /** Over whole runs: all decisions are made in turn if and only if no event met the condition. */
  lemma {:induction false} RunInTurnIff(cfg: Config, es: seq<Event>)
    ensures !AnyOutOfTurn(Run(cfg, es), RunTrail(cfg, es), 0) <==> InTurnThroughout(cfg, es)
  {
    if es != [] {
      RunInTurnIff(cfg, es[..|es| - 1]);
      LastStepOutOfTurnIff(cfg, es);
    }
  }

  // ---------------------------------------------------------------- in the default mode

  /**
   As clocks go: what waits has not waited so long that it seems to come within the term again,
   and when the oldest has the time of `e`, all that came since have it too.
   */
  ghost predicate Recent(cfg: Config, s: State, e: Event) {
    && (forall i, w :: 0 <= i < |s.buffer| && s.buffer[i].event.time != e.time ==>
          Diff16(s.buffer[i].event.time, e.time) >= cfg.tappingTerm(w, Record(e, 0, false)))
    && (s.buffer != [] && s.buffer[0].event.time == e.time ==>
          forall i :: 0 <= i < |s.buffer| ==> s.buffer[i].event.time == e.time)
  }

  ghost predicate PositiveTerms(cfg: Config) {
    forall w, r :: cfg.tappingTerm(w, r) > 0
  }

  /** What waits and came before the undecided press came at the same time, and is of other keys. */
  ghost predicate Harmless(s: State, t: Trail)
    requires SameSize(s, t)
  {
    IsUnsettled(s.tapping) ==>
      forall i :: 0 <= i < |s.buffer| && t.buffer[i] < t.tapping ==> AtSameTime(s.tapping.event, s.buffer[i].event)
  }

  ghost predicate AtSameTime(press: Event, waiting: Event) {
    waiting.time == press.time && waiting.key != press.key
  }

  lemma {:induction false} NoneDecides(cfg: Config, s: State, p: nat, waiting: seq<nat>)
    requires DefaultMode(cfg) && PositiveTerms(cfg) && |waiting| == |s.buffer|
    requires forall i :: 0 <= i < |s.buffer| && waiting[i] < p ==> AtSameTime(s.tapping.event, s.buffer[i].event)
    ensures !OlderDecides(cfg, s, p, waiting)
    decreases |s.buffer|
  {
    if s.buffer != [] && waiting[0] < p {
      assert AtSameTime(s.tapping.event, s.buffer[0].event);
      NoneDecides(cfg, Emit(s, s.buffer[0], FromEvent).(buffer := s.buffer[1..]), p, waiting[1..]);
    }
  }

  /** A press that takes over with none of its own events waiting stays undecided until the retry loop. */
  lemma TakenOverUndecided(cfg: Config, s: State, t: Trail, e: Event)
    requires Inv(s) && SameSize(s, t) && SafeArrival(cfg, s, e)
    requires TakesOver(cfg, Receive(s, e), Record(e, 0, false))
    ensures var s0, r := Receive(s, e), Record(e, 0, false);
      && (forall i :: 0 <= i < |s.buffer| ==> s.buffer[i].event.key != e.key)
      && FirstRelease(cfg, TakenOver(s0, r), 0) == |s.buffer|
      && Accept(cfg, s, e) == TakenOver(s0, r)
      && AcceptTrail(cfg, s, t, e).tapping == |s.world.received| && AcceptTrail(cfg, s, t, e).buffer == t.buffer
  {
    TakingOver(cfg, Receive(s, e), Record(e, 0, false));
  }

  lemma NotTakenOverHarmless(cfg: Config, past: set<nat>, s: State, t: Trail, e: Event)
    requires Kept(cfg, past, s, t) && Harmless(s, t) && !TakesOver(cfg, Receive(s, e), Record(e, 0, false))
    ensures Harmless(Accept(cfg, s, e), AcceptTrail(cfg, s, t, e))
  {
    ReceiveKeeps(cfg, past, s, t, e);
    AttemptTraces(cfg, Receive(s, e), t, Record(e, 0, false), |s.world.received|);
    AcceptedBuffer(cfg, s, t, e);
  }

  /** Taking an event in only adds to the end of what waits, or empties it. */
  lemma AcceptedBuffer(cfg: Config, s: State, t: Trail, e: Event)
    requires Inv(s) && SameSize(s, t)
    ensures var a, ta := Accept(cfg, s, e), AcceptTrail(cfg, s, t, e);
      || a.buffer == []
      || (SameEvents(a.buffer, s.buffer) && ta.buffer == t.buffer)
      || (|a.buffer| == |s.buffer| + 1 && ta.buffer == t.buffer + [|s.world.received|] &&
          SameEvents(a.buffer[..|s.buffer|], s.buffer))
  {
    ProcessTappingMoves(cfg, Receive(s, e), Record(e, 0, false));
  }

  lemma TakenOverHarmless(cfg: Config, s: State, t: Trail, e: Event)
    requires Inv(s) && SameSize(s, t) && SafeArrival(cfg, s, e) && Recent(cfg, s, e)
    requires TakesOver(cfg, Receive(s, e), Record(e, 0, false))
    requires s.buffer != [] ==> s.buffer[0].event.time == e.time
    ensures Harmless(Accept(cfg, s, e), AcceptTrail(cfg, s, t, e))
  {
    TakenOverUndecided(cfg, s, t, e);
  }

  /** A press that takes over while a record with another, so an older, time waits. */
  predicate TakenPastOlder(cfg: Config, s: State, e: Event) {
    TakenPast(cfg, s, e) && s.buffer[0].event.time != e.time
  }

  /**
   In the default mode, with keys in order and nothing harmful waiting for an undecided press: the next event
   makes for a decision out of turn exactly if it is a press that takes over while an older record waits.
   */
  lemma DefaultOutOfTurnIff(cfg: Config, past: set<nat>, s: State, t: Trail, e: Event)
    requires Kept(cfg, past, s, t) && Harmless(s, t)
    requires DefaultMode(cfg) && PositiveTerms(cfg) && SafeArrival(cfg, s, e) && Recent(cfg, s, e)
    ensures AnyOutOfTurn(Step(cfg, s, e), StepTrail(cfg, s, t, e), |t.log|) <==> TakenPastOlder(cfg, s, e)
  {
    var a, ta := Accept(cfg, s, e), AcceptTrail(cfg, s, t, e);
    StepOutOfTurnIff(cfg, past, s, t, e);
    if TakesOver(cfg, Receive(s, e), Record(e, 0, false)) {
      TakenOverUndecided(cfg, s, t, e);
      assert |t.buffer| == |s.buffer|;
      if !TakenPastOlder(cfg, s, e) {
        TakenOverHarmless(cfg, s, t, e);
        NoneDecides(cfg, a, ta.tapping, ta.buffer);
      }
    } else {
      NotTakenOverHarmless(cfg, past, s, t, e);
      if IsUnsettled(a.tapping) {
        NoneDecides(cfg, a, ta.tapping, ta.buffer);
      }
    }
  }

  /** Such a press is handed over as a hold by the very step that receives it: nothing later has been seen. */
  lemma TakenPastIsHeld(cfg: Config, past: set<nat>, s: State, t: Trail, e: Event)
    requires Kept(cfg, past, s, t) && SafeArrival(cfg, s, e) && Recent(cfg, s, e)
    requires TakenPastOlder(cfg, s, e)
    ensures !IsUnsettled(Step(cfg, s, e).tapping)
    ensures var s', t' := Step(cfg, s, e), StepTrail(cfg, s, t, e);
      var n, m := |s.world.received|, |s'.world.log| - 1;
      && m >= |s.world.log| && s'.world.log[m] == Processed(Record(e, 0, false), FromTappingKey)
      && t'.log[m] == Origin(n, t.buffer[0], n + 1) && |s'.world.received| == n + 1
  {
    var a := Accept(cfg, s, e);
    TakenOverUndecided(cfg, s, t, e);
    MeetsUndecided(cfg, a, a.buffer[0]);
  }

  lemma {:induction false} DrainHarmless(cfg: Config, s: State, t: Trail)
    requires Inv(s) && Traced(s, t) && Harmless(s, t)
    ensures Harmless(Drain(cfg, s), DrainTrail(cfg, s, t))
    decreases |s.buffer|
  {
    if s.buffer != [] {
      RetryHarmless(cfg, s, t);
      RetryInv(cfg, s);
      MeetsHead(cfg, s, t);
      if ProcessTapping(cfg, s, s.buffer[0]).consumed {
        DrainHarmless(cfg, Retry(cfg, s), RetryTrail(cfg, s, t));
      }
    }
  }

  lemma RetryHarmless(cfg: Config, s: State, t: Trail)
    requires Inv(s) && Traced(s, t) && Harmless(s, t) && s.buffer != []
    ensures Harmless(Retry(cfg, s), RetryTrail(cfg, s, t))
  {
    var r := s.buffer[0];
    AttemptTraces(cfg, s, t, r, t.buffer[0]);
    RecordStays(cfg, s, r);
    if !ProcessTapping(cfg, s, r).consumed {
      NotTakenOver(cfg, s, r);
    }
  }

  lemma StepHarmless(cfg: Config, past: set<nat>, s: State, t: Trail, e: Event)
    requires Kept(cfg, past, s, t) && Harmless(s, t)
    requires SafeArrival(cfg, s, e) && Recent(cfg, s, e)
    ensures Harmless(Step(cfg, s, e), StepTrail(cfg, s, t, e))
  {
    var a, ta := Accept(cfg, s, e), AcceptTrail(cfg, s, t, e);
    if TakenPastOlder(cfg, s, e) {
      TakenPastIsHeld(cfg, past, s, t, e);
    } else {
      if TakesOver(cfg, Receive(s, e), Record(e, 0, false)) {
        TakenOverHarmless(cfg, s, t, e);
      } else {
        NotTakenOverHarmless(cfg, past, s, t, e);
      }
      AcceptKeeps(cfg, past + {|s.world.received|}, s, t, e);
      DrainHarmless(cfg, a, ta);
    }
  }

  /** At every event of the run, what waits is recent. */
  ghost predicate RecentThroughout(cfg: Config, es: seq<Event>) {
    es == [] ||
    (RecentThroughout(cfg, es[..|es| - 1]) && Recent(cfg, Run(cfg, es[..|es| - 1]), es[|es| - 1]))
  }

  /** At no event of the run does a press take over past an older record. */
  ghost predicate NoneTakenPastOlder(cfg: Config, es: seq<Event>) {
    es == [] ||
    (NoneTakenPastOlder(cfg, es[..|es| - 1]) && !TakenPastOlder(cfg, Run(cfg, es[..|es| - 1]), es[|es| - 1]))
  }

  lemma {:induction false} RunHarmless(cfg: Config, es: seq<Event>)
    requires SafeThroughout(cfg, es) && RecentThroughout(cfg, es)
    ensures Harmless(Run(cfg, es), RunTrail(cfg, es))
  {
    if es != [] {
      var es', e := es[..|es| - 1], es[|es| - 1];
      RunHarmless(cfg, es');
      RunKeeps(cfg, es');
      StepHarmless(cfg, Past(cfg, es'), Run(cfg, es'), RunTrail(cfg, es'), e);
    }
  }

  lemma LastStepDefaultIff(cfg: Config, es: seq<Event>)
    requires es != [] && DefaultMode(cfg) && PositiveTerms(cfg)
    requires SafeThroughout(cfg, es) && RecentThroughout(cfg, es)
    ensures var m := |es| - 1;
      DecidesOutOfTurn(cfg, Run(cfg, es[..m]), RunTrail(cfg, es[..m]), es[m]) <==>
      TakenPastOlder(cfg, Run(cfg, es[..m]), es[m])
  {
    var m := |es| - 1;
    var s, t, past := Run(cfg, es[..m]), RunTrail(cfg, es[..m]), Past(cfg, es[..m]);
    RunKeeps(cfg, es[..m]);
    RunHarmless(cfg, es[..m]);
    StepOutOfTurnIff(cfg, past, s, t, es[m]);
    DefaultOutOfTurnIff(cfg, past, s, t, es[m]);
  }

  /**
   In the default mode, over whole runs with keys in order: every decision is made by something received after
   the press if and only if no press took over past an older record.
   */
  lemma {:induction false} RunDefaultInTurnIff(cfg: Config, es: seq<Event>)
    requires DefaultMode(cfg) && PositiveTerms(cfg) && SafeThroughout(cfg, es) && RecentThroughout(cfg, es)
    ensures !AnyOutOfTurn(Run(cfg, es), RunTrail(cfg, es), 0) <==> NoneTakenPastOlder(cfg, es)
  {
    if es != [] {
      RunDefaultInTurnIff(cfg, es[..|es| - 1]);
      LastStepOutOfTurnIff(cfg, es);
      LastStepDefaultIff(cfg, es);
    }
  }
}
