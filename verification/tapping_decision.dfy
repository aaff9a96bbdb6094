/** Why a tapping key was settled as a tap or as a hold: by what, and when this came after the key's press. */
module TappingDecision {
  import opened Events
  import opened Tapping
  import opened TappingOrder
  import opened TappingTrail

  // ---------------------------------------------------------------- reasons

  /** Within the tapping term of the key `r`, which may not have been marked as interrupted yet. */
  ghost predicate InTerm(cfg: Config, w: World, r: Record, e: Event) {
    exists b :: Diff16(e.time, r.event.time) < cfg.tappingTerm(w, r.(interrupted := b))
  }

  /**
   A press of `k` received after position `p`, or at all if that is -1. It came before the release at
   position `c` if that was just arriving, and after it if that had been waiting.
   */
  ghost predicate PressedAfter(w: World, p: int, c: nat, k: Key) {
    exists d: nat :: p < d < |w.received| && (d < c <==> c == |w.received| - 1) &&
                w.received[d].key == k && w.received[d].pressed && !w.received[d].IsTick()
  }

  /**
   What was received at position `c` is a reason to hand over the key `r` as it was: its own release within the
   term, or anything at least the term later, or an interruption that the mode allows. A release
   interrupts if its key has been pressed too, after position `p`.
   */
  ghost predicate Reason(cfg: Config, w: World, r: Record, p: int, c: nat)
    requires c < |w.received|
  {
    var e := w.received[c];
    if r.count == 1 then
      !e.IsTick() && !e.pressed && e.key == r.event.key &&
      Diff16(e.time, r.event.time) < cfg.tappingTerm(w, r.(count := 0))
    else
      && r.count == 0
      && (|| Diff16(e.time, r.event.time) >= cfg.tappingTerm(w, r)
          || (!e.IsTick() && InTerm(cfg, w, r, e) &&
              if e.pressed then cfg.holdOnOtherKeyPress(w, r)
              else e.key != r.event.key && cfg.permissiveHold(w, r) && PressedAfter(w, p, c, e.key)))
  }

  /**
   Whatever is decided is decided for a reason. `past` holds the positions of the presses that took over while an
   older record waited; only with these can the reason, or the press that belongs to it, have come before.
   */
  ghost predicate Justified(cfg: Config, past: set<nat>, w: World, r: Record, o: Origin) {
    && r.event.pressed && !r.event.IsTick()
    && o.press < |w.received| && w.received[o.press] == r.event
    && o.cause < |w.received| && o.cause != o.press && (o.press !in past ==> o.press < o.cause)
    && Reason(cfg, w, r, if o.press in past then -1 else o.press, o.cause)
  }

  /** At the time of output `i`, what had been received and processed justified it. */
  ghost predicate JustifiedThen(cfg: Config, past: set<nat>, w: World, log: seq<Origin>, i: nat)
    requires i < |w.log| == |log|
  {
    && log[i].at <= |w.received| && w.log[i].Processed?
    && Justified(cfg, past, World(w.received[..log[i].at], w.log[..i]), w.log[i].record, log[i])
  }

  ghost predicate AllJustified(cfg: Config, past: set<nat>, w: World, log: seq<Origin>)
    requires |w.log| == |log|
  {
    forall i :: 0 <= i < |log| && IsDecision(w.log[i]) ==> JustifiedThen(cfg, past, w, log, i)
  }

  // ---------------------------------------------------------------- one attempt

  /** Outputs and input may be added, as long as the decisions among the new outputs are justified. */
  lemma StillJustified(cfg: Config, past: set<nat>, past': set<nat>,
        w: World, log: seq<Origin>, w': World, log': seq<Origin>)
    requires |w.log| == |log| && |w'.log| == |log'| && past <= past'
    requires AllJustified(cfg, past, w, log) && w.log <= w'.log && w.received <= w'.received && log <= log'
    requires forall i :: |log| <= i < |log'| && IsDecision(w'.log[i]) ==> JustifiedThen(cfg, past', w', log', i)
    ensures AllJustified(cfg, past', w', log')
  {
    forall i | 0 <= i < |log'| && IsDecision(w'.log[i]) ensures JustifiedThen(cfg, past', w', log', i) {
      if i < |log| {
        assert JustifiedThen(cfg, past, w, log, i);
        assert w'.received[..log[i].at] == w.received[..log[i].at] && w'.log[..i] == w.log[..i];
      }
    }
  }

  /** The record `r` at position `p` is at hand: the newest one, just arriving, or the one that waits longest. */
  ghost predicate AtHand(s: State, t: Trail, r: Record, p: nat)
    requires SameSize(s, t)
  {
    && p < |s.world.received| && s.world.received[p] == r.event
    && (|| (p == |s.world.received| - 1 && forall i :: 0 <= i < |t.buffer| ==> t.buffer[i] < p)
        || (s.buffer != [] && r == s.buffer[0] && p == t.buffer[0]))
  }

  /** The undecided press came before everything that waits, unless it took over past something older. */
  ghost predicate InTurnBut(past: set<nat>, s: State, t: Trail) {
    IsUnsettled(s.tapping) && t.tapping !in past ==> InTurn(s, t)
  }

  /** Whatever decides the tapping key is a reason to. */
  lemma DecidedForReason(cfg: Config, s: State, t: Trail, r: Record, p: nat, from: int)
    requires Traced(s, t) && AtHand(s, t, r, p) && ReadyFor(s, r)
    requires from == -1 || (from == t.tapping && InTurn(s, t))
    requires IsUnsettled(s.tapping) && Decides(cfg, s, r) && (!r.event.IsTick() || !WithinTappingTerm(cfg, s, r.event))
    ensures Reason(cfg, s.world, DecidedAs(cfg, s, r), from, p)
  {
    var x := DecidedAs(cfg, s, r);
    if WithinTappingTerm(cfg, s, r.event) {
      if IsTappingRelease(s, r.event) {
        assert x.(count := 0) == s.tapping;
      } else {
        assert x.(interrupted := s.tapping.interrupted) == s.tapping;
        assert InTerm(cfg, s.world, x, r.event);
        if !r.event.pressed {
          var i :| 0 <= i < |s.buffer| && IsCounterpart(s.buffer[i].event, r.event);
          var d := t.buffer[i];
          assert s.world.received[d] == s.buffer[i].event && from < d;
          assert r == s.buffer[0] && p == t.buffer[0] ==> i > 0;
          assert PressedAfter(s.world, from, p, r.event.key);
        }
      }
    }
  }

  lemma UndecidedAttemptJustified(cfg: Config, past: set<nat>, s: State, t: Trail, r: Record, p: nat)
    requires Traced(s, t) && AtHand(s, t, r, p) && ReadyFor(s, r) && AllJustified(cfg, past, s.world, t.log)
    requires IsUnsettled(s.tapping) && (!r.event.IsTick() || !WithinTappingTerm(cfg, s, r.event))
    requires t.tapping != p && (t.tapping !in past ==> InTurn(s, t) && t.tapping < p)
    ensures AllJustified(cfg, past, ProcessTapping(cfg, s, r).state.world, AttemptTrail(cfg, s, t, r, p).log)
  {
    var w', a := ProcessTapping(cfg, s, r).state.world, AttemptTrail(cfg, s, t, r, p);
    MeetsUndecided(cfg, s, r);
    var n := |s.world.log|;
    if Decides(cfg, s, r) {
      DecidedForReason(cfg, s, t, r, p, if t.tapping in past then -1 else t.tapping);
      assert w'.received[..|w'.received|] == s.world.received && w'.log[..n] == s.world.log;
      assert World(w'.received[..|w'.received|], w'.log[..n]) == s.world;
      assert JustifiedThen(cfg, past, w', a.log, n);
    }
    StillJustified(cfg, past, past, s.world, t.log, w', a.log);
  }

  /** A waiting release found by the scan is a reason to hand its press over as tapped. */
  lemma ReleaseIsReason(cfg: Config, b: State, r: Record, p: int, j: nat, c: nat)
    requires b.tapping == r && r.count == 0 && j < |b.buffer| && EndsTap(cfg, b, b.buffer[j].event)
    requires c < |b.world.received| && b.world.received[c] == b.buffer[j].event
    ensures Reason(cfg, b.world, r.(count := 1), p, c)
  {
    assert r.(count := 1).(count := 0) == r;
  }

  lemma ScanJustified(cfg: Config, past: set<nat>, s: State, t: Trail, r: Record, p: nat)
    requires Traced(s, t) && AtHand(s, t, r, p) && ReadyFor(s, r) && Scans(cfg, s, r)
    requires p in past || forall i :: 0 <= i < |t.buffer| ==> p <= t.buffer[i]
    requires FirstRelease(cfg, TakenOver(s, r), 0) < |s.buffer|
    ensures var c := Cause(cfg, s, t, r, p);
      Justified(cfg, past, TakenOver(s, r).world, r.(count := 1), Origin(p, c, |s.world.received|))
  {
    var j := FirstRelease(cfg, TakenOver(s, r), 0);
    ReleaseIsReason(cfg, TakenOver(s, r), r, if p in past then -1 else p, j, t.buffer[j]);
    assert r == s.buffer[0] && p == t.buffer[0] ==> j > 0;
  }

  lemma TakingOverJustified(cfg: Config, past: set<nat>, s: State, t: Trail, r: Record, p: nat)
    requires Traced(s, t) && AtHand(s, t, r, p) && AllJustified(cfg, past, s.world, t.log)
    requires ReadyFor(s, r) && TakesOver(cfg, s, r)
    requires p in past || forall i :: 0 <= i < |t.buffer| ==> p <= t.buffer[i]
    ensures AllJustified(cfg, past, ProcessTapping(cfg, s, r).state.world, AttemptTrail(cfg, s, t, r, p).log)
  {
    var w', a := ProcessTapping(cfg, s, r).state.world, AttemptTrail(cfg, s, t, r, p);
    TakingOver(cfg, s, r);
    var b := TakenOver(s, r);
    if Scans(cfg, s, r) && FirstRelease(cfg, b, 0) < |b.buffer| {
      var n := |b.world.log|;
      assert w'.received[..|w'.received|] == b.world.received && w'.log[..n] == b.world.log;
      assert World(w'.received[..|w'.received|], w'.log[..n]) == b.world;
      ScanJustified(cfg, past, s, t, r, p);
      assert JustifiedThen(cfg, past, w', a.log, n);
    }
    StillJustified(cfg, past, past, s.world, t.log, w', a.log);
  }

  lemma AttemptJustified(cfg: Config, past: set<nat>, s: State, t: Trail, r: Record, p: nat)
    requires Traced(s, t) && AtHand(s, t, r, p) && AllJustified(cfg, past, s.world, t.log)
    requires ReadyFor(s, r)
    requires IsUnsettled(s.tapping) ==> t.tapping != p && (t.tapping !in past ==> InTurn(s, t) && t.tapping < p)
    requires TakesOver(cfg, s, r) && p !in past ==> forall i :: 0 <= i < |t.buffer| ==> p <= t.buffer[i]
    ensures AllJustified(cfg, past, ProcessTapping(cfg, s, r).state.world, AttemptTrail(cfg, s, t, r, p).log)
  {
    if TakesOver(cfg, s, r) {
      TakingOverJustified(cfg, past, s, t, r, p);
    } else if !IsUnsettled(s.tapping) {
      NothingToDecide(cfg, s, r);
      StillJustified(cfg, past, past, s.world, t.log,
        ProcessTapping(cfg, s, r).state.world, AttemptTrail(cfg, s, t, r, p).log);
    } else if r.event.IsTick() && WithinTappingTerm(cfg, s, r.event) {
      TickWithinTerm(cfg, s, r);
    } else {
      UndecidedAttemptJustified(cfg, past, s, t, r, p);
    }
  }

  lemma RecordStays(cfg: Config, s: State, r: Record)
    ensures ProcessTapping(cfg, s, r).record.event == r.event
  {
  }

  /** After an attempt the undecided press, if any, is the one before or the one at hand. */
  lemma AttemptTraces(cfg: Config, s: State, t: Trail, r: Record, p: nat)
    requires SameSize(s, t) && ReadyFor(s, r)
    ensures var o, a := ProcessTapping(cfg, s, r).state, AttemptTrail(cfg, s, t, r, p);
      && SameEvents(o.buffer, s.buffer) && o.world.received == s.world.received
      && (IsUnsettled(o.tapping) ==>
            if TakesOver(cfg, s, r) then a.tapping == p && o.tapping.event == r.event
            else a.tapping == t.tapping && IsUnsettled(s.tapping) && o.tapping.event == s.tapping.event)
  {
    if TakesOver(cfg, s, r) {
      TakingOver(cfg, s, r);
    } else if !IsUnsettled(s.tapping) {
      NothingToDecide(cfg, s, r);
    } else if r.event.IsTick() && WithinTappingTerm(cfg, s, r.event) {
      TickWithinTerm(cfg, s, r);
    } else {
      MeetsUndecided(cfg, s, r);
    }
  }

  // ---------------------------------------------------------------- the retry loop, one event, whole runs

  /** All that is kept: the trail is true, presses are in turn but for those in `past`, decisions are justified. */
  ghost predicate Kept(cfg: Config, past: set<nat>, s: State, t: Trail) {
    Inv(s) && Traced(s, t) && InTurnBut(past, s, t) && AllJustified(cfg, past, s.world, t.log)
  }

  lemma RetryKeepsJustified(cfg: Config, past: set<nat>, s: State, t: Trail)
    requires Kept(cfg, past, s, t) && s.buffer != []
    ensures Kept(cfg, past, Retry(cfg, s), RetryTrail(cfg, s, t))
  {
    RetryInv(cfg, s);
    AttemptTraces(cfg, s, t, s.buffer[0], t.buffer[0]);
    AttemptJustified(cfg, past, s, t, s.buffer[0], t.buffer[0]);
    MeetsHead(cfg, s, t);
  }

  /** Taken from the buffer, a press comes before all that still waits. */
  lemma MeetsHead(cfg: Config, s: State, t: Trail)
    requires Inv(s) && Traced(s, t) && s.buffer != []
    ensures Traced(Retry(cfg, s), RetryTrail(cfg, s, t))
  {
    var r, p := s.buffer[0], t.buffer[0];
    AttemptTraces(cfg, s, t, r, p);
    RecordStays(cfg, s, r);
    if ProcessTapping(cfg, s, r).consumed {
      PoppedTraces(s, t, Retry(cfg, s), RetryTrail(cfg, s, t));
    } else {
      NotTakenOver(cfg, s, r);
      StoppedTraces(s, t, Retry(cfg, s), RetryTrail(cfg, s, t));
    }
  }

  /** The oldest record has left the buffer; it may have become the undecided press. */
  lemma PoppedTraces(s: State, t: Trail, s': State, t': Trail)
    requires Traced(s, t) && s.buffer != [] && SameSize(s', t') && s'.world.received == s.world.received
    requires SameEvents(s'.buffer, s.buffer[1..]) && t'.buffer == t.buffer[1..]
    requires IsUnsettled(s'.tapping) ==>
      || (t'.tapping == t.buffer[0] && s'.tapping.event == s.buffer[0].event)
      || (t'.tapping == t.tapping && IsUnsettled(s.tapping) && s'.tapping.event == s.tapping.event)
    ensures Traced(s', t')
  {
  }

  /** The buffer holds the same events as before, and an undecided press is the one there was. */
  lemma StoppedTraces(s: State, t: Trail, s': State, t': Trail)
    requires Traced(s, t) && SameSize(s', t') && s'.world.received == s.world.received
    requires SameEvents(s'.buffer, s.buffer) && t'.buffer == t.buffer
    requires IsUnsettled(s'.tapping) ==>
      t'.tapping == t.tapping && IsUnsettled(s.tapping) && s'.tapping.event == s.tapping.event
    ensures Traced(s', t')
  {
  }

  lemma {:induction false} DrainKeepsJustified(cfg: Config, past: set<nat>, s: State, t: Trail)
    requires Kept(cfg, past, s, t)
    ensures Kept(cfg, past, Drain(cfg, s), DrainTrail(cfg, s, t))
    decreases |s.buffer|
  {
    if s.buffer != [] {
      RetryKeepsJustified(cfg, past, s, t);
      if ProcessTapping(cfg, s, s.buffer[0]).consumed {
        DrainKeepsJustified(cfg, past, Retry(cfg, s), RetryTrail(cfg, s, t));
      }
    }
  }

  /** The press `e` becomes the tapping key while an older record waits. */
  predicate TakenPast(cfg: Config, s: State, e: Event) {
    s.buffer != [] && TakesOver(cfg, Receive(s, e), Record(e, 0, false))
  }

  lemma ReceiveKeeps(cfg: Config, past: set<nat>, s: State, t: Trail, e: Event)
    requires Kept(cfg, past, s, t)
    ensures var s0, n := Receive(s, e), |s.world.received|;
      && Inv(s0) && Traced(s0, t) && InTurnBut(past, s0, t) && AllJustified(cfg, past, s0.world, t.log)
      && AtHand(s0, t, Record(e, 0, false), n) && (IsUnsettled(s0.tapping) ==> t.tapping < n)
  {
    var s0, n := Receive(s, e), |s.world.received|;
    assert s0.world.received[..n] == s.world.received;
    StillJustified(cfg, past, past, s.world, t.log, s0.world, t.log);
  }

  lemma ArrivalTraces(cfg: Config, past: set<nat>, s: State, t: Trail, r: Record, n: nat)
    requires Inv(s) && Traced(s, t) && InTurnBut(past, s, t) && ReadyFor(s, r)
    requires n == |s.world.received| - 1 && s.world.received[n] == r.event
    requires forall i :: 0 <= i < |t.buffer| ==> t.buffer[i] < n
    requires TakesOver(cfg, s, r) && s.buffer != [] ==> n in past
    ensures var o, a := ProcessTapping(cfg, s, r).state, AttemptTrail(cfg, s, t, r, n);
      Traced(o, a) && InTurnBut(past, o, a)
  {
    AttemptTraces(cfg, s, t, r, n);
  }

  /** Queued behind all others, the newest record fits the trail. */
  lemma QueuedTraces(past: set<nat>, s: State, t: Trail, r: Record, n: nat)
    requires Traced(s, t) && InTurnBut(past, s, t)
    requires n == |s.world.received| - 1 && s.world.received[n] == r.event
    requires forall i :: 0 <= i < |t.buffer| ==> t.buffer[i] < n
    requires IsUnsettled(s.tapping) ==> t.tapping < n
    ensures var s', t' := s.(buffer := s.buffer + [r]), t.(buffer := t.buffer + [n]);
      Traced(s', t') && InTurnBut(past, s', t')
  {
  }

  lemma AcceptTraces(cfg: Config, past: set<nat>, s: State, t: Trail, e: Event)
    requires Kept(cfg, past, s, t) && (TakenPast(cfg, s, e) ==> |s.world.received| in past)
    ensures Traced(Accept(cfg, s, e), AcceptTrail(cfg, s, t, e))
    ensures InTurnBut(past, Accept(cfg, s, e), AcceptTrail(cfg, s, t, e))
  {
    var s0, r, n := Receive(s, e), Record(e, 0, false), |s.world.received|;
    ReceiveKeeps(cfg, past, s, t, e);
    ArrivalTraces(cfg, past, s0, t, r, n);
    AttemptTraces(cfg, s0, t, r, n);
    RecordStays(cfg, s0, r);
    var o, a := ProcessTapping(cfg, s0, r), AttemptTrail(cfg, s0, t, r, n);
    if !o.consumed && !e.IsTick() && !IsFull(o.state.buffer) {
      NotTakenOver(cfg, s0, r);
      QueuedTraces(past, o.state, a, o.record, n);
    }
  }

  lemma NotTakenOver(cfg: Config, s: State, r: Record)
    requires ReadyFor(s, r) && !ProcessTapping(cfg, s, r).consumed
    ensures !TakesOver(cfg, s, r)
  {
    if TakesOver(cfg, s, r) {
      TakingOver(cfg, s, r);
    }
  }

  lemma AcceptKeeps(cfg: Config, past: set<nat>, s: State, t: Trail, e: Event)
    requires Kept(cfg, past, s, t) && (TakenPast(cfg, s, e) ==> |s.world.received| in past)
    ensures Kept(cfg, past, Accept(cfg, s, e), AcceptTrail(cfg, s, t, e))
  {
    var s0, r, n := Receive(s, e), Record(e, 0, false), |s.world.received|;
    ReceiveKeeps(cfg, past, s, t, e);
    AcceptInv(cfg, s, e);
    AcceptTraces(cfg, past, s, t, e);
    AttemptJustified(cfg, past, s0, t, r, n);
    var w, a := ProcessTapping(cfg, s0, r).state.world, AttemptTrail(cfg, s0, t, r, n);
    StillJustified(cfg, past, past, w, a.log, Accept(cfg, s, e).world, AcceptTrail(cfg, s, t, e).log);
  }

  /** The positions of the presses that took over while an older record waited. */
  ghost function Past(cfg: Config, es: seq<Event>): set<nat> {
    set n | 0 <= n < |es| && TakenPast(cfg, Run(cfg, es[..n]), es[n])
  }

  lemma PastGrows(cfg: Config, es: seq<Event>)
    requires es != []
    ensures var m := |es| - 1;
      Past(cfg, es[..m]) <= Past(cfg, es) && (TakenPast(cfg, Run(cfg, es[..m]), es[m]) ==> m in Past(cfg, es))
  {
    var es' := es[..|es| - 1];
    forall n | n in Past(cfg, es') ensures n in Past(cfg, es) {
      assert es'[..n] == es[..n];
    }
  }

  lemma KeptBut(cfg: Config, past: set<nat>, past': set<nat>, s: State, t: Trail)
    requires Kept(cfg, past, s, t) && past <= past'
    ensures Kept(cfg, past', s, t)
  {
    StillJustified(cfg, past, past', s.world, t.log, s.world, t.log);
  }

  lemma StepKeeps(cfg: Config, past: set<nat>, s: State, t: Trail, e: Event)
    requires Kept(cfg, past, s, t) && (TakenPast(cfg, s, e) ==> |s.world.received| in past)
    ensures Kept(cfg, past, Step(cfg, s, e), StepTrail(cfg, s, t, e))
  {
    AcceptKeeps(cfg, past, s, t, e);
    DrainKeepsJustified(cfg, past, Accept(cfg, s, e), AcceptTrail(cfg, s, t, e));
  }

  lemma {:induction false} RunKeeps(cfg: Config, es: seq<Event>)
    ensures Kept(cfg, Past(cfg, es), Run(cfg, es), RunTrail(cfg, es))
  {
    if es != [] {
      var es', e := es[..|es| - 1], es[|es| - 1];
      var s, t := Run(cfg, es'), RunTrail(cfg, es');
      RunKeeps(cfg, es');
      RunInv(cfg, es');
      PastGrows(cfg, es);
      KeptBut(cfg, Past(cfg, es'), Past(cfg, es), s, t);
      StepKeeps(cfg, Past(cfg, es), s, t, e);
    }
  }

  // ---------------------------------------------------------------- the decisions of a run

  /**
   On every run, in every mode: each key that is handed over was decided for a reason, and unless its press
   took over past an older record, for one received after the press.
   */
  lemma RunJustified(cfg: Config, es: seq<Event>)
    ensures AllJustified(cfg, Past(cfg, es), Run(cfg, es).world, RunTrail(cfg, es).log)
    ensures Run(cfg, es).world.received == es
  {
    RunKeeps(cfg, es);
    RunInv(cfg, es);
  }

  ghost predicate DefaultMode(cfg: Config) {
    forall w, r :: !cfg.permissiveHold(w, r) && !cfg.holdOnOtherKeyPress(w, r)
  }

  /** The key `r` pressed at `p` was a tap let go of in time, or something a term later had been seen, at `c`. */
  ghost predicate TapOrTimeout(cfg: Config, w: World, r: Record, p: nat, c: nat) {
    && p < |w.received| && w.received[p] == r.event && c < |w.received| && c != p
    && var e := w.received[c];
       || (r.count == 1 && !e.IsTick() && !e.pressed && e.key == r.event.key
           && Diff16(e.time, r.event.time) < cfg.tappingTerm(w, r.(count := 0)))
       || (r.count == 0 && Diff16(e.time, r.event.time) >= cfg.tappingTerm(w, r))
  }

  lemma JustifiedInDefaultMode(cfg: Config, past: set<nat>, w: World, r: Record, o: Origin)
    requires DefaultMode(cfg) && Justified(cfg, past, w, r, o)
    ensures TapOrTimeout(cfg, w, r, o.press, o.cause)
  {
  }

  /**
   In the default mode every tap has its release within the term and every hold something at least the term later,
   received after the press unless that took over past an older record.
   */
  lemma DefaultModeDecision(cfg: Config, es: seq<Event>, i: nat)
    requires DefaultMode(cfg)
    requires i < |Run(cfg, es).world.log| && IsDecision(Run(cfg, es).world.log[i])
    ensures var log, o := Run(cfg, es).world.log, RunTrail(cfg, es).log[i];
      && o.at <= |es| && TapOrTimeout(cfg, World(es[..o.at], log[..i]), log[i].record, o.press, o.cause)
      && (o.press !in Past(cfg, es) ==> o.press < o.cause)
  {
    var past, w, t := Past(cfg, es), Run(cfg, es).world, RunTrail(cfg, es);
    RunJustified(cfg, es);
    assert JustifiedThen(cfg, past, w, t.log, i);
    JustifiedInDefaultMode(cfg, past, World(es[..t.log[i].at], w.log[..i]), w.log[i].record, t.log[i]);
  }

  lemma ProjectNext(k: Key, es: seq<Event>, i: nat)
    requires i < |es|
    ensures Project(k, NonTick(es[..i + 1])) ==
            Project(k, NonTick(es[..i])) + (if !es[i].IsTick() && es[i].key == k then [es[i]] else [])
  {
    var before := Project(k, NonTick(es[..i]));
    assert es[..i + 1][..i] == es[..i];
    assert before + [] == before;
    if es[i].IsTick() {
      assert NonTick(es[..i + 1]) == NonTick(es[..i]);
    } else {
      ProjectAppend(k, NonTick(es[..i]), es[i]);
    }
  }

  /** Ticks and events of other keys leave no trace in what is seen of a key. */
  lemma {:induction false} ProjectStays(k: Key, es: seq<Event>, i: nat, m: nat)
    requires i <= m <= |es|
    requires forall d :: i <= d < m ==> es[d].IsTick() || es[d].key != k
    ensures Project(k, NonTick(es[..m])) == Project(k, NonTick(es[..i]))
    decreases m - i
  {
    if i < m {
      ProjectStays(k, es, i, m - 1);
      ProjectNext(k, es, m - 1);
    }
  }

  lemma NothingBetween(es: seq<Event>, p: nat, m: nat)
    requires p < m < |es| && !es[p].IsTick() && !es[m].IsTick() && es[p].key == es[m].key
    requires forall d :: p < d < m ==> es[d].IsTick() || es[d].key != es[p].key
    requires AlternatesPerKey(es)
    ensures es[m].pressed != es[p].pressed
  {
    var k := es[p].key;
    AlternatesPrefix(es, m + 1);
    ProjectNext(k, es, p);
    ProjectStays(k, es, p + 1, m);
    ProjectNext(k, es, m);
    LastTwo(Project(k, NonTick(es[..p])), es[p], es[m], Project(k, NonTick(es[..m + 1])));
  }

  lemma LastTwo(before: seq<Event>, x: Event, y: Event, all: seq<Event>)
    requires Alternates(all) && all == before + [x] + [y]
    ensures x.pressed != y.pressed
  {
    assert all[|all| - 2] == x && all[|all| - 1] == y;
  }

  /** Where keys take turns, a press that interrupts is of another key, or the key was let go before it. */
  lemma InterruptingPress(es: seq<Event>, p: nat, c: nat)
    requires AlternatesPerKey(es) && p < c < |es|
    requires !es[p].IsTick() && es[p].pressed && !es[c].IsTick() && es[c].pressed
    ensures es[c].key != es[p].key ||
            exists m :: p < m < c && !es[m].IsTick() && !es[m].pressed && es[m].key == es[p].key
  {
    if es[c].key == es[p].key {
      var m := NextOfKey(es, p, p + 1, c);
      NothingBetween(es, p, m);
    }
  }

  /** Under hold-on-other-key-press, a key held for a press is held for another key's, or was let go before it. */
  lemma HeldForPress(cfg: Config, es: seq<Event>, i: nat)
    requires AlternatesPerKey(es)
    requires i < |Run(cfg, es).world.log| && IsDecision(Run(cfg, es).world.log[i])
    requires RunTrail(cfg, es).log[i].press < RunTrail(cfg, es).log[i].cause
    ensures var o := RunTrail(cfg, es).log[i];
      && o.cause < |es|
      && (!es[o.cause].IsTick() && es[o.cause].pressed && es[o.cause].key == es[o.press].key ==>
            exists m :: o.press < m < o.cause && !es[m].IsTick() && !es[m].pressed && es[m].key == es[o.press].key)
  {
    var o := RunTrail(cfg, es).log[i];
    RunJustified(cfg, es);
    assert JustifiedThen(cfg, Past(cfg, es), Run(cfg, es).world, RunTrail(cfg, es).log, i);
    if !es[o.cause].IsTick() && es[o.cause].pressed {
      InterruptingPress(es, o.press, o.cause);
    }
  }

  /** The first event from position `i` on of the key pressed at `p`. */
  function NextOfKey(es: seq<Event>, p: nat, i: nat, c: nat): (m: nat)
    requires p < i <= c < |es| && !es[c].IsTick() && es[c].key == es[p].key
    ensures i <= m <= c && !es[m].IsTick() && es[m].key == es[p].key
    ensures forall d :: i <= d < m ==> es[d].IsTick() || es[d].key != es[p].key
    decreases c - i
  {
    if !es[i].IsTick() && es[i].key == es[p].key then i else NextOfKey(es, p, i + 1, c)
  }
}
