/**
 The releases the machine makes up: each one is for a key that the host has been told is down,
 as a tap of the same count, and that it has not been told is up again.
 */
module TappingSynthetic {
  import opened Events
  import opened Tapping
  import opened TappingOrder
  import opened TappingTrail

  ghost predicate Releases(x: Output, k: Key) {
    x.KeyboardCleared? || (!x.record.event.pressed && x.record.event.key == k)
  }

  /** Output `j` pressed this key with this count, and nothing since has released it. */
  ghost predicate DownSince(log: seq<Output>, j: nat, r: Record) {
    && j < |log| && log[j].Processed? && log[j].source != SyntheticRelease
    && log[j].record.event.pressed && log[j].record.event.key == r.event.key && log[j].record.count == r.count
    && forall m :: j < m < |log| ==> !Releases(log[m], r.event.key)
  }

  ghost predicate IsDown(log: seq<Output>, r: Record) {
    exists j :: DownSince(log, j, r)
  }

  /** A pressed and settled tapping key is down for the host. */
  ghost predicate TappingIsDown(s: State) {
    !s.tapping.event.IsTick() && s.tapping.event.pressed && s.tapping.count > 0 ==> IsDown(s.world.log, s.tapping)
  }

  ghost predicate Covered(log: seq<Output>, i: nat)
    requires i < |log|
  {
    log[i].Processed? && log[i].source == SyntheticRelease ==>
      !log[i].record.event.pressed && log[i].record.count > 1 && IsDown(log[..i], log[i].record)
  }

  ghost predicate AllCovered(log: seq<Output>) {
    forall i :: 0 <= i < |log| ==> Covered(log, i)
  }

  ghost predicate Sound(s: State) {
    TappingIsDown(s) && AllCovered(s.world.log)
  }

  lemma DownLater(log: seq<Output>, x: Output, r: Record)
    requires IsDown(log, r) && !Releases(x, r.event.key)
    ensures IsDown(log + [x], r)
  {
    var j :| DownSince(log, j, r);
    assert DownSince(log + [x], j, r);
  }

  lemma DownNow(log: seq<Output>, r: Record, source: Source)
    requires r.event.pressed && source != SyntheticRelease
    ensures IsDown(log + [Processed(r, source)], r)
  {
    assert DownSince(log + [Processed(r, source)], |log|, r);
  }

  lemma CoveredAppend(log: seq<Output>, x: Output)
    requires AllCovered(log)
    requires x.Processed? && x.source == SyntheticRelease ==>
      !x.record.event.pressed && x.record.count > 1 && IsDown(log, x.record)
    ensures AllCovered(log + [x])
  {
    var log' := log + [x];
    forall i | 0 <= i < |log'| ensures Covered(log', i) {
      if i < |log| {
        assert log'[..i] == log[..i];
        assert Covered(log, i);
      } else {
        assert log'[..i] == log;
      }
    }
  }

  lemma {:induction false} ScanFromSound(cfg: Config, s: State, i: nat)
    requires AllCovered(s.world.log) && s.tapping.count == 0 && s.tapping.event.pressed
    ensures Sound(ScanTapFrom(cfg, s, i))
    decreases |s.buffer| - i
  {
    if i < |s.buffer| {
      if EndsTap(cfg, s, s.buffer[i].event) {
        var tapped := s.tapping.(count := 1);
        CoveredAppend(s.world.log, Processed(tapped, FromTappingKey));
        DownNow(s.world.log, tapped, FromTappingKey);
      } else {
        ScanFromSound(cfg, s, i + 1);
      }
    }
  }

  lemma StartSound(cfg: Config, s: State, r: Record)
    requires AllCovered(s.world.log) && r.event.pressed && r.count == 0
    ensures Sound(ScanTap(cfg, s.(tapping := r)))
  {
    ScanFromSound(cfg, s.(tapping := r), 0);
  }

  /** Handing over a record of another key, or a press, leaves a key that is down as it is. */
  lemma EmitSound(s: State, r: Record)
    requires Sound(s) && (r.event.pressed || r.event.key != s.tapping.event.key)
    ensures Sound(Emit(s, r, FromEvent))
  {
    CoveredAppend(s.world.log, Processed(r, FromEvent));
    if !s.tapping.event.IsTick() && s.tapping.event.pressed && s.tapping.count > 0 {
      DownLater(s.world.log, Processed(r, FromEvent), s.tapping);
    }
  }

  lemma UnsettledSound(cfg: Config, s: State, r: Record)
    requires Sound(s) && IsUnsettled(s.tapping) && !r.event.IsTick()
    ensures Sound(ProcessUnsettled(cfg, s, r).state)
  {
    if IsTappingRelease(s, r.event) {
      var tapped := s.tapping.(count := 1);
      CoveredAppend(s.world.log, Processed(tapped, FromTappingKey));
      DownNow(s.world.log, tapped, FromTappingKey);
    } else if r.event.pressed {
      CoveredAppend(s.world.log, Processed(s.tapping.(interrupted := true), FromTappingKey));
    } else if Typed(s.buffer, r.event) {
      CoveredAppend(s.world.log, Processed(s.tapping, FromTappingKey));
    } else {
      EmitSound(s, r);
    }
  }

  lemma SettledSound(cfg: Config, s: State, r: Record)
    requires Sound(s) && !s.tapping.event.IsTick() && s.tapping.event.pressed && s.tapping.count > 0 &&
      !r.event.IsTick()
    requires r.event.pressed ==> r.count == 0
    ensures Sound(ProcessSettled(cfg, s, r).state)
  {
    if IsTappingRelease(s, r.event) {
      CoveredAppend(s.world.log,
        Processed(r.(count := s.tapping.count, interrupted := s.tapping.interrupted), FromEvent));
    } else if IsTap(cfg, s.world, r) && r.event.pressed {
      var released := ReleaseOfLast(s, r);
      if s.tapping.count > 1 {
        var j :| DownSince(s.world.log, j, s.tapping);
        assert DownSince(s.world.log, j, released);
        CoveredAppend(s.world.log, Processed(released, SyntheticRelease));
        StartSound(cfg, Emit(s, released, SyntheticRelease), r);
      } else {
        StartSound(cfg, s, r);
      }
    } else {
      EmitSound(s, r);
    }
  }

  lemma ReleasedSound(cfg: Config, s: State, r: Record)
    requires Sound(s) && !s.tapping.event.IsTick() && !s.tapping.event.pressed && !r.event.IsTick()
    requires r.event.pressed ==> r.count == 0
    ensures Sound(ProcessReleased(cfg, s, r).state)
  {
    if !r.event.pressed {
      CoveredAppend(s.world.log, Processed(r, FromEvent));
    } else if s.tapping.event.key == r.event.key {
      var r1 := r.(count := if s.tapping.count < 15 then s.tapping.count + 1 else s.tapping.count,
                   interrupted := s.tapping.interrupted);
      CoveredAppend(s.world.log, Processed(r1, FromEvent));
      DownNow(s.world.log, r1, FromEvent);
    } else if IsTap(cfg, s.world, r) {
      StartSound(cfg, s, r);
    } else {
      CoveredAppend(s.world.log, Processed(r, FromEvent));
    }
  }

  lemma ProcessTappingSound(cfg: Config, s: State, r: Record)
    requires Sound(s) && (r.event.pressed ==> r.count == 0)
    ensures Sound(ProcessTapping(cfg, s, r).state)
  {
    if s.tapping.event.IsTick() {
      if r.event.IsTick() {
      } else if r.event.pressed && IsTap(cfg, s.world, r) {
        StartSound(cfg, s, r);
      } else {
        CoveredAppend(s.world.log, Processed(r, FromEvent));
      }
    } else if s.tapping.event.pressed && s.tapping.count == 0 {
      if !WithinTappingTerm(cfg, s, r.event) {
        CoveredAppend(s.world.log, Processed(s.tapping, FromTappingKey));
      } else if !r.event.IsTick() {
        UnsettledSound(cfg, s, r);
      }
    } else if r.event.IsTick() {
    } else if s.tapping.event.pressed {
      SettledSound(cfg, s, r);
    } else if WithinTappingTerm(cfg, s, r.event) {
      ReleasedSound(cfg, s, r);
    }
  }

  lemma {:induction false} DrainSound(cfg: Config, s: State)
    requires Inv(s) && Sound(s)
    ensures Sound(Drain(cfg, s))
    decreases |s.buffer|
  {
    if s.buffer != [] {
      ProcessTappingSound(cfg, s, s.buffer[0]);
      RetryInv(cfg, s);
      if ProcessTapping(cfg, s, s.buffer[0]).consumed {
        DrainSound(cfg, Retry(cfg, s));
      }
    }
  }

  lemma AcceptSound(cfg: Config, s: State, e: Event)
    requires Inv(s) && Sound(s)
    ensures Sound(Accept(cfg, s, e))
  {
    var o := ProcessTapping(cfg, Receive(s, e), Record(e, 0, false));
    ProcessTappingSound(cfg, Receive(s, e), Record(e, 0, false));
    CoveredAppend(o.state.world.log, KeyboardCleared);
  }

  /** On every run, a release is made up only for a key put down by a multiple tap and not let go since. */
  lemma {:induction false} SyntheticReleasesAreCovered(cfg: Config, es: seq<Event>)
    ensures Sound(Run(cfg, es))
  {
    if es != [] {
      var es', e := es[..|es| - 1], es[|es| - 1];
      SyntheticReleasesAreCovered(cfg, es');
      RunInv(cfg, es');
      AcceptSound(cfg, Run(cfg, es'), e);
      AcceptInv(cfg, Run(cfg, es'), e);
      DrainSound(cfg, Accept(cfg, Run(cfg, es'), e));
    }
  }

  // ---------------------------------------------------------------- when releases are made up

  predicate About(x: Output, k: Key) {
    x.Processed? && x.record.event.key == k
  }

  predicate MadeUp(x: Output, k: Key) {
    About(x, k) && x.source == SyntheticRelease
  }

  ghost predicate AnyMadeUp(log: seq<Output>, n: nat, k: Key) {
    exists i :: n <= i < |log| && MadeUp(log[i], k)
  }

  /** A press takes over from key `k`, which is held after more than one tap. */
  predicate LetsGo(cfg: Config, s: State, r: Record, k: Key) {
    && TakesOver(cfg, s, r)
    && !s.tapping.event.IsTick() && s.tapping.event.pressed && s.tapping.count > 1 && s.tapping.event.key == k
  }

  /** That is exactly when a call makes up a release of the key. */
  lemma MadeUpIff(cfg: Config, s: State, r: Record, k: Key)
    requires ReadyFor(s, r)
    ensures AnyMadeUp(ProcessTapping(cfg, s, r).state.world.log, |s.world.log|, k) <==> LetsGo(cfg, s, r, k)
  {
    var log, log' := s.world.log, ProcessTapping(cfg, s, r).state.world.log;
    if TakesOver(cfg, s, r) {
      TakingOver(cfg, s, r);
      if LetsGo(cfg, s, r, k) {
        assert MadeUp(log'[|log|], k);
      }
    }
  }

  lemma SplitMadeUp(a: seq<Output>, b: seq<Output>, n: nat, k: Key)
    requires a <= b && n <= |a|
    ensures AnyMadeUp(b, n, k) <==> AnyMadeUp(a, n, k) || AnyMadeUp(b, |a|, k)
  {
    if AnyMadeUp(a, n, k) {
      var i :| n <= i < |a| && MadeUp(a[i], k);
      assert MadeUp(b[i], k);
    }
    assert forall i :: 0 <= i < |a| ==> a[i] == b[i];
  }

  /** The retry loop comes to such a take-over. */
  predicate DrainLetsGo(cfg: Config, s: State, k: Key)
    decreases |s.buffer|
  {
    && s.buffer != []
    && (LetsGo(cfg, s, s.buffer[0], k) ||
        (ProcessTapping(cfg, s, s.buffer[0]).consumed && DrainLetsGo(cfg, Retry(cfg, s), k)))
  }

  predicate StepLetsGo(cfg: Config, s: State, e: Event, k: Key) {
    LetsGo(cfg, Receive(s, e), Record(e, 0, false), k) || DrainLetsGo(cfg, Accept(cfg, s, e), k)
  }

  /** At some event of the run. */
  ghost predicate RunLetsGo(cfg: Config, es: seq<Event>, k: Key) {
    es != [] &&
    (RunLetsGo(cfg, es[..|es| - 1], k) || StepLetsGo(cfg, Run(cfg, es[..|es| - 1]), es[|es| - 1], k))
  }

  lemma {:induction false} DrainMadeUpIff(cfg: Config, s: State, k: Key)
    requires Inv(s)
    ensures s.world.log <= Drain(cfg, s).world.log
    ensures AnyMadeUp(Drain(cfg, s).world.log, |s.world.log|, k) <==> DrainLetsGo(cfg, s, k)
    decreases |s.buffer|
  {
    if s.buffer != [] {
      var r, s' := s.buffer[0], Retry(cfg, s);
      assert Extends(s, Drain(cfg, s)) && Extends(s, ProcessTapping(cfg, s, r).state);
      MadeUpIff(cfg, s, r, k);
      RetryInv(cfg, s);
      if ProcessTapping(cfg, s, r).consumed {
        DrainMadeUpIff(cfg, s', k);
        SplitMadeUp(s'.world.log, Drain(cfg, s).world.log, |s.world.log|, k);
      }
    }
  }

  lemma StepMadeUpIff(cfg: Config, s: State, e: Event, k: Key)
    requires Inv(s)
    ensures s.world.log <= Step(cfg, s, e).world.log
    ensures AnyMadeUp(Step(cfg, s, e).world.log, |s.world.log|, k) <==> StepLetsGo(cfg, s, e, k)
  {
    var a, o := Accept(cfg, s, e), ProcessTapping(cfg, Receive(s, e), Record(e, 0, false)).state;
    AcceptInv(cfg, s, e);
    MadeUpIff(cfg, Receive(s, e), Record(e, 0, false), k);
    SplitMadeUp(o.world.log, a.world.log, |s.world.log|, k);
    assert !AnyMadeUp(a.world.log, |o.world.log|, k);
    DrainMadeUpIff(cfg, a, k);
    SplitMadeUp(a.world.log, Step(cfg, s, e).world.log, |s.world.log|, k);
  }

  /** Over whole runs: a release of the key is made up if and only if a press takes over from it in that way. */
  lemma {:induction false} RunMadeUpIff(cfg: Config, es: seq<Event>, k: Key)
    ensures AnyMadeUp(Run(cfg, es).world.log, 0, k) <==> RunLetsGo(cfg, es, k)
  {
    if es != [] {
      var es', e := es[..|es| - 1], es[|es| - 1];
      RunMadeUpIff(cfg, es', k);
      RunInv(cfg, es');
      StepMadeUpIff(cfg, Run(cfg, es'), e, k);
      SplitMadeUp(Run(cfg, es').world.log, Run(cfg, es).world.log, 0, k);
    }
  }
}
