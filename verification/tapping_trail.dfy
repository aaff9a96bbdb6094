/**
 Where the records in the machine came from. Equal events may arrive more than once, so the positions
 at which they were received are followed beside the machine; they say what came before what.
 */
module TappingTrail {
  import opened Events
  import opened Tapping
  import opened TappingOrder

  /**
   Of a tapping key handed over: the position of its press, that of the record which settled it,
   and how many events had been received by then.
   */
  datatype Origin = Origin(press: nat, cause: nat, at: nat)

  /** The positions of the tapping key and of the waiting records, and an origin for each output. */
  datatype Trail = Trail(tapping: nat, buffer: seq<nat>, log: seq<Origin>)

  const START := Trail(0, [], [])

  ghost predicate SameSize(s: State, t: Trail) {
    |t.buffer| == |s.buffer| && |t.log| == |s.world.log|
  }

  /** The tapping key is handed over, decided; no other output counts as a decision. */
  predicate IsDecision(x: Output) {
    x.Processed? && x.source == FromTappingKey
  }

  // ---------------------------------------------------------------- how a press becomes the tapping key

  /** A press becomes the tapping key, undecided so far. */
  predicate TakesOver(cfg: Config, s: State, r: Record) {
    && !r.event.IsTick() && r.event.pressed
    && if s.tapping.event.IsTick() then IsTap(cfg, s.world, r)
       else if s.tapping.event.pressed then s.tapping.count > 0 && IsTap(cfg, s.world, r)
       else
         && WithinTappingTerm(cfg, s, r.event)
         && if s.tapping.event.key == r.event.key
            then !WithinQuickTapTerm(cfg, s, r.event) || s.tapping.interrupted
            else IsTap(cfg, s.world, r)
  }

  /** The waiting records are then scanned for its release, except when a tapped key is pressed again. */
  predicate Scans(cfg: Config, s: State, r: Record) {
    TakesOver(cfg, s, r) && (s.tapping.event.IsTick() || s.tapping.event.pressed || s.tapping.event.key != r.event.key)
  }

  function TakenOver(s: State, r: Record): State {
    (if !s.tapping.event.IsTick() && s.tapping.event.pressed then LetGoOfLast(s, r) else s).(tapping := r)
  }

  /** The waiting release by which the scan settles the tapping key, if any. */
  function FirstRelease(cfg: Config, s: State, i: nat): (j: nat)
    requires i <= |s.buffer|
    ensures i <= j <= |s.buffer|
    ensures j < |s.buffer| ==> EndsTap(cfg, s, s.buffer[j].event)
    decreases |s.buffer| - i
  {
    if i == |s.buffer| || EndsTap(cfg, s, s.buffer[i].event) then i else FirstRelease(cfg, s, i + 1)
  }

  lemma {:induction false} ScanFinds(cfg: Config, s: State, i: nat)
    requires i <= |s.buffer|
    ensures var j := FirstRelease(cfg, s, i);
      ScanTapFrom(cfg, s, i) == if j < |s.buffer| then SettleAsTapped(s, j) else s
    decreases |s.buffer| - i
  {
    if i < |s.buffer| && !EndsTap(cfg, s, s.buffer[i].event) {
      ScanFinds(cfg, s, i + 1);
    }
  }

  /** What a press that takes over leaves behind: undecided, or decided at once by a release that waits. */
  lemma TakingOver(cfg: Config, s: State, r: Record)
    requires TakesOver(cfg, s, r) && r.count == 0 && ReadyFor(s, r)
    ensures var b := TakenOver(s, r);
      var j := FirstRelease(cfg, b, 0);
      ProcessTapping(cfg, s, r) ==
      Outcome(if Scans(cfg, s, r) && j < |b.buffer| then SettleAsTapped(b, j) else b, r, true)
    ensures !IsUnsettled(s.tapping)
  {
    ScanFinds(cfg, TakenOver(s, r), 0);
  }

  // ---------------------------------------------------------------- the trail of a run

  /** The position of the waiting release that settles a press taking over, else that of the record at hand. */
  function Cause(cfg: Config, s: State, t: Trail, r: Record, p: nat): nat {
    var j := FirstRelease(cfg, TakenOver(s, r), 0);
    if Scans(cfg, s, r) && j < |t.buffer| then t.buffer[j] else p
  }

  /** One call of `process_tapping` on the record `r`, received at position `p`. */
  function AttemptTrail(cfg: Config, s: State, t: Trail, r: Record, p: nat): (t': Trail)
    requires SameSize(s, t)
    ensures SameSize(ProcessTapping(cfg, s, r).state, t') && t.log <= t'.log
  {
    var press := if TakesOver(cfg, s, r) then p else t.tapping;
    var origin := Origin(press, Cause(cfg, s, t, r, p), |s.world.received|);
    var more := |ProcessTapping(cfg, s, r).state.world.log| - |s.world.log|;
    Trail(press, t.buffer, t.log + seq(more, _ => origin))
  }

  function RetryTrail(cfg: Config, s: State, t: Trail): (t': Trail)
    requires SameSize(s, t) && s.buffer != []
    ensures SameSize(Retry(cfg, s), t') && t.log <= t'.log
  {
    var a := AttemptTrail(cfg, s, t, s.buffer[0], t.buffer[0]);
    if ProcessTapping(cfg, s, s.buffer[0]).consumed then a.(buffer := a.buffer[1..]) else a
  }

  function DrainTrail(cfg: Config, s: State, t: Trail): (t': Trail)
    requires SameSize(s, t)
    ensures SameSize(Drain(cfg, s), t') && t.log <= t'.log
    decreases |s.buffer|
  {
    if s.buffer == [] then t
    else if ProcessTapping(cfg, s, s.buffer[0]).consumed then DrainTrail(cfg, Retry(cfg, s), RetryTrail(cfg, s, t))
    else RetryTrail(cfg, s, t)
  }

  function AcceptTrail(cfg: Config, s: State, t: Trail, e: Event): (t': Trail)
    requires SameSize(s, t)
    ensures SameSize(Accept(cfg, s, e), t') && t.log <= t'.log
  {
    var n := |s.world.received|;
    var a := AttemptTrail(cfg, Receive(s, e), t, Record(e, 0, false), n);
    if ProcessTapping(cfg, Receive(s, e), Record(e, 0, false)).consumed || e.IsTick() then a
    else if Overflows(cfg, s, e) then Trail(0, [], a.log + [Origin(0, 0, 0)])
    else a.(buffer := a.buffer + [n])
  }

  function StepTrail(cfg: Config, s: State, t: Trail, e: Event): (t': Trail)
    requires SameSize(s, t)
    ensures SameSize(Step(cfg, s, e), t') && t.log <= t'.log
  {
    DrainTrail(cfg, Accept(cfg, s, e), AcceptTrail(cfg, s, t, e))
  }

  function RunTrail(cfg: Config, es: seq<Event>): (t: Trail)
    ensures SameSize(Run(cfg, es), t)
  {
    if es == [] then START
    else StepTrail(cfg, Run(cfg, es[..|es| - 1]), RunTrail(cfg, es[..|es| - 1]), es[|es| - 1])
  }

  // ---------------------------------------------------------------- what the trail keeps

  /** The trail tells the truth, and who waits longer came earlier. */
  ghost predicate Traced(s: State, t: Trail) {
    && SameSize(s, t)
    && (forall i :: 0 <= i < |s.buffer| ==>
          t.buffer[i] < |s.world.received| && s.world.received[t.buffer[i]] == s.buffer[i].event)
    && (forall i, j :: 0 <= i < j < |t.buffer| ==> t.buffer[i] < t.buffer[j])
    && (IsUnsettled(s.tapping) ==>
          && t.tapping < |s.world.received| && s.world.received[t.tapping] == s.tapping.event
          && t.tapping !in t.buffer)
  }

  /** No record waits that came before the undecided press. */
  ghost predicate InTurn(s: State, t: Trail) {
    IsUnsettled(s.tapping) ==> forall i :: 0 <= i < |t.buffer| ==> t.tapping < t.buffer[i]
  }

  /** The record at hand decides the undecided tapping key. */
  predicate Decides(cfg: Config, s: State, r: Record) {
    || !WithinTappingTerm(cfg, s, r.event)
    || IsTappingRelease(s, r.event)
    || (r.event.pressed && cfg.holdOnOtherKeyPress(s.world, s.tapping.(interrupted := true)))
    || (!r.event.pressed && Typed(s.buffer, r.event) && cfg.permissiveHold(s.world, s.tapping))
  }

  /** The record at hand is handed over ahead of the undecided tapping key. */
  predicate Passes(cfg: Config, s: State, r: Record) {
    !Decides(cfg, s, r) && !r.event.pressed && !Typed(s.buffer, r.event) && !HeldBack(cfg, s.world, r)
  }

  /** How the tapping key is handed over when `r` decides it. */
  function DecidedAs(cfg: Config, s: State, r: Record): Record {
    if !WithinTappingTerm(cfg, s, r.event) then s.tapping
    else if IsTappingRelease(s, r.event) then s.tapping.(count := 1)
    else if r.event.pressed then s.tapping.(interrupted := true)
    else s.tapping
  }

  /** An undecided key meets a record: it is decided, or stays undecided and lets it pass or wait. */
  lemma MeetsUndecided(cfg: Config, s: State, r: Record)
    requires IsUnsettled(s.tapping) && (!r.event.IsTick() || !WithinTappingTerm(cfg, s, r.event))
    ensures !TakesOver(cfg, s, r)
    ensures var o := ProcessTapping(cfg, s, r);
      if Decides(cfg, s, r) then
        && !o.consumed && !IsUnsettled(o.state.tapping)
        && o.state.world.log == s.world.log + [Processed(DecidedAs(cfg, s, r), FromTappingKey)]
      else
        && IsUnsettled(o.state.tapping) && o.state.tapping.event == s.tapping.event
        && (o.consumed <==> Passes(cfg, s, r))
        && o.state.world.log == s.world.log + (if o.consumed then [Processed(r, FromEvent)] else [])
    ensures ProcessTapping(cfg, s, r).state.buffer == s.buffer
  {
  }

  /** With nothing undecided and no press taking over, nothing is decided. */
  lemma NothingToDecide(cfg: Config, s: State, r: Record)
    requires !IsUnsettled(s.tapping) && !TakesOver(cfg, s, r) && ReadyFor(s, r)
    ensures var o := ProcessTapping(cfg, s, r).state;
      && !IsUnsettled(o.tapping) && o.buffer == s.buffer
      && forall i :: |s.world.log| <= i < |o.world.log| ==> !IsDecision(o.world.log[i])
  {
  }

  lemma TickWithinTerm(cfg: Config, s: State, r: Record)
    requires IsUnsettled(s.tapping) && r.event.IsTick() && WithinTappingTerm(cfg, s, r.event)
    ensures ProcessTapping(cfg, s, r) == Outcome(s, r, true) && !TakesOver(cfg, s, r)
  {
  }
}
