/**
 The tap-hold decision of `quantum/action_tapping.c` as a state machine over values.

 `process_record` is a sink: what it is handed is appended to `World.log`. Everything the
 code asks of the rest of the firmware (the action of a key on the layers that are on, the
 tapping terms, the mode flags) is a function of the events received and the records
 processed so far, so that any layer or user-code behaviour is covered.
 */
module Tapping {
  import opened Events
  import LayerActions

  const WAITING_BUFFER_SIZE := 8

  /** `tap.count` is a 4-bit field. */
  type TapCount = n: int | 0 <= n < 16

  datatype Record = Record(event: Event, count: TapCount, interrupted: bool)

  /** Which record `process_record` was handed: the tapping key, the event at hand, or a made-up release. */
  datatype Source = FromTappingKey | FromEvent | SyntheticRelease

  datatype Output = Processed(record: Record, source: Source) | KeyboardCleared

  datatype World = World(received: seq<Event>, log: seq<Output>)

  datatype Config = Config(
    action: (World, Key) -> nat,
    tappingTerm: (World, Record) -> Time16,
    quickTapTerm: (World, Record) -> Time16,
    permissiveHold: (World, Record) -> bool,
    holdOnOtherKeyPress: (World, Record) -> bool)

  datatype State = State(tapping: Record, buffer: seq<Record>, world: World)

  // ---------------------------------------------------------------- what actions say

  const ACT_LMODS: nat := 0
  const ACT_RMODS: nat := 1
  const ACT_LMODS_TAP: nat := 2
  const ACT_RMODS_TAP: nat := 3
  const ACT_SWAP_HANDS: nat := 6

  const KC_LEFT_CTRL: nat := 0xE0
  const KC_RIGHT_GUI: nat := 0xE7
  const OP_TAP_TOGGLE: nat := 0xF0
  const OP_ONESHOT: nat := 0xF4
  const OP_SH_TAP_TOGGLE: nat := 0xF1

  function ActionMods(action: nat): nat { action / 0x100 % 0x10 }

  predicate IsModifier(code: nat) {
    KC_LEFT_CTRL <= code <= KC_RIGHT_GUI
  }

  /** `is_tap_action` */
  predicate IsTapAction(action: nat) {
    var kind, code := LayerActions.KindId(action), LayerActions.TapCode(action);
    if kind == ACT_LMODS_TAP || kind == ACT_RMODS_TAP || kind == LayerActions.ACT_LAYER_TAP ||
       kind == LayerActions.ACT_LAYER_TAP_EXT
    then code <= KC_RIGHT_GUI || code == OP_TAP_TOGGLE || code == OP_ONESHOT
    else kind == ACT_SWAP_HANDS && (code <= KC_RIGHT_GUI || code == OP_SH_TAP_TOGGLE)
  }

  /** Releases of modifiers and layers have to wait for the tapping key to settle. */
  predicate IsRetainedAction(action: nat, tapCount: TapCount) {
    var kind, code, mods := LayerActions.KindId(action), LayerActions.TapCode(action), ActionMods(action);
    if kind == ACT_LMODS || kind == ACT_RMODS then (mods != 0 && code == 0) || IsModifier(code)
    else if kind == ACT_LMODS_TAP || kind == ACT_RMODS_TAP then (mods != 0 && tapCount == 0) || IsModifier(code)
    else if kind == LayerActions.ACT_LAYER_TAP || kind == LayerActions.ACT_LAYER_TAP_EXT then
      code < OP_TAP_TOGGLE || code == LayerActions.OP_ON_OFF ||
      code == LayerActions.OP_OFF_ON || code == LayerActions.OP_SET_CLEAR
    else false
  }

  /** `is_tap_record`, with `layer_switch_get_action` as the oracle. */
  predicate IsTap(cfg: Config, w: World, r: Record) {
    !r.event.IsTick() && IsTapAction(cfg.action(w, r.event.key))
  }

  predicate HeldBack(cfg: Config, w: World, r: Record) {
    IsRetainedAction(cfg.action(w, r.event.key), r.count)
  }

  /** The zeroed record: `IS_NOEVENT` holds of it. */
  const NO_RECORD := Record(Event(Key(0, 0), 0, TickEvent, false), 0, false)

  const INITIAL := State(NO_RECORD, [], World([], []))

  // ---------------------------------------------------------------- the transition function

  /** What has been processed is never taken back, and only `Receive` takes in input. */
  ghost predicate Extends(s: State, s': State) {
    s.world.log <= s'.world.log && s'.world.received == s.world.received
  }

  function Emit(s: State, r: Record, source: Source): State {
    s.(world := s.world.(log := s.world.log + [Processed(r, source)]))
  }

  predicate WithinTappingTerm(cfg: Config, s: State, e: Event) {
    Diff16(e.time, s.tapping.event.time) < cfg.tappingTerm(s.world, s.tapping)
  }

  predicate WithinQuickTapTerm(cfg: Config, s: State, e: Event) {
    Diff16(e.time, s.tapping.event.time) < cfg.quickTapTerm(s.world, s.tapping)
  }

  predicate IsTappingRelease(s: State, e: Event) {
    s.tapping.event.key == e.key && !e.pressed
  }

  /** Does the buffer hold an event of the same key in the other direction? */
  predicate Typed(buffer: seq<Record>, e: Event) {
    exists i :: 0 <= i < |buffer| && IsCounterpart(buffer[i].event, e)
  }

  predicate IsCounterpart(buffered: Event, e: Event) {
    buffered.key == e.key && buffered.pressed != e.pressed
  }

  predicate EndsTap(cfg: Config, s: State, candidate: Event) {
    !candidate.IsTick() && IsTappingRelease(s, candidate) && WithinTappingTerm(cfg, s, candidate)
  }

  /** Settle the tapping key as tapped by the buffered release at `i`. */
  function SettleAsTapped(s: State, i: nat): State
    requires i < |s.buffer|
  {
    var tapped := s.tapping.(count := 1);
    Emit(s.(tapping := tapped, buffer := s.buffer[i := s.buffer[i].(count := 1)]), tapped, FromTappingKey)
  }

  function ScanTapFrom(cfg: Config, s: State, i: nat): (s': State)
    ensures |s'.buffer| == |s.buffer| && Extends(s, s')
    decreases |s.buffer| - i
  {
    if i >= |s.buffer| then s
    else if EndsTap(cfg, s, s.buffer[i].event) then SettleAsTapped(s, i)
    else ScanTapFrom(cfg, s, i + 1)
  }

  function ScanTap(cfg: Config, s: State): (s': State)
    ensures |s'.buffer| == |s.buffer| && Extends(s, s')
  {
    if s.tapping.count > 0 || !s.tapping.event.pressed then s else ScanTapFrom(cfg, s, 0)
  }

  /** Result of `process_tapping`: `record` is what the caller's record has become. */
  datatype Outcome = Outcome(state: State, record: Record, consumed: bool)

  function ProcessReset(cfg: Config, s: State, r: Record): (o: Outcome)
    ensures |o.state.buffer| == |s.buffer| && Extends(s, o.state)
  {
    if r.event.IsTick() then Outcome(s, r, true)
    else if r.event.pressed && IsTap(cfg, s.world, r) then
      Outcome(ScanTap(cfg, s.(tapping := r)), r, true)
    else Outcome(Emit(s, r, FromEvent), r, true)
  }

  /** Tapping key pressed, not yet settled, within its term. */
  function ProcessUnsettled(cfg: Config, s: State, r: Record): (o: Outcome)
    ensures |o.state.buffer| == |s.buffer| && Extends(s, o.state)
  {
    if IsTappingRelease(s, r.event) then
      var tapped := s.tapping.(count := 1);
      Outcome(Emit(s.(tapping := tapped), tapped, FromTappingKey),
              r.(count := 1, interrupted := tapped.interrupted), false)
    else if !r.event.pressed && Typed(s.buffer, r.event) && cfg.permissiveHold(s.world, s.tapping) then
      Outcome(Emit(s, s.tapping, FromTappingKey).(tapping := NO_RECORD), r, false)
    else if !r.event.pressed && !Typed(s.buffer, r.event) then
      if HeldBack(cfg, s.world, r) then Outcome(s, r, false)
      else Outcome(Emit(s, r, FromEvent), r, true)
    else if r.event.pressed then
      var s1 := s.(tapping := s.tapping.(interrupted := true));
      if cfg.holdOnOtherKeyPress(s1.world, s1.tapping) then
        Outcome(Emit(s1, s1.tapping, FromTappingKey).(tapping := NO_RECORD), r, false)
      else Outcome(s1, r, false)
    else Outcome(s, r, false)
  }

  /** The record made up to let go of the settled tapping key at the time of `r`. */
  function ReleaseOfLast(s: State, r: Record): Record {
    Record(Event(s.tapping.event.key, r.event.time, s.tapping.event.kind, false),
           s.tapping.count, s.tapping.interrupted)
  }

  /** A multiple tap is released before another key takes its place. */
  function LetGoOfLast(s: State, r: Record): State {
    if s.tapping.count > 1 then Emit(s, ReleaseOfLast(s, r), SyntheticRelease) else s
  }

  /** A new tap-hold press replaces a settled tapping key. */
  function StartNewTap(cfg: Config, s: State, r: Record): (s': State)
    ensures |s'.buffer| == |s.buffer| && Extends(s, s')
  {
    ScanTap(cfg, LetGoOfLast(s, r).(tapping := r))
  }

  /** Tapping key pressed and settled as a tap. */
  function ProcessSettled(cfg: Config, s: State, r: Record): (o: Outcome)
    ensures |o.state.buffer| == |s.buffer| && Extends(s, o.state)
  {
    if IsTappingRelease(s, r.event) then
      var r1 := r.(count := s.tapping.count, interrupted := s.tapping.interrupted);
      var next := if WithinTappingTerm(cfg, s, r.event) then r1 else NO_RECORD;
      Outcome(Emit(s, r1, FromEvent).(tapping := next), r1, true)
    else if IsTap(cfg, s.world, r) && r.event.pressed then
      Outcome(StartNewTap(cfg, s, r), r, true)
    else Outcome(Emit(s, r, FromEvent), r, true)
  }

  /** Tapping key already released after a tap, within its term. */
  function ProcessReleased(cfg: Config, s: State, r: Record): (o: Outcome)
    ensures |o.state.buffer| == |s.buffer| && Extends(s, o.state)
  {
    if !r.event.pressed then Outcome(Emit(s, r, FromEvent), r, true)
    else if s.tapping.event.key == r.event.key then
      if WithinQuickTapTerm(cfg, s, r.event) && !s.tapping.interrupted && s.tapping.count > 0 then
        var r1 := r.(count := if s.tapping.count < 15 then s.tapping.count + 1 else s.tapping.count,
                     interrupted := s.tapping.interrupted);
        Outcome(Emit(s, r1, FromEvent).(tapping := r1), r1, true)
      else Outcome(s.(tapping := r), r, true)
    else if IsTap(cfg, s.world, r) then
      Outcome(ScanTap(cfg, s.(tapping := r)), r, true)
    else
      Outcome(Emit(s.(tapping := s.tapping.(interrupted := true)), r, FromEvent), r, true)
  }

  function ProcessTapping(cfg: Config, s: State, r: Record): (o: Outcome)
    ensures |o.state.buffer| == |s.buffer| && Extends(s, o.state)
  {
    if s.tapping.event.IsTick() then ProcessReset(cfg, s, r)
    else if WithinTappingTerm(cfg, s, r.event) then
      if r.event.IsTick() then Outcome(s, r, true)
      else if !s.tapping.event.pressed then ProcessReleased(cfg, s, r)
      else if s.tapping.count == 0 then ProcessUnsettled(cfg, s, r)
      else ProcessSettled(cfg, s, r)
    else if !s.tapping.event.pressed then Outcome(s.(tapping := NO_RECORD), r, false)
    else if s.tapping.count == 0 then
      Outcome(Emit(s, s.tapping, FromTappingKey).(tapping := NO_RECORD), r, false)
    else if r.event.IsTick() then Outcome(s, r, true)
    else ProcessSettled(cfg, s, r)
  }

  predicate IsFull(buffer: seq<Record>) {
    |buffer| >= WAITING_BUFFER_SIZE - 1
  }

  /** `waiting_buffer_enq` together with the "clear all" its failure triggers. */
  function Enqueue(s: State, r: Record): State {
    if r.event.IsTick() then s
    else if IsFull(s.buffer) then State(NO_RECORD, [], s.world.(log := s.world.log + [KeyboardCleared]))
    else s.(buffer := s.buffer + [r])
  }

  /** The `for` loop that retries the waiting records until one has to keep waiting. */
  function Drain(cfg: Config, s: State): (s': State)
    ensures Extends(s, s') && |s'.buffer| <= |s.buffer|
    decreases |s.buffer|
  {
    if s.buffer == [] then s
    else
      var o := ProcessTapping(cfg, s, s.buffer[0]);
      if o.consumed then Drain(cfg, o.state.(buffer := o.state.buffer[1..]))
      else o.state.(buffer := o.state.buffer[0 := o.record])
  }

  function Receive(s: State, e: Event): State {
    s.(world := s.world.(received := s.world.received + [e]))
  }

  /** The state just before the waiting records are retried. */
  function Accept(cfg: Config, s: State, e: Event): State {
    var o := ProcessTapping(cfg, Receive(s, e), Record(e, 0, false));
    if o.consumed then o.state else Enqueue(o.state, o.record)
  }

  /** `action_tapping_process` */
  function Step(cfg: Config, s: State, e: Event): State {
    Drain(cfg, Accept(cfg, s, e))
  }

  function Run(cfg: Config, es: seq<Event>): State {
    if es == [] then INITIAL else Step(cfg, Run(cfg, es[..|es| - 1]), es[|es| - 1])
  }
}
