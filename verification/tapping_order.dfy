/** What every run of the tap-hold machine keeps: its invariant, conservation of events, per-key order. */
module TappingOrder {
  import opened Events
  import opened Tapping

  // ---------------------------------------------------------------- the invariant

  ghost predicate BufferedOk(r: Record) {
    && !r.event.IsTick()
    && (r.event.pressed ==> r.count == 0)
  }

  ghost predicate Inv(s: State) {
    && |s.buffer| < WAITING_BUFFER_SIZE
    && (forall i :: 0 <= i < |s.buffer| ==> BufferedOk(s.buffer[i]))
    && (!s.tapping.event.IsTick() && !s.tapping.event.pressed ==> s.tapping.count >= 1)
  }

  ghost predicate SameEvents(a: seq<Record>, b: seq<Record>) {
    |a| == |b| && forall i :: 0 <= i < |a| ==> a[i].event == b[i].event
  }

  predicate IsUnsettled(tapping: Record) {
    !tapping.event.IsTick() && tapping.event.pressed && tapping.count == 0
  }

  // ---------------------------------------------------------------- where an event can be

  /** Events really handed to `process_record`, in order; made-up releases do not count. */
  ghost function Emitted(log: seq<Output>): seq<Event> {
    if log == [] then []
    else Emitted(log[..|log| - 1]) + EmittedBy(log[|log| - 1])
  }

  ghost function EmittedBy(x: Output): seq<Event> {
    if x.Processed? && x.source != SyntheticRelease then [x.record.event] else []
  }

  ghost function Unsettled(tapping: Record): seq<Event> {
    if IsUnsettled(tapping) then [tapping.event] else []
  }

  ghost function EventsOf(buffer: seq<Record>): seq<Event> {
    seq(|buffer|, i requires 0 <= i < |buffer| => buffer[i].event)
  }

  /** Everything that has arrived, in the order the machine now keeps it. */
  ghost function Flow(s: State): seq<Event> {
    Emitted(s.world.log) + Unsettled(s.tapping) + EventsOf(s.buffer)
  }

  lemma EmittedAppend(log: seq<Output>, x: Output)
    ensures Emitted(log + [x]) == Emitted(log) + EmittedBy(x)
  {
    assert (log + [x])[..|log + [x]| - 1] == log;
  }

  lemma EventsOfSame(a: seq<Record>, b: seq<Record>)
    requires SameEvents(a, b)
    ensures EventsOf(a) == EventsOf(b)
  {
  }

  // ---------------------------------------------------------------- one call of process_tapping

  /** No event is taken in: nothing moves, or the unsettled tapping key is handed over. */
  ghost predicate StaysOrSettles(s: State, s': State) {
    || (Emitted(s'.world.log) == Emitted(s.world.log) && Unsettled(s'.tapping) == Unsettled(s.tapping))
    || (Emitted(s'.world.log) == Emitted(s.world.log) + Unsettled(s.tapping) && Unsettled(s'.tapping) == [])
  }

  /** Event `e` is taken in: handed over directly, or it becomes the unsettled tapping key. */
  ghost predicate TakesIn(s: State, s': State, e: Event) {
    || (Emitted(s'.world.log) == Emitted(s.world.log) + [e] && Unsettled(s'.tapping) == Unsettled(s.tapping))
    || (Unsettled(s.tapping) == [] && Emitted(s'.world.log) == Emitted(s.world.log) && Unsettled(s'.tapping) == [e])
  }

  /** Scanning settles at most the tapping key and marks at most one buffered release. */
  lemma {:induction false} ScanTapFromEffect(cfg: Config, s: State, i: nat)
    requires IsUnsettled(s.tapping)
    requires forall j :: 0 <= j < |s.buffer| ==> BufferedOk(s.buffer[j])
    ensures var s' := ScanTapFrom(cfg, s, i);
      && SameEvents(s'.buffer, s.buffer)
      && (forall j :: 0 <= j < |s.buffer| ==> BufferedOk(s'.buffer[j]))
      && s'.tapping.event == s.tapping.event
      && StaysOrSettles(s, s')
    decreases |s.buffer| - i
  {
    if i < |s.buffer| {
      if EndsTap(cfg, s, s.buffer[i].event) {
        EmittedAppend(s.world.log, Processed(s.tapping.(count := 1), FromTappingKey));
      } else {
        ScanTapFromEffect(cfg, s, i + 1);
      }
    }
  }

  /** What a call of `process_tapping` does to the events in the machine. */
  ghost predicate Moves(s: State, r: Record, o: Outcome) {
    && SameEvents(o.state.buffer, s.buffer)
    && (forall j :: 0 <= j < |s.buffer| ==> BufferedOk(o.state.buffer[j]))
    && (!o.state.tapping.event.IsTick() && !o.state.tapping.event.pressed ==> o.state.tapping.count >= 1)
    && o.record.event == r.event
    && (o.record.event.pressed && !o.consumed ==> o.record.count == r.count)
    && (if o.consumed && !r.event.IsTick() then TakesIn(s, o.state, r.event) else StaysOrSettles(s, o.state))
  }

  /** Consumed ahead of an unsettled tapping key: only a release of another key, with no press of it waiting. */
  ghost predicate OvertakesTapping(s: State, r: Record) {
    !r.event.pressed && r.event.key != s.tapping.event.key && !Typed(s.buffer, r.event)
  }

  ghost predicate ReadyFor(s: State, r: Record) {
    && (forall i :: 0 <= i < |s.buffer| ==> BufferedOk(s.buffer[i]))
    && (!s.tapping.event.IsTick() && !s.tapping.event.pressed ==> s.tapping.count >= 1)
    && (r.event.pressed ==> r.count == 0)
  }

  lemma ResetMoves(cfg: Config, s: State, r: Record)
    requires ReadyFor(s, r) && s.tapping.event.IsTick()
    ensures Moves(s, r, ProcessReset(cfg, s, r))
  {
    if !r.event.IsTick() {
      if r.event.pressed && IsTap(cfg, s.world, r) {
        ScanTapFromEffect(cfg, s.(tapping := r), 0);
      } else {
        EmittedAppend(s.world.log, Processed(r, FromEvent));
      }
    }
  }

  /** Handing over the tapping key moves it from the unsettled place to the end of the log. */
  lemma SettlingMoves(s: State, settled: Record, next: Record)
    requires IsUnsettled(s.tapping) && settled.event == s.tapping.event && !IsUnsettled(next)
    ensures StaysOrSettles(s, Emit(s, settled, FromTappingKey).(tapping := next))
  {
    EmittedAppend(s.world.log, Processed(settled, FromTappingKey));
  }

  lemma UnsettledMoves(cfg: Config, s: State, r: Record)
    requires ReadyFor(s, r) && IsUnsettled(s.tapping) && !r.event.IsTick()
    ensures Moves(s, r, ProcessUnsettled(cfg, s, r))
    ensures ProcessUnsettled(cfg, s, r).consumed <==> OvertakesTapping(s, r) && !HeldBack(cfg, s.world, r)
  {
    if IsTappingRelease(s, r.event) {
      SettlingMoves(s, s.tapping.(count := 1), s.tapping.(count := 1));
    } else if r.event.pressed {
      SettlingMoves(s, s.tapping.(interrupted := true), NO_RECORD);
    } else if Typed(s.buffer, r.event) {
      SettlingMoves(s, s.tapping, NO_RECORD);
    } else {
      EmittedAppend(s.world.log, Processed(r, FromEvent));
    }
  }

  lemma StartNewTapMoves(cfg: Config, s: State, r: Record)
    requires ReadyFor(s, r) && s.tapping.count > 0 && !r.event.IsTick() && r.event.pressed
    ensures Moves(s, r, Outcome(StartNewTap(cfg, s, r), r, true))
  {
    EmittedAppend(s.world.log, Processed(ReleaseOfLast(s, r), SyntheticRelease));
    ScanTapFromEffect(cfg, LetGoOfLast(s, r).(tapping := r), 0);
  }

  lemma SettledMoves(cfg: Config, s: State, r: Record)
    requires ReadyFor(s, r) && s.tapping.event.pressed && s.tapping.count > 0 && !r.event.IsTick()
    ensures Moves(s, r, ProcessSettled(cfg, s, r))
  {
    if IsTappingRelease(s, r.event) {
      var r1 := r.(count := s.tapping.count, interrupted := s.tapping.interrupted);
      EmittedAppend(s.world.log, Processed(r1, FromEvent));
    } else if IsTap(cfg, s.world, r) && r.event.pressed {
      StartNewTapMoves(cfg, s, r);
    } else {
      EmittedAppend(s.world.log, Processed(r, FromEvent));
    }
  }

  lemma ReleasedMoves(cfg: Config, s: State, r: Record)
    requires ReadyFor(s, r) && !s.tapping.event.IsTick() && !s.tapping.event.pressed && !r.event.IsTick()
    ensures Moves(s, r, ProcessReleased(cfg, s, r))
  {
    assert Unsettled(s.tapping) == [];
    if !r.event.pressed {
      EmittedAppend(s.world.log, Processed(r, FromEvent));
    } else if s.tapping.event.key == r.event.key {
      if WithinQuickTapTerm(cfg, s, r.event) && !s.tapping.interrupted && s.tapping.count > 0 {
        var r1 := r.(count := if s.tapping.count < 15 then s.tapping.count + 1 else s.tapping.count,
                     interrupted := s.tapping.interrupted);
        EmittedAppend(s.world.log, Processed(r1, FromEvent));
      }
    } else if IsTap(cfg, s.world, r) {
      ScanTapFromEffect(cfg, s.(tapping := r), 0);
    } else {
      EmittedAppend(s.world.log, Processed(r, FromEvent));
    }
  }

  lemma ProcessTappingMoves(cfg: Config, s: State, r: Record)
    requires ReadyFor(s, r)
    ensures Moves(s, r, ProcessTapping(cfg, s, r))
    ensures IsUnsettled(s.tapping) && !r.event.IsTick() ==>
      (ProcessTapping(cfg, s, r).consumed <==>
         WithinTappingTerm(cfg, s, r.event) && OvertakesTapping(s, r) && !HeldBack(cfg, s.world, r))
  {
    if s.tapping.event.IsTick() {
      ResetMoves(cfg, s, r);
    } else if WithinTappingTerm(cfg, s, r.event) {
      if r.event.IsTick() {
      } else if !s.tapping.event.pressed {
        ReleasedMoves(cfg, s, r);
      } else if s.tapping.count == 0 {
        UnsettledMoves(cfg, s, r);
      } else {
        SettledMoves(cfg, s, r);
      }
    } else if s.tapping.event.pressed && s.tapping.count == 0 {
      EmittedAppend(s.world.log, Processed(s.tapping, FromTappingKey));
    } else if s.tapping.event.pressed && !r.event.IsTick() {
      SettledMoves(cfg, s, r);
    }
  }

  // ---------------------------------------------------------------- retrying the waiting records

  ghost predicate SameFlow(s: State, s': State) {
    && multiset(Flow(s')) == multiset(Flow(s))
    && forall k :: Project(k, Flow(s')) == Project(k, Flow(s))
  }

  /** One round of the retry loop. */
  function Retry(cfg: Config, s: State): State
    requires s.buffer != []
  {
    var o := ProcessTapping(cfg, s, s.buffer[0]);
    o.state.(buffer := if o.consumed then o.state.buffer[1..] else o.state.buffer[0 := o.record])
  }

  lemma ProjectParts(k: Key, a: seq<Event>, b: seq<Event>, c: seq<Event>, d: seq<Event>)
    ensures Project(k, a + b + c + d) == Project(k, a) + (Project(k, b) + Project(k, c)) + Project(k, d)
  {
    ProjectConcat(k, a + b + c, d);
    ProjectConcat(k, a + b, c);
    ProjectConcat(k, a, b);
  }

  /** Two neighbours of different keys may change places: no key notices. */
  lemma SwapNeighbours(k: Key, a: seq<Event>, u: seq<Event>, e: Event, b: seq<Event>)
    requires u == [] || (|u| == 1 && u[0].key != e.key)
    ensures Project(k, a + [e] + u + b) == Project(k, a + u + [e] + b)
  {
    ProjectParts(k, a, [e], u, b);
    ProjectParts(k, a, u, [e], b);
    assert Project(k, u) == [] || Project(k, [e]) == [];
  }

  lemma SwapKeepsFlow(s: State, s': State, a: seq<Event>, u: seq<Event>, e: Event, b: seq<Event>)
    requires u == [] || (|u| == 1 && u[0].key != e.key)
    requires Flow(s) == a + u + [e] + b
    requires Flow(s') == a + [e] + u + b
    ensures SameFlow(s, s')
  {
    forall k ensures Project(k, Flow(s')) == Project(k, Flow(s)) {
      SwapNeighbours(k, a, u, e, b);
    }
  }

  /** The flow after a record of the buffer was taken in, or not, in terms of the flow before. */
  lemma FlowAfterTakingIn(s: State, s': State, e: Event)
    requires TakesIn(s, s', e)
    ensures Flow(s') == Emitted(s.world.log) + [e] + Unsettled(s.tapping) + EventsOf(s'.buffer)
  {
    if Unsettled(s.tapping) == [] && Unsettled(s'.tapping) == [e] {
      assert Emitted(s.world.log) + [e] + [] == Emitted(s.world.log) + [e];
    }
  }

  lemma FlowAfterStaying(s: State, s': State)
    requires StaysOrSettles(s, s')
    ensures Flow(s') == Emitted(s.world.log) + Unsettled(s.tapping) + EventsOf(s'.buffer)
  {
  }

  lemma RetryInv(cfg: Config, s: State)
    requires Inv(s) && s.buffer != []
    ensures Inv(Retry(cfg, s))
  {
    ProcessTappingMoves(cfg, s, s.buffer[0]);
  }

  lemma FlowSplitsHead(s: State)
    requires s.buffer != []
    ensures Flow(s) == Emitted(s.world.log) + Unsettled(s.tapping) + [s.buffer[0].event] + EventsOf(s.buffer[1..])
  {
    assert EventsOf(s.buffer) == [s.buffer[0].event] + EventsOf(s.buffer[1..]);
  }

  lemma HeadTakenIn(s: State, s': State)
    requires s.buffer != [] && TakesIn(s, s', s.buffer[0].event)
    requires SameEvents(s'.buffer, s.buffer[1..])
    requires IsUnsettled(s.tapping) ==> s.tapping.event.key != s.buffer[0].event.key
    ensures SameFlow(s, s')
  {
    FlowSplitsHead(s);
    EventsOfSame(s'.buffer, s.buffer[1..]);
    FlowAfterTakingIn(s, s', s.buffer[0].event);
    SwapKeepsFlow(s, s', Emitted(s.world.log), Unsettled(s.tapping), s.buffer[0].event, EventsOf(s.buffer[1..]));
  }

  lemma NothingTakenIn(s: State, s': State)
    requires StaysOrSettles(s, s') && SameEvents(s'.buffer, s.buffer)
    ensures SameFlow(s, s')
  {
    EventsOfSame(s'.buffer, s.buffer);
    FlowAfterStaying(s, s');
  }

  lemma RetryKeeps(cfg: Config, s: State)
    requires Inv(s) && s.buffer != []
    ensures SameFlow(s, Retry(cfg, s))
  {
    ProcessTappingMoves(cfg, s, s.buffer[0]);
    var o := ProcessTapping(cfg, s, s.buffer[0]);
    var s' := Retry(cfg, s);
    if o.consumed {
      HeadTakenIn(s, s');
    } else {
      NothingTakenIn(s, s');
    }
  }

  lemma {:induction false} DrainKeeps(cfg: Config, s: State)
    requires Inv(s)
    ensures Inv(Drain(cfg, s))
    ensures SameFlow(s, Drain(cfg, s))
    decreases |s.buffer|
  {
    if s.buffer != [] {
      RetryInv(cfg, s);
      RetryKeeps(cfg, s);
      if ProcessTapping(cfg, s, s.buffer[0]).consumed {
        DrainKeeps(cfg, Retry(cfg, s));
      }
    }
  }

  // ---------------------------------------------------------------- taking in one event

  predicate Overflows(cfg: Config, s: State, e: Event) {
    var o := ProcessTapping(cfg, Receive(s, e), Record(e, 0, false));
    !o.consumed && !e.IsTick() && IsFull(o.state.buffer)
  }

  /** The guard a caller can check: does event `e` now take its place behind the waiting events of its key? */
  predicate SafeArrival(cfg: Config, s: State, e: Event) {
    || e.IsTick()
    || (forall i :: 0 <= i < |s.buffer| ==> s.buffer[i].event.key != e.key)
    || IsUnsettled(s.tapping)
    || (!s.tapping.event.IsTick() && !s.tapping.event.pressed && !WithinTappingTerm(cfg, Receive(s, e), e))
  }

  lemma AcceptInv(cfg: Config, s: State, e: Event)
    requires Inv(s)
    ensures Inv(Accept(cfg, s, e))
    ensures Accept(cfg, s, e).world.received == s.world.received + [e]
    ensures s.world.log <= Accept(cfg, s, e).world.log
    ensures Overflows(cfg, s, e) ==> KeyboardCleared in Accept(cfg, s, e).world.log
  {
    ProcessTappingMoves(cfg, Receive(s, e), Record(e, 0, false));
  }

  lemma AcceptTick(cfg: Config, s: State, e: Event)
    requires Inv(s) && e.IsTick()
    ensures SameFlow(s, Accept(cfg, s, e))
  {
    ProcessTappingMoves(cfg, Receive(s, e), Record(e, 0, false));
    NothingTakenIn(s, Accept(cfg, s, e));
  }

  lemma AcceptConsumed(cfg: Config, s: State, e: Event)
    requires Inv(s) && !e.IsTick()
    requires ProcessTapping(cfg, Receive(s, e), Record(e, 0, false)).consumed
    ensures Flow(Accept(cfg, s, e)) == Emitted(s.world.log) + [e] + Unsettled(s.tapping) + EventsOf(s.buffer)
    ensures IsUnsettled(s.tapping) ==> OvertakesTapping(s, Record(e, 0, false))
  {
    ProcessTappingMoves(cfg, Receive(s, e), Record(e, 0, false));
    var s' := Accept(cfg, s, e);
    FlowAfterTakingIn(s, s', e);
    EventsOfSame(s'.buffer, s.buffer);
  }

  lemma AcceptQueued(cfg: Config, s: State, e: Event)
    requires Inv(s) && !e.IsTick() && !Overflows(cfg, s, e)
    requires !ProcessTapping(cfg, Receive(s, e), Record(e, 0, false)).consumed
    ensures Flow(Accept(cfg, s, e)) == Flow(s) + [e]
  {
    ProcessTappingMoves(cfg, Receive(s, e), Record(e, 0, false));
    var s' := Accept(cfg, s, e);
    FlowAfterStaying(s, s');
    var o := ProcessTapping(cfg, Receive(s, e), Record(e, 0, false));
    EventsOfQueued(o.state.buffer, s.buffer, o.record);
  }

  lemma EventsOfQueued(a: seq<Record>, b: seq<Record>, r: Record)
    requires SameEvents(a, b)
    ensures EventsOf(a + [r]) == EventsOf(b) + [r.event]
  {
  }

  // ---------------------------------------------------------------- conservation on every run

  lemma StepInv(cfg: Config, s: State, e: Event)
    requires Inv(s)
    ensures Inv(Step(cfg, s, e))
    ensures Step(cfg, s, e).world.received == s.world.received + [e]
    ensures s.world.log <= Step(cfg, s, e).world.log
    ensures KeyboardCleared !in Step(cfg, s, e).world.log ==> !Overflows(cfg, s, e)
  {
    AcceptInv(cfg, s, e);
    DrainKeeps(cfg, Accept(cfg, s, e));
  }

  lemma AcceptConserves(cfg: Config, s: State, e: Event)
    requires Inv(s) && !Overflows(cfg, s, e)
    ensures multiset(Flow(Accept(cfg, s, e))) == multiset(Flow(s)) + multiset(NonTick([e]))
  {
    assert NonTick([e]) == if e.IsTick() then [] else [e];
    if e.IsTick() {
      AcceptTick(cfg, s, e);
    } else if ProcessTapping(cfg, Receive(s, e), Record(e, 0, false)).consumed {
      AcceptConsumed(cfg, s, e);
    } else {
      AcceptQueued(cfg, s, e);
    }
  }

  /** Every reachable state meets the invariant; in particular a released tapping key has been tapped. */
  lemma {:induction false} RunInv(cfg: Config, es: seq<Event>)
    ensures Inv(Run(cfg, es))
    ensures Run(cfg, es).world.received == es
  {
    if es != [] {
      var es', e := es[..|es| - 1], es[|es| - 1];
      assert es == es' + [e];
      RunInv(cfg, es');
      StepInv(cfg, Run(cfg, es'), e);
    }
  }

  /** Without an overflow every event received is handed over, pending or waiting, exactly once. */
  lemma {:induction false} RunConserves(cfg: Config, es: seq<Event>)
    requires KeyboardCleared !in Run(cfg, es).world.log
    ensures multiset(Flow(Run(cfg, es))) == multiset(NonTick(es))
  {
    if es != [] {
      var es', e := es[..|es| - 1], es[|es| - 1];
      var s := Run(cfg, es');
      assert es == es' + [e];
      RunInv(cfg, es');
      StepInv(cfg, s, e);
      RunConserves(cfg, es');
      AcceptConserves(cfg, s, e);
      AcceptInv(cfg, s, e);
      DrainKeeps(cfg, Accept(cfg, s, e));
      NonTickConcat(es', [e]);
    }
  }

  // ---------------------------------------------------------------- the order of each key's events

  ghost predicate Ordered(s: State) {
    forall k :: Project(k, Flow(s)) == Project(k, NonTick(s.world.received))
  }

  ghost predicate KeyWaits(s: State, k: Key) {
    exists i :: 0 <= i < |s.buffer| && s.buffer[i].event.key == k
  }

  lemma KeyWaitsProjects(s: State, k: Key)
    ensures KeyWaits(s, k) <==> Project(k, EventsOf(s.buffer)) != []
  {
    var b := EventsOf(s.buffer);
    ProjectMembers(k, b);
    if KeyWaits(s, k) {
      var i :| 0 <= i < |s.buffer| && s.buffer[i].event.key == k;
      assert b[i] in b;
    }
    if Project(k, b) != [] {
      assert Project(k, b)[0] in b;
    }
  }

  lemma LastTakesTurn(before: seq<Event>, p: seq<Event>, e: Event)
    requires p != [] && Alternates(before + p + [e])
    ensures p[|p| - 1].pressed != e.pressed
  {
    var all := before + p + [e];
    assert all[|all| - 2] == p[|p| - 1] && all[|all| - 1] == e;
  }

  lemma ProjectedWaits(s: State, x: Event, k: Key)
    requires x in Project(k, EventsOf(s.buffer))
    ensures exists i :: 0 <= i < |s.buffer| && s.buffer[i].event == x && x.key == k
  {
    ProjectMembers(k, EventsOf(s.buffer));
    var i :| 0 <= i < |s.buffer| && EventsOf(s.buffer)[i] == x;
    assert s.buffer[i].event == x;
  }

  /** With turns taken and keys in order, a release that finds events of its key waiting finds a press. */
  lemma WaitingKeyWasPressed(s: State, e: Event)
    requires Ordered(s) && !e.IsTick() && !e.pressed
    requires AlternatesPerKey(s.world.received + [e])
    requires KeyWaits(s, e.key)
    ensures Typed(s.buffer, e)
  {
    var before := Emitted(s.world.log) + Unsettled(s.tapping);
    var p := Project(e.key, EventsOf(s.buffer));
    KeyWaitsProjects(s, e.key);
    ProjectConcat(e.key, before, EventsOf(s.buffer));
    ReceivedProjects(s, e, e.key);
    LastTakesTurn(Project(e.key, before), p, e);
    ProjectedWaits(s, p[|p| - 1], e.key);
    var i :| 0 <= i < |s.buffer| && s.buffer[i].event == p[|p| - 1] && s.buffer[i].event.key == e.key;
    assert IsCounterpart(s.buffer[i].event, e);
  }

  /** A sequence that takes turns is not its own rotation. */
  lemma TurnsAreNotRotated(p: seq<Event>, e: Event)
    requires p != [] && Alternates(p + [e])
    ensures [e] + p != p + [e]
  {
    var a, b := [e] + p, p + [e];
    assert b[1].pressed != b[0].pressed;
    if p[0] == e {
      assert a[1] == b[0];
    } else {
      assert a[0] != b[0];
    }
  }

  lemma ReceivedProjects(s: State, e: Event, k: Key)
    requires !e.IsTick()
    ensures Project(k, NonTick(s.world.received + [e])) ==
            Project(k, NonTick(s.world.received)) + (if k == e.key then [e] else [])
  {
    NonTickConcat(s.world.received, [e]);
    ProjectConcat(k, NonTick(s.world.received), NonTick([e]));
  }

  /** Queued behind everything else: the order cannot suffer. */
  lemma QueuedKeepsOrder(cfg: Config, s: State, e: Event)
    requires Inv(s) && Ordered(s) && !e.IsTick() && !Overflows(cfg, s, e)
    requires !ProcessTapping(cfg, Receive(s, e), Record(e, 0, false)).consumed
    ensures Ordered(Accept(cfg, s, e))
  {
    var s' := Accept(cfg, s, e);
    AcceptQueued(cfg, s, e);
    AcceptInv(cfg, s, e);
    forall k ensures Project(k, Flow(s')) == Project(k, NonTick(s'.world.received)) {
      ReceivedProjects(s, e, k);
      ProjectConcat(k, Flow(s), [e]);
    }
  }

  lemma ProjectInserted(k: Key, a: seq<Event>, e: Event, u: seq<Event>, b: seq<Event>)
    requires u == [] || (|u| == 1 && u[0].key != e.key)
    requires Project(e.key, b) == []
    ensures Project(k, a + [e] + u + b) == Project(k, a + u + b) + (if k == e.key then [e] else [])
  {
    ProjectParts(k, a, [e], u, b);
    ProjectConcat(k, a + u, b);
    ProjectConcat(k, a, u);
  }

  /** The event goes ahead of the waiting ones, none of which has its key. */
  lemma ConsumedKeepsOrder(cfg: Config, s: State, e: Event)
    requires Inv(s) && Ordered(s) && !e.IsTick()
    requires ProcessTapping(cfg, Receive(s, e), Record(e, 0, false)).consumed
    requires !KeyWaits(s, e.key)
    ensures Ordered(Accept(cfg, s, e))
  {
    var s' := Accept(cfg, s, e);
    AcceptConsumed(cfg, s, e);
    AcceptInv(cfg, s, e);
    var a, u, b := Emitted(s.world.log), Unsettled(s.tapping), EventsOf(s.buffer);
    KeyWaitsProjects(s, e.key);
    forall k ensures Project(k, Flow(s')) == Project(k, NonTick(s'.world.received)) {
      ReceivedProjects(s, e, k);
      ProjectInserted(k, a, e, u, b);
    }
  }

  /** The event goes ahead of an event of its own key: that key's order is lost. */
  lemma ConsumedBreaksOrder(cfg: Config, s: State, e: Event)
    requires Inv(s) && Ordered(s) && !e.IsTick() && AlternatesPerKey(s.world.received + [e])
    requires ProcessTapping(cfg, Receive(s, e), Record(e, 0, false)).consumed
    requires KeyWaits(s, e.key) && !IsUnsettled(s.tapping)
    ensures !Ordered(Accept(cfg, s, e))
  {
    var s' := Accept(cfg, s, e);
    var k := e.key;
    AcceptConsumed(cfg, s, e);
    AcceptInv(cfg, s, e);
    var a, b := Emitted(s.world.log), EventsOf(s.buffer);
    assert Flow(s) == a + b && Flow(s') == a + [e] + b by {
      assert Unsettled(s.tapping) == [];
      assert a + [] == a && a + [e] + [] == a + [e];
    }
    KeyWaitsProjects(s, k);
    ReceivedProjects(s, e, k);
    OvertakingShows(a, b, e);
  }

  lemma OvertakingShows(a: seq<Event>, b: seq<Event>, e: Event)
    requires Project(e.key, b) != [] && Alternates(Project(e.key, a + b) + [e])
    ensures Project(e.key, a + [e] + b) != Project(e.key, a + b) + [e]
  {
    var k := e.key;
    ProjectConcat(k, a, b);
    ProjectConcat(k, a + [e], b);
    ProjectConcat(k, a, [e]);
    RotationShows(Project(k, a), Project(k, b), e);
  }

  lemma RotationShows(pa: seq<Event>, pb: seq<Event>, e: Event)
    requires pb != [] && Alternates(pa + pb + [e])
    ensures pa + [e] + pb != pa + pb + [e]
  {
    assert pa + pb + [e] == pa + (pb + [e]);
    SuffixAlternates(pa, pb + [e]);
    TurnsAreNotRotated(pb, e);
    assert (pa + [e] + pb)[|pa|..] == [e] + pb;
    assert (pa + pb + [e])[|pa|..] == pb + [e];
  }

  lemma SuffixAlternates(a: seq<Event>, b: seq<Event>)
    requires Alternates(a + b)
    ensures Alternates(b)
  {
    forall i | 0 < i < |b| ensures b[i].pressed != b[i - 1].pressed {
      assert (a + b)[|a| + i].pressed != (a + b)[|a| + i - 1].pressed;
    }
  }

  /** An unsafe arrival is exactly one that is consumed past a waiting event of its key. */
  lemma UnsafeIsConsumed(cfg: Config, s: State, e: Event)
    requires Inv(s) && !e.IsTick() && !SafeArrival(cfg, s, e)
    ensures ProcessTapping(cfg, Receive(s, e), Record(e, 0, false)).consumed
  {
  }

  lemma AcceptOrderIff(cfg: Config, s: State, e: Event)
    requires Inv(s) && Ordered(s) && !Overflows(cfg, s, e) && AlternatesPerKey(s.world.received + [e])
    ensures Ordered(Accept(cfg, s, e)) <==> SafeArrival(cfg, s, e)
  {
    if e.IsTick() {
      AcceptTick(cfg, s, e);
      AcceptInv(cfg, s, e);
      assert NonTick(s.world.received + [e]) == NonTick(s.world.received) by {
        NonTickConcat(s.world.received, [e]);
      }
    } else if !SafeArrival(cfg, s, e) {
      UnsafeIsConsumed(cfg, s, e);
      ConsumedBreaksOrder(cfg, s, e);
    } else if !ProcessTapping(cfg, Receive(s, e), Record(e, 0, false)).consumed {
      QueuedKeepsOrder(cfg, s, e);
    } else {
      SafeConsumedKeyDoesNotWait(cfg, s, e);
      ConsumedKeepsOrder(cfg, s, e);
    }
  }

  lemma SafeConsumedKeyDoesNotWait(cfg: Config, s: State, e: Event)
    requires Inv(s) && Ordered(s) && AlternatesPerKey(s.world.received + [e])
    requires !e.IsTick() && SafeArrival(cfg, s, e)
    requires ProcessTapping(cfg, Receive(s, e), Record(e, 0, false)).consumed
    ensures !KeyWaits(s, e.key)
  {
    if IsUnsettled(s.tapping) {
      AcceptConsumed(cfg, s, e);
      if KeyWaits(s, e.key) {
        WaitingKeyWasPressed(s, e);
      }
    }
  }

  /**
   The next event keeps every key's events in order if and only if it arrives safely.
   The retry loop that follows never changes any key's order.
   */
  lemma StepOrderIff(cfg: Config, s: State, e: Event)
    requires Inv(s) && Ordered(s) && !Overflows(cfg, s, e) && AlternatesPerKey(s.world.received + [e])
    ensures Ordered(Step(cfg, s, e)) <==> SafeArrival(cfg, s, e)
  {
    AcceptOrderIff(cfg, s, e);
    AcceptInv(cfg, s, e);
    DrainKeeps(cfg, Accept(cfg, s, e));
  }

  /** Every arrival of the run was safe. */
  ghost predicate SafeThroughout(cfg: Config, es: seq<Event>) {
    es == [] ||
    (SafeThroughout(cfg, es[..|es| - 1]) && SafeArrival(cfg, Run(cfg, es[..|es| - 1]), es[|es| - 1]))
  }

  /** Every key was in order after each event of the run. */
  ghost predicate OrderedThroughout(cfg: Config, es: seq<Event>) {
    Ordered(Run(cfg, es)) && (es == [] || OrderedThroughout(cfg, es[..|es| - 1]))
  }

  /** Over a whole run: every key stays in order throughout exactly when every arrival is safe. */
  lemma {:induction false} RunOrderIff(cfg: Config, es: seq<Event>)
    requires AlternatesPerKey(es)
    requires KeyboardCleared !in Run(cfg, es).world.log
    ensures OrderedThroughout(cfg, es) <==> SafeThroughout(cfg, es)
  {
    if es != [] {
      var es', e := es[..|es| - 1], es[|es| - 1];
      var s := Run(cfg, es');
      assert es == es' + [e];
      AlternatesPrefix(es, |es| - 1);
      RunInv(cfg, es');
      StepInv(cfg, s, e);
      RunOrderIff(cfg, es');
      if Ordered(s) {
        StepOrderIff(cfg, s, e);
      }
    }
  }

  /** Made-up releases aside, what is handed over of a key is a prefix of what its switch did. */
  lemma OrderedPrefix(cfg: Config, es: seq<Event>, k: Key)
    requires AlternatesPerKey(es)
    requires KeyboardCleared !in Run(cfg, es).world.log
    requires SafeThroughout(cfg, es)
    ensures Project(k, Emitted(Run(cfg, es).world.log)) <= Project(k, NonTick(es))
  {
    RunOrderIff(cfg, es);
    RunInv(cfg, es);
    var s := Run(cfg, es);
    assert Ordered(s);
    ProjectConcat(k, Emitted(s.world.log) + Unsettled(s.tapping), EventsOf(s.buffer));
    ProjectConcat(k, Emitted(s.world.log), Unsettled(s.tapping));
  }
}
