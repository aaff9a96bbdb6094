/**
 The tap-hold engine as the firmware runs it: one tapping key, a ring of eight records with
 a head and a tail, all updated in place. Each method refines the function of the same name.
 */
module TappingEngine {
  import opened Events
  import opened Tapping

  /** The slot after `i`, as the code computes it. */
  function Next(i: nat): (j: nat)
    requires i < WAITING_BUFFER_SIZE
    ensures j == if i == WAITING_BUFFER_SIZE - 1 then 0 else i + 1
  {
    (i + 1) % WAITING_BUFFER_SIZE
  }

  /** The slot `n` places after `tail`. */
  function Slot(tail: nat, n: nat): (i: nat)
    requires tail < WAITING_BUFFER_SIZE && n < WAITING_BUFFER_SIZE
    ensures i < WAITING_BUFFER_SIZE
  {
    if tail + n < WAITING_BUFFER_SIZE then tail + n else tail + n - WAITING_BUFFER_SIZE
  }

  /** `n` records of the ring, from slot `tail` on, wrapping around. */
  function Ring(slots: seq<Record>, tail: nat, n: nat): (b: seq<Record>)
    requires |slots| == WAITING_BUFFER_SIZE && tail < WAITING_BUFFER_SIZE && n <= WAITING_BUFFER_SIZE
    ensures |b| == n
  {
    seq(n, i requires 0 <= i < n => slots[Slot(tail, i)])
  }

  lemma RingUpdate(slots: seq<Record>, tail: nat, n: nat, i: nat, r: Record)
    requires |slots| == WAITING_BUFFER_SIZE && tail < WAITING_BUFFER_SIZE && i < n < WAITING_BUFFER_SIZE
    ensures Ring(slots[Slot(tail, i) := r], tail, n) == Ring(slots, tail, n)[i := r]
  {
  }

  lemma RingPush(slots: seq<Record>, tail: nat, n: nat, r: Record)
    requires |slots| == WAITING_BUFFER_SIZE && tail < WAITING_BUFFER_SIZE && n < WAITING_BUFFER_SIZE
    ensures Ring(slots[Slot(tail, n) := r], tail, n + 1) == Ring(slots, tail, n) + [r]
  {
  }

  lemma RingPop(slots: seq<Record>, tail: nat, n: nat)
    requires |slots| == WAITING_BUFFER_SIZE && tail < WAITING_BUFFER_SIZE && 0 < n < WAITING_BUFFER_SIZE
    ensures Ring(slots, Next(tail), n - 1) == Ring(slots, tail, n)[1..]
  {
  }

  class Engine {
    const cfg: Config
    const waitingBuffer: array<Record>
    var tappingKey: Record
    var head: nat
    var tail: nat
    var world: World

    ghost predicate Valid()
      reads `head, `tail
    {
      waitingBuffer.Length == WAITING_BUFFER_SIZE && head < WAITING_BUFFER_SIZE && tail < WAITING_BUFFER_SIZE
    }

    ghost function Waiting(): (n: nat)
      requires Valid()
      reads `head, `tail
    {
      if head >= tail then head - tail else head + WAITING_BUFFER_SIZE - tail
    }

    /** The records from tail to head, oldest first. */
    ghost function Buffer(): (b: seq<Record>)
      requires Valid()
      reads `head, `tail, waitingBuffer
      ensures |b| == Waiting()
    {
      Ring(waitingBuffer[..], tail, Waiting())
    }

    ghost function Abs(): State
      requires Valid()
      reads this, waitingBuffer
    {
      State(tappingKey, Buffer(), world)
    }

    constructor (cfg: Config)
      ensures Valid() && Abs() == INITIAL && this.cfg == cfg && fresh(waitingBuffer)
    {
      this.cfg := cfg;
      waitingBuffer := new Record[WAITING_BUFFER_SIZE](_ => NO_RECORD);
      tappingKey := NO_RECORD;
      head, tail := 0, 0;
      world := World([], []);
    }

    predicate WithinTerm(e: Event)
      reads `tappingKey, `world
    {
      Diff16(e.time, tappingKey.event.time) < cfg.tappingTerm(world, tappingKey)
    }

    predicate WithinQuickTerm(e: Event)
      reads `tappingKey, `world
    {
      Diff16(e.time, tappingKey.event.time) < cfg.quickTapTerm(world, tappingKey)
    }

    predicate IsReleaseOfTappingKey(e: Event)
      reads `tappingKey
    {
      tappingKey.event.key == e.key && !e.pressed
    }

    method ProcessRecord(r: Record, source: Source)
      requires Valid()
      modifies `world
      ensures Abs() == Emit(old(Abs()), r, source)
    {
      world := world.(log := world.log + [Processed(r, source)]);
    }

    method WaitingBufferEnq(r: Record) returns (ok: bool)
      requires Valid()
      modifies `head, waitingBuffer
      ensures Valid()
      ensures ok <==> r.event.IsTick() || !IsFull(old(Buffer()))
      ensures Buffer() == if ok && !r.event.IsTick() then old(Buffer()) + [r] else old(Buffer())
    {
      if r.event.IsTick() {
        return true;
      }
      if Next(head) == tail {
        return false;
      }
      RingPush(waitingBuffer[..], tail, Waiting(), r);
      ghost var slots := waitingBuffer[..];
      waitingBuffer[head] := r;
      assert waitingBuffer[..] == slots[head := r];
      head := Next(head);
      return true;
    }

    method WaitingBufferClear()
      requires Valid()
      modifies `head, `tail
      ensures Valid() && Buffer() == []
    {
      head, tail := 0, 0;
    }

    method WaitingBufferTyped(e: Event) returns (typed: bool)
      requires Valid()
      ensures typed == Typed(Buffer(), e)
    {
      var i, n := tail, 0;
      while i != head
        invariant n <= Waiting() && i == Slot(tail, n)
        invariant forall j :: 0 <= j < n ==> !IsCounterpart(Buffer()[j].event, e)
        decreases Waiting() - n
      {
        assert waitingBuffer[i] == Buffer()[n];
        if IsCounterpart(waitingBuffer[i].event, e) {
          return true;
        }
        i, n := Next(i), n + 1;
      }
      return false;
    }

    method SettleByRelease(i: nat, ghost n: nat)
      requires Valid() && n < Waiting() && i == Slot(tail, n)
      modifies `tappingKey, `world, waitingBuffer
      ensures Abs() == SettleAsTapped(old(Abs()), n)
    {
      tappingKey := tappingKey.(count := 1);
      MarkWaiting(i, n, waitingBuffer[i].(count := 1));
      ProcessRecord(tappingKey, FromTappingKey);
    }

    method WaitingBufferScanTap()
      requires Valid()
      modifies `tappingKey, `world, waitingBuffer
      ensures Valid()
      ensures Abs() == ScanTap(cfg, old(Abs()))
    {
      if tappingKey.count > 0 || !tappingKey.event.pressed {
        return;
      }
      ghost var s := Abs();
      var i, n := tail, 0;
      while i != head
        invariant Valid() && Abs() == s
        invariant n <= Waiting() && i == Slot(tail, n)
        invariant ScanTapFrom(cfg, s, n) == ScanTapFrom(cfg, s, 0)
        decreases Waiting() - n
      {
        assert waitingBuffer[i] == s.buffer[n];
        var candidate := waitingBuffer[i];
        if !candidate.event.IsTick() && IsReleaseOfTappingKey(candidate.event) && WithinTerm(candidate.event) {
          SettleByRelease(i, n);
          return;
        }
        i, n := Next(i), n + 1;
      }
    }
  
    /** Write record `r` back into slot `i`, which holds the `n`th waiting record. */
    method MarkWaiting(i: nat, ghost n: nat, r: Record)
      requires Valid() && n < Waiting() && i == Slot(tail, n)
      modifies waitingBuffer
      ensures Buffer() == old(Buffer())[n := r]
    {
      RingUpdate(waitingBuffer[..], tail, Waiting(), n, r);
      ghost var slots := waitingBuffer[..];
      waitingBuffer[i] := r;
      assert waitingBuffer[..] == slots[i := r];
    }

    method WaitingBufferAdvance()
      requires Valid() && tail != head
      modifies `tail
      ensures Valid()
      ensures Buffer() == old(Buffer())[1..]
    {
      RingPop(waitingBuffer[..], tail, Waiting());
      tail := Next(tail);
    }

    /** No tapping key: a tap-hold press becomes it, anything else is processed. */
    method ProcessWhenReset(r: Record)
      requires Valid()
      modifies `tappingKey, `world, waitingBuffer
      ensures Valid()
      ensures ProcessReset(cfg, old(Abs()), r) == Outcome(Abs(), r, true)
    {
      if r.event.IsTick() {
      } else if r.event.pressed && IsTap(cfg, world, r) {
        tappingKey := r;
        WaitingBufferScanTap();
      } else {
        ProcessRecord(r, FromEvent);
      }
    }

    method ProcessWhenUnsettled(r: Record) returns (consumed: bool, r': Record)
      requires Valid()
      modifies `tappingKey, `world
      ensures Valid()
      ensures ProcessUnsettled(cfg, old(Abs()), r) == Outcome(Abs(), r', consumed)
    {
      r' := r;
      if IsReleaseOfTappingKey(r.event) {
        tappingKey := tappingKey.(count := 1);
        ProcessRecord(tappingKey, FromTappingKey);
        r' := r.(count := tappingKey.count, interrupted := tappingKey.interrupted);
        return false, r';
      }
      var typed := WaitingBufferTyped(r.event);
      if !r.event.pressed && typed && cfg.permissiveHold(world, tappingKey) {
        ProcessRecord(tappingKey, FromTappingKey);
        tappingKey := NO_RECORD;
        return false, r';
      } else if !r.event.pressed && !typed {
        if HeldBack(cfg, world, r) {
          return false, r';
        }
        ProcessRecord(r, FromEvent);
        return true, r';
      } else {
        if r.event.pressed {
          tappingKey := tappingKey.(interrupted := true);
          if cfg.holdOnOtherKeyPress(world, tappingKey) {
            ProcessRecord(tappingKey, FromTappingKey);
            tappingKey := NO_RECORD;
          }
        }
        return false, r';
      }
    }

    method ProcessWhenSettled(r: Record) returns (r': Record)
      requires Valid()
      modifies `tappingKey, `world, waitingBuffer
      ensures Valid()
      ensures ProcessSettled(cfg, old(Abs()), r) == Outcome(Abs(), r', true)
    {
      r' := r;
      if IsReleaseOfTappingKey(r.event) {
        var within := WithinTerm(r.event);
        r' := r.(count := tappingKey.count, interrupted := tappingKey.interrupted);
        ProcessRecord(r', FromEvent);
        tappingKey := if within then r' else NO_RECORD;
      } else if IsTap(cfg, world, r) && r.event.pressed {
        if tappingKey.count > 1 {
          ProcessRecord(Record(Event(tappingKey.event.key, r.event.time, tappingKey.event.kind, false),
                               tappingKey.count, tappingKey.interrupted), SyntheticRelease);
        }
        tappingKey := r;
        WaitingBufferScanTap();
      } else {
        ProcessRecord(r, FromEvent);
      }
    }

    method ProcessWhenReleased(r: Record) returns (r': Record)
      requires Valid()
      modifies `tappingKey, `world, waitingBuffer
      ensures Valid()
      ensures ProcessReleased(cfg, old(Abs()), r) == Outcome(Abs(), r', true)
    {
      r' := r;
      if !r.event.pressed {
        ProcessRecord(r, FromEvent);
      } else if tappingKey.event.key == r.event.key {
        if WithinQuickTerm(r.event) && !tappingKey.interrupted && tappingKey.count > 0 {
          r' := r.(count := if tappingKey.count < 15 then tappingKey.count + 1 else tappingKey.count,
                   interrupted := tappingKey.interrupted);
          ProcessRecord(r', FromEvent);
        }
        tappingKey := r';
      } else if IsTap(cfg, world, r) {
        tappingKey := r;
        WaitingBufferScanTap();
      } else {
        tappingKey := tappingKey.(interrupted := true);
        ProcessRecord(r, FromEvent);
      }
    }

    /** `process_tapping`: the caller's record is passed in as `r` and left as `r'`. */
    method ProcessTappingKey(r: Record) returns (consumed: bool, r': Record)
      requires Valid()
      modifies `tappingKey, `world, waitingBuffer
      ensures Valid()
      ensures ProcessTapping(cfg, old(Abs()), r) == Outcome(Abs(), r', consumed)
    {
      consumed, r' := true, r;
      if tappingKey.event.IsTick() {
        ProcessWhenReset(r);
      } else if WithinTerm(r.event) {
        if r.event.IsTick() {
        } else if !tappingKey.event.pressed {
          r' := ProcessWhenReleased(r);
        } else if tappingKey.count == 0 {
          consumed, r' := ProcessWhenUnsettled(r);
        } else {
          r' := ProcessWhenSettled(r);
        }
      } else if !tappingKey.event.pressed {
        tappingKey := NO_RECORD;
        consumed := false;
      } else if tappingKey.count == 0 {
        ProcessRecord(tappingKey, FromTappingKey);
        tappingKey := NO_RECORD;
        consumed := false;
      } else if !r.event.IsTick() {
        r' := ProcessWhenSettled(r);
      }
    }

    /** The first half of `action_tapping_process`: take the event in, or queue it, or give everything up. */
    method AcceptEvent(e: Event)
      requires Valid()
      modifies this, waitingBuffer
      ensures Valid()
      ensures Abs() == Accept(cfg, old(Abs()), e)
    {
      world := world.(received := world.received + [e]);
      var consumed, r := ProcessTappingKey(Record(e, 0, false));
      if !consumed {
        ghost var s := Abs();
        var ok := WaitingBufferEnq(r);
        assert ok ==> Abs() == Enqueue(s, r);
        if !ok {
          world := world.(log := world.log + [KeyboardCleared]);
          WaitingBufferClear();
          tappingKey := NO_RECORD;
          assert Buffer() == [];
        }
      }
    }

    /** Retry the record at the tail; a record that is not consumed stays there, as it has become. */
    method RetryTail() returns (consumed: bool)
      requires Valid() && tail != head
      modifies this, waitingBuffer
      ensures Valid()
      ensures var s := old(Abs());
        var o := ProcessTapping(cfg, s, s.buffer[0]);
        consumed == o.consumed &&
        Abs() == o.state.(buffer := if consumed then o.state.buffer[1..] else o.state.buffer[0 := o.record])
    {
      ghost var s := Abs();
      assert waitingBuffer[tail] == s.buffer[0];
      var r;
      consumed, r := ProcessTappingKey(waitingBuffer[tail]);
      MarkWaiting(tail, 0, r);
      if consumed {
        WaitingBufferAdvance();
      }
    }

    method DrainWaiting()
      requires Valid()
      modifies this, waitingBuffer
      ensures Valid()
      ensures Abs() == Drain(cfg, old(Abs()))
    {
      ghost var start := Abs();
      while tail != head
        invariant Valid()
        invariant Drain(cfg, Abs()) == Drain(cfg, start)
        decreases Waiting()
      {
        var consumed := RetryTail();
        if !consumed {
          break;
        }
      }
    }

    /** `action_tapping_process` */
    method ActionTappingProcess(e: Event)
      requires Valid()
      modifies this, waitingBuffer
      ensures Valid()
      ensures Abs() == Step(cfg, old(Abs()), e)
    {
      AcceptEvent(e);
      DrainWaiting();
    }
  }
}
