/** What the host is told of a key, made-up releases included, against what its switch did. */
module HostView {
  import opened Events
  import opened Tapping
  import opened TappingOrder
  import opened TappingSynthetic

  /** All events handed to `process_record`, in order. */
  ghost function Heard(log: seq<Output>): seq<Event> {
    if log == [] then []
    else Heard(log[..|log| - 1]) + (if log[|log| - 1].Processed? then [log[|log| - 1].record.event] else [])
  }

  /** The last the host was told of the key is a release that the machine made up. */
  ghost predicate LastMadeUp(log: seq<Output>, k: Key) {
    log != [] && if About(log[|log| - 1], k) then MadeUp(log[|log| - 1], k) else LastMadeUp(log[..|log| - 1], k)
  }

  /** No made-up release of the key has been followed by another event of it. */
  ghost predicate NoneAfterMadeUp(log: seq<Output>, k: Key) {
    log != [] ==>
      NoneAfterMadeUp(log[..|log| - 1], k) && (About(log[|log| - 1], k) ==> !LastMadeUp(log[..|log| - 1], k))
  }

  /** The key is down as far as the host has been told. */
  ghost predicate HostDown(log: seq<Output>, k: Key) {
    IsDownAfter(Project(k, Heard(log)))
  }

  ghost predicate IsDownAfter(es: seq<Event>) {
    es != [] && es[|es| - 1].pressed
  }

  /** Press, release, press, ... */
  ghost predicate PressFirst(es: seq<Event>) {
    Alternates(es) && (es != [] ==> es[0].pressed)
  }

  /** What the machine itself was given of the key takes turns and starts with a press. */
  ghost predicate TakesTurns(log: seq<Output>, k: Key) {
    PressFirst(Project(k, Emitted(log)))
  }

  /** A log without overflow, its releases made up for reasons, its other events in turn. */
  ghost predicate Proper(log: seq<Output>, k: Key) {
    KeyboardCleared !in log && AllCovered(log) && TakesTurns(log, k)
  }

  lemma ProjectEmittedAppend(log: seq<Output>, x: Output, k: Key)
    ensures Project(k, Emitted(log + [x])) == Project(k, Emitted(log)) +
            (if About(x, k) && !MadeUp(x, k) then [x.record.event] else [])
    ensures Project(k, Heard(log + [x])) == Project(k, Heard(log)) + (if About(x, k) then [x.record.event] else [])
  {
    EmittedAppend(log, x);
    ProjectConcat(k, Emitted(log), EmittedBy(x));
    assert (log + [x])[..|log + [x]| - 1] == log;
    if x.Processed? {
      ProjectAppend(k, Heard(log), x.record.event);
    } else {
      assert Heard(log + [x]) == Heard(log);
      assert Project(k, Heard(log)) + [] == Project(k, Heard(log));
    }
  }

  lemma AlternatesAppend(es: seq<Event>, e: Event)
    ensures Alternates(es + [e]) <==> Alternates(es) && (es == [] || es[|es| - 1].pressed != e.pressed)
  {
    var all := es + [e];
    if Alternates(all) {
      forall i | 0 < i < |es| ensures es[i].pressed != es[i - 1].pressed {
        assert all[i].pressed != all[i - 1].pressed;
      }
      if es != [] {
        assert all[|es|].pressed != all[|es| - 1].pressed;
      }
    }
  }

  lemma PressFirstPrefix(a: seq<Event>, b: seq<Event>)
    requires PressFirst(a + b)
    ensures PressFirst(a)
  {
    assert forall i :: 0 <= i < |a| ==> (a + b)[i] == a[i];
  }

  lemma ProperPrefix(log: seq<Output>, x: Output, k: Key)
    requires Proper(log + [x], k)
    ensures Proper(log, k)
  {
    var log' := log + [x];
    ProjectEmittedAppend(log, x, k);
    forall i | 0 <= i < |log| ensures Covered(log, i) {
      assert Covered(log', i) && log'[..i] == log[..i];
    }
    assert forall y :: y in log ==> y in log';
    PressFirstPrefix(Project(k, Emitted(log)), if About(x, k) && !MadeUp(x, k) then [x.record.event] else []);
  }

  lemma OwnEventDown(log: seq<Output>, x: Output, k: Key)
    requires !Releases(x, k)
    requires IsDownAfter(Project(k, Emitted(log))) || (About(x, k) && !MadeUp(x, k))
    ensures IsDownAfter(Project(k, Emitted(log + [x])))
  {
    ProjectEmittedAppend(log, x, k);
  }

  /** A key put down and not let go since is down by the machine's own events. */
  lemma {:induction false} DownByOwnEvents(log: seq<Output>, j: nat, r: Record)
    requires DownSince(log, j, r)
    ensures IsDownAfter(Project(r.event.key, Emitted(log)))
    decreases |log|
  {
    var n := |log| - 1;
    assert log == log[..n] + [log[n]];
    if j < n {
      assert DownSince(log[..n], j, r);
      DownByOwnEvents(log[..n], j, r);
    }
    OwnEventDown(log[..n], log[n], r.event.key);
  }

  /** A made-up release comes when the key is down by the machine's own events. */
  lemma MadeUpWhenDown(log: seq<Output>, x: Output, k: Key)
    requires AllCovered(log + [x]) && MadeUp(x, k)
    ensures IsDownAfter(Project(k, Emitted(log))) && !x.record.event.pressed
  {
    var log' := log + [x];
    assert Covered(log', |log|) && log'[..|log|] == log;
    var j :| DownSince(log, j, x.record);
    DownByOwnEvents(log, j, x.record);
  }

  /** The host has the key as the machine's own events have it, unless the last it heard was made up. */
  lemma {:induction false} HeardLast(log: seq<Output>, k: Key)
    requires Proper(log, k)
    ensures LastMadeUp(log, k) ==> IsDownAfter(Project(k, Emitted(log))) && !HostDown(log, k)
    ensures !LastMadeUp(log, k) ==> HostDown(log, k) == IsDownAfter(Project(k, Emitted(log)))
    ensures Project(k, Heard(log)) == [] <==> Project(k, Emitted(log)) == []
    ensures Project(k, Heard(log)) != [] ==> Project(k, Heard(log))[0].pressed
  {
    if log != [] {
      var before, x := log[..|log| - 1], log[|log| - 1];
      assert log == before + [x];
      ProperPrefix(before, x, k);
      HeardLast(before, k);
      ProjectEmittedAppend(before, x, k);
      if MadeUp(x, k) {
        MadeUpWhenDown(before, x, k);
      }
    }
  }

  /** The next event of a key that the machine itself was given is of the other kind than the last. */
  lemma OwnTurn(log: seq<Output>, x: Output, k: Key)
    requires TakesTurns(log + [x], k) && About(x, k) && !MadeUp(x, k)
    ensures x.record.event.pressed != IsDownAfter(Project(k, Emitted(log)))
  {
    ProjectEmittedAppend(log, x, k);
    AlternatesAppend(Project(k, Emitted(log)), x.record.event);
  }

  /** Whatever comes next of the key takes its turn for the host, unless the last it heard was made up. */
  lemma HeardTurn(log: seq<Output>, x: Output, k: Key)
    requires Proper(log + [x], k) && About(x, k)
    ensures var heard := Project(k, Heard(log));
      heard == [] || heard[|heard| - 1].pressed != x.record.event.pressed <==> !LastMadeUp(log, k)
  {
    ProperPrefix(log, x, k);
    HeardLast(log, k);
    if MadeUp(x, k) {
      MadeUpWhenDown(log, x, k);
    } else {
      OwnTurn(log, x, k);
    }
  }

  lemma HeardTurnsStep(log: seq<Output>, x: Output, k: Key)
    requires Proper(log + [x], k)
    ensures Alternates(Project(k, Heard(log + [x]))) <==>
            Alternates(Project(k, Heard(log))) && (About(x, k) ==> !LastMadeUp(log, k))
  {
    ProjectEmittedAppend(log, x, k);
    if About(x, k) {
      HeardTurn(log, x, k);
      AlternatesAppend(Project(k, Heard(log)), x.record.event);
    } else {
      assert Project(k, Heard(log)) + [] == Project(k, Heard(log));
    }
  }

  /** What the host hears of the key takes turns exactly if nothing follows a made-up release of it. */
  lemma {:induction false} HeardTurnsIff(log: seq<Output>, k: Key)
    requires Proper(log, k)
    ensures Alternates(Project(k, Heard(log))) <==> NoneAfterMadeUp(log, k)
  {
    if log != [] {
      var before, x := log[..|log| - 1], log[|log| - 1];
      assert log == before + [x];
      ProperPrefix(before, x, k);
      HeardTurnsIff(before, k);
      HeardTurnsStep(before, x, k);
    }
  }

  lemma {:induction false} NeverMadeUp(log: seq<Output>, k: Key)
    requires !AnyMadeUp(log, 0, k)
    ensures NoneAfterMadeUp(log, k) && !LastMadeUp(log, k)
  {
    if log != [] {
      var before := log[..|log| - 1];
      assert forall i :: 0 <= i < |before| ==> before[i] == log[i];
      NeverMadeUp(before, k);
      assert !MadeUp(log[|log| - 1], k);
    }
  }
}
