/** Key events and the 16-bit clock, shared by the matrix scanner and the tap-hold engine. */
module Events {

  /** `timer_read()` is a uint16_t; `TIMER_DIFF_16` subtracts modulo 2^16. */
  type Time16 = t: int | 0 <= t < 0x1_0000

  function Diff16(a: Time16, b: Time16): Time16 {
    (a - b) % 0x1_0000
  }

  datatype Key = Key(row: nat, col: nat)

  datatype EventType = TickEvent | KeyEvent | EncoderCwEvent | EncoderCcwEvent
                     | ComboEvent | DipSwitchOnEvent | DipSwitchOffEvent

  datatype Event = Event(key: Key, time: Time16, kind: EventType, pressed: bool)
  {
    predicate IsTick() {
      kind == TickEvent
    }
  }

  /** The subsequence of events that are not ticks. */
  function NonTick(es: seq<Event>): seq<Event> {
    if es == [] then []
    else NonTick(es[..|es| - 1]) + (if es[|es| - 1].IsTick() then [] else [es[|es| - 1]])
  }

  /** The subsequence of events of one key. */
  function Project(k: Key, es: seq<Event>): seq<Event> {
    if es == [] then []
    else Project(k, es[..|es| - 1]) + (if es[|es| - 1].key == k then [es[|es| - 1]] else [])
  }

  /** Presses and releases strictly take turns. */
  ghost predicate Alternates(es: seq<Event>) {
    forall i :: 0 < i < |es| ==> es[i].pressed != es[i - 1].pressed
  }

  /** Every key's events take turns; ticks carry no key. */
  ghost predicate AlternatesPerKey(es: seq<Event>) {
    forall k :: Alternates(Project(k, NonTick(es)))
  }

  lemma {:induction false} ProjectConcat(k: Key, a: seq<Event>, b: seq<Event>)
    ensures Project(k, a + b) == Project(k, a) + Project(k, b)
  {
    if b == [] {
      assert a + b == a;
    } else {
      assert (a + b)[..|a + b| - 1] == a + b[..|b| - 1];
      ProjectConcat(k, a, b[..|b| - 1]);
    }
  }

  lemma ProjectAppend(k: Key, es: seq<Event>, e: Event)
    ensures Project(k, es + [e]) == if e.key == k then Project(k, es) + [e] else Project(k, es)
  {
    assert (es + [e])[..|es + [e]| - 1] == es;
  }

  lemma {:induction false} ProjectMembers(k: Key, es: seq<Event>)
    ensures forall e :: e in Project(k, es) <==> e in es && e.key == k
  {
    if es != [] {
      var n := |es| - 1;
      ProjectMembers(k, es[..n]);
      assert es == es[..n] + [es[n]];
    }
  }

  lemma {:induction false} NonTickConcat(a: seq<Event>, b: seq<Event>)
    ensures NonTick(a + b) == NonTick(a) + NonTick(b)
  {
    if b == [] {
      assert a + b == a;
    } else {
      assert (a + b)[..|a + b| - 1] == a + b[..|b| - 1];
      NonTickConcat(a, b[..|b| - 1]);
    }
  }

  lemma {:induction false} NonTickMembers(es: seq<Event>)
    ensures forall e :: e in NonTick(es) <==> e in es && !e.IsTick()
  {
    if es != [] {
      var n := |es| - 1;
      NonTickMembers(es[..n]);
      assert es == es[..n] + [es[n]];
    }
  }

  /** Alternation of a whole stream holds of every prefix. */
  lemma AlternatesPrefix(es: seq<Event>, n: nat)
    requires n <= |es|
    requires AlternatesPerKey(es)
    ensures AlternatesPerKey(es[..n])
  {
    forall k ensures Alternates(Project(k, NonTick(es[..n]))) {
      assert es == es[..n] + es[n..];
      NonTickConcat(es[..n], es[n..]);
      ProjectConcat(k, NonTick(es[..n]), NonTick(es[n..]));
      var p := Project(k, NonTick(es[..n]));
      var q := Project(k, NonTick(es));
      assert forall i :: 0 <= i < |p| ==> p[i] == q[i];
    }
  }
}
