/**
 Dynamic macros: null-terminated byte strings packed one after the other, and the decoder of
 `dynamic_keymap_macro_send` that skips to one of them and plays it.
 */
module Macros {
  import opened Bytes
  import opened KeymapLayout
  import opened KeymapStore

  const SS_QMK_PREFIX: Byte := 1
  const SS_TAP_CODE: Byte := 1
  const SS_DOWN_CODE: Byte := 2
  const SS_UP_CODE: Byte := 3
  const SS_DELAY_CODE: Byte := 4
  const VIAL_MACRO_EXT_TAP: Byte := 5
  const VIAL_MACRO_EXT_DOWN: Byte := 6
  const VIAL_MACRO_EXT_UP: Byte := 7

  /** `op` is tap, down or up; extended ones carry a 16-bit keycode. */
  datatype Action = Type(c: Byte) | Key(op: Byte, code: Byte) | ExtKey(op: Byte, keycode: U16) | Delay(ms: nat)

  /** `PastEnd`: the decoder reads the byte behind the macro area, whatever is there. */
  datatype Outcome = NotSent | Sent(actions: seq<Action>) | PastEnd(actions: seq<Action>)

  function Prepend(a: Action, o: Outcome): Outcome {
    match o
    case NotSent => NotSent
    case Sent(as_) => Sent([a] + as_)
    case PastEnd(as_) => PastEnd([a] + as_)
  }

  /** 0xFF01 stands for 0x0100, 0xFF02 for 0x0200, and so on: a keycode's low byte could not be zero otherwise. */
  function DecodeKeycode(kc: U16): U16 {
    if kc > 0xFF00 then kc % 0x100 * 0x100 else kc
  }

  predicate IsKeyOp(op: Byte) {
    op == SS_TAP_CODE || op == SS_DOWN_CODE || op == SS_UP_CODE
  }

  predicate IsExtOp(op: Byte) {
    op == VIAL_MACRO_EXT_TAP || op == VIAL_MACRO_EXT_DOWN || op == VIAL_MACRO_EXT_UP
  }

  // ---------------------------------------------------------------- the decoder

  /** What is played from position `p` of the macro area on. */
  function Play(area: seq<Byte>, p: nat): Outcome
    requires p <= |area|
    decreases |area| - p
  {
    if p >= |area| then PastEnd([])
    else if area[p] == 0 then Sent([])
    else if area[p] != SS_QMK_PREFIX then Prepend(Type(area[p]), Play(area, p + 1))
    else if p + 1 >= |area| then PastEnd([])
    else if area[p + 1] == 0 then Sent([])
    else if IsKeyOp(area[p + 1]) then
      if p + 2 >= |area| then PastEnd([])
      else if area[p + 2] != 0 then Prepend(Key(area[p + 1], area[p + 2]), Play(area, p + 3))
      else Play(area, p + 3)
    else if IsExtOp(area[p + 1]) then
      if p + 2 >= |area| then PastEnd([])
      else if area[p + 2] == 0 then Play(area, p + 3)
      else if p + 3 >= |area| then PastEnd([])
      else if area[p + 3] == 0 then Play(area, p + 4)
      else Prepend(ExtKey(area[p + 1], DecodeKeycode(JoinBytes(area[p + 3], area[p + 2]))), Play(area, p + 4))
    else if area[p + 1] == SS_DELAY_CODE then
      if p + 3 >= |area| then PastEnd([])
      else if area[p + 2] == 0 || area[p + 3] == 0 then Sent([])
      else Prepend(Delay((area[p + 2] as int - 1) + (area[p + 3] as int - 1) * 255), Play(area, p + 4))
    else Play(area, p + 2)
  }

  /** The position behind the next `id` null bytes; none if the area ends before. */
  function Skip(area: seq<Byte>, id: nat, p: nat): (r: Option<nat>)
    requires p <= |area|
    ensures r.Some? ==> r.value <= |area|
    decreases |area| - p
  {
    if id == 0 then Some(p)
    else if p == |area| then None
    else Skip(area, if area[p] == 0 then id - 1 else id, p + 1)
  }

  /** Skip `id` nulls, then play. */
  function SkipThenPlay(area: seq<Byte>, id: nat, p: nat): Outcome
    requires p <= |area|
  {
    match Skip(area, id, p)
    case None => NotSent
    case Some(q) => Play(area, q)
  }

  function Send(area: seq<Byte>, count: nat, id: nat): Outcome
    requires area != []
  {
    if id >= count || area[|area| - 1] != 0 then NotSent
    else
      SkipThenPlay(area, id, 0)
  }

  function MacroArea(b: Build, mem: seq<Byte>): (area: seq<Byte>)
    requires ValidMemory(b, mem)
    ensures area != []
  {
    mem[MacroAddr(b)..b.maxAddr + 1]
  }

  /** The last byte of the macro area, which is the valid flag. */
  function LastByte(b: Build, mem: seq<Byte>): Byte
    requires ValidMemory(b, mem)
  {
    ReadCell(b, mem, MacroCell(MacroSize(b) - 1))[0]
  }

  lemma LastByteOfArea(b: Build, mem: seq<Byte>)
    requires ValidMemory(b, mem)
    ensures var area := MacroArea(b, mem); LastByte(b, mem) == area[|area| - 1]
  {
  }

  /** Pieces written into the macro buffer one after the other: where, and what. */
  type Piece = (nat, seq<Byte>)

  function WritePieces(b: Build, mem: seq<Byte>, pieces: seq<Piece>): (mem': seq<Byte>)
    requires ValidMemory(b, mem)
    ensures ValidMemory(b, mem')
  {
    if pieces == [] then mem
    else
      var (offset, data) := pieces[|pieces| - 1];
      WriteAll(b, WritePieces(b, mem, pieces[..|pieces| - 1]), MacroWrites(offset, data))
  }

  /** No piece covers the last byte. */
  predicate LeaveLastByte(b: Build, pieces: seq<Piece>)
    requires ValidBuild(b)
  {
    forall i :: 0 <= i < |pieces| ==> pieces[i].0 + |pieces[i].1| < MacroSize(b) || pieces[i].0 >= MacroSize(b)
  }

  lemma {:induction false} LastByteStays(b: Build, mem: seq<Byte>, ws: seq<Write>)
    requires ValidMemory(b, mem) && WellSized(ws)
    requires forall i :: 0 <= i < |ws| ==> ws[i].cell != MacroCell(MacroSize(b) - 1)
    ensures LastByte(b, WriteAll(b, mem, ws)) == LastByte(b, mem)
  {
    if ws != [] {
      var before := ws[..|ws| - 1];
      LastByteStays(b, mem, before);
      var last := ws[|ws| - 1];
      WriteSeenOnlyThere(b, WriteAll(b, mem, before), last.cell, last.bytes, MacroCell(MacroSize(b) - 1));
    }
  }

  /** While a transfer is under way, or after it was broken off, no macro is sent. */
  lemma {:induction false} BrokenTransferIsSilent(b: Build, mem: seq<Byte>, pieces: seq<Piece>, count: nat, id: nat)
    requires ValidMemory(b, mem) && LastByte(b, mem) != 0 && LeaveLastByte(b, pieces)
    ensures var mem' := WritePieces(b, mem, pieces);
      LastByte(b, mem') == LastByte(b, mem) && Send(MacroArea(b, mem'), count, id) == NotSent
  {
    LastByteOfArea(b, WritePieces(b, mem, pieces));
    if pieces != [] {
      var before := pieces[..|pieces| - 1];
      var (offset, data) := pieces[|pieces| - 1];
      BrokenTransferIsSilent(b, mem, before, count, id);
      LastByteStays(b, WritePieces(b, mem, before), MacroWrites(offset, data));
    }
  }

  function Append(sent: seq<Action>, o: Outcome): Outcome {
    match o
    case NotSent => NotSent
    case Sent(as_) => Sent(sent + as_)
    case PastEnd(as_) => PastEnd(sent + as_)
  }

  lemma AppendPrepend(sent: seq<Action>, a: Action, o: Outcome)
    ensures Append(sent + [a], o) == Append(sent, Prepend(a, o))
  {
    match o
    case NotSent =>
    case Sent(as_) => assert sent + [a] + as_ == sent + ([a] + as_);
    case PastEnd(as_) => assert sent + [a] + as_ == sent + ([a] + as_);
  }

  /** The loop that plays one macro, stepping through the bytes. */
  method PlayFrom(area: seq<Byte>, start: nat) returns (o: Outcome)
    requires start <= |area|
    ensures o == Play(area, start)
  {
    var p, sent := start, [];
    while p < |area|
      invariant p <= |area|
      invariant Play(area, start) == Append(sent, Play(area, p))
    {
      var data0 := area[p];
      if data0 == 0 {
        return Sent(sent);
      }
      if data0 != SS_QMK_PREFIX {
        AppendPrepend(sent, Type(data0), Play(area, p + 1));
        sent, p := sent + [Type(data0)], p + 1;
        continue;
      }
      if p + 1 >= |area| {
        return PastEnd(sent);
      }
      var data1 := area[p + 1];
      if data1 == 0 {
        return Sent(sent);
      }
      if IsKeyOp(data1) {
        if p + 2 >= |area| {
          return PastEnd(sent);
        }
        if area[p + 2] != 0 {
          AppendPrepend(sent, Key(data1, area[p + 2]), Play(area, p + 3));
          sent := sent + [Key(data1, area[p + 2])];
        }
        p := p + 3;
      } else if IsExtOp(data1) {
        if p + 2 >= |area| {
          return PastEnd(sent);
        }
        if area[p + 2] == 0 {
          p := p + 3;
        } else {
          if p + 3 >= |area| {
            return PastEnd(sent);
          }
          if area[p + 3] != 0 {
            var kc := DecodeKeycode(JoinBytes(area[p + 3], area[p + 2]));
            AppendPrepend(sent, ExtKey(data1, kc), Play(area, p + 4));
            sent := sent + [ExtKey(data1, kc)];
          }
          p := p + 4;
        }
      } else if data1 == SS_DELAY_CODE {
        if p + 3 >= |area| {
          return PastEnd(sent);
        }
        if area[p + 2] == 0 || area[p + 3] == 0 {
          return Sent(sent);
        }
        var ms := (area[p + 2] as int - 1) + (area[p + 3] as int - 1) * 255;
        AppendPrepend(sent, Delay(ms), Play(area, p + 4));
        sent, p := sent + [Delay(ms)], p + 4;
      } else {
        p := p + 2;
      }
    }
    return PastEnd(sent);
  }

  /** `dynamic_keymap_macro_send` */
  method MacroSend(store: Store, count: nat, id: nat) returns (o: Outcome)
    requires store.Valid()
    ensures o == Send(MacroArea(store.build, store.bytes[..]), count, id)
    ensures id >= count || LastByte(store.build, store.bytes[..]) != 0 ==> o == NotSent
  {
    LastByteOfArea(store.build, store.bytes[..]);
    if id >= count {
      return NotSent;
    }
    var area := store.bytes[MacroAddr(store.build)..store.build.maxAddr + 1];
    assert area == MacroArea(store.build, store.bytes[..]);
    if area[|area| - 1] != 0 {
      return NotSent;
    }
    var p, left := 0, id;
    while left > 0
      invariant p <= |area|
      invariant Skip(area, left, p) == Skip(area, id, 0)
      decreases |area| - p, left
    {
      if p == |area| {
        return NotSent;
      }
      if area[p] == 0 {
        left := left - 1;
      }
      p := p + 1;
    }
    o := PlayFrom(area, p);
  }

  // ---------------------------------------------------------------- serialization

  /** The 16-bit keycodes a macro can carry. */
  predicate Encodable(kc: U16) {
    kc >= 0x100 && (kc % 0x100 == 0 || kc < 0xFF00)
  }

  predicate WellFormed(a: Action) {
    match a
    case Type(c) => c != 0 && c != SS_QMK_PREFIX
    case Key(op, code) => IsKeyOp(op) && code != 0
    case ExtKey(op, kc) => IsExtOp(op) && Encodable(kc)
    case Delay(ms) => ms < 255 * 255
  }

  function ActionBytes(a: Action): (bs: seq<Byte>)
    requires WellFormed(a)
  {
    match a
    case Type(c) => [c]
    case Key(op, code) => [SS_QMK_PREFIX, op, code]
    case ExtKey(op, kc) =>
      if kc % 0x100 == 0 then [SS_QMK_PREFIX, op, kc / 0x100, 0xFF]
      else [SS_QMK_PREFIX, op, kc % 0x100, kc / 0x100]
    case Delay(ms) => [SS_QMK_PREFIX, SS_DELAY_CODE, ms % 255 + 1, ms / 255 + 1]
  }

  predicate WellFormedMacro(m: seq<Action>) {
    forall i :: 0 <= i < |m| ==> WellFormed(m[i])
  }

  function Serialize(m: seq<Action>): seq<Byte>
    requires WellFormedMacro(m)
  {
    if m == [] then [] else ActionBytes(m[0]) + Serialize(m[1..])
  }

  predicate WellFormedMacros(ms: seq<seq<Action>>) {
    forall i :: 0 <= i < |ms| ==> WellFormedMacro(ms[i])
  }

  function SerializeAll(ms: seq<seq<Action>>): seq<Byte>
    requires WellFormedMacros(ms)
  {
    if ms == [] then [] else Serialize(ms[0]) + [0] + SerializeAll(ms[1..])
  }

  /** The escape reaches exactly the keycodes with a non-zero high byte, except 0xFF01 to 0xFFFF. */
  lemma EncodableIff(kc: U16)
    ensures Encodable(kc) <==> exists low: Byte, high: Byte ::
          low != 0 && high != 0 && DecodeKeycode(JoinBytes(high, low)) == kc
  {
    if Encodable(kc) {
      var low: Byte := if kc % 0x100 == 0 then kc / 0x100 else kc % 0x100;
      var high: Byte := if kc % 0x100 == 0 then 0xFF else kc / 0x100;
      assert DecodeKeycode(JoinBytes(high, low)) == kc;
    }
  }

  lemma {:induction false} SerializedHasNoZero(m: seq<Action>)
    requires WellFormedMacro(m)
    ensures forall i :: 0 <= i < |Serialize(m)| ==> Serialize(m)[i] != 0
  {
    if m != [] {
      SerializedHasNoZero(m[1..]);
      BytesHaveNoZero(m[0]);
    }
  }

  lemma BytesHaveNoZero(a: Action)
    requires WellFormed(a)
    ensures forall i :: 0 <= i < |ActionBytes(a)| ==> ActionBytes(a)[i] != 0
  {
  }

  // ---------------------------------------------------------------- playing what was serialized

  /** Does `bs` stand at position `p` of the area? */
  ghost predicate At(area: seq<Byte>, p: nat, bs: seq<Byte>) {
    p + |bs| <= |area| && area[p..p + |bs|] == bs
  }

  lemma AtSplit(area: seq<Byte>, p: nat, a: seq<Byte>, b: seq<Byte>)
    requires At(area, p, a + b)
    ensures At(area, p, a) && At(area, p + |a|, b)
  {
    assert area[p..p + |a|] == (a + b)[..|a|];
    assert area[p + |a|..p + |a| + |b|] == (a + b)[|a|..];
  }

  lemma AtBytes(area: seq<Byte>, p: nat, bs: seq<Byte>, i: nat)
    requires At(area, p, bs) && i < |bs|
    ensures p + i < |area| && area[p + i] == bs[i]
  {
    assert area[p..p + |bs|][i] == bs[i];
  }

  lemma PlayOne(area: seq<Byte>, p: nat, a: Action)
    requires WellFormed(a) && At(area, p, ActionBytes(a))
    ensures Play(area, p) == Prepend(a, Play(area, p + |ActionBytes(a)|))
  {
    AtBytes(area, p, ActionBytes(a), 0);
    match a
    case Type(c) =>
    case Key(op, code) =>
      AtBytes(area, p, ActionBytes(a), 1);
      AtBytes(area, p, ActionBytes(a), 2);
    case ExtKey(op, kc) =>
      AtBytes(area, p, ActionBytes(a), 1);
      AtBytes(area, p, ActionBytes(a), 2);
      AtBytes(area, p, ActionBytes(a), 3);
    case Delay(ms) =>
      AtBytes(area, p, ActionBytes(a), 1);
      AtBytes(area, p, ActionBytes(a), 2);
      AtBytes(area, p, ActionBytes(a), 3);
  }

  lemma FirstActionPlays(area: seq<Byte>, p: nat, m: seq<Action>)
    requires WellFormedMacro(m) && m != [] && At(area, p, Serialize(m) + [0])
    ensures var q := p + |ActionBytes(m[0])|;
      At(area, q, Serialize(m[1..]) + [0]) && Play(area, p) == Prepend(m[0], Play(area, q))
  {
    assert Serialize(m) + [0] == ActionBytes(m[0]) + (Serialize(m[1..]) + [0]);
    AtSplit(area, p, ActionBytes(m[0]), Serialize(m[1..]) + [0]);
    PlayOne(area, p, m[0]);
  }

  /** A serialized macro plays as its action list, whatever stands before it and behind its terminator. */
  lemma {:induction false} PlayInvertsSerialize(area: seq<Byte>, p: nat, m: seq<Action>)
    requires WellFormedMacro(m) && At(area, p, Serialize(m) + [0])
    ensures Play(area, p) == Sent(m)
    decreases |m|
  {
    if m == [] {
      AtBytes(area, p, [0], 0);
    } else {
      FirstActionPlays(area, p, m);
      PlayInvertsSerialize(area, p + |ActionBytes(m[0])|, m[1..]);
    }
  }

  /** Skipping passes over bytes that are not null without counting them. */
  lemma {:induction false} SkipOver(area: seq<Byte>, id: nat, p: nat, n: nat)
    requires p + n <= |area| && id > 0
    requires forall i :: p <= i < p + n ==> area[i] != 0
    ensures Skip(area, id, p) == Skip(area, id, p + n)
    decreases n
  {
    if n > 0 {
      SkipOver(area, id, p + 1, n - 1);
    }
  }

  lemma SkipOneMacro(area: seq<Byte>, id: nat, p: nat, m: seq<Action>)
    requires WellFormedMacro(m) && At(area, p, Serialize(m) + [0]) && id > 0
    ensures Skip(area, id, p) == Skip(area, id - 1, p + |Serialize(m)| + 1)
  {
    var n := |Serialize(m)|;
    AtSplit(area, p, Serialize(m), [0]);
    SerializedHasNoZero(m);
    forall i | p <= i < p + n ensures area[i] != 0 {
      AtBytes(area, p, Serialize(m), i - p);
    }
    SkipOver(area, id, p, n);
    AtBytes(area, p + n, [0], 0);
  }

  lemma {:induction false} SkipZeros(area: seq<Byte>, id: nat, p: nat)
    requires p <= |area| && forall i :: p <= i < |area| ==> area[i] == 0
    ensures Skip(area, id, p) == if p + id <= |area| then Some(p + id) else None
    decreases |area| - p
  {
    if id > 0 && p < |area| {
      SkipZeros(area, id - 1, p + 1);
    }
  }

  lemma AtZeros(area: seq<Byte>, p: nat, n: nat)
    requires At(area, p, Zeros(n)) && p + n == |area|
    ensures forall i :: p <= i < |area| ==> area[i] == 0
  {
    forall i | p <= i < |area| ensures area[i] == 0 {
      AtBytes(area, p, Zeros(n), i - p);
    }
  }

  /** What is played when `id` macros are skipped from position `p`, where the macros `ms` and `n` zeros stand. */
  function Expected(ms: seq<seq<Action>>, n: nat, id: nat): Outcome {
    if id < |ms| then Sent(ms[id])
    else if id < |ms| + n then Sent([])
    else if id == |ms| + n then PastEnd([])
    else NotSent
  }

  /** From position `p` on, the area holds the macros `ms` and `n` zeros. */
  ghost predicate Stand(area: seq<Byte>, p: nat, ms: seq<seq<Action>>, n: nat) {
    WellFormedMacros(ms) && At(area, p, SerializeAll(ms) + Zeros(n)) && p + |SerializeAll(ms)| + n == |area|
  }

  lemma PlayAmongZeros(area: seq<Byte>, p: nat, n: nat, id: nat)
    requires Stand(area, p, [], n)
    ensures SkipThenPlay(area, id, p) == Expected([], n, id)
  {
    assert SerializeAll([]) + Zeros(n) == Zeros(n);
    AtZeros(area, p, n);
    SkipZeros(area, id, p);
  }

  /** The first macro stands at `p`, and the others and the padding right behind its terminator. */
  lemma TailStands(area: seq<Byte>, p: nat, ms: seq<seq<Action>>, n: nat)
    requires Stand(area, p, ms, n) && ms != []
    ensures WellFormedMacro(ms[0]) && At(area, p, Serialize(ms[0]) + [0])
    ensures Stand(area, p + |Serialize(ms[0])| + 1, ms[1..], n)
  {
    var first, rest := Serialize(ms[0]) + [0], SerializeAll(ms[1..]) + Zeros(n);
    assert SerializeAll(ms) + Zeros(n) == first + rest;
    AtSplit(area, p, first, rest);
  }

  lemma FirstPlays(area: seq<Byte>, p: nat, m: seq<Action>)
    requires WellFormedMacro(m) && At(area, p, Serialize(m) + [0])
    ensures SkipThenPlay(area, 0, p) == Sent(m)
  {
    PlayInvertsSerialize(area, p, m);
  }

  lemma LaterPlays(area: seq<Byte>, p: nat, m: seq<Action>, id: nat)
    requires WellFormedMacro(m) && At(area, p, Serialize(m) + [0]) && id > 0
    ensures p + |Serialize(m)| + 1 <= |area|
    ensures SkipThenPlay(area, id, p) == SkipThenPlay(area, id - 1, p + |Serialize(m)| + 1)
  {
    SkipOneMacro(area, id, p, m);
  }

  lemma ExpectedRest(ms: seq<seq<Action>>, n: nat, id: nat)
    requires ms != []
    ensures Expected(ms, n, id) == if id == 0 then Sent(ms[0]) else Expected(ms[1..], n, id - 1)
  {
  }

  lemma FirstOrLater(area: seq<Byte>, p: nat, ms: seq<seq<Action>>, n: nat, id: nat)
    requires Stand(area, p, ms, n) && ms != []
    ensures WellFormedMacro(ms[0]) && p + |Serialize(ms[0])| + 1 <= |area|
    ensures SkipThenPlay(area, id, p) ==
            if id == 0 then Sent(ms[0]) else SkipThenPlay(area, id - 1, p + |Serialize(ms[0])| + 1)
    ensures Stand(area, p + |Serialize(ms[0])| + 1, ms[1..], n)
  {
    TailStands(area, p, ms, n);
    if id == 0 {
      FirstPlays(area, p, ms[0]);
    } else {
      LaterPlays(area, p, ms[0], id);
    }
  }

  lemma LaterPlaysAsExpected(area: seq<Byte>, p: nat, ms: seq<seq<Action>>, n: nat, id: nat, q: nat)
    requires Stand(area, p, ms, n) && ms != [] && id > 0 && q == p + |Serialize(ms[0])| + 1 <= |area|
    requires SkipThenPlay(area, id - 1, q) == Expected(ms[1..], n, id - 1)
    ensures SkipThenPlay(area, id, p) == Expected(ms, n, id)
  {
    FirstOrLater(area, p, ms, n, id);
    ExpectedRest(ms, n, id);
  }

  lemma {:induction false} SkipAndPlay(area: seq<Byte>, p: nat, ms: seq<seq<Action>>, n: nat, id: nat)
    requires Stand(area, p, ms, n)
    ensures SkipThenPlay(area, id, p) == Expected(ms, n, id)
    decreases |ms|
  {
    if ms == [] {
      PlayAmongZeros(area, p, n, id);
    } else if id == 0 {
      FirstOrLater(area, p, ms, n, id);
    } else {
      var q := p + |Serialize(ms[0])| + 1;
      TailStands(area, p, ms, n);
      SkipAndPlay(area, q, ms[1..], n, id - 1);
      LaterPlaysAsExpected(area, p, ms, n, id, q);
    }
  }

  /**
   On an area holding macros `ms` and `n` padding zeros, sending plays exactly the asked macro's
   actions; padding counts as empty macros. Only when the number asked for is that of all the nulls
   in the area does the decoder start behind its end.
   */
  lemma SendPlaysMacro(area: seq<Byte>, ms: seq<seq<Action>>, n: nat, count: nat, id: nat)
    requires WellFormedMacros(ms) && area == SerializeAll(ms) + Zeros(n) && area != []
    ensures Send(area, count, id) == if id >= count then NotSent else Expected(ms, n, id)
  {
    LastIsZero(ms, n);
    SkipAndPlay(area, 0, ms, n, id);
  }

  lemma {:induction false} LastIsZero(ms: seq<seq<Action>>, n: nat)
    requires WellFormedMacros(ms) && SerializeAll(ms) + Zeros(n) != []
    ensures var area := SerializeAll(ms) + Zeros(n); area[|area| - 1] == 0
    decreases |ms|
  {
    if n == 0 && |ms| > 1 {
      LastIsZero(ms[1..], n);
      assert SerializeAll(ms) + Zeros(n) == Serialize(ms[0]) + [0] + (SerializeAll(ms[1..]) + Zeros(n));
    }
  }

  /** Reading stays inside the area for a macro number in range exactly when it is not the number of nulls. */
  lemma StaysInAreaIff(area: seq<Byte>, ms: seq<seq<Action>>, n: nat, count: nat, id: nat)
    requires WellFormedMacros(ms) && area == SerializeAll(ms) + Zeros(n) && area != [] && id < count
    ensures !Send(area, count, id).PastEnd? <==> id != |ms| + n
  {
    SendPlaysMacro(area, ms, n, count, id);
  }

  /**
   A buffer filled to the last byte by fewer macros than the maximum is well formed,
   yet asking for the first macro that is not there reads past the end.
   */
  lemma FullBufferRunsPastEnd(ms: seq<seq<Action>>, count: nat)
    requires WellFormedMacros(ms) && 0 < |ms| < count
    ensures SerializeAll(ms) != [] && Send(SerializeAll(ms), count, |ms|) == PastEnd([])
  {
    var area := SerializeAll(ms);
    assert area + Zeros(0) == area;
    SendPlaysMacro(area, ms, 0, count, |ms|);
  }
}
