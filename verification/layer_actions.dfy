/**
 Layer keycodes: packed into 16-bit actions by `action_for_keycode`, unpacked and carried out
 by `process_action`, and what they are for, in terms of sets of layers.

 Words are naturals; `x >> k` is `x / 2^k` and `x & (2^k - 1)` is `x % 2^k`.
 */
module LayerActions {
  import opened Bits

  /** `action_layer` is a 5-bit field of the keycode. */
  type Layer = l: nat | l < 32

  /** `layer_state_t` is 8, 16 or 32 bits wide. */
  type Width = w: nat | w == 8 || w == 16 || w == 32 witness 8

  type Code = c: nat | c < 0x1_0000

  const ACT_LAYER: nat := 0x8
  const ACT_LAYER_TAP: nat := 0xA
  const ACT_LAYER_TAP_EXT: nat := 0xB

  /** `layer_bitop.on` is a set of two flags; 0 selects the default layer. */
  const ON_PRESS: nat := 1
  const ON_RELEASE: nat := 2

  const OP_BIT_AND: nat := 0
  const OP_BIT_OR: nat := 1
  const OP_BIT_XOR: nat := 2
  const OP_BIT_SET: nat := 3

  const OP_ON_OFF: nat := 0xF1
  const OP_OFF_ON: nat := 0xF2
  const OP_SET_CLEAR: nat := 0xF3

  const QK_TO: nat := 0x5200
  const QK_MOMENTARY: nat := 0x5220
  const QK_DEF_LAYER: nat := 0x5240
  const QK_TOGGLE_LAYER: nat := 0x5260
  const QK_TOGGLE_LAYER_MAX: nat := 0x527F

  // ---------------------------------------------------------------- packing

  /** `kind << 12 | param` */
  function Action(kind: nat, param: nat): nat {
    Or(kind * 0x1000, param)
  }

  function ActionLayerBitop(op: nat, part: nat, bits: nat, on: nat): nat {
    Action(ACT_LAYER, Or(Or(Or(op * 0x400, on * 0x100), part * 0x20), bits % 0x20))
  }

  function ActionLayerTap(layer: nat, code: nat): nat {
    Action(ACT_LAYER_TAP, Or(layer * 0x100, code))
  }

  predicate IsLayerKeycode(keycode: nat) {
    QK_TO <= keycode <= QK_TOGGLE_LAYER_MAX
  }

  /** `action_for_keycode` on TO, MO, DF and TG keycodes, which `keycode_config` leaves alone. */
  function ActionForKeycode(keycode: nat): nat
    requires IsLayerKeycode(keycode)
  {
    var layer := keycode % 0x20;
    if keycode < QK_MOMENTARY then ActionLayerBitop(OP_BIT_SET, layer / 4, Pow2(layer % 4), ON_PRESS)
    else if keycode < QK_DEF_LAYER then ActionLayerTap(layer, OP_ON_OFF)
    else if keycode < QK_TOGGLE_LAYER then ActionLayerBitop(OP_BIT_SET, layer / 4, Pow2(layer % 4), 0)
    else ActionLayerBitop(OP_BIT_XOR, layer / 4, Pow2(layer % 4), ON_RELEASE)
  }

  // ---------------------------------------------------------------- unpacking: the bit fields of `action_t`

  function KindId(action: nat): nat { action / 0x1000 }

  function BitopBits(action: nat): nat { action % 0x10 }

  function BitopXbit(action: nat): nat { action / 0x10 % 2 }

  function BitopPart(action: nat): nat { action / 0x20 % 8 }

  function BitopOn(action: nat): nat { action / 0x100 % 4 }

  function BitopOp(action: nat): nat { action / 0x400 % 4 }

  /** The low byte is `layer_tap.code`, `key.code` and `swap.code` alike. */
  function TapCode(action: nat): nat { action % 0x100 }

  function TapLayer(action: nat): Layer { action / 0x100 % 0x20 }

  /** `bits | mask` of the bitwise layer operations. */
  function BitopOperand(action: nat): nat {
    var shift := BitopPart(action) * 4;
    var mask := if BitopXbit(action) != 0 then Xor(Ones(32), Shl(0xF, shift)) else 0;
    Or(Shl(BitopBits(action), shift), mask)
  }

  function Combine(op: nat, state: nat, operand: nat): nat {
    if op == OP_BIT_AND then And(state, operand)
    else if op == OP_BIT_OR then Or(state, operand)
    else if op == OP_BIT_XOR then Xor(state, operand)
    else operand
  }

  // ---------------------------------------------------------------- carrying out

  datatype LayerWords = LayerWords(layers: nat, defaults: nat)

  /** What is left of a word stored in a `layer_state_t`. */
  function Truncate(w: Width, x: nat): nat {
    And(x, Ones(w))
  }

  /** `x & ~mask` */
  function Clear(x: nat, mask: nat): nat {
    And(x, Xor(Ones(32), mask))
  }

  predicate Answers(action: nat, pressed: bool) {
    BitopOn(action) == (if pressed then ON_PRESS else ON_RELEASE) || BitopOn(action) == ON_PRESS + ON_RELEASE
  }

  function ExecuteBitop(w: Width, s: LayerWords, action: nat, pressed: bool): LayerWords {
    if BitopOn(action) == 0 then
      if pressed then s else s.(defaults := Truncate(w, Combine(BitopOp(action), s.defaults, BitopOperand(action))))
    else if Answers(action, pressed) then
      s.(layers := Truncate(w, Combine(BitopOp(action), s.layers, BitopOperand(action))))
    else s
  }

  function ExecuteTap(w: Width, s: LayerWords, action: nat, pressed: bool): LayerWords {
    var m := Pow2(TapLayer(action));
    var code := TapCode(action);
    if code == OP_ON_OFF then s.(layers := Truncate(w, if pressed then Or(s.layers, m) else Clear(s.layers, m)))
    else if code == OP_OFF_ON then s.(layers := Truncate(w, if pressed then Clear(s.layers, m) else Or(s.layers, m)))
    else if code == OP_SET_CLEAR then s.(layers := Truncate(w, if pressed then m else 0))
    else s
  }

  /** What `process_action` does to the two layer words. */
  function Execute(w: Width, s: LayerWords, action: nat, pressed: bool): LayerWords {
    if KindId(action) == ACT_LAYER then ExecuteBitop(w, s, action, pressed)
    else if KindId(action) == ACT_LAYER_TAP || KindId(action) == ACT_LAYER_TAP_EXT then
        ExecuteTap(w, s, action, pressed)
    else s
  }

  /** The two globals, updated in place. */
  class LayerState {
    const width: Width
    var layerState: nat
    var defaultLayerState: nat

    function Words(): LayerWords
      reads this
    {
      LayerWords(layerState, defaultLayerState)
    }

    constructor (width: Width)
      ensures Words() == LayerWords(0, 0) && this.width == width
    {
      this.width := width;
      layerState, defaultLayerState := 0, 0;
    }

    method LayerStateSet(state: nat)
      modifies this
      ensures Words() == old(Words()).(layers := Truncate(width, state))
    {
      layerState := Truncate(width, state);
    }

    method DefaultLayerSet(state: nat)
      modifies this
      ensures Words() == old(Words()).(defaults := Truncate(width, state))
    {
      defaultLayerState := Truncate(width, state);
    }

    /** The layer cases of `process_action`. */
    method ProcessAction(action: nat, pressed: bool)
      modifies this
      ensures Words() == Execute(width, old(Words()), action, pressed)
    {
      if KindId(action) == ACT_LAYER {
        if BitopOn(action) == 0 {
          if !pressed {
            DefaultLayerSet(Combine(BitopOp(action), defaultLayerState, BitopOperand(action)));
          }
        } else if Answers(action, pressed) {
          LayerStateSet(Combine(BitopOp(action), layerState, BitopOperand(action)));
        }
      } else if KindId(action) == ACT_LAYER_TAP || KindId(action) == ACT_LAYER_TAP_EXT {
        var m := Pow2(TapLayer(action));
        if TapCode(action) == OP_ON_OFF {
          LayerStateSet(if pressed then Or(layerState, m) else Clear(layerState, m));
        } else if TapCode(action) == OP_OFF_ON {
          LayerStateSet(if pressed then Clear(layerState, m) else Or(layerState, m));
        } else if TapCode(action) == OP_SET_CLEAR {
          LayerStateSet(if pressed then m else 0);
        }
      }
    }
  }

  // ---------------------------------------------------------------- what the keycodes mean

  datatype LayerKey = TO(layer: Layer) | MO(layer: Layer) | DF(layer: Layer) | TG(layer: Layer)

  function KeycodeOf(k: LayerKey): Code {
    match k
    case TO(l) => QK_TO + l
    case MO(l) => QK_MOMENTARY + l
    case DF(l) => QK_DEF_LAYER + l
    case TG(l) => QK_TOGGLE_LAYER + l
  }

  /** Which layers are on, and which are default layers. */
  datatype LayerSets = LayerSets(layers: set<nat>, defaults: set<nat>)

  /** TO: on press, this layer alone. MO: on while held. TG: flipped on release. DF: on release, the only default. */
  function Meaning(s: LayerSets, k: LayerKey, pressed: bool): LayerSets {
    match k
    case TO(l) => if pressed then LayerSets({l}, s.defaults) else s
    case MO(l) => LayerSets(if pressed then s.layers + {l} else s.layers - {l}, s.defaults)
    case DF(l) => if pressed then s else LayerSets(s.layers, {l})
    case TG(l) => if pressed then s else LayerSets(if l in s.layers then s.layers - {l} else s.layers + {l}, s.defaults)
  }

  function LayerSet(x: nat): set<nat> {
    set i: nat | i < 32 && Bit(x, i)
  }

  function SetsOf(s: LayerWords): LayerSets {
    LayerSets(LayerSet(s.layers), LayerSet(s.defaults))
  }

  /** The words hold nothing beyond their width. */
  ghost predicate WithinWidth(w: Width, x: nat) {
    forall i: nat :: i >= w ==> !Bit(x, i)
  }

  ghost predicate WordsWithinWidth(w: Width, s: LayerWords) {
    WithinWidth(w, s.layers) && WithinWidth(w, s.defaults)
  }

  // ---------------------------------------------------------------- single bits

  lemma BitTruncate(w: Width, x: nat, i: nat)
    ensures Bit(Truncate(w, x), i) <==> i < w && Bit(x, i)
  {
    BitAnd(x, Ones(w), i);
    BitOnes(w, i);
  }

  lemma TruncateWithin(w: Width, x: nat)
    ensures WithinWidth(w, Truncate(w, x))
  {
    forall i: nat | i >= w ensures !Bit(Truncate(w, x), i) {
      BitTruncate(w, x, i);
    }
  }

  lemma BitClear(x: nat, l: Layer, i: nat)
    requires i < 32
    ensures Bit(Clear(x, Pow2(l)), i) <==> Bit(x, i) && i != l
  {
    BitAnd(x, Xor(Ones(32), Pow2(l)), i);
    BitXor(Ones(32), Pow2(l), i);
    BitOnes(32, i);
    BitPow2(l, i);
  }

  /** In a bitwise action, four layers get their own bit and all others the extra bit. */
  predicate OperandBit(action: nat, i: nat) {
    if i / 4 == BitopPart(action) then Bit(BitopBits(action), i % 4) else BitopXbit(action) != 0
  }

  /** A 4-bit field shifted to its part covers the four bits of that part. */
  lemma NibbleBits(x: nat, part: nat, i: nat)
    requires x < 0x10
    ensures Bit(Shl(x, part * 4), i) <==> i / 4 == part && Bit(x, i % 4)
  {
    BitShifted(x, part * 4, i);
    if i >= part * 4 + 4 {
      assert Pow2(4) == 0x10 by { assert Pow2(2) == 4; }
      SmallBits(x, 4, i - part * 4);
    }
  }

  lemma FullNibble(i: nat)
    requires i < 4
    ensures Bit(0xF, i)
  {
    assert Ones(4) == 0xF by { assert Ones(2) == 3; }
    BitOnes(4, i);
  }

  lemma BitComplement(y: nat, i: nat)
    requires i < 32
    ensures Bit(Xor(Ones(32), y), i) <==> !Bit(y, i)
  {
    BitXor(Ones(32), y, i);
    BitOnes(32, i);
  }

  lemma BitopOperandBits(action: nat, i: nat)
    requires i < 32
    ensures Bit(BitopOperand(action), i) <==> OperandBit(action, i)
  {
    var part := BitopPart(action);
    var bits := BitopBits(action);
    NibbleBits(bits, part, i);
    var own, others := Shl(bits, part * 4), Shl(0xF, part * 4);
    if BitopXbit(action) != 0 {
      NibbleBits(0xF, part, i);
      FullNibble(i % 4);
      BitComplement(others, i);
      BitOr(own, Xor(Ones(32), others), i);
    } else {
      BitOr(own, 0, i);
      BitZero(i);
    }
  }

  /** What a bitwise operation makes of one layer. */
  function CombinedBit(op: nat, was: bool, arg: bool): bool {
    if op == OP_BIT_AND then was && arg
    else if op == OP_BIT_OR then was || arg
    else if op == OP_BIT_XOR then was != arg
    else arg
  }

  lemma CombineBits(w: Width, action: nat, state: nat, i: nat)
    requires i < w
    ensures Bit(Truncate(w, Combine(BitopOp(action), state, BitopOperand(action))), i) <==>
            CombinedBit(BitopOp(action), Bit(state, i), OperandBit(action, i))
  {
    var operand := BitopOperand(action);
    BitopOperandBits(action, i);
    BitTruncate(w, Combine(BitopOp(action), state, operand), i);
    BitAnd(state, operand, i);
    BitOr(state, operand, i);
    BitXor(state, operand, i);
  }

  /**
   The meaning of any bitwise layer action, layer by layer: it acts on the default layers on release if it names
   no edge, else on the layers on the edges it names, and leaves everything else as it was.
   */
  lemma BitopMeaning(w: Width, s: LayerWords, action: nat, pressed: bool, i: nat)
    requires i < w
    ensures var s', op, arg := ExecuteBitop(w, s, action, pressed), BitopOp(action), OperandBit(action, i);
      var onLayers, onDefaults := NamesEdge(BitopOn(action), pressed), BitopOn(action) == 0 && !pressed;
      && (Bit(s'.layers, i) <==> if onLayers then CombinedBit(op, Bit(s.layers, i), arg) else Bit(s.layers, i))
      && (Bit(s'.defaults, i) <==> if onDefaults then CombinedBit(op, Bit(s.defaults, i), arg) else Bit(s.defaults, i))
      && (!onLayers ==> s'.layers == s.layers) && (!onDefaults ==> s'.defaults == s.defaults)
  {
    AnswersIff(action, pressed);
    if BitopOn(action) == 0 {
      CombineBits(w, action, s.defaults, i);
    } else {
      CombineBits(w, action, s.layers, i);
    }
  }

  /** Bit 0 of `on` names the press, bit 1 the release. */
  predicate NamesEdge(on: nat, pressed: bool) {
    if pressed then on == 1 || on == 3 else on == 2 || on == 3
  }

  lemma AnswersIff(action: nat, pressed: bool)
    ensures BitopOn(action) != 0 ==> (Answers(action, pressed) <==> NamesEdge(BitopOn(action), pressed))
    ensures BitopOn(action) == 0 ==> !NamesEdge(BitopOn(action), pressed)
  {
  }

  // ---------------------------------------------------------------- packing and unpacking

  lemma SmallPow2(n: nat)
    requires n < 4
    ensures Pow2(n) == if n == 0 then 1 else if n == 1 then 2 else if n == 2 then 4 else 8
  {
    assert Pow2(1) == 2;
    assert Pow2(2) == 4;
  }

  lemma FieldWidths()
    ensures Pow2(5) == 0x20 && Pow2(8) == 0x100 && Pow2(10) == 0x400 && Pow2(12) == 0x1000 && Pow2(13) == 0x2000
  {
    assert Pow2(4) == 2 * Pow2(3);
    assert Pow2(6) == 2 * Pow2(5);
    assert Pow2(7) == 2 * Pow2(6);
    assert Pow2(9) == 2 * Pow2(8);
    assert Pow2(11) == 2 * Pow2(10);
  }

  /** `|` of a field at weight `w` and what lies below it. */
  lemma JoinFields(x: nat, w: nat, y: nat)
    requires y < w
    requires w == 0x20 || w == 0x100 || w == 0x400 || w == 0x1000 || w == 0x2000
    ensures Or(x * w, y) == x * w + y
  {
    FieldWidths();
    OrIsSum(x, if w == 0x20 then 5 else if w == 0x100 then 8
                   else if w == 0x400 then 10 else if w == 0x1000 then 12 else 13, y);
  }

  lemma BitopParamIsSum(op: nat, part: nat, bits: nat, on: nat)
    requires op < 4 && part < 8 && bits < 16 && on < 4
    ensures Or(Or(Or(op * 0x400, on * 0x100), part * 0x20), bits) == op * 0x400 + on * 0x100 + part * 0x20 + bits
  {
    var x := op * 4 + on;
    var y := x * 8 + part;
    assert Or(op * 0x400, on * 0x100) == x * 0x100 by { JoinFields(op, 0x400, on * 0x100); }
    assert Or(x * 0x100, part * 0x20) == y * 0x20 by { JoinFields(x, 0x100, part * 0x20); }
    JoinFields(y, 0x20, bits);
  }

  lemma TapIsSum(layer: Layer, code: nat)
    requires code < 0x100
    ensures ActionLayerTap(layer, code) == 0xA000 + layer * 0x100 + code
  {
    JoinFields(layer, 0x100, code);
    JoinFields(5, 0x2000, layer * 0x100 + code);
  }

  lemma BitopIsSum(op: nat, part: nat, bits: nat, on: nat)
    requires op < 4 && part < 8 && bits < 16 && on < 4
    ensures ActionLayerBitop(op, part, bits, on) == 0x8000 + op * 0x400 + on * 0x100 + part * 0x20 + bits
  {
    var low := bits % 0x20;
    var sum := op * 0x400 + on * 0x100 + part * 0x20 + bits;
    assert low == bits && sum < 0x1000;
    BitopParamIsSum(op, part, low, on);
    KindAbove(sum);
  }

  lemma KindAbove(param: nat)
    requires param < 0x1000
    ensures Action(ACT_LAYER, param) == 0x8000 + param
  {
    JoinFields(8, 0x1000, param);
  }

  lemma BitopFields(op: nat, part: nat, bits: nat, on: nat)
    requires op < 4 && part < 8 && bits < 16 && on < 4
    ensures var a := ActionLayerBitop(op, part, bits, on);
      && KindId(a) == ACT_LAYER && BitopOp(a) == op && BitopOn(a) == on
      && BitopPart(a) == part && BitopXbit(a) == 0 && BitopBits(a) == bits
  {
    BitopIsSum(op, part, bits, on);
    FieldsOfSum(op, part, bits, on, ActionLayerBitop(op, part, bits, on));
  }

  lemma FieldsOfSum(op: nat, part: nat, bits: nat, on: nat, a: nat)
    requires op < 4 && part < 8 && bits < 16 && on < 4
    requires a == 0x8000 + op * 0x400 + on * 0x100 + part * 0x20 + bits
    ensures KindId(a) == ACT_LAYER && BitopOp(a) == op && BitopOn(a) == on
    ensures BitopPart(a) == part && BitopXbit(a) == 0 && BitopBits(a) == bits
  {
    assert a / 0x10 == 0x800 + op * 0x40 + on * 0x10 + part * 2;
    assert a / 0x20 == 0x400 + op * 0x20 + on * 8 + part;
    assert a / 0x100 == 0x80 + op * 4 + on;
    assert a / 0x400 == 0x20 + op;
  }

  /** The nibble and part of a packed layer put the one bit back where it came from. */
  lemma PackedBitop(layer: Layer, op: nat, on: nat, i: nat)
    requires op < 4 && on < 4 && i < 32
    ensures var a := ActionLayerBitop(op, layer / 4, Pow2(layer % 4), on);
      && KindId(a) == ACT_LAYER && BitopOp(a) == op && BitopOn(a) == on
      && (OperandBit(a, i) <==> i == layer)
  {
    SmallPow2(layer % 4);
    BitopFields(op, layer / 4, Pow2(layer % 4), on);
    BitPow2(layer % 4, i % 4);
    assert i == i / 4 * 4 + i % 4 && layer == layer / 4 * 4 + layer % 4;
  }

  /** Layers 16 to 31 spill into the kind field, where ACT_LAYER_TAP_EXT catches them. */
  lemma PackedTap(layer: Layer)
    ensures var a := ActionLayerTap(layer, OP_ON_OFF);
      && KindId(a) == (if layer < 16 then ACT_LAYER_TAP else ACT_LAYER_TAP_EXT)
      && TapLayer(a) == layer && TapCode(a) == OP_ON_OFF
  {
    TapIsSum(layer, OP_ON_OFF);
    TapFields(layer, ActionLayerTap(layer, OP_ON_OFF));
  }

  lemma TapFields(layer: Layer, a: nat)
    requires a == 0xA000 + layer * 0x100 + OP_ON_OFF
    ensures KindId(a) == (if layer < 16 then ACT_LAYER_TAP else ACT_LAYER_TAP_EXT)
    ensures TapLayer(a) == layer && TapCode(a) == OP_ON_OFF
  {
    assert a / 0x100 == 0xA0 + layer;
    assert a / 0x1000 == (0xA0 + layer) / 0x10;
  }

  // ---------------------------------------------------------------- one key event

  /** How one key event changes whether layer `i` is on. */
  predicate NextOn(was: bool, k: LayerKey, pressed: bool, i: nat) {
    match k
    case TO(l) => if pressed then i == l else was
    case MO(l) => if pressed then was || i == l else was && i != l
    case DF(_) => was
    case TG(l) => if pressed then was else was != (i == l)
  }

  lemma TapKeyBits(w: Width, s: LayerWords, l: Layer, pressed: bool, i: nat)
    requires i < 32
    ensures var s' := Execute(w, s, ActionLayerTap(l, OP_ON_OFF), pressed);
      && s'.defaults == s.defaults
      && (Bit(s'.layers, i) <==> i < w && if pressed then Bit(s.layers, i) || i == l else Bit(s.layers, i) && i != l)
  {
    PackedTap(l);
    BitTruncate(w, Or(s.layers, Pow2(l)), i);
    BitTruncate(w, Clear(s.layers, Pow2(l)), i);
    BitOr(s.layers, Pow2(l), i);
    BitPow2(l, i);
    BitClear(s.layers, l, i);
  }

  lemma BitopKeyBits(w: Width, s: LayerWords, l: Layer, op: nat, on: nat, pressed: bool, i: nat)
    requires op == OP_BIT_SET || op == OP_BIT_XOR
    requires on == 0 || on == ON_PRESS || on == ON_RELEASE
    requires i < w
    ensures var s' := Execute(w, s, ActionLayerBitop(op, l / 4, Pow2(l % 4), on), pressed);
      var was := if on == 0 then Bit(s.defaults, i) else Bit(s.layers, i);
      var now := if on == 0 then Bit(s'.defaults, i) else Bit(s'.layers, i);
      var acts := if on == ON_PRESS then pressed else !pressed;
      && (if on == 0 then s'.layers == s.layers else s'.defaults == s.defaults)
      && (if acts then now == if op == OP_BIT_SET then i == l else was != (i == l) else s' == s)
  {
    PackedBitop(l, op, on, i);
    var a := ActionLayerBitop(op, l / 4, Pow2(l % 4), on);
    var x := if on == 0 then s.defaults else s.layers;
    BitopOperandBits(a, i);
    BitTruncate(w, Combine(op, x, BitopOperand(a)), i);
    BitXor(x, BitopOperand(a), i);
  }

  lemma ExecuteWithin(w: Width, s: LayerWords, action: nat, pressed: bool)
    requires WordsWithinWidth(w, s)
    ensures WordsWithinWidth(w, Execute(w, s, action, pressed))
  {
    if KindId(action) == ACT_LAYER {
      TruncateWithin(w, Combine(BitopOp(action), s.defaults, BitopOperand(action)));
      TruncateWithin(w, Combine(BitopOp(action), s.layers, BitopOperand(action)));
    } else {
      var m := Pow2(TapLayer(action));
      TruncateWithin(w, Or(s.layers, m));
      TruncateWithin(w, Clear(s.layers, m));
      TruncateWithin(w, m);
      TruncateWithin(w, 0);
    }
  }

  lemma KeyBits(w: Width, s: LayerWords, k: LayerKey, pressed: bool, i: nat)
    requires i < w
    ensures var s' := Execute(w, s, ActionForKeycode(KeycodeOf(k)), pressed);
      && (Bit(s'.layers, i) <==> NextOn(Bit(s.layers, i), k, pressed, i))
      && (Bit(s'.defaults, i) <==> if k.DF? && !pressed then i == k.layer else Bit(s.defaults, i))
  {
    assert KeycodeOf(k) % 0x20 == k.layer;
    match k
    case TO(l) => BitopKeyBits(w, s, l, OP_BIT_SET, ON_PRESS, pressed, i);
    case MO(l) => TapKeyBits(w, s, l, pressed, i);
    case DF(l) => BitopKeyBits(w, s, l, OP_BIT_SET, 0, pressed, i);
    case TG(l) => BitopKeyBits(w, s, l, OP_BIT_XOR, ON_RELEASE, pressed, i);
  }

  lemma SetFromBits(w: Width, x: nat, layers: set<nat>)
    requires WithinWidth(w, x)
    requires forall i: nat :: i < w ==> (Bit(x, i) <==> i in layers)
    requires forall i :: i in layers ==> i < w
    ensures LayerSet(x) == layers
  {
  }

  /** Compiling a layer key and carrying out its action does what the key means, for every layer that fits. */
  lemma KeyMeaning(w: Width, s: LayerWords, k: LayerKey, pressed: bool)
    requires WordsWithinWidth(w, s) && k.layer < w
    ensures var s' := Execute(w, s, ActionForKeycode(KeycodeOf(k)), pressed);
      WordsWithinWidth(w, s') && SetsOf(s') == Meaning(SetsOf(s), k, pressed)
  {
    var s' := Execute(w, s, ActionForKeycode(KeycodeOf(k)), pressed);
    ExecuteWithin(w, s, ActionForKeycode(KeycodeOf(k)), pressed);
    forall i: nat | i < w
      ensures Bit(s'.layers, i) <==> NextOn(Bit(s.layers, i), k, pressed, i)
      ensures Bit(s'.defaults, i) <==> if k.DF? && !pressed then i == k.layer else Bit(s.defaults, i)
    {
      KeyBits(w, s, k, pressed, i);
    }
    var m := Meaning(SetsOf(s), k, pressed);
    SetFromBits(w, s'.layers, m.layers);
    SetFromBits(w, s'.defaults, m.defaults);
  }

  /**
   The layer actions with a code of their own: on while held, off while held, and this layer alone while held.
   Any other code is not for layers and leaves the words alone.
   */
  lemma LayerTapMeaning(w: Width, s: LayerWords, l: Layer, code: nat, pressed: bool)
    requires WordsWithinWidth(w, s) && l < w && code < 0x100
    ensures var s' := Execute(w, s, ActionLayerTap(l, code), pressed);
      && WordsWithinWidth(w, s') && SetsOf(s').defaults == SetsOf(s).defaults
      && SetsOf(s').layers == LayersByCode(code, SetsOf(s).layers, l, pressed)
  {
    var a := ActionLayerTap(l, code);
    var s' := Execute(w, s, a, pressed);
    TapIsSum(l, code);
    TapCodeFields(l, code, a);
    ExecuteWithin(w, s, a, pressed);
    var layers := LayersByCode(code, SetsOf(s).layers, l, pressed);
    forall i: nat | i < w ensures Bit(s'.layers, i) <==> i in layers {
      LayerTapBits(w, s, a, pressed, i);
    }
    SetFromBits(w, s'.layers, layers);
  }

  function LayersByCode(code: nat, layers: set<nat>, l: nat, pressed: bool): set<nat> {
    if code == 0xF1 then (if pressed then layers + {l} else layers - {l})
    else if code == 0xF2 then (if pressed then layers - {l} else layers + {l})
    else if code == 0xF3 then (if pressed then {l} else {})
    else layers
  }

  lemma TapCodeFields(l: Layer, code: nat, a: nat)
    requires code < 0x100 && a == 0xA000 + l * 0x100 + code
    ensures TapLayer(a) == l && TapCode(a) == code && (KindId(a) == 0xA || KindId(a) == 0xB)
  {
  }

  lemma LayerTapBits(w: Width, s: LayerWords, a: nat, pressed: bool, i: nat)
    requires i < w
    ensures var now, was, l := Bit(ExecuteTap(w, s, a, pressed).layers, i), Bit(s.layers, i), TapLayer(a);
      now <==>
        if TapCode(a) == 0xF1 then (if pressed then was || i == l else was && i != l)
        else if TapCode(a) == 0xF2 then (if pressed then was && i != l else was || i == l)
        else if TapCode(a) == 0xF3 then pressed && i == l
        else was
  {
    var l := TapLayer(a);
    BitTruncate(w, Or(s.layers, Pow2(l)), i);
    BitTruncate(w, Clear(s.layers, Pow2(l)), i);
    BitTruncate(w, Pow2(l), i);
    BitTruncate(w, 0, i);
    BitOr(s.layers, Pow2(l), i);
    BitPow2(l, i);
    BitClear(s.layers, l, i);
    BitZero(i);
  }

  // ---------------------------------------------------------------- sequences of key events

  function ExecuteAll(w: Width, s: LayerWords, es: seq<(LayerKey, bool)>): LayerWords {
    if es == [] then s
    else Execute(w, ExecuteAll(w, s, es[..|es| - 1]), ActionForKeycode(KeycodeOf(es[|es| - 1].0)), es[|es| - 1].1)
  }

  function MeaningAll(s: LayerSets, es: seq<(LayerKey, bool)>): LayerSets {
    if es == [] then s
    else Meaning(MeaningAll(s, es[..|es| - 1]), es[|es| - 1].0, es[|es| - 1].1)
  }

  /** Any sequence of layer key events leaves the words holding exactly the sets the keys describe. */
  lemma {:induction false} SequenceMeaning(w: Width, s: LayerWords, es: seq<(LayerKey, bool)>)
    requires WordsWithinWidth(w, s)
    requires forall i :: 0 <= i < |es| ==> es[i].0.layer < w
    ensures WordsWithinWidth(w, ExecuteAll(w, s, es))
    ensures SetsOf(ExecuteAll(w, s, es)) == MeaningAll(SetsOf(s), es)
  {
    if es != [] {
      SequenceMeaning(w, s, es[..|es| - 1]);
      KeyMeaning(w, ExecuteAll(w, s, es[..|es| - 1]), es[|es| - 1].0, es[|es| - 1].1);
    }
  }

  /** The sets determine the words, so nothing else about the words can matter. */
  lemma SetsDetermineWords(w: Width, s: LayerWords, t: LayerWords)
    requires WordsWithinWidth(w, s) && WordsWithinWidth(w, t) && SetsOf(s) == SetsOf(t)
    ensures s == t
  {
    forall i: nat ensures Bit(s.layers, i) == Bit(t.layers, i) && Bit(s.defaults, i) == Bit(t.defaults, i) {
      if i < 32 {
        assert i in SetsOf(s).layers <==> i in SetsOf(t).layers;
        assert i in SetsOf(s).defaults <==> i in SetsOf(t).defaults;
      }
    }
    SameBits(s.layers, t.layers);
    SameBits(s.defaults, t.defaults);
  }

  /** Two sequences of layer keys leave the very same words exactly when they mean the same. */
  lemma SameWordsIff(w: Width, s: LayerWords, es: seq<(LayerKey, bool)>, fs: seq<(LayerKey, bool)>)
    requires WordsWithinWidth(w, s)
    requires forall i :: 0 <= i < |es| ==> es[i].0.layer < w
    requires forall i :: 0 <= i < |fs| ==> fs[i].0.layer < w
    ensures ExecuteAll(w, s, es) == ExecuteAll(w, s, fs) <==> MeaningAll(SetsOf(s), es) == MeaningAll(SetsOf(s), fs)
  {
    SequenceMeaning(w, s, es);
    SequenceMeaning(w, s, fs);
    if MeaningAll(SetsOf(s), es) == MeaningAll(SetsOf(s), fs) {
      SetsDetermineWords(w, ExecuteAll(w, s, es), ExecuteAll(w, s, fs));
    }
  }
}
