/**
 Which keycodes make tap-hold keys, and which releases have to wait for the tapping key: the keycodes of
 `action_for_keycode` that concern tapping, and what `is_tap_action` and the tapping code make of their actions.
 */
module TapKeys {
  import opened Bits
  import opened Tapping
  import opened LayerActions

  type Basic = c: nat | c < 0x100

  /** Five modifier bits, the highest one meaning the right hand. */
  type Mods = m: nat | m < 0x20

  datatype Keycode =
    | Plain(code: Basic)
    | WithMods(mods: Mods, code: Basic)
    | ModTap(mods: Mods, code: Basic)
    | LayerTap(layer: Layer, code: Basic)
    | OneShotLayer(layer: Layer)
    | OneShotMod(mods: Mods)
    | LayerTapToggle(layer: Layer)
    | LayerKeycode(key: LayerKey)
    | SwapHands(code: Basic)

  /** `action_for_keycode`, where `keycode_config` and `mod_config` change nothing. */
  function ActionOf(k: Keycode): nat {
    match k
    case Plain(code) => Action(0, code)
    case WithMods(mods, code) => Action(0, Or(mods * 0x100, code))
    case ModTap(mods, code) => Action(2, Or(mods * 0x100, code))
    case LayerTap(layer, code) => ActionLayerTap(layer, code)
    case OneShotLayer(layer) => ActionLayerTap(layer, 0xF4)
    case OneShotMod(mods) => Action(2, Or(mods * 0x100, 0))
    case LayerTapToggle(layer) => ActionLayerTap(layer, 0xF0)
    case LayerKeycode(key) => ActionForKeycode(KeycodeOf(key))
    case SwapHands(code) => Action(6, code)
  }

  /** The three fields of an action that is no bitwise layer action: kind, modifiers or layer, and code. */
  ghost predicate HasFields(a: nat, kind: nat, high: nat, code: nat) {
    KindId(a) == kind && ActionMods(a) == high && TapCode(a) == code
  }

  lemma FieldsOfNumber(kind: nat, high: nat, code: Basic)
    requires kind < 16 && high < 16
    ensures HasFields(kind * 0x1000 + high * 0x100 + code, kind, high, code)
  {
  }

  /** With the right-hand bit set, the lowest bit of an even kind is set. */
  lemma SpilledKind(kind: nat, low: nat)
    requires kind < 16 && kind % 2 == 0 && low < 0x2000
    ensures Action(kind, low) == kind * 0x1000 + low
  {
    FieldWidths();
    assert kind * 0x1000 == kind / 2 * 0x2000;
    OrIsSum(kind / 2, 13, low);
  }

  lemma ModsFields(kind: nat, mods: Mods, code: Basic)
    requires kind == 0 || kind == 2
    ensures HasFields(Action(kind, Or(mods * 0x100, code)), kind + mods / 16, mods % 16, code)
  {
    FieldWidths();
    JoinFields(mods, 0x100, code);
    SpilledKind(kind, mods * 0x100 + code);
    assert kind * 0x1000 + mods * 0x100 + code == (kind + mods / 16) * 0x1000 + mods % 16 * 0x100 + code;
    FieldsOfNumber(kind + mods / 16, mods % 16, code);
  }

  lemma PlainFields(kind: nat, code: Basic)
    requires kind < 16
    ensures HasFields(Action(kind, code), kind, 0, code)
  {
    FieldWidths();
    JoinFields(kind, 0x1000, code);
    FieldsOfNumber(kind, 0, code);
  }

  lemma LayerFields(layer: Layer, code: Basic)
    ensures HasFields(ActionLayerTap(layer, code), 0xA + layer / 16, layer % 16, code)
  {
    TapIsSum(layer, code);
    assert 0xA000 + layer * 0x100 + code == (0xA + layer / 16) * 0x1000 + layer % 16 * 0x100 + code;
    FieldsOfNumber(0xA + layer / 16, layer % 16, code);
  }

  /** TO, DF and TG are bitwise actions, MO is an on/off one. */
  lemma LayerKeyFields(key: LayerKey)
    ensures var a := ActionOf(LayerKeycode(key));
      if key.MO? then HasFields(a, 0xA + key.layer / 16, key.layer % 16, 0xF1) else KindId(a) == 8
  {
    CompiledLayerKey(key);
    if key.MO? {
      MoAction(key.layer);
    } else {
      BitAction(key.layer, OP_BIT_SET, ON_PRESS);
      BitAction(key.layer, OP_BIT_SET, 0);
      BitAction(key.layer, OP_BIT_XOR, ON_RELEASE);
    }
  }

  lemma CompiledLayerKey(key: LayerKey)
    ensures var l := key.layer;
      ActionForKeycode(KeycodeOf(key)) ==
        match key
        case TO(_) => ActionLayerBitop(OP_BIT_SET, l / 4, Pow2(l % 4), ON_PRESS)
        case MO(_) => ActionLayerTap(l, OP_ON_OFF)
        case DF(_) => ActionLayerBitop(OP_BIT_SET, l / 4, Pow2(l % 4), 0)
        case TG(_) => ActionLayerBitop(OP_BIT_XOR, l / 4, Pow2(l % 4), ON_RELEASE)
  {
    assert KeycodeOf(key) % 0x20 == key.layer;
  }

  lemma MoAction(l: Layer)
    ensures HasFields(ActionLayerTap(l, OP_ON_OFF), 0xA + l / 16, l % 16, 0xF1)
  {
    LayerFields(l, 0xF1);
  }

  lemma BitAction(l: Layer, op: nat, on: nat)
    requires op < 4 && on < 4
    ensures KindId(ActionLayerBitop(op, l / 4, Pow2(l % 4), on)) == 8
  {
    PackedBitop(l, op, on, 0);
  }

  /** What `is_tap_action` makes of the fields. */
  lemma TapByFields(a: nat, kind: nat, high: nat, code: nat)
    requires HasFields(a, kind, high, code)
    ensures IsTapAction(a) <==>
            if kind == 2 || kind == 3 || kind == 10 || kind == 11 then code <= 0xE7 || code == 0xF0 || code == 0xF4
            else kind == 6 && (code <= 0xE7 || code == 0xF1)
  {
  }

  /** What makes a release wait, by the fields. */
  lemma HeldBackByFields(a: nat, kind: nat, high: nat, code: nat, count: TapCount)
    requires HasFields(a, kind, high, code) && code < 0x100
    ensures IsRetainedAction(a, count) <==>
            if kind <= 1 then (high != 0 && code == 0) || 0xE0 <= code <= 0xE7
            else if kind <= 3 then (high != 0 && count == 0) || 0xE0 <= code <= 0xE7
            else (kind == 10 || kind == 11) && (code < 0xF0 || 0xF1 <= code <= 0xF3)
  {
  }

  /** The fields of every keycode that is not TO, DF or TG. */
  function KindOf(k: Keycode): nat {
    match k
    case Plain(_) => 0
    case WithMods(mods, _) => mods / 16
    case ModTap(mods, _) => 2 + mods / 16
    case LayerTap(layer, _) => 10 + layer / 16
    case OneShotLayer(layer) => 10 + layer / 16
    case OneShotMod(mods) => 2 + mods / 16
    case LayerTapToggle(layer) => 10 + layer / 16
    case LayerKeycode(key) => 10 + key.layer / 16
    case SwapHands(_) => 6
  }

  function HighOf(k: Keycode): nat {
    match k
    case Plain(_) => 0
    case WithMods(mods, _) => mods % 16
    case ModTap(mods, _) => mods % 16
    case LayerTap(layer, _) => layer % 16
    case OneShotLayer(layer) => layer % 16
    case OneShotMod(mods) => mods % 16
    case LayerTapToggle(layer) => layer % 16
    case LayerKeycode(key) => key.layer % 16
    case SwapHands(_) => 0
  }

  function CodeOf(k: Keycode): Basic {
    match k
    case Plain(code) => code
    case WithMods(_, code) => code
    case ModTap(_, code) => code
    case LayerTap(_, code) => code
    case OneShotLayer(_) => 0xF4
    case OneShotMod(_) => 0
    case LayerTapToggle(_) => 0xF0
    case LayerKeycode(_) => 0xF1
    case SwapHands(code) => code
  }

  predicate IsBitwise(k: Keycode) {
    k.LayerKeycode? && !k.key.MO?
  }

  lemma FieldsOf(k: Keycode)
    ensures if IsBitwise(k) then KindId(ActionOf(k)) == 8 else HasFields(ActionOf(k), KindOf(k), HighOf(k), CodeOf(k))
  {
    match k
    case Plain(code) => PlainFields(0, code);
    case WithMods(mods, code) => ModsFields(0, mods, code);
    case ModTap(mods, code) => ModsFields(2, mods, code);
    case LayerTap(layer, code) => LayerFields(layer, code);
    case OneShotLayer(layer) => LayerFields(layer, 0xF4);
    case OneShotMod(mods) => ModsFields(2, mods, 0);
    case LayerTapToggle(layer) => LayerFields(layer, 0xF0);
    case LayerKeycode(key) => LayerKeyFields(key);
    case SwapHands(code) => PlainFields(6, code);
  }

  /**
   Mod-taps and layer-taps with a key that can be tapped, one-shot keys and the tap toggle are tap-hold keys, and so
   are swap-hands keys with such a key; plain keys, keys with modifiers and the other layer keys are not.
   */
  lemma TapHoldKeys(k: Keycode)
    ensures IsTapAction(ActionOf(k)) <==>
      match k
      case Plain(_) => false
      case WithMods(_, _) => false
      case ModTap(_, code) => code <= 0xE7 || code == 0xF0 || code == 0xF4
      case LayerTap(_, code) => code <= 0xE7 || code == 0xF0 || code == 0xF4
      case OneShotLayer(_) => true
      case OneShotMod(_) => true
      case LayerTapToggle(_) => true
      case LayerKeycode(_) => false
      case SwapHands(code) => code <= 0xE7 || code == 0xF1
  {
    FieldsOf(k);
    if !IsBitwise(k) {
      TapByFields(ActionOf(k), KindOf(k), HighOf(k), CodeOf(k));
    }
  }

  predicate IsModifierKey(code: Basic) {
    0xE0 <= code <= 0xE7
  }

  /**
   Released while another key is undecided, what must not be let go yet is held back: modifiers, by themselves or as
   what a mod-tap was held for, and keys that hold a layer. Everything else is let go at once.
   */
  lemma HeldBackKeys(k: Keycode, count: TapCount)
    ensures IsRetainedAction(ActionOf(k), count) <==>
      match k
      case Plain(code) => IsModifierKey(code)
      case WithMods(mods, code) => (mods % 16 != 0 && code == 0) || IsModifierKey(code)
      case ModTap(mods, code) => (mods % 16 != 0 && count == 0) || IsModifierKey(code)
      case LayerTap(_, code) => code < 0xF0 || 0xF1 <= code <= 0xF3
      case OneShotLayer(_) => false
      case OneShotMod(mods) => mods % 16 != 0 && count == 0
      case LayerTapToggle(_) => false
      case LayerKeycode(key) => key.MO?
      case SwapHands(_) => false
  {
    FieldsOf(k);
    if !IsBitwise(k) {
      HeldBackByFields(ActionOf(k), KindOf(k), HighOf(k), CodeOf(k), count);
    }
  }
}
