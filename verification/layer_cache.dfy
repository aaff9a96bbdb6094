/**
 Layer resolution and the source-layer cache of `quantum/action_layer.c`: a key's release must use
 the layer its press was resolved on. The cache is bit-sliced: bit `b` of eight keys' layers shares a byte.
 */
module LayerCache {
  import opened Bits
  import opened Events
  import Radix

  const CHAR_BIT := 8

  // ---------------------------------------------------------------- the bit-sliced store

  /** The layer of the key with bit `s`, from the first `n` bytes of its row. */
  function Collect(row: seq<nat>, s: nat, n: nat): nat
    requires n <= |row|
  {
    if n == 0 then 0
    else Or(Collect(row, s, n - 1), if And(row[n - 1], Pow2(s)) != 0 then Pow2(n - 1) else 0)
  }

  /** `cell ^= (-on ^ cell) & (1 << s)` on a byte. */
  function UpdatedCell(cell: nat, on: bool, s: nat): nat {
    Xor(cell, And(Xor(if on then Ones(CHAR_BIT) else 0, cell), Pow2(s)))
  }

  lemma {:induction false} CollectBits(row: seq<nat>, s: nat, n: nat, b: nat)
    requires n <= |row|
    ensures Bit(Collect(row, s, n), b) <==> b < n && Bit(row[b], s)
  {
    if n == 0 {
      BitZero(b);
    } else {
      CollectBits(row, s, n - 1, b);
      MaskTest(row[n - 1], s);
      BitOr(Collect(row, s, n - 1), if And(row[n - 1], Pow2(s)) != 0 then Pow2(n - 1) else 0, b);
      BitPow2(n - 1, b);
      BitZero(b);
    }
  }

  lemma UpdatedCellBits(cell: nat, on: bool, s: nat, i: nat)
    requires s < CHAR_BIT
    ensures Bit(UpdatedCell(cell, on, s), i) <==> if i == s then on else Bit(cell, i)
  {
    var all := if on then Ones(CHAR_BIT) else 0;
    BitXor(cell, And(Xor(all, cell), Pow2(s)), i);
    BitAnd(Xor(all, cell), Pow2(s), i);
    BitXor(all, cell, i);
    BitPow2(s, i);
    BitOnes(CHAR_BIT, i);
    BitZero(i);
  }

  /** A row holding the bits of `layer` reads back as `layer`. */
  lemma CollectIs(row: seq<nat>, s: nat, layer: nat)
    requires layer < Pow2(|row|)
    requires forall b :: 0 <= b < |row| ==> (Bit(row[b], s) <==> Bit(layer, b))
    ensures Collect(row, s, |row|) == layer
  {
    forall b: nat ensures Bit(Collect(row, s, |row|), b) == Bit(layer, b) {
      CollectBits(row, s, |row|, b);
      if b >= |row| {
        SmallBits(layer, |row|, b);
      }
    }
    SameBits(Collect(row, s, |row|), layer);
  }

  lemma CollectSame(row: seq<nat>, row': seq<nat>, s: nat)
    requires |row| == |row'|
    requires forall b :: 0 <= b < |row| ==> (Bit(row[b], s) <==> Bit(row'[b], s))
    ensures Collect(row, s, |row|) == Collect(row', s, |row|)
  {
    forall b: nat ensures Bit(Collect(row, s, |row|), b) == Bit(Collect(row', s, |row|), b) {
      CollectBits(row, s, |row|, b);
      CollectBits(row', s, |row|, b);
    }
    SameBits(Collect(row, s, |row|), Collect(row', s, |row|));
  }

  class Cache {
    const entries: nat
    const layerBits: nat
    const cells: array2<nat>

    ghost predicate Valid() {
      cells.Length0 * CHAR_BIT >= entries && cells.Length1 == layerBits
    }

    ghost function Row(e: nat): (row: seq<nat>)
      requires Valid() && e < entries
      reads cells
      ensures |row| == layerBits
    {
      seq(layerBits, b requires 0 <= b < layerBits reads cells => cells[e / CHAR_BIT, b])
    }

    /** The layer kept for entry `e`. */
    ghost function LayerOf(e: nat): nat
      requires Valid() && e < entries
      reads cells
    {
      Collect(Row(e), e % CHAR_BIT, layerBits)
    }

    constructor (entries: nat, layerBits: nat)
      ensures Valid() && this.entries == entries && this.layerBits == layerBits && fresh(cells)
      ensures forall e :: 0 <= e < entries ==> LayerOf(e) == 0
    {
      this.entries := entries;
      this.layerBits := layerBits;
      cells := new nat[(entries + CHAR_BIT - 1) / CHAR_BIT, layerBits]((_, _) => 0);
      new;
      forall e | 0 <= e < entries ensures LayerOf(e) == 0 {
        BitsOfZeroRow(Row(e), e % CHAR_BIT);
      }
    }

    /** `update_source_layers_cache_impl`: one entry takes the layer, all others keep theirs. */
    method Update(layer: nat, e: nat)
      requires Valid() && e < entries && layer < Pow2(layerBits)
      modifies cells
      ensures LayerOf(e) == layer
      ensures forall k :: 0 <= k < entries && k != e ==> LayerOf(k) == old(LayerOf(k))
    {
      var idx, s := e / CHAR_BIT, e % CHAR_BIT;
      for b := 0 to layerBits
        invariant forall c :: 0 <= c < b ==> (Bit(cells[idx, c], s) <==> Bit(layer, c))
        invariant forall i, c, j: nat :: 0 <= i < cells.Length0 && 0 <= c < layerBits && (i != idx || j != s) ==>
                    Bit(cells[i, c], j) == Bit(old(cells[i, c]), j)
      {
        MaskTest(layer, b);
        var on := And(layer, Pow2(b)) != 0;
        ghost var cell := cells[idx, b];
        cells[idx, b] := UpdatedCell(cells[idx, b], on, s);
        forall j: nat ensures Bit(cells[idx, b], j) == if j == s then on else Bit(cell, j) {
          UpdatedCellBits(cell, on, s, j);
        }
      }
      CollectIs(Row(e), s, layer);
      forall k | 0 <= k < entries && k != e ensures LayerOf(k) == old(LayerOf(k)) {
        assert k / CHAR_BIT != idx || k % CHAR_BIT != s;
        CollectSame(Row(k), old(Row(k)), k % CHAR_BIT);
      }
    }

    /** `read_source_layers_cache_impl` */
    method Read(e: nat) returns (layer: nat)
      requires Valid() && e < entries
      ensures layer == LayerOf(e)
    {
      layer := 0;
      for b := 0 to layerBits
        invariant layer == Collect(Row(e), e % CHAR_BIT, b)
      {
        layer := Or(layer, if And(cells[e / CHAR_BIT, b], Pow2(e % CHAR_BIT)) != 0 then Pow2(b) else 0);
      }
    }
  }

  lemma BitsOfZeroRow(row: seq<nat>, s: nat)
    requires forall b :: 0 <= b < |row| ==> row[b] == 0
    ensures Collect(row, s, |row|) == 0
  {
    BitZero(s);
    forall b: nat | b < |row| ensures Bit(row[b], s) <==> Bit(0, b) {
      BitZero(b);
    }
    CollectIs(row, s, 0);
  }

  // ---------------------------------------------------------------- which entry a key uses

  const VIAL_MATRIX_MAGIC := 240
  const KEYLOC_ENCODER_CW := 253
  const KEYLOC_ENCODER_CCW := 252

  datatype Size = Size(rows: nat, cols: nat, encoders: nat, maxLayer: nat, layerBits: nat)

  /** MAX_LAYER_BITS is chosen so that MAX_LAYER layer numbers fit. */
  predicate ValidSize(z: Size) {
    z.maxLayer <= Pow2(z.layerBits)
  }

  datatype Slot = MatrixSlot(entry: nat) | EncoderSlot(id: nat) | NoSlot

  function SlotOf(z: Size, k: Key): Slot {
    if k.row == VIAL_MATRIX_MAGIC then NoSlot
    else if k.row < z.rows && k.col < z.cols then MatrixSlot(k.row * z.cols + k.col)
    else if k.row == KEYLOC_ENCODER_CW || k.row == KEYLOC_ENCODER_CCW then EncoderSlot(k.col)
    else NoSlot
  }

  /** Encoder events are only made for encoders there are. */
  predicate ValidKey(z: Size, k: Key) {
    SlotOf(z, k).EncoderSlot? ==> k.col < z.encoders
  }

  /** Two matrix keys never share an entry. */
  lemma MatrixSlotsApart(z: Size, k: Key, k': Key)
    requires SlotOf(z, k).MatrixSlot? && SlotOf(z, k) == SlotOf(z, k')
    ensures k == k'
  {
    Radix.MixedRadix(k.row, k.col, k'.row, k'.col, z.cols);
  }

  // ---------------------------------------------------------------- resolution

  const ACTION_TRANSPARENT: nat := 1

  /** `action_for_key`: the action code a layer assigns to a key. */
  type Keymap = (nat, Key) -> nat

  predicate Offers(keymap: Keymap, layers: nat, i: nat, k: Key) {
    Bit(layers, i) && keymap(i, k) != ACTION_TRANSPARENT
  }

  /** The topmost layer below `n` that is on and not transparent for the key, else 0. */
  function TopLayer(keymap: Keymap, layers: nat, k: Key, n: nat): (l: nat)
    ensures l < n || l == 0
    ensures (l < n && Offers(keymap, layers, l, k)) ||
            (l == 0 && forall i :: 0 <= i < n ==> !Offers(keymap, layers, i, k))
    ensures forall i :: l < i < n ==> !Offers(keymap, layers, i, k)
  {
    if n == 0 then 0
    else if Offers(keymap, layers, n - 1, k) then n - 1
    else TopLayer(keymap, layers, k, n - 1)
  }

  datatype State = State(layers: nat, defaults: nat, keymap: Keymap, cached: map<Slot, nat>)

  function Resolve(z: Size, s: State, k: Key): nat {
    TopLayer(s.keymap, Or(s.layers, s.defaults), k, z.maxLayer)
  }

  /** Layer `i` is on, by itself or by default, and has an action for the key other than code 1, transparent. */
  predicate IsSource(s: State, k: Key, i: nat) {
    (Bit(s.layers, i) || Bit(s.defaults, i)) && s.keymap(i, k) != 1
  }

  /** `l` is the highest such layer of the build, or 0 if there is none. */
  ghost predicate IsTopSource(z: Size, s: State, k: Key, l: nat) {
    || (l < z.maxLayer && IsSource(s, k, l) && forall i :: l < i < z.maxLayer ==> !IsSource(s, k, i))
    || (l == 0 && forall i :: 0 <= i < z.maxLayer ==> !IsSource(s, k, i))
  }

  lemma ResolveIff(z: Size, s: State, k: Key, l: nat)
    ensures Resolve(z, s, k) == l <==> IsTopSource(z, s, k, l)
  {
    forall i: nat ensures Offers(s.keymap, Or(s.layers, s.defaults), i, k) <==> IsSource(s, k, i) {
      BitOr(s.layers, s.defaults, i);
    }
  }

  function Recall(z: Size, s: State, k: Key): nat {
    if SlotOf(z, k) != NoSlot && SlotOf(z, k) in s.cached then s.cached[SlotOf(z, k)] else 0
  }

  function Remember(z: Size, s: State, k: Key, layer: nat): State {
    if SlotOf(z, k) == NoSlot then s else s.(cached := s.cached[SlotOf(z, k) := layer])
  }

  /** The layer words and both caches, as the firmware keeps them. */
  class LayerSwitch {
    const size: Size
    const matrixCache: Cache
    const encoderCache: Cache
    var layerState: nat
    var defaultLayerState: nat
    var keymap: Keymap
    ghost var cached: map<Slot, nat>

    ghost predicate Valid()
      reads this, matrixCache.cells, encoderCache.cells
    {
      && ValidSize(size)
      && matrixCache.Valid() && encoderCache.Valid() && matrixCache.cells != encoderCache.cells
      && matrixCache.entries == size.rows * size.cols && encoderCache.entries == size.encoders
      && matrixCache.layerBits == encoderCache.layerBits == size.layerBits
      && (forall e :: 0 <= e < matrixCache.entries ==> matrixCache.LayerOf(e) == Kept(MatrixSlot(e)))
      && (forall e :: 0 <= e < encoderCache.entries ==> encoderCache.LayerOf(e) == Kept(EncoderSlot(e)))
    }

    ghost function Kept(slot: Slot): nat
      reads this
    {
      if slot in cached then cached[slot] else 0
    }

    ghost function Abs(): State
      reads this
    {
      State(layerState, defaultLayerState, keymap, cached)
    }

    constructor (size: Size, keymap: Keymap)
      requires ValidSize(size)
      ensures Valid() && this.size == size && Abs() == State(0, 0, keymap, map[])
    {
      this.size := size;
      matrixCache := new Cache(size.rows * size.cols, size.layerBits);
      encoderCache := new Cache(size.encoders, size.layerBits);
      layerState, defaultLayerState, this.keymap, cached := 0, 0, keymap, map[];
    }

    /** Any change of the layer words or of the keymap in between; the cache is not touched. */
    method ChangeLayers(layers: nat, defaults: nat, keymap: Keymap)
      requires Valid()
      modifies `layerState, `defaultLayerState, `keymap
      ensures Valid()
      ensures Abs() == Do(size, old(Abs()), Switch(layers, defaults, keymap))
    {
      layerState, defaultLayerState, this.keymap := layers, defaults, keymap;
    }

    method LayerSwitchGetLayer(k: Key) returns (layer: nat)
      ensures layer == Resolve(size, Abs(), k) && IsTopSource(size, Abs(), k, layer)
    {
      ResolveIff(size, Abs(), k, Resolve(size, Abs(), k));
      var layers := Or(layerState, defaultLayerState);
      var i := size.maxLayer;
      while i > 0
        invariant 0 <= i <= size.maxLayer
        invariant TopLayer(keymap, layers, k, size.maxLayer) == TopLayer(keymap, layers, k, i)
      {
        i := i - 1;
        MaskTest(layers, i);
        if And(layers, Pow2(i)) != 0 {
          if keymap(i, k) != ACTION_TRANSPARENT {
            return i;
          }
        }
      }
      return 0;
    }

    method UpdateMatrixEntry(e: nat, layer: nat)
      requires Valid() && e < size.rows * size.cols && layer < Pow2(size.layerBits)
      modifies `cached, matrixCache.cells
      ensures Valid() && cached == old(cached)[MatrixSlot(e) := layer]
    {
      matrixCache.Update(layer, e);
      cached := cached[MatrixSlot(e) := layer];
    }

    method UpdateEncoderEntry(e: nat, layer: nat)
      requires Valid() && e < size.encoders && layer < Pow2(size.layerBits)
      modifies `cached, encoderCache.cells
      ensures Valid() && cached == old(cached)[EncoderSlot(e) := layer]
    {
      encoderCache.Update(layer, e);
      cached := cached[EncoderSlot(e) := layer];
    }

    method UpdateSourceLayersCache(k: Key, layer: nat)
      requires Valid() && ValidKey(size, k) && layer < Pow2(size.layerBits)
      modifies `cached, matrixCache.cells, encoderCache.cells
      ensures Valid()
      ensures Abs() == Remember(size, old(Abs()), k, layer)
    {
      if k.row == VIAL_MATRIX_MAGIC {
        return;
      }
      if k.row < size.rows && k.col < size.cols {
        Radix.InRange(k.row, k.col, size.rows, size.cols);
        UpdateMatrixEntry(k.row * size.cols + k.col, layer);
      } else if k.row == KEYLOC_ENCODER_CW || k.row == KEYLOC_ENCODER_CCW {
        UpdateEncoderEntry(k.col, layer);
      }
    }

    method ReadSourceLayersCache(k: Key) returns (layer: nat)
      requires Valid() && ValidKey(size, k)
      ensures layer == Recall(size, Abs(), k)
    {
      if k.row == VIAL_MATRIX_MAGIC {
        return 0;
      }
      if k.row < size.rows && k.col < size.cols {
        Radix.InRange(k.row, k.col, size.rows, size.cols);
        layer := matrixCache.Read(k.row * size.cols + k.col);
      } else if k.row == KEYLOC_ENCODER_CW || k.row == KEYLOC_ENCODER_CCW {
        layer := encoderCache.Read(k.col);
      } else {
        layer := 0;
      }
    }

    /** `store_or_get_action`, with the action cache enabled. */
    method StoreOrGetAction(pressed: bool, k: Key) returns (action: nat, ghost layer: nat)
      requires Valid() && ValidKey(size, k)
      modifies `cached, matrixCache.cells, encoderCache.cells
      ensures Valid()
      ensures layer == if pressed then Resolve(size, old(Abs()), k) else Recall(size, old(Abs()), k)
      ensures pressed ==> IsTopSource(size, old(Abs()), k, layer)
      ensures action == keymap(layer, k)
      ensures Abs() == Do(size, old(Abs()), if pressed then Press(k) else Release(k))
    {
      var l;
      if pressed {
        l := LayerSwitchGetLayer(k);
        UpdateSourceLayersCache(k, l);
      } else {
        l := ReadSourceLayersCache(k);
      }
      return keymap(l, k), l;
    }
  }

  // ---------------------------------------------------------------- runs

  datatype Change =
    | Press(key: Key)
    | Release(key: Key)
    | Switch(layers: nat, defaults: nat, keymap: Keymap)

  function Do(z: Size, s: State, c: Change): State {
    match c
    case Press(k) => Remember(z, s, k, Resolve(z, s, k))
    case Release(_) => s
    case Switch(layers, defaults, keymap) => State(layers, defaults, keymap, s.cached)
  }

  function Run(z: Size, s: State, cs: seq<Change>): State {
    if cs == [] then s else Do(z, Run(z, s, cs[..|cs| - 1]), cs[|cs| - 1])
  }

  /** Change `i` presses `k`, and no later one presses a key with the same entry. */
  ghost predicate LatestPress(z: Size, cs: seq<Change>, i: nat, k: Key) {
    && i < |cs| && cs[i] == Press(k)
    && forall j :: i < j < |cs| && cs[j].Press? ==> SlotOf(z, cs[j].key) != SlotOf(z, k)
  }

  /**
   Whatever presses, releases and layer or keymap changes come in between, a release is
   resolved on the layer that its key's latest press was resolved on at that time.
   */
  lemma {:induction false} ReleaseUsesPressLayer(z: Size, s: State, cs: seq<Change>, i: nat, k: Key)
    requires SlotOf(z, k) != NoSlot && LatestPress(z, cs, i, k)
    ensures Recall(z, Run(z, s, cs), k) == Resolve(z, Run(z, s, cs[..i]), k)
  {
    var m := |cs| - 1;
    if i < m {
      assert cs[..m][..i] == cs[..i];
      ReleaseUsesPressLayer(z, s, cs[..m], i, k);
    }
  }

  /** For a key of the matrix, only presses of that very key matter. */
  lemma MatrixReleaseUsesOwnPress(z: Size, s: State, cs: seq<Change>, i: nat, k: Key)
    requires SlotOf(z, k).MatrixSlot?
    requires i < |cs| && cs[i] == Press(k) && forall j :: i < j < |cs| ==> cs[j] != Press(k)
    ensures Recall(z, Run(z, s, cs), k) == Resolve(z, Run(z, s, cs[..i]), k)
    ensures IsTopSource(z, Run(z, s, cs[..i]), k, Recall(z, Run(z, s, cs), k))
  {
    ResolveIff(z, Run(z, s, cs[..i]), k, Resolve(z, Run(z, s, cs[..i]), k));
    forall j | i < j < |cs| && cs[j].Press? ensures SlotOf(z, cs[j].key) != SlotOf(z, k) {
      if SlotOf(z, cs[j].key) == SlotOf(z, k) {
        MatrixSlotsApart(z, cs[j].key, k);
      }
    }
    ReleaseUsesPressLayer(z, s, cs, i, k);
  }

  /** A key that has no entry, as none in row 240 has, or has not been pressed yet, is released on layer 0. */
  lemma {:induction false} NeverPressedRecallsZero(z: Size, s: State, cs: seq<Change>, k: Key)
    requires s.cached == map[]
    requires k.row == 240 || forall j :: 0 <= j < |cs| && cs[j].Press? ==> SlotOf(z, cs[j].key) != SlotOf(z, k)
    ensures Recall(z, Run(z, s, cs), k) == 0
  {
    if cs != [] {
      NeverPressedRecallsZero(z, s, cs[..|cs| - 1], k);
    }
  }

  // ---------------------------------------------------------------- encoders

  /** Both directions of one encoder share an entry. */
  function OtherDirection(k: Key): Key {
    Key(if k.row == KEYLOC_ENCODER_CW then KEYLOC_ENCODER_CCW else KEYLOC_ENCODER_CW, k.col)
  }

  /** The last press of a key with this entry, if any. */
  function LastPress(z: Size, cs: seq<Change>, slot: Slot): (j: int)
    ensures -1 <= j < |cs|
    ensures j >= 0 ==> cs[j].Press? && SlotOf(z, cs[j].key) == slot
    ensures forall m :: j < m < |cs| && cs[m].Press? ==> SlotOf(z, cs[m].key) != slot
  {
    if cs == [] then -1
    else
      var last := cs[|cs| - 1];
      if last.Press? && SlotOf(z, last.key) == slot then |cs| - 1 else LastPress(z, cs[..|cs| - 1], slot)
  }

  lemma SharedEntry(z: Size, k: Key, k': Key)
    requires z.rows <= VIAL_MATRIX_MAGIC && SlotOf(z, k).EncoderSlot?
    ensures SlotOf(z, k') == SlotOf(z, k) <==> k' == k || k' == OtherDirection(k)
  {
  }

  /**
   The release of an encoder's direction recalls the layer of its own latest press exactly when
   the latest press of the other direction since, if any, was resolved to the same layer.
   */
  lemma EncoderReleaseIff(z: Size, s: State, cs: seq<Change>, i: nat, k: Key)
    requires z.rows <= VIAL_MATRIX_MAGIC && SlotOf(z, k).EncoderSlot?
    requires i < |cs| && cs[i] == Press(k) && forall j :: i < j < |cs| ==> cs[j] != Press(k)
    ensures Recall(z, Run(z, s, cs), k) == Resolve(z, Run(z, s, cs[..i]), k) <==>
            forall j :: i < j < |cs| && LatestPress(z, cs, j, OtherDirection(k)) ==>
              Resolve(z, Run(z, s, cs[..j]), OtherDirection(k)) == Resolve(z, Run(z, s, cs[..i]), k)
  {
    SharedEntry(z, k, OtherDirection(k));
    var j := LastPress(z, cs, SlotOf(z, k));
    SharedEntry(z, k, cs[j].key);
    ReleaseUsesPressLayer(z, s, cs, j, cs[j].key);
    if j > i {
      assert LatestPress(z, cs, j, OtherDirection(k));
    }
  }

  const TURN_CW := Key(KEYLOC_ENCODER_CW, 0)
  const TURN_CCW := Key(KEYLOC_ENCODER_CCW, 0)

  /** Two layers, both on; the clockwise turn is transparent on the upper one, the other turn is not. */
  const TWO_LAYERS := Size(4, 4, 1, 2, 1)

  function TwoLayerKeymap(): Keymap {
    (l, k) => if l == 1 && k == TURN_CW then ACTION_TRANSPARENT else 4 + l
  }

  function BothLayersOn(): State {
    State(2, 1, TwoLayerKeymap(), map[])
  }

  lemma TopOfTwo(k: Key)
    ensures Resolve(TWO_LAYERS, BothLayersOn(), k) == if k == TURN_CW then 0 else 1
  {
    assert Or(2, 1) == 3;
    assert Bit(3, 1) && Bit(3, 0);
    assert TopLayer(TwoLayerKeymap(), 3, k, 2) == if k == TURN_CW then TopLayer(TwoLayerKeymap(), 3, k, 1) else 1;
  }

  /**
   Pressed on layer 0, released on layer 1: with the other direction pressed in between, the clockwise
   release finds the layer of that press, on which the clockwise turn has no action at all.
   */
  lemma EncoderReleaseDiffers()
    ensures var cs := [Press(TURN_CW), Press(TURN_CCW)];
      && Resolve(TWO_LAYERS, BothLayersOn(), TURN_CW) == 0
      && Recall(TWO_LAYERS, Run(TWO_LAYERS, BothLayersOn(), cs), TURN_CW) == 1
      && TwoLayerKeymap()(0, TURN_CW) != ACTION_TRANSPARENT && TwoLayerKeymap()(1, TURN_CW) == ACTION_TRANSPARENT
  {
    var z, s, cs := TWO_LAYERS, BothLayersOn(), [Press(TURN_CW), Press(TURN_CCW)];
    TopOfTwo(TURN_CW);
    TopOfTwo(TURN_CCW);
    assert cs[..1] == [Press(TURN_CW)] && cs[..1][..0] == [];
    ReleaseUsesPressLayer(z, s, cs, 1, TURN_CCW);
    assert Resolve(z, Run(z, s, cs[..1]), TURN_CCW) == Resolve(z, s, TURN_CCW);
  }
}
