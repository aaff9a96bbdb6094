/**
 Where `quantum/dynamic_keymap.c` keeps things in EEPROM: seven regions stacked behind each other,
 each an array of fixed-size cells addressed by its indices.
 */
module KeymapLayout {
  import opened Bytes
  import Radix

  type U16 = v: nat | v < 0x1_0000

  /** A build's sizes. `start` is DYNAMIC_KEYMAP_EEPROM_ADDR, `settings` the size of qmk_settings_t. */
  datatype Build = Build(start: nat, layers: nat, rows: nat, cols: nat, encoders: nat, settings: nat,
                         tapDances: nat, combos: nat, overrides: nat, maxAddr: nat)

  /** All three entry structures are asserted to be 10 bytes long. */
  const ENTRY_SIZE := 10

  function KeymapSize(b: Build): nat { b.layers * b.rows * b.cols * 2 }

  function EncodersAddr(b: Build): nat { b.start + KeymapSize(b) }

  function SettingsAddr(b: Build): nat { EncodersAddr(b) + b.encoders * b.layers * 2 * 2 }

  function TapDanceAddr(b: Build): nat { SettingsAddr(b) + b.settings }

  function ComboAddr(b: Build): nat { TapDanceAddr(b) + ENTRY_SIZE * b.tapDances }

  function OverrideAddr(b: Build): nat { ComboAddr(b) + ENTRY_SIZE * b.combos }

  function MacroAddr(b: Build): nat { OverrideAddr(b) + ENTRY_SIZE * b.overrides }

  function MacroSize(b: Build): nat
    requires ValidBuild(b)
  {
    b.maxAddr - MacroAddr(b) + 1
  }

  /** What the build asserts: at least 100 bytes for macros, and addresses that fit 16 bits. */
  predicate ValidBuild(b: Build) {
    MacroAddr(b) + 100 <= b.maxAddr < 0x1_0000
  }

  // ---------------------------------------------------------------- cells

  datatype Cell =
    | KeyCell(layer: nat, row: nat, col: nat)
    | EncoderCell(layer: nat, id: nat, clockwise: bool)
    | SettingCell(offset: nat)
    | TapDanceCell(index: nat)
    | ComboCell(index: nat)
    | OverrideCell(index: nat)
    | MacroCell(offset: nat)

  predicate ValidCell(b: Build, c: Cell)
    requires ValidBuild(b)
  {
    match c
    case KeyCell(layer, row, col) => layer < b.layers && row < b.rows && col < b.cols
    case EncoderCell(layer, id, _) => layer < b.layers && id < b.encoders
    case SettingCell(offset) => offset < b.settings
    case TapDanceCell(i) => i < b.tapDances
    case ComboCell(i) => i < b.combos
    case OverrideCell(i) => i < b.overrides
    case MacroCell(offset) => offset < MacroSize(b)
  }

  function CellSize(c: Cell): nat {
    match c
    case KeyCell(_, _, _) => 2
    case EncoderCell(_, _, _) => 2
    case SettingCell(_) => 1
    case TapDanceCell(_) => ENTRY_SIZE
    case ComboCell(_) => ENTRY_SIZE
    case OverrideCell(_) => ENTRY_SIZE
    case MacroCell(_) => 1
  }

  /** The address computations of the accessors. */
  function CellAddr(b: Build, c: Cell): nat {
    match c
    case KeyCell(layer, row, col) => b.start + layer * b.rows * b.cols * 2 + row * b.cols * 2 + col * 2
    case EncoderCell(layer, id, clockwise) =>
      EncodersAddr(b) + layer * b.encoders * 2 * 2 + id * 2 * 2 + (if clockwise then 0 else 2)
    case SettingCell(offset) => SettingsAddr(b) + offset
    case TapDanceCell(i) => TapDanceAddr(b) + i * ENTRY_SIZE
    case ComboCell(i) => ComboAddr(b) + i * ENTRY_SIZE
    case OverrideCell(i) => OverrideAddr(b) + i * ENTRY_SIZE
    case MacroCell(offset) => MacroAddr(b) + offset
  }

  // ---------------------------------------------------------------- each cell has its own bytes

  /** The position of a cell within its region. */
  function CellIndex(b: Build, c: Cell): nat {
    match c
    case KeyCell(layer, row, col) => (layer * b.rows + row) * b.cols + col
    case EncoderCell(layer, id, clockwise) => (layer * b.encoders + id) * 2 + (if clockwise then 0 else 1)
    case SettingCell(offset) => offset
    case TapDanceCell(i) => i
    case ComboCell(i) => i
    case OverrideCell(i) => i
    case MacroCell(offset) => offset
  }

  function RegionStart(b: Build, c: Cell): nat {
    match c
    case KeyCell(_, _, _) => b.start
    case EncoderCell(_, _, _) => EncodersAddr(b)
    case SettingCell(_) => SettingsAddr(b)
    case TapDanceCell(_) => TapDanceAddr(b)
    case ComboCell(_) => ComboAddr(b)
    case OverrideCell(_) => OverrideAddr(b)
    case MacroCell(_) => MacroAddr(b)
  }

  function RegionEnd(b: Build, c: Cell): nat {
    match c
    case KeyCell(_, _, _) => EncodersAddr(b)
    case EncoderCell(_, _, _) => SettingsAddr(b)
    case SettingCell(_) => TapDanceAddr(b)
    case TapDanceCell(_) => ComboAddr(b)
    case ComboCell(_) => OverrideAddr(b)
    case OverrideCell(_) => MacroAddr(b)
    case MacroCell(_) => b.maxAddr + 1
  }

  function Rank(c: Cell): nat {
    match c
    case KeyCell(_, _, _) => 0
    case EncoderCell(_, _, _) => 1
    case SettingCell(_) => 2
    case TapDanceCell(_) => 3
    case ComboCell(_) => 4
    case OverrideCell(_) => 5
    case MacroCell(_) => 6
  }

  lemma KeyAddrByIndex(b: Build, layer: nat, row: nat, col: nat)
    ensures layer * b.rows * b.cols * 2 + row * b.cols * 2 + col * 2 == 2 * ((layer * b.rows + row) * b.cols + col)
  {
    assert (layer * b.rows + row) * b.cols == layer * b.rows * b.cols + row * b.cols;
  }

  lemma EncoderAddrByIndex(b: Build, layer: nat, id: nat, clockwise: bool)
    ensures layer * b.encoders * 2 * 2 + id * 2 * 2 + (if clockwise then 0 else 2) ==
            2 * ((layer * b.encoders + id) * 2 + (if clockwise then 0 else 1))
  {
  }

  lemma AddrByIndex(b: Build, c: Cell)
    ensures CellAddr(b, c) == RegionStart(b, c) + CellIndex(b, c) * CellSize(c)
  {
    match c
    case KeyCell(layer, row, col) => KeyAddrByIndex(b, layer, row, col);
    case EncoderCell(layer, id, clockwise) => EncoderAddrByIndex(b, layer, id, clockwise);
    case _ =>
  }

  lemma KeyInRegion(b: Build, layer: nat, row: nat, col: nat)
    requires layer < b.layers && row < b.rows && col < b.cols
    ensures (layer * b.rows + row) * b.cols + col < b.layers * b.rows * b.cols
  {
    Radix.InRange(layer, row, b.layers, b.rows);
    Radix.InRange(layer * b.rows + row, col, b.layers * b.rows, b.cols);
  }

  lemma EncoderInRegion(b: Build, layer: nat, id: nat)
    requires layer < b.layers && id < b.encoders
    ensures layer * b.encoders + id < b.encoders * b.layers
  {
    Radix.InRange(layer, id, b.layers, b.encoders);
    assert b.layers * b.encoders == b.encoders * b.layers;
  }

  lemma CellInRegion(b: Build, c: Cell)
    requires ValidBuild(b) && ValidCell(b, c)
    ensures RegionStart(b, c) <= CellAddr(b, c) && CellAddr(b, c) + CellSize(c) <= RegionEnd(b, c)
  {
    AddrByIndex(b, c);
    match c
    case KeyCell(layer, row, col) => KeyInRegion(b, layer, row, col);
    case EncoderCell(layer, id, clockwise) => EncoderInRegion(b, layer, id);
    case _ =>
  }

  lemma RegionsInOrder(b: Build, c: Cell, c': Cell)
    requires ValidBuild(b) && Rank(c) < Rank(c')
    ensures RegionEnd(b, c) <= RegionStart(b, c')
  {
  }

  lemma SameRegionSameCell(b: Build, c: Cell, c': Cell)
    requires ValidBuild(b) && ValidCell(b, c) && ValidCell(b, c')
    requires Rank(c) == Rank(c') && CellIndex(b, c) == CellIndex(b, c')
    ensures c == c'
  {
    match c
    case KeyCell(layer, row, col) =>
      Radix.MixedRadix(layer * b.rows + row, col, c'.layer * b.rows + c'.row, c'.col, b.cols);
      Radix.MixedRadix(layer, row, c'.layer, c'.row, b.rows);
    case EncoderCell(layer, id, clockwise) =>
      Radix.MixedRadix(layer, id, c'.layer, c'.id, b.encoders);
    case _ =>
  }

  ghost predicate Apart(b: Build, c: Cell, c': Cell) {
    CellAddr(b, c) + CellSize(c) <= CellAddr(b, c') || CellAddr(b, c') + CellSize(c') <= CellAddr(b, c)
  }

  lemma IndexedApart(start: nat, i: nat, j: nat, size: nat)
    requires i < j
    ensures start + i * size + size <= start + j * size
  {
    Radix.Blocks(i, j, size);
  }

  /** For every choice of sizes: two different cells, of whatever kind, share no byte. */
  lemma CellsApart(b: Build, c: Cell, c': Cell)
    requires ValidBuild(b) && ValidCell(b, c) && ValidCell(b, c') && c != c'
    ensures Apart(b, c, c')
  {
    CellInRegion(b, c);
    CellInRegion(b, c');
    if Rank(c) < Rank(c') {
      RegionsInOrder(b, c, c');
    } else if Rank(c') < Rank(c) {
      RegionsInOrder(b, c', c);
    } else {
      AddrByIndex(b, c);
      AddrByIndex(b, c');
      var i, j := CellIndex(b, c), CellIndex(b, c');
      if i < j {
        IndexedApart(RegionStart(b, c), i, j, CellSize(c));
      } else if j < i {
        IndexedApart(RegionStart(b, c), j, i, CellSize(c));
      } else {
        SameRegionSameCell(b, c, c');
      }
    }
  }

  lemma CellInMemory(b: Build, c: Cell)
    requires ValidBuild(b) && ValidCell(b, c)
    ensures b.start <= CellAddr(b, c) && CellAddr(b, c) + CellSize(c) <= b.maxAddr + 1
  {
    CellInRegion(b, c);
    RegionInMemory(b, c);
  }

  lemma RegionInMemory(b: Build, c: Cell)
    requires ValidBuild(b)
    ensures b.start <= RegionStart(b, c) && RegionEnd(b, c) <= b.maxAddr + 1
  {
  }
}
