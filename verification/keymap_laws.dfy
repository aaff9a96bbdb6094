/** The EEPROM formats, number by number: where each thing is kept, and what the bytes of a macro are. */
module KeymapLaws {
  import opened Bytes
  import opened KeymapLayout
  import opened KeymapStore
  import opened KeymapBuffer
  import opened Macros

  // ---------------------------------------------------------------- addresses

  /** The big-endian number in the two bytes at address `a`. */
  function BigAt(mem: seq<Byte>, a: nat): nat
    requires a + 2 <= |mem|
  {
    (mem[a] as nat) * 256 + (mem[a + 1] as nat)
  }

  /** Behind the keymap, two bytes a key: the encoders, four bytes each and layer. */
  function AfterKeys(b: Build): nat { b.start + 2 * (b.layers * b.rows * b.cols) }

  function AfterEncoders(b: Build): nat { AfterKeys(b) + 4 * (b.encoders * b.layers) }

  /** Entries of tap dances, combos and key overrides take ten bytes each; the rest is for macros. */
  function AfterEntries(b: Build): nat { AfterEncoders(b) + b.settings + 10 * (b.tapDances + b.combos + b.overrides) }

  lemma ProductOfThree(x: nat, y: nat, z: nat, k: nat)
    ensures k * (x * y * z) == k * x * y * z == x * y * z * k
  {
  }

  lemma StartsOfRegions(b: Build)
    ensures EncodersAddr(b) == AfterKeys(b) && SettingsAddr(b) == AfterEncoders(b)
    ensures TapDanceAddr(b) == AfterEncoders(b) + b.settings
    ensures ComboAddr(b) == AfterEncoders(b) + b.settings + 10 * b.tapDances
    ensures OverrideAddr(b) == AfterEncoders(b) + b.settings + 10 * (b.tapDances + b.combos)
    ensures MacroAddr(b) == AfterEntries(b)
  {
    ProductOfThree(b.layers, b.rows, b.cols, 2);
  }

  /** A key's keycode lies row by row, layer by layer, high byte first. */
  lemma KeyIsAt(b: Build, mem: seq<Byte>, layer: nat, row: nat, col: nat)
    requires ValidMemory(b, mem) && layer < b.layers && row < b.rows && col < b.cols
    ensures var a := b.start + 2 * ((layer * b.rows + row) * b.cols + col);
      a + 2 <= |mem| && KeycodeOfBytes(ReadCell(b, mem, KeyCell(layer, row, col))) == BigAt(mem, a)
  {
    CellInMemory(b, KeyCell(layer, row, col));
    AddrByIndex(b, KeyCell(layer, row, col));
  }

  /** An encoder's clockwise keycode comes before the counter-clockwise one. */
  lemma EncoderIsAt(b: Build, mem: seq<Byte>, layer: nat, id: nat, clockwise: bool)
    requires ValidMemory(b, mem) && layer < b.layers && id < b.encoders
    ensures var a := AfterKeys(b) + 4 * (layer * b.encoders + id) + (if clockwise then 0 else 2);
      a + 2 <= |mem| && KeycodeOfBytes(ReadCell(b, mem, EncoderCell(layer, id, clockwise))) == BigAt(mem, a)
  {
    CellInMemory(b, EncoderCell(layer, id, clockwise));
    AddrByIndex(b, EncoderCell(layer, id, clockwise));
    StartsOfRegions(b);
  }

  /** Settings and macro bytes lie one by one, entries ten bytes by ten. */
  lemma BytesAreAt(b: Build, mem: seq<Byte>, i: nat)
    requires ValidMemory(b, mem)
    ensures i < b.settings ==> AfterEncoders(b) + i < |mem| &&
                               ReadCell(b, mem, SettingCell(i)) == [mem[AfterEncoders(b) + i]]
    ensures i <= b.maxAddr - AfterEntries(b) ==>
      AfterEntries(b) + i < |mem| && ReadCell(b, mem, MacroCell(i)) == [mem[AfterEntries(b) + i]]
    ensures MacroSize(b) == b.maxAddr - AfterEntries(b) + 1
  {
    StartsOfRegions(b);
    if i < b.settings {
      CellInMemory(b, SettingCell(i));
    }
    if i < MacroSize(b) {
      CellInMemory(b, MacroCell(i));
    }
  }

  lemma EntriesAreAt(b: Build, mem: seq<Byte>, i: nat)
    requires ValidMemory(b, mem)
    ensures var a := AfterEncoders(b) + b.settings + 10 * i;
      i < b.tapDances ==> a + 10 <= |mem| && ReadCell(b, mem, TapDanceCell(i)) == mem[a..a + 10]
    ensures var a := AfterEncoders(b) + b.settings + 10 * (b.tapDances + i);
      i < b.combos ==> a + 10 <= |mem| && ReadCell(b, mem, ComboCell(i)) == mem[a..a + 10]
    ensures var a := AfterEncoders(b) + b.settings + 10 * (b.tapDances + b.combos + i);
      i < b.overrides ==> a + 10 <= |mem| && ReadCell(b, mem, OverrideCell(i)) == mem[a..a + 10]
  {
    StartsOfRegions(b);
    if i < b.tapDances {
      CellInMemory(b, TapDanceCell(i));
    }
    if i < b.combos {
      CellInMemory(b, ComboCell(i));
    }
    if i < b.overrides {
      CellInMemory(b, OverrideCell(i));
    }
  }

  // ---------------------------------------------------------------- bulk writes

  /**
   A locked bulk write, by bytes: a key that would become 0x7C00 gets 0xFF for each of its bytes in the piece, and so is
   0xFFFF if both are; all other bytes are stored as sent.
   */
  lemma BootBecomesInvalid(km: seq<Byte>, offset: nat, data: seq<Byte>, q: nat)
    requires |km| % 2 == 0 && offset + |data| <= |km| && 2 * q + 1 < |km|
    ensures var plain, stored := WriteAt(km, offset, data), WriteAt(km, offset, Filtered(km, offset, data));
      if BigAt(plain, 2 * q) == 0x7C00 then
        && (offset <= 2 * q < offset + |data| ==> stored[2 * q] == 0xFF)
        && (offset <= 2 * q + 1 < offset + |data| ==> stored[2 * q + 1] == 0xFF)
      else stored[2 * q..2 * q + 2] == plain[2 * q..2 * q + 2]
  {
    StoredByte(km, offset, data, q, 2 * q);
    StoredByte(km, offset, data, q, 2 * q + 1);
  }

  lemma StoredByte(km: seq<Byte>, offset: nat, data: seq<Byte>, q: nat, k: nat)
    requires |km| % 2 == 0 && offset + |data| <= |km| && 2 * q + 1 < |km| && (k == 2 * q || k == 2 * q + 1)
    ensures var plain, stored := WriteAt(km, offset, data), WriteAt(km, offset, Filtered(km, offset, data));
      stored[k] == if offset <= k < offset + |data| && BigAt(plain, 2 * q) == 0x7C00 then 0xFF else plain[k]
  {
    var f := Filtered(km, offset, data);
    WriteAtIndex(km, offset, data, k);
    WriteAtIndex(km, offset, f, k);
    if offset <= k < offset + |data| {
      assert (offset + (k - offset)) / 2 == q;
      assert BigAt(WriteAt(km, offset, data), 2 * q) == KeycodeAt(WriteAt(km, offset, data), q);
    }
  }

  // ---------------------------------------------------------------- macro bytes

  /** The bytes of an action: characters as they are, and after a 1 what to do with a key, or how long to wait. */
  function Spelled(a: Action): seq<int> {
    match a
    case Type(c) => [c]
    case Key(op, code) => [1, op, code]
    case ExtKey(op, kc) => if kc % 256 == 0 then [1, op, kc / 256, 255] else [1, op, kc % 256, kc / 256]
    case Delay(ms) => [1, 4, ms % 255 + 1, ms / 255 + 1]
  }

  /** Which actions can be written: any character but 0 and 1, keys by 1, 2 and 3, wide keycodes by 5, 6 and 7. */
  lemma WritableIff(a: Action)
    ensures WellFormed(a) <==>
      match a
      case Type(c) => c >= 2
      case Key(op, code) => 1 <= op <= 3 && code != 0
      case ExtKey(op, kc) => 5 <= op <= 7 && kc >= 256 && (kc % 256 == 0 || kc < 0xFF00)
      case Delay(ms) => ms < 65025
  {
  }

  /** Such actions, spelled out and ended by a null, play as they are, wherever they stand. */
  lemma SpelledPlays(area: seq<Byte>, p: nat, m: seq<Action>)
    requires WellFormedMacro(m) && At(area, p, Serialize(m) + [0])
    ensures Play(area, p) == Sent(m)
    ensures forall i :: 0 <= i < |m| ==> ActionBytes(m[i]) == Spelled(m[i])
  {
    PlayInvertsSerialize(area, p, m);
    forall i | 0 <= i < |m| ensures ActionBytes(m[i]) == Spelled(m[i]) {
      assert WellFormed(m[i]);
    }
  }

  /** What is not in the format does nothing: a number behind the 1 that means nothing, or a key without a code. */
  lemma StrayBytesDoNothing(area: seq<Byte>, p: nat)
    requires p + 4 <= |area| && area[p] == 1
    ensures area[p + 1] >= 8 ==> Play(area, p) == Play(area, p + 2)
    ensures 1 <= area[p + 1] <= 3 && area[p + 2] == 0 ==> Play(area, p) == Play(area, p + 3)
    ensures 5 <= area[p + 1] <= 7 && area[p + 2] == 0 ==> Play(area, p) == Play(area, p + 3)
    ensures 5 <= area[p + 1] <= 7 && area[p + 2] != 0 && area[p + 3] == 0 ==> Play(area, p) == Play(area, p + 4)
    ensures area[p + 1] == 0 ==> Play(area, p) == Sent([])
    ensures area[p + 1] == 4 && (area[p + 2] == 0 || area[p + 3] == 0) ==> Play(area, p) == Sent([])
  {
  }
}
