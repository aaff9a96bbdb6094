/** The EEPROM accessors of `quantum/dynamic_keymap.c`, and the independent typed arrays they amount to. */
module KeymapStore {
  import opened Bytes
  import opened KeymapLayout

  const KC_NO: U16 := 0

  // ---------------------------------------------------------------- bytes and keycodes

  /** Big endian, so the host can read the keymap as it is stored. */
  function KeycodeBytes(keycode: U16): seq<Byte> {
    [keycode / 0x100, keycode % 0x100]
  }

  function JoinBytes(high: Byte, low: Byte): U16 {
    (high as nat) * 0x100 + (low as nat)
  }

  function KeycodeOfBytes(bytes: seq<Byte>): U16
    requires |bytes| == 2
  {
    JoinBytes(bytes[0], bytes[1])
  }

  lemma KeycodeRoundTrip(keycode: U16)
    ensures KeycodeOfBytes(KeycodeBytes(keycode)) == keycode
  {
  }

  ghost predicate ValidMemory(b: Build, mem: seq<Byte>) {
    ValidBuild(b) && |mem| > b.maxAddr
  }

  function ReadAt(mem: seq<Byte>, addr: nat, size: nat): seq<Byte>
    requires addr + size <= |mem|
  {
    mem[addr..addr + size]
  }

  function WriteAt(mem: seq<Byte>, addr: nat, bytes: seq<Byte>): (mem': seq<Byte>)
    requires addr + |bytes| <= |mem|
    ensures |mem'| == |mem|
  {
    mem[..addr] + bytes + mem[addr + |bytes|..]
  }

  function ReadCell(b: Build, mem: seq<Byte>, c: Cell): (bytes: seq<Byte>)
    requires ValidMemory(b, mem) && ValidCell(b, c)
    ensures |bytes| == CellSize(c)
  {
    CellInMemory(b, c);
    ReadAt(mem, CellAddr(b, c), CellSize(c))
  }

  /** Writing a cell that does not exist changes nothing: every setter checks its indices first. */
  function WriteCell(b: Build, mem: seq<Byte>, c: Cell, bytes: seq<Byte>): (mem': seq<Byte>)
    requires ValidMemory(b, mem) && |bytes| == CellSize(c)
    ensures |mem'| == |mem|
  {
    if ValidCell(b, c) then
      CellInMemory(b, c);
      WriteAt(mem, CellAddr(b, c), bytes)
    else mem
  }

  lemma ReadOwnWrite(mem: seq<Byte>, addr: nat, bytes: seq<Byte>)
    requires addr + |bytes| <= |mem|
    ensures ReadAt(WriteAt(mem, addr, bytes), addr, |bytes|) == bytes
  {
  }

  lemma ReadElsewhere(mem: seq<Byte>, addr: nat, bytes: seq<Byte>, a: nat, size: nat)
    requires addr + |bytes| <= |mem| && a + size <= |mem|
    requires addr + |bytes| <= a || a + size <= addr
    ensures ReadAt(WriteAt(mem, addr, bytes), a, size) == ReadAt(mem, a, size)
  {
  }

  /** A write is seen by the accessor of the same cell and by no other. */
  lemma WriteSeenOnlyThere(b: Build, mem: seq<Byte>, c: Cell, bytes: seq<Byte>, c': Cell)
    requires ValidMemory(b, mem) && |bytes| == CellSize(c) && ValidCell(b, c')
    ensures ReadCell(b, WriteCell(b, mem, c, bytes), c') == if c == c' then bytes else ReadCell(b, mem, c')
  {
    if ValidCell(b, c) {
      CellInMemory(b, c);
      CellInMemory(b, c');
      if c == c' {
        ReadOwnWrite(mem, CellAddr(b, c), bytes);
      } else {
        CellsApart(b, c, c');
        ReadElsewhere(mem, CellAddr(b, c), bytes, CellAddr(b, c'), CellSize(c'));
      }
    }
  }

  // ---------------------------------------------------------------- runs of writes

  datatype Write = Write(cell: Cell, bytes: seq<Byte>)

  predicate WellSized(ws: seq<Write>) {
    forall i :: 0 <= i < |ws| ==> |ws[i].bytes| == CellSize(ws[i].cell)
  }

  function WriteAll(b: Build, mem: seq<Byte>, ws: seq<Write>): (mem': seq<Byte>)
    requires ValidMemory(b, mem) && WellSized(ws)
    ensures |mem'| == |mem|
  {
    if ws == [] then mem
    else WriteCell(b, WriteAll(b, mem, ws[..|ws| - 1]), ws[|ws| - 1].cell, ws[|ws| - 1].bytes)
  }

  /** The independent arrays: what was last written to this very cell, else what was there. */
  function LastWritten(ws: seq<Write>, c: Cell, initial: seq<Byte>): seq<Byte> {
    if ws == [] then initial
    else if ws[|ws| - 1].cell == c then ws[|ws| - 1].bytes
    else LastWritten(ws[..|ws| - 1], c, initial)
  }

  /** After any writes through any accessors, in range or not, each cell reads as its own last write. */
  lemma {:induction false} ReadsLastWrite(b: Build, mem: seq<Byte>, ws: seq<Write>, c: Cell)
    requires ValidMemory(b, mem) && WellSized(ws) && ValidCell(b, c)
    ensures ReadCell(b, WriteAll(b, mem, ws), c) == LastWritten(ws, c, ReadCell(b, mem, c))
  {
    if ws != [] {
      var before := ws[..|ws| - 1];
      ReadsLastWrite(b, mem, before, c);
      WriteSeenOnlyThere(b, WriteAll(b, mem, before), ws[|ws| - 1].cell, ws[|ws| - 1].bytes, c);
    }
  }

  /** A keycode stored for a key or an encoder is read back as that keycode, and as no other one's. */
  lemma KeycodeReadsBack(b: Build, mem: seq<Byte>, c: Cell, keycode: U16, c': Cell)
    requires ValidMemory(b, mem) && ValidCell(b, c') && CellSize(c) == CellSize(c') == 2
    ensures var mem' := WriteCell(b, mem, c, KeycodeBytes(keycode));
      KeycodeOfBytes(ReadCell(b, mem', c')) == if c == c' then keycode else KeycodeOfBytes(ReadCell(b, mem, c'))
  {
    KeycodeRoundTrip(keycode);
    WriteSeenOnlyThere(b, mem, c, KeycodeBytes(keycode), c');
  }

  // ---------------------------------------------------------------- the accessors

  class Store {
    const build: Build
    const bytes: array<Byte>

    ghost predicate Valid() {
      ValidBuild(build) && bytes.Length > build.maxAddr
    }

    constructor (build: Build, total: nat)
      requires ValidBuild(build) && total > build.maxAddr
      ensures Valid() && this.build == build && fresh(bytes) && bytes.Length == total
    {
      this.build := build;
      bytes := new Byte[total](_ => 0xFF);
    }

    method WriteBlock(addr: nat, block: seq<Byte>)
      requires addr + |block| <= bytes.Length
      modifies bytes
      ensures bytes[..] == WriteAt(old(bytes[..]), addr, block)
    {
      ghost var mem := bytes[..];
      for i := 0 to |block|
        invariant bytes[..] == WriteAt(mem, addr, block[..i])
      {
        bytes[addr + i] := block[i];
        assert block[..i + 1] == block[..i] + [block[i]];
      }
      assert block[..|block|] == block;
    }

    method ReadKeycodeAt(addr: nat) returns (keycode: U16)
      requires addr + 2 <= bytes.Length
      ensures keycode == KeycodeOfBytes(ReadAt(bytes[..], addr, 2))
    {
      return JoinBytes(bytes[addr], bytes[addr + 1]);
    }

    method WriteKeycodeAt(addr: nat, keycode: U16)
      requires addr + 2 <= bytes.Length
      modifies bytes
      ensures bytes[..] == WriteAt(old(bytes[..]), addr, KeycodeBytes(keycode))
    {
      bytes[addr] := keycode / 0x100;
      bytes[addr + 1] := keycode % 0x100;
    }

    method GetKeycode(layer: nat, row: nat, col: nat) returns (keycode: U16)
      requires Valid()
      ensures var c := KeyCell(layer, row, col);
        keycode == if ValidCell(build, c) then KeycodeOfBytes(ReadCell(build, bytes[..], c)) else KC_NO
    {
      if layer >= build.layers || row >= build.rows || col >= build.cols {
        return KC_NO;
      }
      CellInMemory(build, KeyCell(layer, row, col));
      keycode := ReadKeycodeAt(CellAddr(build, KeyCell(layer, row, col)));
    }

    method SetKeycode(layer: nat, row: nat, col: nat, keycode: U16)
      requires Valid()
      modifies bytes
      ensures bytes[..] == WriteCell(build, old(bytes[..]), KeyCell(layer, row, col), KeycodeBytes(keycode))
    {
      if layer >= build.layers || row >= build.rows || col >= build.cols {
        return;
      }
      CellInMemory(build, KeyCell(layer, row, col));
      WriteKeycodeAt(CellAddr(build, KeyCell(layer, row, col)), keycode);
    }

    method GetEncoder(layer: nat, id: nat, clockwise: bool) returns (keycode: U16)
      requires Valid()
      ensures var c := EncoderCell(layer, id, clockwise);
        keycode == if ValidCell(build, c) then KeycodeOfBytes(ReadCell(build, bytes[..], c)) else KC_NO
    {
      if layer >= build.layers || id >= build.encoders {
        return KC_NO;
      }
      CellInMemory(build, EncoderCell(layer, id, clockwise));
      keycode := ReadKeycodeAt(CellAddr(build, EncoderCell(layer, id, clockwise)));
    }

    method SetEncoder(layer: nat, id: nat, clockwise: bool, keycode: U16)
      requires Valid()
      modifies bytes
      ensures bytes[..] == WriteCell(build, old(bytes[..]), EncoderCell(layer, id, clockwise), KeycodeBytes(keycode))
    {
      if layer >= build.layers || id >= build.encoders {
        return;
      }
      CellInMemory(build, EncoderCell(layer, id, clockwise));
      WriteKeycodeAt(CellAddr(build, EncoderCell(layer, id, clockwise)), keycode);
    }

    method GetSetting(offset: nat) returns (value: Byte)
      requires Valid()
      ensures value == if ValidCell(build, SettingCell(offset)) then ReadCell(build, bytes[..], SettingCell(offset))[0]
              else 0
    {
      if offset >= build.settings {
        return 0;
      }
      return bytes[SettingsAddr(build) + offset];
    }

    method SetSetting(offset: nat, value: Byte)
      requires Valid()
      modifies bytes
      ensures bytes[..] == WriteCell(build, old(bytes[..]), SettingCell(offset), [value])
    {
      if offset >= build.settings {
        return;
      }
      bytes[SettingsAddr(build) + offset] := value;
    }

    /** The tap-dance, combo and key-override getters: a whole entry, or a refusal. */
    method GetEntry(c: Cell) returns (ok: bool, entry: seq<Byte>)
      requires Valid() && (c.TapDanceCell? || c.ComboCell? || c.OverrideCell?)
      ensures ok <==> ValidCell(build, c)
      ensures ok ==> entry == ReadCell(build, bytes[..], c)
    {
      if !ValidCell(build, c) {
        return false, [];
      }
      CellInMemory(build, c);
      return true, bytes[CellAddr(build, c)..CellAddr(build, c) + ENTRY_SIZE];
    }

    method SetEntry(c: Cell, entry: seq<Byte>) returns (ok: bool)
      requires Valid() && (c.TapDanceCell? || c.ComboCell? || c.OverrideCell?) && |entry| == ENTRY_SIZE
      modifies bytes
      ensures ok <==> ValidCell(build, c)
      ensures bytes[..] == WriteCell(build, old(bytes[..]), c, entry)
    {
      if !ValidCell(build, c) {
        return false;
      }
      CellInMemory(build, c);
      WriteBlock(CellAddr(build, c), entry);
      return true;
    }

    /** Bytes past the macro area read as zero. */
    method MacroGetBuffer(offset: nat, size: nat) returns (data: seq<Byte>)
      requires Valid()
      ensures |data| == size
      ensures forall i :: 0 <= i < size ==>
        data[i] == if ValidCell(build, MacroCell(offset + i)) then ReadCell(build, bytes[..], MacroCell(offset + i))[0]
          else 0
    {
      data := [];
      for i := 0 to size
        invariant |data| == i
        invariant forall j :: 0 <= j < i ==>
          data[j] == if ValidCell(build, MacroCell(offset + j))
            then ReadCell(build, bytes[..], MacroCell(offset + j))[0] else 0
      {
        if offset + i < MacroSize(build) {
          data := data + [bytes[MacroAddr(build) + offset + i]];
        } else {
          data := data + [0];
        }
      }
    }

    method SetMacroByte(offset: nat, value: Byte)
      requires Valid()
      modifies bytes
      ensures bytes[..] == WriteCell(build, old(bytes[..]), MacroCell(offset), [value])
    {
      if offset < MacroSize(build) {
        bytes[MacroAddr(build) + offset] := value;
      }
    }

    /** Bytes past the macro area are dropped. */
    method MacroSetBuffer(offset: nat, data: seq<Byte>)
      requires Valid()
      modifies bytes
      ensures bytes[..] == WriteAll(build, old(bytes[..]), MacroWrites(offset, data))
    {
      ghost var mem := bytes[..];
      for i := 0 to |data|
        invariant bytes[..] == WriteAll(build, mem, MacroWrites(offset, data[..i]))
      {
        SetMacroByte(offset + i, data[i]);
        MacroWritesStep(build, mem, offset, data, i);
      }
      assert data[..|data|] == data;
    }
  }

  function MacroWrites(offset: nat, data: seq<Byte>): (ws: seq<Write>)
    ensures WellSized(ws)
  {
    seq(|data|, i requires 0 <= i < |data| => Write(MacroCell(offset + i), [data[i]]))
  }

  lemma MacroWritesStep(b: Build, mem: seq<Byte>, offset: nat, data: seq<Byte>, i: nat)
    requires ValidMemory(b, mem) && i < |data|
    ensures WriteAll(b, mem, MacroWrites(offset, data[..i + 1])) ==
            WriteCell(b, WriteAll(b, mem, MacroWrites(offset, data[..i])), MacroCell(offset + i), [data[i]])
  {
    var ws := MacroWrites(offset, data[..i + 1]);
    assert ws[..i] == MacroWrites(offset, data[..i]);
    assert ws[i] == Write(MacroCell(offset + i), [data[i]]);
  }
}
