/**
 `dynamic_keymap_get_buffer` and `dynamic_keymap_set_buffer`: the whole keymap as bytes, written in
 pieces at any alignment. While the keyboard is locked no piece may put QK_BOOT into a key.
 */
module KeymapBuffer {
  import opened Bytes
  import opened KeymapLayout
  import opened KeymapStore

  const QK_BOOT: U16 := 0x7C00

  // ---------------------------------------------------------------- the keymap as bytes

  function Region(b: Build, mem: seq<Byte>): (km: seq<Byte>)
    requires ValidMemory(b, mem)
    ensures |km| == KeymapSize(b)
  {
    mem[b.start..b.start + KeymapSize(b)]
  }

  function KeycodeAt(km: seq<Byte>, q: nat): U16
    requires 2 * q + 1 < |km|
  {
    JoinBytes(km[2 * q], km[2 * q + 1])
  }

  /** Does a piece of `size` bytes at `offset` touch key `q`? */
  predicate Touches(offset: nat, size: nat, q: nat) {
    size > 0 && offset < 2 * q + 2 && 2 * q < offset + size
  }

  /** What may be stored while locked: the bytes of every key that would become QK_BOOT are replaced by 0xFF. */
  function Filtered(km: seq<Byte>, offset: nat, data: seq<Byte>): (f: seq<Byte>)
    requires |km| % 2 == 0 && offset + |data| <= |km|
    ensures |f| == |data|
  {
    seq(|data|, i requires 0 <= i < |data| =>
      if KeycodeAt(WriteAt(km, offset, data), (offset + i) / 2) == QK_BOOT then 0xFF else data[i])
  }

  lemma WriteAtIndex(km: seq<Byte>, offset: nat, data: seq<Byte>, k: nat)
    requires offset + |data| <= |km| && k < |km|
    ensures WriteAt(km, offset, data)[k] == if offset <= k < offset + |data| then data[k - offset] else km[k]
  {
  }

  lemma WrittenKeycode(km: seq<Byte>, offset: nat, data: seq<Byte>, q: nat)
    requires offset + |data| <= |km| && 2 * q + 1 < |km|
    ensures KeycodeAt(WriteAt(km, offset, data), q) ==
            JoinBytes(if offset <= 2 * q < offset + |data| then data[2 * q - offset] else km[2 * q],
                      if offset <= 2 * q + 1 < offset + |data| then data[2 * q + 1 - offset] else km[2 * q + 1])
  {
    WriteAtIndex(km, offset, data, 2 * q);
    WriteAtIndex(km, offset, data, 2 * q + 1);
  }

  /** The other byte of the key that byte `i` of the data belongs to: from the data, or already stored. */
  function OtherByte(km: seq<Byte>, offset: nat, data: seq<Byte>, i: nat): Byte
    requires |km| % 2 == 0 && offset + |data| <= |km| && i < |data|
  {
    if (offset + i) % 2 == 0 then if i + 1 < |data| then data[i + 1] else km[offset + i + 1]
    else if i > 0 then data[i - 1] else km[offset + i - 1]
  }

  lemma FilteredByte(km: seq<Byte>, offset: nat, data: seq<Byte>, i: nat)
    requires |km| % 2 == 0 && offset + |data| <= |km| && i < |data|
    ensures Filtered(km, offset, data)[i] ==
      var other := OtherByte(km, offset, data, i);
      if (if (offset + i) % 2 == 0 then JoinBytes(data[i], other) else JoinBytes(other, data[i])) == QK_BOOT then 0xFF
      else data[i]
  {
    WrittenKeycode(km, offset, data, (offset + i) / 2);
  }

  /**
   Key by key: a key the piece does not touch keeps its keycode; one that it touches gets the keycode
   the plain write would give it, unless that is QK_BOOT, and then something else.
   */
  lemma FilteredWrite(km: seq<Byte>, offset: nat, data: seq<Byte>, q: nat)
    requires |km| % 2 == 0 && offset + |data| <= |km| && 2 * q + 1 < |km|
    ensures var plain := KeycodeAt(WriteAt(km, offset, data), q);
      var stored := KeycodeAt(WriteAt(km, offset, Filtered(km, offset, data)), q);
      if !Touches(offset, |data|, q) then stored == plain == KeycodeAt(km, q)
      else if plain != QK_BOOT then stored == plain
      else stored != QK_BOOT
  {
    WrittenKeycode(km, offset, data, q);
    WrittenKeycode(km, offset, Filtered(km, offset, data), q);
  }

  ghost predicate Harmless(km: seq<Byte>, offset: nat, data: seq<Byte>)
    requires |km| % 2 == 0 && offset + |data| <= |km|
  {
    forall q :: 0 <= q < |km| / 2 && Touches(offset, |data|, q) ==> KeycodeAt(WriteAt(km, offset, data), q) != QK_BOOT
  }

  /** A touched key that would become QK_BOOT has a byte in the data that gets replaced. */
  lemma BootIsReplaced(km: seq<Byte>, offset: nat, data: seq<Byte>, q: nat)
    requires |km| % 2 == 0 && offset + |data| <= |km| && 2 * q + 1 < |km|
    requires Touches(offset, |data|, q) && KeycodeAt(WriteAt(km, offset, data), q) == QK_BOOT
    ensures Filtered(km, offset, data) != data
  {
    WrittenKeycode(km, offset, data, q);
    var f := Filtered(km, offset, data);
    if offset <= 2 * q {
      assert f[2 * q - offset] == 0xFF;
    } else {
      assert f[2 * q + 1 - offset] == 0xFF;
    }
  }

  /** Data is stored as it is exactly when it makes no key QK_BOOT. */
  lemma VerbatimIffHarmless(km: seq<Byte>, offset: nat, data: seq<Byte>)
    requires |km| % 2 == 0 && offset + |data| <= |km|
    ensures Filtered(km, offset, data) == data <==> Harmless(km, offset, data)
  {
    if !Harmless(km, offset, data) {
      var q :| 0 <= q < |km| / 2 && Touches(offset, |data|, q) && KeycodeAt(WriteAt(km, offset, data), q) == QK_BOOT;
      BootIsReplaced(km, offset, data, q);
    } else {
      var f := Filtered(km, offset, data);
      forall i | 0 <= i < |data| ensures f[i] == data[i] {
        assert Touches(offset, |data|, (offset + i) / 2);
      }
    }
  }

  // ---------------------------------------------------------------- any number of pieces

  datatype Piece = Piece(offset: nat, data: seq<Byte>)

  /** The keymap after pieces sent while locked; those that do not fit are ignored. */
  function LockedWrites(km: seq<Byte>, pieces: seq<Piece>): (km': seq<Byte>)
    requires |km| % 2 == 0
    ensures |km'| == |km|
  {
    if pieces == [] then km
    else
      var before := LockedWrites(km, pieces[..|pieces| - 1]);
      var p := pieces[|pieces| - 1];
      if p.offset + |p.data| > |km| then before
      else WriteAt(before, p.offset, Filtered(before, p.offset, p.data))
  }

  /** However the host cuts and aligns its pieces, a locked keyboard never gains a QK_BOOT key. */
  lemma {:induction false} LockedNeverGainsBoot(km: seq<Byte>, pieces: seq<Piece>, q: nat)
    requires |km| % 2 == 0 && 2 * q + 1 < |km|
    requires KeycodeAt(km, q) != QK_BOOT
    ensures KeycodeAt(LockedWrites(km, pieces), q) != QK_BOOT
  {
    if pieces != [] {
      LockedNeverGainsBoot(km, pieces[..|pieces| - 1], q);
      var before := LockedWrites(km, pieces[..|pieces| - 1]);
      var p := pieces[|pieces| - 1];
      if p.offset + |p.data| <= |km| {
        FilteredWrite(before, p.offset, p.data, q);
      }
    }
  }

  // ---------------------------------------------------------------- through the accessors of single keys

  lemma RegionReads(b: Build, mem: seq<Byte>, c: Cell)
    requires ValidMemory(b, mem) && ValidCell(b, c) && c.KeyCell?
    ensures 2 * CellIndex(b, c) + 1 < KeymapSize(b)
    ensures KeycodeOfBytes(ReadCell(b, mem, c)) == KeycodeAt(Region(b, mem), CellIndex(b, c))
  {
    CellInRegion(b, c);
    CellInMemory(b, c);
    AddrByIndex(b, c);
    KeycodeInRegion(b, mem, CellIndex(b, c), CellAddr(b, c));
  }

  lemma KeycodeInRegion(b: Build, mem: seq<Byte>, q: nat, addr: nat)
    requires ValidMemory(b, mem) && addr == b.start + 2 * q && 2 * q + 1 < KeymapSize(b)
    ensures KeycodeOfBytes(ReadAt(mem, addr, 2)) == KeycodeAt(Region(b, mem), q)
  {
  }

  lemma RegionByte(b: Build, mem: seq<Byte>, k: nat)
    requires ValidMemory(b, mem) && k < KeymapSize(b)
    ensures b.start + k < |mem| && Region(b, mem)[k] == mem[b.start + k]
  {
  }

  lemma RegionAfterWrite(b: Build, mem: seq<Byte>, offset: nat, data: seq<Byte>)
    requires ValidMemory(b, mem) && offset + |data| <= KeymapSize(b)
    ensures Region(b, WriteAt(mem, b.start + offset, data)) == WriteAt(Region(b, mem), offset, data)
  {
  }

  lemma BehindKeymap(b: Build, c: Cell)
    requires ValidBuild(b) && ValidCell(b, c) && !c.KeyCell?
    ensures b.start + KeymapSize(b) <= CellAddr(b, c)
  {
    CellInRegion(b, c);
    RegionsInOrder(b, KeyCell(0, 0, 0), c);
  }

  /** A bulk write reaches keys only: every other cell reads as before. */
  lemma OtherCellsUntouched(b: Build, mem: seq<Byte>, offset: nat, data: seq<Byte>, c: Cell)
    requires ValidMemory(b, mem) && offset + |data| <= KeymapSize(b)
    requires ValidCell(b, c) && !c.KeyCell?
    ensures ReadCell(b, WriteAt(mem, b.start + offset, data), c) == ReadCell(b, mem, c)
  {
    CellInMemory(b, c);
    BehindKeymap(b, c);
    ReadElsewhere(mem, b.start + offset, data, CellAddr(b, c), CellSize(c));
  }

  /** A locked bulk write as `dynamic_keymap_get_keycode` sees it. */
  lemma LockedWriteSeenByKey(b: Build, mem: seq<Byte>, offset: nat, data: seq<Byte>, c: Cell)
    requires ValidMemory(b, mem) && offset + |data| <= KeymapSize(b)
    requires ValidCell(b, c) && c.KeyCell?
    ensures KeymapSize(b) % 2 == 0
    ensures var mem' := WriteAt(mem, b.start + offset, Filtered(Region(b, mem), offset, data));
      var stored := KeycodeOfBytes(ReadCell(b, mem', c));
      var plain := KeycodeOfBytes(ReadCell(b, WriteAt(mem, b.start + offset, data), c));
      if !Touches(offset, |data|, CellIndex(b, c)) then stored == KeycodeOfBytes(ReadCell(b, mem, c))
      else if plain != QK_BOOT then stored == plain
      else stored != QK_BOOT
  {
    EvenSize(b);
    var km := Region(b, mem);
    var f := Filtered(km, offset, data);
    RegionReads(b, mem, c);
    RegionReads(b, WriteAt(mem, b.start + offset, f), c);
    RegionReads(b, WriteAt(mem, b.start + offset, data), c);
    RegionAfterWrite(b, mem, offset, f);
    RegionAfterWrite(b, mem, offset, data);
    FilteredWrite(km, offset, data, CellIndex(b, c));
  }

  lemma EvenSize(b: Build)
    ensures KeymapSize(b) % 2 == 0
  {
  }

  // ---------------------------------------------------------------- the two operations

  /** Bytes past the keymap read as zero. */
  method GetBuffer(store: Store, offset: U16, size: U16) returns (data: seq<Byte>)
    requires store.Valid()
    ensures |data| == size
    ensures var km := Region(store.build, store.bytes[..]);
      forall i :: 0 <= i < size ==> data[i] == if offset + i < |km| then km[offset + i] else 0
  {
    var n := KeymapSize(store.build);
    data := [];
    for i := 0 to size
      invariant |data| == i
      invariant forall j :: 0 <= j < i ==>
        data[j] == if offset + j < n then Region(store.build, store.bytes[..])[offset + j] else 0
    {
      if offset + i < n {
        data := data + [store.bytes[store.build.start + offset + i]];
      } else {
        data := data + [0];
      }
    }
  }

  /** The loop over whole keys, its bounds 16-bit words, comes to byte `i`: in pairs from `from` on, up to `to`. */
  predicate LoopVisits(from: U16, to: U16, i: int) {
    var first := i - (i - from) % 2;
    from <= first < to
  }

  /** The check of a locked keyboard looks at byte `i` of the caller's buffer. */
  predicate LooksAt(offset: U16, size: U16, i: int) {
    var oddEnd := (offset + size) % 2 != 0;
    || (offset % 2 != 0 && i == 0)
    || (oddEnd && i == size - 1)
    || LoopVisits(offset % 2, if oddEnd then (size - 1) % 0x1_0000 else size, i)
  }

  /** It looks at nothing but the piece, except when that is empty and at an odd offset: then the bound wraps around. */
  lemma LooksInsideIff(offset: U16, size: U16)
    ensures (forall i :: LooksAt(offset, size, i) ==> 0 <= i < size) <==> size > 0 || offset % 2 == 0
  {
    if size == 0 && offset % 2 != 0 {
      assert LooksAt(offset, size, 0);
    }
  }

  /** A key whose two bytes are both in the piece. */
  method FilterPair(ghost km: seq<Byte>, offset: nat, ghost d: seq<Byte>, data: array<Byte>, i: nat)
    requires |km| % 2 == 0 && offset + |d| <= |km| && |d| == data.Length && i + 1 < data.Length
    requires (offset + i) % 2 == 0 && data[i] == d[i] && data[i + 1] == d[i + 1]
    modifies data
    ensures data[i] == Filtered(km, offset, d)[i] && data[i + 1] == Filtered(km, offset, d)[i + 1]
    ensures forall j :: 0 <= j < |d| && j != i && j != i + 1 ==> data[j] == old(data[j])
  {
    FilteredByte(km, offset, d, i);
    FilteredByte(km, offset, d, i + 1);
    if JoinBytes(data[i], data[i + 1]) == QK_BOOT {
      data[i], data[i + 1] := 0xFF, 0xFF;
    }
  }

  /** The loop over the keys that lie wholly inside the piece. */
  method FilterPairs(ghost km: seq<Byte>, offset: nat, ghost d: seq<Byte>, data: array<Byte>, from: nat, to: nat)
    requires |km| % 2 == 0 && offset + |d| <= |km| && |d| == data.Length
    requires from <= to <= data.Length && (offset + from) % 2 == 0 && (offset + to) % 2 == 0
    requires forall j :: 0 <= j < |d| ==> data[j] == if from <= j < to then d[j] else Filtered(km, offset, d)[j]
    modifies data
    ensures data[..] == Filtered(km, offset, d)
  {
    ghost var f := Filtered(km, offset, d);
    var i := from;
    while i < to
      invariant from <= i <= to && (offset + i) % 2 == 0
      invariant forall j :: 0 <= j < |d| ==> data[j] == if i <= j < to then d[j] else f[j]
    {
      assert i + 1 < to;
      FilterPair(km, offset, d, data, i);
      i := i + 2;
    }
  }

  /** An odd offset: the first byte completes a key whose high byte is stored already. */
  method FilterFirst(ghost km: seq<Byte>, offset: nat, data: array<Byte>, stored: Byte)
    requires |km| % 2 == 0 && offset + data.Length <= |km| && data.Length > 0
    requires offset % 2 != 0 && stored == km[offset - 1]
    modifies data
    ensures data[0] == Filtered(km, offset, old(data[..]))[0]
    ensures forall j :: 0 < j < data.Length ==> data[j] == old(data[j])
  {
    FilteredByte(km, offset, data[..], 0);
    if JoinBytes(stored, data[0]) == QK_BOOT {
      data[0] := 0xFF;
    }
  }

  /** An odd end: the last byte is the high byte of a key whose low byte is stored already. */
  method FilterLast(ghost km: seq<Byte>, offset: nat, ghost d: seq<Byte>, data: array<Byte>, stored: Byte)
    requires |km| % 2 == 0 && offset + |d| < |km| && |d| == data.Length > 0
    requires (offset + |d|) % 2 != 0 && stored == km[offset + |d|] && data[|d| - 1] == d[|d| - 1]
    modifies data
    ensures data[|d| - 1] == Filtered(km, offset, d)[|d| - 1]
    ensures forall j :: 0 <= j < |d| - 1 ==> data[j] == old(data[j])
  {
    FilteredByte(km, offset, d, |d| - 1);
    if JoinBytes(data[data.Length - 1], stored) == QK_BOOT {
      data[data.Length - 1] := 0xFF;
    }
  }

  /** Both edges, then the keys in between; `before` and `after` are the stored bytes next to an odd edge. */
  method FilterPiece(ghost km: seq<Byte>, offset: nat, data: array<Byte>, before: Byte, after: Byte)
    requires |km| % 2 == 0 && (data.Length > 0 || offset % 2 == 0) && offset + data.Length <= |km|
    requires offset % 2 != 0 ==> before == km[offset - 1]
    requires (offset + data.Length) % 2 != 0 ==> after == km[offset + data.Length]
    modifies data
    ensures data[..] == Filtered(km, offset, old(data[..]))
  {
    ghost var d := data[..];
    ghost var f := Filtered(km, offset, d);
    var from, to := 0, data.Length;
    if offset % 2 != 0 {
      FilterFirst(km, offset, data, before);
      from := 1;
    }
    assert forall j :: 0 <= j < |d| ==> data[j] == if j < from then f[j] else d[j];
    if (offset + data.Length) % 2 != 0 {
      FilterLast(km, offset, d, data, after);
      to := data.Length - 1;
    }
    FilterPairs(km, offset, d, data, from, to);
  }

  /**
   The check of a locked keyboard: replace, in the caller's buffer, what must not be stored.
   Not `inside`: the check leaves the caller's buffer; whatever the code does from there is not modelled.
   */
  method FilterBuffer(store: Store, offset: U16, data: array<Byte>) returns (inside: bool)
    requires store.Valid() && data != store.bytes && data.Length < 0x1_0000
    requires offset + data.Length <= KeymapSize(store.build) && KeymapSize(store.build) % 2 == 0
    modifies data
    ensures inside <==> forall i :: LooksAt(offset, data.Length, i) ==> 0 <= i < data.Length
    ensures inside ==> data[..] == Filtered(Region(store.build, store.bytes[..]), offset, old(data[..]))
  {
    LooksInsideIff(offset, data.Length);
    if data.Length == 0 && offset % 2 != 0 {
      return false;
    }
    var target := store.build.start + offset;
    var before, after := 0, 0;
    ghost var km := Region(store.build, store.bytes[..]);
    if offset % 2 != 0 {
      RegionByte(store.build, store.bytes[..], offset - 1);
      before := store.bytes[target - 1];
    }
    if (offset + data.Length) % 2 != 0 {
      RegionByte(store.build, store.bytes[..], offset + data.Length);
      after := store.bytes[target + data.Length];
    }
    FilterPiece(km, offset, data, before, after);
    return true;
  }

  /**
   A piece that does not fit is ignored; a locked keyboard stores the filtered piece, an unlocked one the
   piece itself. Only with an empty piece at an odd offset does a locked keyboard leave the caller's buffer.
   */
  method SetBuffer(store: Store, unlocked: bool, offset: U16, data: array<Byte>) returns (inside: bool)
    requires store.Valid() && data != store.bytes && data.Length < 0x1_0000
    modifies store.bytes, data
    ensures KeymapSize(store.build) % 2 == 0
    ensures inside <==> unlocked || offset >= KeymapSize(store.build) || data.Length > 0 || offset % 2 == 0
    ensures var b, mem := store.build, old(store.bytes[..]);
      inside ==>
      if offset + data.Length > KeymapSize(b) then store.bytes[..] == mem && data[..] == old(data[..])
      else
        && data[..] == (if unlocked then old(data[..]) else Filtered(Region(b, mem), offset, old(data[..])))
        && store.bytes[..] == WriteAt(mem, b.start + offset, data[..])
  {
    EvenSize(store.build);
    var n := KeymapSize(store.build);
    if offset >= n || n - offset < data.Length {
      return true;
    }
    LooksInsideIff(offset, data.Length);
    inside := true;
    if !unlocked {
      inside := FilterBuffer(store, offset, data);
    }
    if inside {
      store.WriteBlock(store.build.start + offset, data[..]);
    }
  }
}
