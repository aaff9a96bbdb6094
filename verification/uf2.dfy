/** The UF2 container of `util/uf2conv.py`: 512-byte blocks, each carrying data for one stretch of memory. */
module Uf2 {
  import opened Bytes

  type U32 = w: nat | w < 0x1_0000_0000

  /** Every way a conversion ends in an exception. */
  datatype Error = BadMagic | BadSize | OutOfOrder | TooMuchPadding | UnalignedPadding | AddressTooLarge | BadRecord

  datatype Result<T> = Ok(value: T) | Err(error: Error)

  const MAGIC_START0: U32 := 0x0A324655
  const MAGIC_START1: U32 := 0x9E5D5157
  const MAGIC_END: U32 := 0x0AB16F30
  const FLAG_FAMILY: U32 := 0x2000

  const BLOCK_SIZE := 512
  const HEADER_SIZE := 32
  const MAX_DATA := 476
  const PAGE := 256
  const MAX_PADDING := 10 * 1024 * 1024

  // ---------------------------------------------------------------- little-endian words

  function Le32(w: U32): (bs: seq<Byte>)
    ensures |bs| == 4
  {
    [w % 0x100, w / 0x100 % 0x100, w / 0x1_0000 % 0x100, w / 0x100_0000]
  }

  function FromLe32(bs: seq<Byte>): U32
    requires |bs| == 4
  {
    (bs[0] as int) + (bs[1] as int) * 0x100 + (bs[2] as int) * 0x1_0000 + (bs[3] as int) * 0x100_0000
  }

  lemma Le32RoundTrip(w: U32)
    ensures FromLe32(Le32(w)) == w
  {
    var q := w / 0x100;
    assert q / 0x100 == w / 0x1_0000 && q / 0x1_0000 == w / 0x100_0000;
    assert w / 0x1_0000 == w / 0x100_0000 * 0x100 + w / 0x1_0000 % 0x100;
  }

  /** The `k`th word of a header. */
  function WordAt(block: seq<Byte>, k: nat): U32
    requires 4 * k + 4 <= |block|
  {
    FromLe32(block[4 * k..4 * k + 4])
  }

  function Pack(ws: seq<U32>): (bs: seq<Byte>)
    ensures |bs| == 4 * |ws|
  {
    if ws == [] then [] else Pack(ws[..|ws| - 1]) + Le32(ws[|ws| - 1])
  }

  lemma {:induction false} WordOfPack(ws: seq<U32>, tail: seq<Byte>, k: nat)
    requires k < |ws|
    ensures WordAt(Pack(ws) + tail, k) == ws[k]
  {
    var n := |ws| - 1;
    if k == n {
      assert (Pack(ws) + tail)[4 * k..4 * k + 4] == Le32(ws[n]);
      Le32RoundTrip(ws[n]);
    } else {
      assert Pack(ws) + tail == Pack(ws[..n]) + (Le32(ws[n]) + tail);
      WordOfPack(ws[..n], Le32(ws[n]) + tail, k);
    }
  }

  // ---------------------------------------------------------------- blocks

  /** What a block says: flags, target address, family, and the data for that address. */
  datatype Block = Block(flags: U32, addr: U32, family: U32, data: seq<Byte>)

  predicate HasFamily(flags: U32) {
    flags / FLAG_FAMILY % 2 == 1
  }

  predicate NotForFlash(flags: U32) {
    flags % 2 == 1
  }

  /** A 512-byte block with its data area padded by `pad`. */
  function Encode(b: Block, blockNo: U32, numBlocks: U32, pad: seq<Byte>): (bs: seq<Byte>)
    requires |b.data| + |pad| == MAX_DATA
    ensures |bs| == BLOCK_SIZE
  {
    Pack([MAGIC_START0, MAGIC_START1, b.flags, b.addr, |b.data|, blockNo, numBlocks, b.family])
      + b.data + pad + Le32(MAGIC_END)
  }

  /** Do these 512 bytes form a valid block that says `b`? */
  ghost predicate Says(bytes: seq<Byte>, b: Block)
    requires |bytes| == BLOCK_SIZE
  {
    && WordAt(bytes, 0) == MAGIC_START0 && WordAt(bytes, 1) == MAGIC_START1
    && WordAt(bytes, 2) == b.flags && WordAt(bytes, 3) == b.addr
    && WordAt(bytes, 4) == |b.data| <= MAX_DATA && WordAt(bytes, 7) == b.family
    && bytes[HEADER_SIZE..HEADER_SIZE + |b.data|] == b.data
  }

  lemma EncodeSays(b: Block, blockNo: U32, numBlocks: U32, pad: seq<Byte>)
    requires |b.data| + |pad| == MAX_DATA
    ensures Says(Encode(b, blockNo, numBlocks, pad), b)
  {
    var ws: seq<U32> := [MAGIC_START0, MAGIC_START1, b.flags, b.addr, |b.data|, blockNo, numBlocks, b.family];
    var tail := b.data + pad + Le32(MAGIC_END);
    var bs := Encode(b, blockNo, numBlocks, pad);
    assert bs == Pack(ws) + tail;
    forall k | 0 <= k < 8 ensures WordAt(bs, k) == ws[k] {
      WordOfPack(ws, tail, k);
    }
    assert bs[HEADER_SIZE..HEADER_SIZE + |b.data|] == tail[..|b.data|] == b.data;
  }

  // ---------------------------------------------------------------- the container, byte by byte

  /** The little-endian number at offset `o`. */
  function NumberAt(bytes: seq<Byte>, o: nat): nat
    requires o + 4 <= |bytes|
  {
    (bytes[o] as nat) + (bytes[o + 1] as nat) * 0x100
      + (bytes[o + 2] as nat) * 0x1_0000 + (bytes[o + 3] as nat) * 0x100_0000
  }

  /** Block `no` of `count`, as any reader of the format expects it: numbered, and marked at both ends. */
  predicate IsNumbered(bytes: seq<Byte>, no: nat, count: nat) {
    && |bytes| == 512
    && bytes[..4] == [0x55, 0x46, 0x32, 0x0A] && bytes[4..8] == [0x57, 0x51, 0x5D, 0x9E]
    && NumberAt(bytes, 20) == no && NumberAt(bytes, 24) == count
    && bytes[508..] == [0x30, 0x6F, 0xB1, 0x0A]
  }

  /** It carries `data` for address `addr`, followed by `rest` up to the end mark. */
  predicate Carries(bytes: seq<Byte>, flags: nat, addr: nat, family: nat, data: seq<Byte>, rest: seq<Byte>) {
    && |bytes| == 512 && |data| + |rest| == 476
    && NumberAt(bytes, 8) == flags && NumberAt(bytes, 12) == addr
    && NumberAt(bytes, 16) == |data| && NumberAt(bytes, 28) == family
    && bytes[32..32 + |data|] == data && bytes[32 + |data|..508] == rest
  }

  lemma WordIsNumber(bytes: seq<Byte>, k: nat)
    requires 4 * k + 4 <= |bytes|
    ensures NumberAt(bytes, 4 * k) == WordAt(bytes, k)
  {
  }

  lemma EncodedHeader(b: Block, blockNo: U32, numBlocks: U32, pad: seq<Byte>)
    requires |b.data| + |pad| == MAX_DATA
    ensures var bs := Encode(b, blockNo, numBlocks, pad);
      && NumberAt(bs, 8) == b.flags && NumberAt(bs, 12) == b.addr && NumberAt(bs, 16) == |b.data|
      && NumberAt(bs, 20) == blockNo && NumberAt(bs, 24) == numBlocks && NumberAt(bs, 28) == b.family
  {
    var ws: seq<U32> := [MAGIC_START0, MAGIC_START1, b.flags, b.addr, |b.data|, blockNo, numBlocks, b.family];
    var bs, tail := Encode(b, blockNo, numBlocks, pad), b.data + pad + Le32(MAGIC_END);
    assert bs == Pack(ws) + tail;
    forall k: nat | k < 8 ensures NumberAt(bs, 4 * k) == ws[k] {
      WordOfPack(ws, tail, k);
      WordIsNumber(bs, k);
    }
    assert NumberAt(bs, 4 * 2) == ws[2] && NumberAt(bs, 4 * 3) == ws[3] && NumberAt(bs, 4 * 4) == ws[4];
    assert NumberAt(bs, 4 * 5) == ws[5] && NumberAt(bs, 4 * 6) == ws[6] && NumberAt(bs, 4 * 7) == ws[7];
  }

  lemma EncodedMarks(b: Block, blockNo: U32, numBlocks: U32, pad: seq<Byte>)
    requires |b.data| + |pad| == MAX_DATA
    ensures var bs := Encode(b, blockNo, numBlocks, pad);
      && bs[..4] == [0x55, 0x46, 0x32, 0x0A] && bs[4..8] == [0x57, 0x51, 0x5D, 0x9E]
      && bs[508..] == [0x30, 0x6F, 0xB1, 0x0A]
  {
    var ws: seq<U32> := [MAGIC_START0, MAGIC_START1, b.flags, b.addr, |b.data|, blockNo, numBlocks, b.family];
    var bs, tail := Encode(b, blockNo, numBlocks, pad), b.data + pad + Le32(MAGIC_END);
    assert bs == Pack(ws) + tail;
    WordOfPack(ws, tail, 0);
    WordOfPack(ws, tail, 1);
    BytesOfWord(bs[..4], MAGIC_START0);
    BytesOfWord(bs[4..8], MAGIC_START1);
    assert Le32(MAGIC_END) == [0x30, 0x6F, 0xB1, 0x0A];
    assert bs[508..] == Le32(MAGIC_END);
  }

  lemma BytesOfWord(bs: seq<Byte>, w: U32)
    requires |bs| == 4 && FromLe32(bs) == w
    ensures bs == Le32(w)
  {
    Le32RoundTrip(w);
    SameNumberSameBytes(bs, Le32(w));
  }

  lemma SameNumberSameBytes(a: seq<Byte>, b: seq<Byte>)
    requires |a| == |b| == 4 && FromLe32(a) == FromLe32(b)
    ensures a == b
  {
    var a0: int, a1: int, a2: int, a3: int := a[0], a[1], a[2], a[3];
    var b0: int, b1: int, b2: int, b3: int := b[0], b[1], b[2], b[3];
    assert a3 == b3;
    assert a2 == b2;
    assert a1 == b1;
  }

  lemma EncodedCarries(b: Block, blockNo: U32, numBlocks: U32, pad: seq<Byte>)
    requires |b.data| + |pad| == MAX_DATA
    ensures IsNumbered(Encode(b, blockNo, numBlocks, pad), blockNo, numBlocks)
    ensures Carries(Encode(b, blockNo, numBlocks, pad), b.flags, b.addr, b.family, b.data, pad)
  {
    EncodedHeader(b, blockNo, numBlocks, pad);
    EncodedMarks(b, blockNo, numBlocks, pad);
  }

  function Join(blocks: seq<seq<Byte>>): (buf: seq<Byte>)
    requires forall i :: 0 <= i < |blocks| ==> |blocks[i]| == BLOCK_SIZE
    ensures |buf| == BLOCK_SIZE * |blocks|
  {
    if blocks == [] then [] else Join(blocks[..|blocks| - 1]) + blocks[|blocks| - 1]
  }

  function BlockAt(buf: seq<Byte>, i: nat): (bytes: seq<Byte>)
    requires BLOCK_SIZE * i + BLOCK_SIZE <= |buf|
    ensures |bytes| == BLOCK_SIZE
  {
    buf[BLOCK_SIZE * i..BLOCK_SIZE * i + BLOCK_SIZE]
  }

  lemma {:induction false} BlockOfJoin(blocks: seq<seq<Byte>>, i: nat)
    requires forall i :: 0 <= i < |blocks| ==> |blocks[i]| == BLOCK_SIZE
    requires i < |blocks|
    ensures BlockAt(Join(blocks), i) == blocks[i]
  {
    var n := |blocks| - 1;
    if i < n {
      BlockOfJoin(blocks[..n], i);
      assert BlockAt(Join(blocks), i) == BlockAt(Join(blocks[..n]), i);
    }
  }

  lemma BlockInJoin(blocks: seq<seq<Byte>>, i: nat)
    requires forall i :: 0 <= i < |blocks| ==> |blocks[i]| == BLOCK_SIZE
    requires i < |blocks|
    ensures Join(blocks)[512 * i..512 * i + 512] == blocks[i]
  {
    BlockOfJoin(blocks, i);
  }

  // ---------------------------------------------------------------- from UF2

  /** The variables of `convert_from_uf2`. `start` is the global `appstartaddr`. */
  datatype Reader = Reader(addr: Option<nat>, family: Option<U32>, output: seq<Byte>, start: nat,
      families: map<U32, nat>)

  function ReadBlock(familyId: U32, r: Reader, bytes: seq<Byte>, isLast: bool): Result<Reader>
    requires |bytes| == BLOCK_SIZE
  {
    if WordAt(bytes, 0) != MAGIC_START0 || WordAt(bytes, 1) != MAGIC_START1 then Err(BadMagic)
    else
      var flags, addr, size, family := WordAt(bytes, 2), WordAt(bytes, 3), WordAt(bytes, 4), WordAt(bytes, 7);
      if NotForFlash(flags) then Ok(r)
      else if size > MAX_DATA then Err(BadSize)
      else TakeBlock(familyId, r, Block(flags, addr, family, bytes[HEADER_SIZE..HEADER_SIZE + size]), isLast)
  }

  /** A block for another family than the current one starts over at its own address. */
  function Restart(familyId: U32, r: Reader, b: Block): Reader {
    var family := if HasFamily(b.flags) && r.family == None then Some(b.family) else r.family;
    if r.addr == None || (HasFamily(b.flags) && Some(b.family) != family) then
      r.(family := Some(b.family), addr := Some(b.addr),
         start := if familyId == 0 || familyId == b.family then b.addr else r.start)
    else r.(family := family)
  }

  function TakeBlock(familyId: U32, r: Reader, b: Block, isLast: bool): Result<Reader> {
    var r1 := Restart(familyId, r, b);
    var padding := b.addr - (if r1.addr.Some? then r1.addr.value else 0);
    if padding < 0 then Err(OutOfOrder)
    else if padding > MAX_PADDING then Err(TooMuchPadding)
    else if padding % 4 != 0 then Err(UnalignedPadding)
    else
      var wanted := familyId == 0 || (HasFamily(b.flags) && familyId == b.family);
      var families :=
        if HasFamily(b.flags) && (b.family !in r1.families || r1.families[b.family] > b.addr)
        then r1.families[b.family := b.addr] else r1.families;
      var padded := r1.output + Zeros(padding);
      var r2 := r1.(output := if wanted then padded + b.data else padded,
                    addr := Some(b.addr + |b.data|), families := families);
      Ok(if isLast && |families| > 1 && familyId == 0 then r2.(output := [], start := 0) else r2)
  }

  /** Blocks `i` and up; a trailing fragment of a block is ignored. */
  function ReadFrom(familyId: U32, r: Reader, buf: seq<Byte>, i: nat): Result<Reader>
    requires i <= |buf| / BLOCK_SIZE
    decreases |buf| / BLOCK_SIZE - i
  {
    if i == |buf| / BLOCK_SIZE then Ok(r)
    else
      match ReadBlock(familyId, r, BlockAt(buf, i), i + 1 == |buf| / BLOCK_SIZE)
      case Err(e) => Err(e)
      case Ok(r') => ReadFrom(familyId, r', buf, i + 1)
  }

  /** The output and the new `appstartaddr`. */
  function FromUf2(familyId: U32, start: nat, buf: seq<Byte>): Result<(seq<Byte>, nat)> {
    match ReadFrom(familyId, Reader(None, None, [], start, map[]), buf, 0)
    case Err(e) => Err(e)
    case Ok(r) => Ok((r.output, r.start))
  }

  method AppendZeros(output: seq<Byte>, count: nat) returns (padded: seq<Byte>)
    requires count % 4 == 0
    ensures padded == output + Zeros(count)
  {
    padded := output;
    var padding := count;
    while padding > 0
      invariant 0 <= padding <= count && padding % 4 == 0
      invariant padded == output + Zeros(count - padding)
    {
      padding := padding - 4;
      padded := padded + [0, 0, 0, 0];
    }
  }

  /** What is done with a block that is meant for flash and not too long. */
  method TakeOneBlock(familyId: U32, r: Reader, flags: U32, newAddr: U32, family: U32, data: seq<Byte>, isLast: bool)
    returns (result: Result<Reader>)
    ensures result == TakeBlock(familyId, r, Block(flags, newAddr, family, data), isLast)
  {
    var currAddr, currFamily, start: nat := r.addr, r.family, r.start;
    var output, families := r.output, r.families;
    if HasFamily(flags) && currFamily == None {
      currFamily := Some(family);
    }
    if currAddr == None || (HasFamily(flags) && Some(family) != currFamily) {
      currFamily, currAddr := Some(family), Some(newAddr);
      if familyId == 0 || familyId == family {
        start := newAddr;
      }
    }
    var padding := newAddr - currAddr.value;
    if padding < 0 {
      return Err(OutOfOrder);
    }
    if padding > MAX_PADDING {
      return Err(TooMuchPadding);
    }
    if padding % 4 != 0 {
      return Err(UnalignedPadding);
    }
    output := AppendZeros(output, padding);
    if familyId == 0 || (HasFamily(flags) && familyId == family) {
      output := output + data;
    }
    currAddr := Some(newAddr + |data|);
    if HasFamily(flags) && (family !in families || families[family] > newAddr) {
      families := families[family := newAddr];
    }
    if isLast && |families| > 1 && familyId == 0 {
      output, start := [], 0;
    }
    return Ok(Reader(currAddr, currFamily, output, start, families));
  }

  /** The body of the block loop. */
  method ReadOneBlock(familyId: U32, r: Reader, block: seq<Byte>, isLast: bool) returns (result: Result<Reader>)
    requires |block| == BLOCK_SIZE
    ensures result == ReadBlock(familyId, r, block, isLast)
  {
    if WordAt(block, 0) != MAGIC_START0 || WordAt(block, 1) != MAGIC_START1 {
      return Err(BadMagic);
    }
    var flags := WordAt(block, 2);
    if NotForFlash(flags) {
      return Ok(r);
    }
    var size := WordAt(block, 4);
    if size > MAX_DATA {
      return Err(BadSize);
    }
    result := TakeOneBlock(familyId, r, flags, WordAt(block, 3), WordAt(block, 7),
                           block[HEADER_SIZE..HEADER_SIZE + size], isLast);
  }

  /** `convert_from_uf2` */
  method ConvertFromUf2(familyId: U32, appStart: nat, buf: seq<Byte>) returns (result: Result<(seq<Byte>, nat)>)
    ensures result == FromUf2(familyId, appStart, buf)
  {
    var numBlocks := |buf| / BLOCK_SIZE;
    var r := Reader(None, None, [], appStart, map[]);
    for blockNo := 0 to numBlocks
      invariant ReadFrom(familyId, Reader(None, None, [], appStart, map[]), buf, 0) ==
          ReadFrom(familyId, r, buf, blockNo)
    {
      var next := ReadOneBlock(familyId, r, BlockAt(buf, blockNo), blockNo == numBlocks - 1);
      if next.Err? {
        return Err(next.error);
      }
      r := next.value;
    }
    return Ok((r.output, r.start));
  }
}
