/** Reading UF2 back as a memory image, and the round trip through `convert_to_uf2`. */
module Uf2Image {
  import opened Bytes
  import opened Uf2

  // ---------------------------------------------------------------- block lists and their image

  /** The buffer is these blocks, one after the other. */
  ghost predicate Holds(buf: seq<Byte>, bs: seq<Block>) {
    && |buf| == BLOCK_SIZE * |bs|
    && forall i :: 0 <= i < |bs| ==> Says(BlockAt(buf, i), bs[i])
  }

  /** All blocks are for flash, and all are for one family that is wanted, or none names a family. */
  ghost predicate OneFamily(familyId: U32, bs: seq<Block>, family: U32) {
    && (forall i :: 0 <= i < |bs| ==> !NotForFlash(bs[i].flags))
    && (|| (familyId == 0 && forall i :: 0 <= i < |bs| ==> !HasFamily(bs[i].flags))
        || ((familyId == 0 || familyId == family) &&
           forall i :: 0 <= i < |bs| ==> HasFamily(bs[i].flags) && bs[i].family == family))
  }

  function EndOf(b: Block): nat {
    b.addr + |b.data|
  }

  /** Each block begins a whole number of words, at most 10 MiB, behind the end of the one before. */
  predicate GapOk(a: Block, b: Block) {
    0 <= b.addr - EndOf(a) <= MAX_PADDING && (b.addr - EndOf(a)) % 4 == 0
  }

  predicate GapsOk(bs: seq<Block>) {
    forall i :: 0 < i < |bs| ==> GapOk(bs[i - 1], bs[i])
  }

  /** The data in order, with zeros in between. */
  function Image(bs: seq<Block>): (m: seq<Byte>)
    requires GapsOk(bs)
    ensures bs == [] ==> m == []
    ensures bs != [] ==> |m| == EndOf(bs[|bs| - 1]) - bs[0].addr
  {
    if bs == [] then []
    else
      var n := |bs| - 1;
      var before := bs[..n];
      if n == 0 then bs[0].data
      else Image(before) + Zeros(bs[n].addr - EndOf(bs[n - 1])) + bs[n].data
  }

  predicate Covers(b: Block, a: nat) {
    b.addr <= a < EndOf(b)
  }

  /** The byte of memory at address `a` that the blocks describe: zero where no block says otherwise. */
  function MemoryAt(bs: seq<Block>, a: nat): Byte {
    if bs == [] then 0
    else
      var last := bs[|bs| - 1];
      if Covers(last, a) then last.data[a - last.addr] else MemoryAt(bs[..|bs| - 1], a)
  }

  lemma {:induction false} EndsAscend(bs: seq<Block>, i: nat)
    requires GapsOk(bs) && i < |bs|
    ensures EndOf(bs[i]) <= EndOf(bs[|bs| - 1])
    decreases |bs|
  {
    var n := |bs| - 1;
    if i < n {
      EndsAscend(bs[..n], i);
      assert GapOk(bs[n - 1], bs[n]);
    }
  }

  /** Blocks in order do not overlap, so each one has the say over what it covers. */
  lemma {:induction false} MemoryOfBlock(bs: seq<Block>, i: nat, a: nat)
    requires GapsOk(bs) && i < |bs| && Covers(bs[i], a)
    ensures MemoryAt(bs, a) == bs[i].data[a - bs[i].addr]
    decreases |bs|
  {
    var n := |bs| - 1;
    if i < n {
      EndsAscend(bs[..n], i);
      assert GapOk(bs[n - 1], bs[n]);
      MemoryOfBlock(bs[..n], i, a);
    }
  }

  lemma {:induction false} MemoryElsewhere(bs: seq<Block>, a: nat)
    requires forall i :: 0 <= i < |bs| ==> !Covers(bs[i], a)
    ensures MemoryAt(bs, a) == 0
  {
    if bs != [] {
      MemoryElsewhere(bs[..|bs| - 1], a);
    }
  }

  /** No block reaches as far as an address behind the last end. */
  lemma BeyondEnd(bs: seq<Block>, a: nat)
    requires GapsOk(bs) && bs != [] && a >= EndOf(bs[|bs| - 1])
    ensures MemoryAt(bs, a) == 0
  {
    forall i | 0 <= i < |bs| ensures !Covers(bs[i], a) {
      EndsAscend(bs, i);
    }
    MemoryElsewhere(bs, a);
  }

  /** The image is the memory the blocks describe, from the first address on. */
  lemma {:induction false} ImageIsMemory(bs: seq<Block>, k: nat)
    requires GapsOk(bs) && k < |Image(bs)|
    ensures Image(bs)[k] == MemoryAt(bs, bs[0].addr + k)
  {
    if |bs| > 1 {
      var n := |bs| - 1;
      var before := bs[..n];
      var a := bs[0].addr + k;
      assert GapOk(bs[n - 1], bs[n]);
      if k < |Image(before)| {
        ImageIsMemory(before, k);
      } else if a < bs[n].addr {
        BeyondEnd(before, a);
      }
    }
  }

  // ---------------------------------------------------------------- reading a block list

  /** The reader after the first `n` blocks. */
  ghost predicate HasRead(familyId: U32, bs: seq<Block>, family: U32, n: nat, r: Reader)
    requires n <= |bs| && GapsOk(bs[..n])
  {
    && r.families.Keys <= {family}
    && (if n == 0 then r.addr == None && r.family == None && r.output == []
        else
          && r.addr == Some(EndOf(bs[n - 1])) && r.family == Some(bs[0].family)
          && r.output == Image(bs[..n]) && r.start == bs[0].addr)
  }

  lemma ShortKeys(m: map<U32, nat>, family: U32)
    requires m.Keys <= {family}
    ensures |m| <= 1
  {
    if m.Keys == {} {
    } else {
      assert m.Keys == {family};
    }
  }

  lemma TakesFirst(familyId: U32, bs: seq<Block>, family: U32, r: Reader, isLast: bool)
    requires OneFamily(familyId, bs, family) && bs != [] && HasRead(familyId, bs, family, 0, r)
    ensures var next := TakeBlock(familyId, r, bs[0], isLast);
      next.Ok? && HasRead(familyId, bs, family, 1, next.value)
  {
    var r1 := Restart(familyId, r, bs[0]);
    assert bs[..1] == [bs[0]];
    var families := if HasFamily(bs[0].flags) then r1.families[bs[0].family := bs[0].addr] else r1.families;
    ShortKeys(families, family);
    ShortKeys(r1.families, family);
    assert r1.output + Zeros(0) + bs[0].data == bs[0].data;
  }

  /** A block of the family being read is appended, behind zeros for its gap. */
  lemma TakesAdjoining(familyId: U32, family: U32, r: Reader, a: Block, b: Block, isLast: bool)
    requires r.addr == Some(EndOf(a)) && r.family != None && r.families.Keys <= {family}
    requires if HasFamily(b.flags)
      then b.family == family && r.family == Some(family) && (familyId == 0 || familyId == family)
      else familyId == 0
    ensures var next := TakeBlock(familyId, r, b, isLast);
      if GapOk(a, b) then
        && next.Ok? && next.value.addr == Some(EndOf(b)) && next.value.family == r.family && next.value.start == r.start
        && next.value.output == r.output + Zeros(b.addr - EndOf(a)) + b.data && next.value.families.Keys <= {family}
      else next.Err?
  {
    assert Restart(familyId, r, b) == r;
    ShortKeys(r.families, family);
    ShortKeys(r.families[family := b.addr], family);
  }

  lemma TakesNext(familyId: U32, bs: seq<Block>, family: U32, n: nat, r: Reader, isLast: bool)
    requires OneFamily(familyId, bs, family) && 0 < n < |bs| && GapsOk(bs[..n]) && HasRead(familyId, bs, family, n, r)
    ensures var next := TakeBlock(familyId, r, bs[n], isLast);
      if GapOk(bs[n - 1], bs[n]) then next.Ok? && GapsOk(bs[..n + 1]) &&
        HasRead(familyId, bs, family, n + 1, next.value)
      else next.Err?
  {
    TakesAdjoining(familyId, family, r, bs[n - 1], bs[n], isLast);
    if GapOk(bs[n - 1], bs[n]) {
      ImageGrows(bs, n);
    }
  }

  lemma ImageGrows(bs: seq<Block>, n: nat)
    requires 0 < n < |bs| && GapsOk(bs[..n]) && GapOk(bs[n - 1], bs[n])
    ensures GapsOk(bs[..n + 1])
    ensures Image(bs[..n + 1]) == Image(bs[..n]) + Zeros(bs[n].addr - EndOf(bs[n - 1])) + bs[n].data
  {
    assert bs[..n + 1][..n] == bs[..n];
  }

  lemma ReadsWhatItSays(familyId: U32, r: Reader, bytes: seq<Byte>, b: Block, isLast: bool)
    requires |bytes| == BLOCK_SIZE && Says(bytes, b) && !NotForFlash(b.flags)
    ensures ReadBlock(familyId, r, bytes, isLast) == TakeBlock(familyId, r, b, isLast)
  {
  }

  lemma {:induction false} ReadsRest(familyId: U32, bs: seq<Block>, family: U32, n: nat, r: Reader, buf: seq<Byte>)
    requires OneFamily(familyId, bs, family) && Holds(buf, bs) && 0 < n <= |bs|
    requires GapsOk(bs[..n]) && HasRead(familyId, bs, family, n, r)
    ensures var result := ReadFrom(familyId, r, buf, n);
      if GapsOk(bs) then result.Ok? && result.value.output == Image(bs) && result.value.start == bs[0].addr
      else result.Err?
    decreases |bs| - n
  {
    assert |buf| / BLOCK_SIZE == |bs|;
    if n == |bs| {
      assert bs[..n] == bs;
    } else {
      var isLast := n + 1 == |bs|;
      ReadsWhatItSays(familyId, r, BlockAt(buf, n), bs[n], isLast);
      TakesNext(familyId, bs, family, n, r, isLast);
      if GapOk(bs[n - 1], bs[n]) {
        ReadsRest(familyId, bs, family, n + 1, TakeBlock(familyId, r, bs[n], isLast).value, buf);
      }
    }
  }

  /** Blocks of one family are accepted exactly when all their gaps are, and then come out as the memory image. */
  lemma ReadsAsImage(familyId: U32, start: nat, bs: seq<Block>, family: U32, buf: seq<Byte>)
    requires OneFamily(familyId, bs, family) && Holds(buf, bs) && bs != []
    ensures var result := FromUf2(familyId, start, buf);
      if GapsOk(bs) then result == Ok((Image(bs), bs[0].addr as nat)) else result.Err?
  {
    var r := Reader(None, None, [], start, map[]);
    var isLast := 1 == |bs|;
    ReadsWhatItSays(familyId, r, BlockAt(buf, 0), bs[0], isLast);
    TakesFirst(familyId, bs, family, r, isLast);
    ReadsRest(familyId, bs, family, 1, TakeBlock(familyId, r, bs[0], isLast).value, buf);
  }

  // ---------------------------------------------------------------- to UF2

  function PageCount(n: nat): nat {
    (n + 255) / PAGE
  }

  /** The content filled up with zeros to whole pages. */
  function WholePages(content: seq<Byte>): (p: seq<Byte>)
    ensures |p| == PAGE * PageCount(|content|)
  {
    content + Zeros(PAGE * PageCount(|content|) - |content|)
  }

  function FlagsFor(familyId: U32): U32 {
    if familyId != 0 then FLAG_FAMILY else 0
  }

  predicate AddressesFit(start: nat, pages: nat) {
    pages == 0 || start + PAGE * (pages - 1) < 0x1_0000_0000
  }

  function PageBlock(familyId: U32, start: nat, content: seq<Byte>, i: nat): (b: Block)
    requires i < PageCount(|content|) && AddressesFit(start, PageCount(|content|))
    ensures |b.data| == PAGE
  {
    Block(FlagsFor(familyId), start + PAGE * i, familyId, WholePages(content)[PAGE * i..PAGE * i + PAGE])
  }

  function PageBlocks(familyId: U32, start: nat, content: seq<Byte>): seq<Block>
    requires AddressesFit(start, PageCount(|content|))
  {
    seq(PageCount(|content|), i requires 0 <= i < PageCount(|content|) => PageBlock(familyId, start, content, i))
  }

  function EncodedPage(familyId: U32, start: nat, content: seq<Byte>, i: nat): (bs: seq<Byte>)
    requires i < PageCount(|content|) && AddressesFit(start, PageCount(|content|))
    ensures |bs| == BLOCK_SIZE
  {
    Encode(PageBlock(familyId, start, content, i), i, PageCount(|content|), Zeros(MAX_DATA - PAGE))
  }

  function EncodedPages(familyId: U32, start: nat, content: seq<Byte>, n: nat): (bs: seq<seq<Byte>>)
    requires n <= PageCount(|content|) && AddressesFit(start, PageCount(|content|))
    ensures |bs| == n && forall i :: 0 <= i < n ==> |bs[i]| == BLOCK_SIZE
  {
    seq(n, i requires 0 <= i < n => EncodedPage(familyId, start, content, i))
  }

  /** An address that does not fit 32 bits cannot be packed. */
  function ToUf2(familyId: U32, start: nat, content: seq<Byte>): Result<seq<Byte>> {
    var pages := PageCount(|content|);
    if !AddressesFit(start, pages) then Err(AddressTooLarge)
    else Ok(Join(EncodedPages(familyId, start, content, pages)))
  }

  /** Page `i` of the content, byte by byte, filled up with zeros. */
  function PageOf(content: seq<Byte>, i: nat): (page: seq<Byte>)
    ensures |page| == 256
  {
    seq(256, j requires 0 <= j < 256 => if 256 * i + j < |content| then content[256 * i + j] else 0)
  }

  /** Block `i` of the file made for the content, byte by byte. */
  ghost predicate IsContentBlock(bytes: seq<Byte>, familyId: U32, start: nat, content: seq<Byte>, i: nat) {
    && IsNumbered(bytes, i, (|content| + 255) / 256)
    && Carries(bytes, if familyId != 0 then 0x2000 else 0, start + 256 * i, familyId,
               PageOf(content, i), seq(220, _ => 0))
  }

  ghost predicate IsContentFile(file: seq<Byte>, familyId: U32, start: nat, content: seq<Byte>) {
    && |file| == 512 * ((|content| + 255) / 256)
    && forall i :: 0 <= i < (|content| + 255) / 256 ==>
         IsContentBlock(file[512 * i..512 * i + 512], familyId, start, content, i)
  }

  lemma ContentBlock(familyId: U32, start: nat, content: seq<Byte>, i: nat)
    requires AddressesFit(start, PageCount(|content|)) && i < PageCount(|content|)
    ensures IsContentBlock(EncodedPage(familyId, start, content, i), familyId, start, content, i)
  {
    var b := PageBlock(familyId, start, content, i);
    EncodedCarries(b, i, PageCount(|content|), Zeros(MAX_DATA - PAGE));
    assert b.data == PageOf(content, i);
    assert Zeros(MAX_DATA - PAGE) == seq(220, _ => 0);
  }

  lemma ContentFile(familyId: U32, start: nat, content: seq<Byte>)
    requires ToUf2(familyId, start, content).Ok?
    ensures IsContentFile(ToUf2(familyId, start, content).value, familyId, start, content)
  {
    var n := PageCount(|content|);
    var pages := EncodedPages(familyId, start, content, n);
    forall i | 0 <= i < n ensures IsContentBlock(Join(pages)[512 * i..512 * i + 512], familyId, start, content, i) {
      BlockInJoin(pages, i);
      ContentBlock(familyId, start, content, i);
    }
  }

  /** `chunk` of one block, filled up. */
  method FillPage(content: seq<Byte>, ptr: nat) returns (chunk: seq<Byte>)
    requires ptr % PAGE == 0 && ptr / PAGE < PageCount(|content|)
    ensures chunk == WholePages(content)[ptr..ptr + PAGE]
  {
    chunk := content[ptr..if ptr + PAGE <= |content| then ptr + PAGE else |content|];
    while |chunk| < PAGE
      invariant |chunk| <= PAGE && chunk == WholePages(content)[ptr..ptr + |chunk|]
    {
      assert WholePages(content)[ptr + |chunk|] == 0;
      chunk := chunk + [0];
    }
  }

  /** `convert_to_uf2` */
  method ConvertToUf2(familyId: U32, appStart: nat, content: seq<Byte>) returns (result: Result<seq<Byte>>)
    ensures result == ToUf2(familyId, appStart, content)
    ensures result.Ok? ==> IsContentFile(result.value, familyId, appStart, content)
  {
    result := EncodeContent(familyId, appStart, content);
    if result.Ok? {
      ContentFile(familyId, appStart, content);
    }
  }

  /** Its loop over the pages. */
  method EncodeContent(familyId: U32, appStart: nat, content: seq<Byte>) returns (result: Result<seq<Byte>>)
    ensures result == ToUf2(familyId, appStart, content)
  {
    var dataPadding: seq<Byte> := [];
    while |dataPadding| < 512 - 256 - 32 - 4
      invariant |dataPadding| <= 220 && |dataPadding| % 4 == 0 && dataPadding == Zeros(|dataPadding|)
    {
      dataPadding := dataPadding + [0, 0, 0, 0];
    }
    var numBlocks := PageCount(|content|);
    var output: seq<Byte> := [];
    for blockNo := 0 to numBlocks
      invariant blockNo > 0 ==> appStart + PAGE * (blockNo - 1) < 0x1_0000_0000 && numBlocks < 0x1_0000_0000
      invariant AddressesFit(appStart, numBlocks) ==> output == Join(EncodedPages(familyId, appStart, content, blockNo))
    {
      var ptr := PAGE * blockNo;
      if ptr + appStart >= 0x1_0000_0000 || numBlocks >= 0x1_0000_0000 {
        return Err(AddressTooLarge);
      }
      var chunk := FillPage(content, ptr);
      var block := Encode(Block(FlagsFor(familyId), ptr + appStart, familyId, chunk), blockNo, numBlocks, dataPadding);
      output := output + block;
      if AddressesFit(appStart, numBlocks) {
        assert block == EncodedPage(familyId, appStart, content, blockNo);
        assert EncodedPages(familyId, appStart, content, blockNo + 1)[..blockNo] ==
          EncodedPages(familyId, appStart, content, blockNo);
      }
    }
    return Ok(output);
  }

  // ---------------------------------------------------------------- there and back

  lemma EncodedHolds(familyId: U32, start: nat, content: seq<Byte>)
    requires AddressesFit(start, PageCount(|content|))
    ensures Holds(Join(EncodedPages(familyId, start, content, PageCount(|content|))),
                  PageBlocks(familyId, start, content))
  {
    var pages := PageCount(|content|);
    var encoded := EncodedPages(familyId, start, content, pages);
    forall i | 0 <= i < pages
      ensures Says(BlockAt(Join(encoded), i), PageBlocks(familyId, start, content)[i])
    {
      BlockOfJoin(encoded, i);
      EncodeSays(PageBlock(familyId, start, content, i), i, pages, Zeros(MAX_DATA - PAGE));
    }
  }

  lemma PagesAdjoin(familyId: U32, start: nat, content: seq<Byte>)
    requires AddressesFit(start, PageCount(|content|))
    ensures GapsOk(PageBlocks(familyId, start, content))
  {
  }

  lemma {:induction false} PagesImage(familyId: U32, start: nat, content: seq<Byte>, n: nat)
    requires AddressesFit(start, PageCount(|content|)) && n <= PageCount(|content|)
    ensures GapsOk(PageBlocks(familyId, start, content)[..n])
    ensures Image(PageBlocks(familyId, start, content)[..n]) == WholePages(content)[..PAGE * n]
  {
    var bs := PageBlocks(familyId, start, content);
    PagesAdjoin(familyId, start, content);
    if n > 0 {
      PagesImage(familyId, start, content, n - 1);
      var w := WholePages(content);
      assert w[..PAGE * n] == w[..PAGE * (n - 1)] + w[PAGE * (n - 1)..PAGE * n];
      if n == 1 {
        assert bs[..1] == [bs[0]];
      } else {
        ImageGrows(bs, n - 1);
        assert Zeros(0) == [];
      }
    }
  }

  lemma PagesOneFamily(familyId: U32, start: nat, content: seq<Byte>)
    requires AddressesFit(start, PageCount(|content|))
    ensures OneFamily(familyId, PageBlocks(familyId, start, content), familyId)
  {
  }

  lemma ImageOfPages(familyId: U32, start: nat, content: seq<Byte>)
    requires AddressesFit(start, PageCount(|content|))
    ensures GapsOk(PageBlocks(familyId, start, content))
    ensures Image(PageBlocks(familyId, start, content)) == WholePages(content)
  {
    var pages := PageCount(|content|);
    var bs := PageBlocks(familyId, start, content);
    PagesAdjoin(familyId, start, content);
    PagesImage(familyId, start, content, pages);
    assert bs[..pages] == bs && WholePages(content)[..PAGE * pages] == WholePages(content);
  }

  lemma FirstPageBlock(familyId: U32, start: nat, content: seq<Byte>)
    requires AddressesFit(start, PageCount(|content|)) && content != []
    ensures PageBlocks(familyId, start, content) != [] && PageBlocks(familyId, start, content)[0].addr == start
  {
    assert PageCount(|content|) > 0;
  }

  lemma PagesReadBack(familyId: U32, start: nat, content: seq<Byte>, anyStart: nat, buf: seq<Byte>)
    requires AddressesFit(start, PageCount(|content|)) && content != []
    requires Holds(buf, PageBlocks(familyId, start, content))
    ensures FromUf2(familyId, anyStart, buf) == Ok((WholePages(content), start))
  {
    var bs := PageBlocks(familyId, start, content);
    FirstPageBlock(familyId, start, content);
    ImageOfPages(familyId, start, content);
    PagesOneFamily(familyId, start, content);
    ReadsAsImage(familyId, anyStart, bs, familyId, buf);
  }

  /** Converting to UF2 and back gives the content filled up with zeros to whole pages, at its start address. */
  lemma RoundTrip(familyId: U32, start: nat, content: seq<Byte>, anyStart: nat)
    requires AddressesFit(start, PageCount(|content|))
    ensures ToUf2(familyId, start, content).Ok?
    ensures FromUf2(familyId, anyStart, ToUf2(familyId, start, content).value) ==
            Ok((WholePages(content), if content == [] then anyStart else start))
  {
    if content != [] {
      EncodedHolds(familyId, start, content);
      PagesReadBack(familyId, start, content, anyStart, ToUf2(familyId, start, content).value);
    }
  }
}
