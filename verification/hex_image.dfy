/** From Intel HEX through UF2 to the memory image the HEX records describe. */
module HexImage {
  import opened Bytes
  import opened Uf2
  import opened Uf2Image
  import opened HexUf2
  import opened HexText

  // ---------------------------------------------------------------- memory

  /** Records come in ascending address order, byte by byte. */
  predicate Ascending(ss: seq<Store>) {
    forall i :: 0 < i < |ss| ==> ss[i - 1].addr < ss[i].addr
  }

  /** The byte last stored at `a`, or zero. */
  function StoredAt(ss: seq<Store>, a: nat): Byte {
    if ss == [] then 0
    else if ss[|ss| - 1].addr == a then ss[|ss| - 1].value
    else StoredAt(ss[..|ss| - 1], a)
  }

  function BlocksOf(familyId: U32, deviceType: U32, pages: seq<Page>): (bs: seq<Block>)
    requires PagesFit(pages)
    ensures |bs| == |pages|
  {
    seq(|pages|, i requires 0 <= i < |pages| => PageAsBlock(familyId, deviceType, pages[i]))
  }

  /** The byte of memory the pages describe. */
  function PagedAt(pages: seq<Page>, a: nat): Byte
    requires PagesFull(pages)
  {
    if pages == [] then 0
    else
      var p := pages[|pages| - 1];
      if p.addr <= a < p.addr + PAGE then p.bytes[a - p.addr] else PagedAt(pages[..|pages| - 1], a)
  }

  /** Page-aligned and ascending, so no two pages are the same. */
  predicate Paged(pages: seq<Page>) {
    && (forall i :: 0 <= i < |pages| ==> pages[i].addr % PAGE == 0)
    && (forall i :: 0 < i < |pages| ==> pages[i - 1].addr + PAGE <= pages[i].addr)
  }

  lemma {:induction false} NothingStoredBeyond(ss: seq<Store>, a: nat)
    requires Ascending(ss) && (ss != [] ==> ss[|ss| - 1].addr < a)
    ensures StoredAt(ss, a) == 0
  {
    if ss != [] {
      NothingStoredBeyond(ss[..|ss| - 1], a);
    }
  }

  /** The pages opened for ascending stores, with the last store in the last page. */
  ghost predicate PagesMatch(ss: seq<Store>, pages: seq<Page>) {
    && Paged(pages)
    && (pages == [] <==> ss == [])
    && (ss != [] ==> pages[|pages| - 1].addr == ss[|ss| - 1].addr / PAGE * PAGE)
  }

  lemma {:induction false} PagesInOrder(ss: seq<Store>)
    requires Ascending(ss)
    ensures PagesMatch(ss, PagesOf(ss))
  {
    if ss != [] {
      var before := ss[..|ss| - 1];
      PagesInOrder(before);
    }
  }

  lemma StoreInOpenPage(pages: seq<Page>, s: Store, a: nat)
    requires PagesFull(pages) && pages != [] && pages[|pages| - 1].addr == s.addr / PAGE * PAGE
    ensures PagedAt(StoreByte(pages, s), a) == if a == s.addr then s.value else PagedAt(pages, a)
  {
    var n := |pages| - 1;
    assert StoreByte(pages, s)[..n] == pages[..n];
  }

  lemma StoreInNewPage(pages: seq<Page>, s: Store, a: nat)
    requires PagesFull(pages) && (pages != [] ==> pages[|pages| - 1].addr / PAGE != s.addr / PAGE)
    ensures PagedAt(StoreByte(pages, s), a) ==
            if a == s.addr then s.value else if a / PAGE == s.addr / PAGE then 0 else PagedAt(pages, a)
  {
    assert StoreByte(pages, s)[..|pages|] == pages;
  }

  lemma {:induction false} PagesHoldStores(ss: seq<Store>, a: nat)
    requires Ascending(ss)
    ensures PagedAt(PagesOf(ss), a) == StoredAt(ss, a)
  {
    if ss != [] {
      var before, s := ss[..|ss| - 1], ss[|ss| - 1];
      var pages := PagesOf(before);
      PagesHoldStores(before, a);
      PagesInOrder(before);
      if pages != [] && pages[|pages| - 1].addr / PAGE == s.addr / PAGE {
        StoreInOpenPage(pages, s, a);
      } else {
        StoreInNewPage(pages, s, a);
        if a / PAGE == s.addr / PAGE && a != s.addr {
          NothingStoredBeyond(before, a);
        }
      }
    }
  }

  lemma {:induction false} BlocksHoldPages(familyId: U32, deviceType: U32, pages: seq<Page>, a: nat)
    requires PagesFit(pages) && PagesFull(pages)
    ensures MemoryAt(BlocksOf(familyId, deviceType, pages), a) == PagedAt(pages, a)
  {
    if pages != [] {
      var n := |pages| - 1;
      BlocksHoldPages(familyId, deviceType, pages[..n], a);
      assert BlocksOf(familyId, deviceType, pages)[..n] == BlocksOf(familyId, deviceType, pages[..n]);
    }
  }

  // ---------------------------------------------------------------- HEX to UF2 to binary

  /** The first page is the one of the first byte stored. */
  lemma {:induction false} FirstPage(ss: seq<Store>)
    requires ss != [] && Ascending(ss)
    ensures PagesOf(ss) != [] && PagesOf(ss)[0].addr == ss[0].addr / PAGE * PAGE
  {
    if |ss| > 1 {
      FirstPage(ss[..|ss| - 1]);
    }
  }

  /** The UF2 file is the 512-byte blocks of the pages. */
  lemma HexBlocks(familyId: U32, deviceType: U32, pages: seq<Page>)
    requires PagesFull(pages) && PagesFit(pages)
    ensures Holds(Join(EncodedPageList(familyId, deviceType, pages)), BlocksOf(familyId, deviceType, pages))
  {
    var encoded := EncodedPageList(familyId, deviceType, pages);
    var bs := BlocksOf(familyId, deviceType, pages);
    forall i | 0 <= i < |pages| ensures Says(BlockAt(Join(encoded), i), bs[i]) {
      BlockOfJoin(encoded, i);
      EncodeSays(bs[i], i, |pages|, Trailer(deviceType));
    }
  }

  lemma HexOneFamily(familyId: U32, deviceType: U32, pages: seq<Page>)
    requires PagesFit(pages)
    ensures OneFamily(familyId, BlocksOf(familyId, deviceType, pages), familyId)
  {
  }

  /** Gaps between pages are whole pages, so only their size can be wrong. */
  predicate SmallGaps(pages: seq<Page>) {
    forall i :: 0 < i < |pages| ==> pages[i].addr - pages[i - 1].addr - PAGE <= MAX_PADDING
  }

  lemma WholePageGap(a: nat, b: nat)
    requires a % PAGE == 0 && b % PAGE == 0
    ensures (b - (a + PAGE)) % 4 == 0
  {
    var pages := b / PAGE - a / PAGE - 1;
    assert b - (a + PAGE) == 4 * (64 * pages);
  }

  lemma PageGapOkIff(familyId: U32, deviceType: U32, pages: seq<Page>, i: nat)
    requires PagesFull(pages) && PagesFit(pages) && Paged(pages) && 0 < i < |pages|
    ensures var bs := BlocksOf(familyId, deviceType, pages);
      GapOk(bs[i - 1], bs[i]) <==> pages[i].addr - pages[i - 1].addr - PAGE <= MAX_PADDING
  {
    WholePageGap(pages[i - 1].addr, pages[i].addr);
  }

  lemma GapsOkIffSmall(familyId: U32, deviceType: U32, pages: seq<Page>)
    requires PagesFull(pages) && PagesFit(pages) && Paged(pages)
    ensures GapsOk(BlocksOf(familyId, deviceType, pages)) <==> SmallGaps(pages)
  {
    var bs := BlocksOf(familyId, deviceType, pages);
    forall i | 0 < i < |pages|
      ensures GapOk(bs[i - 1], bs[i]) <==> pages[i].addr - pages[i - 1].addr - PAGE <= MAX_PADDING
    {
      PageGapOkIff(familyId, deviceType, pages, i);
    }
  }

  /** Is `m` what the stores leave in memory from address `first` on? */
  ghost predicate IsStoredImage(ss: seq<Store>, first: nat, m: seq<Byte>) {
    forall k :: 0 <= k < |m| ==> m[k] == StoredAt(ss, first + k)
  }

  lemma ImageOfStores(familyId: U32, deviceType: U32, ss: seq<Store>)
    requires Ascending(ss) && ss != [] && PagesFit(PagesOf(ss))
    requires GapsOk(BlocksOf(familyId, deviceType, PagesOf(ss)))
    ensures var pages := PagesOf(ss);
      var m := Image(BlocksOf(familyId, deviceType, pages));
      && pages != [] && IsStoredImage(ss, pages[0].addr, m)
      && |m| == ss[|ss| - 1].addr / PAGE * PAGE + PAGE - pages[0].addr
  {
    var pages := PagesOf(ss);
    var bs := BlocksOf(familyId, deviceType, pages);
    PagesInOrder(ss);
    forall k | 0 <= k < |Image(bs)| ensures Image(bs)[k] == StoredAt(ss, pages[0].addr + k) {
      ImageByte(familyId, deviceType, ss, k);
    }
  }

  lemma ImageByte(familyId: U32, deviceType: U32, ss: seq<Store>, k: nat)
    requires Ascending(ss) && PagesOf(ss) != [] && PagesFit(PagesOf(ss))
    requires GapsOk(BlocksOf(familyId, deviceType, PagesOf(ss)))
    requires k < |Image(BlocksOf(familyId, deviceType, PagesOf(ss)))|
    ensures Image(BlocksOf(familyId, deviceType, PagesOf(ss)))[k] == StoredAt(ss, PagesOf(ss)[0].addr + k)
  {
    var pages := PagesOf(ss);
    ImageIsMemory(BlocksOf(familyId, deviceType, pages), k);
    BlocksHoldPages(familyId, deviceType, pages, pages[0].addr + k);
    PagesHoldStores(ss, pages[0].addr + k);
  }

  lemma PagesReadAsImage(familyId: U32, deviceType: U32, pages: seq<Page>, anyStart: nat, buf: seq<Byte>)
    requires PagesFull(pages) && PagesFit(pages) && Paged(pages) && pages != []
    requires Holds(buf, BlocksOf(familyId, deviceType, pages))
    ensures var bs := BlocksOf(familyId, deviceType, pages);
      var back := FromUf2(familyId, anyStart, buf);
      if SmallGaps(pages) then GapsOk(bs) && back == Ok((Image(bs), pages[0].addr)) else back.Err?
  {
    HexOneFamily(familyId, deviceType, pages);
    GapsOkIffSmall(familyId, deviceType, pages);
    ReadsAsImage(familyId, anyStart, BlocksOf(familyId, deviceType, pages), familyId, buf);
  }

  /**
   HEX text that stores at least one byte, in ascending order, to 32-bit addresses: its UF2 form has
   page-aligned, ascending blocks, and reads back exactly when no gap exceeds 10 MiB, as the memory
   the records describe, zero-filled, from the first page to the last.
   */
  lemma HexThroughUf2(familyId: U32, deviceType: U32, lines: seq<string>, anyStart: nat, ss: seq<Store>)
    requires StoresFrom(lines, 0, 0) == Ok(ss) && Ascending(ss) && ss != [] && PagesFit(PagesOf(ss))
    ensures HexToUf2(familyId, deviceType, lines).Ok?
    ensures var pages := PagesOf(ss);
      var uf2 := HexToUf2(familyId, deviceType, lines).value;
      var back := FromUf2(familyId, anyStart, uf2);
      && pages != [] && pages[0].addr == ss[0].addr / PAGE * PAGE && Paged(pages)
      && Holds(uf2, BlocksOf(familyId, deviceType, pages))
      && (back.Ok? <==> SmallGaps(pages))
      && (back.Ok? ==>
            && back.value.1 == pages[0].addr
            && IsStoredImage(ss, pages[0].addr, back.value.0)
            && |back.value.0| == ss[|ss| - 1].addr / PAGE * PAGE + PAGE - pages[0].addr)
  {
    var pages := PagesOf(ss);
    PagesInOrder(ss);
    FirstPage(ss);
    HexBlocks(familyId, deviceType, pages);
    PagesReadAsImage(familyId, deviceType, pages, anyStart, HexToUf2(familyId, deviceType, lines).value);
    if SmallGaps(pages) {
      ImageOfStores(familyId, deviceType, ss);
    }
  }

  /**
   The same of the text itself: records written out in hexadecimal, whose data lies in ascending order, come back
   from UF2 as the memory they describe, exactly when no gap between pages exceeds 10 MiB.
   */
  lemma TextThroughUf2(familyId: U32, deviceType: U32, lines: seq<Line>, rest: seq<string>, anyStart: nat)
    requires IsText(lines, rest)
    requires var ss := Stored(lines, 0); ss != [] && Ascending(ss) && PagesFit(PagesOf(ss))
    ensures var ss, first := Stored(lines, 0), Stored(lines, 0)[0].addr / 256 * 256;
      var uf2 := HexToUf2(familyId, deviceType, Text(lines) + rest);
      && uf2.Ok?
      && var back := FromUf2(familyId, anyStart, uf2.value);
         && (back.Ok? <==> SmallGaps(PagesOf(ss)))
         && (back.Ok? ==>
               && back.value.1 == first && IsStoredImage(ss, first, back.value.0)
               && |back.value.0| == ss[|ss| - 1].addr / 256 * 256 + 256 - first)
  {
    TextStores(lines, rest);
    HexThroughUf2(familyId, deviceType, Text(lines) + rest, anyStart, Stored(lines, 0));
  }
}
