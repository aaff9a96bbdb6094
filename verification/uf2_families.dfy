/** Reading UF2 files with blocks of several families, and with blocks that are not meant for flash. */
module Uf2Families {
  import opened Bytes
  import opened Uf2
  import opened Uf2Image

  // ---------------------------------------------------------------- what a file of many families says

  /** Bit 0 of the flags: the block is not meant for flash. */
  predicate IsSkipped(b: Block) {
    b.flags % 2 == 1
  }

  /** Bit 13: the block names its family. */
  predicate NamesFamily(b: Block) {
    b.flags / 0x2000 % 2 == 1
  }

  /** The blocks that are read. */
  function Flash(bs: seq<Block>): (fs: seq<Block>)
    ensures forall i :: 0 <= i < |fs| ==> fs[i] in bs && !IsSkipped(fs[i])
  {
    if bs == [] then []
    else Flash(bs[..|bs| - 1]) + (if IsSkipped(bs[|bs| - 1]) then [] else [bs[|bs| - 1]])
  }

  /** The family being read after these blocks: that of the last one to name its family, else that in the first one. */
  function Current(fs: seq<Block>): U32
    requires fs != []
  {
    var n := |fs| - 1;
    if n == 0 || NamesFamily(fs[n]) then fs[n].family else Current(fs[..n])
  }

  /** The first block, and every one that names another family than the current one, starts over. */
  predicate StartsOver(fs: seq<Block>, i: nat)
    requires i < |fs|
  {
    i == 0 || (NamesFamily(fs[i]) && fs[i].family != Current(fs[..i]))
  }

  /** What lies between block `i` and the one read before it; nothing if it starts over. */
  function Gap(fs: seq<Block>, i: nat): int
    requires i < |fs|
  {
    if StartsOver(fs, i) then 0 else fs[i].addr - (fs[i - 1].addr + |fs[i - 1].data|)
  }

  predicate IsLegal(gap: int) {
    0 <= gap <= 10 * 1024 * 1024 && gap % 4 == 0
  }

  predicate AllLegal(fs: seq<Block>) {
    forall i :: 0 <= i < |fs| ==> IsLegal(Gap(fs, i))
  }

  predicate IsWanted(familyId: U32, b: Block) {
    familyId == 0 || (NamesFamily(b) && b.family == familyId)
  }

  /** Every gap as zeros, and the data of the wanted blocks. */
  function Selected(familyId: U32, fs: seq<Block>): seq<Byte>
    requires AllLegal(fs)
  {
    if fs == [] then []
    else
      var n := |fs| - 1;
      LegalBefore(fs);
      Selected(familyId, fs[..n]) + Zeros(Gap(fs, n)) + (if IsWanted(familyId, fs[n]) then fs[n].data else [])
  }

  /** The address of the block that last started over with the family asked for, or any. */
  function StartOf(familyId: U32, start: nat, fs: seq<Block>): nat {
    if fs == [] then start
    else
      var n := |fs| - 1;
      if StartsOver(fs, n) && (familyId == 0 || fs[n].family == familyId) then fs[n].addr
      else StartOf(familyId, start, fs[..n])
  }

  function Families(fs: seq<Block>): set<U32> {
    set i | 0 <= i < |fs| && NamesFamily(fs[i]) :: fs[i].family
  }

  /** Without a family asked for, a file whose last block is read and that names several families gives nothing. */
  predicate GivesNothing(familyId: U32, bs: seq<Block>) {
    familyId == 0 && bs != [] && !IsSkipped(bs[|bs| - 1]) && |Families(Flash(bs))| > 1
  }

  lemma LegalBefore(fs: seq<Block>)
    requires AllLegal(fs) && fs != []
    ensures AllLegal(fs[..|fs| - 1])
  {
    var before := fs[..|fs| - 1];
    forall i | 0 <= i < |before| ensures IsLegal(Gap(before, i)) {
      GapOfPrefix(before, fs, i);
    }
  }

  lemma GapOfPrefix(a: seq<Block>, b: seq<Block>, i: nat)
    requires a <= b && i < |a|
    ensures Gap(a, i) == Gap(b, i) && StartsOver(a, i) == StartsOver(b, i)
  {
    assert a[..i] == b[..i];
  }

  // ---------------------------------------------------------------- one block

  /** The reader after the blocks `fs`. */
  ghost predicate HasSelected(familyId: U32, start: nat, fs: seq<Block>, r: Reader)
    requires AllLegal(fs)
  {
    && r.addr == (if fs == [] then None else Some(EndOf(fs[|fs| - 1])))
    && r.family == (if fs == [] then None else Some(Current(fs)))
    && r.output == Selected(familyId, fs) && r.start == StartOf(familyId, start, fs)
    && r.families.Keys == Families(fs)
  }

  lemma LegalAppend(fs: seq<Block>, b: Block)
    requires AllLegal(fs)
    ensures AllLegal(fs + [b]) <==> IsLegal(Gap(fs + [b], |fs|))
  {
    forall i | 0 <= i < |fs| ensures Gap(fs + [b], i) == Gap(fs, i) {
      GapOfPrefix(fs, fs + [b], i);
    }
  }

  lemma SelectedAppend(familyId: U32, start: nat, fs: seq<Block>, b: Block)
    requires AllLegal(fs) && AllLegal(fs + [b])
    ensures Selected(familyId, fs + [b]) ==
            Selected(familyId, fs) + Zeros(Gap(fs + [b], |fs|)) + (if IsWanted(familyId, b) then b.data else [])
    ensures StartOf(familyId, start, fs + [b]) ==
            if (fs == [] || (NamesFamily(b) && b.family != Current(fs))) && (familyId == 0 || b.family == familyId)
            then b.addr else StartOf(familyId, start, fs)
    ensures Current(fs + [b]) == if fs == [] || NamesFamily(b) then b.family else Current(fs)
  {
    assert (fs + [b])[..|fs|] == fs;
  }

  lemma FamiliesAppend(fs: seq<Block>, b: Block)
    ensures Families(fs + [b]) == Families(fs) + (if NamesFamily(b) then {b.family} else {})
  {
    var more := Families(fs) + (if NamesFamily(b) then {b.family} else {});
    forall f ensures f in Families(fs + [b]) <==> f in more {
      if f in Families(fs) {
        var i :| 0 <= i < |fs| && NamesFamily(fs[i]) && fs[i].family == f;
        assert (fs + [b])[i].family == f && NamesFamily((fs + [b])[i]);
      }
      if NamesFamily(b) && f == b.family {
        assert (fs + [b])[|fs|].family == f && NamesFamily((fs + [b])[|fs|]);
      }
    }
  }

  /** A block is taken exactly if its gap is legal. */
  lemma TakesSelected(familyId: U32, start: nat, fs: seq<Block>, r: Reader, b: Block)
    requires AllLegal(fs) && HasSelected(familyId, start, fs, r)
    ensures var next := TakeBlock(familyId, r, b, false);
      if IsLegal(Gap(fs + [b], |fs|))
      then next.Ok? && AllLegal(fs + [b]) && HasSelected(familyId, start, fs + [b], next.value)
      else next.Err?
  {
    LegalAppend(fs, b);
    FamiliesAppend(fs, b);
    RestartsSelected(familyId, start, fs, r, b);
    TakesAfterRestart(familyId, r, b);
    if IsLegal(Gap(fs + [b], |fs|)) {
      SelectedAppend(familyId, start, fs, b);
      LastOf(fs, b);
    }
  }

  lemma LastOf(fs: seq<Block>, b: Block)
    ensures fs + [b] != [] && (fs + [b])[|fs + [b]| - 1] == b
  {
  }

  /** Once it is clear where reading goes on, a block is padded and, if wanted, appended. */
  lemma TakesAfterRestart(familyId: U32, r: Reader, b: Block)
    requires Restart(familyId, r, b).addr.Some?
    ensures var r1, next := Restart(familyId, r, b), TakeBlock(familyId, r, b, false);
      var gap := b.addr - r1.addr.value;
      if IsLegal(gap) then
        && next.Ok? && next.value.addr == Some(EndOf(b)) && next.value.family == r1.family
        && next.value.output == r1.output + Zeros(gap) + (if IsWanted(familyId, b) then b.data else [])
        && next.value.start == r1.start
        && next.value.families.Keys == r1.families.Keys + (if NamesFamily(b) then {b.family} else {})
      else next.Err?
  {
    var r1 := Restart(familyId, r, b);
    var gap := b.addr - r1.addr.value;
    if gap >= 0 {
      var padded := r1.output + Zeros(gap);
      assert padded + [] == padded;
    }
  }

  lemma RestartsSelected(familyId: U32, start: nat, fs: seq<Block>, r: Reader, b: Block)
    requires AllLegal(fs) && HasSelected(familyId, start, fs, r)
    ensures var r1 := Restart(familyId, r, b);
      && r1.addr.Some? && b.addr - r1.addr.value == Gap(fs + [b], |fs|)
      && r1.family == Some(Current(fs + [b])) && r1.output == r.output && r1.families == r.families
      && r1.start == StartOf(familyId, start, fs + [b])
  {
    assert (fs + [b])[..|fs|] == fs;
  }

  /** The last block differs only in what is made of several families. */
  lemma TakesLast(familyId: U32, r: Reader, b: Block)
    ensures var next, last := TakeBlock(familyId, r, b, false), TakeBlock(familyId, r, b, true);
      last == if next.Ok? && |next.value.families| > 1 && familyId == 0
              then Ok(next.value.(output := [], start := 0)) else next
  {
  }

  // ---------------------------------------------------------------- whole files

  lemma ReadsOrSkips(familyId: U32, r: Reader, bytes: seq<Byte>, b: Block, isLast: bool)
    requires |bytes| == BLOCK_SIZE && Says(bytes, b)
    ensures ReadBlock(familyId, r, bytes, isLast) == if IsSkipped(b) then Ok(r) else TakeBlock(familyId, r, b, isLast)
  {
  }

  /** The blocks as they stand in the file, byte by byte. */
  ghost predicate Contains(buf: seq<Byte>, bs: seq<Block>) {
    |buf| == 512 * |bs| && forall i :: 0 <= i < |bs| ==> IsBlock(buf[512 * i..512 * i + 512], bs[i])
  }

  predicate IsBlock(bytes: seq<Byte>, b: Block) {
    && |bytes| == 512 && |b.data| <= 476
    && bytes[..4] == [0x55, 0x46, 0x32, 0x0A] && bytes[4..8] == [0x57, 0x51, 0x5D, 0x9E]
    && NumberAt(bytes, 8) == b.flags && NumberAt(bytes, 12) == b.addr
    && NumberAt(bytes, 16) == |b.data| && NumberAt(bytes, 28) == b.family
    && bytes[32..32 + |b.data|] == b.data
  }

  lemma ContainsHolds(buf: seq<Byte>, bs: seq<Block>)
    requires Contains(buf, bs)
    ensures Holds(buf, bs)
  {
    forall i | 0 <= i < |bs| ensures Says(BlockAt(buf, i), bs[i]) {
      assert BlockAt(buf, i) == buf[512 * i..512 * i + 512];
      assert IsBlock(BlockAt(buf, i), bs[i]);
      BlockSays(BlockAt(buf, i), bs[i]);
    }
  }

  lemma BlockSays(bytes: seq<Byte>, b: Block)
    requires IsBlock(bytes, b)
    ensures Says(bytes, b)
  {
    assert bytes[0..4] == bytes[..4];
    assert WordAt(bytes, 0) == MAGIC_START0 && WordAt(bytes, 1) == MAGIC_START1;
  }

  lemma {:induction false} FlashOfPrefix(bs: seq<Block>, n: nat)
    requires n <= |bs|
    ensures Flash(bs[..n]) <= Flash(bs)
  {
    if n == |bs| {
      assert bs[..n] == bs;
    } else {
      FlashOfPrefix(bs[..|bs| - 1], n);
      assert bs[..|bs| - 1][..n] == bs[..n];
    }
  }

  lemma LegalPrefix(bs: seq<Block>, n: nat)
    requires n <= |bs| && AllLegal(Flash(bs))
    ensures AllLegal(Flash(bs[..n]))
  {
    FlashOfPrefix(bs, n);
    var fs := Flash(bs[..n]);
    forall i | 0 <= i < |fs| ensures IsLegal(Gap(fs, i)) {
      GapOfPrefix(fs, Flash(bs), i);
    }
  }

  /** One more block that is not the last one. */
  lemma ReadsOne(familyId: U32, start: nat, bs: seq<Block>, n: nat, r: Reader, bytes: seq<Byte>)
    requires n < |bs| && AllLegal(Flash(bs[..n])) && HasSelected(familyId, start, Flash(bs[..n]), r)
    requires |bytes| == BLOCK_SIZE && Says(bytes, bs[n])
    ensures var next := ReadBlock(familyId, r, bytes, false);
      if AllLegal(Flash(bs[..n + 1])) then next.Ok? && HasSelected(familyId, start, Flash(bs[..n + 1]), next.value)
      else next.Err?
  {
    assert bs[..n + 1][..n] == bs[..n];
    ReadsOrSkips(familyId, r, bytes, bs[n], false);
    if IsSkipped(bs[n]) {
      assert Flash(bs[..n + 1]) == Flash(bs[..n]);
    } else {
      TakesSelected(familyId, start, Flash(bs[..n]), r, bs[n]);
      LegalAppend(Flash(bs[..n]), bs[n]);
    }
  }

  lemma {:induction false} ReadsRestSelected(
      familyId: U32, start: nat, bs: seq<Block>, n: nat, r: Reader, buf: seq<Byte>)
    requires Holds(buf, bs) && n < |bs|
    requires AllLegal(Flash(bs[..n])) && HasSelected(familyId, start, Flash(bs[..n]), r)
    ensures var result := ReadFrom(familyId, r, buf, n);
      if !AllLegal(Flash(bs)) then result.Err?
      else
        && result.Ok?
        && result.value.output == (if GivesNothing(familyId, bs) then [] else Selected(familyId, Flash(bs)))
        && result.value.start == if GivesNothing(familyId, bs) then 0 else StartOf(familyId, start, Flash(bs))
    decreases |bs| - n
  {
    assert |buf| / BLOCK_SIZE == |bs|;
    var bytes := BlockAt(buf, n);
    ReadsOne(familyId, start, bs, n, r, bytes);
    var next := ReadBlock(familyId, r, bytes, false);
    if n + 1 < |bs| {
      if next.Ok? {
        ReadsRestSelected(familyId, start, bs, n + 1, next.value, buf);
      } else if AllLegal(Flash(bs)) {
        LegalPrefix(bs, n + 1);
      }
    } else {
      assert bs[..n + 1] == bs;
      ReadsOrSkips(familyId, r, bytes, bs[n], false);
      ReadsOrSkips(familyId, r, bytes, bs[n], true);
      TakesLast(familyId, r, bs[n]);
      if next.Ok? {
        assert |next.value.families| == |next.value.families.Keys|;
      }
    }
  }

  /**
   Any file of blocks: it is refused exactly if some gap between blocks of one family is not legal; else it gives the
   data of the wanted blocks, with the gaps of all blocks as zeros, and where their last run starts.
   */
  lemma ReadsFamilies(familyId: U32, start: nat, bs: seq<Block>, buf: seq<Byte>)
    requires Contains(buf, bs)
    ensures var result := FromUf2(familyId, start, buf);
      if !AllLegal(Flash(bs)) then result.Err?
      else if GivesNothing(familyId, bs) then result == Ok(([], 0))
      else result == Ok((Selected(familyId, Flash(bs)), StartOf(familyId, start, Flash(bs))))
  {
    ContainsHolds(buf, bs);
    var r := Reader(None, None, [], start, map[]);
    if bs != [] {
      assert bs[..0] == [];
      assert Families([]) == {};
      ReadsRestSelected(familyId, start, bs, 0, r, buf);
    }
  }

  /** A block that is not marked as one, or that is read and claims more than 476 bytes. */
  predicate IsBad(bytes: seq<Byte>) {
    |bytes| == 512 &&
    (bytes[..4] != [0x55, 0x46, 0x32, 0x0A] || bytes[4..8] != [0x57, 0x51, 0x5D, 0x9E] ||
     (bytes[8] % 2 == 0 && NumberAt(bytes, 16) > 476))
  }

  lemma MarkIsWord(bs: seq<Byte>, w: U32, mark: seq<Byte>)
    requires |bs| == 4 && mark == Le32(w)
    ensures FromLe32(bs) == w <==> bs == mark
  {
    Le32RoundTrip(w);
    if FromLe32(bs) == w {
      BytesOfWord(bs, w);
    }
  }

  lemma BadBlockIsRefused(familyId: U32, r: Reader, bytes: seq<Byte>, isLast: bool)
    requires IsBad(bytes)
    ensures ReadBlock(familyId, r, bytes, isLast).Err?
  {
    MarksAreWords(bytes);
    FlagsParity(bytes);
    WordIsNumber(bytes, 4);
  }

  lemma MarksAreWords(bytes: seq<Byte>)
    requires |bytes| == 512
    ensures bytes[..4] == [0x55, 0x46, 0x32, 0x0A] <==> WordAt(bytes, 0) == MAGIC_START0
    ensures bytes[4..8] == [0x57, 0x51, 0x5D, 0x9E] <==> WordAt(bytes, 1) == MAGIC_START1
  {
    assert Le32(MAGIC_START0) == [0x55, 0x46, 0x32, 0x0A] && Le32(MAGIC_START1) == [0x57, 0x51, 0x5D, 0x9E];
    MarkIsWord(bytes[0..4], MAGIC_START0, [0x55, 0x46, 0x32, 0x0A]);
    MarkIsWord(bytes[4..8], MAGIC_START1, [0x57, 0x51, 0x5D, 0x9E]);
    assert bytes[..4] == bytes[0..4];
  }

  lemma FlagsParity(bytes: seq<Byte>)
    requires |bytes| == 512
    ensures WordAt(bytes, 2) % 2 == bytes[8] % 2
  {
    var b: int, c: int, d: int := bytes[9], bytes[10], bytes[11];
    assert WordAt(bytes, 2) == bytes[8] + 2 * (b * 0x80 + c * 0x8000 + d * 0x80_0000);
  }

  /** A file with a bad block anywhere is refused. */
  lemma {:induction false} BadFileIsRefused(familyId: U32, r: Reader, buf: seq<Byte>, k: nat, i: nat)
    requires k <= i < |buf| / 512 && IsBad(buf[512 * i..512 * i + 512])
    ensures ReadFrom(familyId, r, buf, k).Err?
    decreases i - k
  {
    if k == i {
      BadBlockIsRefused(familyId, r, BlockAt(buf, i), i + 1 == |buf| / 512);
    } else {
      var next := ReadBlock(familyId, r, BlockAt(buf, k), k + 1 == |buf| / 512);
      if next.Ok? {
        BadFileIsRefused(familyId, next.value, buf, k + 1, i);
      }
    }
  }

  /** So is its conversion. */
  lemma BadFile(familyId: U32, start: nat, buf: seq<Byte>, i: nat)
    requires i < |buf| / 512 && IsBad(buf[512 * i..512 * i + 512])
    ensures FromUf2(familyId, start, buf).Err?
  {
    BadFileIsRefused(familyId, Reader(None, None, [], start, map[]), buf, 0, i);
  }

  // ---------------------------------------------------------------- choosing one family of two

  function TotalGap(fs: seq<Block>): nat
    requires AllLegal(fs)
  {
    if fs == [] then 0
    else
      LegalBefore(fs);
      TotalGap(fs[..|fs| - 1]) + Gap(fs, |fs| - 1)
  }

  predicate AllOf(family: U32, fs: seq<Block>) {
    forall i :: 0 <= i < |fs| ==> fs[i].family == family && NamesFamily(fs[i]) && !IsSkipped(fs[i])
  }

  lemma {:induction false} UnwantedGiveZeros(familyId: U32, family: U32, fs: seq<Block>)
    requires AllLegal(fs) && AllOf(family, fs) && familyId != 0 && familyId != family
    ensures Selected(familyId, fs) == Zeros(TotalGap(fs))
  {
    if fs != [] {
      LegalBefore(fs);
      UnwantedGiveZeros(familyId, family, fs[..|fs| - 1]);
    }
  }

  lemma LastWanted(us: seq<Block>, ws: seq<Block>, family: U32, familyId: U32)
    requires AllOf(family, us) && AllOf(familyId, ws) && familyId != family && ws != []
    ensures var n := |us + ws| - 1;
      Gap(us + ws, n) == if |ws| == 1 then 0 else ws[|ws| - 1].addr - EndOf(ws[|ws| - 2])
  {
    var fs, n := us + ws, |us + ws| - 1;
    assert fs[n] == ws[|ws| - 1];
    if n > 0 {
      assert fs[..n][n - 1] == fs[n - 1];
      CurrentOfNamed(fs[..n]);
      if |ws| > 1 {
        assert fs[n - 1] == ws[|ws| - 2];
      } else {
        assert fs[n - 1] == us[|us| - 1];
      }
    }
  }

  lemma CurrentOfNamed(fs: seq<Block>)
    requires fs != [] && NamesFamily(fs[|fs| - 1])
    ensures Current(fs) == fs[|fs| - 1].family
  {
  }

  lemma JoinedLegal(us: seq<Block>, ws: seq<Block>, family: U32, familyId: U32)
    requires AllOf(family, us) && AllOf(familyId, ws) && familyId != family && GapsOk(us) && GapsOk(ws)
    ensures AllLegal(us) && AllLegal(us + ws)
  {
    var fs := us + ws;
    forall i | 0 <= i < |us| ensures IsLegal(Gap(us, i)) {
      if i > 0 {
        GapIfNamed(us, i);
        assert GapOk(us[i - 1], us[i]);
      }
    }
    forall i | 0 <= i < |fs| ensures IsLegal(Gap(fs, i)) {
      if i < |us| {
        GapOfPrefix(us, fs, i);
      } else if i > 0 {
        GapIfNamed(fs, i);
        assert i > |us| ==> GapOk(ws[i - |us| - 1], ws[i - |us|]);
      }
    }
  }

  /** Between blocks that name their families only the families count. */
  lemma GapIfNamed(fs: seq<Block>, i: nat)
    requires 0 < i < |fs| && NamesFamily(fs[i - 1]) && NamesFamily(fs[i])
    ensures StartsOver(fs, i) <==> fs[i].family != fs[i - 1].family
  {
    assert fs[..i][|fs[..i]| - 1] == fs[i - 1];
    CurrentOfNamed(fs[..i]);
  }

  lemma SelectedLast(familyId: U32, us: seq<Block>, ws: seq<Block>)
    requires ws != [] && AllLegal(us + ws)
    ensures AllLegal(us + ws[..|ws| - 1])
    ensures var n := |us + ws| - 1;
      Selected(familyId, us + ws) == Selected(familyId, us + ws[..|ws| - 1]) + Zeros(Gap(us + ws, n)) +
        (if IsWanted(familyId, ws[|ws| - 1]) then ws[|ws| - 1].data else [])
  {
    assert (us + ws)[..|us + ws| - 1] == us + ws[..|ws| - 1];
    LegalBefore(us + ws);
  }

  /** The wanted blocks behind the others: their image, behind the zeros of the others' gaps. */
  lemma {:induction false} WantedBehindUnwanted(familyId: U32, family: U32, us: seq<Block>, ws: seq<Block>)
    requires AllOf(family, us) && AllOf(familyId, ws) && familyId != 0 && familyId != family
    requires AllLegal(us + ws) && AllLegal(us) && GapsOk(ws)
    ensures Selected(familyId, us + ws) == Zeros(TotalGap(us)) + Image(ws)
    decreases |ws|
  {
    if ws == [] {
      assert us + ws == us;
      UnwantedGiveZeros(familyId, family, us);
    } else {
      SelectedLast(familyId, us, ws);
      WantedBehindUnwanted(familyId, family, us, ws[..|ws| - 1]);
      NextWanted(familyId, family, us, ws, Zeros(TotalGap(us)));
    }
  }

  lemma NextWanted(familyId: U32, family: U32, us: seq<Block>, ws: seq<Block>, zeros: seq<Byte>)
    requires AllOf(family, us) && AllOf(familyId, ws) && familyId != 0 && familyId != family
    requires ws != [] && AllLegal(us + ws) && GapsOk(ws)
    requires AllLegal(us + ws[..|ws| - 1]) && Selected(familyId, us + ws[..|ws| - 1]) == zeros + Image(ws[..|ws| - 1])
    ensures Selected(familyId, us + ws) == zeros + Image(ws)
  {
    var n := |ws| - 1;
    SelectedLast(familyId, us, ws);
    LastWanted(us, ws, family, familyId);
    if n == 0 {
      Regroup(zeros, [], [], ws[n].data);
      assert [] + [] + ws[n].data == Image(ws);
    } else {
      ImageGrowsBy(ws);
      Regroup(zeros, Image(ws[..n]), Zeros(ws[n].addr - EndOf(ws[n - 1])), ws[n].data);
    }
  }

  lemma Regroup(a: seq<Byte>, b: seq<Byte>, c: seq<Byte>, d: seq<Byte>)
    ensures a + b + c + d == a + (b + c + d)
  {
  }

  lemma ImageGrowsBy(ws: seq<Block>)
    requires |ws| > 1 && GapsOk(ws)
    ensures var n := |ws| - 1;
      GapsOk(ws[..n]) && Image(ws) == Image(ws[..n]) + Zeros(ws[n].addr - EndOf(ws[n - 1])) + ws[n].data
  {
  }

  lemma StartOfWanted(familyId: U32, start: nat, us: seq<Block>, ws: seq<Block>, family: U32)
    requires AllOf(family, us) && AllOf(familyId, ws) && familyId != 0 && familyId != family && ws != []
    ensures StartOf(familyId, start, us + ws) == ws[0].addr
    decreases |ws|
  {
    var fs, n := us + ws, |us + ws| - 1;
    assert fs[..n] == us + ws[..|ws| - 1];
    if n > 0 {
      GapIfNamed(fs, n);
    }
    if |ws| > 1 {
      StartOfWanted(familyId, start, us, ws[..|ws| - 1], family);
    }
  }

  lemma {:induction false} NothingSkipped(fs: seq<Block>)
    requires forall i :: 0 <= i < |fs| ==> !IsSkipped(fs[i])
    ensures Flash(fs) == fs
  {
    if fs != [] {
      NothingSkipped(fs[..|fs| - 1]);
    }
  }

  /**
   Choosing a family from a file with blocks of another one in front: the memory image of the chosen blocks comes
   out if and only if the others have no gaps. Their gaps are written out as zeros although their data is not.
   */
  lemma ChosenFamilyIff(familyId: U32, family: U32, start: nat, us: seq<Block>, ws: seq<Block>, buf: seq<Byte>)
    requires AllOf(family, us) && AllOf(familyId, ws) && familyId != 0 && familyId != family && ws != []
    requires GapsOk(us) && GapsOk(ws) && Contains(buf, us + ws)
    ensures AllLegal(us)
    ensures FromUf2(familyId, start, buf) == Ok((Zeros(TotalGap(us)) + Image(ws), ws[0].addr as nat))
    ensures FromUf2(familyId, start, buf) == Ok((Image(ws), ws[0].addr as nat)) <==> TotalGap(us) == 0
  {
    JoinedLegal(us, ws, family, familyId);
    NothingSkipped(us + ws);
    ReadsFamilies(familyId, start, us + ws, buf);
    WantedBehindUnwanted(familyId, family, us, ws);
    StartOfWanted(familyId, start, us, ws, family);
    assert TotalGap(us) == 0 ==> Zeros(TotalGap(us)) + Image(ws) == Image(ws);
  }
}
