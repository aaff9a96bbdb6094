/** From Intel HEX text to UF2: `convert_from_hex_to_uf2`, page by page. */
module HexUf2 {
  import opened Bytes
  import opened Uf2
  import opened Uf2Image

  // ---------------------------------------------------------------- one line of text

  function DigitValue(c: char): (r: Option<int>)
    ensures r.Some? ==> 0 <= r.value < 16
  {
    if '0' <= c <= '9' then Some((c - '0') as int)
    else if 'a' <= c <= 'f' then Some((c - 'a') as int + 10)
    else if 'A' <= c <= 'F' then Some((c - 'A') as int + 10)
    else None
  }

  predicate IsBlank(c: char) {
    c == ' ' || c == '\t' || c == '\r' || c == '\U{0B}' || c == '\U{0C}'
  }

  /** `int(.., 16)` on the two characters at `i`: two digits, or one beside a blank, or one behind a sign. */
  function PairAt(line: string, i: nat): (r: Option<int>)
    requires i + 1 < |line|
    ensures r.Some? ==> -16 < r.value < 0x100
  {
    var a, b := line[i], line[i + 1];
    match (DigitValue(a), DigitValue(b))
    case (Some(hi), Some(lo)) => Some(hi * 16 + lo)
    case (Some(d), None) => if IsBlank(b) then Some(d) else None
    case (None, Some(d)) => if IsBlank(a) || a == '+' then Some(d) else if a == '-' then Some(-d) else None
    case (None, None) => None
  }

  /** All pairs from `i` on; an odd character at the end (a carriage return, say) is left over. */
  function Pairs(line: string, i: nat): Result<seq<int>>
    decreases |line| - i
  {
    if i + 1 >= |line| then Ok([])
    else
      match PairAt(line, i)
      case None => Err(BadRecord)
      case Some(b) =>
        match Pairs(line, i + 2)
        case Err(e) => Err(e)
        case Ok(bs) => Ok([b] + bs)
  }

  // ---------------------------------------------------------------- one record

  /** One byte to be stored, and where. */
  datatype Store = Store(addr: nat, value: Byte)

  /** What a line asks for. Neither the length byte nor the checksum is looked at. */
  datatype Request = Ignore | SetUpper(upper: int) | Data(offset: int, data: seq<int>) | EndOfFile

  /** `(hi << 8) | lo`; a negative `lo`, being above -256, has all bits from the eighth on set. */
  function Join16(hi: int, lo: int): int {
    if lo < 0 then lo else hi * 0x100 + lo
  }

  function RecordRequest(rec: seq<int>): Result<Request> {
    if |rec| < 4 then Err(BadRecord)
    else if rec[3] == 4 || rec[3] == 2 then
      if |rec| < 6 then Err(BadRecord)
      else Ok(SetUpper(Join16(rec[4], rec[5]) * (if rec[3] == 4 then 0x1_0000 else 0x10)))
    else if rec[3] == 1 then Ok(EndOfFile)
    else if rec[3] == 0 then Ok(Data(Join16(rec[1], rec[2]), if |rec| > 4 then rec[4..|rec| - 1] else []))
    else Ok(Ignore)
  }

  /** An empty line has no first character to look at. */
  function LineRequest(line: string): Result<Request> {
    if line == "" then Err(BadRecord)
    else if line[0] != ':' then Ok(Ignore)
    else
      match Pairs(line, 1)
      case Err(e) => Err(e)
      case Ok(rec) => RecordRequest(rec)
  }

  function StoresOf(addr: nat, data: seq<Byte>): (ss: seq<Store>)
    ensures |ss| == |data|
  {
    seq(|data|, i requires 0 <= i < |data| => Store(addr + i, data[i]))
  }

  /** The stores made so far, in front of those still to come. */
  function Behind(ss: seq<Store>, rest: Result<seq<Store>>): Result<seq<Store>> {
    match rest
    case Err(e) => Err(e)
    case Ok(more) => Ok(ss + more)
  }

  predicate AllBytes(data: seq<int>) {
    forall i :: 0 <= i < |data| ==> 0 <= data[i] < 0x100
  }

  /** Only bytes can be stored in a page, and a page with a negative address cannot be packed in the end. */
  function Storable(start: int, data: seq<int>): (r: Result<seq<Byte>>)
    ensures r.Ok? ==> r.value == data && (data != [] ==> start >= 0)
  {
    if !AllBytes(data) then Err(BadRecord)
    else if data != [] && start < 0 then Err(AddressTooLarge)
    else Ok(data)
  }

  function StoresAt(start: int, data: seq<int>): Result<seq<Store>> {
    match Storable(start, data)
    case Err(e) => Err(e)
    case Ok(bytes) => Ok(if bytes == [] then [] else StoresOf(start, bytes))
  }

  /** Everything the lines from `i` on store, in order, with the given upper address. */
  function StoresFrom(lines: seq<string>, i: nat, upper: int): Result<seq<Store>>
    requires i <= |lines|
    decreases |lines| - i
  {
    if i == |lines| then Ok([])
    else
      match LineRequest(lines[i])
      case Err(e) => Err(e)
      case Ok(EndOfFile) => Ok([])
      case Ok(Ignore) => StoresFrom(lines, i + 1, upper)
      case Ok(SetUpper(u)) => StoresFrom(lines, i + 1, u)
      case Ok(Data(offset, data)) =>
        match StoresAt(upper + offset, data)
        case Err(e) => Err(e)
        case Ok(ss) => Behind(ss, StoresFrom(lines, i + 1, upper))
  }

  // ---------------------------------------------------------------- pages

  datatype Page = Page(addr: nat, bytes: seq<Byte>)

  /** A byte goes to the page last opened, unless its address lies in another one. */
  function StoreByte(pages: seq<Page>, s: Store): (p: seq<Page>)
    requires PagesFull(pages)
    ensures p != [] && PagesFull(p)
  {
    var open := if pages == [] || pages[|pages| - 1].addr / PAGE != s.addr / PAGE
                then pages + [Page(s.addr / PAGE * PAGE, Zeros(PAGE))] else pages;
    var n := |open| - 1;
    open[n := open[n].(bytes := open[n].bytes[s.addr % PAGE := s.value])]
  }

  predicate PagesFull(pages: seq<Page>) {
    forall i :: 0 <= i < |pages| ==> |pages[i].bytes| == PAGE
  }

  function PagesOf(ss: seq<Store>): (pages: seq<Page>)
    ensures PagesFull(pages)
  {
    if ss == [] then [] else StoreByte(PagesOf(ss[..|ss| - 1]), ss[|ss| - 1])
  }

  /** `flags` and the bytes behind the data: a device type, if there is one, is appended to each block. */
  function FlagsWith(familyId: U32, deviceType: U32): U32 {
    FlagsFor(familyId) + (if deviceType != 0 then 0x8000 else 0)
  }

  function Trailer(deviceType: U32): (t: seq<Byte>)
    ensures |t| == MAX_DATA - PAGE
  {
    if deviceType != 0 then [0x08, 0x29, 0xa7, 0xc8] + Le32(deviceType) + Zeros(MAX_DATA - PAGE - 8)
    else Zeros(MAX_DATA - PAGE)
  }

  predicate PagesFit(pages: seq<Page>) {
    |pages| < 0x1_0000_0000 && forall i :: 0 <= i < |pages| ==> pages[i].addr < 0x1_0000_0000
  }

  function PageAsBlock(familyId: U32, deviceType: U32, p: Page): Block
    requires p.addr < 0x1_0000_0000
  {
    Block(FlagsWith(familyId, deviceType), p.addr, familyId, p.bytes)
  }

  function EncodedPageList(familyId: U32, deviceType: U32, pages: seq<Page>): (bs: seq<seq<Byte>>)
    requires PagesFull(pages) && PagesFit(pages)
    ensures |bs| == |pages| && forall i :: 0 <= i < |bs| ==> |bs[i]| == BLOCK_SIZE
  {
    seq(|pages|, i requires 0 <= i < |pages| =>
      Encode(PageAsBlock(familyId, deviceType, pages[i]), i, |pages|, Trailer(deviceType)))
  }

  /** The UF2 bytes; a page address that does not fit 32 bits cannot be packed. */
  function HexToUf2(familyId: U32, deviceType: U32, lines: seq<string>): Result<seq<Byte>> {
    match StoresFrom(lines, 0, 0)
    case Err(e) => Err(e)
    case Ok(ss) =>
      var pages := PagesOf(ss);
      if PagesFit(pages) then Ok(Join(EncodedPageList(familyId, deviceType, pages))) else Err(AddressTooLarge)
  }

  /** What follows the page in a block: the tag and number of the device type, if there is one, and zeros. */
  function RestOf(deviceType: U32): seq<Byte> {
    if deviceType == 0 then seq(220, _ => 0)
    else
      [0x08, 0x29, 0xA7, 0xC8] +
      [deviceType % 0x100, deviceType / 0x100 % 0x100, deviceType / 0x1_0000 % 0x100, deviceType / 0x100_0000] +
      seq(212, _ => 0)
  }

  function FlagsOf(familyId: U32, deviceType: U32): nat {
    (if familyId != 0 then 0x2000 else 0) + (if deviceType != 0 then 0x8000 else 0)
  }

  /** The file has one block for each page, numbered, byte by byte as laid down. */
  ghost predicate IsPageFile(file: seq<Byte>, familyId: U32, deviceType: U32, pages: seq<Page>) {
    && |file| == 512 * |pages|
    && forall i :: 0 <= i < |pages| ==>
         IsPageBlock(file[512 * i..512 * i + 512], familyId, deviceType, pages[i], i, |pages|)
  }

  ghost predicate IsPageBlock(bytes: seq<Byte>, familyId: U32, deviceType: U32, p: Page, i: nat, count: nat) {
    IsNumbered(bytes, i, count) &&
    Carries(bytes, FlagsOf(familyId, deviceType), p.addr, familyId, p.bytes, RestOf(deviceType))
  }

  lemma PageBlockCarries(familyId: U32, deviceType: U32, pages: seq<Page>, i: nat)
    requires PagesFull(pages) && PagesFit(pages) && i < |pages|
    ensures IsPageBlock(EncodedPageList(familyId, deviceType, pages)[i], familyId, deviceType, pages[i], i, |pages|)
  {
    EncodedCarries(PageAsBlock(familyId, deviceType, pages[i]), i, |pages|, Trailer(deviceType));
    assert Trailer(deviceType) == RestOf(deviceType);
  }

  lemma FileOfPages(familyId: U32, deviceType: U32, pages: seq<Page>)
    requires PagesFull(pages) && PagesFit(pages)
    ensures IsPageFile(Join(EncodedPageList(familyId, deviceType, pages)), familyId, deviceType, pages)
  {
    var list := EncodedPageList(familyId, deviceType, pages);
    forall i | 0 <= i < |pages|
      ensures IsPageBlock(Join(list)[512 * i..512 * i + 512], familyId, deviceType, pages[i], i, |pages|)
    {
      BlockInJoin(list, i);
      PageBlockCarries(familyId, deviceType, pages, i);
    }
  }

  lemma PageFile(familyId: U32, deviceType: U32, lines: seq<string>)
    requires HexToUf2(familyId, deviceType, lines).Ok?
    ensures StoresFrom(lines, 0, 0).Ok?
    ensures IsPageFile(HexToUf2(familyId, deviceType, lines).value, familyId, deviceType,
                       PagesOf(StoresFrom(lines, 0, 0).value))
  {
    FileOfPages(familyId, deviceType, PagesOf(StoresFrom(lines, 0, 0).value));
  }

  // ---------------------------------------------------------------- the conversion as it runs

  /** The class `Block`: an address and 256 bytes that are filled in one by one. */
  class PageBuffer {
    const addr: nat
    const bytes: array<Byte>

    constructor (addr: nat)
      ensures this.addr == addr && fresh(bytes) && bytes.Length == PAGE && bytes[..] == Zeros(PAGE)
    {
      this.addr := addr;
      bytes := new Byte[PAGE](_ => 0);
    }

    ghost function Contents(): Page
      reads bytes
    {
      Page(addr, bytes[..])
    }
  }

  /** The pages of a list of buffers, which must not share storage. */
  ghost predicate Separate(buffers: seq<PageBuffer>) {
    && (forall i :: 0 <= i < |buffers| ==> buffers[i].bytes.Length == PAGE)
    && (forall i, j :: 0 <= i < j < |buffers| ==> buffers[i].bytes != buffers[j].bytes)
  }

  ghost function Pages(buffers: seq<PageBuffer>): (p: seq<Page>)
    reads set i | 0 <= i < |buffers| :: buffers[i].bytes
    ensures |p| == |buffers|
  {
    seq(|buffers|, i requires 0 <= i < |buffers| reads set k | 0 <= k < |buffers| :: buffers[k].bytes =>
      buffers[i].Contents())
  }

  method StoreInto(buffers: seq<PageBuffer>, s: Store) returns (out: seq<PageBuffer>)
    requires Separate(buffers) && PagesFull(Pages(buffers))
    modifies if buffers == [] then {} else {buffers[|buffers| - 1].bytes}
    ensures Separate(out) && |buffers| <= |out| <= |buffers| + 1
    ensures forall i :: 0 <= i < |buffers| ==> out[i] == buffers[i]
    ensures |out| > |buffers| ==> fresh(out[|out| - 1].bytes)
    ensures Pages(out) == StoreByte(old(Pages(buffers)), s)
  {
    out := buffers;
    if |out| == 0 || out[|out| - 1].addr / PAGE != s.addr / PAGE {
      var page := new PageBuffer(s.addr / PAGE * PAGE);
      out := out + [page];
    }
    ghost var extended := Pages(out);
    var last := out[|out| - 1];
    last.bytes[s.addr % PAGE] := s.value;
    assert last.bytes[..] == extended[|out| - 1].bytes[s.addr % PAGE := s.value];
    assert Pages(out) == extended[|out| - 1 := Page(last.addr, last.bytes[..])];
  }

  lemma BehindConcat(a: seq<Store>, b: seq<Store>, rest: Result<seq<Store>>)
    ensures Behind(a, Behind(b, rest)) == Behind(a + b, rest)
  {
    if rest.Ok? {
      assert a + (b + rest.value) == a + b + rest.value;
    }
  }

  lemma BehindNothing(rest: Result<seq<Store>>)
    ensures Behind([], rest) == rest
  {
    if rest.Ok? {
      assert [] + rest.value == rest.value;
    }
  }

  /** What the whole text stores is what has been stored so far and what the lines from `i` on store. */
  ghost predicate OnTrack(lines: seq<string>, ss: seq<Store>, i: nat, upper: int)
    requires i <= |lines|
  {
    StoresFrom(lines, 0, 0) == Behind(ss, StoresFrom(lines, i, upper))
  }

  lemma NextLine(lines: seq<string>, ss: seq<Store>, i: nat, upper: int)
    requires i < |lines| && OnTrack(lines, ss, i, upper)
    ensures match LineRequest(lines[i])
      case Err(e) => StoresFrom(lines, 0, 0) == Err(e)
      case Ok(EndOfFile) => StoresFrom(lines, 0, 0) == Ok(ss)
      case Ok(Ignore) => OnTrack(lines, ss, i + 1, upper)
      case Ok(SetUpper(u)) => OnTrack(lines, ss, i + 1, u)
      case Ok(Data(offset, data)) =>
        match StoresAt(upper + offset, data)
        case Err(e) => StoresFrom(lines, 0, 0) == Err(e)
        case Ok(more) => OnTrack(lines, ss + more, i + 1, upper)
  {
    assert ss + [] == ss;
    if LineRequest(lines[i]).Ok? && LineRequest(lines[i]).value.Data? {
      var Data(offset, data) := LineRequest(lines[i]).value;
      if StoresAt(upper + offset, data).Ok? {
        BehindConcat(ss, StoresAt(upper + offset, data).value, StoresFrom(lines, i + 1, upper));
      }
    }
  }

  ghost predicate Owned(buffers: seq<PageBuffer>, ss: seq<Store>)
    reads set i | 0 <= i < |buffers| :: buffers[i].bytes
  {
    Separate(buffers) && Pages(buffers) == PagesOf(ss)
  }

  method StoreData(buffers: seq<PageBuffer>, ghost ss: seq<Store>, start: nat, data: seq<Byte>)
      returns (out: seq<PageBuffer>)
    requires Owned(buffers, ss)
    modifies set i | 0 <= i < |buffers| :: buffers[i].bytes
    ensures Owned(out, ss + StoresOf(start, data))
    ensures forall i :: 0 <= i < |out| ==> (i < |buffers| && out[i] == buffers[i]) || fresh(out[i].bytes)
  {
    out := buffers;
    var addr := start;
    ghost var made: seq<Store> := [];
    assert ss + made == ss;
    for i := 0 to |data|
      invariant addr == start + i && made == StoresOf(start, data[..i])
      invariant Owned(out, ss + made)
      invariant forall k :: 0 <= k < |out| ==> (k < |buffers| && out[k] == buffers[k]) || fresh(out[k].bytes)
    {
      var s := Store(addr, data[i]);
      out := StoreInto(out, s);
      assert (ss + made + [s])[..|ss + made|] == ss + made;
      assert ss + made + [s] == ss + (made + [s]);
      made := made + [s];
      addr := addr + 1;
    }
    assert data[..|data|] == data;
  }

  /** What a data record asks for, if all of it can be stored. */
  method StoreRecord(buffers: seq<PageBuffer>, ghost ss: seq<Store>, start: int, data: seq<int>)
      returns (out: seq<PageBuffer>)
    requires Owned(buffers, ss) && StoresAt(start, data).Ok?
    modifies set i | 0 <= i < |buffers| :: buffers[i].bytes
    ensures Owned(out, ss + StoresAt(start, data).value)
    ensures forall i :: 0 <= i < |out| ==> (i < |buffers| && out[i] == buffers[i]) || fresh(out[i].bytes)
  {
    var bytes := Storable(start, data);
    if bytes.value == [] {
      assert ss + [] == ss;
      return buffers;
    }
    out := StoreData(buffers, ss, start, bytes.value);
  }

  /** `convert_from_hex_to_uf2`, on the lines of its input. */
  method ConvertFromHexToUf2(familyId: U32, deviceType: U32, lines: seq<string>) returns (result: Result<seq<Byte>>)
    ensures result == HexToUf2(familyId, deviceType, lines)
    ensures result.Ok? ==> StoresFrom(lines, 0, 0).Ok? &&
                           IsPageFile(result.value, familyId, deviceType, PagesOf(StoresFrom(lines, 0, 0).value))
  {
    if HexToUf2(familyId, deviceType, lines).Ok? {
      PageFile(familyId, deviceType, lines);
    }
    var upper: int := 0;
    var buffers, i := [], 0;
    ghost var ss: seq<Store> := [];
    var reading := true;
    BehindNothing(StoresFrom(lines, 0, 0));
    while i < |lines| && reading
      invariant i <= |lines|
      invariant Owned(buffers, ss) && forall k :: 0 <= k < |buffers| ==> fresh(buffers[k].bytes)
      invariant if reading then OnTrack(lines, ss, i, upper) else StoresFrom(lines, 0, 0) == Ok(ss)
      decreases |lines| - i, reading
    {
      var request := LineRequest(lines[i]);
      NextLine(lines, ss, i, upper);
      if request.Err? {
        return Err(request.error);
      }
      match request.value {
        case EndOfFile =>
          reading := false;
        case Ignore =>
          i := i + 1;
        case SetUpper(u) =>
          upper := u;
          i := i + 1;
        case Data(offset, data) =>
          var stored := StoresAt(upper + offset, data);
          if stored.Err? {
            return Err(stored.error);
          }
          i := i + 1;
          buffers := StoreRecord(buffers, ss, upper + offset, data);
          ss := ss + stored.value;
      }
    }
    assert ss + [] == ss;
    result := EncodeAll(familyId, deviceType, buffers, ss);
  }

  lemma JoinNext(blocks: seq<seq<Byte>>, i: nat)
    requires forall k :: 0 <= k < |blocks| ==> |blocks[k]| == BLOCK_SIZE
    requires i < |blocks|
    ensures Join(blocks[..i + 1]) == Join(blocks[..i]) + blocks[i]
  {
    assert blocks[..i + 1][..i] == blocks[..i];
  }

  /** What has been written when the first `i` pages are encoded, provided all of them fit. */
  ghost predicate Encoded(familyId: U32, deviceType: U32, pages: seq<Page>, i: nat, output: seq<Byte>)
    requires PagesFull(pages) && i <= |pages|
  {
    PagesFit(pages) ==> output == Join(EncodedPageList(familyId, deviceType, pages)[..i])
  }

  lemma EncodedNext(familyId: U32, deviceType: U32, pages: seq<Page>, i: nat, output: seq<Byte>)
    requires PagesFull(pages) && i < |pages| < 0x1_0000_0000 && pages[i].addr < 0x1_0000_0000
    requires Encoded(familyId, deviceType, pages, i, output)
    ensures Encoded(familyId, deviceType, pages, i + 1,
                    output + Encode(PageAsBlock(familyId, deviceType, pages[i]), i, |pages|, Trailer(deviceType)))
  {
    if PagesFit(pages) {
      JoinNext(EncodedPageList(familyId, deviceType, pages), i);
    }
  }

  method EncodeAll(familyId: U32, deviceType: U32, buffers: seq<PageBuffer>, ghost ss: seq<Store>)
      returns (result: Result<seq<Byte>>)
    requires Owned(buffers, ss)
    ensures var pages := PagesOf(ss);
      result == if PagesFit(pages) then Ok(Join(EncodedPageList(familyId, deviceType, pages))) else Err(AddressTooLarge)
  {
    ghost var pages := PagesOf(ss);
    var n := |buffers|;
    var output: seq<Byte> := [];
    for i := 0 to n
      invariant n == |pages| && (i > 0 ==> n < 0x1_0000_0000)
      invariant forall k :: 0 <= k < i ==> pages[k].addr < 0x1_0000_0000
      invariant Encoded(familyId, deviceType, pages, i, output)
    {
      var b := buffers[i];
      assert pages[i] == b.Contents();
      if b.addr >= 0x1_0000_0000 || n >= 0x1_0000_0000 {
        return Err(AddressTooLarge);
      }
      EncodedNext(familyId, deviceType, pages, i, output);
      output := output + Encode(Block(FlagsWith(familyId, deviceType), b.addr, familyId, b.bytes[..]),
                              i, n, Trailer(deviceType));
    }
    assert PagesFit(pages);
    assert EncodedPageList(familyId, deviceType, pages)[..n] == EncodedPageList(familyId, deviceType, pages);
    return Ok(output);
  }
}
