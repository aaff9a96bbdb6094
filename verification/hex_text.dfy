/** Intel HEX text: what each record written out in hexadecimal stores, and where. */
module HexText {
  import opened Bytes
  import opened Uf2
  import opened HexUf2

  type U16 = v: nat | v < 0x1_0000

  // ---------------------------------------------------------------- the text

  /** What a record is for, by its type: 0, 4, 2, 1, or any other. */
  datatype Content =
    | Data(data: seq<Byte>)
    | LinearUpper(upper: U16)
    | SegmentUpper(upper: U16)
    | End
    | Other(kind: Byte, payload: seq<Byte>)

  /** A record with its length and address fields and its checksum, and how it is written; or a remark. */
  datatype Line =
    | Record(content: Content, length: Byte, address: U16, checksum: Byte, lowerCase: bool, ending: string)
    | Remark(text: string)

  function Digit(n: nat, lowerCase: bool): char
    requires n < 16
  {
    if lowerCase then "0123456789abcdef"[n] else "0123456789ABCDEF"[n]
  }

  function HexDigits(bs: seq<Byte>, lowerCase: bool): string {
    if bs == [] then ""
    else [Digit(bs[0] / 16, lowerCase), Digit(bs[0] % 16, lowerCase)] + HexDigits(bs[1..], lowerCase)
  }

  function Big(v: U16): seq<Byte> {
    [v / 0x100, v % 0x100]
  }

  /** Type and payload of a record. */
  function Body(c: Content): seq<Byte> {
    match c
    case Data(data) => [0] + data
    case LinearUpper(upper) => [4] + Big(upper)
    case SegmentUpper(upper) => [2] + Big(upper)
    case End => [1]
    case Other(kind, payload) => [kind] + payload
  }

  function RecordBytes(line: Line): seq<Byte>
    requires line.Record?
  {
    [line.length] + Big(line.address) + Body(line.content) + [line.checksum]
  }

  function TextOf(line: Line): string {
    match line
    case Record(_, _, _, _, lowerCase, ending) => ":" + HexDigits(RecordBytes(line), lowerCase) + ending
    case Remark(text) => text
  }

  function Text(lines: seq<Line>): (t: seq<string>)
    ensures |t| == |lines|
  {
    seq(|lines|, i requires 0 <= i < |lines| => TextOf(lines[i]))
  }

  /** A carriage return may be left from the line's end; a remark does not begin with a colon. */
  predicate IsLine(line: Line) {
    match line
    case Record(content, _, _, _, _, ending) =>
      (ending == "" || ending == "\r") && (content.Other? ==> content.kind !in {0, 1, 2, 4})
    case Remark(text) => text != "" && text[0] != ':'
  }

  /** Lines as they should be, and behind an end record anything else. */
  ghost predicate IsText(lines: seq<Line>, rest: seq<string>) {
    && (forall i :: 0 <= i < |lines| ==> IsLine(lines[i]))
    && (rest != [] ==> EndComes(lines, 0))
  }

  // ---------------------------------------------------------------- what it stores

  /** The data, byte by byte, from address `start` on. */
  function Placed(start: nat, data: seq<Byte>): seq<Store> {
    seq(|data|, k requires 0 <= k < |data| => Store(start + k, data[k]))
  }

  /** Data goes behind the upper address last set, 64 KiB or 16 bytes a unit; an end record ends everything. */
  function Stored(lines: seq<Line>, upper: nat): seq<Store> {
    if lines == [] then []
    else
      var line, rest := lines[0], lines[1..];
      match line
      case Remark(_) => Stored(rest, upper)
      case Record(content, _, address, _, _, _) =>
        match content
        case Data(data) => Placed(upper + address, data) + Stored(rest, upper)
        case LinearUpper(u) => Stored(rest, u * 0x1_0000)
        case SegmentUpper(u) => Stored(rest, u * 0x10)
        case End => []
        case Other(_, _) => Stored(rest, upper)
  }

  // ---------------------------------------------------------------- reading it

  lemma DigitReads(n: nat, lowerCase: bool)
    requires n < 16
    ensures DigitValue(Digit(n, lowerCase)) == Some(n)
  {
  }

  lemma {:induction false} PairsOfDigits(before: string, bs: seq<Byte>, lowerCase: bool, after: string)
    requires |after| <= 1
    ensures Pairs(before + HexDigits(bs, lowerCase) + after, |before|) == Ok(bs)
    decreases |bs|
  {
    if bs != [] {
      var head := [Digit(bs[0] / 16, lowerCase), Digit(bs[0] % 16, lowerCase)];
      PairsOfDigits(before + head, bs[1..], lowerCase, after);
      FirstPair(before, bs, lowerCase, after);
      assert bs == [bs[0]] + bs[1..];
    }
  }

  lemma FirstPair(before: string, bs: seq<Byte>, lowerCase: bool, after: string)
    requires bs != []
    ensures var head := [Digit(bs[0] / 16, lowerCase), Digit(bs[0] % 16, lowerCase)];
      var line := before + HexDigits(bs, lowerCase) + after;
      && line == before + head + HexDigits(bs[1..], lowerCase) + after
      && |before| + 1 < |line| && PairAt(line, |before|) == Some(bs[0] as int)
  {
    DigitReads(bs[0] / 16, lowerCase);
    DigitReads(bs[0] % 16, lowerCase);
    var high, low := Digit(bs[0] / 16, lowerCase), Digit(bs[0] % 16, lowerCase);
    TwoCharacters(before, high, low, HexDigits(bs[1..], lowerCase), after);
  }

  lemma TwoCharacters(before: string, a: char, b: char, tail: string, after: string)
    ensures var line := before + ([a, b] + tail) + after;
      && line == before + [a, b] + tail + after
      && |before| + 1 < |line| && line[|before|] == a && line[|before| + 1] == b
  {
  }

  /** A record written out in hexadecimal is read back, with or without a carriage return behind it. */
  lemma LineReadsBack(rec: seq<Byte>, lowerCase: bool, ending: string)
    requires ending == "" || ending == "\r"
    ensures LineRequest(":" + HexDigits(rec, lowerCase) + ending) == RecordRequest(rec)
  {
    PairsOfDigits(":", rec, lowerCase, ending);
  }

  /** What reading a line asks for. */
  function Asked(line: Line): Request {
    match line
    case Remark(_) => Ignore
    case Record(content, _, address, _, _, _) =>
      match content
      case Data(data) => Request.Data(address, data)
      case LinearUpper(u) => SetUpper(u * 0x1_0000)
      case SegmentUpper(u) => SetUpper(u * 0x10)
      case End => EndOfFile
      case Other(_, _) => Ignore
  }

  lemma LineAsks(line: Line)
    requires IsLine(line)
    ensures LineRequest(TextOf(line)) == Ok(Asked(line))
  {
    if line.Record? {
      LineReadsBack(RecordBytes(line), line.lowerCase, line.ending);
      RecordAsks(line);
    }
  }

  lemma RecordAsks(line: Line)
    requires IsLine(line) && line.Record?
    ensures RecordRequest(RecordBytes(line)) == Ok(Asked(line))
  {
    var rec := RecordBytes(line);
    RecordParts(line);
    match line.content
    case LinearUpper(u) => assert rec[4] == rec[4..|rec| - 1][0] && rec[5] == rec[4..|rec| - 1][1];
    case SegmentUpper(u) => assert rec[4] == rec[4..|rec| - 1][0] && rec[5] == rec[4..|rec| - 1][1];
    case _ =>
  }

  lemma RecordParts(line: Line)
    requires line.Record?
    ensures var rec, body := RecordBytes(line), Body(line.content);
      && |rec| == 4 + |body| && rec[3] == body[0] && rec[4..|rec| - 1] == body[1..]
      && rec[1] == line.address / 0x100 && rec[2] == line.address % 0x100
  {
  }

  lemma DataLineStores(text: seq<string>, i: nat, upper: nat, offset: nat, data: seq<Byte>, rest: seq<Store>)
    requires i < |text| && LineRequest(text[i]) == Ok(Request.Data(offset, data))
    requires StoresFrom(text, i + 1, upper) == Ok(rest)
    ensures StoresFrom(text, i, upper) == Ok(Placed(upper + offset, data) + rest)
  {
    var ss := Placed(upper + offset, data);
    assert Storable(upper + offset, data) == Ok(data);
    assert StoresOf(upper + offset, data) == ss;
  }

  /** A line that stores nothing and ends nothing only sets the upper address, or not even that. */
  predicate IsQuiet(line: Line) {
    line.Record? ==> !line.content.Data? && !line.content.End?
  }

  function NextUpper(line: Line, upper: nat): nat {
    if line.Record? && line.content.LinearUpper? then line.content.upper * 0x1_0000
    else if line.Record? && line.content.SegmentUpper? then line.content.upper * 0x10
    else upper
  }

  lemma QuietLineStores(lines: seq<Line>, rest: seq<string>, i: nat, upper: nat)
    requires i < |lines| && IsLine(lines[i]) && IsQuiet(lines[i])
    ensures var next := NextUpper(lines[i], upper);
      && StoresFrom(Text(lines) + rest, i, upper) == StoresFrom(Text(lines) + rest, i + 1, next)
      && Stored(lines[i..], upper) == Stored(lines[i + 1..], next)
  {
    TextLine(lines, rest, i);
    assert lines[i..][1..] == lines[i + 1..];
  }

  lemma TextLine(lines: seq<Line>, rest: seq<string>, i: nat)
    requires i < |lines| && IsLine(lines[i])
    ensures LineRequest((Text(lines) + rest)[i]) == Ok(Asked(lines[i]))
  {
    LineAsks(lines[i]);
  }

  lemma StoredOfLoud(lines: seq<Line>, i: nat, upper: nat)
    requires i < |lines| && !IsQuiet(lines[i])
    ensures Stored(lines[i..], upper) ==
            if lines[i].content.End? then []
            else Placed(upper + lines[i].address, lines[i].content.data) + Stored(lines[i + 1..], upper)
  {
    assert lines[i..][1..] == lines[i + 1..];
  }

  lemma LoudLineStores(lines: seq<Line>, rest: seq<string>, i: nat, upper: nat)
    requires i < |lines| && IsLine(lines[i]) && !IsQuiet(lines[i])
    requires lines[i].content.Data? ==>
      StoresFrom(Text(lines) + rest, i + 1, upper) == Ok(Stored(lines[i + 1..], upper))
    ensures StoresFrom(Text(lines) + rest, i, upper) == Ok(Stored(lines[i..], upper))
  {
    TextLine(lines, rest, i);
    StoredOfLoud(lines, i, upper);
    if lines[i].content.Data? {
      DataLineStores(Text(lines) + rest, i, upper, lines[i].address, lines[i].content.data,
                     Stored(lines[i + 1..], upper));
    }
  }

  predicate IsEnd(line: Line) {
    line.Record? && line.content.End?
  }

  /** An end record stands at position `i` or behind it. */
  ghost predicate EndComes(lines: seq<Line>, i: nat) {
    exists j :: i <= j < |lines| && IsEnd(lines[j])
  }

  lemma {:induction false} RestStores(lines: seq<Line>, rest: seq<string>, i: nat, upper: nat)
    requires i <= |lines| && forall j :: i <= j < |lines| ==> IsLine(lines[j])
    requires rest != [] ==> EndComes(lines, i)
    ensures StoresFrom(Text(lines) + rest, i, upper) == Ok(Stored(lines[i..], upper))
    decreases |lines| - i
  {
    if i == |lines| {
      assert Text(lines) + rest == Text(lines);
    } else if IsQuiet(lines[i]) {
      RestStores(lines, rest, i + 1, NextUpper(lines[i], upper));
      QuietLineStores(lines, rest, i, upper);
    } else {
      if !IsEnd(lines[i]) {
        RestStores(lines, rest, i + 1, upper);
      }
      LoudLineStores(lines, rest, i, upper);
    }
  }

  /** Nothing to read, or a colon with fewer than four bytes behind it, or with something that is no number. */
  ghost predicate IsBroken(line: string) {
    line == "" || (line[0] == ':' && (|line| < 9 || exists k: nat :: IsBrokenPair(line, k)))
  }

  predicate IsBrokenPair(line: string, k: nat) {
    2 * k + 2 < |line| && IsNoNumber(line[2 * k + 1], line[2 * k + 2])
  }

  /** Neither two digits nor one digit beside a blank or behind a sign. */
  predicate IsNoNumber(a: char, b: char) {
    var digits := "0123456789abcdefABCDEF";
    var blanks := " \t\r\U{0B}\U{0C}";
    !(a in digits && b in digits) && !(a in digits && b in blanks) && !(a in blanks + "+-" && b in digits)
  }

  lemma DigitIff(c: char)
    ensures DigitValue(c).Some? <==> c in "0123456789abcdefABCDEF"
  {
  }

  lemma NoNumber(line: string, i: nat)
    requires i + 1 < |line|
    ensures PairAt(line, i).None? <==> IsNoNumber(line[i], line[i + 1])
  {
    DigitIff(line[i]);
    DigitIff(line[i + 1]);
  }

  lemma {:induction false} BrokenPairs(line: string, i: nat, k: nat)
    requires 2 * k + 2 < |line| && i % 2 == 1 && i <= 2 * k + 1 && PairAt(line, 2 * k + 1).None?
    ensures Pairs(line, i).Err?
    decreases 2 * k + 1 - i
  {
    if i < 2 * k + 1 {
      BrokenPairs(line, i + 2, k);
    }
  }

  lemma {:induction false} FewPairs(line: string, i: nat)
    ensures Pairs(line, i).Ok? ==> 2 * |Pairs(line, i).value| <= if i <= |line| then |line| - i else 0
    decreases |line| - i
  {
    if i + 1 < |line| {
      FewPairs(line, i + 2);
    }
  }

  lemma BrokenLine(line: string)
    requires IsBroken(line)
    ensures LineRequest(line).Err?
  {
    if line != "" {
      if k: nat :| IsBrokenPair(line, k) {
        NoNumber(line, 2 * k + 1);
        BrokenPairs(line, 1, k);
      } else {
        FewPairs(line, 1);
      }
    }
  }

  /**
   A broken line, as long as no end record comes before it, makes the whole text be refused. So text that ends in a
   newline is, unless it has an end record: behind the last newline there is an empty line.
   */
  lemma {:induction false} BrokenTextIsRefused(lines: seq<Line>, broken: string, rest: seq<string>, i: nat, upper: nat)
    requires i <= |lines| && (forall j :: i <= j < |lines| ==> IsLine(lines[j]) && !IsEnd(lines[j])) && IsBroken(broken)
    ensures StoresFrom(Text(lines) + [broken] + rest, i, upper).Err?
    decreases |lines| - i
  {
    var text := Text(lines) + [broken] + rest;
    if i == |lines| {
      assert text[i] == broken;
      BrokenLine(broken);
    } else {
      LineAsks(lines[i]);
      assert text[i] == TextOf(lines[i]);
      BrokenTextIsRefused(lines, broken, rest, i + 1, NextUpper(lines[i], upper));
    }
  }

  /** What Python's `int` lets pass: a blank or a sign beside a single digit. */
  lemma SignsAndBlanks()
    ensures Pairs(": 1+2\t34 -5\r6", 1) == Ok([1, 2, 3, 4, -5, 6])
    ensures RecordRequest([0, 1, -5, 0, 7, 8]) == Ok(Request.Data(-5, [7]))
    ensures RecordRequest([0, 1, 5, 0, 7, 8]) == Ok(Request.Data(261, [7]))
  {
    var line := ": 1+2\t34 -5\r6";
    var below, above: seq<int> := [0, 1, -5, 0, 7, 8], [0, 1, 5, 0, 7, 8];
    assert below[4..5] == [7] && above[4..5] == [7];
    assert Pairs(line, 13) == Ok([]);
    assert [6][1..] == [];
    PairFirst(line, 11, [6]);
    PairFirst(line, 9, [-5, 6]);
    PairFirst(line, 7, [4, -5, 6]);
    PairFirst(line, 5, [3, 4, -5, 6]);
    PairFirst(line, 3, [2, 3, 4, -5, 6]);
    PairFirst(line, 1, [1, 2, 3, 4, -5, 6]);
  }

  lemma PairFirst(line: string, i: nat, values: seq<int>)
    requires i + 1 < |line| && values != []
    requires PairAt(line, i) == Some(values[0]) && Pairs(line, i + 2) == Ok(values[1..])
    ensures Pairs(line, i) == Ok(values)
  {
    assert values == [values[0]] + values[1..];
  }

  /**
   The text stores exactly the data of its records, each behind the upper address set before: neither length
   nor checksum is looked at or stored, and nothing counts behind an end record.
   */
  lemma TextStores(lines: seq<Line>, rest: seq<string>)
    requires IsText(lines, rest)
    ensures StoresFrom(Text(lines) + rest, 0, 0) == Ok(Stored(lines, 0))
  {
    RestStores(lines, rest, 0, 0);
    assert lines[0..] == lines;
  }
}
