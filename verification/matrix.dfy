/**
 The matrix scan of `quantum/keyboard.c`: which switch changes become key events, and which rows
 are held back because they may show ghost keys.
 */
module Matrix {
  import opened Bits
  import opened Events

  /** The size of the matrix, and which positions of layer 0 hold a key. */
  datatype Layout = Layout(rows: nat, cols: nat, isReal: (nat, nat) -> bool)

  /** What a scan reads: one word a row, and `timer_read()` as each position is handled. */
  datatype Scan = Scan(matrix: seq<nat>, clock: (nat, nat) -> Time16)

  // ---------------------------------------------------------------- ghost rows

  /** `get_real_keys` for the columns below `col`. */
  function RealKeys(l: Layout, row: nat, data: nat, col: nat): nat {
    if col == 0 then 0
    else
      var out := RealKeys(l, row, data, col - 1);
      if l.isReal(row, col - 1) && And(data, Pow2(col - 1)) != 0 then Or(out, Pow2(col - 1)) else out
  }

  ghost predicate RealKeyDown(l: Layout, row: nat, data: nat, col: nat) {
    col < l.cols && l.isReal(row, col) && Bit(data, col)
  }

  /** Rows `i` and `j` have real keys down in at least two common columns. */
  ghost predicate ShareTwoColumns(l: Layout, m: seq<nat>, i: nat, j: nat)
    requires i < |m| && j < |m|
  {
    exists a, b :: a != b
      && RealKeyDown(l, i, m[i], a) && RealKeyDown(l, j, m[j], a)
      && RealKeyDown(l, i, m[i], b) && RealKeyDown(l, j, m[j], b)
  }

  ghost predicate MayShowGhosts(l: Layout, m: seq<nat>, row: nat)
    requires row < |m|
  {
    exists j :: 0 <= j < |m| && j != row && ShareTwoColumns(l, m, row, j)
  }

  lemma {:induction false} RealKeysBits(l: Layout, row: nat, data: nat, col: nat, c: nat)
    ensures Bit(RealKeys(l, row, data, col), c) <==> c < col && l.isReal(row, c) && Bit(data, c)
  {
    if col == 0 {
      BitZero(c);
    } else {
      RealKeysBits(l, row, data, col - 1, c);
      MaskTest(data, col - 1);
      BitOr(RealKeys(l, row, data, col - 1), Pow2(col - 1), c);
      BitPow2(col - 1, c);
    }
  }

  /** The word the code tests for two rows has two bits exactly when the rows share two columns. */
  lemma SharedWord(l: Layout, m: seq<nat>, i: nat, j: nat)
    requires i < |m| && j < |m|
    ensures MoreThanOne(And(RealKeys(l, j, m[j], l.cols), RealKeys(l, i, m[i], l.cols))) <==>
          ShareTwoColumns(l, m, i, j)
  {
    var x, y := RealKeys(l, i, m[i], l.cols), RealKeys(l, j, m[j], l.cols);
    MoreThanOneIff(And(y, x));
    forall c: nat ensures Bit(And(y, x), c) <==> RealKeyDown(l, i, m[i], c) && RealKeyDown(l, j, m[j], c) {
      RealKeysBits(l, i, m[i], l.cols, c);
      RealKeysBits(l, j, m[j], l.cols, c);
      BitAnd(y, x, c);
    }
  }

  /** With fewer than two real keys down, a row cannot share two columns with another. */
  lemma FewKeysNoGhosts(l: Layout, m: seq<nat>, i: nat)
    requires i < |m|
    requires !MoreThanOne(RealKeys(l, i, m[i], l.cols))
    ensures !MayShowGhosts(l, m, i)
  {
    var x := RealKeys(l, i, m[i], l.cols);
    MoreThanOneIff(x);
    forall c: nat ensures Bit(x, c) <==> RealKeyDown(l, i, m[i], c) {
      RealKeysBits(l, i, m[i], l.cols, c);
    }
  }

  /** Ghosting goes both ways: the row that makes another one suspect is suspect itself. */
  lemma GhostsComeInPairs(l: Layout, m: seq<nat>, i: nat)
    requires i < |m| && MayShowGhosts(l, m, i)
    ensures exists j :: 0 <= j < |m| && j != i &&
                        ShareTwoColumns(l, m, i, j) && ShareTwoColumns(l, m, j, i) && MayShowGhosts(l, m, j)
  {
    var j :| 0 <= j < |m| && j != i && ShareTwoColumns(l, m, i, j);
    assert ShareTwoColumns(l, m, j, i);
  }

  // ---------------------------------------------------------------- the events of one scan

  function KeyEventAt(s: Scan, row: nat, col: nat, pressed: bool): Event {
    Event(Key(row, col), s.clock(row, col), KeyEvent, pressed)
  }

  /** The events of one row, for the columns below `col`. */
  function RowEvents(s: Scan, row: nat, previous: nat, current: nat, col: nat): seq<Event> {
    if col == 0 then []
    else
      var es := RowEvents(s, row, previous, current, col - 1);
      if Bit(current, col - 1) != Bit(previous, col - 1) then es + [KeyEventAt(s, row, col - 1, Bit(current, col - 1))]
      else es
  }

  /** The events of the rows below `row`. */
  ghost function ScanEvents(l: Layout, s: Scan, previous: seq<nat>, row: nat): seq<Event>
    requires row <= |previous| == |s.matrix|
  {
    if row == 0 then []
    else
      ScanEvents(l, s, previous, row - 1) +
      if MayShowGhosts(l, s.matrix, row - 1) then []
      else RowEvents(s, row - 1, previous[row - 1], s.matrix[row - 1], l.cols)
  }

  /** Rows that may show ghosts keep their old word, all others take the scanned one. */
  ghost function NextPrevious(l: Layout, s: Scan, previous: seq<nat>): (p: seq<nat>)
    requires |previous| == |s.matrix|
    ensures |p| == |previous|
  {
    seq(|previous|, r requires 0 <= r < |previous| =>
      if MayShowGhosts(l, s.matrix, r) then previous[r] else s.matrix[r])
  }

  lemma {:induction false} UnchangedRow(s: Scan, row: nat, x: nat, col: nat)
    ensures RowEvents(s, row, x, x, col) == []
  {
    if col > 0 {
      UnchangedRow(s, row, x, col - 1);
    }
  }

  /** Nothing changed: no events, and the rows stay as they are. */
  lemma {:induction false} UnchangedMatrix(l: Layout, s: Scan, previous: seq<nat>, row: nat)
    requires row <= |previous| == |s.matrix| && previous == s.matrix
    ensures ScanEvents(l, s, previous, row) == []
    ensures NextPrevious(l, s, previous) == previous
  {
    if row > 0 {
      UnchangedMatrix(l, s, previous, row - 1);
      UnchangedRow(s, row - 1, previous[row - 1], l.cols);
    }
  }

  // ---------------------------------------------------------------- scanning

  class Scanner {
    const layout: Layout
    const matrixPrevious: array<nat>

    ghost predicate Valid() {
      matrixPrevious.Length == layout.rows
    }

    constructor (layout: Layout)
      ensures Valid() && this.layout == layout && fresh(matrixPrevious)
      ensures matrixPrevious[..] == seq(layout.rows, _ => 0)
    {
      this.layout := layout;
      matrixPrevious := new nat[layout.rows](_ => 0);
    }

    method GetRealKeys(row: nat, data: nat) returns (out: nat)
      ensures out == RealKeys(layout, row, data, layout.cols)
    {
      out := 0;
      for col := 0 to layout.cols
        invariant out == RealKeys(layout, row, data, col)
      {
        if layout.isReal(row, col) && And(data, Pow2(col)) != 0 {
          out := Or(out, Pow2(col));
        }
      }
    }

    method HasGhostInRow(m: seq<nat>, row: nat) returns (ghosted: bool)
      requires |m| == layout.rows && row < |m|
      ensures ghosted <==> MayShowGhosts(layout, m, row)
    {
      var data := GetRealKeys(row, m[row]);
      if !MoreThanOne(data) {
        FewKeysNoGhosts(layout, m, row);
        return false;
      }
      for i := 0 to layout.rows
        invariant forall j :: 0 <= j < i && j != row ==> !ShareTwoColumns(layout, m, row, j)
      {
        var other := GetRealKeys(i, m[i]);
        SharedWord(layout, m, row, i);
        if i != row && MoreThanOne(And(other, data)) {
          return true;
        }
      }
      return false;
    }

    method RowTask(s: Scan, row: nat, previous: nat, current: nat) returns (events: seq<Event>)
      ensures events == RowEvents(s, row, previous, current, layout.cols)
    {
      events := [];
      var changes := Xor(current, previous);
      var colMask := 1;
      for col := 0 to layout.cols
        invariant colMask == Pow2(col)
        invariant events == RowEvents(s, row, previous, current, col)
      {
        MaskTest(changes, col);
        BitXor(current, previous, col);
        if And(changes, colMask) != 0 {
          MaskTest(current, col);
          events := events + [KeyEventAt(s, row, col, And(current, colMask) != 0)];
        }
        colMask := 2 * colMask;
      }
    }

    /** `matrix_task` on a readable matrix; `events` are its `action_exec` calls, in order. */
    method MatrixTask(s: Scan) returns (changed: bool, events: seq<Event>)
      requires Valid() && |s.matrix| == layout.rows
      modifies matrixPrevious
      ensures changed <==> old(matrixPrevious[..]) != s.matrix
      ensures events == ScanEvents(layout, s, old(matrixPrevious[..]), layout.rows)
      ensures matrixPrevious[..] == NextPrevious(layout, s, old(matrixPrevious[..]))
    {
      changed, events := false, [];
      ghost var previous := matrixPrevious[..];
      var row := 0;
      while row < layout.rows && !changed
        invariant row <= layout.rows && matrixPrevious[..] == previous
        invariant !changed ==> forall r :: 0 <= r < row ==> previous[r] == s.matrix[r]
        invariant changed ==> previous != s.matrix
      {
        XorZero(matrixPrevious[row], s.matrix[row]);
        changed := Xor(matrixPrevious[row], s.matrix[row]) != 0;
        assert changed ==> previous[row] != s.matrix[row];
        row := row + 1;
      }
      if !changed {
        assert previous == s.matrix;
        UnchangedMatrix(layout, s, previous, layout.rows);
        return;
      }
      events := ProcessRows(s);
    }

    /** One row: its events, and its word brought up to date unless it may show ghosts. */
    method ProcessRow(s: Scan, row: nat, ghost previous: seq<nat>) returns (es: seq<Event>)
      requires Valid() && |s.matrix| == layout.rows == |previous| &&
        row < layout.rows && matrixPrevious[row] == previous[row]
      modifies matrixPrevious
      ensures es == ScannedRow(layout, s, previous, row)
      ensures matrixPrevious[row] == NextPrevious(layout, s, previous)[row]
      ensures forall r :: 0 <= r < layout.rows && r != row ==> matrixPrevious[r] == old(matrixPrevious[r])
    {
      var current := s.matrix[row];
      XorZero(current, matrixPrevious[row]);
      UnchangedRow(s, row, current, layout.cols);
      var ghosted := HasGhostInRow(s.matrix, row);
      es := [];
      if Xor(current, matrixPrevious[row]) != 0 && !ghosted {
        es := RowTask(s, row, matrixPrevious[row], current);
        matrixPrevious[row] := current;
      }
    }

    method ProcessRows(s: Scan) returns (events: seq<Event>)
      requires Valid() && |s.matrix| == layout.rows
      modifies matrixPrevious
      ensures events == ScanEvents(layout, s, old(matrixPrevious[..]), layout.rows)
      ensures matrixPrevious[..] == NextPrevious(layout, s, old(matrixPrevious[..]))
    {
      events := [];
      ghost var previous := matrixPrevious[..];
      for row := 0 to layout.rows
        invariant events == ScanEvents(layout, s, previous, row)
        invariant forall r :: 0 <= r < layout.rows ==>
          matrixPrevious[r] == if r < row then NextPrevious(layout, s, previous)[r] else previous[r]
      {
        var es := ProcessRow(s, row, previous);
        events := events + es;
      }
    }
  }

  lemma XorZero(x: nat, y: nat)
    ensures Xor(x, y) == 0 <==> x == y
  {
    if Xor(x, y) == 0 {
      forall i: nat ensures Bit(x, i) == Bit(y, i) {
        BitXor(x, y, i);
        BitZero(i);
      }
      SameBits(x, y);
    }
    if x == y && Xor(x, y) != 0 {
      LowestIsSet(Xor(x, y));
      BitXor(x, y, Lowest(Xor(x, y)));
    }
  }

  // ---------------------------------------------------------------- the stream of many scans

  /** `matrix_previous` after the scans, and all the events they caused; at first no key is down. */
  ghost function PreviousAfter(l: Layout, scans: seq<Scan>): (p: seq<nat>)
    requires forall i :: 0 <= i < |scans| ==> |scans[i].matrix| == l.rows
    ensures |p| == l.rows
  {
    if scans == [] then seq(l.rows, _ => 0)
    else NextPrevious(l, scans[|scans| - 1], PreviousAfter(l, scans[..|scans| - 1]))
  }

  ghost function Stream(l: Layout, scans: seq<Scan>): seq<Event>
    requires forall i :: 0 <= i < |scans| ==> |scans[i].matrix| == l.rows
  {
    if scans == [] then []
    else Stream(l, scans[..|scans| - 1]) +
         ScanEvents(l, scans[|scans| - 1], PreviousAfter(l, scans[..|scans| - 1]), l.rows)
  }

  ghost predicate KeyDown(l: Layout, previous: seq<nat>, k: Key)
    requires |previous| == l.rows
  {
    k.row < l.rows && k.col < l.cols && Bit(previous[k.row], k.col)
  }

  /** A key's events begin with a press, take turns, and end the way the key now is. */
  ghost predicate TellsState(es: seq<Event>, down: bool) {
    && Alternates(es)
    && (es == [] ==> !down)
    && (es != [] ==> es[0].pressed && es[|es| - 1].pressed == down)
  }

  lemma {:induction false} RowProjects(s: Scan, row: nat, previous: nat, current: nat, col: nat, k: Key)
    ensures Project(k, RowEvents(s, row, previous, current, col)) ==
            if k.row == row && k.col < col && Bit(current, k.col) != Bit(previous, k.col)
            then [KeyEventAt(s, row, k.col, Bit(current, k.col))] else []
  {
    if col > 0 {
      RowProjects(s, row, previous, current, col - 1, k);
      var e := KeyEventAt(s, row, col - 1, Bit(current, col - 1));
      ProjectAppend(k, RowEvents(s, row, previous, current, col - 1), e);
    }
  }

  /** The events of one row: none if it may show ghosts. */
  ghost function ScannedRow(l: Layout, s: Scan, previous: seq<nat>, row: nat): seq<Event>
    requires row < |previous| == |s.matrix|
  {
    if MayShowGhosts(l, s.matrix, row) then [] else RowEvents(s, row, previous[row], s.matrix[row], l.cols)
  }

  /** The one event, if any, that a scan causes for a key whose row it has reached. */
  ghost function KeyChange(l: Layout, s: Scan, previous: seq<nat>, k: Key): seq<Event>
    requires |previous| == |s.matrix| == l.rows
  {
    var now := KeyDown(l, NextPrevious(l, s, previous), k);
    if now != KeyDown(l, previous, k) then [KeyEventAt(s, k.row, k.col, now)] else []
  }

  lemma ScannedRowProjects(l: Layout, s: Scan, previous: seq<nat>, row: nat, k: Key)
    requires row < |previous| == |s.matrix| == l.rows
    ensures Project(k, ScannedRow(l, s, previous, row)) == if k.row == row then KeyChange(l, s, previous, k) else []
  {
    RowProjects(s, row, previous[row], s.matrix[row], l.cols, k);
  }

  /** With what each row tells of a key given, what the rows above `row` tell of it together. */
  lemma {:induction false} ScanProjects(
      l: Layout, s: Scan, previous: seq<nat>, row: nat, k: Key, change: seq<Event>)
    requires row <= |previous| == |s.matrix| == l.rows
    requires forall r: nat :: r < l.rows ==>
      Project(k, ScannedRow(l, s, previous, r)) == if k.row == r then change else []
    ensures Project(k, ScanEvents(l, s, previous, row)) == if k.row < row then change else []
  {
    if row > 0 {
      ScanProjects(l, s, previous, row - 1, k, change);
      NextRowProjects(l, s, previous, row, k);
    }
  }

  lemma NextRowProjects(l: Layout, s: Scan, previous: seq<nat>, row: nat, k: Key)
    requires 0 < row <= |previous| == |s.matrix| == l.rows
    ensures Project(k, ScanEvents(l, s, previous, row)) ==
            Project(k, ScanEvents(l, s, previous, row - 1)) + Project(k, ScannedRow(l, s, previous, row - 1))
  {
    ProjectConcat(k, ScanEvents(l, s, previous, row - 1), ScannedRow(l, s, previous, row - 1));
  }

  lemma ChangeTellsState(l: Layout, s: Scan, previous: seq<nat>, k: Key, es: seq<Event>)
    requires |previous| == |s.matrix| == l.rows && TellsState(es, KeyDown(l, previous, k))
    ensures TellsState(es + (if k.row < l.rows then KeyChange(l, s, previous, k) else []),
                       KeyDown(l, NextPrevious(l, s, previous), k))
  {
    assert k.row >= l.rows ==> es + [] == es;
  }

  /** Over any scans, each key's events take turns, start with a press and replay to `matrix_previous`. */
  lemma {:induction false} StreamTellsState(l: Layout, scans: seq<Scan>, k: Key)
    requires forall i :: 0 <= i < |scans| ==> |scans[i].matrix| == l.rows
    ensures TellsState(Project(k, Stream(l, scans)), KeyDown(l, PreviousAfter(l, scans), k))
  {
    if scans == [] {
      BitZero(k.col);
    } else {
      var scans', s := scans[..|scans| - 1], scans[|scans| - 1];
      var previous := PreviousAfter(l, scans');
      StreamTellsState(l, scans', k);
      forall r: nat | r < l.rows
        ensures Project(k, ScannedRow(l, s, previous, r)) ==
                if k.row == r then KeyChange(l, s, previous, k) else []
      {
        ScannedRowProjects(l, s, previous, r, k);
      }
      ScanProjects(l, s, previous, l.rows, k, KeyChange(l, s, previous, k));
      ProjectConcat(k, Stream(l, scans'), ScanEvents(l, s, previous, l.rows));
      ChangeTellsState(l, s, previous, k, Project(k, Stream(l, scans')));
    }
  }

  /** A row is known as it was in the latest scan in which it could not show ghosts, whatever came since. */
  lemma {:induction false} RowShowsLatestSoundScan(l: Layout, scans: seq<Scan>, row: nat, i: nat)
    requires forall j :: 0 <= j < |scans| ==> |scans[j].matrix| == l.rows
    requires row < l.rows && i < |scans| && !MayShowGhosts(l, scans[i].matrix, row)
    requires forall j :: i < j < |scans| ==> MayShowGhosts(l, scans[j].matrix, row)
    ensures PreviousAfter(l, scans)[row] == scans[i].matrix[row]
    ensures forall col: nat :: col < l.cols ==>
      (KeyDown(l, PreviousAfter(l, scans), Key(row, col)) <==> Bit(scans[i].matrix[row], col))
  {
    var m := |scans| - 1;
    if i < m {
      RowShowsLatestSoundScan(l, scans[..m], row, i);
    }
  }

  // ---------------------------------------------------------------- one scan, event by event

  /** The position of `a` is read before that of `b`: row by row, and in a row column by column. */
  predicate ReadBefore(a: Key, b: Key) {
    a.row < b.row || (a.row == b.row && a.col < b.col)
  }

  /** A change of a key, with the time at which its position was handled. */
  predicate TellsOf(s: Scan, e: Event) {
    e.kind == KeyEvent && e.time == s.clock(e.key.row, e.key.col) &&
    e.key.row < |s.matrix| && e.pressed == Bit(s.matrix[e.key.row], e.key.col)
  }

  ghost predicate InReadingOrder(es: seq<Event>) {
    forall i, j :: 0 <= i < j < |es| ==> ReadBefore(es[i].key, es[j].key)
  }

  lemma {:induction false} RowInOrder(s: Scan, row: nat, previous: nat, col: nat)
    requires row < |s.matrix|
    ensures var es := RowEvents(s, row, previous, s.matrix[row], col);
      && InReadingOrder(es)
      && forall i :: 0 <= i < |es| ==> es[i].key.row == row && es[i].key.col < col && TellsOf(s, es[i])
  {
    if col > 0 {
      RowInOrder(s, row, previous, col - 1);
    }
  }

  /** The events of a scan come in the order of reading, and each tells what was read, and when. */
  lemma {:induction false} ScanInOrder(l: Layout, s: Scan, previous: seq<nat>, row: nat)
    requires row <= |previous| == |s.matrix|
    ensures var es := ScanEvents(l, s, previous, row);
      && InReadingOrder(es)
      && forall i :: 0 <= i < |es| ==> es[i].key.row < row && TellsOf(s, es[i])
  {
    if row > 0 {
      ScanInOrder(l, s, previous, row - 1);
      RowInOrder(s, row - 1, previous[row - 1], l.cols);
    }
  }
}
