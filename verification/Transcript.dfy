/** The screen as a window on an unbounded transcript. */
module Transcript {
  import opened Bytes
  import opened Console

  /** The text `s` laid out on paper of unbounded length: a break ends a row, and so does an 80th
      character. The last row is the one being written. */
  function Rows(s: seq<Byte>): (rows: seq<seq<Byte>>)
    ensures 1 <= |rows|
    ensures forall i :: 0 <= i < |rows| ==> |rows[i]| <= NUM_COLS
    ensures |rows[|rows| - 1]| < NUM_COLS
  {
    if s == [] then [[]] else Append(Rows(s[..|s| - 1]), s[|s| - 1])
  }

  function Append(rows: seq<seq<Byte>>, ch: Byte): seq<seq<Byte>>
    requires rows != []
  {
    var n := |rows| - 1;
    if IsBreak(ch) then rows + [[]]
    else if |rows[n]| + 1 == NUM_COLS then rows[..n] + [rows[n] + [ch], []]
    else rows[..n] + [rows[n] + [ch]]
  }

  /** A line feed and a carriage return start a new row, and nothing else does but a full row. */
  lemma RowsBreakIff(s: seq<Byte>, ch: Byte)
    ensures var (was, now) := (Rows(s), Rows(s + [ch]));
      && (|now| > |was| <==> ch == 0x0A || ch == 0x0D || |was[|was| - 1]| == 79)
      && (now == was + [[]] <==> ch == 0x0A || ch == 0x0D)
  {
    assert (s + [ch])[..|s + [ch]| - 1] == s;
    var was := Rows(s);
    assert !IsBreak(ch) ==> Append(was, ch)[|was| - 1] == was[|was| - 1] + [ch];
  }

  /** The number of rows that have left the top of the screen. */
  function Top(rows: seq<seq<Byte>>): (top: nat) {
    if |rows| <= NUM_ROWS then 0 else |rows| - NUM_ROWS
  }

  /** What a 25 x 80 window on the end of the transcript shows at row i, column j. A cell nobody
      wrote holds a space if its row was on the cleared screen, and NUL if the row was scrolled in. */
  function Window(rows: seq<seq<Byte>>, i: int, j: int): Byte
    requires 0 <= i && 0 <= j
  {
    var r := Top(rows) + i;
    if r < |rows| && j < |rows[r]| then rows[r][j]
    else if r < NUM_ROWS then SPACE
    else NUL
  }

  ghost predicate Shows(c: Console, rows: seq<seq<Byte>>)
    requires rows != []
  {
    && c.OnGrid()
    && c.info.screenY == |rows| - 1 - Top(rows)
    && c.info.screenX == |rows[|rows| - 1]|
    && forall k :: 0 <= k < CELLS ==>
         CharAt(c, k) == Window(rows, k / NUM_COLS, k % NUM_COLS) && AttrAt(c, k) == c.info.attribute
  }

  lemma ClearShows(c: Console)
    requires |c.page| == PAGE_BYTES
    ensures Shows(Clear(c), Rows([]))
  {
    var d := Clear(c);
    forall k | 0 <= k < CELLS
      ensures CharAt(d, k) == SPACE && AttrAt(d, k) == c.info.attribute
    {
      assert (2 * k) % 2 == 0 && (2 * k + 1) % 2 == 1;
    }
  }

  /** The cell where `ch` lands shows it, every other cell is as before. */
  function Written(rows: seq<seq<Byte>>, ch: Byte, i: int, j: int): Byte
    requires rows != [] && 0 <= i && 0 <= j
  {
    var n := |rows| - 1;
    if !IsBreak(ch) && Top(rows) + i == n && j == |rows[n]| then ch else Window(rows, i, j)
  }

  lemma WindowAppend(rows: seq<seq<Byte>>, ch: Byte, i: int, j: int)
    requires rows != [] && 0 <= i < NUM_ROWS && 0 <= j < NUM_COLS
    ensures var next := Append(rows, ch);
      Window(next, i, j) ==
        if Top(next) == Top(rows) then Written(rows, ch, i, j)
        else if i < NUM_ROWS - 1 then Written(rows, ch, i + 1, j)
        else NUL
  {
    var next := Append(rows, ch);
    var n := |rows| - 1;
    assert forall r :: 0 <= r < n ==> next[r] == rows[r];
    assert next[n] == if IsBreak(ch) then rows[n] else rows[n] + [ch];
    assert n + 1 < |next| ==> next[n + 1] == [];
  }

  lemma AdvanceCell(c: Console, rows: seq<seq<Byte>>, ch: Byte, i: int, j: int)
    requires rows != []
    requires Shows(c, rows)
    requires 0 <= i < NUM_ROWS && 0 <= j < NUM_COLS
    ensures |Advance(c, ch).page| == PAGE_BYTES
    ensures CharAt(Advance(c, ch), NUM_COLS * i + j) == Written(rows, ch, i, j)
    ensures AttrAt(Advance(c, ch), NUM_COLS * i + j) == c.info.attribute
  {
    var k := NUM_COLS * i + j;
    assert k / NUM_COLS == i && k % NUM_COLS == j;
    PutCells(c, ch, k);
  }

  /** One more character keeps the screen a window on the transcript, through the wrap at column 80
      and the scroll at the bottom row. */
  lemma PutShows(c: Console, rows: seq<seq<Byte>>, ch: Byte)
    requires rows != []
    requires |rows[|rows| - 1]| < NUM_COLS
    requires Shows(c, rows)
    ensures Shows(Put(c, ch), Append(rows, ch))
  {
    var next := Append(rows, ch);
    var scrolls := Advance(c, ch).info.screenY >= NUM_ROWS;
    assert scrolls <==> Top(next) == Top(rows) + 1;
    assert !scrolls <==> Top(next) == Top(rows);
    forall k | 0 <= k < CELLS
      ensures CharAt(Put(c, ch), k) == Window(next, k / NUM_COLS, k % NUM_COLS)
      ensures AttrAt(Put(c, ch), k) == c.info.attribute
    {
      var i, j := k / NUM_COLS, k % NUM_COLS;
      PutCells(c, ch, k);
      WindowAppend(rows, ch, i, j);
      AdvanceCell(c, rows, ch, i, j);
      if i < NUM_ROWS - 1 {
        AdvanceCell(c, rows, ch, i + 1, j);
        assert NUM_COLS * (i + 1) + j == k + NUM_COLS;
      }
    }
  }

  /** Whatever is printed next, the screen stays a window on the transcript. */
  lemma {:induction false} PrintingShows(c: Console, text: seq<Byte>, s: seq<Byte>)
    requires Shows(c, Rows(text))
    ensures Shows(PutAll(c, s), Rows(text + s))
  {
    if s == [] {
      assert text + s == text;
    } else {
      var front := s[..|s| - 1];
      PrintingShows(c, text, front);
      PutShows(PutAll(c, front), Rows(text + front), s[|s| - 1]);
      assert (text + s)[..|text + s| - 1] == text + front;
    }
  }

  /** After `clear`, for every byte string fed to `putc`, the 25 x 80 cells are the last 25 rows of
      the laid-out text and the cursor stands at its end. */
  lemma ScreenIsWindow(c: Console, s: seq<Byte>)
    requires |c.page| == PAGE_BYTES
    ensures Shows(PutAll(Clear(c), s), Rows(s))
  {
    ClearShows(c);
    PrintingShows(Clear(c), [], s);
    assert [] + s == s;
  }
}
