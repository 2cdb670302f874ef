/** One terminal together with the 4 KB video page that holds its text: what `putc`, `clear` and
    `erase_char` do to it, with no other terminal in sight. */
module Console {
  import opened Bytes

  const NUM_COLS := 80
  const NUM_ROWS := 25
  const CELLS := 2000
  const PAGE_BYTES := 4096
  const MAX_BUF_SIZE := 128

  /** `terminal_info_t`, without the process fields (those are in module Processes). */
  datatype TerminalInfo = TerminalInfo(
    started: bool,
    screenX: int,
    screenY: int,
    buffer: seq<Byte>,
    bufferSize: int,
    waitingInRead: bool,
    enterFlag: bool,
    attribute: Byte)

  datatype Console = Console(page: seq<Byte>, info: TerminalInfo) {

    /** The page has its size and the cursor is inside the 25 x 80 grid. */
    predicate OnGrid() {
      && |page| == PAGE_BYTES
      && 0 <= info.screenX < NUM_COLS
      && 0 <= info.screenY < NUM_ROWS
    }

    /** The cursor's linear position. */
    function Pos(): int {
      NUM_COLS * info.screenY + info.screenX
    }

    function MoveTo(x: int, y: int): Console {
      this.(info := info.(screenX := x, screenY := y))
    }
  }

  predicate IsBreak(ch: Byte) {
    ch == NEWLINE || ch == RETURN
  }

  /** The character in cell `k` (row k / 80, column k % 80), and its attribute byte. */
  function CharAt(c: Console, k: int): Byte
    requires |c.page| == PAGE_BYTES && 0 <= k < CELLS
  {
    c.page[2 * k]
  }

  function AttrAt(c: Console, k: int): Byte
    requires |c.page| == PAGE_BYTES && 0 <= k < CELLS
  {
    c.page[2 * k + 1]
  }

  function StoreCell(page: seq<Byte>, k: int, ch: Byte, attribute: Byte): seq<Byte>
    requires |page| == PAGE_BYTES && 0 <= k < CELLS
  {
    page[2 * k := ch][2 * k + 1 := attribute]
  }

  function BlankPage(page: seq<Byte>, attribute: Byte): seq<Byte>
    requires |page| == PAGE_BYTES
  {
    seq(PAGE_BYTES, i requires 0 <= i < PAGE_BYTES =>
      if 2 * CELLS <= i then page[i] else if i % 2 == 0 then SPACE else attribute)
  }

  function ScrolledPage(page: seq<Byte>, attribute: Byte): seq<Byte>
    requires |page| == PAGE_BYTES
  {
    seq(PAGE_BYTES, i requires 0 <= i < PAGE_BYTES =>
      if 2 * CELLS <= i then page[i]
      else if i % 2 == 1 then attribute
      else if i < 2 * (CELLS - NUM_COLS) then page[i + 2 * NUM_COLS]
      else NUL)
  }

  function Clear(c: Console): (r: Console)
    requires |c.page| == PAGE_BYTES
    ensures r.info == c.info.(screenX := 0, screenY := 0)
    ensures |r.page| == PAGE_BYTES && r.page[2 * CELLS..] == c.page[2 * CELLS..]
  {
    c.(page := BlankPage(c.page, c.info.attribute)).MoveTo(0, 0)
  }

  /** Where the cursor stands after `ch`, before scrolling is considered. */
  function Advance(c: Console, ch: Byte): Console
    requires c.OnGrid()
  {
    if IsBreak(ch) then c.MoveTo(0, c.info.screenY + 1)
    else
      var stored := c.(page := StoreCell(c.page, c.Pos(), ch, c.info.attribute));
      if c.info.screenX + 1 >= NUM_COLS then stored.MoveTo(0, c.info.screenY + 1)
      else stored.MoveTo(c.info.screenX + 1, c.info.screenY)
  }

  function Put(c: Console, ch: Byte): (r: Console)
    requires c.OnGrid()
    ensures r.OnGrid()
    ensures r.page[2 * CELLS..] == c.page[2 * CELLS..]
    ensures r.info == c.info.(screenX := r.info.screenX, screenY := r.info.screenY)
  {
    var moved := Advance(c, ch);
    if moved.info.screenY > NUM_ROWS - 1 then
      moved.(page := ScrolledPage(moved.page, c.info.attribute)).MoveTo(0, NUM_ROWS - 1)
    else moved
  }

  function PutAll(c: Console, s: seq<Byte>): (r: Console)
    requires c.OnGrid()
    ensures r.OnGrid()
    ensures r.info == c.info.(screenX := r.info.screenX, screenY := r.info.screenY)
  {
    if s == [] then c else Put(PutAll(c, s[..|s| - 1]), s[|s| - 1])
  }

  /** `erase_char`: step the cursor back one cell and zero the character there. */
  function Erase(c: Console): (r: Console)
    requires c.OnGrid() && 0 < c.Pos()
    ensures r.OnGrid()
    ensures r.Pos() == c.Pos() - 1
    ensures r.info == c.info.(screenX := r.info.screenX, screenY := r.info.screenY)
  {
    var back :=
      if c.info.screenX == 0 then c.MoveTo(NUM_COLS - 1, c.info.screenY - 1)
      else c.MoveTo(c.info.screenX - 1, c.info.screenY);
    back.(page := c.page[2 * back.Pos() := NUL])
  }

  /** `terminal_write` drops NUL bytes, prints the rest and returns how many it printed. */
  function NonNul(s: seq<Byte>): seq<Byte> {
    if s == [] then []
    else if s[|s| - 1] == NUL then NonNul(s[..|s| - 1])
    else NonNul(s[..|s| - 1]) + [s[|s| - 1]]
  }

  /** It filters a text part by part, so it keeps every other byte, in order. */
  lemma {:induction false} NonNulConcat(s: seq<Byte>, t: seq<Byte>)
    ensures NonNul(s + t) == NonNul(s) + NonNul(t)
  {
    if t == [] {
      assert s + t == s;
    } else {
      assert (s + t)[..|s + t| - 1] == s + t[..|t| - 1];
      NonNulConcat(s, t[..|t| - 1]);
    }
  }

  lemma {:induction false} NonNulKeeps(s: seq<Byte>)
    ensures NUL !in NonNul(s)
    ensures NUL !in s ==> NonNul(s) == s
    ensures multiset(NonNul(s)) == multiset(s)[NUL := 0]
  {
    if s != [] {
      var front, b := s[..|s| - 1], s[|s| - 1];
      NonNulKeeps(front);
      assert s == front + [b];
      assert multiset(s) == multiset(front) + multiset{b};
    }
  }

  lemma {:induction false} PutAllConcat(c: Console, s: seq<Byte>, t: seq<Byte>)
    requires c.OnGrid()
    ensures PutAll(c, s + t) == PutAll(PutAll(c, s), t)
  {
    if t == [] {
      assert s + t == s;
    } else {
      assert (s + t)[..|s + t| - 1] == s + t[..|t| - 1];
      PutAllConcat(c, s, t[..|t| - 1]);
    }
  }

  /** Cell by cell: a character that does not scroll changes its own cell only; one that scrolls
      moves every row up by one and leaves NULs in the last row. */
  lemma PutCells(c: Console, ch: Byte, k: int)
    requires c.OnGrid() && 0 <= k < CELLS
    ensures var m := Advance(c, ch);
      && |m.page| == PAGE_BYTES
      && CharAt(m, k) == (if !IsBreak(ch) && k == c.Pos() then ch else CharAt(c, k))
      && AttrAt(m, k) == (if !IsBreak(ch) && k == c.Pos() then c.info.attribute else AttrAt(c, k))
      && CharAt(Put(c, ch), k) ==
         (if m.info.screenY < NUM_ROWS then CharAt(m, k)
          else if k < CELLS - NUM_COLS then CharAt(m, k + NUM_COLS)
          else NUL)
      && AttrAt(Put(c, ch), k) == (if m.info.screenY < NUM_ROWS then AttrAt(m, k) else c.info.attribute)
  {
    var m := Advance(c, ch);
    if m.info.screenY >= NUM_ROWS {
      var p := Put(c, ch).page;
      assert p == ScrolledPage(m.page, c.info.attribute);
      assert (2 * k) % 2 == 0 && (2 * k + 1) % 2 == 1;
    }
  }
}
