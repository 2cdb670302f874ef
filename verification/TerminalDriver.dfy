/** The terminal driver as the kernel runs it: flat video memory, an array of terminals, and four
    globals, updated in place. Each method is proved against the functions of module Multiplex. */
module TerminalDriver {
  import opened Bytes
  import opened Limits
  import opened Console
  import LineDiscipline
  import M = Multiplex

  class Driver {
    /** The four 4 KB pages that start at address 0xB8000. */
    const videoMem: array<Byte>
    const terminalArray: array<TerminalInfo>
    var currTerminal: int
    var screenTerminal: int
    var displayOnMainPage: bool
    var terminalFlag: bool

    ghost predicate Laid()
      reads this, videoMem, terminalArray
    {
      && videoMem.Length == 4 * PAGE_BYTES
      && terminalArray.Length == MAX_TERMINALS
      && IsTerminal(currTerminal) && IsTerminal(screenTerminal)
    }

    ghost predicate Valid()
      reads this, videoMem, terminalArray
    {
      Laid() && M.Shape(View())
    }

    ghost function Page(i: int): seq<Byte>
      requires videoMem.Length == 4 * PAGE_BYTES && 0 <= i < 4
      reads videoMem
    {
      videoMem[PAGE_BYTES * i..PAGE_BYTES * (i + 1)]
    }

    ghost function View(): M.State
      requires Laid()
      reads this, videoMem, terminalArray
    {
      M.State([Page(0), Page(1), Page(2), Page(3)], terminalArray[..],
              currTerminal, screenTerminal, displayOnMainPage)
    }

    /** The console on the screen. */
    ghost function Shown(): Console
      requires Laid()
      reads this, videoMem, terminalArray
    {
      M.Project(View(), screenTerminal)
    }

    /** `init_terminal`, over video memory that holds anything. */
    constructor (memory: array<Byte>)
      requires memory.Length == 4 * PAGE_BYTES
      ensures Valid() && M.Booted(View())
      ensures videoMem == memory && fresh(terminalArray)
      ensures forall t :: IsTerminal(t) ==> terminalArray[t].attribute == [0x07, 0x70, 0x9F][t]
    {
      videoMem := memory;
      currTerminal := 0;
      screenTerminal := 0;
      displayOnMainPage := false;
      terminalFlag := false;
      terminalArray := new TerminalInfo[MAX_TERMINALS](i =>
        TerminalInfo(i == 0, 0, 0, seq(MAX_BUF_SIZE, _ => NUL), 0, false, false,
                     if i == 0 then 0x07 else if i == 1 then 0x70 else 0x9F));
    }

    /** Writes one character cell and its attribute byte in the page at `page`. */
    method StoreAt(page: int, k: int, ch: Byte, attribute: Byte)
      requires Laid() && 0 <= page < 4 && 0 <= k < CELLS
      modifies videoMem
      ensures Page(page) == StoreCell(old(Page(page)), k, ch, attribute)
      ensures forall i :: 0 <= i < 4 && i != page ==> Page(i) == old(Page(i))
    {
      videoMem[PAGE_BYTES * page + 2 * k] := ch;
      videoMem[PAGE_BYTES * page + 2 * k + 1] := attribute;
    }

    /** The page at `page` has its first n bytes as in `goal`; all else is as in `was`. */
    ghost predicate Filled(was: seq<Byte>, goal: seq<Byte>, page: int, n: int)
      requires videoMem.Length == |was| == 4 * PAGE_BYTES && |goal| == PAGE_BYTES && 0 <= page < 4
      reads videoMem
    {
      var base := PAGE_BYTES * page;
      forall m :: 0 <= m < videoMem.Length ==>
        videoMem[m] == if base <= m < base + n && n <= PAGE_BYTES then goal[m - base] else was[m]
    }

    lemma FilledPages(was: seq<Byte>, goal: seq<Byte>, page: int)
      requires videoMem.Length == |was| == 4 * PAGE_BYTES && |goal| == PAGE_BYTES && 0 <= page < 4
      requires Filled(was, goal, page, 2 * CELLS)
      requires goal[2 * CELLS..] == was[PAGE_BYTES * page + 2 * CELLS..PAGE_BYTES * (page + 1)]
      ensures Page(page) == goal
      ensures forall i :: 0 <= i < 4 && i != page ==> Page(i) == was[PAGE_BYTES * i..PAGE_BYTES * (i + 1)]
    {
      forall k | 0 <= k < PAGE_BYTES
        ensures Page(page)[k] == goal[k]
      {
        if 2 * CELLS <= k {
          assert goal[k] == goal[2 * CELLS..][k - 2 * CELLS];
        }
      }
    }

    /** The fill loop of `clear`. */
    method BlankAll(page: int, attribute: Byte)
      requires Laid() && 0 <= page < 4
      modifies videoMem
      ensures Page(page) == BlankPage(old(Page(page)), attribute)
      ensures forall i :: 0 <= i < 4 && i != page ==> Page(i) == old(Page(i))
    {
      ghost var was := videoMem[..];
      ghost var goal := BlankPage(Page(page), attribute);
      for i := 0 to NUM_ROWS * NUM_COLS
        invariant Filled(was, goal, page, 2 * i)
      {
        assert (2 * i) % 2 == 0 && (2 * i + 1) % 2 == 1;
        videoMem[PAGE_BYTES * page + 2 * i] := SPACE;
        videoMem[PAGE_BYTES * page + 2 * i + 1] := attribute;
      }
      FilledPages(was, goal, page);
    }

    /** `goal` gives row i the characters of the row below it. */
    ghost predicate RowScrolls(was: seq<Byte>, goal: seq<Byte>, page: int, attribute: Byte, i: int)
      requires |was| == 4 * PAGE_BYTES && |goal| == PAGE_BYTES && 0 <= page < 4 && 0 <= i < NUM_ROWS - 1
    {
      forall k :: NUM_COLS * i <= k < NUM_COLS * (i + 1) ==>
        && goal[2 * k] == was[PAGE_BYTES * page + 2 * (k + NUM_COLS)]
        && goal[2 * k + 1] == attribute
    }

    ghost predicate BottomEmpties(goal: seq<Byte>, attribute: Byte)
      requires |goal| == PAGE_BYTES
    {
      forall m :: 2 * (CELLS - NUM_COLS) <= m < 2 * CELLS ==> goal[m] == if m % 2 == 0 then NUL else attribute
    }

    lemma RowsScroll(was: seq<Byte>, page: int, attribute: Byte)
      requires |was| == 4 * PAGE_BYTES && 0 <= page < 4
      ensures var goal := ScrolledPage(was[PAGE_BYTES * page..PAGE_BYTES * (page + 1)], attribute);
        && (forall i :: 0 <= i < NUM_ROWS - 1 ==> RowScrolls(was, goal, page, attribute, i))
        && BottomEmpties(goal, attribute)
    {
      var from := was[PAGE_BYTES * page..PAGE_BYTES * (page + 1)];
      var goal := ScrolledPage(from, attribute);
      forall i, k | 0 <= i < NUM_ROWS - 1 && NUM_COLS * i <= k < NUM_COLS * (i + 1)
        ensures goal[2 * k] == was[PAGE_BYTES * page + 2 * (k + NUM_COLS)]
        ensures goal[2 * k + 1] == attribute
      {
        assert (2 * k) % 2 == 0 && (2 * k + 1) % 2 == 1;
        assert from[2 * k + 2 * NUM_COLS] == was[PAGE_BYTES * page + 2 * (k + NUM_COLS)];
      }
    }

    /** One pass of the outer scroll loop of `putc`: row i takes the row below it. */
    method ScrollRow(ghost was: seq<Byte>, ghost goal: seq<Byte>, page: int, attribute: Byte, i: int)
      requires Laid() && |was| == 4 * PAGE_BYTES && |goal| == PAGE_BYTES
      requires 0 <= page < 4 && 0 <= i < NUM_ROWS - 1
      requires RowScrolls(was, goal, page, attribute, i)
      requires Filled(was, goal, page, 2 * NUM_COLS * i)
      modifies videoMem
      ensures Filled(was, goal, page, 2 * NUM_COLS * (i + 1))
    {
      for j := 0 to NUM_COLS
        invariant Filled(was, goal, page, 2 * (NUM_COLS * i + j))
      {
        var k := NUM_COLS * i + j;
        var character := videoMem[PAGE_BYTES * page + 2 * (k + NUM_COLS)];
        videoMem[PAGE_BYTES * page + 2 * k] := character;
        videoMem[PAGE_BYTES * page + 2 * k + 1] := attribute;
      }
    }

    /** The separate loop for the bottom row, which has no row below it. */
    method EmptyBottomRow(ghost was: seq<Byte>, ghost goal: seq<Byte>, page: int, attribute: Byte)
      requires Laid() && |was| == 4 * PAGE_BYTES && |goal| == PAGE_BYTES && 0 <= page < 4
      requires BottomEmpties(goal, attribute)
      requires Filled(was, goal, page, 2 * NUM_COLS * (NUM_ROWS - 1))
      modifies videoMem
      ensures Filled(was, goal, page, 2 * CELLS)
    {
      var i := NUM_ROWS - 1;
      for j := 0 to NUM_COLS
        invariant Filled(was, goal, page, 2 * (NUM_COLS * i + j))
      {
        var k := NUM_COLS * i + j;
        assert (2 * k) % 2 == 0 && (2 * k + 1) % 2 == 1;
        videoMem[PAGE_BYTES * page + 2 * k] := NUL;
        videoMem[PAGE_BYTES * page + 2 * k + 1] := attribute;
      }
    }

    /** The scroll loops of `putc`: each row takes the one below it, the last row gets NULs. */
    method ScrollUp(page: int, attribute: Byte)
      requires Laid() && 0 <= page < 4
      modifies videoMem
      ensures Page(page) == ScrolledPage(old(Page(page)), attribute)
      ensures forall i :: 0 <= i < 4 && i != page ==> Page(i) == old(Page(i))
    {
      ghost var was := videoMem[..];
      ghost var goal := ScrolledPage(Page(page), attribute);
      RowsScroll(was, page, attribute);
      for i := 0 to NUM_ROWS - 1
        invariant Filled(was, goal, page, 2 * NUM_COLS * i)
      {
        ScrollRow(was, goal, page, attribute, i);
      }
      EmptyBottomRow(was, goal, page, attribute);
      FilledPages(was, goal, page);
    }

    method CheckSize()
      requires Laid()
      modifies terminalArray
      ensures var t := if terminalFlag then currTerminal else screenTerminal;
        var info := old(terminalArray[t]);
        terminalArray[..] == old(terminalArray[..])[t :=
          if info.screenX >= NUM_COLS then info.(screenX := 0, screenY := info.screenY + 1) else info]
    {
      var t := screenTerminal;
      if terminalFlag {
        t := currTerminal;
      }
      var info := terminalArray[t];
      if info.screenX >= NUM_COLS {
        terminalArray[t] := info.(screenX := 0, screenY := info.screenY + 1);
      }
    }

    ghost function ConsoleAt(page: int, t: int): Console
      requires Laid() && 0 <= page < 4 && IsTerminal(t)
      reads this, videoMem, terminalArray
    {
      Console(Page(page), terminalArray[t])
    }

    /** The first half of `putc`: write the character or break the line, and wrap at column 80. */
    method WriteAndAdvance(page: int, t: int, c: Byte)
      requires Laid() && 0 <= page < 4 && IsTerminal(t) && ConsoleAt(page, t).OnGrid()
      requires t == if terminalFlag then currTerminal else screenTerminal
      modifies videoMem, terminalArray
      ensures ConsoleAt(page, t) == Advance(old(ConsoleAt(page, t)), c)
      ensures forall i :: 0 <= i < 4 && i != page ==> Page(i) == old(Page(i))
      ensures terminalArray[..] == old(terminalArray[..])[t := terminalArray[t]]
    {
      var info := terminalArray[t];
      if IsBreak(c) {
        terminalArray[t] := info.(screenX := 0, screenY := info.screenY + 1);
      } else {
        StoreAt(page, NUM_COLS * info.screenY + info.screenX, c, info.attribute);
        terminalArray[t] := info.(screenX := info.screenX + 1);
        CheckSize();
      }
    }

    /** All of `putc` once it has chosen its page and terminal. */
    method PutOn(page: int, t: int, c: Byte)
      requires Laid() && 0 <= page < 4 && IsTerminal(t) && ConsoleAt(page, t).OnGrid()
      requires t == if terminalFlag then currTerminal else screenTerminal
      modifies videoMem, terminalArray
      ensures ConsoleAt(page, t) == Put(old(ConsoleAt(page, t)), c)
      ensures forall i :: 0 <= i < 4 && i != page ==> Page(i) == old(Page(i))
      ensures terminalArray[..] == old(terminalArray[..])[t := terminalArray[t]]
    {
      WriteAndAdvance(page, t, c);
      if terminalArray[t].screenY > NUM_ROWS - 1 {
        ScrollUp(page, terminalArray[t].attribute);
        terminalArray[t] := terminalArray[t].(screenX := 0, screenY := NUM_ROWS - 1);
      }
    }

    method Putc(c: Byte)
      requires Valid()
      modifies this, videoMem, terminalArray
      ensures Valid() && View() == M.Putc(old(View()), c)
    {
      ghost var s := View();
      var page, t := 0, screenTerminal;
      if currTerminal != screenTerminal && !displayOnMainPage {
        page, t := currTerminal + 1, currTerminal;
        terminalFlag := true;
      } else {
        displayOnMainPage := false;
        terminalFlag := false;
      }
      ghost var console := M.Project(s, t);
      assert LineDiscipline.HasBuffer(console) && ConsoleAt(page, t) == console;
      PutOn(page, t, c);
      OneConsoleChanged(s, View(), t, Put(console, c));
    }

    /** A driver state that differs from `s` in one page and one terminal only. */
    lemma OneConsoleChanged(s: M.State, r: M.State, t: int, c: Console)
      requires M.Shape(s) && IsTerminal(t) && LineDiscipline.HasBuffer(c)
      requires |r.pages| == MAX_TERMINALS + 1 && r.pages[M.PageIndex(s, t)] == c.page
      requires forall i :: 0 <= i <= MAX_TERMINALS && i != M.PageIndex(s, t) ==> r.pages[i] == s.pages[i]
      requires r.info == s.info[t := c.info] && r.curr == s.curr && r.screen == s.screen
      ensures M.Shape(r)
      ensures r == M.SetConsole(s, t, c).(displayOnMainPage := r.displayOnMainPage)
    {
      var q := M.SetConsole(s, t, c);
      assert r.pages == q.pages;
      assert forall u :: IsTerminal(u) ==> M.Project(r, u) == M.Project(q, u);
    }

    method ClearScreen()
      requires Valid()
      modifies this, videoMem, terminalArray
      ensures Valid() && View() == M.ClearScreen(old(View()))
    {
      ghost var s := View();
      var page, t := 0, screenTerminal;
      if currTerminal != screenTerminal && !displayOnMainPage {
        page, t := currTerminal + 1, currTerminal;
        terminalFlag := true;
      } else {
        displayOnMainPage := false;
        terminalFlag := false;
      }
      ghost var console := M.Project(s, t);
      assert LineDiscipline.HasBuffer(console) && ConsoleAt(page, t) == console;
      terminalArray[t] := terminalArray[t].(screenX := 0, screenY := 0);
      BlankAll(page, terminalArray[t].attribute);
      OneConsoleChanged(s, View(), t, Clear(console));
    }

    /** Only the keyboard erases, so the cell is always on the displayed page. */
    method EraseChar()
      requires Valid() && 0 < Shown().Pos()
      modifies this, videoMem, terminalArray
      ensures Valid()
      ensures View() == M.SetConsole(old(View()), old(screenTerminal), Erase(old(Shown())))
      ensures displayOnMainPage == old(displayOnMainPage)
    {
      ghost var s := View();
      ghost var console := M.Project(s, screenTerminal);
      assert LineDiscipline.HasBuffer(console) && ConsoleAt(0, screenTerminal) == console;
      terminalFlag := false;
      var info := terminalArray[screenTerminal];
      info := info.(screenX := info.screenX - 1);
      if info.screenX < 0 {
        info := info.(screenX := NUM_COLS - 1, screenY := info.screenY - 1);
      }
      terminalArray[screenTerminal] := info;
      videoMem[2 * (NUM_COLS * info.screenY + info.screenX)] := NUL;
      assert Page(0) == Erase(console).page;
      OneConsoleChanged(s, View(), screenTerminal, Erase(console));
    }

    method Memcpy(dst: int, src: int, n: int)
      requires 0 <= n && 0 <= dst && dst + n <= videoMem.Length && 0 <= src && src + n <= videoMem.Length
      requires dst + n <= src || src + n <= dst
      modifies videoMem
      ensures forall k :: 0 <= k < videoMem.Length ==>
        videoMem[k] == if dst <= k < dst + n then old(videoMem[src + k - dst]) else old(videoMem[k])
    {
      for i := 0 to n
        invariant forall k :: 0 <= k < videoMem.Length ==>
          videoMem[k] == if dst <= k < dst + i then old(videoMem[src + k - dst]) else old(videoMem[k])
      {
        videoMem[dst + i] := videoMem[src + i];
      }
    }

    /** Copy page `from` over page `to`. */
    method CopyPage(to: int, from: int)
      requires Laid() && 0 <= to < 4 && 0 <= from < 4 && to != from
      modifies videoMem
      ensures Page(to) == old(Page(from))
      ensures forall i :: 0 <= i < 4 && i != to ==> Page(i) == old(Page(i))
    {
      Memcpy(PAGE_BYTES * to, PAGE_BYTES * from, PAGE_BYTES);
    }

    method SwitchScreen(newTerminal: int)
      requires Valid() && IsTerminal(newTerminal)
      modifies this, videoMem
      ensures Valid() && View() == M.SwitchScreen(old(View()), newTerminal)
    {
      ghost var s := View();
      CopyPage(screenTerminal + 1, 0);
      CopyPage(0, newTerminal + 1);
      terminalFlag := false;
      screenTerminal := newTerminal;
      assert View().pages == M.SwitchScreen(s, newTerminal).pages;
      M.SwitchKeepsConsoles(s, newTerminal);
    }

    /** `terminal_write`: NUL bytes are skipped, and not counted. */
    method TerminalWrite(buf: array?<Byte>, nbytes: int) returns (numbytes: int)
      requires Valid() && !displayOnMainPage
      requires buf != null ==> nbytes <= buf.Length && buf != videoMem
      modifies this, videoMem, terminalArray
      ensures Valid() && !displayOnMainPage
      ensures buf == null || nbytes <= 0 ==> numbytes == -1 && View() == old(View())
      ensures buf != null && 0 < nbytes ==>
        && View() == M.WriteAll(old(View()), buf[..nbytes])
        && numbytes == |NonNul(buf[..nbytes])|
    {
      ghost var s := View();
      if buf == null || nbytes <= 0 {
        return -1;
      }
      numbytes := 0;
      for i := 0 to nbytes
        invariant Valid() && !displayOnMainPage
        invariant View() == M.WriteAll(s, buf[..i])
        invariant numbytes == |NonNul(buf[..i])|
      {
        assert buf[..i + 1][..i] == buf[..i];
        if buf[i] != NUL {
          Putc(buf[i]);
          numbytes := numbytes + 1;
        }
      }
    }

    /** Setting a console twice leaves the second one. */
    lemma SetTwice(s: M.State, t: int, c: Console, d: Console)
      requires M.Shape(s) && IsTerminal(t) && LineDiscipline.HasBuffer(c) && LineDiscipline.HasBuffer(d)
      ensures M.SetConsole(M.SetConsole(s, t, c), t, d) == M.SetConsole(s, t, d)
    {
      var r := M.SetConsole(M.SetConsole(s, t, c), t, d);
      assert r.pages == M.SetConsole(s, t, d).pages;
      assert r.info == M.SetConsole(s, t, d).info;
    }

    /** `putc` as the keyboard uses it: on the screen, whichever terminal is scheduled. */
    method Echo(ch: Byte)
      requires Valid() && !displayOnMainPage
      modifies this, videoMem, terminalArray
      ensures Valid() && !displayOnMainPage
      ensures View() == M.SetConsole(old(View()), old(screenTerminal), Put(old(Shown()), ch))
    {
      displayOnMainPage := true;
      Putc(ch);
    }

    method UpdateShown(info: TerminalInfo)
      requires Valid() && LineDiscipline.HasBuffer(Console(Shown().page, info))
      modifies terminalArray
      ensures Valid()
      ensures View() == M.SetConsole(old(View()), screenTerminal, Console(old(Shown()).page, info))
    {
      ghost var s, c := View(), Console(Shown().page, info);
      terminalArray[screenTerminal] := info;
      OneConsoleChanged(s, View(), screenTerminal, c);
    }

    /** A line redrawn up to character i, with that character added. */
    lemma RedrawnNext(s: M.State, c: Console, line: seq<Byte>, i: nat)
      requires M.Shape(s) && LineDiscipline.HasBuffer(c) && i < |line|
      ensures var drawn := PutAll(Clear(c), line[..i]);
        M.SetConsole(M.SetConsole(s, s.screen, drawn), s.screen, Put(drawn, line[i])) ==
        M.SetConsole(s, s.screen, PutAll(Clear(c), line[..i + 1]))
    {
      var drawn := PutAll(Clear(c), line[..i]);
      assert line[..i + 1][..i] == line[..i];
      SetTwice(s, s.screen, drawn, Put(drawn, line[i]));
    }

    /** The Ctrl-L branch of `edit_buffer`. */
    method Redraw()
      requires Valid() && !displayOnMainPage
      modifies this, videoMem, terminalArray
      ensures Valid() && !displayOnMainPage
      ensures View() == M.PressKey(old(View()), LineDiscipline.CTL_L_CMD)
    {
      ghost var s := View();
      ghost var console := Shown();
      ghost var line := console.info.buffer[..console.info.bufferSize];
      displayOnMainPage := true;
      ClearScreen();
      for i := 0 to terminalArray[screenTerminal].bufferSize
        invariant Valid() && !displayOnMainPage && screenTerminal == s.screen && i <= |line|
        invariant View() == M.SetConsole(s, s.screen, PutAll(Clear(console), line[..i]))
      {
        ghost var drawn := PutAll(Clear(console), line[..i]);
        assert Shown() == drawn && terminalArray[screenTerminal] == drawn.info;
        RedrawnNext(s, console, line, i);
        Echo(terminalArray[screenTerminal].buffer[i]);
      }
      assert line[..|line|] == line;
    }

    /** Echoing does not depend on the line buffer, so storing first and echoing second is `Accept`. */
    lemma StoreEchoCount(c: Console, r: Byte)
      requires LineDiscipline.HasBuffer(c) && c.info.bufferSize < MAX_BUF_SIZE
      ensures var n := c.info.bufferSize;
        var stored := c.(info := c.info.(buffer := c.info.buffer[n := r]));
        var echoed := Put(stored, r);
        echoed.(info := echoed.info.(bufferSize := n + 1)) == LineDiscipline.Accept(c, r)
    {
    }

    /** Store a byte in the line buffer, echo it, count it. */
    method Accept(r: Byte)
      requires Valid() && !displayOnMainPage && Shown().info.bufferSize < MAX_BUF_SIZE
      modifies this, videoMem, terminalArray
      ensures Valid() && !displayOnMainPage
      ensures View() == M.SetConsole(old(View()), old(screenTerminal), LineDiscipline.Accept(old(Shown()), r))
    {
      ghost var s, c := View(), Shown();
      var t := screenTerminal;
      assert LineDiscipline.HasBuffer(c) && terminalArray[t] == c.info;
      StoreEchoCount(c, r);
      var n := terminalArray[t].bufferSize;
      UpdateShown(terminalArray[t].(buffer := terminalArray[t].buffer[n := r]));
      EchoAndCount(r, n);
      SetTwice(s, t, c.(info := c.info.(buffer := c.info.buffer[n := r])), Shown());
    }

    method EchoAndCount(r: Byte, n: int)
      requires Valid() && !displayOnMainPage && 0 <= n < MAX_BUF_SIZE
      modifies this, videoMem, terminalArray
      ensures Valid() && !displayOnMainPage
      ensures View() == M.SetConsole(old(View()), old(screenTerminal),
        var d := Put(old(Shown()), r); d.(info := d.info.(bufferSize := n + 1)))
    {
      ghost var s := View();
      var t := screenTerminal;
      Echo(r);
      ghost var echoed := Shown();
      assert terminalArray[t] == echoed.info;
      UpdateShown(terminalArray[t].(bufferSize := n + 1));
      SetTwice(s, t, echoed, Shown());
    }

    method AcceptEnter()
      requires Valid() && !displayOnMainPage && Shown().info.bufferSize < MAX_BUF_SIZE
      requires LineDiscipline.IsEdit(Shown(), LineDiscipline.ENTER_KEY)
      modifies this, videoMem, terminalArray
      ensures Valid() && !displayOnMainPage
      ensures View() == M.PressKey(old(View()), LineDiscipline.ENTER_KEY)
    {
      ghost var s := View();
      Accept(LineDiscipline.END_OF_LINE);
      ghost var accepted := Shown();
      assert terminalArray[screenTerminal] == accepted.info;
      UpdateShown(terminalArray[screenTerminal].(enterFlag := true));
      SetTwice(s, screenTerminal, accepted, Shown());
    }

    method Backspace()
      requires Valid() && !displayOnMainPage
      requires LineDiscipline.IsEdit(Shown(), LineDiscipline.BACKSPACE)
      requires LineDiscipline.InBounds(Shown(), LineDiscipline.BACKSPACE)
      modifies this, videoMem, terminalArray
      ensures Valid() && !displayOnMainPage
      ensures View() == M.PressKey(old(View()), LineDiscipline.BACKSPACE)
    {
      ghost var s := View();
      ghost var erased := Shown();
      assert LineDiscipline.HasBuffer(erased) && terminalArray[screenTerminal] == erased.info;
      if 0 < terminalArray[screenTerminal].bufferSize {
        EraseChar();
        erased := Shown();
      }
      var info := terminalArray[screenTerminal];
      assert info == erased.info;
      var n := info.bufferSize;
      if 0 < n {
        info := info.(buffer := info.buffer[n := NUL], bufferSize := n - 1);
      }
      if info.bufferSize == 0 {
        info := info.(buffer := info.buffer[0 := NUL]);
      }
      UpdateShown(info);
      SetTwice(s, screenTerminal, erased, Shown());
    }

    method EditBuffer(response: Byte)
      requires Valid() && !displayOnMainPage
      requires LineDiscipline.InBounds(Shown(), response)
      modifies this, videoMem, terminalArray
      ensures Valid() && !displayOnMainPage
      ensures View() == M.PressKey(old(View()), response)
    {
      ghost var s := View();
      var t := screenTerminal;
      assert terminalArray[t] == Shown().info && LineDiscipline.HasBuffer(Shown());
      if response == LineDiscipline.CTL_L_CMD {
        Redraw();
      } else if terminalArray[t].waitingInRead && response != NUL {
        var n := terminalArray[t].bufferSize;
        if n == MAX_BUF_SIZE - 2 && response == LineDiscipline.ENTER_KEY {
          AcceptEnter();
        } else if response == LineDiscipline.BACKSPACE {
          Backspace();
        } else if n == MAX_BUF_SIZE - 1 && response != LineDiscipline.ENTER_KEY {
          UnchangedConsole(s, t);
        } else if response == LineDiscipline.ENTER_KEY {
          AcceptEnter();
        } else {
          Accept(response);
        }
      } else {
        UnchangedConsole(s, t);
      }
    }

    lemma UnchangedConsole(s: M.State, t: int)
      requires M.Shape(s) && IsTerminal(t)
      ensures M.SetConsole(s, t, M.Project(s, t)) == s
    {
      assert LineDiscipline.HasBuffer(M.Project(s, t));
      assert M.SetConsole(s, t, M.Project(s, t)).pages == s.pages;
      assert M.SetConsole(s, t, M.Project(s, t)).info == s.info;
    }

    /** `tab_key_handler`: four spaces, as far as the buffer has room. */
    method TabKeyHandler()
      requires Valid() && !displayOnMainPage
      requires LineDiscipline.Sound(Shown()) && LineDiscipline.InBounds(Shown(), SPACE)
      modifies this, videoMem, terminalArray
      ensures Valid() && !displayOnMainPage && screenTerminal == old(screenTerminal)
      ensures Shown() == LineDiscipline.Spaced(old(Shown()), 4)
      ensures var c := old(Shown());
        LineDiscipline.AwaitingLine(c) ==> Shown() == LineDiscipline.Typed(c, [SPACE, SPACE, SPACE, SPACE])
      ensures !old(Shown()).info.waitingInRead ==> Shown() == old(Shown())
    {
      ghost var c := Shown();
      for i := 0 to 4
        invariant Valid() && !displayOnMainPage && screenTerminal == old(screenTerminal)
        invariant Shown() == LineDiscipline.Spaced(c, i)
      {
        EditBuffer(SPACE);
      }
      LineDiscipline.SpacedIsTyped(c, 4);
      assert [SPACE, SPACE, SPACE, SPACE] == seq(4, _ => SPACE);
    }

    /** What `scheduler` does to the consoles. */
    method ScheduleNext()
      requires Valid() && !displayOnMainPage
      modifies this, videoMem, terminalArray
      ensures Valid() && !displayOnMainPage && View() == M.Tick(old(View()))
    {
      ghost var s := View();
      currTerminal := (currTerminal + 1) % MAX_TERMINALS;
      assert View() == M.Reschedule(s);
      if !terminalArray[currTerminal].started {
        ClearScreen();
        MarkStarted();
      }
    }

    method MarkStarted()
      requires Valid()
      modifies terminalArray
      ensures Valid() && View() == M.MarkStarted(old(View()))
    {
      ghost var s := View();
      terminalArray[currTerminal] := terminalArray[currTerminal].(started := true);
      assert View().info == M.MarkStarted(s).info;
      assert View().pages == s.pages;
    }

    /** `terminal_read` up to its wait for Enter. */
    method StartRead(buf: array?<Byte>, nbytes: int) returns (blocks: bool)
      requires Valid()
      modifies terminalArray
      ensures Valid() && blocks == (buf != null && 0 < nbytes)
      ensures View() == if blocks then M.StartRead(old(View())) else old(View())
      ensures terminalArray[currTerminal] == old(terminalArray[currTerminal]).(
                waitingInRead := blocks || old(terminalArray[currTerminal].waitingInRead))
    {
      if buf == null {
        return false;
      }
      if nbytes <= 0 {
        return false;
      }
      ghost var s := View();
      ghost var c := M.Project(s, currTerminal);
      terminalArray[currTerminal] := terminalArray[currTerminal].(waitingInRead := true);
      OneConsoleChanged(s, View(), currTerminal, LineDiscipline.BeginRead(c));
      return true;
    }

    /** The copy loop of `terminal_read`, and the line end it forces on a truncated line. */
    static method CopyLine(info: TerminalInfo, buf: array<Byte>, limit: int) returns (numbytes: int)
      requires LineDiscipline.LineFits(info) && 1 <= limit <= MAX_BUF_SIZE && limit <= buf.Length
      modifies buf
      ensures 0 <= numbytes <= limit
      ensures buf[..numbytes] == LineDiscipline.Delivered(info, limit)
      ensures buf[numbytes..] == old(buf[numbytes..])
    {
      var enterAtEnd := false;
      numbytes := 0;
      var i := 0;
      while i < limit
        invariant 0 <= i <= limit && numbytes == Min(i, info.bufferSize)
        invariant !enterAtEnd
        invariant buf[..numbytes] == info.buffer[..numbytes]
        invariant buf[numbytes..] == old(buf[numbytes..])
        invariant LineDiscipline.END_OF_LINE !in info.buffer[..i]
      {
        if i < info.bufferSize {
          numbytes := numbytes + 1;
          buf[i] := info.buffer[i];
        }
        if info.buffer[i] == LineDiscipline.END_OF_LINE {
          enterAtEnd := true;
          break;
        }
        i := i + 1;
      }
      LineDiscipline.FirstEndIs(info.buffer, limit, i);
      if !enterAtEnd && i < info.bufferSize && buf[i - 1] != LineDiscipline.END_OF_LINE {
        buf[i - 1] := LineDiscipline.END_OF_LINE;
      }
    }

    static method ClearPrefix(buffer: seq<Byte>, limit: nat) returns (r: seq<Byte>)
      requires limit <= |buffer|
      ensures r == seq(limit, _ => NUL) + buffer[limit..]
    {
      r := buffer;
      for i := 0 to limit
        invariant r == seq(i, _ => NUL) + buffer[i..]
      {
        r := r[i := NUL];
      }
    }

    /** The last part of `terminal_read`: zero the first bytes of the line buffer and reset it. */
    method ResetLine(limit: int)
      requires Valid() && 1 <= limit <= MAX_BUF_SIZE
      modifies terminalArray
      ensures Valid() && View() == M.FinishRead(old(View()), limit)
    {
      ghost var s := View();
      ghost var c := M.Project(s, currTerminal);
      assert LineDiscipline.HasBuffer(c);
      var t := currTerminal;
      assert s.info[t] == c.info;
      var cleared := ClearPrefix(terminalArray[t].buffer, limit);
      terminalArray[t] :=
        terminalArray[t].(buffer := cleared, bufferSize := 0, waitingInRead := false, enterFlag := false);
      OneConsoleChanged(s, View(), t, LineDiscipline.EndRead(c, limit));
    }

    /** The rest of `terminal_read`, once the wait is over. */
    method FinishRead(buf: array<Byte>, nbytes: int) returns (numbytes: int)
      requires Valid() && 1 <= nbytes <= buf.Length && buf != videoMem
      requires LineDiscipline.LineFits(terminalArray[currTerminal])
      modifies buf, terminalArray
      ensures Valid() && View() == M.FinishRead(old(View()), nbytes)
      ensures 0 <= numbytes <= nbytes
      ensures buf[..numbytes] == LineDiscipline.Delivered(old(terminalArray[currTerminal]), nbytes)
      ensures buf[numbytes..] == old(buf[numbytes..])
    {
      assert LineDiscipline.HasBuffer(M.Project(View(), currTerminal));
      var trueBytes := nbytes;
      if MAX_BUF_SIZE < nbytes {
        trueBytes := MAX_BUF_SIZE;
      }
      numbytes := CopyLine(terminalArray[currTerminal], buf, trueBytes);
      assert View() == old(View());
      ResetLine(trueBytes);
    }
  }
}
