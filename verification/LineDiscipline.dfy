/** The line discipline of one terminal: keys edit a 128-byte buffer and echo on the screen, Enter
    hands the line to the blocked reader. */
module LineDiscipline {
  import opened Bytes
  import opened Console

  const BACKSPACE: Byte := 0x0E
  const ENTER_KEY: Byte := 0x1C
  const CTL_L_CMD: Byte := 255
  const END_OF_LINE: Byte := 0x0A
  const LINE_MAX := MAX_BUF_SIZE - 1

  predicate LineFits(info: TerminalInfo) {
    |info.buffer| == MAX_BUF_SIZE && 0 <= info.bufferSize <= MAX_BUF_SIZE
  }

  ghost predicate HasBuffer(c: Console) {
    c.OnGrid() && LineFits(c.info)
  }

  /** Whether `r` reaches the editing branches of `edit_buffer`. */
  predicate IsEdit(c: Console, r: Byte) {
    c.info.waitingInRead && r != NUL && r != CTL_L_CMD
  }

  /** The key touches neither the byte after the line buffer nor a cell before the screen. */
  predicate InBounds(c: Console, r: Byte) {
    IsEdit(c, r) ==>
      && c.info.bufferSize < MAX_BUF_SIZE
      && (r == BACKSPACE && 0 < c.info.bufferSize ==> 0 < c.Pos())
  }

  /** Store `r` at the end of the line and echo `shown`. */
  function Accept(c: Console, r: Byte): Console
    requires HasBuffer(c) && c.info.bufferSize < MAX_BUF_SIZE
  {
    var n := c.info.bufferSize;
    var d := Put(c, r);
    d.(info := d.info.(buffer := c.info.buffer[n := r], bufferSize := n + 1))
  }

  /** `edit_buffer`. The byte zeroed by a backspace is the one after the dropped character. */
  function Edit(c: Console, r: Byte): (d: Console)
    requires HasBuffer(c) && InBounds(c, r)
    ensures HasBuffer(d)
  {
    var n := c.info.bufferSize;
    if r == CTL_L_CMD then PutAll(Clear(c), c.info.buffer[..n])
    else if !IsEdit(c, r) then c
    else if r == BACKSPACE then
      if n == 0 then c.(info := c.info.(buffer := c.info.buffer[0 := NUL]))
      else
        var d := Erase(c);
        var zeroed := c.info.buffer[n := NUL];
        d.(info := d.info.(
             buffer := if n == 1 then zeroed[0 := NUL] else zeroed,
             bufferSize := n - 1))
    else if r == ENTER_KEY then
      var d := Accept(c, END_OF_LINE);
      d.(info := d.info.(enterFlag := true))
    else if n == LINE_MAX then c
    else Accept(c, r)
  }

  function BeginRead(c: Console): Console {
    c.(info := c.info.(waitingInRead := true))
  }

  /** The index of the first end of line below `limit`, or `limit`. */
  function FirstEnd(buffer: seq<Byte>, limit: nat): (e: nat)
    requires limit <= |buffer|
    ensures e <= limit
    ensures e < limit ==> buffer[e] == END_OF_LINE
    ensures END_OF_LINE !in buffer[..e]
    decreases limit
  {
    if limit == 0 then 0
    else
      var e := FirstEnd(buffer, limit - 1);
      if e < limit - 1 || buffer[limit - 1] == END_OF_LINE then e else limit
  }

  /** The bytes `terminal_read` leaves in the caller's buffer. */
  function Delivered(info: TerminalInfo, nbytes: int): seq<Byte>
    requires LineFits(info) && 1 <= nbytes
  {
    var limit := Min(MAX_BUF_SIZE, nbytes);
    var e := FirstEnd(info.buffer, limit);
    if e < limit then info.buffer[..Min(info.bufferSize, e + 1)]
    else if limit < info.bufferSize then info.buffer[..limit - 1] + [END_OF_LINE]
    else info.buffer[..info.bufferSize]
  }

  /** The terminal after `terminal_read` has returned: only the first bytes are cleared. */
  function EndRead(c: Console, nbytes: int): Console
    requires HasBuffer(c) && 1 <= nbytes
  {
    var limit := Min(MAX_BUF_SIZE, nbytes);
    c.(info := c.info.(
         buffer := seq(limit, _ => NUL) + c.info.buffer[limit..],
         bufferSize := 0,
         waitingInRead := false,
         enterFlag := false))
  }

  /** Of the buffer a read clears as many bytes as it may have copied; what a truncated line had beyond them
      stays, but no longer counts. */
  lemma ReadClears(c: Console, nbytes: int)
    requires HasBuffer(c) && 1 <= nbytes
    ensures var d := EndRead(c, nbytes);
      && d.page == c.page
      && |d.info.buffer| == MAX_BUF_SIZE
      && (forall i :: 0 <= i < MAX_BUF_SIZE ==> d.info.buffer[i] == if i < nbytes then NUL else c.info.buffer[i])
      && d.info == c.info.(buffer := d.info.buffer, bufferSize := 0, waitingInRead := false, enterFlag := false)
  {
  }

  /** A backspace zeroes the byte behind the dropped character, and byte 0 when it leaves the line empty. */
  lemma BackspaceZeroes(c: Console)
    requires HasBuffer(c) && IsEdit(c, BACKSPACE) && InBounds(c, BACKSPACE)
    ensures var (n, d) := (c.info.bufferSize, Edit(c, BACKSPACE));
      && |d.info.buffer| == MAX_BUF_SIZE
      && forall i :: 0 <= i < MAX_BUF_SIZE ==>
           d.info.buffer[i] == if (i == n && 0 < n) || (i == 0 && n <= 1) then NUL else c.info.buffer[i]
  {
  }

  // ----- What you see is what is read -----

  /** The `bufferSize` cells just before the cursor spell the line typed so far. */
  ghost predicate Spells(c: Console)
    requires HasBuffer(c)
  {
    forall i :: 0 <= i < c.info.bufferSize && c.info.bufferSize <= c.Pos() ==>
      CharAt(c, c.Pos() - c.info.bufferSize + i) == c.info.buffer[i]
  }

  ghost predicate Sound(c: Console) {
    && HasBuffer(c)
    && c.info.bufferSize <= c.Pos()
    && (c.info.bufferSize == MAX_BUF_SIZE ==> c.info.enterFlag)
    && (!c.info.waitingInRead ==> c.info.bufferSize == 0 && !c.info.enterFlag)
    && (!c.info.enterFlag ==>
          && Spells(c)
          && forall i :: 0 <= i < c.info.bufferSize ==> !IsBreak(c.info.buffer[i]))
  }

  lemma PutPos(c: Console, ch: Byte)
    requires c.OnGrid()
    ensures Put(c, ch).Pos() >= Min(c.Pos() + 1, CELLS - NUM_COLS)
    ensures !IsBreak(ch) && c.Pos() + 1 < CELLS ==> Put(c, ch).Pos() == c.Pos() + 1
    ensures !IsBreak(ch) && c.Pos() + 1 == CELLS ==> Put(c, ch).Pos() == CELLS - NUM_COLS
  {
  }

  /** Text printed just before the cursor stays just before the cursor. */
  lemma PutKeepsTail(c: Console, ch: Byte, back: int)
    requires c.OnGrid() && !IsBreak(ch)
    requires 0 <= back < MAX_BUF_SIZE && back <= c.Pos()
    ensures var d := Put(c, ch);
      && back + 1 <= d.Pos()
      && CharAt(d, d.Pos() - 1 - back) == if back == 0 then ch else CharAt(c, c.Pos() - back)
  {
    var d := Put(c, ch);
    PutPos(c, ch);
    PutCells(c, ch, d.Pos() - 1 - back);
    if c.Pos() + 1 == CELLS {
      PutCells(c, ch, c.Pos() - back);
    }
  }

  lemma AcceptKeepsSpelling(c: Console, r: Byte)
    requires Sound(c) && c.info.waitingInRead && !c.info.enterFlag
    requires c.info.bufferSize < LINE_MAX && !IsBreak(r)
    ensures Sound(Accept(c, r))
  {
    var d := Accept(c, r);
    var n := c.info.bufferSize;
    PutPos(c, r);
    forall i | 0 <= i < n + 1
      ensures CharAt(d, d.Pos() - (n + 1) + i) == d.info.buffer[i]
    {
      PutKeepsTail(c, r, n - i);
      assert CharAt(d, d.Pos() - 1 - (n - i)) == CharAt(Put(c, r), d.Pos() - 1 - (n - i));
    }
  }

  lemma {:induction false} RedrawPos(c: Console, s: seq<Byte>)
    requires |c.page| == PAGE_BYTES && |s| <= MAX_BUF_SIZE
    ensures |s| <= PutAll(Clear(c), s).Pos()
  {
    if s != [] {
      RedrawPos(c, s[..|s| - 1]);
      PutPos(PutAll(Clear(c), s[..|s| - 1]), s[|s| - 1]);
    }
  }

  lemma {:induction false} RedrawSpells(c: Console, s: seq<Byte>)
    requires |c.page| == PAGE_BYTES && |s| <= MAX_BUF_SIZE
    requires forall i :: 0 <= i < |s| ==> !IsBreak(s[i])
    ensures PutAll(Clear(c), s).Pos() == |s|
    ensures forall i :: 0 <= i < |s| ==> CharAt(PutAll(Clear(c), s), i) == s[i]
  {
    if s != [] {
      var front, last := s[..|s| - 1], s[|s| - 1];
      var before := PutAll(Clear(c), front);
      RedrawSpells(c, front);
      PutPos(before, last);
      forall i | 0 <= i < |s|
        ensures CharAt(PutAll(Clear(c), s), i) == s[i]
      {
        PutCells(before, last, i);
        assert i < |front| ==> front[i] == s[i];
      }
    }
  }

  lemma EraseKeepsSpelling(c: Console)
    requires Sound(c) && IsEdit(c, BACKSPACE) && !c.info.enterFlag && 0 < c.info.bufferSize
    ensures Sound(Edit(c, BACKSPACE))
  {
    var d := Edit(c, BACKSPACE);
    var n := c.info.bufferSize;
    forall i | 0 <= i < n - 1
      ensures CharAt(d, d.Pos() - (n - 1) + i) == d.info.buffer[i]
    {
      assert CharAt(c, c.Pos() - n + i) == c.info.buffer[i];
    }
  }

  /** In a sound state a key stays inside the buffer and the screen unless it edits a full buffer;
      and a full buffer means Enter is pending. So backspace never leaves the top of the screen. */
  lemma InBoundsIff(c: Console, r: Byte)
    requires Sound(c)
    ensures InBounds(c, r) <==> !(IsEdit(c, r) && c.info.bufferSize == MAX_BUF_SIZE)
    ensures !c.info.enterFlag ==> InBounds(c, r)
  {
  }

  lemma RedrawKeepsSound(c: Console)
    requires Sound(c)
    ensures Sound(Edit(c, CTL_L_CMD))
  {
    var line := c.info.buffer[..c.info.bufferSize];
    RedrawPos(c, line);
    if !c.info.enterFlag {
      RedrawSpells(c, line);
    }
  }

  lemma EnterKeepsSound(c: Console)
    requires Sound(c) && IsEdit(c, ENTER_KEY) && InBounds(c, ENTER_KEY)
    ensures Sound(Edit(c, ENTER_KEY))
  {
    PutPos(c, END_OF_LINE);
  }

  /** Every key, including Ctrl-L, keeps the line on the screen equal to the line in the buffer. */
  lemma EditKeepsSound(c: Console, r: Byte)
    requires Sound(c) && InBounds(c, r) && !IsBreak(r)
    ensures Sound(Edit(c, r))
  {
    var n := c.info.bufferSize;
    if r == CTL_L_CMD {
      RedrawKeepsSound(c);
    } else if !IsEdit(c, r) {
    } else if r == BACKSPACE {
      if !c.info.enterFlag && 0 < n {
        EraseKeepsSpelling(c);
      }
    } else if r == ENTER_KEY {
      EnterKeepsSound(c);
    } else if n != LINE_MAX {
      PutPos(c, r);
      if !c.info.enterFlag {
        AcceptKeepsSpelling(c, r);
      }
    }
  }

  /** The line typed so far. */
  function Pending(c: Console): seq<Byte>
    requires HasBuffer(c)
  {
    c.info.buffer[..c.info.bufferSize]
  }

  /** Backspace undoes a key: the line is as before it and, unless the key scrolled the screen, so are the
      cursor and every cell but the one under the cursor, which is left empty. */
  lemma BackspaceUndoesKey(c: Console, r: Byte, k: int)
    requires AwaitingLine(c) && c.info.bufferSize < LINE_MAX && 0 <= k < CELLS
    requires IsLineKey(r) && r != NUL && r != CTL_L_CMD && r != BACKSPACE
    ensures InBounds(c, r) && InBounds(Edit(c, r), BACKSPACE)
    ensures var d := Edit(Edit(c, r), BACKSPACE);
      && Pending(d) == Pending(c)
      && (d.Pos() == c.Pos() <==> c.Pos() + 1 < CELLS)
      && (c.Pos() + 1 < CELLS ==>
            && CharAt(d, k) == (if k == c.Pos() then NUL else CharAt(c, k))
            && AttrAt(d, k) == (if k == c.Pos() then c.info.attribute else AttrAt(c, k)))
  {
    InBoundsIff(c, r);
    AcceptKeepsSpelling(c, r);
    InBoundsIff(Edit(c, r), BACKSPACE);
    PutPos(c, r);
    PutCells(c, r, k);
    assert Edit(c, r).page == Put(c, r).page;
    var d := Edit(Edit(c, r), BACKSPACE);
    assert 2 * k != 2 * d.Pos() + 1 && 2 * k + 1 != 2 * d.Pos();
  }

  // ----- Keys become lines -----

  /** The line a user means: append up to 127 characters, backspace drops the last one. */
  function Line(keys: seq<Byte>): (line: seq<Byte>)
    ensures |line| <= LINE_MAX
  {
    if keys == [] then []
    else
      var line := Line(keys[..|keys| - 1]);
      var k := keys[|keys| - 1];
      if k == NUL || k == CTL_L_CMD then line
      else if k == BACKSPACE then (if line == [] then [] else line[..|line| - 1])
      else if |line| == LINE_MAX then line
      else line + [k]
  }

  /** A key that is neither Enter nor a line break typed as a character. */
  predicate IsLineKey(k: Byte) {
    k != ENTER_KEY && !IsBreak(k)
  }

  ghost predicate AwaitingLine(c: Console) {
    Sound(c) && c.info.waitingInRead && !c.info.enterFlag
  }

  function Typed(c: Console, keys: seq<Byte>): (d: Console)
    requires AwaitingLine(c) && forall i :: 0 <= i < |keys| ==> IsLineKey(keys[i])
    ensures AwaitingLine(d)
  {
    if keys == [] then c
    else
      var d := Typed(c, keys[..|keys| - 1]);
      var k := keys[|keys| - 1];
      assert IsLineKey(k);
      InBoundsIff(d, k);
      EditKeepsSound(d, k);
      Edit(d, k)
  }

  /** Spaces as the Tab key enters them, also with Enter pending: they stop when the buffer has no room. */
  function Spaced(c: Console, n: nat): (d: Console)
    requires Sound(c) && InBounds(c, SPACE)
    ensures Sound(d) && InBounds(d, SPACE)
    ensures d.info.bufferSize ==
      if c.info.waitingInRead && c.info.bufferSize <= LINE_MAX then Min(c.info.bufferSize + n, LINE_MAX)
      else c.info.bufferSize
    ensures d.info.waitingInRead == c.info.waitingInRead && d.info.enterFlag == c.info.enterFlag
  {
    if n == 0 then c
    else
      var d := Spaced(c, n - 1);
      EditKeepsSound(d, SPACE);
      Edit(d, SPACE)
  }

  lemma {:induction false} SpacedIsTyped(c: Console, n: nat)
    requires Sound(c) && InBounds(c, SPACE)
    ensures !c.info.waitingInRead ==> Spaced(c, n) == c
    ensures AwaitingLine(c) ==> Spaced(c, n) == Typed(c, seq(n, _ => SPACE))
  {
    if n > 0 {
      SpacedIsTyped(c, n - 1);
      var keys: seq<Byte> := seq(n, _ => SPACE);
      assert keys[..n - 1] == seq(n - 1, _ => SPACE) && keys[n - 1] == SPACE;
    }
  }

  lemma {:induction false} TypedLine(c: Console, keys: seq<Byte>)
    requires AwaitingLine(c) && c.info.bufferSize == 0
    requires forall i :: 0 <= i < |keys| ==> IsLineKey(keys[i])
    ensures var d := Typed(c, keys);
      d.info.bufferSize == |Line(keys)| && d.info.buffer[..|Line(keys)|] == Line(keys)
    ensures END_OF_LINE !in Line(keys)
  {
    if keys != [] {
      var front, k := keys[..|keys| - 1], keys[|keys| - 1];
      TypedLine(c, front);
      var d := Typed(c, front);
      var n := |Line(front)|;
      InBoundsIff(d, k);
      var e := Edit(d, k);
      assert e.info.buffer[..|Line(keys)|] == Line(keys) by {
        if IsEdit(d, k) && k == BACKSPACE && n > 0 {
          assert e.info.buffer[..n - 1] == d.info.buffer[..n][..n - 1];
        } else if IsEdit(d, k) && k != BACKSPACE && n < LINE_MAX {
          assert e.info.buffer[..n + 1] == d.info.buffer[..n] + [k];
        }
      }
    }
  }

  lemma {:induction false} FirstEndIs(buffer: seq<Byte>, limit: nat, e: nat)
    requires limit <= |buffer| && e <= limit
    requires END_OF_LINE !in buffer[..e]
    requires e < limit ==> buffer[e] == END_OF_LINE
    ensures FirstEnd(buffer, limit) == e
  {
    if 0 < limit {
      FirstEndIs(buffer, limit - 1, Min(e, limit - 1));
      assert e == limit ==> buffer[limit - 1] in buffer[..e];
    }
  }

  /** A reader that asks for fewer bytes than the line gets a prefix, ended by a line end of its own. */
  function Truncated(line: seq<Byte>, nbytes: int): (r: seq<Byte>)
    requires 1 <= nbytes
    ensures |r| == Min(nbytes, |line| + 1)
    ensures r[|r| - 1] == END_OF_LINE && r[..|r| - 1] <= line
  {
    if |line| < nbytes then line + [END_OF_LINE] else line[..nbytes - 1] + [END_OF_LINE]
  }

  lemma DeliveredLine(info: TerminalInfo, line: seq<Byte>, nbytes: int)
    requires LineFits(info) && 1 <= nbytes
    requires |line| < MAX_BUF_SIZE && info.bufferSize == |line| + 1
    requires info.buffer[..|line|] == line && info.buffer[|line|] == END_OF_LINE && END_OF_LINE !in line
    ensures Delivered(info, nbytes) == Truncated(line, nbytes)
  {
    var limit := Min(MAX_BUF_SIZE, nbytes);
    var e := Min(limit, |line|);
    assert info.buffer[..e] == line[..e];
    FirstEndIs(info.buffer, limit, e);
    if |line| < limit {
      assert info.buffer[..|line| + 1] == line + [END_OF_LINE];
    } else {
      assert info.buffer[..limit - 1] == line[..limit - 1];
    }
  }

  /** The buffer's content after one key that stays in bounds; Enter too may come more than once. */
  function AfterKey(was: seq<Byte>, k: Byte): seq<Byte> {
    if k == NUL || k == CTL_L_CMD then was
    else if k == BACKSPACE then (if was == [] then [] else was[..|was| - 1])
    else if k == ENTER_KEY then was + [END_OF_LINE]
    else if |was| == LINE_MAX then was
    else was + [k]
  }

  function Content(was: seq<Byte>, keys: seq<Byte>): seq<Byte>
    decreases |keys|
  {
    if keys == [] then was else Content(AfterKey(was, keys[0]), keys[1..])
  }

  lemma {:induction false} ContentConcat(was: seq<Byte>, keys: seq<Byte>, more: seq<Byte>)
    ensures Content(was, keys + more) == Content(Content(was, keys), more)
    decreases |keys|
  {
    if keys == [] {
      assert keys + more == more;
    } else {
      assert (keys + more)[1..] == keys[1..] + more;
      ContentConcat(AfterKey(was, keys[0]), keys[1..], more);
    }
  }

  lemma {:induction false} ContentIsLine(keys: seq<Byte>)
    requires forall i :: 0 <= i < |keys| ==> IsLineKey(keys[i])
    ensures Content([], keys) == Line(keys) && END_OF_LINE !in Line(keys)
  {
    if keys != [] {
      var front, k := keys[..|keys| - 1], keys[|keys| - 1];
      ContentIsLine(front);
      ContentConcat([], front, [k]);
      assert keys == front + [k] && [k][1..] == [];
      assert IsLineKey(k);
      assert Content(Line(front), [k]) == AfterKey(Line(front), k);
    }
  }

  /** What a reader of this size is given of this content: its first line, or all of it if it has no line
      end, cut to the size asked for. */
  function Received(content: seq<Byte>, nbytes: int): seq<Byte>
    requires 1 <= nbytes
  {
    var e := FirstEnd(content, |content|);
    var limit := Min(MAX_BUF_SIZE, nbytes);
    if e < |content| then Truncated(content[..e], nbytes)
    else if |content| <= limit then content
    else content[..limit - 1] + [END_OF_LINE]
  }

  lemma LineEndInReach(info: TerminalInfo, content: seq<Byte>, nbytes: int, e: nat)
    requires LineFits(info) && 1 <= nbytes && content == info.buffer[..info.bufferSize]
    requires e < Min(Min(MAX_BUF_SIZE, nbytes), |content|) && e == FirstEnd(info.buffer, Min(MAX_BUF_SIZE, nbytes))
    ensures Delivered(info, nbytes) == Received(content, nbytes)
  {
    assert content[..e] == info.buffer[..e];
    FirstEndIs(content, |content|, e);
    assert info.buffer[..e + 1] == content[..e] + [END_OF_LINE];
  }

  lemma NoLineEndInReach(info: TerminalInfo, content: seq<Byte>, nbytes: int, limit: nat)
    requires LineFits(info) && 1 <= nbytes && content == info.buffer[..info.bufferSize]
    requires limit == Min(MAX_BUF_SIZE, nbytes) && Min(limit, |content|) <= FirstEnd(info.buffer, limit)
    ensures Delivered(info, nbytes) == Received(content, nbytes)
  {
    var e, f, n := FirstEnd(content, |content|), FirstEnd(info.buffer, limit), Min(limit, |content|);
    assert info.buffer[..n] == content[..n];
    assert forall i :: 0 <= i < f ==> info.buffer[..f][i] != END_OF_LINE;
    assert n <= e;
    if limit < |content| {
      assert info.buffer[..limit - 1] == content[..limit - 1];
      assert e < |content| ==> content[..e][..limit - 1] == content[..limit - 1];
    }
  }

  /** What a read copies depends on the content only, not on what stands behind it in the buffer. */
  lemma DeliveredContent(info: TerminalInfo, content: seq<Byte>, nbytes: int)
    requires LineFits(info) && 1 <= nbytes && content == info.buffer[..info.bufferSize]
    ensures Delivered(info, nbytes) == Received(content, nbytes)
  {
    var limit := Min(MAX_BUF_SIZE, nbytes);
    var e := FirstEnd(info.buffer, limit);
    if e < Min(limit, |content|) {
      LineEndInReach(info, content, nbytes, e);
    } else {
      NoLineEndInReach(info, content, nbytes, limit);
    }
  }

  lemma FirstLineIsReceived(content: seq<Byte>, line: seq<Byte>, nbytes: int)
    requires END_OF_LINE !in line && line + [END_OF_LINE] <= content && 1 <= nbytes
    ensures Received(content, nbytes) == Truncated(line, nbytes)
  {
    assert content[..|line|] == line && content[|line|] == END_OF_LINE;
    FirstEndIs(content, |content|, |line|);
  }

  /** A reader with room for it gets this line exactly when it is still the content's first: a backspace
      after Enter may have erased the line end. */
  lemma LineIsReceivedIff(content: seq<Byte>, line: seq<Byte>, nbytes: int)
    requires END_OF_LINE !in line && |content| <= MAX_BUF_SIZE <= nbytes
    ensures Received(content, nbytes) == line + [END_OF_LINE] <==> line + [END_OF_LINE] <= content
  {
    var e := FirstEnd(content, |content|);
    if line + [END_OF_LINE] <= content {
      FirstLineIsReceived(content, line, nbytes);
    }
    if Received(content, nbytes) == line + [END_OF_LINE] {
      assert (line + [END_OF_LINE])[|line|] == END_OF_LINE;
      assert e < |content|;
      assert content[..e] == (content[..e] + [END_OF_LINE])[..e] == line;
      assert content[..e + 1] == line + [END_OF_LINE];
    }
  }

  lemma EnterContent(keys: seq<Byte>)
    requires forall i :: 0 <= i < |keys| ==> IsLineKey(keys[i])
    ensures Content([], keys + [ENTER_KEY]) == Line(keys) + [END_OF_LINE] && END_OF_LINE !in Line(keys)
  {
    ContentIsLine(keys);
    ContentConcat([], keys, [ENTER_KEY]);
    assert [ENTER_KEY][1..] == [];
    assert Content(Line(keys), [ENTER_KEY]) == AfterKey(Line(keys), ENTER_KEY);
  }

  /** Without a backspace after it, the first Enter ends the line that is received, whatever else is typed. */
  lemma EnterEndsLine(keys: seq<Byte>, after: seq<Byte>, nbytes: int)
    requires forall i :: 0 <= i < |keys| ==> IsLineKey(keys[i])
    requires BACKSPACE !in after && 1 <= nbytes
    ensures Received(Content([], keys + [ENTER_KEY] + after), nbytes) == Truncated(Line(keys), nbytes)
  {
    EnterContent(keys);
    var first := Content([], keys + [ENTER_KEY]);
    ContentConcat([], keys + [ENTER_KEY], after);
    ContentGrows(first, after);
    FirstLineIsReceived(Content(first, after), Line(keys), nbytes);
  }

  lemma {:induction false} ContentGrows(was: seq<Byte>, keys: seq<Byte>)
    requires BACKSPACE !in keys
    ensures was <= Content(was, keys)
    decreases |keys|
  {
    if keys != [] {
      ContentGrows(AfterKey(was, keys[0]), keys[1..]);
    }
  }

  /** With one, it need not: after Enter and backspace the read returns no bytes. */
  lemma BackspaceErasesEnter(nbytes: int)
    requires 1 <= nbytes
    ensures Received(Content([], [ENTER_KEY, BACKSPACE]), nbytes) == []
  {
    assert [ENTER_KEY, BACKSPACE][1..] == [BACKSPACE] && [BACKSPACE][1..] == [];
    assert Content([], [ENTER_KEY, BACKSPACE]) == Content([END_OF_LINE], [BACKSPACE]);
    assert Content([END_OF_LINE], [BACKSPACE]) == AfterKey([END_OF_LINE], BACKSPACE);
  }

  lemma EditContent(c: Console, r: Byte)
    requires Sound(c) && c.info.waitingInRead && InBounds(c, r)
    ensures Pending(Edit(c, r)) == AfterKey(Pending(c), r)
    ensures Edit(c, r).info.waitingInRead && (Edit(c, r).info.enterFlag <==> c.info.enterFlag || r == ENTER_KEY)
  {
    var n := c.info.bufferSize;
    if IsEdit(c, r) && r == BACKSPACE && 0 < n {
      assert Edit(c, r).info.buffer[..n - 1] == c.info.buffer[..n][..n - 1];
    }
  }

  /** Whatever an earlier, truncated read left behind in the buffer, `terminal_read` returns the line
      that was typed up to Enter, cut to the size asked for. */
  lemma ReadReturnsLine(c: Console, keys: seq<Byte>, nbytes: int)
    requires AwaitingLine(c) && c.info.bufferSize == 0
    requires forall i :: 0 <= i < |keys| ==> IsLineKey(keys[i])
    requires 1 <= nbytes
    ensures InBounds(Typed(c, keys), ENTER_KEY)
    ensures Delivered(Edit(Typed(c, keys), ENTER_KEY).info, nbytes) == Truncated(Line(keys), nbytes)
  {
    var d := Typed(c, keys);
    TypedLine(c, keys);
    InBoundsIff(d, ENTER_KEY);
    var e := Edit(d, ENTER_KEY);
    assert e.info.buffer[..|Line(keys)|] == Line(keys);
    DeliveredLine(e.info, Line(keys), nbytes);
  }

  /** The claim that no index passes the end of the buffer fails once 127 characters and Enter have
      been typed and the reader has not yet run: the next editing key writes `buffer[128]`. */
  lemma FullLineThenKeyOverruns(c: Console, r: Byte)
    requires AwaitingLine(c) && c.info.bufferSize == 0
    requires r != NUL && r != CTL_L_CMD
    ensures var keys := seq(LINE_MAX, _ => SPACE);
      && InBounds(Typed(c, keys), ENTER_KEY)
      && !InBounds(Edit(Typed(c, keys), ENTER_KEY), r)
  {
    var keys: seq<Byte> := seq(LINE_MAX, _ => SPACE);
    TypedLine(c, keys);
    SpacesLine(LINE_MAX);
    InBoundsIff(Typed(c, keys), ENTER_KEY);
  }

  lemma {:induction false} SpacesLine(n: nat)
    requires n <= LINE_MAX
    ensures |Line(seq(n, _ => SPACE))| == n
  {
    if n > 0 {
      var keys: seq<Byte> := seq(n, _ => SPACE);
      assert keys[..n - 1] == seq(n - 1, _ => SPACE);
      SpacesLine(n - 1);
    }
  }
}
