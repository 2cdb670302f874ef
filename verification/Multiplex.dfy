/** Three consoles multiplexed on one screen: four video pages, three cursors and line buffers, and
    the globals that decide where each byte goes. */
module Multiplex {
  import opened Bytes
  import opened Limits
  import opened Console
  import opened LineDiscipline
  import opened Transcript

  /** `pages[0]` is the displayed page, `pages[t + 1]` the backup page of terminal t. */
  datatype State = State(
    pages: seq<seq<Byte>>,
    info: seq<TerminalInfo>,
    curr: int,
    screen: int,
    displayOnMainPage: bool)

  ghost predicate Shape(s: State) {
    && |s.pages| == MAX_TERMINALS + 1
    && |s.info| == MAX_TERMINALS
    && IsTerminal(s.curr) && IsTerminal(s.screen)
    && (forall i :: 0 <= i <= MAX_TERMINALS ==> |s.pages[i]| == PAGE_BYTES)
    && (forall t :: IsTerminal(t) ==> HasBuffer(Project(s, t)))
  }

  function PageIndex(s: State, t: int): int {
    if t == s.screen then 0 else t + 1
  }

  /** The console terminal t would have if it were alone. */
  function Project(s: State, t: int): Console
    requires |s.pages| == MAX_TERMINALS + 1 && |s.info| == MAX_TERMINALS && IsTerminal(t)
  {
    Console(s.pages[PageIndex(s, t)], s.info[t])
  }

  function SetConsole(s: State, t: int, c: Console): (r: State)
    requires Shape(s) && IsTerminal(t) && HasBuffer(c)
    ensures Shape(r)
    ensures forall u :: IsTerminal(u) ==> Project(r, u) == if u == t then c else Project(s, u)
  {
    var r := s.(pages := s.pages[PageIndex(s, t) := c.page], info := s.info[t := c.info]);
    assert forall u :: IsTerminal(u) ==> Project(r, u) == if u == t then c else Project(s, u);
    r
  }

  /** The terminal a byte goes to: the scheduled one, unless the keyboard asked for the screen. */
  function Target(s: State): int {
    if s.curr != s.screen && !s.displayOnMainPage then s.curr else s.screen
  }

  function Putc(s: State, ch: Byte): State
    requires Shape(s)
  {
    SetConsole(s, Target(s), Put(Project(s, Target(s)), ch)).(displayOnMainPage := false)
  }

  function ClearScreen(s: State): State
    requires Shape(s)
  {
    SetConsole(s, Target(s), Clear(Project(s, Target(s)))).(displayOnMainPage := false)
  }

  /** `terminal_write`. */
  function WriteAll(s: State, bytes: seq<Byte>): (r: State)
    requires Shape(s)
    ensures Shape(r) && r.curr == s.curr && r.screen == s.screen
    ensures !s.displayOnMainPage ==> !r.displayOnMainPage
  {
    if bytes == [] then s
    else
      var r := WriteAll(s, bytes[..|bytes| - 1]);
      var ch := bytes[|bytes| - 1];
      if ch == NUL then r else Putc(r, ch)
  }

  /** `edit_buffer`: a key always goes to the terminal on the screen. */
  function PressKey(s: State, r: Byte): State
    requires Shape(s) && InBounds(Project(s, s.screen), r)
  {
    SetConsole(s, s.screen, Edit(Project(s, s.screen), r))
  }

  /** `switch_screen`: save the displayed page, then load the new terminal's. */
  function SwitchScreen(s: State, t: int): State
    requires Shape(s) && IsTerminal(t)
  {
    var saved := s.pages[s.screen + 1 := s.pages[0]];
    s.(pages := saved[0 := saved[t + 1]], screen := t)
  }

  function NextTerminal(s: State): int {
    (s.curr + 1) % MAX_TERMINALS
  }

  function Reschedule(s: State): (r: State)
    requires Shape(s)
    ensures Shape(r)
    ensures forall u :: IsTerminal(u) ==> Project(r, u) == Project(s, u)
  {
    var r := s.(curr := NextTerminal(s));
    assert forall u :: IsTerminal(u) ==> Project(r, u) == Project(s, u);
    r
  }

  function MarkStarted(s: State): (r: State)
    requires Shape(s)
    ensures Shape(r)
    ensures forall u :: IsTerminal(u) && u != s.curr ==> Project(r, u) == Project(s, u)
    ensures Project(r, s.curr) == Project(s, s.curr).(info := s.info[s.curr].(started := true))
  {
    var r := s.(info := s.info[s.curr := s.info[s.curr].(started := true)]);
    assert forall u :: IsTerminal(u) && u != s.curr ==> Project(r, u) == Project(s, u);
    assert HasBuffer(Project(s, s.curr));
    r
  }

  /** The scheduler's effect on the consoles: a terminal scheduled for the first time is cleared. */
  function Tick(s: State): (r: State)
    requires Shape(s)
    ensures Shape(r)
  {
    var r := Reschedule(s);
    if s.info[r.curr].started then r else MarkStarted(ClearScreen(r))
  }

  function StartRead(s: State): State
    requires Shape(s)
  {
    SetConsole(s, s.curr, BeginRead(Project(s, s.curr)))
  }

  function FinishRead(s: State, nbytes: int): State
    requires Shape(s) && 1 <= nbytes
  {
    SetConsole(s, s.curr, EndRead(Project(s, s.curr), nbytes))
  }

  // ----- Runs -----

  datatype Event =
    | Output(bytes: seq<Byte>)
    | Key(r: Byte)
    | SchedulerTick
    | Switch(t: int)
    | ReadBlocks
    | ReadReturns(nbytes: int)

  /** What can happen next. A terminal's one running process is blocked while it reads, so output and
      new reads come from terminals that are not waiting. */
  predicate Enabled(s: State, e: Event)
    requires Shape(s)
  {
    match e
    case Output(_) => s.info[s.curr].started && !s.info[s.curr].waitingInRead
    case Key(r) => InBounds(Project(s, s.screen), r) && !IsBreak(r)
    case SchedulerTick => true
    case Switch(t) => IsTerminal(t)
    case ReadBlocks => s.info[s.curr].started && !s.info[s.curr].waitingInRead
    case ReadReturns(n) => 1 <= n && s.info[s.curr].enterFlag
  }

  function Step(s: State, e: Event): (r: State)
    requires Shape(s) && !s.displayOnMainPage && Enabled(s, e)
    ensures Shape(r) && !r.displayOnMainPage
  {
    match e
    case Output(bytes) => WriteAll(s, bytes)
    case Key(k) => PressKey(s, k)
    case SchedulerTick => Tick(s)
    case Switch(t) => SwitchKeepsConsoles(s, t); SwitchScreen(s, t)
    case ReadBlocks => StartRead(s)
    case ReadReturns(n) => FinishRead(s, n)
  }

  ghost predicate CanRun(s: State, es: seq<Event>)
    requires Shape(s) && !s.displayOnMainPage
    decreases es
  {
    es == [] || (Enabled(s, es[0]) && CanRun(Step(s, es[0]), es[1..]))
  }

  ghost function Run(s: State, es: seq<Event>): (r: State)
    requires Shape(s) && !s.displayOnMainPage && CanRun(s, es)
    ensures Shape(r) && !r.displayOnMainPage
    decreases es
  {
    if es == [] then s else Run(Step(s, es[0]), es[1..])
  }

  // ----- One terminal running alone -----

  datatype OwnEvent =
    | OwnOutput(bytes: seq<Byte>)
    | OwnKey(r: Byte)
    | OwnLaunch
    | OwnReadBlocks
    | OwnReadReturns(nbytes: int)

  predicate OwnEnabled(c: Console, o: OwnEvent)
    requires HasBuffer(c)
  {
    match o
    case OwnOutput(_) => c.info.started && !c.info.waitingInRead
    case OwnKey(r) => InBounds(c, r) && !IsBreak(r)
    case OwnLaunch => !c.info.started
    case OwnReadBlocks => c.info.started && !c.info.waitingInRead
    case OwnReadReturns(n) => 1 <= n && c.info.enterFlag
  }

  function Alone(c: Console, o: OwnEvent): (d: Console)
    requires HasBuffer(c) && OwnEnabled(c, o)
    ensures HasBuffer(d)
  {
    match o
    case OwnOutput(bytes) => PutAll(c, NonNul(bytes))
    case OwnKey(r) => Edit(c, r)
    case OwnLaunch => var d := Clear(c); d.(info := d.info.(started := true))
    case OwnReadBlocks => BeginRead(c)
    case OwnReadReturns(n) => EndRead(c, n)
  }

  ghost predicate CanRunAlone(c: Console, os: seq<OwnEvent>)
    requires HasBuffer(c)
    decreases os
  {
    os == [] || (OwnEnabled(c, os[0]) && CanRunAlone(Alone(c, os[0]), os[1..]))
  }

  ghost function RunAlone(c: Console, os: seq<OwnEvent>): (d: Console)
    requires HasBuffer(c) && CanRunAlone(c, os)
    ensures HasBuffer(d)
    decreases os
  {
    if os == [] then c else RunAlone(Alone(c, os[0]), os[1..])
  }

  /** What terminal t experiences of event e: its own process's output and reads, the keys typed while
      it is on the screen, its first scheduling. Ticks and screen switches are not part of it. */
  function Share(s: State, e: Event, t: int): (share: seq<OwnEvent>)
    requires Shape(s) && IsTerminal(t)
    ensures |share| <= 1
  {
    match e
    case Output(bytes) => if t == s.curr then [OwnOutput(bytes)] else []
    case Key(r) => if t == s.screen then [OwnKey(r)] else []
    case SchedulerTick => if t == NextTerminal(s) && !s.info[t].started then [OwnLaunch] else []
    case Switch(_) => []
    case ReadBlocks => if t == s.curr then [OwnReadBlocks] else []
    case ReadReturns(n) => if t == s.curr then [OwnReadReturns(n)] else []
  }

  ghost function Trace(s: State, es: seq<Event>, t: int): seq<OwnEvent>
    requires Shape(s) && !s.displayOnMainPage && CanRun(s, es) && IsTerminal(t)
    decreases es
  {
    if es == [] then [] else Share(s, es[0], t) + Trace(Step(s, es[0]), es[1..], t)
  }

  /** Switching screens, even to the one already shown, changes no terminal's console. */
  lemma SwitchKeepsConsoles(s: State, t: int)
    requires Shape(s) && IsTerminal(t)
    ensures Shape(SwitchScreen(s, t)) && SwitchScreen(s, t).screen == t
    ensures forall u :: IsTerminal(u) ==> Project(SwitchScreen(s, t), u) == Project(s, u)
  {
    var r := SwitchScreen(s, t);
    forall u | IsTerminal(u)
      ensures Project(r, u) == Project(s, u)
    {
    }
    assert forall i :: 0 <= i <= MAX_TERMINALS ==> |r.pages[i]| == PAGE_BYTES;
    assert forall u :: IsTerminal(u) ==> HasBuffer(Project(r, u));
  }

  lemma {:induction false} WriteAllIsOwnOutput(s: State, bytes: seq<Byte>, t: int)
    requires Shape(s) && !s.displayOnMainPage && IsTerminal(t)
    ensures Project(WriteAll(s, bytes), t) ==
      if t == s.curr then PutAll(Project(s, t), NonNul(bytes)) else Project(s, t)
  {
    if bytes != [] {
      var front, ch := bytes[..|bytes| - 1], bytes[|bytes| - 1];
      WriteAllIsOwnOutput(s, front, t);
      var r := WriteAll(s, front);
      if ch != NUL {
        assert Target(r) == s.curr;
        assert Putc(r, ch).info[t] == Project(Putc(r, ch), t).info;
        assert NonNul(bytes)[..|NonNul(bytes)| - 1] == NonNul(front);
        var w := SetConsole(r, Target(r), Put(Project(r, Target(r)), ch));
        assert w.info[t] == Project(w, t).info;
        assert Project(Putc(r, ch), t) == Project(w, t);
      }
    }
  }

  lemma StepIsShare(s: State, e: Event, t: int)
    requires Shape(s) && !s.displayOnMainPage && Enabled(s, e) && IsTerminal(t)
    ensures Share(s, e, t) == [] ==> Project(Step(s, e), t) == Project(s, t)
    ensures Share(s, e, t) != [] ==>
      && OwnEnabled(Project(s, t), Share(s, e, t)[0])
      && Project(Step(s, e), t) == Alone(Project(s, t), Share(s, e, t)[0])
  {
    var info := Step(s, e).info[t];
    match e
    case Output(bytes) => WriteAllIsOwnOutput(s, bytes, t);
    case Key(r) =>
    case SchedulerTick =>
      var moved := Reschedule(s);
      assert Project(moved, t) == Project(s, t);
      if !s.info[moved.curr].started {
        assert Project(ClearScreen(moved), t) ==
          if t == moved.curr then Clear(Project(s, t)) else Project(s, t) by {
          var w := SetConsole(moved, Target(moved), Clear(Project(moved, Target(moved))));
          assert Project(ClearScreen(moved), t) == Project(w, t);
        }
      }
    case Switch(u) => SwitchKeepsConsoles(s, u);
    case ReadBlocks =>
    case ReadReturns(n) =>
  }

  lemma RunAloneAfter(c: Console, share: seq<OwnEvent>, d: Console, rest: seq<OwnEvent>)
    requires HasBuffer(c) && HasBuffer(d) && CanRunAlone(d, rest)
    requires |share| <= 1
    requires share == [] ==> d == c
    requires share != [] ==> OwnEnabled(c, share[0]) && d == Alone(c, share[0])
    ensures CanRunAlone(c, share + rest)
    ensures RunAlone(c, share + rest) == RunAlone(d, rest)
  {
    if share == [] {
      assert share + rest == rest;
    } else {
      assert (share + rest)[1..] == rest;
    }
  }

  /** Multiplexing is invisible: after any run, each terminal's page, attribute bytes, cursor and line
      buffer are those it would have running alone on its own share of the events. */
  lemma {:induction false} MultiplexedIsAlone(s: State, es: seq<Event>, t: int)
    requires Shape(s) && !s.displayOnMainPage && CanRun(s, es) && IsTerminal(t)
    ensures CanRunAlone(Project(s, t), Trace(s, es, t))
    ensures Project(Run(s, es), t) == RunAlone(Project(s, t), Trace(s, es, t))
    decreases es
  {
    if es != [] {
      var r := Step(s, es[0]);
      StepIsShare(s, es[0], t);
      MultiplexedIsAlone(r, es[1..], t);
      assert HasBuffer(Project(s, t)) && HasBuffer(Project(r, t));
      RunAloneAfter(Project(s, t), Share(s, es[0], t), Project(r, t), Trace(r, es[1..], t));
    }
  }

  // ----- What you see is what is read, over whole runs -----

  /** A sound console whose shell, if not yet launched, is not waiting for input. */
  ghost predicate SoundConsole(c: Console) {
    Sound(c) && (!c.info.started ==> !c.info.waitingInRead)
  }

  lemma AloneKeepsSound(c: Console, o: OwnEvent)
    requires SoundConsole(c) && OwnEnabled(c, o)
    ensures SoundConsole(Alone(c, o))
  {
    match o
    case OwnOutput(bytes) =>
    case OwnKey(r) => EditKeepsSound(c, r);
    case OwnLaunch =>
    case OwnReadBlocks =>
    case OwnReadReturns(n) =>
  }

  lemma {:induction false} RunAloneKeepsSound(c: Console, os: seq<OwnEvent>)
    requires SoundConsole(c) && CanRunAlone(c, os)
    ensures SoundConsole(RunAlone(c, os))
    decreases os
  {
    if os != [] {
      AloneKeepsSound(c, os[0]);
      RunAloneKeepsSound(Alone(c, os[0]), os[1..]);
    }
  }

  /** `init_terminal`, with whatever the video pages hold. */
  ghost predicate Booted(s: State) {
    && Shape(s) && !s.displayOnMainPage && s.curr == 0 && s.screen == 0
    && forall t :: IsTerminal(t) ==>
         && s.info[t].bufferSize == 0 && s.info[t].screenX == 0 && s.info[t].screenY == 0
         && !s.info[t].waitingInRead && !s.info[t].enterFlag
         && (s.info[t].started <==> t == 0)
  }

  lemma BootedIsSound(s: State, t: int)
    requires Booted(s) && IsTerminal(t)
    ensures SoundConsole(Project(s, t))
  {
    assert s.info[t].bufferSize == 0;
  }

  /** In every state reachable from boot, the line being typed at each terminal is spelled by the cells
      just before that terminal's cursor. */
  lemma ReachableIsSound(s: State, es: seq<Event>, t: int)
    requires Booted(s) && CanRun(s, es) && IsTerminal(t)
    ensures SoundConsole(Project(Run(s, es), t))
  {
    BootedIsSound(s, t);
    MultiplexedIsAlone(s, es, t);
    RunAloneKeepsSound(Project(s, t), Trace(s, es, t));
  }

  // ----- Lines through the multiplexer -----

  function OwnKeys(keys: seq<Byte>): seq<OwnEvent> {
    seq(|keys|, i requires 0 <= i < |keys| => OwnKey(keys[i]))
  }

  lemma {:induction false} RunAloneConcat(c: Console, os: seq<OwnEvent>, o: OwnEvent)
    requires HasBuffer(c) && CanRunAlone(c, os) && OwnEnabled(RunAlone(c, os), o)
    ensures CanRunAlone(c, os + [o])
    ensures RunAlone(c, os + [o]) == Alone(RunAlone(c, os), o)
    decreases os
  {
    if os == [] {
      assert (os + [o])[1..] == [];
    } else {
      assert (os + [o])[1..] == os[1..] + [o];
      RunAloneConcat(Alone(c, os[0]), os[1..], o);
    }
  }

  lemma TypedStep(c: Console, keys: seq<Byte>)
    requires AwaitingLine(c) && forall i :: 0 <= i < |keys| ==> IsLineKey(keys[i])
    requires keys != []
    ensures var front, o := keys[..|keys| - 1], OwnKey(keys[|keys| - 1]);
      && OwnEnabled(Typed(c, front), o)
      && Alone(Typed(c, front), o) == Typed(c, keys)
  {
    var front, k := keys[..|keys| - 1], keys[|keys| - 1];
    assert IsLineKey(k);
    InBoundsIff(Typed(c, front), k);
  }

  lemma {:induction false} KeysAreTyped(c: Console, keys: seq<Byte>)
    requires AwaitingLine(c) && forall i :: 0 <= i < |keys| ==> IsLineKey(keys[i])
    ensures CanRunAlone(c, OwnKeys(keys))
    ensures RunAlone(c, OwnKeys(keys)) == Typed(c, keys)
  {
    if keys != [] {
      var front, k := keys[..|keys| - 1], keys[|keys| - 1];
      KeysAreTyped(c, front);
      TypedStep(c, keys);
      RunAloneConcat(c, OwnKeys(front), OwnKey(k));
      assert OwnKeys(keys) == OwnKeys(front) + [OwnKey(k)];
    }
  }

  lemma KeysThenEnter(c: Console, keys: seq<Byte>)
    requires AwaitingLine(c) && forall i :: 0 <= i < |keys| ==> IsLineKey(keys[i])
    ensures var os := OwnKeys(keys) + [OwnKey(ENTER_KEY)];
      && CanRunAlone(c, os)
      && InBounds(Typed(c, keys), ENTER_KEY)
      && RunAlone(c, os) == Edit(Typed(c, keys), ENTER_KEY)
  {
    KeysAreTyped(c, keys);
    InBoundsIff(Typed(c, keys), ENTER_KEY);
    RunAloneConcat(c, OwnKeys(keys), OwnKey(ENTER_KEY));
  }

  /** A read can return exactly when Enter has been pressed since it began to wait. */
  lemma EnterFlagIff(c: Console, o: OwnEvent)
    requires HasBuffer(c) && OwnEnabled(c, o)
    ensures Alone(c, o).info.enterFlag <==>
      (o == OwnKey(ENTER_KEY) && c.info.waitingInRead) || (c.info.enterFlag && !o.OwnReadReturns?)
  {
  }

  lemma ReadWaits(c: Console)
    requires SoundConsole(c) && OwnEnabled(c, OwnReadBlocks)
    ensures AwaitingLine(Alone(c, OwnReadBlocks)) && Alone(c, OwnReadBlocks).info.bufferSize == 0
  {
  }

  /** While a terminal waits only keys happen to it, and it goes on waiting; Enter lets its reader go. */
  lemma {:induction false} OnlyEnterEndsTheWait(c: Console, os: seq<OwnEvent>)
    requires SoundConsole(c) && c.info.waitingInRead && CanRunAlone(c, os)
    requires forall i :: 0 <= i < |os| ==> !os[i].OwnReadReturns?
    ensures forall i :: 0 <= i < |os| ==> os[i].OwnKey?
    ensures RunAlone(c, os).info.waitingInRead
    ensures RunAlone(c, os).info.enterFlag <==> c.info.enterFlag || OwnKey(ENTER_KEY) in os
    decreases os
  {
    if os != [] {
      assert !os[0].OwnReadReturns?;
      assert c.info.started && os[0].OwnKey?;
      AloneKeepsSound(c, os[0]);
      EnterFlagIff(c, os[0]);
      EditContent(c, os[0].r);
      OnlyEnterEndsTheWait(Alone(c, os[0]), os[1..]);
      assert OwnKey(ENTER_KEY) in os <==> os[0] == OwnKey(ENTER_KEY) || OwnKey(ENTER_KEY) in os[1..];
    }
  }

  /** From the call of read to its return, in any interleaving with the other terminals, ticks and screen
      switches: nothing but keys happens to the terminal, and the read can return exactly if one was Enter. */
  lemma ReadEndsWithEnter(s: State, es: seq<Event>, t: int, os: seq<OwnEvent>)
    requires Shape(s) && !s.displayOnMainPage && CanRun(s, es) && IsTerminal(t)
    requires SoundConsole(Project(s, t)) && Trace(s, es, t) == [OwnReadBlocks] + os
    requires forall i :: 0 <= i < |os| ==> !os[i].OwnReadReturns?
    ensures forall i :: 0 <= i < |os| ==> os[i].OwnKey?
    ensures Run(s, es).info[t].waitingInRead
    ensures Run(s, es).info[t].enterFlag <==> OwnKey(ENTER_KEY) in os
  {
    var c := Project(s, t);
    MultiplexedIsAlone(s, es, t);
    assert ([OwnReadBlocks] + os)[1..] == os;
    ReadWaits(c);
    AloneKeepsSound(c, OwnReadBlocks);
    OnlyEnterEndsTheWait(Alone(c, OwnReadBlocks), os);
    assert Project(Run(s, es), t).info == Run(s, es).info[t];
  }

  lemma {:induction false} KeysFillBuffer(c: Console, keys: seq<Byte>)
    requires SoundConsole(c) && c.info.waitingInRead && CanRunAlone(c, OwnKeys(keys))
    ensures Pending(RunAlone(c, OwnKeys(keys))) == Content(Pending(c), keys)
    decreases |keys|
  {
    if keys != [] {
      assert OwnKeys(keys)[0] == OwnKey(keys[0]) && OwnKeys(keys)[1..] == OwnKeys(keys[1..]);
      AloneKeepsSound(c, OwnKey(keys[0]));
      EditContent(c, keys[0]);
      KeysFillBuffer(Alone(c, OwnKey(keys[0])), keys[1..]);
    }
  }

  /** What a read returns is decided by the keys typed since it was called, Enter among them or not, in any
      interleaving and whatever earlier reads have left behind. */
  lemma KeysAreReceived(s: State, es: seq<Event>, t: int, keys: seq<Byte>, nbytes: int)
    requires Shape(s) && !s.displayOnMainPage && CanRun(s, es) && IsTerminal(t) && 1 <= nbytes
    requires SoundConsole(Project(s, t)) && Trace(s, es, t) == [OwnReadBlocks] + OwnKeys(keys)
    ensures LineFits(Run(s, es).info[t])
    ensures Delivered(Run(s, es).info[t], nbytes) == Received(Content([], keys), nbytes)
  {
    var c := Project(s, t);
    MultiplexedIsAlone(s, es, t);
    assert ([OwnReadBlocks] + OwnKeys(keys))[1..] == OwnKeys(keys);
    ReadWaits(c);
    AloneKeepsSound(c, OwnReadBlocks);
    KeysFillBuffer(Alone(c, OwnReadBlocks), keys);
    var info := Project(Run(s, es), t).info;
    assert info == Run(s, es).info[t];
    DeliveredContent(info, Content([], keys), nbytes);
  }

  /** From the call of read on, in any interleaving: once the terminal has been given some keys and Enter,
      the read can return, and it returns the line they spell, unless a backspace follows the Enter. */
  lemma LineThroughMultiplexer(s: State, es: seq<Event>, t: int, keys: seq<Byte>, after: seq<Byte>, nbytes: int)
    requires Shape(s) && !s.displayOnMainPage && CanRun(s, es) && IsTerminal(t) && 1 <= nbytes
    requires SoundConsole(Project(s, t))
    requires forall i :: 0 <= i < |keys| ==> IsLineKey(keys[i])
    requires BACKSPACE !in after
    requires Trace(s, es, t) == [OwnReadBlocks] + OwnKeys(keys + [ENTER_KEY] + after)
    ensures LineFits(Run(s, es).info[t]) && Run(s, es).info[t].enterFlag
    ensures Delivered(Run(s, es).info[t], nbytes) == Truncated(Line(keys), nbytes)
  {
    var all := keys + [ENTER_KEY] + after;
    KeysAreReceived(s, es, t, all, nbytes);
    EnterEndsLine(keys, after, nbytes);
    assert OwnKeys(all)[|keys|] == OwnKey(ENTER_KEY);
    ReadEndsWithEnter(s, es, t, OwnKeys(all));
  }

  // ----- The screen as a transcript, through the multiplexer -----

  /** The text a terminal has shown since it was last cleared, if only appending has happened since. */
  type Text = Option<seq<Byte>>

  function Extend(text: Text, s: seq<Byte>): Text {
    match text
    case None => None
    case Some(t) => Some(t + s)
  }

  /** Output, accepted keys and Enter append; a launch and Ctrl-L start afresh, Ctrl-L with the pending
      line; an erasing backspace leaves no transcript until the next fresh start. */
  function TextAfter(c: Console, o: OwnEvent, text: Text): Text
    requires HasBuffer(c) && OwnEnabled(c, o)
  {
    match o
    case OwnOutput(bytes) => Extend(text, NonNul(bytes))
    case OwnKey(r) =>
      if r == CTL_L_CMD then Some(Pending(c))
      else if !IsEdit(c, r) then text
      else if r == BACKSPACE then (if c.info.bufferSize == 0 then text else None)
      else if r == ENTER_KEY then Extend(text, [NEWLINE])
      else if c.info.bufferSize == LINE_MAX then text
      else Extend(text, [r])
    case OwnLaunch => Some([])
    case OwnReadBlocks => text
    case OwnReadReturns(_) => text
  }

  ghost function TextOf(c: Console, os: seq<OwnEvent>, text: Text): Text
    requires HasBuffer(c) && CanRunAlone(c, os)
    decreases os
  {
    if os == [] then text else TextOf(Alone(c, os[0]), os[1..], TextAfter(c, os[0], text))
  }

  ghost predicate ShowsText(c: Console, text: Text) {
    text.Some? ==> Shows(c, Rows(text.value))
  }

  /** The line discipline's fields are not on the screen. */
  lemma SameScreen(c: Console, d: Console, text: Text)
    requires ShowsText(c, text) && d.page == c.page
    requires d.info.screenX == c.info.screenX && d.info.screenY == c.info.screenY
    requires d.info.attribute == c.info.attribute
    ensures ShowsText(d, text)
  {
    if text.Some? {
      forall k | 0 <= k < CELLS
        ensures CharAt(d, k) == CharAt(c, k) && AttrAt(d, k) == AttrAt(c, k)
      {
      }
    }
  }

  lemma AcceptShows(c: Console, r: Byte, text: Text)
    requires HasBuffer(c) && c.info.bufferSize < MAX_BUF_SIZE && ShowsText(c, text)
    ensures ShowsText(Accept(c, r), Extend(text, [r]))
  {
    if text.Some? {
      PrintingShows(c, text.value, [r]);
      assert PutAll(c, [r]) == Put(c, r) by {
        assert [r][..0] == [];
      }
    }
    SameScreen(Put(c, r), Accept(c, r), Extend(text, [r]));
  }

  lemma KeyShows(c: Console, r: Byte, text: Text)
    requires HasBuffer(c) && InBounds(c, r) && !IsBreak(r) && ShowsText(c, text)
    ensures ShowsText(Edit(c, r), TextAfter(c, OwnKey(r), text))
  {
    var n := c.info.bufferSize;
    if r == CTL_L_CMD {
      ScreenIsWindow(c, Pending(c));
    } else if !IsEdit(c, r) {
    } else if r == BACKSPACE {
      if n == 0 {
        SameScreen(c, Edit(c, r), text);
      }
    } else if r == ENTER_KEY {
      AcceptShows(c, NEWLINE, text);
      SameScreen(Accept(c, NEWLINE), Edit(c, r), Extend(text, [NEWLINE]));
    } else if n != LINE_MAX {
      AcceptShows(c, r, text);
    }
  }

  lemma OwnEventShows(c: Console, o: OwnEvent, text: Text)
    requires HasBuffer(c) && OwnEnabled(c, o) && ShowsText(c, text)
    ensures ShowsText(Alone(c, o), TextAfter(c, o, text))
  {
    match o
    case OwnOutput(bytes) =>
      if text.Some? {
        PrintingShows(c, text.value, NonNul(bytes));
      }
    case OwnKey(r) => KeyShows(c, r, text);
    case OwnLaunch =>
      ClearShows(c);
      SameScreen(Clear(c), Alone(c, o), Some([]));
    case OwnReadBlocks => SameScreen(c, Alone(c, o), text);
    case OwnReadReturns(_) => SameScreen(c, Alone(c, o), text);
  }

  lemma {:induction false} RunAloneShows(c: Console, os: seq<OwnEvent>, text: Text)
    requires HasBuffer(c) && CanRunAlone(c, os) && ShowsText(c, text)
    ensures ShowsText(RunAlone(c, os), TextOf(c, os, text))
    decreases os
  {
    if os != [] {
      OwnEventShows(c, os[0], text);
      RunAloneShows(Alone(c, os[0]), os[1..], TextAfter(c, os[0], text));
    }
  }

  /** In any interleaving: a terminal shows the last 25 rows of the text it has printed and echoed since
      its last clear, whenever no backspace has erased since. */
  lemma ScreenIsOwnText(s: State, es: seq<Event>, t: int, text: Text)
    requires Shape(s) && !s.displayOnMainPage && CanRun(s, es) && IsTerminal(t)
    requires ShowsText(Project(s, t), text)
    ensures CanRunAlone(Project(s, t), Trace(s, es, t))
    ensures ShowsText(Project(Run(s, es), t), TextOf(Project(s, t), Trace(s, es, t), text))
  {
    MultiplexedIsAlone(s, es, t);
    RunAloneShows(Project(s, t), Trace(s, es, t), text);
  }

  /** From boot, whose last act before the first shell is to clear terminal 0, this holds of every
      terminal; the others start their transcripts when they are launched. */
  lemma ReachableShowsText(s: State, es: seq<Event>, t: int)
    requires Booted(s) && IsTerminal(t) && CanRun(ClearScreen(s), es)
    ensures var (r, text) := (ClearScreen(s), if t == 0 then Some([]) else None);
      && CanRunAlone(Project(r, t), Trace(r, es, t))
      && ShowsText(Project(Run(r, es), t), TextOf(Project(r, t), Trace(r, es, t), text))
  {
    var r := ClearScreen(s);
    if t == 0 {
      ClearShows(Project(s, 0));
      assert Project(r, 0) == Project(SetConsole(s, 0, Clear(Project(s, 0))), 0);
    }
    ScreenIsOwnText(r, es, t, if t == 0 then Some([]) else None);
  }
}
