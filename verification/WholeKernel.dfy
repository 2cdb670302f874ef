/** Consoles and processes together. Modules Multiplex and ProcessRuns each follow one half of the kernel;
    here a process is inside `terminal_read` or it is not, one event moves both halves, and that a waiting
    terminal's process is silent is a consequence. */
module WholeKernel {
  import opened Bytes
  import opened Limits
  import opened Descriptors
  import opened Console
  import opened LineDiscipline
  import opened CallStacks
  import M = Multiplex
  import P = Processes
  import R = ProcessRuns

  /** `reading[p]`: process p has called `terminal_read` and not returned from it. */
  datatype State = State(tables: P.Kernel, consoles: M.State, reading: seq<bool>)

  datatype Call =
    | Write(bytes: seq<Byte>)
    | Read
    | ReadReturn(nbytes: int)
    | Execute(f: P.Frame, program: Option<int>)
    | Halt(status: Byte)
    | Open(entry: Option<P.Entry>)
    | Close(fd: int)
    | FileRead(fd: int, nbytes: int)

  datatype Event =
    | ByProcess(call: Call)
    | Key(r: Byte)
    | Tick(f: P.Frame, shell: Option<int>)
    | Switch(t: int)

  /** The part of an event that each half sees. */
  function TablesEvent(e: Event): Option<R.Event> {
    match e
    case ByProcess(Execute(f, program)) => Some(R.ExecuteCall(f, program))
    case ByProcess(Halt(status)) => Some(R.HaltCall(status))
    case ByProcess(Open(entry)) => Some(R.OpenCall(entry))
    case ByProcess(Close(fd)) => Some(R.CloseCall(fd))
    case ByProcess(FileRead(fd, nbytes)) => Some(R.ReadCall(fd, nbytes))
    case Tick(f, shell) => Some(R.Tick(f, shell))
    case Switch(t) => Some(R.SwitchScreen(t))
    case _ => None
  }

  function ConsoleEvent(e: Event): Option<M.Event> {
    match e
    case ByProcess(Write(bytes)) => Some(M.Output(bytes))
    case ByProcess(Read) => Some(M.ReadBlocks)
    case ByProcess(ReadReturn(nbytes)) => Some(M.ReadReturns(nbytes))
    case Key(r) => Some(M.Key(r))
    case Tick(_, _) => Some(M.SchedulerTick)
    case Switch(t) => Some(M.Switch(t))
    case _ => None
  }

  /** The process that runs: the leaf of the scheduled terminal. */
  function Runner(k: P.Kernel): int
    requires P.Shape(k)
  {
    k.terms[k.curr].pid
  }

  ghost predicate CanStep(s: State, e: Event) {
    && |s.reading| == P.NUM_PROCESSES
    && P.CanHalt(s.tables)
    && M.Shape(s.consoles) && !s.consoles.displayOnMainPage
    && (TablesEvent(e).Some? ==> R.EventShape(TablesEvent(e).value))
    && (ConsoleEvent(e).Some? ==> M.Enabled(s.consoles, ConsoleEvent(e).value))
  }

  function TablesAfter(k: P.Kernel, e: Event): (P.Kernel, Option<P.Outcome>)
    requires P.CanHalt(k) && (TablesEvent(e).Some? ==> R.EventShape(TablesEvent(e).value))
  {
    match TablesEvent(e)
    case None => (k, None)
    case Some(t) => R.Step(k, t)
  }

  function ConsolesAfter(c: M.State, e: Event): M.State
    requires M.Shape(c) && !c.displayOnMainPage
    requires ConsoleEvent(e).Some? ==> M.Enabled(c, ConsoleEvent(e).value)
  {
    match ConsoleEvent(e)
    case None => c
    case Some(t) => M.Step(c, t)
  }

  /** A read begins and ends with the process that makes it; a new process is not in one. */
  function ReadingAfter(reading: seq<bool>, runner: int, e: Event, outcome: Option<P.Outcome>): seq<bool>
    requires |reading| == P.NUM_PROCESSES && P.IsPid(runner)
  {
    if e == ByProcess(Read) then reading[runner := true]
    else if e.ByProcess? && e.call.ReadReturn? then reading[runner := false]
    else if outcome.Some? && outcome.value.Entered? && P.IsPid(outcome.value.pid) then
      reading[outcome.value.pid := false]
    else reading
  }

  function Step(s: State, e: Event): State
    requires CanStep(s, e)
  {
    var tables := TablesAfter(s.tables, e);
    State(tables.0, ConsolesAfter(s.consoles, e), ReadingAfter(s.reading, Runner(s.tables), e, tables.1))
  }

  // ----- The two halves agree -----

  /** Terminal and call stack: the terminal waits exactly while its leaf process is in a read, and no
      suspended caller is in one. */
  ghost predicate Agrees(info: TerminalInfo, reading: seq<bool>, st: seq<Activation>)
    requires |reading| == P.NUM_PROCESSES && Simple(st)
  {
    && (info.started <==> st != [])
    && (info.waitingInRead <==> st != [] && reading[st[0].pid])
    && forall i :: 1 <= i < |st| ==> !reading[st[i].pid]
  }

  ghost predicate Together(s: State, m: Machine) {
    && Simulates(s.tables, m)
    && M.Shape(s.consoles) && !s.consoles.displayOnMainPage
    && s.consoles.curr == m.curr && s.consoles.screen == m.screen
    && |s.reading| == P.NUM_PROCESSES
    && forall t :: IsTerminal(t) ==> Agrees(s.consoles.info[t], s.reading, m.stacks[t])
  }

  /** A process inside a read does nothing but return from it, once Enter has been pressed; what else can
      happen is as in the two halves. Of the consoles, nothing is assumed but that keys stay in bounds. */
  ghost predicate Allowed(s: State, m: Machine, e: Event)
    requires Together(s, m)
  {
    && P.CanHalt(s.tables)
    && (TablesEvent(e).Some? ==> R.Allowed(m, TablesEvent(e).value))
    && match e
       case ByProcess(ReadReturn(n)) => s.reading[Runner(s.tables)] && s.consoles.info[m.curr].enterFlag && 1 <= n
       case ByProcess(_) => !s.reading[Runner(s.tables)]
       case Key(r) => InBounds(M.Project(s.consoles, m.screen), r) && !IsBreak(r)
       case _ => true
  }

  function MachineAfter(m: Machine, e: Event): Machine
    requires |m.stacks| == MAX_TERMINALS && IsTerminal(m.curr) && m.stacks[m.curr] != []
  {
    match TablesEvent(e)
    case None => m
    case Some(t) => R.MachineStep(m, t).0
  }

  lemma RunnerIsLeaf(s: State, m: Machine)
    requires Together(s, m)
    ensures P.CanHalt(s.tables) && P.IsPid(Runner(s.tables))
    ensures Runner(s.tables) == m.stacks[m.curr][0].pid
    ensures s.reading[Runner(s.tables)] <==> s.consoles.info[m.curr].waitingInRead
    ensures s.consoles.info[m.curr].started
  {
    R.CurrentFdsOk(s.tables, m);
    assert Chained(s.tables, m.curr, m.stacks[m.curr], true);
    assert Agrees(s.consoles.info[m.curr], s.reading, m.stacks[m.curr]);
  }

  /** While a terminal waits its process is silent: what the consoles presuppose of output and of a new read,
      that the scheduled terminal is started and does not wait, is that its process is not inside a read. */
  lemma WaitingIsSilent(s: State, m: Machine, bytes: seq<Byte>)
    requires Together(s, m)
    ensures P.CanHalt(s.tables) && P.IsPid(Runner(s.tables))
    ensures M.Enabled(s.consoles, M.Output(bytes)) <==> !s.reading[Runner(s.tables)]
    ensures M.Enabled(s.consoles, M.ReadBlocks) <==> !s.reading[Runner(s.tables)]
  {
    RunnerIsLeaf(s, m);
  }

  lemma ConsolesReady(c: M.State, e: Event, reading: bool)
    requires M.Shape(c) && c.info[c.curr].started && (reading <==> c.info[c.curr].waitingInRead)
    requires e.ByProcess? ==> (reading <==> e.call.ReadReturn?)
    requires e.ByProcess? && e.call.ReadReturn? ==> c.info[c.curr].enterFlag && 1 <= e.call.nbytes
    requires e.Key? ==> InBounds(M.Project(c, c.screen), e.r) && !IsBreak(e.r)
    requires e.Switch? ==> IsTerminal(e.t)
    ensures ConsoleEvent(e).Some? ==> M.Enabled(c, ConsoleEvent(e).value)
  {
  }

  lemma AllowedCanStep(s: State, m: Machine, e: Event)
    requires Together(s, m) && Allowed(s, m, e)
    ensures CanStep(s, e)
  {
    RunnerIsLeaf(s, m);
    ConsolesReady(s.consoles, e, s.reading[Runner(s.tables)]);
  }

  lemma EditKeepsFlags(c: Console, r: Byte)
    requires HasBuffer(c) && InBounds(c, r)
    ensures Edit(c, r).info.started == c.info.started && Edit(c, r).info.waitingInRead == c.info.waitingInRead
  {
  }

  /** Which flags of a terminal an event changes. */
  ghost predicate FlagsMove(was: TerminalInfo, now: TerminalInfo, curr: int, e: Event, t: int) {
    && now.started == (was.started || (e.Tick? && t == (curr + 1) % MAX_TERMINALS))
    && now.waitingInRead == if t == curr && IsRead(e) then e.call.Read? else was.waitingInRead
  }

  predicate IsRead(e: Event) {
    e.ByProcess? && (e.call.Read? || e.call.ReadReturn?)
  }

  lemma AloneFlags(c: Console, o: M.OwnEvent)
    requires HasBuffer(c) && M.OwnEnabled(c, o)
    ensures M.Alone(c, o).info.started == (c.info.started || o.OwnLaunch?)
    ensures M.Alone(c, o).info.waitingInRead ==
            if o.OwnReadBlocks? || o.OwnReadReturns? then o.OwnReadBlocks? else c.info.waitingInRead
  {
    if o.OwnKey? {
      EditKeepsFlags(c, o.r);
    }
  }

  lemma ShareFlags(c: M.State, e: Event, ce: M.Event, t: int, was: TerminalInfo, now: TerminalInfo)
    requires M.Shape(c) && ConsoleEvent(e) == Some(ce) && IsTerminal(t) && was == c.info[t]
    requires var share := M.Share(c, ce, t);
      if share == [] then now == was
      else
        && now.started == (was.started || share[0].OwnLaunch?)
        && now.waitingInRead ==
           if share[0].OwnReadBlocks? || share[0].OwnReadReturns? then share[0].OwnReadBlocks? else was.waitingInRead
    ensures FlagsMove(was, now, c.curr, e, t)
  {
  }

  lemma ConsoleFlags(c: M.State, e: Event, ce: M.Event, t: int)
    requires M.Shape(c) && !c.displayOnMainPage && M.Enabled(c, ce) && ConsoleEvent(e) == Some(ce) && IsTerminal(t)
    ensures FlagsMove(c.info[t], M.Step(c, ce).info[t], c.curr, e, t)
  {
    var was := M.Project(c, t);
    M.StepIsShare(c, ce, t);
    assert HasBuffer(was) && M.Project(M.Step(c, ce), t).info == M.Step(c, ce).info[t];
    if M.Share(c, ce, t) != [] {
      AloneFlags(was, M.Share(c, ce, t)[0]);
    }
    ShareFlags(c, e, ce, t, was.info, M.Step(c, ce).info[t]);
  }

  lemma StepWhere(c: M.State, ce: M.Event)
    requires M.Shape(c) && !c.displayOnMainPage && M.Enabled(c, ce)
    ensures M.Step(c, ce).curr == if ce.SchedulerTick? then M.NextTerminal(c) else c.curr
    ensures M.Step(c, ce).screen == if ce.Switch? then ce.t else c.screen
  {
    match ce
    case Output(bytes) => assert M.Step(c, ce) == M.WriteAll(c, bytes);
    case _ =>
  }

  lemma ConsoleWhere(c: M.State, e: Event, ce: M.Event)
    requires M.Shape(c) && !c.displayOnMainPage && M.Enabled(c, ce) && ConsoleEvent(e) == Some(ce)
    ensures M.Step(c, ce).curr == if e.Tick? then (c.curr + 1) % MAX_TERMINALS else c.curr
    ensures M.Step(c, ce).screen == if e.Switch? then e.t else c.screen
  {
    StepWhere(c, ce);
    assert ce.SchedulerTick? <==> e.Tick?;
    assert ce.Switch? <==> e.Switch?;
  }

  ghost predicate ConsolesCan(c: M.State, e: Event) {
    && M.Shape(c) && !c.displayOnMainPage
    && (ConsoleEvent(e).Some? ==> M.Enabled(c, ConsoleEvent(e).value))
  }

  /** The consoles half of a step. */
  ghost predicate Follows(c: M.State, r: M.State, e: Event) {
    && M.Shape(c) && M.Shape(r) && !r.displayOnMainPage
    && r.curr == (if e.Tick? then (c.curr + 1) % MAX_TERMINALS else c.curr)
    && r.screen == (if e.Switch? then e.t else c.screen)
    && forall t :: IsTerminal(t) ==> FlagsMove(c.info[t], r.info[t], c.curr, e, t)
  }

  lemma ConsolesFollow(c: M.State, e: Event)
    requires ConsolesCan(c, e)
    ensures Follows(c, ConsolesAfter(c, e), e)
  {
    match ConsoleEvent(e)
    case None =>
    case Some(ce) =>
      ConsoleWhere(c, e, ce);
      forall t | IsTerminal(t)
        ensures FlagsMove(c.info[t], M.Step(c, ce).info[t], c.curr, e, t)
      {
        ConsoleFlags(c, e, ce, t);
      }
  }

  /** What a step does to one call stack: a push or launch, a pop, or at most a new saved frame. */
  ghost predicate Pushed(m: Machine, e: R.Event, t: int)
    requires Sane(m) && IsTerminal(t)
  {
    var (n, outcome) := R.MachineStep(m, e);
    && outcome.Some? && outcome.value.Entered? && t == n.curr
    && |n.stacks[t]| == |m.stacks[t]| + 1 && n.stacks[t][0].pid == outcome.value.pid
    && P.IsPid(outcome.value.pid) && !Live(m, outcome.value.pid)
    && (e.Tick? ==> m.stacks[t] == [])
    && forall i :: 1 <= i < |n.stacks[t]| ==> n.stacks[t][i].pid == m.stacks[t][i - 1].pid
  }

  ghost predicate Popped(m: Machine, e: R.Event, t: int)
    requires Sane(m) && IsTerminal(t)
  {
    e.HaltCall? && t == m.curr && 1 < |m.stacks[t]| && MachineStack(m, e, t) == m.stacks[t][1..]
  }

  ghost predicate Kept(m: Machine, e: R.Event, t: int)
    requires Sane(m) && IsTerminal(t)
  {
    && SamePids(m.stacks[t], MachineStack(m, e, t))
    && (e.Tick? && t == R.MachineStep(m, e).0.curr ==> m.stacks[t] != [])
  }

  ghost predicate SamePids(s: seq<Activation>, t: seq<Activation>) {
    |s| == |t| && forall i :: 0 <= i < |s| ==> s[i].pid == t[i].pid
  }

  lemma TickStack(m: Machine, e: R.Event, t: int)
    requires Sane(m) && R.Allowed(m, e) && IsTerminal(t) && e.Tick?
    ensures Pushed(m, e, t) || Kept(m, e, t)
  {
    var paused := SetStack(m, m.curr, Suspend(m.stacks[m.curr], e.f)).(curr := (m.curr + 1) % MAX_TERMINALS);
    SuspendSane(m, e.f);
    R.FreePidMeans(paused, 0);
    FreePidMoved(paused, m.curr, 0);
  }

  lemma StackAfter(m: Machine, e: R.Event, t: int)
    requires Sane(m) && R.Allowed(m, e) && IsTerminal(t)
    ensures Pushed(m, e, t) || Popped(m, e, t) || Kept(m, e, t)
  {
    if e.Tick? {
      TickStack(m, e, t);
    } else if e.ExecuteCall? {
      R.FreePidMeans(m, 0);
    }
  }

  function MachineStack(m: Machine, e: R.Event, t: int): seq<Activation>
    requires |m.stacks| == MAX_TERMINALS && IsTerminal(m.curr) && m.stacks[m.curr] != [] && IsTerminal(t)
  {
    R.MachineStep(m, e).0.stacks[t]
  }

  lemma NotOnOther(m: Machine, t: int, u: int, i: int, j: int)
    requires Sane(m) && IsTerminal(t) && IsTerminal(u) && 0 <= i < |m.stacks[t]| && 0 <= j < |m.stacks[u]|
    ensures m.stacks[t][i].pid == m.stacks[u][j].pid <==> t == u && i == j
  {
    if t != u {
      assert Apart(m.stacks[t], m.stacks[u]);
      assert OnStack(m.stacks[t], m.stacks[t][i].pid) && OnStack(m.stacks[u], m.stacks[u][j].pid);
    }
  }

  lemma StackIsLive(m: Machine, t: int, i: int)
    requires Sane(m) && IsTerminal(t) && 0 <= i < |m.stacks[t]|
    ensures P.IsPid(m.stacks[t][i].pid) && Live(m, m.stacks[t][i].pid)
  {
    assert OnStack(m.stacks[t], m.stacks[t][i].pid);
  }

  /** Events that leave the tables alone. */
  lemma ConsoleStepAgrees(m: Machine, e: Event, t: int, info: TerminalInfo, now: TerminalInfo, reading: seq<bool>)
    requires Sane(m) && TablesEvent(e).None? && IsTerminal(t)
    requires |reading| == P.NUM_PROCESSES && Agrees(info, reading, m.stacks[t])
    requires FlagsMove(info, now, m.curr, e, t)
    ensures Agrees(now, ReadingAfter(reading, m.stacks[m.curr][0].pid, e, None), m.stacks[t])
  {
    forall i | 0 <= i < |m.stacks[t]|
      ensures ReadingAfter(reading, m.stacks[m.curr][0].pid, e, None)[m.stacks[t][i].pid] ==
        if t == m.curr && i == 0 && IsRead(e) then e.call.Read? else reading[m.stacks[t][i].pid]
    {
      NotOnOther(m, t, m.curr, i, 0);
    }
  }

  ghost predicate SameReading(reading: seq<bool>, now: seq<bool>, st: seq<Activation>)
    requires |reading| == |now| == P.NUM_PROCESSES && Simple(st)
  {
    forall i :: 0 <= i < |st| ==> now[st[i].pid] == reading[st[i].pid]
  }

  lemma KeptAgrees(info: TerminalInfo, now: TerminalInfo, r: seq<bool>, q: seq<bool>,
        st: seq<Activation>, next: seq<Activation>)
    requires |r| == |q| == P.NUM_PROCESSES && Simple(st) && Simple(next)
    requires Agrees(info, r, st) && SameReading(r, q, st) && SamePids(st, next)
    requires now.started == info.started && now.waitingInRead == info.waitingInRead
    ensures Agrees(now, q, next)
  {
  }

  lemma PushedAgrees(info: TerminalInfo, now: TerminalInfo, r: seq<bool>, q: seq<bool>,
        st: seq<Activation>, next: seq<Activation>)
    requires |r| == |q| == P.NUM_PROCESSES && Simple(st) && Simple(next)
    requires Agrees(info, r, st) && SameReading(r, q, st)
    requires |next| == |st| + 1 && !q[next[0].pid]
    requires forall i :: 1 <= i < |next| ==> next[i].pid == st[i - 1].pid
    requires now.started && !info.waitingInRead && !now.waitingInRead
    ensures Agrees(now, q, next)
  {
  }

  lemma PoppedAgrees(info: TerminalInfo, now: TerminalInfo, r: seq<bool>, q: seq<bool>, st: seq<Activation>)
    requires |r| == |q| == P.NUM_PROCESSES && Simple(st) && 1 < |st| && Simple(st[1..])
    requires Agrees(info, r, st) && SameReading(r, q, st)
    requires now.started == info.started && !now.waitingInRead
    ensures Agrees(now, q, st[1..])
  {
    assert st[1..][0] == st[1];
  }

  lemma EnteredIsNew(m: Machine, e: R.Event)
    requires Sane(m) && R.Allowed(m, e)
    ensures var outcome := R.MachineStep(m, e).1;
      outcome.Some? && outcome.value.Entered? ==> P.IsPid(outcome.value.pid) && !Live(m, outcome.value.pid)
  {
    StackAfter(m, e, R.MachineStep(m, e).0.curr);
  }

  /** A process that has just been entered is not on any stack yet, so no other reading mark changes. */
  lemma ReadingKept(m: Machine, e: Event, te: R.Event, t: int, reading: seq<bool>, runner: int)
    requires Sane(m) && R.Allowed(m, te) && TablesEvent(e) == Some(te) && IsTerminal(t)
    requires |reading| == P.NUM_PROCESSES && P.IsPid(runner)
    ensures var q := ReadingAfter(reading, runner, e, R.MachineStep(m, te).1);
      && |q| == P.NUM_PROCESSES
      && SameReading(reading, q, m.stacks[t])
      && (Pushed(m, te, t) ==> !q[R.MachineStep(m, te).1.value.pid])
  {
    var st := m.stacks[t];
    EnteredIsNew(m, te);
    forall i | 0 <= i < |st|
      ensures ReadingAfter(reading, runner, e, R.MachineStep(m, te).1)[st[i].pid] == reading[st[i].pid]
    {
      StackIsLive(m, t, i);
    }
  }

  /** The caller of execute or halt is not in a read, nor is a terminal that has no process yet. */
  lemma MoverIsNotWaiting(m: Machine, te: R.Event, t: int, info: TerminalInfo, reading: seq<bool>)
    requires Sane(m) && IsTerminal(t) && |reading| == P.NUM_PROCESSES
    requires Agrees(info, reading, m.stacks[t])
    requires te.ExecuteCall? || te.HaltCall? ==> !reading[m.stacks[m.curr][0].pid]
    requires Pushed(m, te, t) || Popped(m, te, t)
    ensures !info.waitingInRead
  {
  }

  /** Events that move the tables, one terminal at a time. */
  lemma TablesStepAgrees(m: Machine, e: Event, te: R.Event, t: int, info: TerminalInfo, now: TerminalInfo,
                         reading: seq<bool>)
    requires Sane(m) && R.Allowed(m, te) && TablesEvent(e) == Some(te) && IsTerminal(t)
    requires Sane(R.MachineStep(m, te).0)
    requires |reading| == P.NUM_PROCESSES && Agrees(info, reading, m.stacks[t])
    requires te.ExecuteCall? || te.HaltCall? ==> !reading[m.stacks[m.curr][0].pid]
    requires FlagsMove(info, now, m.curr, e, t)
    ensures Agrees(now, ReadingAfter(reading, m.stacks[m.curr][0].pid, e, R.MachineStep(m, te).1),
                   MachineStack(m, te, t))
  {
    var runner := m.stacks[m.curr][0].pid;
    var q, st, next := ReadingAfter(reading, runner, e, R.MachineStep(m, te).1), m.stacks[t], MachineStack(m, te, t);
    MachineWhere(m, e);
    assert |q| == P.NUM_PROCESSES && SameReading(reading, q, st) && (Pushed(m, te, t) ==> !q[next[0].pid]) by {
      ReadingKept(m, e, te, t, reading, runner);
    }
    StackAfter(m, te, t);
    if Pushed(m, te, t) {
      MoverIsNotWaiting(m, te, t, info, reading);
      assert now.started by {
        StartedAfterPush(m, te, t, info, reading);
      }
      PushedAgrees(info, now, reading, q, st, next);
    } else if Popped(m, te, t) {
      MoverIsNotWaiting(m, te, t, info, reading);
      PoppedAgrees(info, now, reading, q, st);
    } else {
      KeptAgrees(info, now, reading, q, st, next);
    }
  }

  lemma StartedAfterPush(m: Machine, te: R.Event, t: int, info: TerminalInfo, reading: seq<bool>)
    requires Sane(m) && IsTerminal(t) && |reading| == P.NUM_PROCESSES && Agrees(info, reading, m.stacks[t])
    requires Pushed(m, te, t)
    ensures info.started || (te.Tick? && t == R.MachineStep(m, te).0.curr)
  {
  }

  /** The halves put together again. */
  lemma Reassembled(s: State, m: Machine, e: Event, r: State, n: Machine)
    requires Together(s, m) && Allowed(s, m, e)
    requires n == MachineAfter(m, e) && Simulates(r.tables, n) && Follows(s.consoles, r.consoles, e)
    requires r.reading == ReadingAfter(s.reading, m.stacks[m.curr][0].pid, e,
               if TablesEvent(e).Some? then R.MachineStep(m, TablesEvent(e).value).1 else None)
    ensures Together(r, n)
  {
    RunnerIsLeaf(s, m);
    MachineWhere(m, e);
    forall t | IsTerminal(t)
      ensures Agrees(r.consoles.info[t], r.reading, n.stacks[t])
    {
      if TablesEvent(e).Some? {
        TablesStepAgrees(m, e, TablesEvent(e).value, t, s.consoles.info[t], r.consoles.info[t], s.reading);
      } else {
        ConsoleStepAgrees(m, e, t, s.consoles.info[t], r.consoles.info[t], s.reading);
      }
    }
  }

  /** One step of the whole kernel is a step of each half; what each half presupposes is met. */
  lemma StepTogether(s: State, m: Machine, e: Event)
    requires Together(s, m) && Allowed(s, m, e)
    ensures CanStep(s, e)
    ensures Together(Step(s, e), MachineAfter(m, e))
  {
    AllowedCanStep(s, m, e);
    TablesTogether(s.tables, m, e);
    ConsolesFollow(s.consoles, e);
    RunnerIsLeaf(s, m);
    Reassembled(s, m, e, Step(s, e), MachineAfter(m, e));
  }

  lemma TablesTogether(k: P.Kernel, m: Machine, e: Event)
    requires Simulates(k, m) && (TablesEvent(e).Some? ==> R.Allowed(m, TablesEvent(e).value))
    ensures P.CanHalt(k)
    ensures Simulates(TablesAfter(k, e).0, MachineAfter(m, e))
    ensures TablesAfter(k, e).1 == if TablesEvent(e).Some? then R.MachineStep(m, TablesEvent(e).value).1 else None
  {
    R.CurrentFdsOk(k, m);
    if TablesEvent(e).Some? {
      R.StepSimulates(k, m, TablesEvent(e).value);
    }
  }

  lemma MachineWhere(m: Machine, e: Event)
    requires Sane(m)
    ensures MachineAfter(m, e).curr == if e.Tick? then (m.curr + 1) % MAX_TERMINALS else m.curr
    ensures MachineAfter(m, e).screen == if e.Switch? then e.t else m.screen
  {
  }

  // ----- Whole runs -----

  ghost predicate AllAllowed(s: State, m: Machine, es: seq<Event>)
    requires Together(s, m)
    decreases es
  {
    es == [] ||
      (Allowed(s, m, es[0]) &&
       (StepTogether(s, m, es[0]); AllAllowed(Step(s, es[0]), MachineAfter(m, es[0]), es[1..])))
  }

  ghost function Run(s: State, m: Machine, es: seq<Event>): (r: (State, Machine))
    requires Together(s, m) && AllAllowed(s, m, es)
    ensures Together(r.0, r.1)
    decreases es
  {
    if es == [] then (s, m)
    else
      StepTogether(s, m, es[0]);
      Run(Step(s, es[0]), MachineAfter(m, es[0]), es[1..])
  }

  function ConsoleEvents(es: seq<Event>): seq<M.Event> {
    if es == [] then []
    else (if ConsoleEvent(es[0]).Some? then [ConsoleEvent(es[0]).value] else []) + ConsoleEvents(es[1..])
  }

  function TablesEvents(es: seq<Event>): seq<R.Event> {
    if es == [] then []
    else (if TablesEvent(es[0]).Some? then [TablesEvent(es[0]).value] else []) + TablesEvents(es[1..])
  }

  /** Over every run of the whole kernel, the consoles do a run of Multiplex and the tables one of
      ProcessRuns: all that is proved there of runs holds of them at once. */
  lemma {:induction false} RunIsBoth(s: State, m: Machine, es: seq<Event>)
    requires Together(s, m) && AllAllowed(s, m, es)
    ensures M.CanRun(s.consoles, ConsoleEvents(es))
    ensures M.Run(s.consoles, ConsoleEvents(es)) == Run(s, m, es).0.consoles
    ensures R.AllAllowed(m, TablesEvents(es)) && R.Runs(s.tables, TablesEvents(es))
    ensures R.Run(s.tables, TablesEvents(es)).0 == Run(s, m, es).0.tables
    ensures R.MachineRun(m, TablesEvents(es)).0 == Run(s, m, es).1
    decreases es
  {
    if es != [] {
      var e, rest := es[0], es[1..];
      StepTogether(s, m, e);
      RunIsBoth(Step(s, e), MachineAfter(m, e), rest);
      if ConsoleEvent(e).Some? {
        assert ConsoleEvents(es)[1..] == ConsoleEvents(rest);
      } else {
        assert ConsoleEvents(es) == ConsoleEvents(rest);
      }
      if TablesEvent(e).Some? {
        assert TablesEvents(es)[1..] == TablesEvents(rest);
      } else {
        assert TablesEvents(es) == TablesEvents(rest);
      }
    }
  }

  ghost predicate Booted(s: State) {
    && R.Booted(s.tables) && M.Booted(s.consoles)
    && s.reading == seq(P.NUM_PROCESSES, _ => false)
  }

  function OneShell(f: P.Frame, shell: int): Machine {
    Machine([[Activation(0, shell, f)], [], []], 0, 0)
  }

  /** The kernel once it has cleared the screen and executed the first shell. */
  ghost function FirstShell(s: State, f: P.Frame, shell: int): (r: State)
    requires Booted(s)
    ensures M.Booted(r.consoles) && Together(r, OneShell(f, shell))
  {
    BootTogether(s, f, shell);
    State(P.Execute(s.tables, f, Some(shell)).0, M.ClearScreen(s.consoles), s.reading)
  }

  lemma BootTogether(s: State, f: P.Frame, shell: int)
    requires Booted(s)
    ensures M.Booted(M.ClearScreen(s.consoles))
    ensures Together(State(P.Execute(s.tables, f, Some(shell)).0, M.ClearScreen(s.consoles), s.reading),
                     OneShell(f, shell))
  {
    R.BootSimulates(s.tables, f, shell);
    var w := M.SetConsole(s.consoles, 0, Clear(M.Project(s.consoles, 0)));
    assert M.ClearScreen(s.consoles) == w;
    forall t | IsTerminal(t)
      ensures w.info[t] == if t == 0 then Clear(M.Project(s.consoles, 0)).info else s.consoles.info[t]
    {
      assert M.Project(w, t).info == w.info[t];
    }
  }

  /** In every state the whole kernel can reach: the screen spells each terminal's pending line, the tables
      are three call stacks, and a terminal waits exactly while its leaf process is in a read. */
  lemma ReachableIsSound(s: State, f: P.Frame, shell: int, es: seq<Event>, t: int)
    requires Booted(s) && IsTerminal(t) && AllAllowed(FirstShell(s, f, shell), OneShell(f, shell), es)
    ensures var (r, m) := Run(FirstShell(s, f, shell), OneShell(f, shell), es);
      Together(r, m) && M.SoundConsole(M.Project(r.consoles, t))
  {
    var r := FirstShell(s, f, shell);
    RunIsBoth(r, OneShell(f, shell), es);
    M.ReachableIsSound(r.consoles, ConsoleEvents(es), t);
  }
}
