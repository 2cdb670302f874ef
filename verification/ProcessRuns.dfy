/** Whole runs of the process tables: any nesting of executes and halts on three terminals, in any
    interleaving with ticks, screen switches and descriptor calls. */
module ProcessRuns {
  import opened Bytes
  import opened Limits
  import opened Descriptors
  import opened Processes
  import opened CallStacks

  datatype Event =
    | ExecuteCall(f: Frame, program: Option<int>)
    | HaltCall(status: Byte)
    | Tick(f: Frame, shell: Option<int>)
    | SwitchScreen(t: int)
    | OpenCall(entry: Option<Entry>)
    | CloseCall(fd: int)
    | ReadCall(fd: int, nbytes: int)

  /** A step of the process tables; descriptor calls and screen switches have no outcome of their own. */
  function Step(k: Kernel, e: Event): (Kernel, Option<Outcome>)
    requires CanHalt(k) && EventShape(e)
  {
    match e
    case ExecuteCall(f, program) => var r := Execute(k, f, program); (r.0, Some(r.1))
    case HaltCall(status) => var r := Halt(k, status); (r.0, Some(r.1))
    case Tick(f, shell) => var r := Schedule(k, f, shell); (r.0, Some(r.1))
    case SwitchScreen(t) => (k.(screen := t), None)
    case OpenCall(entry) => (SetFds(k, OpenFd(CurrentFds(k), entry).0), None)
    case CloseCall(fd) => (SetFds(k, CloseFd(CurrentFds(k), fd)), None)
    case ReadCall(fd, nbytes) => (SetFds(k, ReadFds(CurrentFds(k), fd, nbytes)), None)
  }

  function CurrentFds(k: Kernel): seq<Descriptor>
    requires Shape(k) && IsPid(k.terms[k.curr].pid)
  {
    k.pcbs[k.terms[k.curr].pid].fds
  }

  /** Directory entries have file type 0, 1 or 2. */
  predicate EventShape(e: Event) {
    match e
    case SwitchScreen(t) => IsTerminal(t)
    case OpenCall(entry) => entry.Some? ==> 0 <= entry.value.fileType <= 2
    case ReadCall(_, nbytes) => IsInt32(nbytes)
    case _ => true
  }

  function MachineStep(m: Machine, e: Event): (Machine, Option<Outcome>)
    requires |m.stacks| == MAX_TERMINALS && IsTerminal(m.curr) && m.stacks[m.curr] != []
  {
    match e
    case ExecuteCall(f, program) => var r := Push(m, f, program); (r.0, Some(r.1))
    case HaltCall(status) => var r := Pop(m, status); (r.0, Some(r.1))
    case Tick(f, shell) => var r := Rotate(m, f, shell); (r.0, Some(r.1))
    case SwitchScreen(t) => (m.(screen := t), None)
    case OpenCall(_) => (m, None)
    case CloseCall(_) => (m, None)
    case ReadCall(_, _) => (m, None)
  }

  /** The standing assumptions: a process that successfully calls execute is on the screen, and a
      terminal's first shell can be launched. */
  ghost predicate Allowed(m: Machine, e: Event)
    requires Sane(m)
  {
    && EventShape(e)
    && (e.ExecuteCall? && Push(m, e.f, e.program).1.Entered? ==> m.curr == m.screen)
    && (e.Tick? ==> !Rotate(m, e.f, e.shell).1.Lost?)
  }

  // ----- Simulation of one step and of runs -----

  lemma OpenFdOk(fds: seq<Descriptor>, entry: Option<Entry>)
    requires FdsOk(fds)
    requires entry.Some? ==> 0 <= entry.value.fileType <= 2
    ensures FdsOk(OpenFd(fds, entry).0)
  {
  }

  lemma SetFdsSimulates(k: Kernel, m: Machine, fds: seq<Descriptor>)
    requires Simulates(k, m) && FdsOk(fds)
    ensures IsPid(k.terms[k.curr].pid)
    ensures Simulates(SetFds(k, fds), m)
  {
    var t, st := m.curr, m.stacks[m.curr];
    assert Chained(k, t, st, true) && OnStack(st, st[0].pid);
    SetFdsChained(k, t, st, fds);
    assert !Live(m, -1);
    OthersUntouched(k, m, SetFds(k, fds), t, -1);
  }

  lemma SetFdsChained(k: Kernel, t: int, st: seq<Activation>, fds: seq<Descriptor>)
    requires Shape(k) && IsTerminal(t) && Simple(st) && Chained(k, t, st, true) && FdsOk(fds)
    requires IsPid(k.terms[k.curr].pid)
    ensures Chained(SetFds(k, fds), t, st, true)
  {
    var r := SetFds(k, fds);
    forall i | 0 <= i < |st|
      ensures PcbMatches(r.pcbs[st[i].pid], t, st, i)
    {
      assert PcbMatches(k.pcbs[st[i].pid], t, st, i);
    }
  }

  lemma SwitchSimulates(k: Kernel, m: Machine, t: int)
    requires Simulates(k, m) && IsTerminal(t)
    ensures Simulates(k.(screen := t), m.(screen := t))
  {
    forall u | IsTerminal(u)
      ensures Chained(k.(screen := t), u, m.stacks[u], u == m.curr)
    {
      assert Chained(k, u, m.stacks[u], u == m.curr);
    }
    assert Sane(m.(screen := t)) by {
      assert forall u :: IsTerminal(u) ==> m.(screen := t).stacks[u] == m.stacks[u];
    }
  }

  lemma CurrentFdsOk(k: Kernel, m: Machine)
    requires Simulates(k, m)
    ensures CanHalt(k) && FdsOk(CurrentFds(k))
  {
    HaltIsPop(k, m, 0);
    assert Chained(k, m.curr, m.stacks[m.curr], true);
    assert PcbMatches(k.pcbs[m.stacks[m.curr][0].pid], m.curr, m.stacks[m.curr], 0);
  }

  /** The step of the tables is the same step of the call stacks, with the same outcome. */
  ghost predicate SameStep(k: Kernel, m: Machine, e: Event)
    requires CanHalt(k) && EventShape(e) && Sane(m)
  {
    Simulates(Step(k, e).0, MachineStep(m, e).0) && Step(k, e).1 == MachineStep(m, e).1
  }

  lemma ExecuteSimulates(k: Kernel, m: Machine, e: Event)
    requires Simulates(k, m) && Allowed(m, e) && e.ExecuteCall? && CanHalt(k)
    ensures SameStep(k, m, e)
  {
    ExecuteIsPush(k, m, e.f, e.program);
  }

  lemma HaltSimulates(k: Kernel, m: Machine, e: Event)
    requires Simulates(k, m) && e.HaltCall? && CanHalt(k)
    ensures SameStep(k, m, e)
  {
    HaltIsPop(k, m, e.status);
  }

  lemma TickSimulates(k: Kernel, m: Machine, e: Event)
    requires Simulates(k, m) && Allowed(m, e) && e.Tick? && CanHalt(k)
    ensures SameStep(k, m, e)
  {
    assert !Rotate(m, e.f, e.shell).1.Lost?;
    ScheduleIsRotate(k, m, e.f, e.shell);
    var r, n := Schedule(k, e.f, e.shell), Rotate(m, e.f, e.shell);
    assert Simulates(r.0, n.0) && r.1 == n.1;
    assert Step(k, e) == (r.0, Some(r.1)) && MachineStep(m, e) == (n.0, Some(n.1));
  }

  lemma FdsStepSimulates(k: Kernel, m: Machine, e: Event)
    requires Simulates(k, m) && EventShape(e) && (e.OpenCall? || e.CloseCall? || e.ReadCall?) && CanHalt(k)
    ensures SameStep(k, m, e)
  {
    CurrentFdsOk(k, m);
    if e.OpenCall? {
      OpenFdOk(CurrentFds(k), e.entry);
      SetFdsSimulates(k, m, OpenFd(CurrentFds(k), e.entry).0);
    } else if e.CloseCall? {
      SetFdsSimulates(k, m, CloseFd(CurrentFds(k), e.fd));
    } else {
      SetFdsSimulates(k, m, ReadFds(CurrentFds(k), e.fd, e.nbytes));
    }
  }

  /** Every allowed step of the tables is the same step of the call stacks, with the same outcome: the
      same program entered, restarted or resumed, at the same frame. */
  lemma StepSimulates(k: Kernel, m: Machine, e: Event)
    requires Simulates(k, m) && Allowed(m, e)
    ensures CanHalt(k)
    ensures Simulates(Step(k, e).0, MachineStep(m, e).0)
    ensures Step(k, e).1 == MachineStep(m, e).1
  {
    CurrentFdsOk(k, m);
    assert SameStep(k, m, e) by {
      match e
      case ExecuteCall(_, _) => ExecuteSimulates(k, m, e);
      case HaltCall(_) => HaltSimulates(k, m, e);
      case Tick(_, _) => TickSimulates(k, m, e);
      case SwitchScreen(t) => SwitchSimulates(k, m, t);
      case OpenCall(_) => FdsStepSimulates(k, m, e);
      case CloseCall(_) => FdsStepSimulates(k, m, e);
      case ReadCall(_, _) => FdsStepSimulates(k, m, e);
    }
  }

  ghost predicate AllAllowed(m: Machine, es: seq<Event>)
    decreases es
  {
    && Sane(m)
    && (es != [] ==> Allowed(m, es[0]) && AllAllowed(MachineStep(m, es[0]).0, es[1..]))
  }

  ghost function MachineRun(m: Machine, es: seq<Event>): (r: (Machine, seq<Option<Outcome>>))
    requires AllAllowed(m, es)
    ensures Sane(r.0)
    decreases es
  {
    if es == [] then (m, [])
    else
      var s := MachineStep(m, es[0]);
      var rest := MachineRun(s.0, es[1..]);
      (rest.0, [s.1] + rest.1)
  }

  ghost predicate Runs(k: Kernel, es: seq<Event>)
    decreases es
  {
    es != [] ==> CanHalt(k) && EventShape(es[0]) && Runs(Step(k, es[0]).0, es[1..])
  }

  ghost function Run(k: Kernel, es: seq<Event>): (r: (Kernel, seq<Option<Outcome>>))
    requires Runs(k, es)
    decreases es
  {
    if es == [] then (k, [])
    else
      var s := Step(k, es[0]);
      var rest := Run(s.0, es[1..]);
      (rest.0, [s.1] + rest.1)
  }

  /** Over every run, the pid table, PCB chains, saved frames, page directory entry and TSS act as three
      call stacks: same outcomes, step for step, and the tables consistent at the end. */
  lemma {:induction false} RunSimulates(k: Kernel, m: Machine, es: seq<Event>)
    requires Simulates(k, m) && AllAllowed(m, es)
    ensures Runs(k, es)
    ensures Simulates(Run(k, es).0, MachineRun(m, es).0)
    ensures Run(k, es).1 == MachineRun(m, es).1
    decreases es
  {
    if es != [] {
      StepSimulates(k, m, es[0]);
      RunSimulates(Step(k, es[0]).0, MachineStep(m, es[0]).0, es[1..]);
    }
  }

  /** The tables at the end of `entry`, just before the first shell is executed. */
  ghost predicate Booted(k: Kernel) {
    && Shape(k) && k.curr == 0 && k.screen == 0 && k.baseShell
    && (forall p :: IsPid(p) ==> k.curProcesses[p] == 0)
    && (forall t :: IsTerminal(t) ==> k.terms[t].pid == -1 && (k.terms[t].flag <==> t == 0))
  }

  lemma BootSimulates(k: Kernel, f: Frame, shell: int)
    requires Booted(k)
    ensures Execute(k, f, Some(shell)).1 == Entered(0, shell)
    ensures Simulates(Execute(k, f, Some(shell)).0, Machine([[Activation(0, shell, f)], [], []], 0, 0))
  {
    assert FreePidFrom(k.curProcesses, 0) == 0;
    ExecuteBase(k, f, shell);
    var m := Machine([[Activation(0, shell, f)], [], []], 0, 0);
    var r := Execute(k, f, Some(shell)).0;
    FreshFdsOk(k.pcbs[0].fds);
    assert m.stacks[0][0].pid == 0;
    forall t | IsTerminal(t)
      ensures Chained(r, t, m.stacks[t], t == 0)
    {
      if t == 0 {
        assert PcbMatches(r.pcbs[0], 0, m.stacks[0], 0);
      }
    }
  }

  // ----- The process forest -----

  function Walk(k: Kernel, p: int, n: nat): seq<int>
    requires |k.pcbs| == NUM_PROCESSES
    decreases n
  {
    if n == 0 || !IsPid(p) then [] else [p] + Walk(k, k.pcbs[p].parentPid, n - 1)
  }

  function Pids(st: seq<Activation>): seq<int> {
    seq(|st|, i requires 0 <= i < |st| => st[i].pid)
  }

  /** How many pids below n are on the stack; how many are live. */
  function CountOn(st: seq<Activation>, n: nat): nat {
    if n == 0 then 0 else CountOn(st, n - 1) + if OnStack(st, n - 1) then 1 else 0
  }

  function CountLive(m: Machine, n: nat): nat
    requires |m.stacks| == MAX_TERMINALS
  {
    if n == 0 then 0 else CountLive(m, n - 1) + if Live(m, n - 1) then 1 else 0
  }

  lemma {:induction false} CountWithout(st: seq<Activation>, n: nat)
    requires Simple(st) && st != []
    ensures CountOn(st, n) == CountOn(st[1..], n) + if 0 <= st[0].pid < n then 1 else 0
  {
    if n > 0 {
      CountWithout(st, n - 1);
      PopOnStack(st, n - 1);
      assert st[0].pid == n - 1 ==> OnStack(st, n - 1);
    }
  }

  lemma {:induction false} CountNone(n: nat)
    ensures CountOn([], n) == 0
  {
    if n > 0 {
      CountNone(n - 1);
    }
  }

  lemma {:induction false} CountIsLength(st: seq<Activation>)
    requires Simple(st)
    ensures CountOn(st, NUM_PROCESSES) == |st|
  {
    if st == [] {
      CountNone(NUM_PROCESSES);
    } else {
      CountWithout(st, NUM_PROCESSES);
      CountIsLength(st[1..]);
    }
  }

  lemma {:induction false} CountAdds(m: Machine, n: nat)
    requires Sane(m)
    ensures CountLive(m, n) == CountOn(m.stacks[0], n) + CountOn(m.stacks[1], n) + CountOn(m.stacks[2], n)
  {
    if n > 0 {
      CountAdds(m, n - 1);
      assert Apart(m.stacks[0], m.stacks[1]) && Apart(m.stacks[0], m.stacks[2]) && Apart(m.stacks[1], m.stacks[2]);
    }
  }

  lemma {:induction false} CountFull(m: Machine, n: nat)
    requires |m.stacks| == MAX_TERMINALS
    ensures CountLive(m, n) <= n
    ensures CountLive(m, n) == n <==> forall q :: 0 <= q < n ==> Live(m, q)
  {
    if n > 0 {
      CountFull(m, n - 1);
    }
  }

  /** At most six processes live at once, and a free slot exists exactly when fewer than six do. */
  lemma LiveCount(m: Machine)
    requires Sane(m)
    ensures |m.stacks[0]| + |m.stacks[1]| + |m.stacks[2]| <= NUM_PROCESSES
    ensures |m.stacks[0]| + |m.stacks[1]| + |m.stacks[2]| == NUM_PROCESSES <==> FreePid(m, 0) == NUM_PROCESSES
  {
    CountIsLength(m.stacks[0]);
    CountIsLength(m.stacks[1]);
    CountIsLength(m.stacks[2]);
    CountAdds(m, NUM_PROCESSES);
    CountFull(m, NUM_PROCESSES);
    FreePidMeans(m, 0);
  }

  lemma FreePidMeans(m: Machine, p: int)
    requires |m.stacks| == MAX_TERMINALS && 0 <= p <= NUM_PROCESSES
    ensures FreePid(m, p) == NUM_PROCESSES <==> forall q :: p <= q < NUM_PROCESSES ==> Live(m, q)
    ensures FreePid(m, p) < NUM_PROCESSES ==> !Live(m, FreePid(m, p))
    decreases NUM_PROCESSES - p
  {
    if p < NUM_PROCESSES && Live(m, p) {
      FreePidMeans(m, p + 1);
    }
  }

  /** The parent pointers of these processes follow the stack. */
  ghost predicate Linked(k: Kernel, st: seq<Activation>) {
    && |k.pcbs| == NUM_PROCESSES
    && forall i :: 0 <= i < |st| ==> IsPid(st[i].pid) && k.pcbs[st[i].pid].parentPid == ParentOf(st, i)
  }

  lemma {:induction false} WalkFrom(k: Kernel, st: seq<Activation>, i: nat, n: nat)
    requires Linked(k, st) && i < |st| && |st| - i <= n
    ensures Walk(k, st[i].pid, n) == Pids(st)[i..]
    decreases n
  {
    if i + 1 < |st| {
      WalkFrom(k, st, i + 1, n - 1);
    } else {
      assert Walk(k, BASE_SHELL, n - 1) == [];
    }
    assert Pids(st)[i..] == [st[i].pid] + Pids(st)[i + 1..];
  }

  /** Following parent pids from a terminal's pid visits that terminal's processes, each once, and stops
      at BASE_SHELL after at most six: the parent chains form a forest whose members are exactly the
      slots in use. */
  lemma ParentChainIsStack(k: Kernel, m: Machine, t: int, n: nat)
    requires Simulates(k, m) && IsTerminal(t) && NUM_PROCESSES <= n
    ensures Walk(k, k.terms[t].pid, n) == Pids(m.stacks[t])
    ensures |Pids(m.stacks[t])| <= NUM_PROCESSES
  {
    LiveCount(m);
    var st := m.stacks[t];
    assert Chained(k, t, st, t == m.curr);
    assert Linked(k, st) by {
      assert forall i :: 0 <= i < |st| ==> PcbMatches(k.pcbs[st[i].pid], t, st, i);
    }
    if st != [] {
      WalkFrom(k, st, 0, n);
    }
  }

  lemma UsedSlotsAreChains(k: Kernel, m: Machine, p: int)
    requires Simulates(k, m) && IsPid(p)
    ensures k.curProcesses[p] != 0 <==>
      exists t :: IsTerminal(t) && p in Walk(k, k.terms[t].pid, NUM_PROCESSES)
    ensures forall t, u :: IsTerminal(t) && IsTerminal(u) && t != u ==>
      !(p in Walk(k, k.terms[t].pid, NUM_PROCESSES) && p in Walk(k, k.terms[u].pid, NUM_PROCESSES))
  {
    forall t | IsTerminal(t)
      ensures p in Walk(k, k.terms[t].pid, NUM_PROCESSES) <==> OnStack(m.stacks[t], p)
    {
      ParentChainIsStack(k, m, t, NUM_PROCESSES);
      var st := m.stacks[t];
      if OnStack(st, p) {
        var i :| 0 <= i < |st| && st[i].pid == p;
        assert Pids(st)[i] == p;
      }
    }
    assert IsTerminal(0) && IsTerminal(1) && IsTerminal(2);
    assert Live(m, p) <==> exists t :: IsTerminal(t) && OnStack(m.stacks[t], p);
    assert forall t, u :: IsTerminal(t) && IsTerminal(u) && t != u ==> Apart(m.stacks[t], m.stacks[u]);
  }

  // ----- What a halt promises and does not keep -----

  predicate AllClosed(fds: seq<Descriptor>)
    requires |fds| == FILE_DESCRIPTOR_MAX
  {
    forall i :: FILE_DESCRIPTOR_MIN <= i < FILE_DESCRIPTOR_MAX ==> fds[i].flags == NOT_IN_USE
  }

  lemma {:induction false} CloseUpToCloses(fds: seq<Descriptor>, n: nat)
    requires |fds| == FILE_DESCRIPTOR_MAX && n <= FILE_DESCRIPTOR_MAX
    ensures forall i :: FILE_DESCRIPTOR_MIN <= i < n ==> CloseUpTo(fds, n)[i].flags == NOT_IN_USE
  {
    if n > 0 {
      CloseUpToCloses(fds, n - 1);
    }
  }

  /** The halting process's descriptors are closed after its halt only if they were before it: the loop closes
      the parent's, all of them. And the parent is told the exit status unless that is 255, which it cannot
      tell from an exception. */
  lemma HaltClosesTheParents(k: Kernel, m: Machine, status: Byte)
    requires Simulates(k, m) && 1 < |m.stacks[m.curr]|
    ensures CanHalt(k)
    ensures var (child, parent, r) := (m.stacks[m.curr][0], m.stacks[m.curr][1], Halt(k, status));
      && IsPid(child.pid) && IsPid(parent.pid)
      && r.0.pcbs[child.pid].fds == k.pcbs[child.pid].fds
      && (AllClosed(r.0.pcbs[child.pid].fds) <==> AllClosed(k.pcbs[child.pid].fds))
      && AllClosed(r.0.pcbs[parent.pid].fds)
      && r.1 == Returned(parent.saved, if status == 255 then 256 else status)
      && (r.1 == Returned(parent.saved, status) <==> status != EXCEPTION)
  {
    var st := m.stacks[m.curr];
    HaltIsPop(k, m, status);
    assert Chained(k, m.curr, st, true);
    assert PcbMatches(k.pcbs[st[0].pid], m.curr, st, 0);
    assert st[0].pid != st[1].pid;
    CloseUpToCloses(k.pcbs[st[1].pid].fds, FILE_DESCRIPTOR_MAX);
  }

  // ----- What an execute leaves -----

  /** A program that has just been entered has no file open, so its first open gets descriptor 2. */
  lemma FirstOpenGetsTwo(k: Kernel, f: Frame, program: Option<int>, entry: Entry)
    requires Shape(k) && Execute(k, f, program).1.Entered?
    ensures var r := Execute(k, f, program);
      && IsPid(r.1.pid)
      && var fds := r.0.pcbs[r.1.pid].fds;
         FdsOk(fds) && AllClosed(fds) && OpenFd(fds, Some(entry)).1 == FILE_DESCRIPTOR_MIN
  {
    var p := FreePidFrom(k.curProcesses, 0);
    var r := Execute(k, f, program).0;
    FreshFdsOk(k.pcbs[p].fds);
    assert r.pcbs[p].fds == FreshDescriptors(k.pcbs[p].fds);
  }

  /** An execute fails, and changes nothing, exactly when the command names no executable or all six slots are
      in use; otherwise the program is entered in the least free slot. */
  lemma ExecuteFailsIff(k: Kernel, f: Frame, program: Option<int>)
    requires Shape(k)
    ensures var r := Execute(k, f, program);
      && (r.1 == Failed <==> program.None? || forall p :: IsPid(p) ==> k.curProcesses[p] != 0)
      && (r.1 == Failed ==> r.0 == k)
      && (r.1 != Failed ==>
            && r.1 == Entered(r.1.pid, program.value)
            && IsPid(r.1.pid) && k.curProcesses[r.1.pid] == 0
            && (forall p :: 0 <= p < r.1.pid ==> k.curProcesses[p] != 0)
            && r.0.curProcesses == k.curProcesses[r.1.pid := 1])
  {
    var p := FreePidFrom(k.curProcesses, 0);
    assert p == NUM_PROCESSES || IsPid(p);
  }

  /** The page directory maps the running process's own 4 MB page, and an interrupt finds its own kernel stack. */
  lemma RunnerHasItsHardware(k: Kernel, m: Machine)
    requires Simulates(k, m)
    ensures var p := m.stacks[m.curr][0].pid;
      && IsPid(p) && k.curProcesses[p] != 0
      && k.userPage == 2 + p && k.esp0 == 0x80_0000 - 0x2000 * p
  {
    assert Chained(k, m.curr, m.stacks[m.curr], true);
    assert OnStack(m.stacks[m.curr], m.stacks[m.curr][0].pid);
  }

  // ----- Where the standing assumption is needed -----

  lemma BackgroundMaps(k: Kernel, f: Frame, eip: int)
    requires Shape(k) && !k.baseShell && k.curr != k.screen && FreePidFrom(k.curProcesses, 0) < NUM_PROCESSES
    ensures var r := Execute(k, f, Some(eip)).0;
      r.terms[k.curr].pid == k.terms[k.curr].pid && r.userPage == UserPage(FreePidFrom(k.curProcesses, 0))
      && r.curr == k.curr
  {
  }

  lemma BackgroundBreaks(k: Kernel, m: Machine, f: Frame, eip: int)
    requires Simulates(k, m) && FreePid(m, 0) < NUM_PROCESSES && k.curr != k.screen
    ensures !HardwareFollows(Execute(k, f, Some(eip)).0)
    ensures forall n :: !Simulates(Execute(k, f, Some(eip)).0, n)
  {
    RunnerIsLive(k, m);
    FreePidIsFree(m, k, 0);
    BackgroundMaps(k, f, eip);
  }

  lemma OwnScreenKeeps(k: Kernel, m: Machine, f: Frame, eip: int)
    requires Simulates(k, m) && k.curr == k.screen
    ensures HardwareFollows(Execute(k, f, Some(eip)).0)
    ensures exists n :: Simulates(Execute(k, f, Some(eip)).0, n)
  {
    ExecuteIsPush(k, m, f, Some(eip));
  }

  /** A successful execute keeps the tables consistent exactly when the caller's terminal is the one on
      the screen; otherwise the page directory and the TSS belong to a process of another terminal. */
  lemma ExecuteNeedsOwnScreen(k: Kernel, m: Machine, f: Frame, eip: int)
    requires Simulates(k, m) && FreePid(m, 0) < NUM_PROCESSES
    ensures HardwareFollows(Execute(k, f, Some(eip)).0) <==> k.curr == k.screen
    ensures (exists n :: Simulates(Execute(k, f, Some(eip)).0, n)) <==> k.curr == k.screen
  {
    if k.curr == k.screen {
      OwnScreenKeeps(k, m, f, eip);
    } else {
      BackgroundBreaks(k, m, f, eip);
    }
  }

  lemma RunnerIsLive(k: Kernel, m: Machine)
    requires Simulates(k, m)
    ensures IsPid(k.terms[k.curr].pid) && Live(m, k.terms[k.curr].pid)
  {
    assert Chained(k, m.curr, m.stacks[m.curr], true);
    assert OnStack(m.stacks[m.curr], m.stacks[m.curr][0].pid);
  }

  /** A terminal's first tick launches its shell exactly when the executable is there and fewer than six
      processes live; otherwise the scheduler jumps through a PCB that does not exist. */
  lemma LaunchNeedsFreeSlot(k: Kernel, m: Machine, f: Frame, shell: Option<int>)
    requires Simulates(k, m) && m.stacks[(m.curr + 1) % MAX_TERMINALS] == []
    ensures Schedule(k, f, shell).1.Lost? <==>
      shell.None? || |m.stacks[0]| + |m.stacks[1]| + |m.stacks[2]| == NUM_PROCESSES
    ensures (exists n :: Simulates(Schedule(k, f, shell).0, n)) <==> !Schedule(k, f, shell).1.Lost?
  {
    RotateLost(m, f, shell);
    ScheduleIsRotate(k, m, f, shell);
  }

  lemma RotateLost(m: Machine, f: Frame, shell: Option<int>)
    requires Sane(m) && m.stacks[(m.curr + 1) % MAX_TERMINALS] == []
    ensures Rotate(m, f, shell).1.Lost? <==>
      shell.None? || |m.stacks[0]| + |m.stacks[1]| + |m.stacks[2]| == NUM_PROCESSES
  {
    var paused := SetStack(m, m.curr, Suspend(m.stacks[m.curr], f));
    SuspendSane(m, f);
    LiveCount(paused);
    FreePidMoved(paused, (m.curr + 1) % MAX_TERMINALS, 0);
  }

  /** Whether the tables are in order after a step is decided by the standing assumptions. */
  lemma StepInOrderIff(k: Kernel, m: Machine, e: Event)
    requires Simulates(k, m) && EventShape(e)
    ensures CanHalt(k)
    ensures (exists n :: Simulates(Step(k, e).0, n)) <==> Allowed(m, e)
  {
    CurrentFdsOk(k, m);
    if Allowed(m, e) {
      StepSimulates(k, m, e);
    } else {
      match e
      case ExecuteCall(f, program) => ExecuteNeedsOwnScreen(k, m, f, program.value);
      case Tick(f, shell) => ScheduleIsRotate(k, m, f, shell);
      case _ =>
    }
  }

  /** The tables are those of some call stacks, now and after every step of the run. */
  ghost predicate StaysInOrder(k: Kernel, es: seq<Event>)
    decreases es
  {
    && (exists n :: Simulates(k, n))
    && (es != [] ==> CanHalt(k) && EventShape(es[0]) && StaysInOrder(Step(k, es[0]).0, es[1..]))
  }

  /** Over every run: the tables are in order all along if and only if each successful execute is called
      from the terminal on the screen and each first launch succeeds. */
  lemma {:induction false} RunInOrderIff(k: Kernel, m: Machine, es: seq<Event>)
    requires Simulates(k, m) && forall i :: 0 <= i < |es| ==> EventShape(es[i])
    ensures StaysInOrder(k, es) <==> AllAllowed(m, es)
    decreases es
  {
    if es != [] {
      StepInOrderIff(k, m, es[0]);
      var next := Step(k, es[0]).0;
      if Allowed(m, es[0]) {
        StepSimulates(k, m, es[0]);
        RunInOrderIff(next, MachineStep(m, es[0]).0, es[1..]);
      } else {
        assert !StaysInOrder(next, es[1..]);
      }
    }
  }

  // ----- Base shells stay -----

  function Base(st: seq<Activation>): Activation
    requires st != []
  {
    st[|st| - 1]
  }

  lemma StepKeepsBase(m: Machine, e: Event, t: int)
    requires Sane(m) && Allowed(m, e) && IsTerminal(t) && m.stacks[t] != []
    ensures var st := MachineStep(m, e).0.stacks[t];
      st != [] && Base(st).pid == Base(m.stacks[t]).pid && Base(st).eip == Base(m.stacks[t]).eip
  {
  }

  lemma {:induction false} RunKeepsBase(m: Machine, es: seq<Event>, t: int)
    requires AllAllowed(m, es) && IsTerminal(t) && m.stacks[t] != []
    ensures var st := MachineRun(m, es).0.stacks[t];
      st != [] && Base(st).pid == Base(m.stacks[t]).pid && Base(st).eip == Base(m.stacks[t]).eip
    decreases es
  {
    if es != [] {
      StepKeepsBase(m, es[0], t);
      RunKeepsBase(MachineStep(m, es[0]).0, es[1..], t);
    }
  }

  /** Base shells never leave: over every run a started terminal's first program keeps its pid, which
      stays in use and at the end of the parent chain. */
  lemma BaseShellStays(k: Kernel, m: Machine, es: seq<Event>, t: int)
    requires Simulates(k, m) && AllAllowed(m, es) && IsTerminal(t) && m.stacks[t] != []
    ensures Runs(k, es)
    ensures var (r, base) := (Run(k, es).0, Base(m.stacks[t]));
      && Shape(r) && IsPid(base.pid)
      && r.curProcesses[base.pid] != 0
      && r.pcbs[base.pid].parentPid == BASE_SHELL
      && r.pcbs[base.pid].terminalId == t
      && r.pcbs[base.pid].eip == base.eip
  {
    RunSimulates(k, m, es);
    RunKeepsBase(m, es, t);
    BaseInTables(Run(k, es).0, MachineRun(m, es).0, t);
  }

  lemma BaseInTables(k: Kernel, m: Machine, t: int)
    requires Simulates(k, m) && IsTerminal(t) && m.stacks[t] != []
    ensures var base := Base(m.stacks[t]);
      && IsPid(base.pid) && k.curProcesses[base.pid] != 0
      && k.pcbs[base.pid].parentPid == BASE_SHELL
      && k.pcbs[base.pid].terminalId == t
      && k.pcbs[base.pid].eip == base.eip
  {
    var st := m.stacks[t];
    assert Chained(k, t, st, t == m.curr);
    assert PcbMatches(k.pcbs[Base(st).pid], t, st, |st| - 1);
    assert OnStack(st, Base(st).pid);
    assert Live(m, Base(st).pid);
  }

  // ----- Frames are resumed exactly -----

  /** Along the run, terminal t's stack stays higher than h. */
  ghost predicate Above(m: Machine, es: seq<Event>, t: int, h: nat)
    requires IsTerminal(t)
    ensures Above(m, es, t, h) ==> AllAllowed(m, es)
    decreases es
  {
    && Sane(m) && h < |m.stacks[t]|
    && (es != [] ==> Allowed(m, es[0]) && Above(MachineStep(m, es[0]).0, es[1..], t, h))
  }

  function Bottom(st: seq<Activation>, h: nat): seq<Activation>
    requires h <= |st|
  {
    st[|st| - h..]
  }

  lemma StepKeepsBottom(m: Machine, e: Event, t: int, h: nat)
    requires Sane(m) && Allowed(m, e) && IsTerminal(t) && h < |m.stacks[t]|
    requires h < |MachineStep(m, e).0.stacks[t]|
    ensures Bottom(MachineStep(m, e).0.stacks[t], h) == Bottom(m.stacks[t], h)
  {
  }

  lemma {:induction false} RunKeepsBottom(m: Machine, es: seq<Event>, t: int, h: nat)
    requires IsTerminal(t) && Above(m, es, t, h)
    ensures h < |MachineRun(m, es).0.stacks[t]|
    ensures Bottom(MachineRun(m, es).0.stacks[t], h) == Bottom(m.stacks[t], h)
    decreases es
  {
    if es != [] {
      StepKeepsBottom(m, es[0], t, h);
      RunKeepsBottom(MachineStep(m, es[0]).0, es[1..], t, h);
    }
  }

  /** No step of such a run writes the frame saved for a process below that height: neither the scheduler
      nor an execute ever overwrites an ancestor's. */
  lemma AncestorFramesKept(k: Kernel, m: Machine, es: seq<Event>, t: int, h: nat, i: nat)
    requires Simulates(k, m) && IsTerminal(t) && Above(m, es, t, h) && i < h
    ensures Runs(k, es) && Shape(Run(k, es).0)
    ensures var a := Bottom(m.stacks[t], h)[i];
      IsPid(a.pid) && Run(k, es).0.pcbs[a.pid].saved == k.pcbs[a.pid].saved == a.saved
  {
    RunSimulates(k, m, es);
    RunKeepsBottom(m, es, t, h);
    var r, n := Run(k, es).0, MachineRun(m, es).0;
    SavedBelow(k, m, t, h, i);
    SavedBelow(r, n, t, h, i);
  }

  lemma SavedBelow(k: Kernel, m: Machine, t: int, h: nat, i: nat)
    requires Simulates(k, m) && IsTerminal(t) && i < h < |m.stacks[t]|
    ensures var a := Bottom(m.stacks[t], h)[i];
      IsPid(a.pid) && k.pcbs[a.pid].saved == a.saved
  {
    var st := m.stacks[t];
    assert Chained(k, t, st, t == m.curr);
    assert Bottom(st, h)[i] == st[|st| - h + i];
  }

  /** The run es leads from just after m's program called another back to where that one is about to end. */
  ghost predicate BackAtCallee(m: Machine, f: Frame, eip: int, es: seq<Event>)
    requires Sane(m)
  {
    var pushed := Push(m, f, Some(eip)).0;
    && m.curr == m.screen && FreePid(m, 0) < NUM_PROCESSES
    && Above(pushed, es, m.curr, |m.stacks[m.curr]|)
    && var n := MachineRun(pushed, es).0;
       n.curr == m.curr && |n.stacks[m.curr]| == |m.stacks[m.curr]| + 1
  }

  lemma PopResumesCaller(m: Machine, f: Frame, eip: int, es: seq<Event>, status: Byte)
    requires Sane(m) && BackAtCallee(m, f, eip, es)
    ensures Pop(MachineRun(Push(m, f, Some(eip)).0, es).0, status).1 == Returned(f, ExitStatus(status))
  {
    var t, h := m.curr, |m.stacks[m.curr]|;
    var pushed := Push(m, f, Some(eip)).0;
    var n := MachineRun(pushed, es).0;
    RunKeepsBottom(pushed, es, t, h);
    assert n.stacks[t][1] == Bottom(n.stacks[t], h)[0] == Bottom(pushed.stacks[t], h)[0] == pushed.stacks[t][1];
  }

  /** Execute, then anything that does not go below the new process - nested executes and halts, ticks,
      other terminals - then its halt: the caller resumes with exactly the frame it called with, and
      with the callee's status. */
  lemma HaltResumesCaller(k: Kernel, m: Machine, f: Frame, eip: int, es: seq<Event>, status: Byte)
    requires Simulates(k, m) && BackAtCallee(m, f, eip, es)
    ensures var called := Execute(k, f, Some(eip)).0;
      && Runs(called, es)
      && CanHalt(Run(called, es).0)
      && Halt(Run(called, es).0, status).1 == Returned(f, ExitStatus(status))
  {
    var called, pushed := Execute(k, f, Some(eip)).0, Push(m, f, Some(eip)).0;
    PopResumesCaller(m, f, eip, es, status);
    ExecuteIsPush(k, m, f, Some(eip));
    RunSimulates(called, pushed, es);
    HaltIsPop(Run(called, es).0, MachineRun(pushed, es).0, status);
  }

  /** Along the run, terminal t is not scheduled. */
  ghost predicate Away(m: Machine, es: seq<Event>, t: int)
    requires IsTerminal(t)
    ensures Away(m, es, t) ==> AllAllowed(m, es)
    decreases es
  {
    && Sane(m) && m.curr != t
    && (es != [] ==> Allowed(m, es[0]) && Away(MachineStep(m, es[0]).0, es[1..], t))
  }

  lemma StepKeepsOthers(m: Machine, e: Event, t: int)
    requires Sane(m) && Allowed(m, e) && IsTerminal(t) && m.curr != t && MachineStep(m, e).0.curr != t
    ensures MachineStep(m, e).0.stacks[t] == m.stacks[t]
  {
  }

  lemma {:induction false} AwayKeepsStack(m: Machine, es: seq<Event>, t: int)
    requires IsTerminal(t) && Away(m, es, t)
    ensures MachineRun(m, es).0.curr != t
    ensures MachineRun(m, es).0.stacks[t] == m.stacks[t]
    decreases es
  {
    if es != [] {
      StepKeepsOthers(m, es[0], t);
      AwayKeepsStack(MachineStep(m, es[0]).0, es[1..], t);
    }
  }

  function Ticks(es: seq<Event>): nat {
    if es == [] then 0 else (if es[0].Tick? then 1 else 0) + Ticks(es[1..])
  }

  /** How many ticks away terminal t is. */
  function TurnsUntil(curr: int, t: int): int {
    (t + MAX_TERMINALS - curr) % MAX_TERMINALS
  }

  function Turn(curr: int, ticks: nat): int {
    (curr + ticks) % MAX_TERMINALS
  }

  lemma TurnsAdd(curr: int, a: nat, b: nat)
    ensures Turn(Turn(curr, a), b) == Turn(curr, a + b)
  {
  }

  lemma StepMoves(m: Machine, e: Event)
    requires Sane(m) && EventShape(e)
    ensures MachineStep(m, e).0.curr == Turn(m.curr, if e.Tick? then 1 else 0)
  {
  }

  lemma {:induction false} TicksMove(m: Machine, es: seq<Event>)
    requires AllAllowed(m, es)
    ensures MachineRun(m, es).0.curr == Turn(m.curr, Ticks(es))
    decreases es
  {
    if es != [] {
      var next, first := MachineStep(m, es[0]).0, if es[0].Tick? then 1 else 0;
      StepMoves(m, es[0]);
      TicksMove(next, es[1..]);
      TurnsAdd(m.curr, first, Ticks(es[1..]));
    }
  }

  lemma TurnCloser(curr: int, t: int, ticks: nat)
    requires IsTerminal(curr) && IsTerminal(t) && curr != t
    ensures ticks < TurnsUntil(Turn(curr, 0), t) <==> ticks < TurnsUntil(curr, t)
    ensures ticks < TurnsUntil(Turn(curr, 1), t) <==> 1 + ticks < TurnsUntil(curr, t)
  {
  }

  /** Only ticks schedule, one terminal after the other: t is not scheduled along a run exactly when the
      run has fewer ticks than t is away. */
  lemma {:induction false} AwayIff(m: Machine, es: seq<Event>, t: int)
    requires AllAllowed(m, es) && IsTerminal(t)
    ensures Away(m, es, t) <==> Ticks(es) < TurnsUntil(m.curr, t)
    decreases es
  {
    if es != [] && m.curr != t {
      StepMoves(m, es[0]);
      AwayIff(MachineStep(m, es[0]).0, es[1..], t);
      TurnCloser(m.curr, t, Ticks(es[1..]));
    }
  }

  lemma RotateSuspends(m: Machine, f: Frame, shell: Option<int>)
    requires Sane(m)
    ensures var r := Rotate(m, f, shell).0;
      r.curr == Turn(m.curr, 1) && |r.stacks| == MAX_TERMINALS && r.stacks[m.curr] == Suspend(m.stacks[m.curr], f)
  {
  }

  lemma RotateResumes(m: Machine, f: Frame, shell: Option<int>)
    requires Sane(m) && m.stacks[Turn(m.curr, 1)] != []
    ensures Rotate(m, f, shell).1 == Resumed(m.stacks[Turn(m.curr, 1)][0].saved)
  {
  }

  lemma ThreeTurns(curr: int)
    requires IsTerminal(curr)
    ensures TurnsUntil(Turn(curr, 1), curr) == 2 && Turn(Turn(Turn(curr, 1), 1), 1) == curr
  {
  }

  lemma RotateResumesPreempted(m: Machine, f: Frame, shell: Option<int>, es: seq<Event>, g: Frame, shell2: Option<int>)
    requires Sane(m) && Allowed(m, Tick(f, shell))
    requires AllAllowed(Rotate(m, f, shell).0, es) && Ticks(es) == 1
    ensures Rotate(MachineRun(Rotate(m, f, shell).0, es).0, g, shell2).1 == Resumed(f)
  {
    var rotated, t := Rotate(m, f, shell).0, m.curr;
    var r := MachineRun(rotated, es).0;
    RotateSuspends(m, f, shell);
    ThreeTurns(t);
    assert r.curr == Turn(rotated.curr, 1) by {
      TicksMove(rotated, es);
    }
    assert r.stacks[t] == rotated.stacks[t] by {
      AwayIff(rotated, es, t);
      AwayKeepsStack(rotated, es, t);
    }
    RotateResumes(r, g, shell2);
  }

  /** A preempted process is resumed by the third tick, its own included, with exactly the frame saved at
      its preemption, whatever executes, halts and screen switches the other terminals went through. */
  lemma PreemptedResumes(k: Kernel, m: Machine, f: Frame, shell: Option<int>, es: seq<Event>,
                         g: Frame, shell2: Option<int>)
    requires Simulates(k, m) && Allowed(m, Tick(f, shell))
    requires AllAllowed(Rotate(m, f, shell).0, es) && Ticks(es) == 1
    ensures var preempted := Schedule(k, f, shell).0;
      && Runs(preempted, es)
      && Shape(Run(preempted, es).0)
      && Schedule(Run(preempted, es).0, g, shell2).1 == Resumed(f)
  {
    var preempted, rotated := Schedule(k, f, shell).0, Rotate(m, f, shell).0;
    RotateResumesPreempted(m, f, shell, es, g, shell2);
    ScheduleIsRotate(k, m, f, shell);
    RunSimulates(preempted, rotated, es);
    ScheduleIsRotate(Run(preempted, es).0, MachineRun(rotated, es).0, g, shell2);
  }

  // ----- Descriptor dispatch -----

  predicate IsOpen(fds: seq<Descriptor>, fd: int)
    requires |fds| == FILE_DESCRIPTOR_MAX
  {
    FILE_DESCRIPTOR_MIN <= fd < FILE_DESCRIPTOR_MAX && fds[fd].flags == IN_USE
  }

  /** No call of the running process goes through a missing operation: reads go to the keyboard from 0, writes
      to the screen from 1, and both to whatever has been opened from 2 on; every other call returns -1. */
  lemma CallsAreDefined(k: Kernel, m: Machine, fd: int, op: Operation)
    requires Simulates(k, m)
    ensures CanHalt(k)
    ensures var fds := CurrentFds(k);
      && (Dispatches(fds, fd, op) ==> HasOperation(fds[fd].ops, op))
      && (Dispatches(fds, fd, ReadOp) <==> fd == 0 || IsOpen(fds, fd))
      && (Dispatches(fds, fd, WriteOp) <==> fd == 1 || IsOpen(fds, fd))
      && (Dispatches(fds, fd, CloseOp) <==> IsOpen(fds, fd))
      && fds[0] == fds[0].(ops := TermRead, flags := IN_USE)
      && fds[1] == fds[1].(ops := TermWrite, flags := IN_USE)
  {
    CurrentFdsOk(k, m);
  }

  /** Close frees what open has taken, and nothing else; the next open gets the same slot. */
  lemma CloseUndoesOpen(fds: seq<Descriptor>, entry: Entry, next: Entry)
    requires FdsOk(fds) && OpenFd(fds, Some(entry)).1 != -1
    ensures var (after, fd) := OpenFd(fds, Some(entry));
      var closed := CloseFd(after, fd);
      && closed == fds[fd := Descriptor(after[fd].ops, -1, 0, NOT_IN_USE)]
      && OpenFd(closed, Some(next)).1 == fd
  {
    var (after, fd) := OpenFd(fds, Some(entry));
    var closed := CloseFd(after, fd);
    assert closed == fds[fd := Descriptor(after[fd].ops, -1, 0, NOT_IN_USE)];
    assert forall i :: FILE_DESCRIPTOR_MIN <= i < fd ==> closed[i].flags != NOT_IN_USE;
  }

  /** Nor does the close loop of halt, which runs on the parent's descriptors. */
  lemma CloseLoopIsDefined(fds: seq<Descriptor>, i: nat)
    requires FdsOk(fds) && i < FILE_DESCRIPTOR_MAX
    ensures Dispatches(CloseUpTo(fds, i), i, CloseOp) ==> HasOperation(CloseUpTo(fds, i)[i].ops, CloseOp)
  {
    CloseUpToOk(fds, i);
  }

  /** Open takes the least free slot of 2..7, or fails when there is none; the file type chooses the table,
      and with an unknown one the slot keeps the table that an earlier open left there, if any. */
  lemma OpenTakesLeastSlot(fds: seq<Descriptor>, entry: Entry)
    requires FdsOk(fds)
    ensures var r := OpenFd(fds, Some(entry));
      if forall i :: FILE_DESCRIPTOR_MIN <= i < FILE_DESCRIPTOR_MAX ==> fds[i].flags == IN_USE then r == (fds, -1)
      else
        && FILE_DESCRIPTOR_MIN <= r.1 < FILE_DESCRIPTOR_MAX
        && fds[r.1].flags == NOT_IN_USE
        && (forall i :: FILE_DESCRIPTOR_MIN <= i < r.1 ==> fds[i].flags == IN_USE)
        && r.0 == fds[r.1 := r.0[r.1]]
        && r.0[r.1].flags == IN_USE && r.0[r.1].inode == entry.inode && r.0[r.1].filePos == 0
        && (r.0[r.1].ops == match entry.fileType
                            case 0 => Rtc
                            case 1 => Dir
                            case 2 => File
                            case _ => fds[r.1].ops)
        && (HasOperation(r.0[r.1].ops, OpenOp) <==>
            0 <= entry.fileType <= 2 || HasOperation(fds[r.1].ops, OpenOp))
    ensures OpenFd(fds, None) == (fds, -1)
  {
    var r := OpenFd(fds, Some(entry));
    if r.1 == -1 {
      assert forall i :: FILE_DESCRIPTOR_MIN <= i < FILE_DESCRIPTOR_MAX ==> fds[i].flags != NOT_IN_USE;
    } else {
      assert forall i :: FILE_DESCRIPTOR_MIN <= i < r.1 ==> fds[i].flags != NOT_IN_USE;
    }
  }
}
