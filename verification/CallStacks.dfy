/** The process tables simulate three independent call stacks. An activation is a program on a
    terminal, with the frame it was last suspended at; execute pushes, halt pops, a tick rotates.
    Nothing here knows of PCBs, parent pids, paging or the TSS. */
module CallStacks {
  import opened Bytes
  import opened Limits
  import opened Descriptors
  import opened Processes

  datatype Activation = Activation(pid: int, eip: int, saved: Frame)

  /** One stack per terminal, the running or preempted program first. */
  datatype Machine = Machine(stacks: seq<seq<Activation>>, curr: int, screen: int)

  predicate OnStack(st: seq<Activation>, p: int) {
    exists i :: 0 <= i < |st| && st[i].pid == p
  }

  predicate Live(m: Machine, p: int)
    requires |m.stacks| == MAX_TERMINALS
  {
    OnStack(m.stacks[0], p) || OnStack(m.stacks[1], p) || OnStack(m.stacks[2], p)
  }

  ghost predicate Simple(st: seq<Activation>) {
    && (forall i :: 0 <= i < |st| ==> IsPid(st[i].pid))
    && (forall i, j :: 0 <= i < j < |st| ==> st[i].pid != st[j].pid)
  }

  ghost predicate Apart(s: seq<Activation>, t: seq<Activation>) {
    forall p :: OnStack(s, p) ==> !OnStack(t, p)
  }

  /** Every live process is on exactly one stack, once; the scheduled terminal has been started. */
  ghost predicate Sane(m: Machine) {
    && |m.stacks| == MAX_TERMINALS
    && IsTerminal(m.curr) && IsTerminal(m.screen)
    && m.stacks[m.curr] != []
    && (forall t :: IsTerminal(t) ==> Simple(m.stacks[t]))
    && (forall t, u :: IsTerminal(t) && IsTerminal(u) && t != u ==> Apart(m.stacks[t], m.stacks[u]))
  }

  function FreePid(m: Machine, p: int): (r: int)
    requires |m.stacks| == MAX_TERMINALS && 0 <= p <= NUM_PROCESSES
    ensures p <= r <= NUM_PROCESSES
    decreases NUM_PROCESSES - p
  {
    if p == NUM_PROCESSES || !Live(m, p) then p else FreePid(m, p + 1)
  }

  function SetStack(m: Machine, t: int, st: seq<Activation>): Machine
    requires |m.stacks| == MAX_TERMINALS && IsTerminal(t)
  {
    m.(stacks := m.stacks[t := st])
  }

  function Suspend(st: seq<Activation>, f: Frame): seq<Activation>
    requires st != []
  {
    st[0 := st[0].(saved := f)]
  }

  /** The program calls another one, which gets the least pid not on any stack. */
  function Push(m: Machine, f: Frame, program: Option<int>): (Machine, Outcome)
    requires |m.stacks| == MAX_TERMINALS && IsTerminal(m.curr) && m.stacks[m.curr] != []
  {
    var p := FreePid(m, 0);
    if program.None? || p == NUM_PROCESSES then (m, Failed)
    else
      (SetStack(m, m.curr, [Activation(p, program.value, f)] + Suspend(m.stacks[m.curr], f)),
       Entered(p, program.value))
  }

  /** The program ends: its caller goes on from where it called; a bottom program starts over. */
  function Pop(m: Machine, status: Byte): (Machine, Outcome)
    requires |m.stacks| == MAX_TERMINALS && IsTerminal(m.curr) && m.stacks[m.curr] != []
  {
    var st := m.stacks[m.curr];
    if |st| == 1 then (m, Restarted(st[0].eip))
    else (SetStack(m, m.curr, st[1..]), Returned(st[1].saved, ExitStatus(status)))
  }

  /** The next terminal goes on from where it was preempted, or starts a shell. */
  function Rotate(m: Machine, f: Frame, shell: Option<int>): (Machine, Outcome)
    requires |m.stacks| == MAX_TERMINALS && IsTerminal(m.curr) && m.stacks[m.curr] != []
  {
    var next := (m.curr + 1) % MAX_TERMINALS;
    var r := SetStack(m, m.curr, Suspend(m.stacks[m.curr], f)).(curr := next);
    if r.stacks[next] != [] then (r, Resumed(r.stacks[next][0].saved))
    else
      var p := FreePid(r, 0);
      if shell.None? || p == NUM_PROCESSES then (r, Lost)
      else (SetStack(r, next, [Activation(p, shell.value, f)]), Entered(p, shell.value))
  }

  // ----- The simulation relation -----

  /** Descriptors 0 and 1 are the terminal's; every other one in use has a complete table. */
  ghost predicate FdsOk(fds: seq<Descriptor>) {
    && |fds| == FILE_DESCRIPTOR_MAX
    && fds[0].ops == TermRead && fds[0].flags == IN_USE
    && fds[1].ops == TermWrite && fds[1].flags == IN_USE
    && forall i :: FILE_DESCRIPTOR_MIN <= i < FILE_DESCRIPTOR_MAX ==>
         fds[i].flags == NOT_IN_USE || (fds[i].flags == IN_USE && fds[i].ops in {Rtc, Dir, File})
  }

  function ParentOf(st: seq<Activation>, i: int): int
    requires 0 <= i < |st|
  {
    if i + 1 < |st| then st[i + 1].pid else BASE_SHELL
  }

  /** The PCB of the i-th process of terminal t's chain, apart from its saved frame. */
  ghost predicate PcbMatches(pcb: Pcb, t: int, st: seq<Activation>, i: int)
    requires 0 <= i < |st|
  {
    && pcb.pid == st[i].pid
    && pcb.parentPid == ParentOf(st, i)
    && pcb.terminalId == t
    && pcb.eip == st[i].eip
    && FdsOk(pcb.fds)
  }

  /** The parent pointers from terminal t's pid visit exactly the stack, down to BASE_SHELL, and every
      suspended process's PCB holds the frame it was suspended at. */
  ghost predicate Chained(k: Kernel, t: int, st: seq<Activation>, running: bool)
    requires Shape(k) && IsTerminal(t) && Simple(st)
  {
    && (k.terms[t].flag <==> st != [])
    && (k.terms[t].pid == if st == [] then -1 else st[0].pid)
    && (st != [] ==> k.terms[t].baseTssEsp0 == StackTop(st[0].pid))
    && (forall i :: 0 <= i < |st| ==> PcbMatches(k.pcbs[st[i].pid], t, st, i))
    && (forall i :: 0 <= i < |st| && !(running && i == 0) ==> k.pcbs[st[i].pid].saved == st[i].saved)
  }

  /** The page directory and the TSS are those of the scheduled terminal's leaf process. */
  ghost predicate HardwareFollows(k: Kernel)
    requires Shape(k)
  {
    k.userPage == UserPage(k.terms[k.curr].pid) && k.esp0 == StackTop(k.terms[k.curr].pid)
  }

  /** Slot by slot: in use exactly if live. */
  ghost predicate UsedIffLive(inUse: seq<int>, m: Machine)
    requires |inUse| == NUM_PROCESSES && |m.stacks| == MAX_TERMINALS
  {
    forall p :: IsPid(p) ==> (inUse[p] != 0 <==> Live(m, p))
  }

  ghost predicate Simulates(k: Kernel, m: Machine) {
    && Shape(k) && Sane(m)
    && k.curr == m.curr && k.screen == m.screen && !k.baseShell
    && UsedIffLive(k.curProcesses, m)
    && (forall t :: IsTerminal(t) ==> Chained(k, t, m.stacks[t], t == m.curr))
    && HardwareFollows(k)
  }

  // ----- Stacks -----

  lemma PushOnStack(st: seq<Activation>, a: Activation, f: Frame, p: int)
    requires st != []
    ensures OnStack([a] + Suspend(st, f), p) <==> p == a.pid || OnStack(st, p)
  {
    var r := [a] + Suspend(st, f);
    assert r[0] == a && forall i :: 0 <= i < |st| ==> r[i + 1].pid == st[i].pid;
    if OnStack(st, p) {
      var i :| 0 <= i < |st| && st[i].pid == p;
      assert r[i + 1].pid == p;
    }
  }

  lemma PopOnStack(st: seq<Activation>, p: int)
    requires Simple(st) && st != []
    ensures OnStack(st[1..], p) <==> OnStack(st, p) && p != st[0].pid
  {
    if OnStack(st, p) && p != st[0].pid {
      var i :| 0 <= i < |st| && st[i].pid == p;
      assert st[1..][i - 1].pid == p;
    }
  }

  lemma SuspendOnStack(st: seq<Activation>, f: Frame, p: int)
    requires st != []
    ensures OnStack(Suspend(st, f), p) <==> OnStack(st, p)
  {
    assert forall i :: 0 <= i < |st| ==> Suspend(st, f)[i].pid == st[i].pid;
  }

  /** Replacing one stack keeps the machine sane when the new stack brings in no process of another. */
  lemma SetStackSane(m: Machine, t: int, st: seq<Activation>)
    requires |m.stacks| == MAX_TERMINALS && IsTerminal(t) && IsTerminal(m.curr) && IsTerminal(m.screen)
    requires forall u :: IsTerminal(u) && u != t ==> Simple(m.stacks[u])
    requires forall u, v :: IsTerminal(u) && IsTerminal(v) && u != v && u != t && v != t ==>
               Apart(m.stacks[u], m.stacks[v])
    requires Simple(st) && st != []
    requires t == m.curr || m.stacks[m.curr] != []
    requires forall u :: IsTerminal(u) && u != t ==> Apart(st, m.stacks[u])
    ensures Sane(SetStack(m, t, st))
  {
    var r := SetStack(m, t, st);
    forall u, v | IsTerminal(u) && IsTerminal(v) && u != v
      ensures Apart(r.stacks[u], r.stacks[v])
    {
      if v == t {
        assert Apart(st, m.stacks[u]);
      }
    }
  }

  lemma FreePidIsFree(m: Machine, k: Kernel, p: int)
    requires |m.stacks| == MAX_TERMINALS && Shape(k) && 0 <= p <= NUM_PROCESSES
    requires UsedIffLive(k.curProcesses, m)
    ensures FreePid(m, p) == FreePidFrom(k.curProcesses, p)
    ensures FreePid(m, p) < NUM_PROCESSES ==> !Live(m, FreePid(m, p))
    decreases NUM_PROCESSES - p
  {
    if p < NUM_PROCESSES {
      assert IsPid(p);
      if Live(m, p) {
        FreePidIsFree(m, k, p + 1);
      }
    }
  }

  // ----- One step at a time -----

  /** A chain is untouched by changes to PCBs that are not on it. */
  lemma ChainUntouched(k: Kernel, r: Kernel, t: int, st: seq<Activation>, was: bool, running: bool)
    requires Shape(k) && Shape(r) && IsTerminal(t) && Simple(st) && Chained(k, t, st, was)
    requires was ==> running
    requires r.terms[t] == k.terms[t]
    requires forall p :: IsPid(p) && OnStack(st, p) ==> r.pcbs[p] == k.pcbs[p]
    ensures Chained(r, t, st, running)
  {
    forall i | 0 <= i < |st|
      ensures r.pcbs[st[i].pid] == k.pcbs[st[i].pid]
    {
      assert OnStack(st, st[i].pid);
    }
  }

  /** The PCB that execute sets up in slot p. */
  function NewPcb(k: Kernel, p: int, parent: int, t: int, eip: int): Pcb
    requires Shape(k) && IsPid(p)
  {
    k.pcbs[p].(pid := p, parentPid := parent, terminalId := t, eip := eip,
               fds := FreshDescriptors(k.pcbs[p].fds), tssEsp0 := k.esp0)
  }

  lemma ExecuteChild(k: Kernel, f: Frame, eip: int)
    requires Shape(k) && !k.baseShell && k.curr == k.screen
    requires IsPid(k.terms[k.curr].pid) && k.curProcesses[k.terms[k.curr].pid] != 0
    requires FreePidFrom(k.curProcesses, 0) < NUM_PROCESSES
    ensures var p, parent := FreePidFrom(k.curProcesses, 0), k.terms[k.curr].pid;
      && p != parent
      && Execute(k, f, Some(eip)) == (k.(
           curProcesses := k.curProcesses[p := 1],
           pcbs := k.pcbs[parent := k.pcbs[parent].(saved := f)][p := NewPcb(k, p, parent, k.curr, eip)],
           terms := k.terms[k.curr := Term(k.terms[k.curr].flag, p, StackTop(p))],
           userPage := UserPage(p), esp0 := StackTop(p)), Entered(p, eip))
  {
    var p, parent := FreePidFrom(k.curProcesses, 0), k.terms[k.curr].pid;
    var r := Execute(k, f, Some(eip)).0;
    assert r.pcbs == k.pcbs[parent := k.pcbs[parent].(saved := f)][p := NewPcb(k, p, parent, k.curr, eip)];
    assert r.terms == k.terms[k.curr := Term(k.terms[k.curr].flag, p, StackTop(p))];
  }

  lemma ExecuteBase(k: Kernel, f: Frame, eip: int)
    requires Shape(k) && k.baseShell
    requires FreePidFrom(k.curProcesses, 0) < NUM_PROCESSES
    ensures var p := FreePidFrom(k.curProcesses, 0);
      Execute(k, f, Some(eip)) == (k.(
        curProcesses := k.curProcesses[p := 1],
        pcbs := k.pcbs[p := NewPcb(k, p, BASE_SHELL, k.curr, eip)],
        terms := k.terms[k.curr := Term(k.terms[k.curr].flag, p, StackTop(p))],
        baseShell := false,
        userPage := UserPage(p), esp0 := StackTop(p)), Entered(p, eip))
  {
    var p := FreePidFrom(k.curProcesses, 0);
    var r := Execute(k, f, Some(eip)).0;
    assert r.pcbs == k.pcbs[p := NewPcb(k, p, BASE_SHELL, k.curr, eip)];
    assert r.terms == k.terms[k.curr := Term(k.terms[k.curr].flag, p, StackTop(p))];
  }

  /** A new process on top of a terminal's stack. */
  lemma PushSane(m: Machine, f: Frame, a: Activation)
    requires Sane(m) && IsPid(a.pid) && !Live(m, a.pid)
    ensures var st := [a] + Suspend(m.stacks[m.curr], f);
      && Sane(SetStack(m, m.curr, st))
      && forall p :: Live(SetStack(m, m.curr, st), p) <==> p == a.pid || Live(m, p)
  {
    var was := m.stacks[m.curr];
    var st := [a] + Suspend(was, f);
    forall p
      ensures OnStack(st, p) <==> p == a.pid || OnStack(was, p)
    {
      PushOnStack(was, a, f, p);
    }
    forall i, j | 0 <= i < j < |st|
      ensures st[i].pid != st[j].pid
    {
      assert st[j].pid == was[j - 1].pid;
      assert OnStack(was, st[j].pid);
    }
    SetStackSane(m, m.curr, st);
  }

  lemma PushChained(k: Kernel, r: Kernel, t: int, st: seq<Activation>, f: Frame, a: Activation)
    requires Shape(k) && Shape(r) && IsTerminal(t) && Simple(st) && st != [] && Chained(k, t, st, true)
    requires IsPid(a.pid) && !OnStack(st, a.pid)
    requires r.terms[t] == Term(true, a.pid, StackTop(a.pid))
    requires r.pcbs == k.pcbs[st[0].pid := k.pcbs[st[0].pid].(saved := f)][a.pid := r.pcbs[a.pid]]
    requires PcbMatches(r.pcbs[a.pid], t, [a] + Suspend(st, f), 0)
    requires Simple([a] + Suspend(st, f))
    ensures Chained(r, t, [a] + Suspend(st, f), true)
  {
    var longer := [a] + Suspend(st, f);
    forall i | 1 <= i < |longer|
      ensures PcbMatches(r.pcbs[longer[i].pid], t, longer, i)
      ensures r.pcbs[longer[i].pid].saved == longer[i].saved
    {
      assert longer[i].pid == st[i - 1].pid && longer[i].eip == st[i - 1].eip;
      assert OnStack(st, st[i - 1].pid);
      assert PcbMatches(k.pcbs[st[i - 1].pid], t, st, i - 1);
      assert ParentOf(longer, i) == ParentOf(st, i - 1);
    }
  }

  lemma FreshFdsOk(fds: seq<Descriptor>)
    requires |fds| == FILE_DESCRIPTOR_MAX
    ensures FdsOk(FreshDescriptors(fds))
    ensures forall i :: FILE_DESCRIPTOR_MIN <= i < FILE_DESCRIPTOR_MAX ==>
      FreshDescriptors(fds)[i] == Descriptor(fds[i].ops, 0, 0, NOT_IN_USE)
  {
  }

  /** A step that touches terminal t's PCBs, and perhaps one free slot, leaves the other chains alone. */
  lemma OthersUntouched(k: Kernel, m: Machine, r: Kernel, t: int, free: int)
    requires Shape(k) && Sane(m) && Shape(r) && IsTerminal(t) && !Live(m, free)
    requires forall u :: IsTerminal(u) && u != t ==> Chained(k, u, m.stacks[u], false)
    requires forall u :: IsTerminal(u) && u != t ==> r.terms[u] == k.terms[u]
    requires forall p :: IsPid(p) && !OnStack(m.stacks[t], p) && p != free ==> r.pcbs[p] == k.pcbs[p]
    ensures forall u :: IsTerminal(u) && u != t ==> Chained(r, u, m.stacks[u], false)
  {
    forall u | IsTerminal(u) && u != t
      ensures Chained(r, u, m.stacks[u], false)
    {
      assert Apart(m.stacks[u], m.stacks[t]);
      ChainUntouched(k, r, u, m.stacks[u], false, false);
    }
  }

  lemma PushedSimulates(k: Kernel, m: Machine, r: Kernel, p: int, f: Frame, eip: int)
    requires Simulates(k, m) && IsPid(p) && !Live(m, p)
    requires var parent := k.terms[k.curr].pid;
      IsPid(parent) && r == k.(
        curProcesses := k.curProcesses[p := 1],
        pcbs := k.pcbs[parent := k.pcbs[parent].(saved := f)][p := NewPcb(k, p, parent, k.curr, eip)],
        terms := k.terms[k.curr := Term(k.terms[k.curr].flag, p, StackTop(p))],
        userPage := UserPage(p), esp0 := StackTop(p))
    ensures Simulates(r, SetStack(m, m.curr, [Activation(p, eip, f)] + Suspend(m.stacks[m.curr], f)))
  {
    var t, st := m.curr, m.stacks[m.curr];
    var a := Activation(p, eip, f);
    assert Chained(k, t, st, true) && OnStack(st, st[0].pid);
    PushSane(m, f, a);
    FreshFdsOk(k.pcbs[p].fds);
    PushChained(k, r, t, st, f, a);
    OthersUntouched(k, m, r, t, p);
  }

  /** Execute is a push on the scheduled terminal's stack, provided that it fails or that terminal is on
      the screen. */
  lemma ExecuteIsPush(k: Kernel, m: Machine, f: Frame, program: Option<int>)
    requires Simulates(k, m)
    requires k.curr == k.screen || Push(m, f, program).1.Failed?
    ensures Simulates(Execute(k, f, program).0, Push(m, f, program).0)
    ensures Execute(k, f, program).1 == Push(m, f, program).1
  {
    FreePidIsFree(m, k, 0);
    if program.Some? && FreePid(m, 0) < NUM_PROCESSES {
      var p, parent := FreePid(m, 0), k.terms[k.curr].pid;
      assert Chained(k, m.curr, m.stacks[m.curr], true) && OnStack(m.stacks[m.curr], parent);
      ExecuteChild(k, f, program.value);
      PushedSimulates(k, m, Execute(k, f, program).0, p, f, program.value);
    }
  }

  lemma CloseUpToOk(fds: seq<Descriptor>, n: nat)
    requires FdsOk(fds) && n <= FILE_DESCRIPTOR_MAX
    ensures FdsOk(CloseUpTo(fds, n))
  {
    if n > 0 {
      CloseUpToOk(fds, n - 1);
    }
  }

  lemma PopSane(m: Machine)
    requires Sane(m) && 1 < |m.stacks[m.curr]|
    ensures var st := m.stacks[m.curr];
      && Sane(SetStack(m, m.curr, st[1..]))
      && forall p :: Live(SetStack(m, m.curr, st[1..]), p) <==> Live(m, p) && p != st[0].pid
  {
    var st := m.stacks[m.curr];
    forall p
      ensures OnStack(st[1..], p) <==> OnStack(st, p) && p != st[0].pid
    {
      PopOnStack(st, p);
    }
    assert OnStack(st, st[0].pid);
    SetStackSane(m, m.curr, st[1..]);
  }

  lemma PopChained(k: Kernel, r: Kernel, t: int, st: seq<Activation>)
    requires Shape(k) && Shape(r) && IsTerminal(t) && Simple(st) && 1 < |st| && Chained(k, t, st, true)
    requires r.terms[t] == Term(true, st[1].pid, StackTop(st[1].pid))
    requires forall p :: IsPid(p) ==> r.pcbs[p] == k.pcbs[p].(fds := r.pcbs[p].fds)
    requires forall p :: IsPid(p) && p != st[1].pid ==> r.pcbs[p] == k.pcbs[p]
    requires FdsOk(r.pcbs[st[1].pid].fds)
    ensures Chained(r, t, st[1..], true)
  {
    forall i | 0 <= i < |st| - 1
      ensures PcbMatches(r.pcbs[st[1..][i].pid], t, st[1..], i)
    {
      assert PcbMatches(k.pcbs[st[i + 1].pid], t, st, i + 1);
      assert ParentOf(st[1..], i) == ParentOf(st, i + 1);
      assert st[1..][i] == st[i + 1];
    }
  }

  lemma PopUsed(inUse: seq<int>, m: Machine)
    requires |inUse| == NUM_PROCESSES && Sane(m) && UsedIffLive(inUse, m) && 1 < |m.stacks[m.curr]|
    ensures UsedIffLive(inUse[m.stacks[m.curr][0].pid := 0], SetStack(m, m.curr, m.stacks[m.curr][1..]))
  {
    PopSane(m);
  }

  /** The simulation, from what it says of the scheduled terminal, of the others, and of the rest. */
  lemma Assembled(r: Kernel, n: Machine)
    requires Shape(r) && Sane(n) && UsedIffLive(r.curProcesses, n)
    requires r.curr == n.curr && r.screen == n.screen && !r.baseShell
    requires Chained(r, n.curr, n.stacks[n.curr], true)
    requires forall u :: IsTerminal(u) && u != n.curr ==> Chained(r, u, n.stacks[u], false)
    requires HardwareFollows(r)
    ensures Simulates(r, n)
  {
  }

  lemma PoppedSimulates(k: Kernel, m: Machine, r: Kernel)
    requires Simulates(k, m) && 1 < |m.stacks[m.curr]|
    requires var p, parent := m.stacks[m.curr][0].pid, m.stacks[m.curr][1].pid;
      r == k.(
        curProcesses := k.curProcesses[p := 0],
        pcbs := k.pcbs[parent := k.pcbs[parent].(fds := CloseUpTo(k.pcbs[parent].fds, FILE_DESCRIPTOR_MAX))],
        terms := k.terms[k.curr := Term(true, parent, StackTop(parent))],
        userPage := UserPage(parent), esp0 := StackTop(parent))
    ensures Simulates(r, SetStack(m, m.curr, m.stacks[m.curr][1..]))
  {
    var t, st := m.curr, m.stacks[m.curr];
    assert Chained(k, t, st, true) && PcbMatches(k.pcbs[st[1].pid], t, st, 1) && OnStack(st, st[1].pid);
    CloseUpToOk(k.pcbs[st[1].pid].fds, FILE_DESCRIPTOR_MAX);
    PopSane(m);
    PopUsed(k.curProcesses, m);
    PopChained(k, r, t, st);
    assert !Live(m, -1);
    OthersUntouched(k, m, r, t, -1);
    Assembled(r, SetStack(m, t, st[1..]));
  }

  /** Halt is a pop; it frees exactly the leaf and resumes the caller with the frame saved when it
      executed the leaf. */
  lemma HaltIsPop(k: Kernel, m: Machine, status: Byte)
    requires Simulates(k, m)
    ensures CanHalt(k)
    ensures Simulates(Halt(k, status).0, Pop(m, status).0)
    ensures Halt(k, status).1 == Pop(m, status).1
  {
    var t, st := m.curr, m.stacks[m.curr];
    assert Chained(k, t, st, true);
    assert PcbMatches(k.pcbs[st[0].pid], t, st, 0);
    if 1 < |st| {
      PoppedSimulates(k, m, Halt(k, status).0);
    }
  }

  // ----- The scheduler -----

  lemma SuspendChained(k: Kernel, r: Kernel, t: int, st: seq<Activation>, f: Frame)
    requires Shape(k) && Shape(r) && IsTerminal(t) && Simple(st) && st != [] && Chained(k, t, st, true)
    requires r.terms[t] == k.terms[t]
    requires r.pcbs == k.pcbs[st[0].pid := k.pcbs[st[0].pid].(saved := f)]
    ensures Simple(Suspend(st, f)) && Chained(r, t, Suspend(st, f), false)
  {
    var s := Suspend(st, f);
    forall i | 0 <= i < |st|
      ensures PcbMatches(r.pcbs[s[i].pid], t, s, i) && r.pcbs[s[i].pid].saved == s[i].saved
    {
      assert PcbMatches(k.pcbs[st[i].pid], t, st, i);
      assert s[i].pid == st[i].pid && ParentOf(s, i) == ParentOf(st, i);
    }
  }

  lemma SuspendSane(m: Machine, f: Frame)
    requires Sane(m)
    ensures var s := SetStack(m, m.curr, Suspend(m.stacks[m.curr], f));
      && Sane(s)
      && forall p :: Live(s, p) <==> Live(m, p)
  {
    var st := m.stacks[m.curr];
    forall p
      ensures OnStack(Suspend(st, f), p) <==> OnStack(st, p)
    {
      SuspendOnStack(st, f, p);
    }
    SetStackSane(m, m.curr, Suspend(st, f));
  }

  /** The state of the scheduler once it has saved the preempted leaf: no chain has a running process. */
  ghost predicate Paused(k: Kernel, m: Machine) {
    && Shape(k) && Sane(m)
    && k.screen == m.screen && !k.baseShell
    && UsedIffLive(k.curProcesses, m)
    && (forall t :: IsTerminal(t) ==> Chained(k, t, m.stacks[t], false))
  }

  lemma SaveLeaf(k: Kernel, m: Machine, f: Frame)
    requires Simulates(k, m)
    ensures IsPid(k.terms[k.curr].pid)
    ensures Paused(LeafSaved(k, f), LeafSuspended(m, f))
  {
    var t, st := m.curr, m.stacks[m.curr];
    assert Chained(k, t, st, true) && OnStack(st, st[0].pid);
    var r := SaveFrame(k, k.terms[t].pid, f);
    SuspendSane(m, f);
    SuspendChained(k, r, t, st, f);
    assert !Live(m, -1);
    OthersUntouched(k, m, r, t, -1);
  }

  lemma ResumeSimulates(k: Kernel, m: Machine, t: int)
    requires Paused(k, m) && IsTerminal(t) && m.stacks[t] != []
    ensures var r := ResumeLeaf(k.(curr := t));
      && Simulates(r.0, m.(curr := t))
      && r.1 == Resumed(m.stacks[t][0].saved)
  {
    var r := ResumeLeaf(k.(curr := t)).0;
    assert Chained(k, t, m.stacks[t], false) && IsPid(m.stacks[t][0].pid);
    forall u | IsTerminal(u)
      ensures Chained(r, u, m.stacks[u], u == t)
    {
      ChainUntouched(k, r, u, m.stacks[u], false, u == t);
    }
    var n := m.(curr := t);
    assert forall u :: IsTerminal(u) ==> n.stacks[u] == m.stacks[u];
    assert Sane(n);
  }

  lemma LaunchedSimulates(k: Kernel, m: Machine, r: Kernel, t: int, p: int, f: Frame, eip: int)
    requires Paused(k, m) && IsTerminal(t) && m.stacks[t] == [] && IsPid(p) && !Live(m, p)
    requires r == k.(
      curr := t,
      curProcesses := k.curProcesses[p := 1],
      pcbs := k.pcbs[p := NewPcb(k, p, BASE_SHELL, t, eip)],
      terms := k.terms[t := Term(true, p, StackTop(p))],
      userPage := UserPage(p), esp0 := StackTop(p))
    ensures Simulates(r, SetStack(m, t, [Activation(p, eip, f)]).(curr := t))
  {
    var st := [Activation(p, eip, f)];
    var n := SetStack(m, t, st).(curr := t);
    assert forall q :: OnStack(st, q) <==> q == p by {
      assert st[0].pid == p;
    }
    SetStackSane(m.(curr := t), t, st);
    FreshFdsOk(k.pcbs[p].fds);
    assert PcbMatches(r.pcbs[p], t, st, 0);
    OthersUntouched(k, m, r, t, p);
    Assembled(r, n);
  }

  function Flagged(k: Kernel, t: int): Kernel
    requires Shape(k) && IsTerminal(t)
  {
    SetTerm(k.(curr := t), t, k.terms[t].(flag := true)).(baseShell := true)
  }

  lemma LaunchIsStart(k: Kernel, m: Machine, t: int, f: Frame, shell: Option<int>)
    requires Paused(k, m) && IsTerminal(t) && m.stacks[t] == []
    ensures var p, launched := FreePid(m, 0), Execute(Flagged(k, t), f, shell);
      if shell.Some? && p < NUM_PROCESSES then
        && launched.1 == Entered(p, shell.value)
        && Simulates(launched.0, SetStack(m, t, [Activation(p, shell.value, f)]).(curr := t))
      else launched == (Flagged(k, t), Failed) && k.terms[t].pid == -1
  {
    var flagged := Flagged(k, t);
    assert Chained(k, t, m.stacks[t], false);
    FreePidIsFree(m, flagged, 0);
    if shell.Some? && FreePid(m, 0) < NUM_PROCESSES {
      ExecuteBase(flagged, f, shell.value);
      LaunchedSimulates(k, m, Execute(flagged, f, shell).0, t, FreePid(m, 0), f, shell.value);
    }
  }

  /** The tables once the scheduler has saved the preempted leaf, and the stacks at that point. */
  function LeafSaved(k: Kernel, f: Frame): (r: Kernel)
    requires Shape(k)
    ensures Shape(r) && r.curr == k.curr && r.terms == k.terms
  {
    SaveFrame(k, k.terms[k.curr].pid, f)
  }

  function LeafSuspended(m: Machine, f: Frame): (r: Machine)
    requires |m.stacks| == MAX_TERMINALS && IsTerminal(m.curr) && m.stacks[m.curr] != []
    ensures |r.stacks| == MAX_TERMINALS && r.curr == m.curr
    ensures forall t :: IsTerminal(t) ==> (r.stacks[t] == [] <==> m.stacks[t] == [])
  {
    SetStack(m, m.curr, Suspend(m.stacks[m.curr], f))
  }

  lemma ScheduleCases(k: Kernel, f: Frame, shell: Option<int>)
    requires Shape(k)
    ensures var (saved, next) := (LeafSaved(k, f), NextTerminal(k));
      var launched := Execute(Flagged(saved, next), f, shell);
      Schedule(k, f, shell) ==
        if k.terms[next].flag then ResumeLeaf(saved.(curr := next))
        else if launched.1.Entered? then launched
        else ResumeLeaf(launched.0)
  {
  }

  lemma RotateCases(m: Machine, f: Frame, shell: Option<int>)
    requires Sane(m)
    ensures var (paused, next) := (LeafSuspended(m, f), (m.curr + 1) % MAX_TERMINALS);
      var p := FreePid(paused, 0);
      Rotate(m, f, shell) ==
        if m.stacks[next] != [] then (paused.(curr := next), Resumed(paused.stacks[next][0].saved))
        else if shell.None? || p == NUM_PROCESSES then (paused.(curr := next), Lost)
        else (SetStack(paused, next, [Activation(p, shell.value, f)]).(curr := next), Entered(p, shell.value))
  {
    FreePidMoved(LeafSuspended(m, f), (m.curr + 1) % MAX_TERMINALS, 0);
  }

  lemma FlagMeansStarted(k: Kernel, m: Machine, t: int)
    requires Simulates(k, m) && IsTerminal(t)
    ensures k.terms[t].flag <==> m.stacks[t] != []
  {
    assert Chained(k, t, m.stacks[t], t == m.curr);
  }

  lemma ScheduleResumes(k: Kernel, m: Machine, f: Frame, shell: Option<int>)
    requires Simulates(k, m) && m.stacks[NextTerminal(k)] != []
    ensures Schedule(k, f, shell).1 == Rotate(m, f, shell).1
    ensures Simulates(Schedule(k, f, shell).0, Rotate(m, f, shell).0)
  {
    SaveLeaf(k, m, f);
    FlagMeansStarted(k, m, NextTerminal(k));
    ScheduleCases(k, f, shell);
    RotateCases(m, f, shell);
    ResumeSimulates(LeafSaved(k, f), LeafSuspended(m, f), NextTerminal(k));
  }

  lemma FailedLaunchIsLost(k: Kernel)
    requires Shape(k) && k.baseShell && k.terms[k.curr].pid == -1
    ensures ResumeLeaf(k).1 == Lost && forall n :: !Simulates(ResumeLeaf(k).0, n)
  {
  }

  lemma ScheduleLaunches(k: Kernel, m: Machine, f: Frame, shell: Option<int>)
    requires Simulates(k, m) && m.stacks[NextTerminal(k)] == []
    ensures Schedule(k, f, shell).1 == Rotate(m, f, shell).1
    ensures if Rotate(m, f, shell).1.Lost? then forall n :: !Simulates(Schedule(k, f, shell).0, n)
            else Simulates(Schedule(k, f, shell).0, Rotate(m, f, shell).0)
  {
    var saved, paused, next := LeafSaved(k, f), LeafSuspended(m, f), NextTerminal(k);
    SaveLeaf(k, m, f);
    FlagMeansStarted(k, m, next);
    ScheduleCases(k, f, shell);
    RotateCases(m, f, shell);
    LaunchIsStart(saved, paused, next, f, shell);
    if shell.None? || FreePid(paused, 0) == NUM_PROCESSES {
      FailedLaunchIsLost(Flagged(saved, next));
      assert Schedule(k, f, shell) == ResumeLeaf(Flagged(saved, next)) && Rotate(m, f, shell).1 == Lost;
    } else {
      var p := FreePid(paused, 0);
      assert Schedule(k, f, shell) == Execute(Flagged(saved, next), f, shell);
      assert Rotate(m, f, shell) ==
             (SetStack(paused, next, [Activation(p, shell.value, f)]).(curr := next), Entered(p, shell.value));
    }
  }

  /** A tick is a rotation, unless it has to launch a shell and cannot: then the tables are those of no
      call stacks at all. */
  lemma ScheduleIsRotate(k: Kernel, m: Machine, f: Frame, shell: Option<int>)
    requires Simulates(k, m)
    ensures Schedule(k, f, shell).1 == Rotate(m, f, shell).1
    ensures !Rotate(m, f, shell).1.Lost? ==> Simulates(Schedule(k, f, shell).0, Rotate(m, f, shell).0)
    ensures (exists n :: Simulates(Schedule(k, f, shell).0, n)) <==> !Rotate(m, f, shell).1.Lost?
  {
    if m.stacks[NextTerminal(k)] == [] {
      ScheduleLaunches(k, m, f, shell);
    } else {
      ScheduleResumes(k, m, f, shell);
    }
  }

  /** Which terminal is scheduled does not matter to the search for a free pid. */
  lemma FreePidMoved(m: Machine, t: int, p: int)
    requires |m.stacks| == MAX_TERMINALS && 0 <= p <= NUM_PROCESSES
    ensures FreePid(m.(curr := t), p) == FreePid(m, p)
    decreases NUM_PROCESSES - p
  {
    if p < NUM_PROCESSES {
      FreePidMoved(m, t, p + 1);
    }
  }
}
