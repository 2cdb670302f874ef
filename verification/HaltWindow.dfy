/** The end of `system_halt`: interrupts are on again before the parent's saved frame is loaded. What
    frame does the parent go on from, if ticks fall into that window? */
module HaltWindow {
  import opened Bytes
  import opened Limits
  import opened Descriptors
  import opened Processes
  import opened CallStacks
  import opened ProcessRuns

  /** Along the run, terminal t's own program does nothing: it is in the window. The other terminals run
      freely. */
  ghost predicate InWindow(m: Machine, es: seq<Event>, t: int)
    requires IsTerminal(t)
    ensures InWindow(m, es, t) ==> AllAllowed(m, es)
    decreases es
  {
    && Sane(m) && m.stacks[t] != []
    && (es != [] ==>
          && Allowed(m, es[0])
          && (m.curr == t ==> es[0].Tick? || es[0].SwitchScreen?)
          && InWindow(MachineStep(m, es[0]).0, es[1..], t))
  }

  /** The frame last saved for terminal t's leaf: f, unless a tick has preempted it since. */
  ghost function LastSaved(m: Machine, es: seq<Event>, t: int, f: Frame): Frame
    requires IsTerminal(t) && InWindow(m, es, t)
    decreases es
  {
    if es == [] then f
    else LastSaved(MachineStep(m, es[0]).0, es[1..], t, if es[0].Tick? && m.curr == t then es[0].f else f)
  }

  /** Terminal t's leaf, and the frame stored for it. */
  function Leaf(m: Machine, t: int): int
    requires IsTerminal(t) && |m.stacks| == MAX_TERMINALS && m.stacks[t] != []
  {
    m.stacks[t][0].pid
  }

  ghost predicate Stored(k: Kernel, p: int, f: Frame) {
    Shape(k) && IsPid(p) && k.pcbs[p].saved == f
  }

  lemma LeafStays(m: Machine, e: Event, t: int)
    requires Sane(m) && Allowed(m, e) && IsTerminal(t) && m.stacks[t] != []
    requires m.curr == t ==> e.Tick? || e.SwitchScreen?
    ensures MachineStep(m, e).0.stacks[t] != [] && Leaf(MachineStep(m, e).0, t) == Leaf(m, t)
  {
  }

  lemma LeafIsRunning(k: Kernel, m: Machine, t: int)
    requires Simulates(k, m) && IsTerminal(t) && m.stacks[t] != []
    ensures IsPid(Leaf(m, t)) && k.terms[t].pid == Leaf(m, t) && Live(m, Leaf(m, t))
    ensures k.curProcesses[Leaf(m, t)] != 0
    ensures t != m.curr ==> Leaf(m, t) != k.terms[k.curr].pid
  {
    assert Chained(k, t, m.stacks[t], t == m.curr);
    assert Chained(k, m.curr, m.stacks[m.curr], true);
    assert OnStack(m.stacks[t], Leaf(m, t)) && OnStack(m.stacks[m.curr], Leaf(m, m.curr));
    assert t != m.curr ==> Apart(m.stacks[t], m.stacks[m.curr]);
  }

  /** Execute stores the caller's frame and sets up a free slot; no other frame changes. */
  lemma ExecuteStores(k: Kernel, f: Frame, program: Option<int>, p: int, g: Frame)
    requires Stored(k, p, g) && k.curProcesses[p] != 0
    requires p != (if k.baseShell then -1 else k.terms[k.screen].pid)
    ensures Stored(Execute(k, f, program).0, p, g)
  {
  }

  lemma ScheduleStores(k: Kernel, f: Frame, shell: Option<int>, p: int, g: Frame)
    requires Stored(k, p, g) && k.curProcesses[p] != 0
    ensures Stored(Schedule(k, f, shell).0, p, if p == k.terms[k.curr].pid then f else g)
  {
    var moved := SaveFrame(k, k.terms[k.curr].pid, f).(curr := NextTerminal(k));
    var saved := if p == k.terms[k.curr].pid then f else g;
    assert Stored(moved, p, saved);
    if !moved.terms[moved.curr].flag {
      var flagged := SetTerm(moved, moved.curr, moved.terms[moved.curr].(flag := true)).(baseShell := true);
      ExecuteStores(flagged, f, shell, p, saved);
    }
  }

  lemma HaltStores(k: Kernel, status: Byte, p: int, g: Frame)
    requires CanHalt(k) && Stored(k, p, g)
    ensures Stored(Halt(k, status).0, p, g)
  {
  }

  /** One step in the window: a tick of terminal t's own turn overwrites the frame, nothing else does. */
  lemma StepStores(k: Kernel, m: Machine, e: Event, t: int, f: Frame)
    requires Simulates(k, m) && Allowed(m, e) && IsTerminal(t) && m.stacks[t] != []
    requires m.curr == t ==> e.Tick? || e.SwitchScreen?
    requires Stored(k, Leaf(m, t), f)
    ensures CanHalt(k)
    ensures Stored(Step(k, e).0, Leaf(m, t), if e.Tick? && m.curr == t then e.f else f)
  {
    var p := Leaf(m, t);
    LeafIsRunning(k, m, t);
    CurrentFdsOk(k, m);
    match e
    case ExecuteCall(g, program) =>
      FreePidIsFree(m, k, 0);
      if Push(m, g, program).1.Entered? {
        ExecuteStores(k, g, program, p, f);
      }
    case HaltCall(status) => HaltStores(k, status, p, f);
    case Tick(g, shell) => ScheduleStores(k, g, shell, p, f);
    case _ =>
  }

  lemma {:induction false} WindowStores(k: Kernel, m: Machine, es: seq<Event>, t: int, f: Frame)
    requires Simulates(k, m) && IsTerminal(t) && InWindow(m, es, t) && Stored(k, Leaf(m, t), f)
    ensures Runs(k, es)
    ensures Stored(Run(k, es).0, Leaf(m, t), LastSaved(m, es, t, f))
    decreases es
  {
    if es != [] {
      StepStores(k, m, es[0], t, f);
      LeafStays(m, es[0], t);
      StepSimulates(k, m, es[0]);
      WindowStores(Step(k, es[0]).0, MachineStep(m, es[0]).0, es[1..], t,
                   if es[0].Tick? && m.curr == t then es[0].f else f);
    }
  }

  /** The frames that t's own ticks save along the run are other frames than f. */
  ghost predicate SavesOthers(m: Machine, es: seq<Event>, t: int, f: Frame)
    requires IsTerminal(t) && InWindow(m, es, t)
    decreases es
  {
    es != [] ==>
      && (es[0].Tick? && m.curr == t ==> es[0].f != f)
      && SavesOthers(MachineStep(m, es[0]).0, es[1..], t, f)
  }

  /** A frame that has been overwritten by others is not found again. */
  lemma {:induction false} OverwrittenStays(m: Machine, es: seq<Event>, t: int, g: Frame, f: Frame)
    requires IsTerminal(t) && InWindow(m, es, t) && SavesOthers(m, es, t, f) && g != f
    ensures LastSaved(m, es, t, g) != f
    decreases es
  {
    if es != [] {
      var tick := es[0].Tick? && m.curr == t;
      OverwrittenStays(MachineStep(m, es[0]).0, es[1..], t, if tick then es[0].f else g, f);
    }
  }

  /** From t's own turn on, the saved frame is overwritten exactly if there is a tick: the first tick is t's. */
  lemma {:induction false} KeptWithoutTicks(m: Machine, es: seq<Event>, t: int, f: Frame)
    requires IsTerminal(t) && InWindow(m, es, t) && m.curr == t && SavesOthers(m, es, t, f)
    ensures LastSaved(m, es, t, f) == f <==> Ticks(es) == 0
    decreases es
  {
    if es != [] {
      var next := MachineStep(m, es[0]).0;
      StepMoves(m, es[0]);
      if es[0].Tick? {
        OverwrittenStays(next, es[1..], t, es[0].f, f);
      } else {
        KeptWithoutTicks(next, es[1..], t, f);
      }
    }
  }

  /** What lies on the kernel stack of process p. */
  predicate OnKernelStack(f: Frame, p: int) {
    PcbAddress(p) <= f.esp < StackTop(p)
  }

  /** A frame that a halt is preempted at lies on the halting process's kernel stack, so it is not the frame
      that its parent executed it from. */
  lemma StacksDiffer(f: Frame, g: Frame, p: int, q: int)
    requires IsPid(p) && IsPid(q) && p != q && OnKernelStack(f, p) && OnKernelStack(g, q)
    ensures f != g
  {
    if p < q {
      RegionsDisjoint(p, q);
    } else {
      RegionsDisjoint(q, p);
    }
  }

  ghost predicate SavesOn(m: Machine, es: seq<Event>, t: int, p: int)
    requires IsTerminal(t) && InWindow(m, es, t)
    decreases es
  {
    es != [] ==>
      && (es[0].Tick? && m.curr == t ==> OnKernelStack(es[0].f, p))
      && SavesOn(MachineStep(m, es[0]).0, es[1..], t, p)
  }

  lemma {:induction false} SavesOnAnotherStack(m: Machine, es: seq<Event>, t: int, p: int, q: int, f: Frame)
    requires IsTerminal(t) && InWindow(m, es, t) && SavesOn(m, es, t, p)
    requires IsPid(p) && IsPid(q) && p != q && OnKernelStack(f, q)
    ensures SavesOthers(m, es, t, f)
    decreases es
  {
    if es != [] {
      if es[0].Tick? && m.curr == t {
        StacksDiffer(es[0].f, f, p, q);
      }
      SavesOnAnotherStack(MachineStep(m, es[0]).0, es[1..], t, p, q, f);
    }
  }

  /** The parent goes on from the frame of its own execute if and only if no tick falls into the window, for
      every way the window can go. A tick saves the frame of the preempted halt as the parent's, because the
      terminal's pid is already the parent's. */
  lemma ParentResumesAt(k: Kernel, m: Machine, status: Byte, es: seq<Event>)
    requires Simulates(k, m) && 1 < |m.stacks[m.curr]|
    requires InWindow(Pop(m, status).0, es, m.curr)
    requires SavesOthers(Pop(m, status).0, es, m.curr, m.stacks[m.curr][1].saved)
    ensures CanHalt(k) && Runs(Halt(k, status).0, es)
    ensures var (r, parent) := (Run(Halt(k, status).0, es).0, m.stacks[m.curr][1]);
      && Stored(r, parent.pid, LastSaved(Pop(m, status).0, es, m.curr, parent.saved))
      && (Stored(r, parent.pid, parent.saved) <==> Ticks(es) == 0)
  {
    var t, st := m.curr, m.stacks[m.curr];
    var popped, halted := Pop(m, status).0, Halt(k, status).0;
    HaltIsPop(k, m, status);
    assert Chained(k, t, st, true);
    HaltStores(k, status, st[1].pid, st[1].saved);
    WindowStores(halted, popped, es, t, st[1].saved);
    KeptWithoutTicks(popped, es, t, st[1].saved);
  }

  /** With frames where the kernel keeps them, each on its process's own kernel stack. */
  lemma ParentResumesOnStacks(k: Kernel, m: Machine, status: Byte, es: seq<Event>)
    requires Simulates(k, m) && 1 < |m.stacks[m.curr]|
    requires InWindow(Pop(m, status).0, es, m.curr)
    requires SavesOn(Pop(m, status).0, es, m.curr, m.stacks[m.curr][0].pid)
    requires OnKernelStack(m.stacks[m.curr][1].saved, m.stacks[m.curr][1].pid)
    ensures CanHalt(k) && Runs(Halt(k, status).0, es)
    ensures var parent := m.stacks[m.curr][1];
      Stored(Run(Halt(k, status).0, es).0, parent.pid, parent.saved) <==> Ticks(es) == 0
  {
    var st := m.stacks[m.curr];
    assert st[0].pid != st[1].pid && IsPid(st[0].pid) && IsPid(st[1].pid);
    SavesOnAnotherStack(Pop(m, status).0, es, m.curr, st[0].pid, st[1].pid, st[1].saved);
    ParentResumesAt(k, m, status, es);
  }

  // ----- The stack the halt still stands on -----

  /** Some step of the run starts a program in slot p. */
  ghost predicate Enters(m: Machine, es: seq<Event>, p: int)
    requires AllAllowed(m, es)
    decreases es
  {
    es != [] && (EntersNow(m, es[0], p) || Enters(MachineStep(m, es[0]).0, es[1..], p))
  }

  ghost predicate EntersNow(m: Machine, e: Event, p: int)
    requires Sane(m)
  {
    var outcome := MachineStep(m, e).1;
    outcome.Some? && outcome.value.Entered? && outcome.value.pid == p
  }

  /** Along the run, slot p stays free. */
  ghost predicate StaysFree(k: Kernel, es: seq<Event>, p: int)
    requires Runs(k, es)
    decreases es
  {
    && Shape(k) && IsPid(p) && k.curProcesses[p] == 0
    && (es != [] ==> StaysFree(Step(k, es[0]).0, es[1..], p))
  }

  lemma FreeAfterStep(m: Machine, e: Event, p: int)
    requires Sane(m) && Allowed(m, e) && Sane(MachineStep(m, e).0) && IsPid(p) && !Live(m, p)
    ensures Live(MachineStep(m, e).0, p) <==> EntersNow(m, e, p)
  {
    match e
    case ExecuteCall(f, program) => FreeAfterPush(m, f, program, p);
    case HaltCall(status) =>
      if 1 < |m.stacks[m.curr]| {
        PopSane(m);
      }
    case Tick(f, shell) => FreeAfterRotate(m, f, shell, p);
    case _ =>
  }

  lemma FreeAfterPush(m: Machine, f: Frame, program: Option<int>, p: int)
    requires Sane(m) && IsPid(p) && !Live(m, p)
    ensures Live(Push(m, f, program).0, p) <==> Push(m, f, program).1.Entered? && Push(m, f, program).1.pid == p
  {
    FreePidMeans(m, 0);
    var q := FreePid(m, 0);
    if program.Some? && q < NUM_PROCESSES {
      PushSane(m, f, Activation(q, program.value, f));
    }
  }

  lemma FreeAfterRotate(m: Machine, f: Frame, shell: Option<int>, p: int)
    requires Sane(m) && IsPid(p) && !Live(m, p)
    ensures Live(Rotate(m, f, shell).0, p) <==> Rotate(m, f, shell).1.Entered? && Rotate(m, f, shell).1.pid == p
  {
    var paused, next := LeafSuspended(m, f), (m.curr + 1) % MAX_TERMINALS;
    SuspendSane(m, f);
    RotateCases(m, f, shell);
    assert !Live(paused, p);
    if m.stacks[next] == [] && shell.Some? && FreePid(paused, 0) < NUM_PROCESSES {
      var st := [Activation(FreePid(paused, 0), shell.value, f)];
      assert st[0].pid == FreePid(paused, 0);
      assert OnStack(st, p) <==> p == FreePid(paused, 0);
    }
  }

  lemma {:induction false} FreeUntilEntered(k: Kernel, m: Machine, es: seq<Event>, p: int)
    requires Simulates(k, m) && AllAllowed(m, es) && IsPid(p) && !Live(m, p)
    ensures Runs(k, es)
    ensures StaysFree(k, es, p) <==> !Enters(m, es, p)
    decreases es
  {
    RunSimulates(k, m, es);
    if es != [] {
      var e, rest := es[0], es[1..];
      var r, n := Step(k, e).0, MachineStep(m, e).0;
      StepSimulates(k, m, e);
      FreeAfterStep(m, e, p);
      if EntersNow(m, e, p) {
        assert r.curProcesses[p] != 0;
      } else {
        FreeUntilEntered(r, n, rest, p);
      }
    }
  }

  /** A halt that is preempted in the window still stands on the kernel stack of the slot it has freed. Nobody
      else gets that stack if and only if no program is started in that slot meanwhile. */
  lemma FreedStackIsKept(k: Kernel, m: Machine, status: Byte, es: seq<Event>)
    requires Simulates(k, m) && 1 < |m.stacks[m.curr]|
    requires InWindow(Pop(m, status).0, es, m.curr)
    ensures CanHalt(k) && Runs(Halt(k, status).0, es)
    ensures StaysFree(Halt(k, status).0, es, m.stacks[m.curr][0].pid) <==>
            !Enters(Pop(m, status).0, es, m.stacks[m.curr][0].pid)
  {
    HaltIsPop(k, m, status);
    PopSane(m);
    FreeUntilEntered(Halt(k, status).0, Pop(m, status).0, es, m.stacks[m.curr][0].pid);
  }
}
