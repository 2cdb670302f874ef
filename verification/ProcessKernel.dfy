/** The process tables as the kernel updates them in place. Each method is proved against the function
    of the same purpose in module Processes; module ProcessRuns proves what those functions mean. */
module ProcessKernel {
  import opened Bytes
  import opened Limits
  import opened Descriptors
  import P = Processes

  class Tables {
    const curProcesses: array<int>
    const pcbs: array<P.Pcb>
    const terminalArray: array<P.Term>
    var currTerminal: int
    var screenTerminal: int
    var baseShell: bool
    /** The frame number in page_directory[32]. */
    var userPage: int
    var tssEsp0: int

    ghost predicate Valid()
      reads this, curProcesses, pcbs, terminalArray
    {
      P.Shape(View())
    }

    ghost function View(): P.Kernel
      reads this, curProcesses, pcbs, terminalArray
    {
      P.Kernel(curProcesses[..], pcbs[..], terminalArray[..],
               currTerminal, screenTerminal, baseShell, userPage, tssEsp0)
    }

    /** The static tables and `init_terminal`, with PCB memory that holds anything. */
    constructor (memory: array<P.Pcb>)
      requires memory.Length == P.NUM_PROCESSES
      requires forall p :: P.IsPid(p) ==> |memory[p].fds| == FILE_DESCRIPTOR_MAX
      ensures Valid() && pcbs == memory
      ensures currTerminal == 0 && screenTerminal == 0 && baseShell
      ensures forall p :: P.IsPid(p) ==> View().curProcesses[p] == 0
      ensures forall t :: IsTerminal(t) ==> View().terms[t].pid == -1 && (View().terms[t].flag <==> t == 0)
    {
      pcbs := memory;
      curProcesses := new int[P.NUM_PROCESSES](_ => 0);
      terminalArray := new P.Term[MAX_TERMINALS](t => P.Term(t == 0, -1, 0));
      currTerminal, screenTerminal, baseShell, userPage, tssEsp0 := 0, 0, true, 0, P.EIGHT_MB;
    }

    method ProcessPage(processId: int)
      requires Valid()
      modifies this`userPage
      ensures View() == P.MapUserPage(old(View()), processId)
      ensures userPage == if 0 <= processId < 6 then 2 + processId else old(userPage)
    {
      if processId >= 0 && processId < P.NUM_PROCESSES {
        userPage := (P.EIGHT_MB + P.FOUR_MB * processId) / P.FOUR_MB;
      }
    }

    method UpdateTss(newPid: int, terminalId: int)
      requires Valid() && IsTerminal(terminalId)
      modifies terminalArray
      ensures Valid()
      ensures View() == P.SetTerm(old(View()), terminalId,
                old(View()).terms[terminalId].(baseTssEsp0 := P.StackTop(newPid)))
      ensures terminalArray[terminalId].baseTssEsp0 == 0x80_0000 - newPid * 0x2000
    {
      terminalArray[terminalId] := terminalArray[terminalId].(baseTssEsp0 := P.EIGHT_MB - newPid * P.EIGHT_KB);
    }

    /** The search loop of `system_execute`. */
    method FindFreePid() returns (pid: int)
      requires Valid()
      ensures pid == P.FreePidFrom(View().curProcesses, 0)
    {
      pid := 0;
      while pid < P.NUM_PROCESSES
        invariant 0 <= pid <= P.NUM_PROCESSES
        invariant P.FreePidFrom(View().curProcesses, 0) == P.FreePidFrom(View().curProcesses, pid)
      {
        if curProcesses[pid] == 0 {
          return;
        }
        pid := pid + 1;
      }
    }

    method StoreFrame(pid: int, f: P.Frame)
      requires Valid()
      modifies pcbs
      ensures Valid() && View() == P.SaveFrame(old(View()), pid, f)
    {
      if 0 <= pid < P.NUM_PROCESSES {
        pcbs[pid] := pcbs[pid].(saved := f);
      }
    }

    method LinkProcess(pid: int, f: P.Frame)
      requires Valid() && P.IsPid(pid)
      modifies pcbs, terminalArray
      ensures Valid() && View() == P.Link(old(View()), pid, f)
    {
      if baseShell {
        pcbs[pid] := pcbs[pid].(pid := pid, parentPid := P.BASE_SHELL, terminalId := currTerminal);
        terminalArray[currTerminal] := terminalArray[currTerminal].(pid := pid);
      } else {
        var parent := terminalArray[screenTerminal].pid;
        pcbs[pid] := pcbs[pid].(pid := pid, parentPid := parent, terminalId := screenTerminal);
        StoreFrame(parent, f);
        terminalArray[screenTerminal] := terminalArray[screenTerminal].(pid := pid);
      }
    }

    /** The descriptor set-up of `system_execute`: stdin, stdout, then the loop over the rest. */
    static method InitDescriptors(fds: seq<Descriptor>) returns (r: seq<Descriptor>)
      requires |fds| == FILE_DESCRIPTOR_MAX
      ensures r == P.FreshDescriptors(fds)
      ensures r[0] == Descriptor(TermRead, 0, 0, IN_USE) && r[1] == Descriptor(TermWrite, 0, 0, IN_USE)
      ensures forall i :: FILE_DESCRIPTOR_MIN <= i < FILE_DESCRIPTOR_MAX ==>
        r[i] == Descriptor(fds[i].ops, 0, 0, NOT_IN_USE)
    {
      r := fds[0 := Descriptor(TermRead, 0, 0, IN_USE)];
      r := r[1 := Descriptor(TermWrite, 0, 0, IN_USE)];
      for i := FILE_DESCRIPTOR_MIN to FILE_DESCRIPTOR_MAX
        invariant |r| == FILE_DESCRIPTOR_MAX
        invariant forall j :: 0 <= j < i ==> r[j] == P.ExecuteDescriptor(fds[j], j)
        invariant forall j :: i <= j < FILE_DESCRIPTOR_MAX ==> r[j] == fds[j]
      {
        r := r[i := r[i].(inode := 0, filePos := 0, flags := NOT_IN_USE)];
      }
    }

    method LoadProcess(pid: int, eip: int)
      requires Valid() && P.IsPid(pid)
      modifies this`tssEsp0, pcbs, terminalArray
      ensures Valid() && View() == P.Load(old(View()), pid, eip)
    {
      var fds := InitDescriptors(pcbs[pid].fds);
      pcbs[pid] := pcbs[pid].(fds := fds, tssEsp0 := tssEsp0);
      tssEsp0 := P.EIGHT_MB - pid * P.EIGHT_KB;
      pcbs[pid] := pcbs[pid].(eip := eip);
      UpdateTss(pid, currTerminal);
    }

    method SystemExecute(f: P.Frame, program: Option<int>) returns (outcome: P.Outcome)
      requires Valid()
      modifies this`baseShell, this`userPage, this`tssEsp0, curProcesses, pcbs, terminalArray
      ensures Valid()
      ensures (View(), outcome) == P.Execute(old(View()), f, program)
    {
      if program.None? {
        return P.Failed;
      }
      var pid := FindFreePid();
      if pid == P.NUM_PROCESSES {
        return P.Failed;
      }
      curProcesses[pid] := 1;
      ProcessPage(pid);
      LinkProcess(pid, f);
      baseShell := false;
      LoadProcess(pid, program.value);
      return P.Entered(pid, program.value);
    }

    method SystemClose(fd: int) returns (closed: bool)
      requires Valid() && P.IsPid(terminalArray[currTerminal].pid)
      modifies pcbs
      ensures Valid() && View() == CloseCurrent(old(View()), fd)
      ensures closed == P.Dispatches(old(View()).pcbs[old(View()).terms[currTerminal].pid].fds, fd, P.CloseOp)
      ensures closed ==>
        && FILE_DESCRIPTOR_MIN <= fd < FILE_DESCRIPTOR_MAX
        && var was := old(View()).pcbs[old(View()).terms[currTerminal].pid].fds;
           View().pcbs[terminalArray[currTerminal].pid].fds ==
           was[fd := Descriptor(was[fd].ops, -1, 0, NOT_IN_USE)]
    {
      var pid := terminalArray[currTerminal].pid;
      var fds := pcbs[pid].fds;
      if fd >= FILE_DESCRIPTOR_MIN && fd < FILE_DESCRIPTOR_MAX && fds[fd].flags != NOT_IN_USE {
        pcbs[pid] := pcbs[pid].(fds := fds[fd := fds[fd].(flags := NOT_IN_USE, inode := -1, filePos := 0)]);
        return true;
      }
      assert pcbs[..] == pcbs[..][pid := pcbs[pid].(fds := fds)];
      return false;
    }

    ghost function CloseCurrent(k: P.Kernel, fd: int): P.Kernel
      requires P.Shape(k) && P.IsPid(k.terms[k.curr].pid)
    {
      P.SetFds(k, P.CloseFd(k.pcbs[k.terms[k.curr].pid].fds, fd))
    }

    /** The close loop of `system_halt`. */
    method CloseAll()
      requires Valid() && P.IsPid(terminalArray[currTerminal].pid)
      modifies pcbs
      ensures Valid()
      ensures var k := old(View());
        View() == P.SetFds(k, P.CloseUpTo(k.pcbs[k.terms[k.curr].pid].fds, FILE_DESCRIPTOR_MAX))
    {
      ghost var k := View();
      ghost var pid := k.terms[k.curr].pid;
      assert k.pcbs == k.pcbs[pid := k.pcbs[pid].(fds := k.pcbs[pid].fds)];
      for i := 0 to FILE_DESCRIPTOR_MAX
        invariant Valid()
        invariant View() == P.SetFds(k, P.CloseUpTo(k.pcbs[pid].fds, i))
      {
        var closed := SystemClose(i);
      }
    }

    method SystemHalt(status: Byte) returns (outcome: P.Outcome)
      requires P.CanHalt(View())
      modifies this`userPage, this`tssEsp0, curProcesses, pcbs, terminalArray
      ensures Valid()
      ensures (View(), outcome) == P.Halt(old(View()), status)
    {
      var haltingPid := terminalArray[currTerminal].pid;
      var parentPid := pcbs[haltingPid].parentPid;
      if parentPid == P.BASE_SHELL && terminalArray[currTerminal].flag {
        return P.Restarted(pcbs[haltingPid].eip);
      }
      ghost var k := View();
      curProcesses[haltingPid] := 0;
      terminalArray[currTerminal] := terminalArray[currTerminal].(pid := parentPid);
      ProcessPage(parentPid);
      CloseAll();
      tssEsp0 := P.EIGHT_MB - parentPid * P.EIGHT_KB;
      var eax: int := status;
      if status == P.EXCEPTION {
        eax := P.EXCEPTION + 1;
      }
      UpdateTss(parentPid, currTerminal);
      assert View().pcbs == P.Halt(k, status).0.pcbs;
      assert View().terms == P.Halt(k, status).0.terms;
      return P.Returned(pcbs[parentPid].saved, eax);
    }

    method Scheduler(f: P.Frame, shell: Option<int>) returns (outcome: P.Outcome)
      requires Valid()
      modifies this`currTerminal, this`baseShell, this`userPage, this`tssEsp0, curProcesses, pcbs, terminalArray
      ensures Valid()
      ensures (View(), outcome) == P.Schedule(old(View()), f, shell)
    {
      ghost var k := View();
      var oldPid := terminalArray[currTerminal].pid;
      currTerminal := (currTerminal + 1) % MAX_TERMINALS;
      StoreFrame(oldPid, f);
      ghost var moved := View();
      assert moved == P.SaveFrame(k, oldPid, f).(curr := P.NextTerminal(k));
      if !terminalArray[currTerminal].flag {
        terminalArray[currTerminal] := terminalArray[currTerminal].(flag := true);
        baseShell := true;
        assert View() == P.SetTerm(moved, moved.curr, moved.terms[moved.curr].(flag := true)).(baseShell := true);
        outcome := SystemExecute(f, shell);
        if outcome.Entered? {
          return;
        }
      }
      outcome := ResumeScheduled();
    }

    /** The second half of `scheduler`. */
    method ResumeScheduled() returns (outcome: P.Outcome)
      requires Valid()
      modifies this`userPage, this`tssEsp0
      ensures (View(), outcome) == P.ResumeLeaf(old(View()))
    {
      var nextPid := terminalArray[currTerminal].pid;
      ProcessPage(nextPid);
      tssEsp0 := terminalArray[currTerminal].baseTssEsp0;
      if 0 <= nextPid < P.NUM_PROCESSES {
        outcome := P.Resumed(pcbs[nextPid].saved);
      } else {
        outcome := P.Lost;
      }
    }

    /** `system_open`: `entry` is the result of looking the name up. */
    method SystemOpen(entry: Option<P.Entry>) returns (index: int)
      requires Valid() && P.IsPid(terminalArray[currTerminal].pid)
      modifies pcbs
      ensures Valid()
      ensures var k := old(View());
        var r := P.OpenFd(k.pcbs[k.terms[k.curr].pid].fds, entry);
        View() == P.SetFds(k, r.0) && index == r.1
      ensures index != -1 ==>
        && entry.Some? && 0 <= index < FILE_DESCRIPTOR_MAX
        && var d := View().pcbs[View().terms[currTerminal].pid].fds[index];
           && d.flags == IN_USE && d.inode == entry.value.inode && d.filePos == 0
           && (entry.value.fileType == 0 ==> d.ops == Rtc)
           && (entry.value.fileType == 1 ==> d.ops == Dir)
           && (entry.value.fileType == 2 ==> d.ops == File)
    {
      var pid := terminalArray[currTerminal].pid;
      var fds := pcbs[pid].fds;
      assert pcbs[..] == pcbs[..][pid := pcbs[pid].(fds := fds)];
      index := -1;
      var i := FILE_DESCRIPTOR_MIN;
      while i < FILE_DESCRIPTOR_MAX
        invariant FILE_DESCRIPTOR_MIN <= i <= FILE_DESCRIPTOR_MAX && index == -1
        invariant P.FreeFdFrom(fds, FILE_DESCRIPTOR_MIN) == P.FreeFdFrom(fds, i)
      {
        if fds[i].flags == NOT_IN_USE {
          index := i;
          break;
        }
        i := i + 1;
      }
      if entry.None? || index == -1 {
        return -1;
      }
      var d := fds[index].(flags := IN_USE, inode := entry.value.inode, filePos := 0);
      match entry.value.fileType {
        case 0 => d := d.(ops := Rtc);
        case 1 => d := d.(ops := Dir);
        case 2 => d := d.(ops := File);
        case _ =>
      }
      pcbs[pid] := pcbs[pid].(fds := fds[index := d]);
    }

    /** Which table `system_read` and `system_write` call through, if any. */
    method Dispatch(fd: int, op: P.Operation) returns (ops: Option<Ops>)
      requires Valid() && P.IsPid(terminalArray[currTerminal].pid) && (op == P.ReadOp || op == P.WriteOp)
      ensures var fds := View().pcbs[View().terms[currTerminal].pid].fds;
        ops == if P.Dispatches(fds, fd, op) then Some(fds[fd].ops) else None
    {
      var fds := pcbs[terminalArray[currTerminal].pid].fds;
      var lowest := if op == P.WriteOp then 1 else 0;
      if fd >= lowest && fd < FILE_DESCRIPTOR_MAX && (op == P.WriteOp || fd != 1) && fds[fd].flags != NOT_IN_USE {
        return Some(fds[fd].ops);
      }
      return None;
    }

    /** `system_read`, as far as the tables go: the table it calls through, and the position that a read of a
        file moves. */
    method SystemRead(fd: int, nbytes: int) returns (ops: Option<Ops>)
      requires Valid() && P.IsPid(terminalArray[currTerminal].pid)
      modifies pcbs
      ensures Valid()
      ensures var k := old(View());
        var fds := k.pcbs[k.terms[k.curr].pid].fds;
        && ops == (if P.Dispatches(fds, fd, P.ReadOp) then Some(fds[fd].ops) else None)
        && View() == P.SetFds(k, P.ReadFds(fds, fd, nbytes))
      ensures var k := old(View());
        var fds := k.pcbs[k.terms[k.curr].pid].fds;
        View() == P.SetFds(k, if ops != Some(File) then fds
                              else fds[fd := fds[fd].(filePos := Signed32(fds[fd].filePos + nbytes))])
    {
      var pid := terminalArray[currTerminal].pid;
      var fds := pcbs[pid].fds;
      assert pcbs[..] == pcbs[..][pid := pcbs[pid].(fds := fds)];
      ops := Dispatch(fd, P.ReadOp);
      if ops == Some(File) {
        pcbs[pid] := pcbs[pid].(fds := fds[fd := fds[fd].(filePos := Signed32(fds[fd].filePos + nbytes))]);
      }
    }
  }
}
