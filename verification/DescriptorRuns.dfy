/** A program's reads of a file, in any interleaving with the other terminals: they go on from the position of
    its own descriptor. */
module DescriptorRuns {
  import opened Bytes
  import opened Limits
  import opened Descriptors
  import opened Processes
  import opened CallStacks
  import opened ProcessRuns
  import FileSystem
  import HaltWindow
  import SequentialReads

  /** Process p has this descriptor in slot fd. */
  ghost predicate HasDescriptor(k: Kernel, p: int, fd: int, d: Descriptor) {
    Shape(k) && IsPid(p) && 0 <= fd < FILE_DESCRIPTOR_MAX && k.pcbs[p].fds[fd] == d
  }

  predicate IsOpenFile(d: Descriptor) {
    d.flags == IN_USE && d.ops == File
  }

  /** Along the run terminal t's leaf stays the leaf, and does not close fd. It may read, open and close other
      descriptors, and the other terminals run freely. */
  ghost predicate KeepsOpen(m: Machine, es: seq<Event>, t: int, fd: int)
    requires IsTerminal(t)
    ensures KeepsOpen(m, es, t, fd) ==> AllAllowed(m, es)
    decreases es
  {
    && Sane(m) && m.stacks[t] != []
    && (es != [] ==>
          && Allowed(m, es[0])
          && LeafKeepsOpen(m, es[0], t, fd)
          && KeepsOpen(MachineStep(m, es[0]).0, es[1..], t, fd))
  }

  ghost predicate LeafKeepsOpen(m: Machine, e: Event, t: int, fd: int)
    requires Sane(m) && IsTerminal(t) && m.stacks[t] != []
  {
    m.curr == t ==> |MachineStep(m, e).0.stacks[t]| == |m.stacks[t]| && e != CloseCall(fd)
  }

  /** Terminal t's leaf reads from fd. */
  predicate IsOwnRead(curr: int, e: Event, t: int, fd: int) {
    curr == t && e.ReadCall? && e.fd == fd
  }

  function After(m: Machine, e: Event, t: int, fd: int, d: Descriptor): Descriptor {
    if IsOwnRead(m.curr, e, t, fd) then AfterRead(d, e.nbytes) else d
  }

  lemma LeafStays(m: Machine, e: Event, t: int, fd: int)
    requires Sane(m) && Allowed(m, e) && IsTerminal(t) && m.stacks[t] != [] && LeafKeepsOpen(m, e, t, fd)
    ensures MachineStep(m, e).0.stacks[t] != []
    ensures HaltWindow.Leaf(MachineStep(m, e).0, t) == HaltWindow.Leaf(m, t)
  {
  }

  // ----- What each call does to a descriptor -----

  lemma ExecuteKeeps(k: Kernel, f: Frame, program: Option<int>, p: int, fd: int, d: Descriptor)
    requires HasDescriptor(k, p, fd, d) && k.curProcesses[p] != 0
    ensures HasDescriptor(Execute(k, f, program).0, p, fd, d)
  {
  }

  lemma ScheduleKeeps(k: Kernel, f: Frame, shell: Option<int>, p: int, fd: int, d: Descriptor)
    requires HasDescriptor(k, p, fd, d) && k.curProcesses[p] != 0
    ensures HasDescriptor(Schedule(k, f, shell).0, p, fd, d)
  {
    var moved := LeafSaved(k, f).(curr := NextTerminal(k));
    assert HasDescriptor(moved, p, fd, d);
    ScheduleCases(k, f, shell);
    if !moved.terms[moved.curr].flag {
      ExecuteKeeps(Flagged(LeafSaved(k, f), NextTerminal(k)), f, shell, p, fd, d);
    }
  }

  /** A halt closes descriptors of the caller that it resumes, and of no other process. */
  lemma HaltKeeps(k: Kernel, status: Byte, p: int, fd: int, d: Descriptor)
    requires CanHalt(k) && HasDescriptor(k, p, fd, d)
    requires Halt(k, status).1.Returned? ==> p != k.pcbs[k.terms[k.curr].pid].parentPid
    ensures HasDescriptor(Halt(k, status).0, p, fd, d)
  {
  }

  lemma SetFdsKeeps(k: Kernel, fds: seq<Descriptor>, p: int, fd: int, d: Descriptor)
    requires Shape(k) && IsPid(k.terms[k.curr].pid) && |fds| == FILE_DESCRIPTOR_MAX && HasDescriptor(k, p, fd, d)
    ensures HasDescriptor(SetFds(k, fds), p, fd, if p == k.terms[k.curr].pid then fds[fd] else d)
  {
  }

  lemma FdsStepKeeps(fds: seq<Descriptor>, e: Event, fd: int)
    requires |fds| == FILE_DESCRIPTOR_MAX && FILE_DESCRIPTOR_MIN <= fd < FILE_DESCRIPTOR_MAX && IsOpenFile(fds[fd])
    ensures e.OpenCall? ==> OpenFd(fds, e.entry).0[fd] == fds[fd]
    ensures e.CloseCall? && e.fd != fd ==> CloseFd(fds, e.fd)[fd] == fds[fd]
    ensures e.ReadCall? ==>
      ReadFds(fds, e.fd, e.nbytes)[fd] == if e.fd == fd then AfterRead(fds[fd], e.nbytes) else fds[fd]
  {
  }

  lemma FdsEventKeeps(k: Kernel, m: Machine, e: Event, t: int, fd: int, d: Descriptor)
    requires Simulates(k, m) && Allowed(m, e) && IsTerminal(t) && m.stacks[t] != []
    requires e.OpenCall? || e.CloseCall? || e.ReadCall?
    requires LeafKeepsOpen(m, e, t, fd) && FILE_DESCRIPTOR_MIN <= fd && IsOpenFile(d)
    requires HasDescriptor(k, HaltWindow.Leaf(m, t), fd, d)
    ensures CanHalt(k)
    ensures HasDescriptor(Step(k, e).0, HaltWindow.Leaf(m, t), fd, After(m, e, t, fd, d))
  {
    var p := HaltWindow.Leaf(m, t);
    HaltWindow.LeafIsRunning(k, m, t);
    CurrentFdsOk(k, m);
    var fds := CurrentFds(k);
    var after := match e
      case OpenCall(entry) => OpenFd(fds, entry).0
      case CloseCall(c) => CloseFd(fds, c)
      case ReadCall(c, n) => ReadFds(fds, c, n)
      case _ => fds;
    SetFdsKeeps(k, after, p, fd, d);
    if t == m.curr {
      FdsStepKeeps(fds, e, fd);
    }
  }

  lemma ParentIsOnStack(k: Kernel, m: Machine, t: int)
    requires Simulates(k, m) && IsTerminal(t) && m.stacks[t] != [] && 1 < |m.stacks[m.curr]|
    ensures IsPid(k.terms[k.curr].pid)
    ensures t != m.curr ==> HaltWindow.Leaf(m, t) != k.pcbs[k.terms[k.curr].pid].parentPid
  {
    var st := m.stacks[m.curr];
    assert Chained(k, m.curr, st, true) && PcbMatches(k.pcbs[st[0].pid], m.curr, st, 0);
    assert OnStack(st, st[1].pid) && OnStack(m.stacks[t], HaltWindow.Leaf(m, t));
    assert t != m.curr ==> Apart(m.stacks[t], st);
  }

  lemma HaltEventKeeps(k: Kernel, m: Machine, e: Event, t: int, fd: int, d: Descriptor)
    requires Simulates(k, m) && e.HaltCall? && IsTerminal(t) && m.stacks[t] != [] && LeafKeepsOpen(m, e, t, fd)
    requires HasDescriptor(k, HaltWindow.Leaf(m, t), fd, d)
    ensures CanHalt(k)
    ensures HasDescriptor(Step(k, e).0, HaltWindow.Leaf(m, t), fd, d)
  {
    HaltIsPop(k, m, e.status);
    if 1 < |m.stacks[m.curr]| {
      ParentIsOnStack(k, m, t);
    }
    HaltKeeps(k, e.status, HaltWindow.Leaf(m, t), fd, d);
  }

  /** One step: only the leaf's own read of fd moves the descriptor, and by the size asked for. */
  lemma StepMovesOwn(k: Kernel, m: Machine, e: Event, t: int, fd: int, d: Descriptor)
    requires Simulates(k, m) && Allowed(m, e) && IsTerminal(t) && m.stacks[t] != [] && LeafKeepsOpen(m, e, t, fd)
    requires FILE_DESCRIPTOR_MIN <= fd && IsOpenFile(d) && HasDescriptor(k, HaltWindow.Leaf(m, t), fd, d)
    ensures CanHalt(k)
    ensures HasDescriptor(Step(k, e).0, HaltWindow.Leaf(m, t), fd, After(m, e, t, fd, d))
  {
    var p := HaltWindow.Leaf(m, t);
    HaltWindow.LeafIsRunning(k, m, t);
    CurrentFdsOk(k, m);
    match e
    case ExecuteCall(f, program) => ExecuteKeeps(k, f, program, p, fd, d);
    case HaltCall(_) => HaltEventKeeps(k, m, e, t, fd, d);
    case Tick(f, shell) => ScheduleKeeps(k, f, shell, p, fd, d);
    case SwitchScreen(_) =>
    case _ => FdsEventKeeps(k, m, e, t, fd, d);
  }

  // ----- Whole runs -----

  /** The sizes of the reads from fd that terminal t's process makes along the run. */
  ghost function OwnSizes(k: Kernel, es: seq<Event>, t: int, fd: int): seq<nat>
    requires Runs(k, es)
    decreases es
  {
    if es == [] then []
    else
      (if IsOwnRead(k.curr, es[0], t, fd) then [Unsigned32(es[0].nbytes)] else []) +
      OwnSizes(Step(k, es[0]).0, es[1..], t, fd)
  }

  /** Those reads, each from where the descriptor stands in the state it is made in. */
  ghost function OwnCalls(k: Kernel, es: seq<Event>, t: int, fd: int): seq<SequentialReads.Call>
    requires Runs(k, es) && 0 <= fd < FILE_DESCRIPTOR_MAX
    decreases es
  {
    if es == [] then []
    else
      (if IsOwnRead(k.curr, es[0], t, fd) then
         [SequentialReads.Call(Unsigned32(CurrentFds(k)[fd].filePos), Unsigned32(es[0].nbytes))]
       else []) +
      OwnCalls(Step(k, es[0]).0, es[1..], t, fd)
  }

  function NextPos(curr: int, e: Event, t: int, fd: int, pos: nat): nat {
    if IsOwnRead(curr, e, t, fd) then pos + Unsigned32(e.nbytes) else pos
  }

  /** Each of those reads finds its descriptor where the previous one left it, `pos` at first. */
  ghost predicate GoesOn(k: Kernel, es: seq<Event>, t: int, fd: int, pos: nat)
    requires Runs(k, es) && 0 <= fd < FILE_DESCRIPTOR_MAX
    decreases es
  {
    es != [] ==>
      && (IsOwnRead(k.curr, es[0], t, fd) ==> Unsigned32(CurrentFds(k)[fd].filePos) == pos % TWO_32)
      && GoesOn(Step(k, es[0]).0, es[1..], t, fd, NextPos(k.curr, es[0], t, fd, pos))
  }

  lemma {:induction false} CallsGoOn(k: Kernel, es: seq<Event>, t: int, fd: int, pos: nat)
    requires Runs(k, es) && 0 <= fd < FILE_DESCRIPTOR_MAX && GoesOn(k, es, t, fd, pos)
    ensures OwnCalls(k, es, t, fd) == SequentialReads.CallsFrom(pos, OwnSizes(k, es, t, fd))
    ensures SequentialReads.Sizes32(OwnSizes(k, es, t, fd))
    decreases es
  {
    if es != [] {
      var r, rest := Step(k, es[0]).0, es[1..];
      var next := NextPos(k.curr, es[0], t, fd, pos);
      CallsGoOn(r, rest, t, fd, next);
      if IsOwnRead(k.curr, es[0], t, fd) {
        assert OwnSizes(k, es, t, fd)[1..] == OwnSizes(r, rest, t, fd);
      } else {
        assert OwnSizes(k, es, t, fd) == OwnSizes(r, rest, t, fd);
      }
    }
  }

  /** The descriptor stands at pos, modulo 2^32. */
  ghost predicate StandsAt(d: Descriptor, pos: nat) {
    IsOpenFile(d) && Unsigned32(d.filePos) == pos % TWO_32
  }

  lemma AfterStandsAt(m: Machine, e: Event, t: int, fd: int, d: Descriptor, pos: nat)
    requires StandsAt(d, pos)
    ensures StandsAt(After(m, e, t, fd, d), NextPos(m.curr, e, t, fd, pos))
  {
    if IsOwnRead(m.curr, e, t, fd) {
      PositionsAdd(d, e.nbytes, pos);
    }
  }

  lemma CurrentIsLeaf(k: Kernel, m: Machine)
    requires Simulates(k, m)
    ensures CanHalt(k) && k.terms[k.curr].pid == HaltWindow.Leaf(m, m.curr)
  {
    CurrentFdsOk(k, m);
    assert Chained(k, m.curr, m.stacks[m.curr], true);
  }

  lemma StepGoesOn(k: Kernel, m: Machine, e: Event, t: int, fd: int, d: Descriptor, pos: nat)
    returns (after: Descriptor)
    requires Simulates(k, m) && Allowed(m, e) && IsTerminal(t) && m.stacks[t] != [] && LeafKeepsOpen(m, e, t, fd)
    requires FILE_DESCRIPTOR_MIN <= fd && StandsAt(d, pos) && HasDescriptor(k, HaltWindow.Leaf(m, t), fd, d)
    ensures CanHalt(k) && Simulates(Step(k, e).0, MachineStep(m, e).0)
    ensures MachineStep(m, e).0.stacks[t] != []
    ensures HasDescriptor(Step(k, e).0, HaltWindow.Leaf(MachineStep(m, e).0, t), fd, after)
    ensures StandsAt(after, NextPos(k.curr, e, t, fd, pos))
    ensures IsOwnRead(k.curr, e, t, fd) ==> Unsigned32(CurrentFds(k)[fd].filePos) == pos % TWO_32
  {
    after := After(m, e, t, fd, d);
    CurrentIsLeaf(k, m);
    StepSimulates(k, m, e);
    StepMovesOwn(k, m, e, t, fd, d);
    LeafStays(m, e, t, fd);
    AfterStandsAt(m, e, t, fd, d, pos);
  }

  /** Whatever the other terminals do, and whatever else the program does short of closing the descriptor, each
      of its reads of a file goes on where its own previous one left off. */
  lemma {:induction false} ReadsAreOwn(k: Kernel, m: Machine, es: seq<Event>, t: int, fd: int, d: Descriptor, pos: nat)
    requires Simulates(k, m) && IsTerminal(t) && KeepsOpen(m, es, t, fd)
    requires FILE_DESCRIPTOR_MIN <= fd && StandsAt(d, pos) && HasDescriptor(k, HaltWindow.Leaf(m, t), fd, d)
    ensures Runs(k, es) && GoesOn(k, es, t, fd, pos)
    decreases es
  {
    if es != [] {
      var after := StepGoesOn(k, m, es[0], t, fd, d, pos);
      ReadsAreOwn(Step(k, es[0]).0, MachineStep(m, es[0]).0, es[1..], t, fd, after, NextPos(k.curr, es[0], t, fd, pos));
    }
  }

  lemma OwnCallsAre(k: Kernel, m: Machine, es: seq<Event>, t: int, fd: int, d: Descriptor)
    requires Simulates(k, m) && IsTerminal(t) && KeepsOpen(m, es, t, fd)
    requires FILE_DESCRIPTOR_MIN <= fd && IsOpenFile(d) && HasDescriptor(k, HaltWindow.Leaf(m, t), fd, d)
    ensures Runs(k, es) && SequentialReads.Sizes32(OwnSizes(k, es, t, fd))
    ensures OwnCalls(k, es, t, fd) == SequentialReads.CallsFrom(Unsigned32(d.filePos), OwnSizes(k, es, t, fd))
  {
    ReadsAreOwn(k, m, es, t, fd, d, Unsigned32(d.filePos));
    CallsGoOn(k, es, t, fd, Unsigned32(d.filePos));
  }

  /** Calls that go on from pos yield the file in order. */
  ghost predicate InOrder(file: seq<Byte>, pos: nat, sizes: seq<nat>, calls: seq<SequentialReads.Call>) {
    SequentialReads.Results(file, calls) == Some(FileSystem.ReadAt(file, pos, SequentialReads.Sum(sizes)))
  }

  lemma CallsComposeIff(file: seq<Byte>, pos: nat, sizes: seq<nat>, calls: seq<SequentialReads.Call>)
    requires |file| < TWO_32 && SequentialReads.Sizes32(sizes) && calls == SequentialReads.CallsFrom(pos, sizes)
    ensures InOrder(file, pos, sizes, calls) <==>
            !SequentialReads.Rereads(file, pos, sizes) && !SequentialReads.AnyWraps(file, pos, sizes)
  {
    SequentialReads.ResultsFrom(file, pos, sizes);
    SequentialReads.ReadsComposeIff(file, pos, sizes);
  }

  /** So in any interleaving a program gets the file in order, from where its descriptor stands, exactly when
      that holds of its own reads alone. */
  lemma OwnReadsComposeIff(k: Kernel, m: Machine, es: seq<Event>, t: int, fd: int, d: Descriptor, file: seq<Byte>)
    requires Simulates(k, m) && IsTerminal(t) && KeepsOpen(m, es, t, fd) && |file| < TWO_32
    requires FILE_DESCRIPTOR_MIN <= fd && IsOpenFile(d) && HasDescriptor(k, HaltWindow.Leaf(m, t), fd, d)
    ensures Runs(k, es)
    ensures var (pos, sizes) := (Unsigned32(d.filePos), OwnSizes(k, es, t, fd));
      InOrder(file, pos, sizes, OwnCalls(k, es, t, fd)) <==>
      !SequentialReads.Rereads(file, pos, sizes) && !SequentialReads.AnyWraps(file, pos, sizes)
  {
    OwnCallsAre(k, m, es, t, fd, d);
    CallsComposeIff(file, Unsigned32(d.filePos), OwnSizes(k, es, t, fd), OwnCalls(k, es, t, fd));
  }

  lemma OpenedFile(k: Kernel, m: Machine, entry: Entry, fd: int)
    requires Simulates(k, m) && entry.fileType == 2 && CanHalt(k) && OpenFd(CurrentFds(k), Some(entry)).1 == fd != -1
    ensures FILE_DESCRIPTOR_MIN <= fd && Simulates(Step(k, OpenCall(Some(entry))).0, m)
    ensures HasDescriptor(Step(k, OpenCall(Some(entry))).0, HaltWindow.Leaf(m, m.curr), fd,
                          Descriptor(File, entry.inode, 0, IN_USE))
  {
    CurrentIsLeaf(k, m);
    CurrentFdsOk(k, m);
    FdsStepSimulates(k, m, OpenCall(Some(entry)));
    OpenTakesLeastSlot(CurrentFds(k), entry);
  }

  /** A program that opens a regular file and reads it through the descriptor it was given, while the others
      run, gets the file in order from its first byte, exactly when none of its reads wraps or starts over. */
  lemma OpenedFileIsReadIff(k: Kernel, m: Machine, entry: Entry, es: seq<Event>, file: seq<Byte>)
    requires Simulates(k, m) && entry.fileType == 2 && |file| < TWO_32
    requires CanHalt(k) && OpenFd(CurrentFds(k), Some(entry)).1 != -1
    requires KeepsOpen(m, es, m.curr, OpenFd(CurrentFds(k), Some(entry)).1)
    ensures var (fd, r) := (OpenFd(CurrentFds(k), Some(entry)).1, Step(k, OpenCall(Some(entry))).0);
      && FILE_DESCRIPTOR_MIN <= fd < FILE_DESCRIPTOR_MAX && Runs(r, es)
      && var sizes := OwnSizes(r, es, m.curr, fd);
         InOrder(file, 0, sizes, OwnCalls(r, es, m.curr, fd)) <==>
         !SequentialReads.Rereads(file, 0, sizes) && !SequentialReads.AnyWraps(file, 0, sizes)
  {
    var fd := OpenFd(CurrentFds(k), Some(entry)).1;
    var r, d := Step(k, OpenCall(Some(entry))).0, Descriptor(File, entry.inode, 0, IN_USE);
    OpenedFile(k, m, entry, fd);
    OwnReadsComposeIff(r, m, es, m.curr, fd, d, file);
  }
}
