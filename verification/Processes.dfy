/** Processes: the six-slot pid table, the PCBs, the terminals' leaf processes, the one user page
    directory entry and the TSS, and what execute, halt, the scheduler and the descriptor calls do. */
module Processes {
  import opened Bytes
  import opened Limits
  import opened Descriptors

  const NUM_PROCESSES := 6
  const BASE_SHELL := 24
  const EIGHT_MB := 0x800000
  const FOUR_MB := 0x400000
  const EIGHT_KB := 0x2000
  const EXCEPTION := 255

  datatype Operation = OpenOp | CloseOp | ReadOp | WriteOp

  /** A stack pointer and a frame pointer, as saved in a PCB. */
  datatype Frame = Frame(esp: int, ebp: int)

  datatype Pcb = Pcb(
    fds: seq<Descriptor>,
    pid: int,
    parentPid: int,
    terminalId: int,
    saved: Frame,
    eip: int,
    tssEsp0: int)

  datatype Term = Term(flag: bool, pid: int, baseTssEsp0: int)

  datatype Kernel = Kernel(
    curProcesses: seq<int>,
    pcbs: seq<Pcb>,
    terms: seq<Term>,
    curr: int,
    screen: int,
    baseShell: bool,
    userPage: int,
    esp0: int)

  datatype Outcome =
    | Failed
    | Entered(pid: int, eip: int)
    | Restarted(eip: int)
    | Resumed(frame: Frame)
    | Returned(frame: Frame, eax: int)
    | Lost

  predicate IsPid(p: int) {
    0 <= p < NUM_PROCESSES
  }

  ghost predicate Shape(k: Kernel) {
    && |k.curProcesses| == NUM_PROCESSES
    && |k.pcbs| == NUM_PROCESSES
    && |k.terms| == MAX_TERMINALS
    && IsTerminal(k.curr) && IsTerminal(k.screen)
    && (forall p :: IsPid(p) ==> |k.pcbs[p].fds| == FILE_DESCRIPTOR_MAX)
  }

  // ----- Addresses -----

  /** Top of the kernel stack of process p. */
  function StackTop(p: int): int {
    EIGHT_MB - p * EIGHT_KB
  }

  /** `get_pcb`. */
  function PcbAddress(p: int): int {
    EIGHT_MB - (p + 1) * EIGHT_KB
  }

  /** The 4 MB page that `process_page` maps for process p. */
  function UserPage(p: int): int {
    (EIGHT_MB + FOUR_MB * p) / FOUR_MB
  }

  /** PCB and kernel stack share an 8 KB region, below 8 MB; regions of two processes never overlap, they all lie
      inside the kernel's 4 MB page, and no process's user page is the kernel's or another's. */
  lemma RegionsDisjoint(p: int, q: int)
    requires IsPid(p) && IsPid(q) && p < q
    ensures StackTop(q) <= PcbAddress(p) < StackTop(p) <= EIGHT_MB
    ensures FOUR_MB <= PcbAddress(q) && StackTop(q) == PcbAddress(q) + EIGHT_KB
    ensures StackTop(p) == 0x80_0000 - 0x2000 * p && StackTop(q) == 0x80_0000 - 0x2000 * q
    ensures UserPage(p) == 2 + p && UserPage(q) == 2 + q && UserPage(p) != UserPage(q)
    ensures UserPage(p) * FOUR_MB >= EIGHT_MB
  {
  }

  // ----- Descriptors -----

  predicate HasOperation(ops: Ops, op: Operation) {
    match ops
    case Unset => false
    case TermRead => op == ReadOp
    case TermWrite => op == WriteOp
    case Rtc => true
    case Dir => true
    case File => true
  }

  /** Whether a call on this descriptor goes through its table, rather than returning -1. */
  predicate Dispatches(fds: seq<Descriptor>, fd: int, op: Operation)
    requires |fds| == FILE_DESCRIPTOR_MAX
  {
    && (match op
        case ReadOp => 0 <= fd < FILE_DESCRIPTOR_MAX && fd != 1
        case WriteOp => 1 <= fd < FILE_DESCRIPTOR_MAX
        case OpenOp => false
        case CloseOp => FILE_DESCRIPTOR_MIN <= fd < FILE_DESCRIPTOR_MAX)
    && fds[fd].flags != NOT_IN_USE
  }

  function ExecuteDescriptor(d: Descriptor, i: int): Descriptor {
    if i == 0 then Descriptor(TermRead, 0, 0, IN_USE)
    else if i == 1 then Descriptor(TermWrite, 0, 0, IN_USE)
    else d.(inode := 0, filePos := 0, flags := NOT_IN_USE)
  }

  function FreshDescriptors(fds: seq<Descriptor>): seq<Descriptor>
    requires |fds| == FILE_DESCRIPTOR_MAX
  {
    seq(FILE_DESCRIPTOR_MAX, i requires 0 <= i < FILE_DESCRIPTOR_MAX => ExecuteDescriptor(fds[i], i))
  }

  function CloseDescriptor(d: Descriptor): Descriptor {
    d.(flags := NOT_IN_USE, inode := -1, filePos := 0)
  }

  function CloseFd(fds: seq<Descriptor>, fd: int): seq<Descriptor>
    requires |fds| == FILE_DESCRIPTOR_MAX
  {
    if Dispatches(fds, fd, CloseOp) then fds[fd := CloseDescriptor(fds[fd])] else fds
  }

  /** What `system_read` does to the descriptors: `read_file` moves a position, the other reads move none. */
  function ReadFds(fds: seq<Descriptor>, fd: int, nbytes: int): seq<Descriptor>
    requires |fds| == FILE_DESCRIPTOR_MAX
  {
    if Dispatches(fds, fd, ReadOp) && fds[fd].ops == File then fds[fd := AfterRead(fds[fd], nbytes)] else fds
  }

  /** The close loop of `system_halt`. */
  function CloseUpTo(fds: seq<Descriptor>, n: nat): (r: seq<Descriptor>)
    requires |fds| == FILE_DESCRIPTOR_MAX && n <= FILE_DESCRIPTOR_MAX
    ensures |r| == FILE_DESCRIPTOR_MAX
  {
    if n == 0 then fds else CloseFd(CloseUpTo(fds, n - 1), n - 1)
  }

  function FreeFdFrom(fds: seq<Descriptor>, i: int): (fd: int)
    requires |fds| == FILE_DESCRIPTOR_MAX && 0 <= i <= FILE_DESCRIPTOR_MAX
    ensures fd == -1 || i <= fd < FILE_DESCRIPTOR_MAX
    ensures fd == -1 <==> forall j :: i <= j < FILE_DESCRIPTOR_MAX ==> fds[j].flags != NOT_IN_USE
    ensures fd != -1 ==>
      && fds[fd].flags == NOT_IN_USE
      && forall j :: i <= j < fd ==> fds[j].flags != NOT_IN_USE
    decreases FILE_DESCRIPTOR_MAX - i
  {
    if i == FILE_DESCRIPTOR_MAX then -1
    else if fds[i].flags == NOT_IN_USE then i
    else FreeFdFrom(fds, i + 1)
  }

  /** A directory entry as far as `system_open` uses it. */
  datatype Entry = Entry(fileType: int, inode: int)

  function OpsOfType(fileType: int, was: Ops): Ops {
    if fileType == 0 then Rtc
    else if fileType == 1 then Dir
    else if fileType == 2 then File
    else was
  }

  /** `system_open`: `entry` is the result of looking the name up. */
  function OpenFd(fds: seq<Descriptor>, entry: Option<Entry>): (r: (seq<Descriptor>, int))
    requires |fds| == FILE_DESCRIPTOR_MAX
    ensures |r.0| == FILE_DESCRIPTOR_MAX
  {
    var fd := FreeFdFrom(fds, FILE_DESCRIPTOR_MIN);
    if entry.None? || fd == -1 then (fds, -1)
    else
      (fds[fd := Descriptor(OpsOfType(entry.value.fileType, fds[fd].ops), entry.value.inode, 0, IN_USE)], fd)
  }

  // ----- Process steps -----

  function FreePidFrom(inUse: seq<int>, i: int): (p: int)
    requires |inUse| == NUM_PROCESSES && 0 <= i <= NUM_PROCESSES
    ensures i <= p <= NUM_PROCESSES
    ensures forall q :: i <= q < p ==> inUse[q] != 0
    ensures p < NUM_PROCESSES ==> inUse[p] == 0
    decreases NUM_PROCESSES - i
  {
    if i == NUM_PROCESSES || inUse[i] == 0 then i else FreePidFrom(inUse, i + 1)
  }

  /** `process_page`; a pid out of range is ignored. */
  function MapUserPage(k: Kernel, p: int): Kernel {
    if IsPid(p) then k.(userPage := UserPage(p)) else k
  }

  function SetPcb(k: Kernel, p: int, pcb: Pcb): (r: Kernel)
    requires Shape(k) && IsPid(p) && |pcb.fds| == FILE_DESCRIPTOR_MAX
    ensures Shape(r)
  {
    k.(pcbs := k.pcbs[p := pcb])
  }

  /** A frame saved through `get_pcb(p)`. With p out of range the store misses the six PCBs. */
  function SaveFrame(k: Kernel, p: int, f: Frame): (r: Kernel)
    requires Shape(k)
    ensures Shape(r)
  {
    if IsPid(p) then SetPcb(k, p, k.pcbs[p].(saved := f)) else k
  }

  function SetTerm(k: Kernel, t: int, term: Term): (r: Kernel)
    requires Shape(k) && IsTerminal(t)
    ensures Shape(r)
  {
    k.(terms := k.terms[t := term])
  }

  /** The part of `system_execute` that links the new process to a terminal and a parent. */
  function Link(k: Kernel, p: int, f: Frame): (r: Kernel)
    requires Shape(k) && IsPid(p)
    ensures Shape(r)
  {
    if k.baseShell then
      var named := SetPcb(k, p, k.pcbs[p].(pid := p, parentPid := BASE_SHELL, terminalId := k.curr));
      SetTerm(named, k.curr, k.terms[k.curr].(pid := p))
    else
      var parent := k.terms[k.screen].pid;
      var named := SetPcb(k, p, k.pcbs[p].(pid := p, parentPid := parent, terminalId := k.screen));
      SetTerm(SaveFrame(named, parent, f), k.screen, k.terms[k.screen].(pid := p))
  }

  /** The part of `system_execute` that fills in the PCB and the TSS. */
  function Load(k: Kernel, p: int, eip: int): (r: Kernel)
    requires Shape(k) && IsPid(p)
    ensures Shape(r)
  {
    var loaded := SetPcb(k, p, k.pcbs[p].(fds := FreshDescriptors(k.pcbs[p].fds), tssEsp0 := k.esp0, eip := eip));
    SetTerm(loaded, k.curr, k.terms[k.curr].(baseTssEsp0 := StackTop(p))).(esp0 := StackTop(p))
  }

  /** `system_execute` after parsing: `program` is the entry point of the executable the command names,
      if it names one; `f` holds the caller's registers. */
  function Execute(k: Kernel, f: Frame, program: Option<int>): (r: (Kernel, Outcome))
    requires Shape(k)
    ensures Shape(r.0)
  {
    var p := FreePidFrom(k.curProcesses, 0);
    if program.None? || p == NUM_PROCESSES then (k, Failed)
    else
      var mapped := MapUserPage(k.(curProcesses := k.curProcesses[p := 1]), p);
      (Load(Link(mapped, p, f).(baseShell := false), p, program.value), Entered(p, program.value))
  }

  /** The running process and its parent are where the PCB arithmetic expects them. */
  ghost predicate CanHalt(k: Kernel) {
    && Shape(k)
    && IsPid(k.terms[k.curr].pid)
    && var parent := k.pcbs[k.terms[k.curr].pid].parentPid;
       IsPid(parent) || (parent == BASE_SHELL && k.terms[k.curr].flag)
  }

  /** The value the parent finds in eax. The kernel halts a faulting process with status 255 and means
      256 to tell that from an exit status; a program that exits with 255 reads as a fault too. */
  function ExitStatus(status: Byte): int {
    if status == EXCEPTION then EXCEPTION + 1 else status
  }

  /** `system_halt`. The descriptors it closes are the parent's: the terminal's pid is already the
      parent when the loop runs. */
  function Halt(k: Kernel, status: Byte): (r: (Kernel, Outcome))
    requires CanHalt(k)
    ensures Shape(r.0)
  {
    var p := k.terms[k.curr].pid;
    var parent := k.pcbs[p].parentPid;
    if parent == BASE_SHELL && k.terms[k.curr].flag then (k, Restarted(k.pcbs[p].eip))
    else
      var freed := MapUserPage(k.(curProcesses := k.curProcesses[p := 0]), parent);
      var closed := SetPcb(freed, parent, freed.pcbs[parent].(
        fds := CloseUpTo(freed.pcbs[parent].fds, FILE_DESCRIPTOR_MAX)));
      var term := Term(k.terms[k.curr].flag, parent, StackTop(parent));
      (SetTerm(closed, k.curr, term).(esp0 := StackTop(parent)),
       Returned(closed.pcbs[parent].saved, ExitStatus(status)))
  }

  function NextTerminal(k: Kernel): int {
    (k.curr + 1) % MAX_TERMINALS
  }

  /** The second half of `scheduler`: switch paging, TSS and stack to the scheduled terminal's leaf. */
  function ResumeLeaf(k: Kernel): (r: (Kernel, Outcome))
    requires Shape(k)
    ensures Shape(r.0)
  {
    var next := k.terms[k.curr].pid;
    (MapUserPage(k, next).(esp0 := k.terms[k.curr].baseTssEsp0),
     if IsPid(next) then Resumed(k.pcbs[next].saved) else Lost)
  }

  /** `scheduler`: `shell` is the entry point of the executable "shell". */
  function Schedule(k: Kernel, f: Frame, shell: Option<int>): (r: (Kernel, Outcome))
    requires Shape(k)
    ensures Shape(r.0)
  {
    var moved := SaveFrame(k, k.terms[k.curr].pid, f).(curr := NextTerminal(k));
    if moved.terms[moved.curr].flag then ResumeLeaf(moved)
    else
      var flagged := SetTerm(moved, moved.curr, moved.terms[moved.curr].(flag := true)).(baseShell := true);
      var launched := Execute(flagged, f, shell);
      if launched.1.Entered? then launched else ResumeLeaf(launched.0)
  }

  function SetFds(k: Kernel, fds: seq<Descriptor>): Kernel
    requires Shape(k) && IsPid(k.terms[k.curr].pid) && |fds| == FILE_DESCRIPTOR_MAX
  {
    SetPcb(k, k.terms[k.curr].pid, k.pcbs[k.terms[k.curr].pid].(fds := fds))
  }
}
