# A verified model of the kernel's state machines

A teaching kernel runs three terminals on one VGA text screen, six processes under a round-robin
scheduler, a read-only file system and a virtual real-time clock; a few user programs run on top of
it. This project models the in-memory state machines behind those parts and proves what they promise.
Every interrupt handler, and every stretch of kernel code that runs with interrupts off, is one atomic
step. `system_halt` is taken as atomic up to its final jump, although it turns interrupts on again just
before it loads the parent's frame (student-distrib/syscalls.c:347-358); `HaltWindow.dfy` is about what
ticks in between do.

The imperative sources are modelled twice. A class or method follows the code statement by statement,
over arrays and fields updated in place, and is proved equal to a function on values. The main results
are about those functions, over all inputs and all runs.

| file | what it models |
|---|---|
| `Bytes.dfy`, `Limits.dfy`, `Descriptors.dfy` | bytes and control characters; the sizes that several parts share; file descriptors and 32-bit numbers |
| `Console.dfy` | one terminal and its video page: `putc`, `clear`, `erase_char` |
| `Transcript.dfy` | an unbounded text, and the screen as a window on its end |
| `LineDiscipline.dfy` | keys, line buffer, echo, `terminal_read` for one terminal |
| `Multiplex.dfy` | three terminals on four video pages, and runs of them |
| `TerminalDriver.dfy` | the terminal driver over flat video memory, in place |
| `Processes.dfy` | pid table, PCBs, descriptors, paging entry, TSS: one function per system call |
| `CallStacks.dfy` | three call stacks, and the proof that the tables simulate them |
| `ProcessRuns.dfy` | runs: the process forest, exact resumption, descriptor dispatch |
| `HaltWindow.dfy` | ticks between `sti` and the final jump of `system_halt` |
| `WholeKernel.dfy` | consoles and processes moved together by one event |
| `ProcessKernel.dfy` | the process tables updated in place |
| `FileSystem.dfy` | inodes and blocks as flat files; `read_data`, `read_file` |
| `SequentialReads.dfy` | successive reads of one descriptor |
| `DescriptorRuns.dfy` | a program's reads in any interleaving with the others |
| `Directory.dfy` | lookup by name, directory listing |
| `CommandLine.dfy` | the command parser of `system_execute` |
| `Loader.dfy` | from a command line through directory and file to an entry point |
| `Cat.dfy`, `Grep.dfy` | the streaming clients of the file system |
| `BlinkList.dfy` | the blinker list of fish and its array allocator |
| `NumberFormat.dfy` | `itoa`, `strrev`, `%#x` |
| `Rtc.dfy` | the virtual clock of each terminal |

## Main results

1. **Multiplexing is invisible.** After any run of output, keys, ticks and screen switches, each
   terminal has the page, attributes, cursor and line buffer it would have running alone on its own
   share of the events (`Multiplex.MultiplexedIsAlone`).
2. **What you see is what is read.** In every state reachable from boot, the line being typed is spelled
   by the cells just before the cursor (`Multiplex.ReachableIsSound`). From its call on, a read returns only
   after an Enter (`Multiplex.ReadEndsWithEnter`), and what it returns is decided by the keys typed since
   (`Multiplex.KeysAreReceived`): the line up to Enter (`Multiplex.LineThroughMultiplexer`).
3. **The screen is a window** on the last 25 rows of the text a terminal has printed and echoed since its
   last clear, through wrap and scroll, in any interleaving (`Transcript.ScreenIsWindow`,
   `Multiplex.ReachableShowsText`).
4. **The process tables are three call stacks.** Over every run, pid table, parent chains, saved frames,
   page directory entry and TSS act as three stacks with the same outcomes (`ProcessRuns.RunSimulates`),
   exactly as long as two standing assumptions are met (`ProcessRuns.RunInOrderIff`). The forest, the
   permanence of base shells, exact resumption of callers and preempted processes, and the safety of
   descriptor dispatch follow.
5. **One kernel.** Moved together, the consoles do a run of the first model and the tables one of the
   second, and a terminal waits exactly while its leaf process is inside a read
   (`WholeKernel.RunIsBoth`, `WholeKernel.ReachableIsSound`).
6. **Files and streams.** Block reads refine flat reads, and a program's successive reads compose, in any
   interleaving (`SequentialReads.ReadsComposeIff`, `DescriptorRuns.OwnReadsComposeIff`). `cat` copies the
   whole file, and `grep` prints exactly the matching lines (`Grep.DoOneFile`, `Grep.PiecesAreLinesIff`).
7. **List and allocator agree** over every sequence of adds and removes (`BlinkList.AgreeOverRuns`), and an
   added blinker keeps its two lengths for ever (`BlinkList.BlinksForEver`).

Where a promise fails, the exact condition under which the code keeps it is proved, for all inputs but
those that a row names:

| promise | holds exactly when | member |
|---|---|---|
| a key stays inside the line buffer | it does not edit a full 128-byte buffer, which only a pending Enter allows | `LineDiscipline.InBoundsIff`, `LineDiscipline.FullLineThenKeyOverruns` |
| a read returns the line typed up to Enter (the reader asks for 128 bytes or more) | the buffer still starts with that line and its end: only a backspace typed after Enter can erase them | `LineDiscipline.LineIsReceivedIff`, `LineDiscipline.EnterEndsLine`, `LineDiscipline.BackspaceErasesEnter` |
| the tables stay those of three call stacks over a run | every successful execute is called from the terminal on the screen, and every first launch succeeds | `ProcessRuns.RunInOrderIff` |
| a halt resumes the parent at the frame of its own execute (frames lie on their processes' kernel stacks) | no tick falls between `sti` and the load of that frame, however often and at whatever frames the halt is preempted | `HaltWindow.ParentResumesAt`, `HaltWindow.ParentResumesOnStacks` |
| a halt preempted there keeps the kernel stack it stands on | no program is started in the slot it has freed | `HaltWindow.FreedStackIsKept` |
| a halt closes the halting process's descriptors | they were closed before it; it closes the parent's | `ProcessRuns.HaltClosesTheParents` | student-distrib/syscalls.c:322-358 | the child's descriptors are closed after its halt if and only if before; all the parent's are closed; the parent gets the status, or 256 for 255, so the status itself if and only if it is not 255 |
| the parent is told the exit status | the status is not 255 | `ProcessRuns.HaltClosesTheParents` |
| a successful execute leaves the tables consistent | the calling terminal is the one on the screen | `ProcessRuns.ExecuteNeedsOwnScreen` |
| a terminal's first tick launches its shell | the executable is there and fewer than six processes live | `ProcessRuns.LaunchNeedsFreeSlot` |
| successive reads yield the file in order, alone or in any interleaving | no read starts after the position has wrapped at 2^32 back into the file, and none starts inside the file with an end that wraps | `SequentialReads.ReadsComposeIff`, `DescriptorRuns.OwnReadsComposeIff` |
| a listing yields the whole directory in order (entries have different names) | the shared counter is 0 at its first call, and other readers' calls between its own go round the directory a whole number of times | `Directory.ListingIsInOrderIff` |
| `read_data` clips to the end of the file | offset + length does not wrap at 2^32 | `FileSystem.ClipIsRightIff` |
| `grep` prints exactly the matching lines (of a file without NUL bytes; see "Left out") | no line is longer than 1024 bytes | `Grep.PiecesAreLinesIff` |
| the file name is the command's first word | the word ends within 32 characters | `CommandLine.FileNameIsWordIff` |
| the arguments are the rest of the command | the word ends before the 32nd character, or only spaces follow | `CommandLine.ArgumentsAreRemainderIff` |
| `CommandLine.FileNameIsPrefix` | student-distrib/syscalls.c:82-132 | the file name is as much of the first word as lies in the first 32 characters; the arguments are the whole remainder or nothing |
| the verdict on an executable is the file's own | it has at least 28 bytes, or does not start like the magic number | `Loader.DeterminedIff` |
| an add keeps list and allocator in agreement | the location is not 0 | `BlinkList.AddKeepsSoundIff` |
| a blinker's phase lasts its length | the length is 1 to 0x8000: it is unsigned, the test for its end is signed | `BlinkList.PhaseLastsIff` |
| period times frequency is 1024 | no other terminal's last store to `RTC_frequency` in between was of a different frequency | `Rtc.PeriodIsRightIff` |

Three places where the code and its comments disagree; the model follows the code. `system_halt` is said
to close the halting process's descriptors; the loop runs after the terminal's pid has become the
parent's, so it closes the parent's (student-distrib/syscalls.c:322-331). `system_halt` returns 256 to
tell an exception from exit status 255, but a program that exits with 255 gets 256 as well
(student-distrib/syscalls.c:337-342). `ProcessRuns.HaltClosesTheParents` is about both. `RTC_read` is said
to block until the next interrupt at the frequency set; the counter is armed with the period and the reader
let go by the interrupt that finds it at 0, so an undisturbed read lasts one of the 1024 interrupts a second
longer than the period (student-distrib/rtc.c:108-116, 160-161; `Rtc.ReadAtFrequency`).

## Model

| member | source | states |
|---|---|---|
| `Console.Put` | student-distrib/lib.c:203-256 | the cursor stays in the grid; nothing of the terminal but its cursor changes |
| `Console.PutCells` | student-distrib/lib.c:224-254 | cell by cell: a character changes its own cell only; a scroll moves every row up by one and leaves NULs in the last |
| `Console.Erase` | student-distrib/lib.c:576-591 | steps back exactly one linear position, also across a row border |
| `Console.NonNulConcat` | student-distrib/terminal.c:127-135 | writing filters NULs part by part: every other byte is printed, in order |
| `Console.NonNulKeeps` | student-distrib/terminal.c:127-135 | no NUL is printed, a text without one is printed as it is, and of every other byte as many as there are |
| `Console.PutAllConcat` | student-distrib/terminal.c:128-133 | printing a text in two parts is printing it at once |
| `Transcript.ClearShows` | student-distrib/lib.c:52-56 | a cleared screen is the window on an empty transcript |
| `Transcript.RowsBreakIff` | student-distrib/lib.c:206-234 | line feed and carriage return start a row, and nothing else does but an 80th character |
| `Transcript.WindowAppend` | student-distrib/lib.c:235-254 | how the window on a transcript moves when a character is appended |
| `Transcript.PutShows` | student-distrib/lib.c:203-256 | one more character keeps the screen a window on the transcript |
| `Transcript.PrintingShows` | student-distrib/lib.c:203-256 | whatever is printed next, the screen stays a window on the longer transcript |
| `Transcript.ScreenIsWindow` | student-distrib/lib.c:203-256 | after `clear`, for every byte string, the 2000 cells, attributes and cursor are those of the last 25 rows of the laid-out text |
| `LineDiscipline.PutKeepsTail` | student-distrib/lib.c:224-254 | text just before the cursor stays just before it through wrap and scroll |
| `LineDiscipline.InBoundsIff` | student-distrib/terminal.c:161-200 | a key stays inside buffer and screen if and only if it does not edit a full buffer with Enter pending; so backspace never leaves the top |
| `LineDiscipline.EraseKeepsSpelling` | student-distrib/terminal.c:172-181 | backspace keeps screen and line buffer in agreement |
| `LineDiscipline.RedrawKeepsSound` | student-distrib/terminal.c:152-159 | Ctrl-L redraws exactly the line in the buffer, just before the cursor |
| `LineDiscipline.EditKeepsSound` | student-distrib/terminal.c:147-204 | every key keeps the cells before the cursor spelling the line buffer |
| `LineDiscipline.BackspaceUndoesKey` | student-distrib/terminal.c:172-200 | backspace after a key restores the line, and cursor and cells if and only if the key did not scroll |
| `LineDiscipline.Typed` | student-distrib/terminal.c:161-200 | any keys but Enter leave the terminal waiting, its screen in agreement with its buffer |
| `LineDiscipline.Spaced` | student-distrib/keyboard.c:278-284 | Tab's spaces stop at 127 characters and keep screen and buffer in agreement, also with Enter pending |
| `LineDiscipline.TypedLine` | student-distrib/terminal.c:161-200 | the buffer holds the fold of the keys: append up to 127, backspace drops the last |
| `LineDiscipline.FirstEnd` | student-distrib/terminal.c:78-86 | the first line end below the limit |
| `LineDiscipline.Truncated` | student-distrib/terminal.c:87-90 | min(nbytes, L + 1) bytes, ending in a line end, the rest a prefix of the line |
| `LineDiscipline.DeliveredLine` | student-distrib/terminal.c:77-90 | what a read copies is the line cut to the size asked for, whatever follows it in the buffer |
| `LineDiscipline.ReadReturnsLine` | student-distrib/terminal.c:47-102 | for every key sequence up to Enter, and any stale bytes in the buffer, the read returns the cut line |
| `LineDiscipline.EditContent` | student-distrib/terminal.c:161-200 | one key changes the content of the buffer as appending, dropping the last byte or ending the line; only Enter lets the reader go |
| `LineDiscipline.DeliveredContent` | student-distrib/terminal.c:77-90 | what a read copies depends on the content only: its first line, or all of it, cut to the size |
| `LineDiscipline.LineIsReceivedIff` | student-distrib/terminal.c:77-90 | a reader with room gets this line if and only if the content starts with it and a line end |
| `LineDiscipline.EnterEndsLine` | student-distrib/terminal.c:161-200 | whatever is typed after Enter, backspace apart, the read returns the line before it |
| `LineDiscipline.BackspaceErasesEnter` | student-distrib/terminal.c:172-181 | after Enter and backspace the read returns no bytes |
| `LineDiscipline.BackspaceZeroes` | student-distrib/terminal.c:172-187 | which bytes of the buffer a backspace zeroes |
| `LineDiscipline.ReadClears` | student-distrib/terminal.c:92-98 | a read clears as many bytes as it may have copied and the three fields, and nothing else |
| `LineDiscipline.FullLineThenKeyOverruns` | student-distrib/terminal.c:161-200 | after 127 characters and Enter, any further editing key before the reader runs is out of bounds |
| `Multiplex.WriteAllIsOwnOutput` | student-distrib/terminal.c:127-135 | output goes to the scheduled terminal's console, wherever that is stored, and to no other |
| `Multiplex.SwitchKeepsConsoles` | student-distrib/keyboard.c:368-378 | switching the screen, also to the terminal already shown, changes no console |
| `Multiplex.StepIsShare` | student-distrib/lib.c:203-256 | one event changes a terminal exactly as its own share of the event does |
| `Multiplex.MultiplexedIsAlone` | student-distrib/lib.c:203-256 | over every run, each terminal is as if running alone |
| `Multiplex.AloneKeepsSound` | student-distrib/terminal.c:147-204 | every event of a terminal's own keeps screen and line buffer in agreement |
| `Multiplex.BootedIsSound` | student-distrib/terminal.c:13-35 | the state after `init_terminal` is sound at every terminal |
| `Multiplex.ReachableIsSound` | student-distrib/terminal.c:147-204 | in every state reachable from boot the screen spells the pending line |
| `Multiplex.KeysThenEnter` | student-distrib/terminal.c:161-200 | keys and then Enter are always possible for a waiting terminal, and complete its line |
| `Multiplex.EnterFlagIff` | student-distrib/terminal.c:63-71 | a read may return if and only if Enter has been pressed while waiting, or earlier and no read has returned since |
| `Multiplex.ReadWaits` | student-distrib/terminal.c:63-71 | a read starts waiting with an empty line and no Enter pending |
| `Multiplex.OnlyEnterEndsTheWait` | student-distrib/terminal.c:63-71 | while a terminal waits only keys happen to it, and it goes on waiting |
| `Multiplex.ReadEndsWithEnter` | student-distrib/terminal.c:63-71 | from the call of read to its return, in any interleaving: the read can return if and only if one of the keys was Enter |
| `Multiplex.KeysAreReceived` | student-distrib/terminal.c:47-102 | in any interleaving, what a read returns is decided by the keys typed since its call, whatever earlier reads left behind |
| `Multiplex.LineThroughMultiplexer` | student-distrib/terminal.c:47-102 | from the call of read on, in any interleaving: after some keys and Enter the read can return, and returns the line they spell, unless a backspace follows |
| `Multiplex.KeyShows` | student-distrib/terminal.c:147-204 | a key appends to what the terminal shows, starts it afresh, or erases |
| `Multiplex.OwnEventShows` | student-distrib/terminal.c:114-204 | so does every other event of a terminal's own |
| `Multiplex.ScreenIsOwnText` | student-distrib/lib.c:203-256 | in any interleaving, a terminal shows the last 25 rows of what it has printed and echoed since its last clear, whenever no backspace has erased since |
| `Multiplex.ReachableShowsText` | student-distrib/lib.c:203-256 | this holds of every terminal from boot, terminal 0 included |
| `TerminalDriver.Driver.constructor` | student-distrib/terminal.c:13-35 | the state after initialisation, over any video memory |
| `TerminalDriver.Driver.BlankAll` | student-distrib/lib.c:52-56 | the fill loop blanks the visible cells of one page and nothing else |
| `TerminalDriver.Driver.ScrollUp` | student-distrib/lib.c:236-251 | the nested loops scroll one page by a row and touch no other |
| `TerminalDriver.Driver.CheckSize` | student-distrib/lib.c:557-570 | wraps the cursor of the terminal that `terminal_flag` selects |
| `TerminalDriver.Driver.Putc` | student-distrib/lib.c:203-256 | page choice, store, wrap and scroll in flat memory do to the state what `Multiplex.Putc` says |
| `TerminalDriver.Driver.ClearScreen` | student-distrib/lib.c:30-58 | clears the console the flags select and no other |
| `TerminalDriver.Driver.EraseChar` | student-distrib/lib.c:576-591 | erases on the displayed console and changes no other |
| `TerminalDriver.Driver.SwitchScreen` | student-distrib/keyboard.c:368-378 | the two page copies are the switch that `Multiplex.SwitchKeepsConsoles` is about |
| `TerminalDriver.Driver.TerminalWrite` | student-distrib/terminal.c:114-137 | prints the non-NUL bytes, returns how many, and -1 with no effect for bad arguments |
| `TerminalDriver.Driver.EditBuffer` | student-distrib/terminal.c:147-204 | every branch edits the displayed console as `LineDiscipline.Edit` does |
| `TerminalDriver.Driver.TabKeyHandler` | student-distrib/keyboard.c:278-284 | enters four spaces as far as there is room; four typed spaces for a terminal awaiting its line |
| `TerminalDriver.Driver.ScheduleNext` | student-distrib/pit.c:57-76 | a tick moves on, and clears and marks a terminal scheduled for the first time |
| `TerminalDriver.Driver.StartRead` | student-distrib/terminal.c:54-64 | sets the one flag that makes the terminal wait, unless the arguments are bad |
| `TerminalDriver.Driver.CopyLine` | student-distrib/terminal.c:77-90 | the copy loop and the forced line end deliver the specified bytes and leave the rest of the caller's buffer alone |
| `TerminalDriver.Driver.FinishRead` | student-distrib/terminal.c:73-101 | the bytes returned, and the terminal's state afterwards |
| `Processes.RegionsDisjoint` | student-distrib/syscalls.c:537-569 | stack tops are 8 MB less 8 KB for each pid; PCB and stack regions of different processes are disjoint, and user pages differ from each other and from the kernel's |
| `Processes.FreeFdFrom` | student-distrib/syscalls.c:411-416 | the least free slot, or -1 if and only if there is none |
| `Processes.FreePidFrom` | student-distrib/syscalls.c:150-161 | the least free pid, or 6 |
| `CallStacks.PushSane` | student-distrib/syscalls.c:150-206 | a pushed process is on its stack once and on no other |
| `CallStacks.PushChained` | student-distrib/syscalls.c:178-206 | linking a child extends the parent chain and saves the caller's frame only |
| `CallStacks.FreshFdsOk` | student-distrib/syscalls.c:208-225 | a new process has a complete descriptor table, and no slot from 2 on in use |
| `CallStacks.ExecuteIsPush` | student-distrib/syscalls.c:150-244 | execute is a push on the caller's stack, with the same outcome; a failing one, from any terminal, changes nothing |
| `CallStacks.CloseUpToOk` | student-distrib/syscalls.c:329-331 | the close loop of halt keeps the parent's descriptor table complete |
| `CallStacks.PopChained` | student-distrib/syscalls.c:319-345 | removing the leaf leaves the rest of the chain in place |
| `CallStacks.HaltIsPop` | student-distrib/syscalls.c:283-361 | halt is a pop: it frees exactly the leaf and resumes the caller at the frame saved by its execute; a base shell restarts |
| `CallStacks.SaveLeaf` | student-distrib/pit.c:59-71 | the scheduler's save touches the leaf's frame and no ancestor's |
| `CallStacks.ResumeSimulates` | student-distrib/pit.c:79-109 | switching to a started terminal resumes its leaf's saved frame, with its paging and TSS |
| `CallStacks.LaunchIsStart` | student-distrib/pit.c:73-80 | a first launch starts a one-process chain, or changes nothing but the flags |
| `CallStacks.ScheduleIsRotate` | student-distrib/pit.c:47-112 | a tick is a rotation of the stacks, with the same outcome; after it the tables are those of some call stacks if and only if it was not a launch that failed |
| `ProcessRuns.StepSimulates` | student-distrib/syscalls.c:58-361 | every allowed step of the tables is the same step of the stacks, with the same outcome |
| `ProcessRuns.RunSimulates` | student-distrib/syscalls.c:58-361 | over every run: same outcomes step for step, tables consistent at the end |
| `ProcessRuns.StepInOrderIff` | student-distrib/syscalls.c:58-361 | the tables after a step are those of some call stacks if and only if the step is allowed |
| `ProcessRuns.RunInOrderIff` | student-distrib/syscalls.c:58-361 | over a run they are so all along if and only if every step is allowed |
| `ProcessRuns.BootSimulates` | student-distrib/kernel.c:171-202 | the first shell, executed from the initial tables, starts the simulation |
| `ProcessRuns.LiveCount` | student-distrib/syscalls.c:150-161 | at most six processes live; a free slot exists if and only if fewer than six do |
| `ProcessRuns.ParentChainIsStack` | student-distrib/syscalls.c:178-206 | following parent pids visits exactly the terminal's processes, once each, and ends |
| `ProcessRuns.UsedSlotsAreChains` | student-distrib/syscalls.c:319-345 | a slot is in use if and only if its pid is on some terminal's chain, and it is on one only |
| `ProcessRuns.BaseShellStays` | student-distrib/syscalls.c:296-316 | over every run a base shell keeps its pid, in use and at the end of its terminal's chain |
| `ProcessRuns.FirstOpenGetsTwo` | student-distrib/syscalls.c:208-225 | a program that has just been entered has no file open, and its first open gets descriptor 2 |
| `ProcessRuns.ExecuteFailsIff` | student-distrib/syscalls.c:136-161 | execute fails, and changes nothing, if and only if there is no executable or no free slot; else the program is entered in the least free slot |
| `ProcessRuns.RunnerHasItsHardware` | student-distrib/syscalls.c:537-569 | in every consistent state the mapped page and esp0 are the running process's own, as numbers |
| `ProcessRuns.ExecuteNeedsOwnScreen` | student-distrib/syscalls.c:184-204 | execute keeps paging, TSS and chains consistent if and only if the caller is on the screen |
| `ProcessRuns.LaunchNeedsFreeSlot` | student-distrib/pit.c:73-99 | a first launch is lost if and only if there is no shell or no free slot, and the tables are broken if and only if it is lost |
| `ProcessRuns.RunKeepsBottom` | student-distrib/pit.c:59-71 | the part of a stack below the height a run stays above does not change |
| `ProcessRuns.AncestorFramesKept` | student-distrib/pit.c:59-71 | over such a run no frame stored in an ancestor's PCB is overwritten |
| `ProcessRuns.HaltResumesCaller` | student-distrib/syscalls.c:349-358 | after any nesting and interleaving in between, a halt resumes the caller with the frame of the matching execute, and its status |
| `ProcessRuns.TicksMove` | student-distrib/pit.c:57 | the scheduled terminal after any run is determined by the number of ticks |
| `ProcessRuns.AwayIff` | student-distrib/pit.c:57 | a terminal is not scheduled along a run if and only if the run has fewer ticks than the terminal is turns away |
| `ProcessRuns.PreemptedResumes` | student-distrib/pit.c:93-109 | a preempted process resumes at the third tick with the frame saved at its preemption, whatever the other terminals do in between |
| `ProcessRuns.CallsAreDefined` | student-distrib/syscalls.c:371-466 | in every consistent state reads go through 0 and the open slots, writes through 1 and the open slots, closes through the open slots, and none through a missing operation |
| `ProcessRuns.CloseLoopIsDefined` | student-distrib/syscalls.c:329-331 | nor does any turn of halt's close loop |
| `ProcessRuns.OpenTakesLeastSlot` | student-distrib/syscalls.c:405-447 | open takes the least free slot of 2..7 or fails; the type chooses the RTC, directory or file table, and an unknown type keeps the old one |
| `ProcessRuns.CloseUndoesOpen` | student-distrib/syscalls.c:405-466 | close frees what open has taken and nothing else; the next open gets the same slot |
| `ProcessRuns.HaltClosesTheParents` | student-distrib/syscalls.c:322-358 | the child's descriptors are closed after its halt if and only if before; all the parent's are closed; the parent gets the status itself if and only if it is not 255 |
| `HaltWindow.StepStores` | student-distrib/pit.c:59-71 | a step writes a leaf's stored frame only if it is a tick of that terminal's own turn |
| `HaltWindow.ParentResumesAt` | student-distrib/syscalls.c:345-358 | the frame loaded at the end of a halt is the last one saved; it is the parent's own if and only if no tick fell in between, given that the frames saved there are others |
| `HaltWindow.ParentResumesOnStacks` | student-distrib/syscalls.c:345-358 | which they are, lying on the child's kernel stack and not on the parent's |
| `HaltWindow.FreedStackIsKept` | student-distrib/syscalls.c:319-347 | the slot that a halt has freed stays free during the window if and only if no program is started in it |
| `WholeKernel.RunnerIsLeaf` | student-distrib/terminal.c:62-71 | the running process is in a read exactly if its terminal waits |
| `WholeKernel.WaitingIsSilent` | student-distrib/terminal.c:62-71 | what the consoles presuppose of output and of a new read is exactly that the running process is not inside a read |
| `WholeKernel.BootTogether` | student-distrib/kernel.c:171-202 | consoles and tables agree when the first shell has been executed |
| `WholeKernel.StepTogether` | student-distrib/pit.c:47-112 | one event keeps consoles and tables in agreement, and each half's conditions are met |
| `WholeKernel.RunIsBoth` | student-distrib/pit.c:47-112 | every run of the whole kernel is a run of the consoles and one of the tables |
| `WholeKernel.ReachableIsSound` | student-distrib/terminal.c:147-204 | in every reachable state the screen spells each pending line and a terminal waits exactly while its leaf is in a read |
| `ProcessKernel.Tables.constructor` | student-distrib/terminal.c:13-31 | the tables before the first execute |
| `ProcessKernel.Tables.ProcessPage` | student-distrib/syscalls.c:537-547 | maps the page of a valid pid and ignores others |
| `ProcessKernel.Tables.UpdateTss` | student-distrib/syscalls.c:566-569 | changes one terminal's base stack pointer only |
| `ProcessKernel.Tables.FindFreePid` | student-distrib/syscalls.c:150-161 | the search loop finds the least free pid |
| `ProcessKernel.Tables.InitDescriptors` | student-distrib/syscalls.c:208-225 | the descriptors of a new process: keyboard, screen, six free slots |
| `ProcessKernel.Tables.SystemExecute` | student-distrib/syscalls.c:150-244 | the in-place updates are those of `Processes.Execute`, which `CallStacks.ExecuteIsPush` is about |
| `ProcessKernel.Tables.SystemHalt` | student-distrib/syscalls.c:283-361 | the in-place updates are those of `Processes.Halt`, which `CallStacks.HaltIsPop` is about |
| `ProcessKernel.Tables.Scheduler` | student-distrib/pit.c:47-112 | the in-place updates are those of `Processes.Schedule`, which `CallStacks.ScheduleIsRotate` is about |
| `ProcessKernel.Tables.SystemOpen` | student-distrib/syscalls.c:405-447 | the loop and switch open as `ProcessRuns.OpenTakesLeastSlot` says, with the table of the type |
| `ProcessKernel.Tables.SystemClose` | student-distrib/syscalls.c:455-466 | closes a descriptor in use and changes nothing else |
| `ProcessKernel.Tables.Dispatch` | student-distrib/syscalls.c:371-397 | the table a read or write goes through, if any |
| `ProcessKernel.Tables.SystemRead` | student-distrib/syscalls.c:371-379 | the table a read goes through, and the one position that a read of a file moves |
| `FileSystem.FileByteAt` | student-distrib/file_sys.c:106-133 | byte k of a file is byte k % 4096 of its k / 4096-th block |
| `FileSystem.ClipIsRightIff` | student-distrib/file_sys.c:117-119 | the clipped length is the right one if and only if offset + length does not wrap |
| `FileSystem.Files.ReadData` | student-distrib/file_sys.c:98-137 | returns exactly the file's bytes in range, across blocks, and writes nothing else |
| `FileSystem.Files.CopyBytes` | student-distrib/file_sys.c:121-134 | the loop over running block indices copies the flat file |
| `FileSystem.Files.ReadFile` | student-distrib/file_sys.c:148-163 | reads at the descriptor's position, for sizes and positions of either sign, and moves that descriptor only |
| `SequentialReads.CodeManyIs` | student-distrib/file_sys.c:98-137 | with the clip as the code computes it, reads run past the file if and only if one that starts inside has an end that wraps |
| `SequentialReads.ReadsComposeIff` | student-distrib/file_sys.c:148-163 | a list of reads yields what one read of the total size would, if and only if none starts over and none has an end that wraps |
| `SequentialReads.ReadsCompose` | student-distrib/file_sys.c:148-163 | so any list of reads of less than 2^32 bytes does, although the position moves by the size asked for |
| `SequentialReads.ReadInTurn` | student-distrib/file_sys.c:148-163 | calling `read_file` once per size, of either sign, yields what those results are about |
| `DescriptorRuns.StepMovesOwn` | student-distrib/file_sys.c:158-159 | only its own process's read moves a descriptor's position, by the size asked for |
| `DescriptorRuns.ReadsAreOwn` | student-distrib/file_sys.c:148-163 | in any interleaving each of a program's reads goes on where its own previous one left off |
| `DescriptorRuns.OwnReadsComposeIff` | student-distrib/file_sys.c:148-163 | so it gets the file in order exactly when that holds of its own reads alone |
| `DescriptorRuns.OpenedFileIsReadIff` | student-distrib/syscalls.c:405-447 | a program that opens a regular file and reads it gets it in order from its first byte, in any interleaving, if and only if none of its reads wraps or starts over |
| `Directory.FirstNamed` | student-distrib/file_sys.c:41-61 | the first entry of the name, or none of the 63 has it |
| `Directory.LongerDecides` | student-distrib/file_sys.c:47-56 | comparing as many characters as the longer name has decides equality |
| `Directory.Strncmp` | student-distrib/lib.c:492-506 | returns 0 if and only if the two strings agree up to n characters or the end, and else the signed difference where they part |
| `Directory.ReadDentryByName` | student-distrib/file_sys.c:30-68 | succeeds if and only if the query has 1 to 32 characters and is some entry's name, and returns the first |
| `Directory.LookupFindsIff` | student-distrib/file_sys.c:30-68 | a lookup succeeds if and only if the name has 1 to 32 characters and is some entry's, and yields the first such entry |
| `Directory.ListedNamesLookUp` | student-distrib/file_sys.c:30-68 | every non-empty listed name looks up to an entry of that name |
| `Directory.ListingIsEntries` | student-distrib/file_sys.c:204-228 | successive calls yield the names in order, then the end, then the same again for ever |
| `Directory.CounterIs` | student-distrib/file_sys.c:213-226 | the counter is the number of calls modulo the entries and the end |
| `Directory.ListingIsInOrderIff` | student-distrib/file_sys.c:204-228 | with other readers in between, one reader gets the directory in order if and only if the counter starts at 0 and the others go whole rounds |
| `Directory.Listing.ReadDirectory` | student-distrib/file_sys.c:204-228 | one call: the 32 bytes, the counter, and an untouched rest of the buffer |
| `CommandLine.FileNameIsWordIff` | student-distrib/syscalls.c:82-98 | the file name is the first word if and only if it ends within 32 characters (or there is none) |
| `CommandLine.ArgumentsAreRemainderIff` | student-distrib/syscalls.c:86-132 | the arguments are the trimmed remainder if and only if the word ends before the 32nd character or nothing follows |
| `CommandLine.ParsesBack` | student-distrib/syscalls.c:82-132 | word and arguments written with any padding are parsed back, interior spaces kept |
| `CommandLine.TakeName` | student-distrib/syscalls.c:82-102 | the name loop takes the file name and finds where the arguments start |
| `CommandLine.OnlySpacesFollow` | student-distrib/syscalls.c:112-120 | the inner scan ends and tells whether only spaces follow |
| `CommandLine.ParseArguments` | student-distrib/syscalls.c:108-132 | the argument loop drops trailing spaces only |
| `CommandLine.Parse` | student-distrib/syscalls.c:82-132 | the nested loops end and compute file name and arguments |
| `Loader.CommandRunsItsFile` | student-distrib/syscalls.c:82-148 | a padded command enters the first file of its name at the address in bytes 24 to 27, or fails without the magic number |
| `Loader.UnknownCommandFails` | student-distrib/syscalls.c:136-139 | a command that names no file runs nothing and leaves the tables as they are |
| `Loader.LittleEndianIs` | student-distrib/syscalls.c:147-148 | the entry point is the number whose bytes, lowest first, are the four read |
| `Loader.DeterminedIff` | student-distrib/syscalls.c:141-148 | the verdict and entry point do not depend on uninitialised stack bytes if and only if the file has 28 bytes or cannot be taken for a program |
| `Loader.FindProgram` | student-distrib/syscalls.c:82-148 | parser, lookup and header reads yield the program the command names |
| `Loader.ExecuteCommand` | student-distrib/syscalls.c:58-244 | the whole call on the tables, from the command string |
| `Cat.CopyToStdout` | syscalls/ece391cat.c:21-30 | terminates and writes exactly the whole file |
| `Grep.FittingPiecesAreLines` | syscalls/ece391grep.c:29-57 | with no line over 1024 bytes, searching buffer-sized pieces is searching lines |
| `Grep.LinesJoin` | syscalls/ece391grep.c:29-41 | the lines are what stands between the line ends: joined by them they are the file |
| `Grep.PiecesAreLinesIff` | syscalls/ece391grep.c:21-60 | for every pattern the output is that of the line-wise specification, if and only if no line is over 1024 bytes |
| `Grep.Strcpy` | syscalls/ece391support.c:14-17 | copies a string within one memory, overlap towards lower addresses included |
| `Grep.Strncmp` | syscalls/ece391support.c:35-46 | returns 0 or the difference of the characters at which the strings part, up to n |
| `Grep.ComparedIsPrefix` | syscalls/ece391support.c:35-46 | with n the length of the pattern, 0 if and only if the line starts with it |
| `Grep.SearchLine` | syscalls/ece391grep.c:42-51 | finds the pattern if and only if the line contains it |
| `Grep.NextPiece` | syscalls/ece391grep.c:30-57 | what one turn of the inner loop searches is the next piece of the file |
| `Grep.ScanBuffer` | syscalls/ece391grep.c:28-57 | prints the hits among the finished lines and carries the unfinished one down |
| `Grep.FillBuffer` | syscalls/ece391grep.c:22-27 | a read appends to the carried bytes what follows them in the file |
| `Grep.GrepFile` | syscalls/ece391grep.c:20-60 | terminates and prints the hits of the whole file, each once and in order |
| `Grep.DoOneFile` | syscalls/ece391grep.c:9-66 | all outcomes: open fails, read fails, or the hits of the file |
| `BlinkList.FirstFree` | fish/fish.c:160-170 | the first slot with location 0, or none is free |
| `BlinkList.Add` | fish/blink.S:105-184 | fails if and only if the location is off the screen or no slot is free, and then changes nothing |
| `BlinkList.AddKeepsSound` | fish/blink.S:140-162 | the new blinker was on no list and heads the new one; list and allocator agree |
| `BlinkList.AddKeepsSoundIff` | fish/blink.S:131-162 | they agree after an add if and only if the location is not 0 |
| `BlinkList.AddingAtZeroTwiceLoops` | fish/blink.S:131-162 | two adds at location 0 tie the list into a loop |
| `BlinkList.FirstAt` | fish/blink.S:351-379 | the first blinker of the list at a location, or none |
| `BlinkList.UnlinkKeepsSound` | fish/blink.S:206-223 | unlinking any node keeps list and allocator in agreement |
| `BlinkList.RemoveKeepsSound` | fish/blink.S:187-237 | remove takes exactly the first blinker at the location, or fails and changes nothing |
| `BlinkList.AddThenRemove` | fish/blink.S:105-237 | remove after add restores array and head exactly |
| `BlinkList.AgreeOverRuns` | fish/blink.S:105-237 | after any calls (no add at 0): agreement, and the exact conditions for add and remove to fail |
| `BlinkList.PhaseLastsIff` | fish/blink.S:64-86 | of all 16-bit lengths exactly 1 to 0x8000 are kept; any other phase ends at its first tick |
| `BlinkList.PhaseFollows` | fish/blink.S:64-86 | the tick that ends a phase starts the other one, at its own length, and shows its character |
| `BlinkList.CycleRepeats` | fish/blink.S:64-86 | after its lit and its dark length a blinker is as it was |
| `BlinkList.BlinksForEver` | fish/blink.S:64-184 | at every tick after its add a blinker is lit if and only if the tick falls in the first onLength of onLength + offLength; what each tick draws |
| `BlinkList.LastDrawnShows` | fish/blink.S:49-99 | each byte of the screen shows what the last blinker that draws there draws, or what it showed before |
| `BlinkList.Blinkers.Malloc` | fish/fish.c:160-170 | the scan finds the first free slot |
| `BlinkList.Blinkers.IoctlAdd` | fish/blink.S:105-184 | the stores are those of `BlinkList.Add`, and the character is drawn |
| `BlinkList.Blinkers.FindHelper` | fish/blink.S:351-379 | the walk terminates and finds the first blinker at the location |
| `BlinkList.Blinkers.FindPrevious` | fish/blink.S:206-212 | the predecessor walk terminates at the link to the node |
| `BlinkList.Blinkers.IoctlRemove` | fish/blink.S:187-237 | the stores are those of `BlinkList.Remove` |
| `BlinkList.Blinkers.RtcTasklet` | fish/blink.S:49-99 | every blinker ticks exactly once; free slots are untouched; what is drawn |
| `NumberFormat.DigitsAre` | student-distrib/lib.c:265 | the digits of a radix are '0' to '9' and then 'A' on, and nothing else |
| `NumberFormat.DigitsRoundTrip` | student-distrib/lib.c:264-294 | the digits evaluate to the value, are digits of the radix, and start with 0 for 0 only |
| `NumberFormat.ReverseAt` | student-distrib/lib.c:300-313 | what reversal means, index by index |
| `NumberFormat.Strrev` | student-distrib/lib.c:300-313 | reverses the string in place and nothing around it |
| `NumberFormat.Itoa` | student-distrib/lib.c:264-294 | leaves a NUL-terminated string of the digits and touches nothing else |
| `NumberFormat.WriteLowestFirst` | student-distrib/lib.c:282-287 | the division loop writes the digits in reverse |
| `NumberFormat.AlternateHex` | student-distrib/lib.c:117-127 | prints exactly eight hexadecimal digits that evaluate to the value |
| `Rtc.HandleInterrupt` | student-distrib/rtc.c:108-116 | a reader is released, and its counter reloaded, exactly when the counter is 0; periods stay |
| `Rtc.ReleasedExactly` | student-distrib/rtc.c:100-120 | a reader is blocked until exactly counter + 1 interrupts have come, whatever other terminals do, and then stays released |
| `Rtc.ReadIsReleased` | student-distrib/rtc.c:158-168 | a read is released by exactly the interrupt that finds the rest of its period used up; interrupts between its two stores count, and the whole period is left if there are none |
| `Rtc.ReadAtFrequency` | student-distrib/rtc.c:84-168 | with the clock at f, an undisturbed read lasts exactly 1024 / f + 1 interrupts |
| `Rtc.PeriodIsRightIff` | student-distrib/rtc.c:84-90 | period times frequency is 1024 if and only if the global still holds this frequency when the period is computed |
| `Rtc.RaceGivesWrongPeriod` | student-distrib/rtc.c:84-90 | two terminals that set 2 and 1024 at once: the first gets period 1 |
| `Rtc.PeriodIsOwn` | student-distrib/rtc.c:84-120 | only a terminal's own calls change its period, and only they or an interrupt its counter |
| `Rtc.UsableAreRates` | student-distrib/rtc.c:197-203 | the accepted frequencies are exactly the powers of two from 2 to 1024 |
| `Rtc.Driver.constructor` | student-distrib/rtc.c:57-61 | the variables after `init_RTC` |
| `Rtc.Driver.SetFrequency` | student-distrib/rtc.c:84-90 | without preemption, the caller's period is the largest that does not exceed 1024 / frequency, and exactly that for a usable frequency |
| `Rtc.Driver.Open` | student-distrib/rtc.c:130-134 | opening sets the caller's clock to 2 Hz |
| `Rtc.Driver.Handler` | student-distrib/rtc.c:108-116 | the loop is one interrupt of `Rtc.Step` |
| `Rtc.Driver.Write` | student-distrib/rtc.c:181-206 | succeeds if and only if asked for four bytes holding a usable frequency, and otherwise changes nothing |

## Left out

- Hardware: port I/O, PIC, PIT, IDT, GDT and LDT set-up, multiboot parsing, boot and linkage assembly, the hardware cursor (`move_cursor`).
- Paging other than page directory entry 32, `vid_map`, `system_vidmap` and what programs write through it.
- Real stacks and `iret`: only the saved esp, ebp, eip and esp0 values are kept. A store or load through `get_pcb` of a pid out of range is modelled as missing the six PCBs.
- A preempted halt whose kernel stack has been given to another program: HaltWindow.FreedStackIsKept says when, and nothing is said of what it does then.
- Copying the program image into user memory (student-distrib/syscalls.c:168); programs themselves act only through their system calls.
- Busy-waits: `terminal_read` and `RTC_read` are split where they wait; that the awaited flag is ever set is not claimed for keys.
- A process killed by an exception inside `terminal_read`, on a bad user buffer; its terminal would go on waiting.
- Keys typed after Enter and before the reader runs are part of the runs as long as they stay inside the buffer; line breaks typed as characters are not among the keys.
- `terminal_flag` between calls: every use follows a store in the same call.
- Scan-code tables, caps and shift flags, exception printers, `printf` apart from `%#x`, the second copy of `itoa` and `strrev` in syscalls/ece391support.c.
- Argument storage and `system_getargs`: all processes share one string literal (student-distrib/syscalls.c:67), so only the parser's result is modelled.
- The intended "halt closes the child's descriptors": the loop closes the parent's, and that is what is modelled.
- Fish: `mp1_ioctl_sync`, `mp1_ioctl_find`, and the image loader.
- The programs counter, hello, ls, pingpong, shell, sigtest, syserr and testprint, and the file walk in the `main` of grep.
- ProcessRuns.RunSimulates: assumes that successful executes are called from the terminal on the screen, that first launches succeed, and that directory entries have file type 0, 1 or 2; ProcessRuns.RunInOrderIff proves that the first two are exactly what is needed.
- ProcessRuns.StepSimulates: the same assumptions; ProcessRuns.StepInOrderIff.
- CallStacks.ExecuteIsPush: the same assumption on execute; ProcessRuns.ExecuteNeedsOwnScreen.
- ProcessRuns.HaltResumesCaller: the same assumptions, and halts are atomic; HaltWindow.ParentResumesAt is about the others.
- ProcessRuns.PreemptedResumes: the same assumptions.
- ProcessRuns.BaseShellStays: the same assumptions.
- ProcessRuns.StepInOrderIff: directory entries have file type 0, 1 or 2; ProcessRuns.OpenTakesLeastSlot is about the others.
- ProcessRuns.RunInOrderIff: the same.
- WholeKernel.StepTogether: the assumptions of ProcessRuns.RunSimulates, and keys stay in bounds as in LineDiscipline.InBoundsIff.
- WholeKernel.RunIsBoth: the same.
- WholeKernel.ReachableIsSound: the same.
- Loader.CommandRunsItsFile: files have at least 28 bytes; Loader.DeterminedIff is about the others.
- TerminalDriver.Driver.EditBuffer: a key that edits a full buffer stores past an array, to which C gives no meaning; LineDiscipline.InBoundsIff says exactly when.
- TerminalDriver.Driver.TabKeyHandler: the same case is left out.
- FileSystem.Files.ReadData: for a range whose end wraps at 2^32 the code copies past the file; FileSystem.ClipIsRightIff says when, and the method leaves that case out.
- FileSystem.Files.ReadFile: the same case is left out. Positions wrap as 32-bit signed numbers.
- Grep.DoOneFile: files have no NUL byte; the last byte of the uninitialised buffer is not a line end, or the file fits the buffer; the failing `close` (impossible for an open file) is left out.
- Grep.GrepFile: the same.
- Grep.ScanBuffer: the same.
- Grep.Strcpy: a copy that overwrites the string's end before reaching it does not end.
- Directory.ReadDentryByName: an entry's name that fills its 32 bytes counts as 32 long; the code's `strlen` runs on into the next field and is then capped at 32.
- BlinkList.AgreeOverRuns: no add at location 0; BlinkList.AddKeepsSoundIff and BlinkList.AddingAtZeroTwiceLoops say why.
- Rtc.ReleasedExactly: runs start after some `RTC_open`, so that the global frequency is not 0.
