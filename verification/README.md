# A verified model of a multi-terminal teaching kernel

The kernel runs programs on several text terminals that share one screen and one keyboard.
This project models its stateful core in Dafny and proves what the pieces promise together:

* **Processes.** `execute`, `halt`, the timer interrupt and the terminal keys change an
  allocation table, counters, heads, parent links, the user page and the kernel stack pointer.
  All of these are views of one object, a stack of running programs per terminal together with
  the leaked pids and the page in the user window (`Machine`).
  The tables are kept imperatively (`Processes`, `Kernel`) and proved to follow the machine on
  every run; nesting, context switching, fairness and exception codes are then proved for runs
  of the machine (`Runs`), and the forest shape of the parent links for every table that
  represents a machine (`ProcessTables`).  `Calls` adds the open files: what every system call,
  exception, tick and terminal key does to programs and descriptors together, over whole runs, and
  `Programs` the pages of the programs (`UserMemory`): from the command to the return of `execute`, a
  program is the file its command names.  `Misplaced` follows a context saved in the wrong PCB to the
  tick that continues it.
* **Terminals.** Several logical screens share the physical video page through a page table
  (`VideoMemory`); a terminal edits its page in place (`TextScreen`).  A screen is proved to be
  a window of an unbounded transcript (`Screen`), each terminal to behave as if it were alone
  (`Display`), the line editor to agree with what is echoed (`Terminal`), the history ring with
  a list of lines (`History`), and whole reads with everything typed and printed meanwhile (`Sessions`).
  `Switching` puts the display and the process half of a terminal switch together, `Together` whole
  runs of the kernel and the display, and `Console` a read of descriptor 0 and the line typed for it.
* **Files.** The image is one flat sequence of bytes (`FileSystem`); it describes a volume exactly if it
  is that volume written out from front to back (`Images`).  Reading by division and remainder is proved
  to deliver slices of the concatenated blocks, and to end as the code does on files that list blocks
  that do not exist.  Descriptors are handles on named files (`Descriptors`), interleaved reads deliver every file from front to back (`Streams`), and the type of a
  directory entry decides what the reads after an open deliver (`Opening`).
* **Text.** Numerals (`Numerals`), C strings (`CStrings`), command lines (`CommandLine`) and the
  search for the program a command names and its loading (`Loader`).

Conventions.  The numbers of terminals and processes are constants between 1 and 255, that of history
lines one between 1 and 254, without a fixed value (the kernel uses 3, 6 and 3), so no proof counts
cases; with 255 lines the byte that counts them would wrap around before it is capped
(keyboard.c:273).  With more than 6 processes their pages would meet those of the terminals
(`VideoMemory.ProgramsAvoidBuffersIff`).  A saved `esp`/`ebp` pair is an opaque token `Ctx`; all
that is known of it is whose kernel stack it points to.  Ghost parameters such as `line` and `name`
say what a buffer holds.  Memory that is never written (the file-system image) is a sequence;
other memory is an array, that of the programs one of whole pages.

Where the code does not do what its interfaces suggest, the model follows the code, and the exact
condition is proved:

* A halting program delivers its status, but 256 if its pid still carries the exception flag of
  a faulted last program of a terminal (`Runs.HaltUndoesExecute`, `Runs.StaleFlagDelivers256`,
  `Runs.StepKeepsClean`).
* Opening a terminal saves the interrupted context in the PCB of the terminal in view, which is
  right exactly when that is also the running terminal (`ProcessTables.OpeningIsSafeIff`).  A run
  from boot gets there (`Runs.OpeningOutOfViewHappens`); on that run the second tick from then on
  continues the foreign context on the terminal in view (`Misplaced.ForeignContextContinues`).
* `execute` without a command never gives its pid back, and nor does one whose load runs over; no other
  step loses a pid (`Runs.LeakedIff`).  Every lost pid is one program less (`Runs.RoomAfterLeaks`).
  The limit check of `terminal_switch` counts programs, so without a free pid it is wrong exactly if
  one has leaked (`Machine.ShortIffLeaked`).  One program can bring that about
  (`Runs.ShortageHappens`), and a terminal opened then runs nothing (`Kernel.Kernel.StrandOnTerminal`).
* Clearing the screen leaves the edited line alone, and takes the cursor's room to erase it away exactly
  when it is longer than the prompt (`Sessions.RoomKeptIff`).  Backspaces fit as long as the cursor
  has room (`Sessions.BacksFitIff`); eight keys, Ctrl-L and eight backspaces lead out of the page,
  where the last one would blank a cell far behind it (`Sessions.CornerIsReached`,
  `TextScreen.TextScreen.StepBack`).
* Stepping forward past the most recent history line finds the oldest one
  (`History.MovedPointer`).
* `getargs` writes the terminating NUL one past the requested size when the arguments just fit, and
  touches nothing there otherwise (`Kernel.ArgsStayInsideIff`, `Kernel.ArgsOverrun`).
* A program is loaded behind the start of its 4 MB page and stays in that page exactly if it has at
  most 0x3B8000 bytes (`Loader.LoadStaysInPageIff`).  A longer one is written over the pages of the
  terminals (`Loader.LongProgram`), and behind those into addresses that are not mapped
  (`Loader.TooLongProgram`), where the page fault halts the program that called `execute` with 256
  and the pid of the new one is lost (`Runs.OverrunHaltsCaller`).
* Loading also fails when a listed block does not exist (`Loader.LoadsIff`, `Loader.BrokenProgram`).
  `execute` gives the pid back, but the user window keeps the new page, so the caller does not see its
  own until something is launched, resumed or switched to (`Runs.HomedIff`).
* The block check of `read_data` rejects numbers above the block count; the count itself passes and
  leads out of the image (`FileSystem.AccessIs`).
* A failing read of a damaged file moves its position back by one (`Descriptors.FdTables.FileRead`).
  Whether the descriptor can deliver anything from then on is decided by the byte in front
  (`Descriptors.DeliversAfterFailingIff`); from the start of the file it cannot, although the first
  block exists (`Loader.BrokenProgramRead`).
* An ENTER when the key buffer is full writes its newline behind the buffer.  That needs a second
  ENTER before the reader has taken the first line (`Sessions.EnterCompletes`,
  `Sessions.SecondEnterOverruns`, `Sessions.NoReaderNoOverrun`).
* A refused terminal switch prints on the terminal that runs, which need not be the one in view
  (`Switching.TerminalSwitch`).

## Model

| member | source | states |
|---|---|---|
| Layout.ProcessesAreApart | syscall.c:517-521 | PCB and kernel-stack blocks and user pages of different pids never coincide or overlap; the stack of a process takes its own block from the top |
| Layout.StackFillsBlock | syscall.c:607-610 | the addresses from 8 KB below the word behind esp0 up to that word are exactly the block of the process, counted in blocks of 8 KB down from 8 MB |
| Layout.UserEntryMaps | paging.c:108-114 | an entry maps the pid's page, counted in pages of 4 MB, with the bits present, write, user and page size and no other, if and only if it is the one execute writes |
| Machine.UsedSize | syscall.c:230-231 | distinct pids: the number of allocated pids is the number of running programs on all terminals together |
| Machine.FullIffCount | syscall.c:495-507 | pigeonhole: no pid is free exactly when programs and leaked pids are MAX_NUM_PROC together |
| Machine.ShortIffLeaked | keyboard.c:649 | when no pid is free, the limit check of terminal_switch misses it if and only if a pid has leaked |
| Machine.ScanFindsNearest | PIT.c:123-136 | the scan stops, at the cyclically nearest other terminal with a program, or at the current one if there is none |
| Machine.TickCountsOn | PIT.c:56-136 | a tick gives the processor to the d-th terminal after the running one, counted around, for the least d for which it runs something |
| Machine.EmptiedHasRoom | syscall.c:50-58 | halting a terminal's last program always leaves a pid for the shell that replaces it |
| Machine.StepKeepsWellFormed | syscall.c:33-270 | every execute, however it ends, halt, tick and terminal switch from a well-formed state leads to one: pids of programs and leaked ones distinct and in range, callers waiting on their own kernel stacks, every waiting terminal suspended on its head's stack, running and viewed terminals live |
| Runs.PrefixKept | syscall.c:33-81 | while more than d programs stay on a terminal, nothing that happens anywhere changes the lower d+1 of them |
| Runs.HaltUndoesExecute | syscall.c:33-270 | last-in first-out over any run: a halt continues exactly the execute that launched the program, with the terminal's stack as before and the caller's own page in the user window; the value is the status, or 256 exactly after a fault or on a stale flag |
| Runs.ArgsSurvive | syscall.c:208-209 | a program keeps its pid and the arguments it was launched with as long as it is on its terminal |
| Runs.SuspendedKept | PIT.c:89-96 | while a live terminal does not run, its programs and its suspension point do not change |
| Runs.TickContinuesWhereInterrupted | PIT.c:56-112 | whatever takes the processor away from a terminal, only a timer tick gives it back, and exactly at the interrupted context with the same programs |
| Runs.LiveStaysLive | syscall.c:54-58 | no step empties a terminal that runs a program, because the last program is replaced by a shell |
| Runs.Approaches | PIT.c:123-136 | the measure (terminals without programs, cyclic distance) never grows and falls with every tick until the terminal runs |
| Runs.SchedulerIsFair | PIT.c:56-136 | any run with NUM_TERM squared ticks gives the processor to every terminal live at its start, whatever is launched, halted or opened in between |
| Runs.StepKeepsClean | syscall.c:55-72 | from a state without exception flags, a step leaves one behind exactly when it is a fault of a terminal's last program |
| Runs.CleanKept | syscall.c:55-72 | over any run in which no terminal's last program faults, no launch meets a stale exception flag |
| Runs.CleanHaltDelivers | IDT.c:195-208 | after such a run a halt of a nested program delivers 256 if and only if it was raised by an exception, and otherwise the status itself |
| Runs.StaleFlagDelivers256 | syscall.c:55-72 | a concrete run from boot, for any boot state without flags, after which an ordinary halt delivers 256 for every status |
| Runs.LeakedIff | syscall.c:103-172 | a pid leaks with an execute that has no command or whose load runs over, and with nothing else, and never comes back |
| Runs.LeaksAddUp | syscall.c:103-172 | over any run exactly as many pids are lost as such calls were made |
| Runs.RoomAfterLeaks | syscall.c:495-507 | after any run from a state without leaks, no pid is free exactly when MAX_NUM_PROC minus the leaks so far programs run |
| Runs.ShortageHappens | syscall.c:103-111 | a concrete run from boot after which no pid is free and the limit check of terminal_switch passes |
| Runs.HomedIff | syscall.c:164-172 | after any step the running program sees its own page if and only if the step is not an execute that failed with its page already in the user window; any launch, return or switch makes that good again |
| Runs.PageKept | paging.c:108-114 | over any run without such an execute the running program sees its own page |
| Runs.OverrunHaltsCaller | IDT.c:195-208 | a load that runs over is a page fault that halts the caller of execute: its own caller gets 256 or a new shell takes its place, and the pid of the program that was to be loaded is lost |
| Runs.OpeningOutOfViewHappens | keyboard.c:656-687 | a concrete run from boot after which two terminals run a program each and a third can be opened while the second, not the running one, is in view |
| ProcessTables.TablesAreAForest | syscall.c:33-270 | parent chains from the heads are as long as the counters say, end in the only self-parented process, are disjoint, and cover exactly the allocated pids that have not leaked; process_cnt is both their number and the sum of the counters |
| ProcessTables.LeaksShow | syscall.c:495-507 | the number of marked pids exceeds process_cnt by exactly the number of leaked ones |
| ProcessTables.StackIsOwn | syscall.c:607-610 | every word from the loaded esp0 down to the PCB is in the block of the running program and in that of no other |
| ProcessTables.SameStackSameTables | syscall.c:59-66 | tables of two states with the same programs on a terminal agree on its counter, head, parent chain, return points and arguments, and, if it runs, on esp0; on the user page exactly if the same page is in the window |
| ProcessTables.StartedViews | syscall.c:174-231 | the table writes of a successful execute represent the machine with the new program on top of the running terminal |
| ProcessTables.EmptiedViews | syscall.c:49-52 | the table writes of halt up to the relaunch represent the machine with that terminal emptied, its flag kept |
| ProcessTables.ResumedViews | syscall.c:49-72 | all table writes of halt represent the machine with the top program removed |
| ProcessTables.SwitchedViews | PIT.c:75-99 | the table writes of a context switch represent the machine with the other terminal running and the interrupted context recorded |
| ProcessTables.SwitchedSafe | PIT.c:89-108 | saving in the head's PCB keeps every waiting terminal's context in its own head's PCB, and what the switch loads is the context recorded for the next terminal |
| ProcessTables.LeakingViews | syscall.c:103-111 | tables with the lowest free pid marked represent the machine that has leaked it |
| ProcessTables.RemappedViews | syscall.c:164-172 | tables with another page in the user window represent the machine that shows that page |
| ProcessTables.OpeningIsSafeIff | keyboard.c:656-687 | opening a terminal keeps all saved contexts where they are looked for if and only if the running terminal is the one in view |
| ProcessTables.TickIsRightIff | PIT.c:75-108 | a tick to another terminal continues the context that was interrupted there if and only if it is saved in the PCB of that terminal's head |
| ProcessTables.TickAfterOpeningIsWrong | keyboard.c:676-683 | once a foreign context is saved in the PCB of a terminal's head, the tick that reaches this terminal continues that foreign context, which is not the one interrupted there |
| ProcessTables.FaultedViews | IDT.c:195-203 | marking the head's PCB represents the machine in which the running program carries an exception flag |
| ProcessTables.FaultedHalt | IDT.c:195-208 | halting with the flag raised does what a halt by exception does |
| Processes.Processes.constructor | keyboard.c:564-629 | the initial tables represent the machine that runs nothing |
| Processes.Processes.PidAvailable | syscall.c:495-507 | -1 exactly when no pid is free, which is exactly when process_cnt and the leaked pids are MAX_NUM_PROC together; otherwise the lowest free pid is reserved and nothing else changes |
| Processes.Processes.ExecuteNull | syscall.c:103-111 | returns -1 and, unless all pids were taken, leaks the lowest free one |
| Processes.Processes.ReleasePid | syscall.c:114-118 | giving a reserved pid back restores the represented state |
| Processes.Processes.SetPageExecute | paging.c:108-114 | the user window shows exactly the 4 MB page of the pid, present, writable and open to user programs |
| Processes.Processes.Abandon | syscall.c:167-172 | after a failed load the pid is free and everything but the user window as before: the tables represent the old machine with the other page |
| Processes.Processes.LeaveMarked | syscall.c:164-172 | a load that never comes back leaves the machine with the pid leaked and its page in the user window |
| Processes.Processes.FillPcb | syscall.c:174-225 | changes only the PCB of the new pid and the head of the running terminal; the parent is the old head, or the pid itself on an empty terminal |
| Processes.Processes.Start | syscall.c:163-231 | the running terminal has the new program on top, in the machine and in the tables; the saved contexts of other terminals are untouched |
| Processes.Processes.Free | syscall.c:49-52 | gives back exactly the counters and the pid of the running program |
| Processes.Processes.ResumeParent | syscall.c:33-81 | the top program of the running terminal is gone, the caller of its execute continues, with 256 for a flagged program and the status otherwise |
| Processes.Processes.TakeHaltStat | syscall.c:68-72 | the flag decides the value and is cleared |
| Processes.Processes.RaiseHaltStat | IDT.c:195-203 | the running program, and only it, carries a flag |
| Processes.Processes.GetScheduledTerm | PIT.c:123-136 | the loop returns the terminal that the scan of the machine chooses |
| Processes.Processes.PitHandler | PIT.c:56-112 | the tables follow the machine's tick, and what continues is the context in the PCB of the next terminal's head; if all contexts were in place, they still are and it is the recorded context of the next terminal |
| Processes.Processes.LoadTerminal | PIT.c:75-108 | user page, esp0, running terminal and the saved context change together, and what is loaded is what the next head's PCB held before |
| Processes.Processes.LeaveFor | keyboard.c:656-687 | the processor leaves for an empty terminal; the contexts stay safe exactly when the PCB written is the running terminal's |
| Loader.ShellIsRunnable | syscall.c:57 | on a volume whose shell is an executable that fits its page, the command "shell" is runnable whatever the stack held |
| Loader.MagicDecides | syscall.c:139-152 | an undamaged file of four bytes or more passes the header check if and only if it starts with the magic bytes, whatever the stack held |
| Loader.LoadsIff | syscall.c:164-172 | loading reaches the end of the file if and only if all its listed blocks exist and it fits what is mapped behind the load address; it never fails for an undamaged file |
| Loader.LoadStaysInPageIff | syscall.c:14-167 | whatever was in memory, loading leaves the pages of the terminals alone if and only if the file has at most 0x3B8000 bytes |
| Loader.ShellLeavesScreens | syscall.c:164-172 | loading such a shell leaves the pages of all terminals alone, whatever was in memory |
| Loader.BrokenProgram | syscall.c:167-172 | an image with a program that passes all checks and whose loading fails |
| Loader.BrokenProgramRead | filesystem.c:70-87 | on that image a read of the whole file fails and moves the position to -1, from where not even one byte is delivered, although it was before |
| Loader.LongProgram | syscall.c:167-172 | an image with an undamaged program that is loaded beyond the user page |
| Loader.TooLongProgram | syscall.c:167-172 | an image with an undamaged program whose loading reaches an address that is not mapped, for up to 70 terminals, and no further |
| Loader.FindProgram | syscall.c:114-152 | -1 exactly when the command names no regular file whose first bytes can be read and are the four magic ones, old stack bytes counting behind a short file; otherwise the inode of the first entry with that name, and the argument text |
| Loader.CheckHeader | syscall.c:137-152 | true exactly when the header can be read and, old bytes behind a short file included, starts with the magic bytes |
| Loader.Load | syscall.c:166-172 | ends as the volume says; a complete load leaves exactly the file at offset 0x48000 of the user page and everything else in memory as it was |
| UserMemory.UserMemory.LoadInto | syscall.c:163-172 | loading changes only the page of the new pid; a complete load leaves there what was there before, with the file, as far as it is inside the page, at 0x48000 |
| Kernel.Kernel.Execute | syscall.c:96-270 | on any readable volume tables, machine, descriptors and pages follow the specified execute, however it ends: with no free pid or no executable of that name everything is as before; a load that fails leaves the other page in the user window; one that runs over also the pid marked, and a page fault; otherwise the program runs on top of the running terminal with the lowest free pid and its arguments, and the file it names is in its page, and no other page has changed |
| Kernel.Kernel.ExecuteNothing | syscall.c:103-111 | execute without a command gets -1 and leaks a pid if there is one |
| Kernel.Kernel.LaunchShell | syscall.c:57 | with a free pid, launching the shell cannot fail, and the shell is in its page |
| Kernel.Kernel.Boot | kernel.c:171-181 | the first shell leads to a well-formed state with all contexts in place |
| Kernel.Kernel.Halt | syscall.c:33-84 | tables and descriptors follow the machine's halt: the parent's execute returns, or a new shell enters, which always succeeds |
| Kernel.Kernel.SquashException | IDT.c:195-208 | tables and descriptors follow the machine's halt by exception |
| Kernel.Kernel.TerminalSwitch | keyboard.c:639-693 | tables follow the machine's switch; the contexts stay in place if and only if no terminal is opened while another than the running one is in view |
| Kernel.Kernel.StrandOnTerminal | keyboard.c:649-687 | opening a terminal when pids have leaked and none is left passes the limit check, the shell is refused, and the processor is on a terminal that runs nothing |
| Kernel.Kernel.Tick | PIT.c:56-112 | the timer keeps processes and descriptors consistent; what continues is the context in the PCB of the next terminal's head, the recorded one if all contexts were in place |
| Kernel.Kernel.Open | syscall.c:327-384 | the running program gets the lowest free descriptor from 2 on, standing at the start of what the name resolves to, or -1 with nothing changed; no other program's table changes |
| Kernel.Kernel.Close | syscall.c:395-410 | frees a present descriptor from 2 to 7 of the running program, or fails and changes nothing |
| Kernel.Kernel.Read | syscall.c:283-293 | reads through the running program's own handle and advances only that; a device's bytes are in the buffer and everything behind them as before |
| Kernel.Kernel.GetArgs | syscall.c:421-434 | delivers the running program's arguments and a NUL exactly when they are non-empty and no longer than requested; otherwise -1 and an untouched buffer |
| Kernel.ArgsStayInsideIff | syscall.c:421-434 | nothing at or behind nbytes changes if and only if the arguments do not just fit, or a NUL was there before |
| Kernel.ArgsOverrun | syscall.c:421-434 | one byte of arguments asked for with nbytes 1 overwrites the byte behind |
| Kernel.Kernel.Serve | syscall.c:33-434 | every trap, file calls and every end of execute included, takes programs, open files and the contents of the pages to the state the specification says, with its reply; a file call gets it in any state |
| Kernel.Kernel.Run | syscall.c:33-434 | refinement over whole runs of system calls, exceptions, ticks and terminal keys, failing and faulting executes included: tables, machine, open files and pages follow the specification, and if terminals are opened only with the running one in view, every trap has the specified reply |
| Kernel.Kernel.BootAndRun | kernel.c:171-181 | every state reached from boot has tables that form a forest around the leaked pids, good descriptors for exactly the running programs, and in their pages what they were loaded from |
| Kernel.Kernel.RunningSeesItsProgram | paging.c:108-114 | in every state the user window maps, present and open to programs, the page in which at 0x48000 is what the running program was loaded from, unless an execute has failed late |
| Kernel.HaltRestoresTables | syscall.c:59-66 | after a nested execute and its halt, with any run in between, the terminal's head, counter, parent chain, return points and esp0 are those before the execute, and the user window shows the caller's page; that it did before exactly if no failed execute had changed it |
| Calls.NextIsProper | syscall.c:33-434 | every trap keeps the invariant of programs and files: exactly the running programs have descriptors, the first two the terminal, every file handle within its file |
| Calls.OthersKeepFiles | syscall.c:283-434 | whatever one program calls, and whatever is launched, halted or switched, the open files of every other running program stay as they are |
| Calls.WaitingKeepsFiles | PIT.c:56-112 | over any run, a program that does not run keeps its open files exactly |
| Calls.RunIsMachineRun | syscall.c:33-270 | the programs of every run of traps are a run of the machine, so all results about those hold of it |
| Calls.RunDeliversContent | filesystem.c:70-87 | over any run, with other programs launched, halted and reading the same file and pids used again, the bytes an open descriptor delivers to its program are its file from where it stood to where it stands |
| Calls.RunListsDirectory | filesystem.c:116-145 | over any run, whatever other programs do, the reads of an open directory descriptor for at least 32 bytes deliver every name from where it stood once, in order, and then nothing |
| Programs.ShellImage | syscall.c:57 | the image of a shell is its whole file |
| Programs.ImageStays | syscall.c:163-172 | until it ends, a program has in its page what it was loaded from, over any run of launches, loads, halts and switches |
| Programs.ProgramRuns | syscall.c:96-270 | whenever the program that a command launched runs: it is the file the command names, getargs gives it the arguments of the command, and its caller has its own image and its open files as before |
| Programs.TypedCommandRuns | syscall.c:552-595 | an assembled line launches the file named by its word, and this program gets the argument text, spaces inside it included |
| Programs.ExecuteReturns | syscall.c:33-84 | over any run of traps, the halt of a launched program or an exception in it makes exactly its execute return, with the status or with 256, with the terminal's programs as before, the other terminals' untouched and the caller's page in the user window |
| Calls.ServedCommands | syscall.c:96-100 | a run may call execute with any text of up to 127 characters without 0 and 10, and with anything on the stack |
| Calls.LaunchesIff | syscall.c:114-172 | a command that names an undamaged file of four bytes or more launches it if and only if these are 0x7F and "ELF" and it fits what is mapped, whatever the stack held; one that names no file of type 2 launches nothing |
| Calls.ShellLaunches | syscall.c:57 | an execute of "shell" ends with the program launched, whatever the stack held |
| Switching.TerminalSwitch | keyboard.c:639-693 | processes and display agree on the terminal in view and every terminal keeps its screen, only an opened one starts cleared, also by the load of its shell; a refused switch changes nothing but the screen of the terminal that runs, which gets the message |
| Together.SwitchIsLed | keyboard.c:639-693 | what a terminal switch shows on every terminal is what that terminal's share of it, the view, the message or the clearing, leads to |
| Together.Run | keyboard.c:639-802 | over any run of system calls, exceptions, ticks, terminal keys, output and echo: programs and open files end where the specification says, kernel and display agree on the terminal in view, and every terminal shows what its own writings, clearings and messages alone make of its screen |
| Console.ReadStandardInput | keyboard.c:499-528 | a read of descriptor 0 by the running program delivers the first nbytes of what the strokes spell on the terminal and changes no descriptor |
| Misplaced.ForeignContextContinues | keyboard.c:656-687 | from the run of OpeningOutOfViewHappens on, opening the third terminal and two ticks make the second terminal continue on the kernel stack of the first, not where it was interrupted |
| CommandLine.ParseOfAssembled | syscall.c:552-595 | spaces, a word, spaces and arguments parse to exactly that word and these arguments |
| CommandLine.ParseReassembles | syscall.c:552-595 | every line is spaces, the parsed name, spaces and the parsed arguments; names hold no space and arguments do not start with one |
| CommandLine.LineIff | syscall.c:552-595 | the line in a buffer is everything in front of the first byte 0 or 10 |
| CommandLine.SkipIndent | syscall.c:565-571 | the check inside the first loop never rejects a command |
| CommandLine.ParseArgs | syscall.c:552-595 | always succeeds, and writes exactly name and arguments with their NULs into the two buffers |
| CStrings.Strlen | lib.c:416-421 | the length of the string at that place |
| CStrings.Strcpy | lib.c:610-618 | writes the string and its NUL and nothing else |
| CStrings.Strncmp | lib.c:589-603 | zero exactly when field and string agree up to a NUL or the bound; otherwise the signed difference at the first mismatch |
| FileSystem.ContentAt | filesystem.c:289-300 | dividing a position by the block size addresses exactly that byte of the concatenated blocks |
| FileSystem.FetchedIsContent | filesystem.c:268-306 | the bytes fetched one address at a time are a slice of the concatenated blocks cut at the length |
| FileSystem.SoundReadFails | filesystem.c:268-306 | on a sound file a read fails only when it starts beyond the end |
| FileSystem.AccessIs | filesystem.c:291-296 | a listed block number above the block count is rejected, one below it leads to exactly that byte of its block, and the block count itself leads out of the image |
| FileSystem.ReadableReading | filesystem.c:268-306 | on a file without the block count or a negative number in its list, reading stays in the image, fails exactly when the start is beyond the end, the file too large or a needed block missing, and otherwise delivers the bytes of the listed blocks |
| FileSystem.SoundReading | filesystem.c:268-306 | on an undamaged file the bytes read are content[offset..offset+r] with r the smaller of size and rest |
| FileSystem.LookupFindsNames | filesystem.c:200-227 | looking up any name of the directory finds an entry at or before its own, and its own if names are unique |
| FileSystem.LookupStaysInDirectory | filesystem.c:200-227 | a name resolves exactly when it has 1 to 32 bytes and is in the directory, never to an unused entry |
| FileSystem.Disk.FileInitMod | filesystem.c:22-28 | the two base addresses fit the image |
| Images.WordIff | filesystem.h:18-48 | a place of the image says n, negative numbers included, if and only if it holds the four base-256 digits of n modulo 2^32, lowest first |
| Images.DecodesIff | filesystem.h:18-48 | an image describes a volume if and only if it is boot block, inodes and data blocks of that volume written out from front to back, whatever is in the unused bytes of the boot block, and every name ends within its entry |
| Images.ImageDecodes | filesystem.h:18-48 | every volume that can be written out is read back from what is written |
| Images.DecodesOnce | filesystem.h:18-48 | no image describes two volumes |
| FileSystem.Disk.CompareName | filesystem.c:217-219 | zero exactly when entry and name agree, names of full length without NUL included |
| FileSystem.WantedOf | filesystem.c:270-283 | for a readable file the number of bytes a read asks the loop for is that of the rest of the file or the size, whichever is less, and none for a file longer than its block list |
| FileSystem.Disk.ReadData | filesystem.c:268-306 | on any image: writes exactly the bytes taken and nothing else, returns their number or -1, and says if it would leave the image; the words it goes by are those of Images.WordIff |
| FileSystem.Disk.Transfer | filesystem.c:288-306 | on any image: the loop stores exactly the bytes taken up to the first position that is rejected or outside |
| FileSystem.Disk.ReadDentryByName | filesystem.c:200-227 | the first entry with the name, or -1 if there is none or the name is empty or too long |
| FileSystem.Disk.ReadDentryByIndex | filesystem.c:240-254 | for every index below the inode count, also behind the directory: name, type and number in the 64 bytes there, also when a full-length name overruns the name field while it is copied, unless the copy runs out of the entry |
| Descriptors.LaunchedTable | syscall.c:192-206 | a launched program has exactly the two terminal descriptors |
| Descriptors.SetTable | syscall.c:341-375 | reusing an entry changes one handle, whatever the entry held before |
| Descriptors.FdTables.Launch | syscall.c:192-206 | the new program has the two terminal descriptors, and no other program's table changes |
| Descriptors.FdTables.Retire | syscall.c:41-48 | all files of the program are closed and no other program's table changes |
| Descriptors.FdTables.Open | syscall.c:327-384 | least free descriptor or unchanged tables, with the handle that the type of the entry asks for, and the inode the name resolves to despite stale fields, for undamaged and damaged files |
| Opening.OpenReturnsIs | syscall.c:327-384 | open gives the lowest free descriptor from 2 to 7, and -1 exactly without one or if the name has no entry of type 0, 1 or 2 |
| Opening.OpenedDirectoryLists | syscall.c:345-372 | over any run, the large reads of a descriptor opened on an entry of type 1 deliver every name from the first on in order, and then nothing |
| Opening.OpenedFileDelivers | syscall.c:345-372 | over any run, the bytes obtained from a descriptor opened on an undamaged file of type 2 are that file from its start |
| Opening.OpenedClockAnswers | syscall.c:345-372 | over any run, the reads of a descriptor opened on an entry of type 0 get what the clock driver answers |
| Opening.ReadIs | filesystem.c:70-87 | one read at a position of a file gets the bytes asked for, or the whole rest |
| Opening.CloseUndoesOpen | syscall.c:395-410 | closing the descriptor an open gave restores all descriptors |
| Descriptors.FdTables.Close | syscall.c:395-410 | exactly one handle goes, or nothing changes |
| Descriptors.FdTables.FileRead | filesystem.c:70-87 | an undamaged file delivers its next bytes and stands behind them, never past its length; a damaged one delivers what read_data does, and the position moves by the result, -1 included |
| Descriptors.DeliversAfterFailingIff | filesystem.c:70-87 | after a failing read a descriptor can still deliver something, with any number of bytes asked for, if and only if it did not stand at the start of a file of admissible length and the byte in front of it is one of an existing block |
| Descriptors.FdTables.DirectoryRead | filesystem.c:116-145 | delivers the name at the position, with a NUL if it fits, and stands at the next one |
| Descriptors.FdTables.CopyName | filesystem.c:130-140 | copies the name up to the limit, with its NUL when that fits, and nothing else |
| Descriptors.FdTables.Read | syscall.c:283-293 | dispatches on the handle: files and directories as their handles say, devices with the bytes of the driver and nothing behind them changed; other failing calls change nothing |
| Descriptors.FileReadIs | filesystem.c:80-83 | where a good handle stands, read_data cannot fail and delivers the next bytes of the file the name resolved to |
| Descriptors.HandleIsRead | filesystem.c:80-83 | at any file handle read_data stays in the image and does what the handle says: a damaged file fails exactly when a needed block is missing, or delivers the bytes of the listed blocks |
| Streams.ReadCallServes | syscall.c:283-293 | a read call is a request of the stream model |
| Streams.ReceivedIsContent | filesystem.c:70-87 | for any interleaving of reads of any processes and descriptors, also on the same file, the bytes a descriptor receives are its file from where it stood to where it stands |
| Streams.EmptyReadMeansWhole | filesystem.c:70-87 | a read of a positive size comes back empty exactly when the whole file has been received |
| Streams.ReadingEnds | filesystem.c:70-87 | whatever else is read in between, after as many effective reads as bytes were left the descriptor has received the whole rest of its file |
| Streams.ListingIsDirectory | filesystem.c:116-145 | reads of at least 32 bytes deliver every name once, in order, and then nothing forever |
| Numerals.ValueOfNumeral | lib.c:361-391 | reading a numeral back gives the number, its digits are below the radix, and it has no leading zero unless it is zero |
| Numerals.NumeralOfValue | lib.c:361-391 | a numeral is the only one of its number |
| Numerals.DigitIs | lib.c:362 | the digits are the characters 0 to 9 and A to Z in order |
| Numerals.SignIs | lib.c:262-275 | a leading minus sign and nothing else makes the value of a text negative |
| Numerals.ReversedTwice | lib.c:397-410 | reversing is an involution and keeps strings strings |
| Numerals.Strrev | lib.c:397-410 | the string is reversed in place and nothing else changes |
| Numerals.Itoa | lib.c:361-391 | leaves the numeral of the value and a NUL in the buffer, and nothing else changes |
| Numerals.FormatSigned | lib.c:262-275 | the text in the buffer denotes the value for every 32-bit integer, the least included, with a minus sign exactly for negative ones |
| Numerals.FormatHex8 | lib.c:230-248 | the printed text has exactly eight hexadecimal digits and denotes the value |
| Screen.StepIsWindow | keyboard.c:769-802 | every console operation keeps the screen the window of its transcript |
| Screen.ScreenIsWindowOfTranscript | lib.c:51-153 | after any run the screen is the last 25 rows of an unbounded transcript, the cursor in bounds and at its place; the window only moves down and rows above it never change again |
| Screen.PutIs | keyboard.c:769-802 | every byte but 10 and 13 takes the cell of the cursor, which goes to the next one in reading order; behind the last one, and for 10 and 13, as on an 80 by 25 screen that scrolls by a blank row |
| Screen.ClearedIs | keyboard.c:703-716 | a cleared screen is blank but for the seven characters of the prompt, with the cursor behind them |
| Screen.EchoPutAll | keyboard.c:769-802 | putting text, line breaks included, leaves in front of the cursor what follows the last line break of line and text, across wraps and scrolling |
| Screen.TailOfUnbroken | keyboard.c:422-443 | a line without line breaks is echoed as a whole |
| Screen.EraseUndoesPut | lib.c:51-81 | a backspace after a character restores cursor and transcript up to one blanked cell and a blank row at the end |
| VideoMemory.VideoMemory.constructor | keyboard.c:592-603 | the first terminal is mapped to the video page, every other one to a buffer page of its own, all present, writable and open to programs |
| VideoMemory.VideoMemory.SetCell | keyboard.c:785-787 | changes one cell of one terminal's page and no other terminal's page |
| VideoMemory.VideoMemory.MapTermToBuf | paging.c:125-129 | changes one entry, to the terminal's own buffer page, present, writable and open to programs |
| VideoMemory.VideoMemory.MapTermToVid | paging.c:140-144 | changes one entry, to the video page, present, writable and open to programs |
| VideoMemory.VideoMemory.SaveView | keyboard.c:658-662 | all terminals are mapped to their buffers and still have their pages |
| VideoMemory.VideoMemory.SwitchPages | keyboard.c:658-669 | every terminal keeps its page, the mapping stays injective with exactly the viewed terminal on the video page, which now shows the destination |
| VideoMemory.FramesApart | paging.c:125-144 | the buffer pages and the video page do not overlap |
| VideoMemory.ProgramsAvoidBuffersIff | paging.c:108-129 | the pages of programs and the buffer pages of terminals are apart if and only if at most six programs can run |
| TextScreen.TextScreen.ScrollScreen | lib.c:121-153 | the in-place row copy is a shift of the whole screen by one row, on this terminal's page only |
| TextScreen.TextScreen.LineFeed | lib.c:92-101 | the cursor goes to the next line, scrolling at the bottom |
| TextScreen.TextScreen.TermPutc | keyboard.c:769-802 | one character on the screen, with wrapping and scrolling, other terminals untouched |
| TextScreen.TextScreen.StepBack | lib.c:60-75 | one step back with a blanked cell, across row starts, if and only if the cursor is not at the origin; there the cell to blank lies outside the page and nothing is stored |
| TextScreen.TextScreen.TermClear | keyboard.c:703-716 | a blank screen with the prompt |
| Display.Display.Switch | keyboard.c:639-670 | a switch moves the view and changes no screen; asking for the terminal in view, or for one the process limit forbids, prints the message on the terminal that runs and changes nothing else |
| Display.Display.OnDisplay | keyboard.c:785-787 | from 0xB8000 on memory holds, cell by cell, character and colour of what the terminal in view shows |
| Display.MessageIs | keyboard.c:643-653 | the two messages of a refused switch, and which one when |
| Display.Display.Run | keyboard.c:639-802 | after any run of output, backspaces, clears and switches, refused ones included, every terminal shows what its own operations and messages alone would have made of it, and the video page what the viewed terminal shows |
| Display.Display.RunTranscripts | keyboard.c:639-802 | after any run every terminal shows the window of its own transcript, and the video page the window of the viewed one's |
| History.RingPush | keyboard.c:267-275 | a ring holding the last lines holds them after the next one too, the oldest replaced |
| History.MovedPointer | keyboard.c:739-757 | a step keeps the pointer on the line the counter names; forward from the most recent line it is the oldest |
| History.History.Push | keyboard.c:267-275 | the line is appended to the list the ring agrees with, stepping starts anew |
| History.History.Step | keyboard.c:728-742 | moves exactly when there is a line in that direction, and then stands on it |
| Terminal.EditKeepsEcho | keyboard.c:422-443 | keys, tabs and backspaces keep the cells before the cursor spelling what was typed since the last ENTER, unless a newline is taken back |
| Terminal.EditKeepsRoom | keyboard.c:422-443 | the cursor never gets closer to the top left corner than the line is long |
| Terminal.RetypeKeepsEcho | keyboard.c:743-756 | replacing the whole line by another one leaves that one echoed, from its last line break on |
| Terminal.TabIsThreeSpaces | keyboard.c:250-261 | a tab does what three space keys do, on buffer and screen, or nothing where they do not all fit |
| Terminal.BackUndoesKey | lib.c:51-81 | a backspace takes the last key back from the buffer and blanks its cell |
| Terminal.Terminal.constructor | keyboard.c:575-616 | an empty line, an empty history |
| Terminal.Terminal.Output | keyboard.c:540-554 | program output does not touch the line and keeps the cursor's room |
| Terminal.Terminal.Backspace | lib.c:51-81 | drops the last character of the buffer and, unless that is a newline, of the echo; nothing on an empty one; it stays inside the page exactly if the cursor has room for the step |
| Terminal.Terminal.KeyPress | keyboard.c:422-443 | appends to buffer and echo up to 127 characters, also behind an entered line; releases and dead keys do nothing |
| Terminal.Terminal.TabPress | keyboard.c:250-261 | appends three spaces or, without room, nothing |
| Terminal.Terminal.ClearScreen | keyboard.c:350-358 | the line survives a clear, and has room on the cleared screen exactly when it is no longer than the prompt |
| Terminal.Terminal.EnterPress | keyboard.c:263-276 | the buffer goes into the history and, with a newline, to a reader that has announced itself; without one it is dropped. The newline stays inside the buffer if and only if that is not full |
| Terminal.Terminal.Enter | lib.c:92-111 | next line on the screen; without a reader the buffer is emptied and the flag cleared |
| Terminal.Terminal.TerminalHistory | keyboard.c:728-758 | if there is a line in that direction it replaces the buffer and its echo, inside the page exactly if the cursor has room to erase the old one; otherwise nothing changes |
| Terminal.Terminal.FinishRead | keyboard.c:509-528 | delivers the first bytes of whatever the buffer holds, empties it and clears both flags |
| Sessions.UpRecalls | keyboard.c:728-758 | k presses of the up key spell the line k further back, for every k the ring reaches, and are all possible; from the start the k-th most recent one |
| Sessions.DownRecalls | keyboard.c:728-758 | k presses of the down key spell the line k further forward, and behind the most recent one the oldest of the ring |
| Sessions.KeysSpell | keyboard.c:422-443 | any text that fits the 127 characters can be typed and is appended and echoed |
| Sessions.EnteredComesBack | keyboard.c:263-276 | what is typed, entered and asked for with the up key is the same line again |
| Sessions.ShownIsEditing | keyboard.c:728-758 | every terminal holds a proper buffer, no further back in the history than the ring reaches |
| Sessions.EnterCompletes | keyboard.c:263-276 | the ENTER a reader waits for fits if and only if the buffer is not full, which one line never makes it; then the buffer is what was spelled, earlier text included, and a newline, and the same line is the newest of the history |
| Sessions.SecondEnterOverruns | keyboard.c:265-266 | with a reader announced, 127 characters and two ENTERs write behind the buffer |
| Sessions.NoReaderNoOverrun | lib.c:104-110 | while no reader has announced itself and the screen is not cleared, every sequence of strokes is possible, and none overruns the buffer |
| Sessions.PossibleIff | keyboard.c:265-266 | where the cursor has room, every stroke is possible but an ENTER behind a full buffer |
| Sessions.RoomKeptIff | keyboard.c:350-358 | a stroke takes the room to erase the buffer away if and only if it clears the screen with more in the buffer than the prompt is long |
| Sessions.BacksFitIff | lib.c:60-75 | n characters of the buffer can be taken back without leaving the page if and only if the cursor is at least n cells behind the origin |
| Sessions.CornerIsReached | keyboard.c:350-358 | eight keys, Ctrl-L and seven backspaces are possible, an eighth backspace leads out of the page |
| Sessions.Type | keyboard.c:235-443 | from any state, any possible sequence of keys, tabs, backspaces, arrow keys, ENTERs, clears and program output leaves buffer, history, flags and screen as spelled on lists; keys alone keep the echo. Ctrl-L is always possible |
| Sessions.ReadLine | keyboard.c:499-528 | from any state and with any strokes and output until the reader goes on, it gets the first nbytes of what they spell in the buffer; afterwards the buffer is empty, both flags are clear and the history is as spelled |

## Left out

- Instruction-level interleaving: a system call and an interrupt are one atomic step each. The system call gate is a trap gate (IDT.c:90-96), so a tick or a terminal key can come between `pid_available` and `cli()` in `execute` (syscall.c:103-161), with a pid marked that is on no chain, and after the limit check of `terminal_switch`; such interleavings are not modelled.
- The wait of `terminal_read`: a guard on its flag; what is typed and printed until the reader goes on is a parameter.
- Behaviour that C leaves open: where the code would write behind the key buffer, blank a cell outside the page or read outside the image, the model stops and says so.
- Kernel.Kernel.Run: opening a terminal when pids have leaked and none is left is not among its traps, because afterwards the processor is on a terminal without a program; `Kernel.Kernel.StrandOnTerminal` says what happens. That a trap after a load that runs over is the page fault is not enforced.
- Kernel.Kernel.Execute: commands are shorter than COM_BUF_SIZE, 128 bytes; a longer one overruns the buffers that `parse_args` fills.
- Shells that do not fit their page: `Loader.ShellRuns`, part of the validity of the kernel's state, requires an executable shell of at most 0x3B8000 bytes.
- Together.Run: programs longer than 0x3B8000 bytes, which are loaded over the screens, are not launched in its runs, and what `printf` writes when a call fails is an input of the run.
- NULL pointers: other than the missing command of `execute`, the checks for them are not modelled.
- Error messages: what `printf` writes to the running terminal when `execute` fails or a fault is reported is not part of the process model; the messages of a refused terminal switch are.
- Program memory: programs do not change the page they are loaded into; the part of a file that a load stores behind that page, and the page after a load that failed, are not kept; the entry point and the `iret` into the program are not modelled.
- Kernel.Kernel.Execute: the 40 bytes of its header buffer are left as the read leaves them, without saying what they are.
- Descriptors.FdTables.Read: what the clock and terminal drivers return and store is a parameter; reading a line is modelled in Sessions and joined to a read of descriptor 0 in Console.
- FileSystem.ReadableReading: block lists with a negative number, or with the block count itself, are outside its claim, as is a length between 1023 and 1024 blocks; `FileSystem.Disk.ReadData` covers them address by address.
- Terminal.Terminal.KeyPress: the scancode tables are not modelled; a key is any byte.
- Kernel.Kernel.GetArgs: the argument buffer of a PCB is modelled by the text it holds, and the caller's buffer has room for one byte more than it says.
- Destination number NUM_TERM: the bounds check of `terminal_switch` admits it, the keys never produce it, and the model requires a terminal that exists.
- Screen size and block size: fixed numbers, as in the code.
- Shift, control, caps and number lock flags, the hardware cursor, interrupt controller, timer and clock programming, segment and task-state descriptors, TLB flushes and boot code: hardware plumbing.
- `vidmap`, `write` dispatch, `file_write`, `set_handler`, `sigreturn`, `%u`, `%c` and `%s`: would only add easy members.
- User pointers: not validated by the code except in `vidmap`; not modelled.
