/**
  The system calls and interrupts that start, stop and switch programs, and the file calls of the
  running program.
 */
module Kernel {
  import opened Common
  import opened CStrings
  import opened CommandLine
  import opened FileSystem
  import opened Descriptors
  import opened Loader
  import opened Layout
  import opened Machine
  import opened Runs
  import opened Calls
  import opened ProcessTables
  import opened Processes
  import opened Programs
  import opened UserMemory

  class Kernel {
    const procs: Processes
    const fds: FdTables
    const mem: UserMemory
    const disk: Disk

    /** The parts of the kernel that no system call changes. */
    ghost predicate Installed() {
      disk.Valid() && Sound(disk.vol) && ShellRuns(disk.vol) && fds.disk == disk
    }

    /** Exactly the running programs have descriptors, and images in their pages. */
    ghost predicate Valid()
      reads procs, procs.pcbInUse, procs.totalProgs, procs.heads, procs.pcbs, fds, fds.tables, mem, mem.pages
    {
      FilesValid() && ImagesFit()
    }

    /** All but the pages: what the file calls need. */
    ghost predicate FilesValid()
      reads procs, procs.pcbInUse, procs.totalProgs, procs.heads, procs.pcbs, fds, fds.tables
    {
      Installed() && procs.Valid() && FilesFit()
    }

    ghost predicate Attached()
      reads procs, fds, fds.tables, mem, mem.pages
    {
      FilesFit() && ImagesFit()
    }

    ghost predicate FilesFit()
      reads procs, fds, fds.tables
    {
      fds.Valid() && fds.handles.Keys == Used(procs.m.stacks)
    }

    ghost predicate ImagesFit()
      reads procs, mem, mem.pages
    {
      mem.Valid() && mem.images.Keys == Used(procs.m.stacks)
    }

    /** The running programs and their open files. */
    ghost function Now(): State
      reads procs, fds
    {
      State(procs.m, fds.handles)
    }

    lemma ValidIsProper()
      requires FilesValid() && WellFormed(procs.m)
      ensures Proper(disk.vol, Now())
    {
    }

    constructor (disk: Disk, pcbs: array<Pcb>, tables: array<seq<FileDes>>, pages: array<seq<byte>>)
      requires disk.Valid() && Sound(disk.vol) && ShellRuns(disk.vol)
      requires pcbs.Length == MAX_NUM_PROC && tables.Length == MAX_NUM_PROC
      requires forall pid :: 0 <= pid < MAX_NUM_PROC ==> |tables[pid]| == MAX_FILE
      requires pages.Length == MAX_NUM_PROC && forall pid :: 0 <= pid < MAX_NUM_PROC ==> |pages[pid]| == FOURMB
      ensures Valid() && this.disk == disk
      ensures Fresh() && procs.m.suspended == map[]
    {
      this.disk := disk;
      procs := new Processes(pcbs);
      fds := new FdTables(disk, tables);
      mem := new UserMemory(pages);
      new;
      NoneUsed(procs.m.stacks);
    }

    // ---------- execute ----------

    /** The execute system call; `at` is where it will return, `header` the stack space the file header
        is read into, x how it ends if it gets a pid.  A program that is entered is in its page, and a call
        refused before anything was loaded leaves all pages alone. */
    method Execute(command: array<byte>, at: Ctx, header: array<byte>, ghost line: seq<byte>, ghost x: Execution)
      returns (o: Outcome)
      requires Valid() && IsLine(command[..], line) && |line| < COM_BUF_SIZE
      requires header.Length == HEADER_SIZE && header != command
      requires x == ExecutionOf(disk.vol, line, header[..])
      modifies procs, procs.pcbInUse, procs.totalProgs, procs.heads, procs.pcbs, fds, fds.tables, mem, mem.pages, header
      ensures Valid() && (procs.m, o) == ExecuteStep(old(procs.m), at, Args(line), x)
      ensures o.Entered? ==> fds.handles == old(fds.handles)[o.pid := LAUNCHED]
      ensures o.Entered? ==> mem.images == old(mem.images)[o.pid := ImageOf(disk.vol, line)]
      ensures !o.Entered? ==> fds.handles == old(fds.handles)
      ensures !o.Entered? ==> mem.images == old(mem.images)
      ensures procs.Safe() <==> old(procs.Safe())
      ensures o.Entered? ==> mem.pages[..] == PagesAfter(old(mem.pages[..]), o.pid, ImageOf(disk.vol, line))
      ensures x.NotFound? || Full(old(procs.m)) ==> mem.pages[..] == old(mem.pages[..])
    {
      var pid := procs.PidAvailable();
      assert unchanged(fds, fds.tables, mem, mem.pages);
      if pid == -1 {
        o := Refused;
      } else {
        o := ExecuteAs(pid, old(procs.Snapshot()), command, at, header, line, x);
      }
    }

    /** execute with the pid it takes; k is what the tables were before. */
    method ExecuteAs(pid: nat, ghost k: Tables, command: array<byte>, at: Ctx, header: array<byte>,
                     ghost line: seq<byte>, ghost x: Execution)
      returns (o: Outcome)
      requires Installed() && Attached() && IsLine(command[..], line) && |line| < COM_BUF_SIZE
      requires procs.Reserved(pid) && k == procs.Without(pid)
      requires header.Length == HEADER_SIZE && header != command
      requires x == ExecutionOf(disk.vol, line, header[..])
      modifies procs, procs.pcbInUse, procs.totalProgs, procs.heads, procs.pcbs, fds, fds.tables, mem, mem.pages, header
      ensures procs.Valid() && Attached() && (procs.m, o) == ExecuteStep(old(procs.m), at, Args(line), x)
      ensures o.Entered? ==> fds.handles == old(fds.handles)[o.pid := LAUNCHED]
      ensures o.Entered? ==> mem.images == old(mem.images)[o.pid := ImageOf(disk.vol, line)]
      ensures !o.Entered? ==> fds.handles == old(fds.handles) && mem.images == old(mem.images)
      ensures procs.Safe() <==> ContextSafe(k, old(procs.m))
      ensures o.Entered? ==> mem.pages[..] == PagesAfter(old(mem.pages[..]), o.pid, ImageOf(disk.vol, line))
      ensures x.NotFound? ==> mem.pages[..] == old(mem.pages[..])
    {
      var inode, args := FindOrRelease(pid, k, command, header, line, x);
      assert unchanged(fds, fds.tables, mem, mem.pages);
      if inode == -1 {
        o := Refused;
      } else {
        o := LoadAndStart(pid, k, inode, at, args);
      }
    }

    /** The search for the program; without one the pid is given back. */
    method FindOrRelease(pid: nat, ghost k: Tables, command: array<byte>, header: array<byte>,
                         ghost line: seq<byte>, ghost x: Execution)
      returns (inode: int, args: seq<byte>)
      requires Installed() && Attached() && IsLine(command[..], line) && |line| < COM_BUF_SIZE
      requires procs.Reserved(pid) && k == procs.Without(pid)
      requires header.Length == HEADER_SIZE && header != command
      requires x == ExecutionOf(disk.vol, line, header[..])
      modifies procs.pcbInUse, header
      ensures Attached() && args == Args(line)
      ensures if inode == -1 then x == NotFound && procs.Valid() && procs.Snapshot() == k
              else 0 <= inode < |disk.vol.inodes| && Readable(disk.vol, inode)
                   && x == EndOf(LoadingOf(disk.vol, inode)) != NotFound
                   && ImageIn(disk.vol, inode) == ImageOf(disk.vol, line)
                   && procs.Reserved(pid) && k == procs.Without(pid)
    {
      inode, args := Locate(disk, command, header, line, x);
      assert unchanged(procs, procs.pcbInUse, procs.totalProgs, procs.heads, procs.pcbs);
      assert unchanged(fds, fds.tables, mem, mem.pages);
      if inode == -1 {
        procs.ReleasePid(pid);
      }
    }

    /** execute with the program it found. */
    method LoadAndStart(pid: nat, ghost k: Tables, inode: nat, at: Ctx, args: seq<byte>)
      returns (o: Outcome)
      requires Installed() && Attached() && procs.Reserved(pid) && k == procs.Without(pid)
      requires inode < |disk.vol.inodes| && Readable(disk.vol, inode)
      modifies procs, procs.pcbInUse, procs.totalProgs, procs.heads, procs.pcbs, fds, fds.tables, mem, mem.pages
      ensures procs.Valid() && Attached()
      ensures (procs.m, o) == ExecuteStep(old(procs.m), at, args, EndOf(LoadingOf(disk.vol, inode)))
      ensures o.Entered? ==> fds.handles == old(fds.handles)[o.pid := LAUNCHED]
      ensures o.Entered? ==> mem.images == old(mem.images)[o.pid := ImageIn(disk.vol, inode)]
      ensures !o.Entered? ==> fds.handles == old(fds.handles)
      ensures !o.Entered? ==> mem.images == old(mem.images)
      ensures procs.Safe() <==> ContextSafe(k, old(procs.m))
      ensures o.Entered? ==> mem.pages[..] == PagesAfter(old(mem.pages[..]), o.pid, ImageIn(disk.vol, inode))
    {
      var l := LoadNext(pid, k, inode);
      assert unchanged(fds, fds.tables, mem);
      o := FinishExecute(pid, k, l, at, args, ImageIn(disk.vol, inode));
    }

    /** From here on the user window shows the new page. */
    method LoadNext(pid: nat, ghost k: Tables, inode: nat) returns (l: Loading)
      requires Installed() && Attached() && procs.Reserved(pid) && k == procs.Without(pid)
      requires inode < |disk.vol.inodes| && Readable(disk.vol, inode)
      modifies procs`userEntry, mem.pages
      ensures procs.Prepared(pid, k) && Attached()
      ensures l == LoadingOf(disk.vol, inode)
      ensures mem.pages[..] == old(mem.pages[..])[pid := mem.pages[pid]]
      ensures l.Done? ==> mem.pages[..] == PagesAfter(old(mem.pages[..]), pid, ImageIn(disk.vol, inode))
      ensures l.Done? ==> Holds(mem.pages[pid], ImageIn(disk.vol, inode))
    {
      procs.Prepare(pid);
      assert unchanged(fds, fds.tables, mem, mem.pages);
      l := mem.LoadInto(pid, disk, inode);
      if l.Done? {
        LoadedHolds(old(mem.pages[pid]), ImageIn(disk.vol, inode));
      }
    }

    method FinishExecute(pid: nat, ghost k: Tables, l: Loading, at: Ctx, args: seq<byte>, ghost image: seq<byte>)
      returns (o: Outcome)
      requires procs.Prepared(pid, k) && Attached() && (l.Done? ==> Holds(mem.pages[pid], image))
      modifies procs, procs.pcbInUse, procs.totalProgs, procs.heads, procs.pcbs, fds, fds.tables, mem
      ensures procs.Valid() && Attached() && (procs.m, o) == ExecuteStep(old(procs.m), at, args, EndOf(l))
      ensures o.Entered? ==> l.Done? && o.pid == pid
      ensures o.Entered? ==> fds.handles == old(fds.handles)[o.pid := LAUNCHED]
      ensures o.Entered? ==> mem.images == old(mem.images)[o.pid := image]
      ensures !o.Entered? ==> fds.handles == old(fds.handles)
      ensures !o.Entered? ==> mem.images == old(mem.images)
      ensures procs.Safe() <==> ContextSafe(k, old(procs.m))
    {
      ExecuteEnds(procs.m, at, args, l);
      match l
      case Done =>
        o := StartProgram(pid, k, at, args, image);
      case Broken =>
        o := GiveUp(pid, k);
      case Faulted =>
        o := RunOver(pid, k);
    }

    method GiveUp(pid: nat, ghost k: Tables) returns (o: Outcome)
      requires procs.Prepared(pid, k) && Attached()
      modifies procs, procs.pcbInUse
      ensures procs.Valid() && Attached() && procs.m == old(procs.m).(page := pid) && o == Refused
      ensures fds.handles == old(fds.handles) && mem.images == old(mem.images)
      ensures procs.Safe() <==> ContextSafe(k, old(procs.m))
    {
      procs.Abandon(pid, k);
      assert unchanged(fds, fds.tables, mem, mem.pages);
      o := Refused;
    }

    method RunOver(pid: nat, ghost k: Tables) returns (o: Outcome)
      requires procs.Prepared(pid, k) && Attached()
      modifies procs
      ensures procs.Valid() && Attached() && procs.m == Leaking(old(procs.m)).(page := pid) && o == Faults
      ensures fds.handles == old(fds.handles) && mem.images == old(mem.images)
      ensures procs.Safe() <==> ContextSafe(k, old(procs.m))
    {
      procs.LeaveMarked(pid, k);
      assert unchanged(fds, fds.tables, mem, mem.pages);
      o := Faults;
    }

    method StartProgram(pid: nat, ghost k: Tables, at: Ctx, args: seq<byte>, ghost image: seq<byte>)
      returns (o: Outcome)
      requires procs.Prepared(pid, k) && Attached() && Holds(mem.pages[pid], image)
      modifies procs, procs.totalProgs, procs.heads, procs.pcbs, fds, fds.tables, mem
      ensures procs.Valid() && Attached() && o == Entered(pid)
      ensures procs.m == Launch(old(procs.m), old(procs.m).current, at, args)
      ensures fds.handles == old(fds.handles)[pid := LAUNCHED]
      ensures mem.images == old(mem.images)[pid := image]
      ensures procs.Safe() <==> ContextSafe(k, old(procs.m))
    {
      Attach(pid, image);
      label Attached:
      procs.Start(pid, k, at, args);
      assert unchanged@Attached(fds, fds.tables, mem, mem.pages);
      o := Entered(pid);
    }

    /** The descriptors and the image of a program that is started. */
    method Attach(pid: nat, ghost image: seq<byte>)
      requires fds.Valid() && mem.Valid() && pid < MAX_NUM_PROC && Holds(mem.pages[pid], image)
      modifies fds, fds.tables, mem
      ensures fds.Valid() && fds.handles == old(fds.handles)[pid := LAUNCHED]
      ensures mem.Valid() && mem.images == old(mem.images)[pid := image]
      ensures fds.handles.Keys == old(fds.handles.Keys) + {pid} && mem.images.Keys == old(mem.images.Keys) + {pid}
    {
      fds.Launch(pid);
      mem.Enter(pid, image);
    }

    /** execute without a command. */
    method ExecuteNothing(at: Ctx) returns (o: Outcome)
      requires Valid()
      modifies procs, procs.pcbInUse
      ensures Valid() && (procs.m, o) == ExecuteStep(old(procs.m), at, [], NoCommand)
      ensures fds.handles == old(fds.handles) && mem.images == old(mem.images) && (procs.Safe() <==> old(procs.Safe()))
    {
      var _ := procs.ExecuteNull();
      assert unchanged(fds, fds.tables, mem, mem.pages);
      o := Refused;
    }

    /** execute of "shell". */
    method ExecuteShell(at: Ctx) returns (o: Outcome)
      requires Valid()
      modifies procs, procs.pcbInUse, procs.totalProgs, procs.heads, procs.pcbs, fds, fds.tables, mem, mem.pages
      ensures Valid() && (procs.m, o) == ExecuteStep(old(procs.m), at, [], Launches)
      ensures o.Entered? ==> fds.handles == old(fds.handles)[o.pid := LAUNCHED]
      ensures o.Entered? ==> mem.images == old(mem.images)[o.pid := ImageOf(disk.vol, SHELL)]
      ensures !o.Entered? ==> fds.handles == old(fds.handles)
      ensures !o.Entered? ==> mem.images == old(mem.images)
      ensures procs.Safe() <==> old(procs.Safe())
    {
      var command, header := ShellCommand();
      assert unchanged(procs, procs.pcbInUse, procs.totalProgs, procs.heads, procs.pcbs);
      assert unchanged(fds, fds.tables, mem, mem.pages);
      ShellLaunches(disk.vol, header[..]);
      o := Execute(command, at, header, SHELL, Launches);
    }

    /** Without a free pid there is no shell. */
    method RefuseShell(at: Ctx) returns (o: Outcome)
      requires Valid() && Full(procs.m)
      modifies procs, procs.pcbInUse, procs.totalProgs, procs.heads, procs.pcbs, fds, fds.tables, mem, mem.pages
      ensures Valid() && o == Refused && procs.m == old(procs.m)
    {
      o := ExecuteShell(at);
    }

    /** Only a lack of pids could stop a shell. */
    method LaunchShell(at: Ctx) returns (o: Outcome)
      requires Valid() && !Full(procs.m)
      modifies procs, procs.pcbInUse, procs.totalProgs, procs.heads, procs.pcbs, fds, fds.tables, mem, mem.pages
      ensures Valid() && o == Entered(NextPid(old(procs.m)))
      ensures procs.m == Launch(old(procs.m), old(procs.m).current, at, [])
      ensures fds.handles == old(fds.handles)[o.pid := LAUNCHED]
      ensures mem.images == old(mem.images)[o.pid := ImageOf(disk.vol, SHELL)]
      ensures procs.Safe() <==> old(procs.Safe())
    {
      o := ExecuteShell(at);
    }

    /** Nothing has been started yet. */
    ghost predicate Fresh()
      reads procs
    {
      Total(procs.m.stacks) == 0 && procs.m.leaked == {} && procs.m.current == 0 && procs.m.viewing == 0
    }

    /** kernel.c starts a shell on the first terminal. */
    method Boot(at: Ctx)
      requires Valid() && Fresh()
      modifies procs, procs.pcbInUse, procs.totalProgs, procs.heads, procs.pcbs, fds, fds.tables, mem, mem.pages
      ensures Shaped(old(procs.m)) && !Full(old(procs.m)) && procs.m == Launch(old(procs.m), 0, at, [])
      ensures fds.handles == map[0 := LAUNCHED]
      ensures mem.images == map[0 := ImageOf(disk.vol, SHELL)]
      ensures Valid() && WellFormed(procs.m) && procs.Safe()
    {
      NothingRuns(procs.m);
      BootedIsWellFormed(procs.m, at);
      var o := LaunchShell(at);
    }

    // ---------- halt ----------

    /** The halt system call; `relaunch` is where the `execute` of a replacing shell would return. */
    method Halt(status: byte, relaunch: Ctx) returns (o: Outcome)
      requires Valid() && WellFormed(procs.m)
      modifies procs, procs.pcbInUse, procs.totalProgs, procs.heads, procs.pcbs, fds, fds.tables, mem, mem.pages
      ensures Valid() && (procs.m, o) == Step(old(procs.m), Event.Halt(status, false, relaunch))
      ensures o.Entered? ==> fds.handles == (old(fds.handles) - {Running(old(procs.m)).pid})[o.pid := LAUNCHED]
      ensures o.Entered? ==>
                mem.images == (old(mem.images) - {Running(old(procs.m)).pid})[o.pid := ImageOf(disk.vol, SHELL)]
      ensures !o.Entered? ==> fds.handles == old(fds.handles) - {Running(old(procs.m)).pid}
      ensures !o.Entered? ==> mem.images == old(mem.images) - {Running(old(procs.m)).pid}
      ensures procs.Safe() <==> old(procs.Safe())
    {
      CloseFiles();
      o := Continue(status, relaunch);
    }

    /** The end of halt: a shell takes the place of a terminal's last program, another one returns. */
    method Continue(status: byte, relaunch: Ctx) returns (o: Outcome)
      requires Installed() && procs.Valid() && WellFormed(procs.m) && Detached()
      modifies procs, procs.pcbInUse, procs.totalProgs, procs.heads, procs.pcbs, fds, fds.tables, mem, mem.pages
      ensures Valid() && (procs.m, o) == Step(old(procs.m), Event.Halt(status, false, relaunch))
      ensures o.Entered? ==> fds.handles == old(fds.handles)[o.pid := LAUNCHED]
      ensures o.Entered? ==> mem.images == old(mem.images)[o.pid := ImageOf(disk.vol, SHELL)]
      ensures !o.Entered? ==> fds.handles == old(fds.handles) && mem.images == old(mem.images)
      ensures procs.Safe() <==> old(procs.Safe())
    {
      var last := RunsAlone();
      if last {
        o := Replace(status, relaunch);
      } else {
        o := Resume(status, relaunch);
      }
    }

    /** The loop of halt that closes the files of the running program; its page is nobody's from here on. */
    method CloseFiles()
      requires Valid() && WellFormed(procs.m)
      modifies fds, fds.tables, mem
      ensures Detached() && fds.handles == old(fds.handles) - {Running(procs.m).pid}
      ensures mem.images == old(mem.images) - {Running(procs.m).pid}
    {
      var pid := RunningPid();
      Detach(pid);
    }

    method Detach(pid: nat)
      requires Attached() && pid == Running(procs.m).pid && pid in fds.handles
      modifies fds, fds.tables, mem
      ensures Detached() && fds.handles == old(fds.handles) - {pid} && mem.images == old(mem.images) - {pid}
    {
      fds.Retire(pid);
      mem.Leave(pid);
    }

    /** The running program is the only one of its terminal. */
    method RunsAlone() returns (alone: bool)
      requires procs.Valid() && WellFormed(procs.m)
      ensures alone <==> |procs.m.stacks[procs.m.current]| == 1
    {
      procs.HeadIsSound();
      alone := procs.totalProgs[procs.currentTerm] == 1;
    }

    /** All programs but the running one have descriptors. */
    ghost predicate Detached()
      reads procs, fds, fds.tables, mem, mem.pages
    {
      && fds.Valid() && mem.Valid()
      && fds.handles.Keys == mem.images.Keys == Used(procs.m.stacks) - {Running(procs.m).pid}
    }

    /** halt of a program with a parent. */
    method Resume(status: byte, ghost relaunch: Ctx) returns (o: Outcome)
      requires Installed() && procs.Valid() && WellFormed(procs.m) && |procs.m.stacks[procs.m.current]| > 1
      requires Detached()
      modifies procs, procs.pcbInUse, procs.totalProgs, procs.heads, procs.pcbs
      ensures Valid() && (procs.m, o) == Step(old(procs.m), Event.Halt(status, false, relaunch)) && !o.Entered?
      ensures fds.handles == old(fds.handles) && mem.images == old(mem.images)
      ensures procs.Safe() <==> old(procs.Safe())
    {
      PopUsed(procs.m);
      NestedHaltIs(procs.m, Event.Halt(status, false, relaunch));
      var to, value := procs.ResumeParent(status);
      assert unchanged(fds, fds.tables, mem, mem.pages);
      o := Returned(to, value);
    }

    /** halt of a terminal's last program: a new shell takes its place. */
    method Replace(ghost status: byte, relaunch: Ctx) returns (o: Outcome)
      requires Installed() && procs.Valid() && WellFormed(procs.m) && |procs.m.stacks[procs.m.current]| == 1
      requires Detached()
      modifies procs, procs.pcbInUse, procs.totalProgs, procs.heads, procs.pcbs, fds, fds.tables, mem, mem.pages
      ensures Valid() && (procs.m, o) == Step(old(procs.m), Event.Halt(status, false, relaunch)) && o.Entered?
      ensures fds.handles == old(fds.handles)[o.pid := LAUNCHED]
      ensures mem.images == old(mem.images)[o.pid := ImageOf(disk.vol, SHELL)]
      ensures procs.Safe() <==> old(procs.Safe())
    {
      LastHaltIs(procs.m, status, relaunch);
      EmptiedHasRoom(procs.m, false);
      procs.FreeRoot();
      assert unchanged(fds, fds.tables, mem, mem.pages);
      o := LaunchShell(relaunch);
    }

    /** An exception in a program halts it. */
    method SquashException(relaunch: Ctx) returns (o: Outcome)
      requires Valid() && WellFormed(procs.m)
      modifies procs, procs.pcbInUse, procs.totalProgs, procs.heads, procs.pcbs, fds, fds.tables, mem, mem.pages
      ensures Valid() && (procs.m, o) == Step(old(procs.m), Event.Halt(0, true, relaunch))
      ensures o.Entered? ==> fds.handles == (old(fds.handles) - {Running(old(procs.m)).pid})[o.pid := LAUNCHED]
      ensures o.Entered? ==>
                mem.images == (old(mem.images) - {Running(old(procs.m)).pid})[o.pid := ImageOf(disk.vol, SHELL)]
      ensures !o.Entered? ==> fds.handles == old(fds.handles) - {Running(old(procs.m)).pid}
      ensures !o.Entered? ==> mem.images == old(mem.images) - {Running(old(procs.m)).pid}
      ensures old(procs.Safe()) ==> procs.Safe()
    {
      FaultedHalt(procs.m, 0, relaunch);
      MarkFault();
      o := Halt(0, relaunch);
    }

    method MarkFault()
      requires Valid() && WellFormed(procs.m)
      modifies procs, procs.pcbs
      ensures Valid() && WellFormed(procs.m) && procs.m == ProcessTables.Faulted(old(procs.m))
      ensures Running(procs.m).pid == Running(old(procs.m)).pid
      ensures old(procs.Safe()) ==> procs.Safe()
    {
      FaultedUsed(procs.m);
      procs.RaiseHaltStat();
      assert unchanged(fds, fds.tables, mem, mem.pages);
    }

    // ---------- terminals and timer ----------

    /** Alt and a function key: the process part of terminal_switch. */
    method TerminalSwitch(dest: nat, at: Ctx, launch: Ctx) returns (o: Outcome)
      requires Valid() && WellFormed(procs.m) && Possible(procs.m, SwitchTo(dest, at, launch))
      modifies procs, procs.pcbInUse, procs.totalProgs, procs.heads, procs.pcbs, fds, fds.tables, mem, mem.pages
      ensures Valid() && (procs.m, o) == Step(old(procs.m), SwitchTo(dest, at, launch))
      ensures o.Entered? ==> fds.handles == old(fds.handles)[o.pid := LAUNCHED]
      ensures o.Entered? ==> mem.images == old(mem.images)[o.pid := ImageOf(disk.vol, SHELL)]
      ensures !o.Entered? ==> fds.handles == old(fds.handles)
      ensures !o.Entered? ==> mem.images == old(mem.images)
      ensures old(procs.Safe()) ==>
                (procs.Safe() <==> OpensInView(old(procs.m), SwitchTo(dest, at, launch)))
    {
      var allowed, empty := MaySwitch(dest);
      SwitchIs(procs.m, dest, at, launch);
      if allowed {
        o := ShowTerminal(procs.viewingTerm, dest, empty, at, launch);
      } else {
        o := Unchanged;
      }
    }

    /** terminal_switch past its two tests. */
    method ShowTerminal(cur: nat, dest: nat, empty: bool, at: Ctx, launch: Ctx) returns (o: Outcome)
      requires Valid() && WellFormed(procs.m) && Possible(procs.m, SwitchTo(dest, at, launch))
      requires dest != cur == procs.m.viewing && (empty <==> !Live(procs.m, dest)) && (empty ==> !Full(procs.m))
      modifies procs, procs.pcbInUse, procs.totalProgs, procs.heads, procs.pcbs, fds, fds.tables, mem, mem.pages
      ensures Valid() && (procs.m, o) == Step(old(procs.m), SwitchTo(dest, at, launch))
      ensures o.Entered? ==> fds.handles == old(fds.handles)[o.pid := LAUNCHED]
      ensures o.Entered? ==> mem.images == old(mem.images)[o.pid := ImageOf(disk.vol, SHELL)]
      ensures !o.Entered? ==> fds.handles == old(fds.handles)
      ensures !o.Entered? ==> mem.images == old(mem.images)
      ensures old(procs.Safe()) ==>
                (procs.Safe() <==> OpensInView(old(procs.m), SwitchTo(dest, at, launch)))
    {
      if empty {
        o := OpenTerminal(cur, dest, at, launch);
      } else {
        procs.SetView(dest);
        assert unchanged(fds, fds.tables, mem, mem.pages);
        o := Unchanged;
      }
    }

    /** The two tests of terminal_switch. */
    method MaySwitch(dest: nat) returns (allowed: bool, empty: bool)
      requires procs.Valid() && dest < NUM_TERM
      ensures empty <==> !Live(procs.m, dest)
      ensures allowed <==> dest != procs.m.viewing && (Live(procs.m, dest) || Total(procs.m.stacks) < MAX_NUM_PROC)
    {
      assert HeadIs(procs.Snapshot(), procs.m, dest);
      FullIffCount(procs.m);
      empty := procs.totalProgs[dest] == 0;
      if dest > NUM_TERM || dest == procs.viewingTerm {
        return false, empty;
      }
      allowed := !(empty && procs.processCnt + 1 > MAX_NUM_PROC);
    }

    /** terminal_switch to a terminal without programs. */
    method OpenTerminal(cur: nat, dest: nat, at: Ctx, launch: Ctx) returns (o: Outcome)
      requires Valid() && WellFormed(procs.m) && dest < NUM_TERM && !Live(procs.m, dest) && !Full(procs.m)
      requires cur == procs.m.viewing && OnStack(at, Top(procs.m, procs.m.current).pid)
      modifies procs, procs.pcbInUse, procs.totalProgs, procs.heads, procs.pcbs, fds, fds.tables, mem, mem.pages
      ensures Valid() && o == Entered(NextPid(old(procs.m)))
      ensures fds.handles == old(fds.handles)[o.pid := LAUNCHED]
      ensures mem.images == old(mem.images)[o.pid := ImageOf(disk.vol, SHELL)]
      ensures Shaped(Suspend(old(procs.m), dest, at)) && !Full(Suspend(old(procs.m), dest, at))
      ensures procs.m == Launch(Suspend(old(procs.m), dest, at).(viewing := dest), dest, launch, [])
      ensures old(procs.Safe()) ==> (procs.Safe() <==> cur == old(procs.m.current))
    {
      LeaveTerminal(cur, dest, at);
      o := LaunchShell(launch);
    }

    /** terminal_switch to a terminal without programs when pids have leaked and none is left: its limit
        check does not notice, the shell is refused, and the processor is left on a terminal that runs
        nothing. */
    method StrandOnTerminal(dest: nat, at: Ctx, launch: Ctx) returns (allowed: bool, o: Outcome)
      requires Valid() && WellFormed(procs.m) && dest < NUM_TERM && !Live(procs.m, dest) && Short(procs.m)
      requires OnStack(at, Top(procs.m, procs.m.current).pid)
      modifies procs, procs.pcbInUse, procs.totalProgs, procs.heads, procs.pcbs, fds, fds.tables, mem, mem.pages
      ensures Valid() && allowed && o == Refused
      ensures procs.m == Suspend(old(procs.m), dest, at).(viewing := dest) && !Live(procs.m, procs.m.current)
    {
      var empty;
      allowed, empty := MaySwitch(dest);
      StrandedIs(procs.m, dest, at);
      LeaveTerminal(procs.viewingTerm, dest, at);
      assert unchanged(fds, fds.tables, mem, mem.pages);
      o := RefuseShell(launch);
    }

    /** The interrupted program is suspended, and the terminal without programs is the current one. */
    method LeaveTerminal(cur: nat, dest: nat, at: Ctx)
      requires Valid() && WellFormed(procs.m) && dest < NUM_TERM && !Live(procs.m, dest)
      requires cur == procs.m.viewing && OnStack(at, Top(procs.m, procs.m.current).pid)
      modifies procs, procs.pcbs
      ensures Valid() && procs.m == Suspend(old(procs.m), dest, at).(viewing := dest)
      ensures old(procs.Safe()) ==> (procs.Safe() <==> cur == old(procs.m.current))
    {
      procs.SetView(dest);
      procs.LeaveFor(dest, cur, at);
      assert unchanged(fds, fds.tables, mem, mem.pages);
    }

    /** The timer interrupt. */
    method Tick(at: Ctx) returns (o: Outcome)
      requires Valid() && WellFormed(procs.m) && Possible(procs.m, Event.Tick(at))
      modifies procs, procs.pcbs
      ensures Valid() && procs.m == Step(old(procs.m), Event.Tick(at)).0
      ensures o == TickLoads(old(procs.Snapshot()), old(procs.m))
      ensures old(procs.Safe()) ==> procs.Safe() && o == Step(old(procs.m), Event.Tick(at)).1
    {
      o := procs.PitHandler(at);
    }

    // ---------- the file calls of the running program ----------

    /** The running program's pid, as every file call finds it. */
    method RunningPid() returns (pid: nat)
      requires FilesValid() && WellFormed(procs.m)
      ensures pid == Running(procs.m).pid && pid in fds.handles
    {
      procs.HeadIsSound();
      TopIsUsed(procs.m);
      pid := procs.heads[procs.currentTerm];
    }

    method Open(filename: array<byte>, ghost name: seq<byte>) returns (ret: int)
      requires FilesValid() && WellFormed(procs.m) && IsCString(filename[..], 0, name)
      modifies fds, fds.tables
      ensures Running(procs.m).pid in old(fds.handles) && FilesValid()
      ensures OpenCall(disk.vol, old(fds.handles), Running(procs.m).pid, name, ret, fds.handles)
      ensures OnlyTableOf(Running(procs.m).pid, old(fds.tables[..]), fds.tables[..])
    {
      var pid := RunningPid();
      ret := OpenFor(pid, filename, name);
    }

    method OpenFor(pid: nat, filename: array<byte>, ghost name: seq<byte>) returns (ret: int)
      requires FilesValid() && pid in fds.handles && IsCString(filename[..], 0, name)
      modifies fds, fds.tables
      ensures FilesValid() && OpenCall(disk.vol, old(fds.handles), pid, name, ret, fds.handles)
      ensures OnlyTableOf(pid, old(fds.tables[..]), fds.tables[..])
    {
      ret := fds.Open(pid, filename, name);
      assert unchanged(procs, procs.pcbInUse, procs.totalProgs, procs.heads, procs.pcbs);
    }

    method Close(fd: int) returns (ret: int)
      requires FilesValid() && WellFormed(procs.m)
      modifies fds, fds.tables
      ensures Running(procs.m).pid in old(fds.handles) && FilesValid()
      ensures CloseCall(old(fds.handles), Running(procs.m).pid, fd, ret, fds.handles)
      ensures OnlyTableOf(Running(procs.m).pid, old(fds.tables[..]), fds.tables[..])
    {
      var pid := RunningPid();
      ret := CloseFor(pid, fd);
    }

    method CloseFor(pid: nat, fd: int) returns (ret: int)
      requires FilesValid() && pid in fds.handles
      modifies fds, fds.tables
      ensures FilesValid() && CloseCall(old(fds.handles), pid, fd, ret, fds.handles)
      ensures OnlyTableOf(pid, old(fds.tables[..]), fds.tables[..])
    {
      ret := fds.Close(pid, fd);
      assert unchanged(procs, procs.pcbInUse, procs.totalProgs, procs.heads, procs.pcbs);
    }

    method Read(fd: int, buf: array<byte>, nbytes: int, driver: Answer) returns (ret: int)
      requires FilesValid() && WellFormed(procs.m)
      requires IsInt32(nbytes) && nbytes <= buf.Length && |driver.bytes| <= buf.Length
      modifies fds, fds.tables, buf
      ensures Running(procs.m).pid in old(fds.handles) && FilesValid()
      ensures forall k :: k in old(fds.handles)[Running(procs.m).pid] ==>
                GoodHandle(disk.vol, old(fds.handles)[Running(procs.m).pid][k])
      ensures ReadCall(disk.vol, old(fds.handles), Running(procs.m).pid, fd, nbytes, driver,
                       old(buf[..]), ret, buf[..], fds.handles)
      ensures OnlyTableOf(Running(procs.m).pid, old(fds.tables[..]), fds.tables[..])
    {
      var pid := RunningPid();
      ret := ReadFor(pid, fd, buf, nbytes, driver);
    }

    method ReadFor(pid: nat, fd: int, buf: array<byte>, nbytes: int, driver: Answer) returns (ret: int)
      requires FilesValid() && pid in fds.handles
      requires IsInt32(nbytes) && nbytes <= buf.Length && |driver.bytes| <= buf.Length
      modifies fds, fds.tables, buf
      ensures FilesValid()
      ensures forall k :: k in old(fds.handles)[pid] ==> GoodHandle(disk.vol, old(fds.handles)[pid][k])
      ensures ReadCall(disk.vol, old(fds.handles), pid, fd, nbytes, driver, old(buf[..]), ret, buf[..], fds.handles)
      ensures OnlyTableOf(pid, old(fds.tables[..]), fds.tables[..])
    {
      ret := fds.Read(pid, fd, buf, nbytes, driver);
      assert unchanged(procs, procs.pcbInUse, procs.totalProgs, procs.heads, procs.pcbs);
    }

    method RunningArgs() returns (args: seq<byte>)
      requires FilesValid() && WellFormed(procs.m)
      ensures args == Running(procs.m).args
    {
      procs.HeadIsSound();
      args := procs.pcbs[procs.heads[procs.currentTerm]].args;
    }

    /** The arguments the running program was launched with. */
    method GetArgs(buf: array<byte>, nbytes: int) returns (ret: int)
      requires FilesValid() && WellFormed(procs.m)
      requires nbytes < buf.Length
      modifies buf
      ensures FilesValid()
      ensures ArgsCall(Running(procs.m).args, nbytes, old(buf[..]), ret, buf[..])
    {
      var args := RunningArgs();
      ret := GiveArgs(args, buf, nbytes);
      assert unchanged(procs, procs.pcbInUse, procs.totalProgs, procs.heads, procs.pcbs, fds, fds.tables);
    }

    // ---------- traps ----------

    method ServeExecute(trap: Trap) returns (r: Reply)
      requires Valid() && WellFormed(procs.m) && trap.ExecuteCall? && Served(disk.vol, trap)
      requires Possible(procs.m, EventOf(disk.vol, trap))
      modifies procs, procs.pcbInUse, procs.totalProgs, procs.heads, procs.pcbs, fds, fds.tables, mem, mem.pages
      ensures Valid() && r.Went? && (procs.m, r.o) == Step(old(procs.m), EventOf(disk.vol, trap))
      ensures fds.handles == FilesAfterEvent(old(fds.handles), old(procs.m), EventOf(disk.vol, trap))
      ensures mem.images ==
                ImagesAfterEvent(old(mem.images), old(procs.m), EventOf(disk.vol, trap), Loaded(disk.vol, trap))
      ensures procs.Safe() <==> old(procs.Safe())
    {
      var command := CommandOf(trap.line);
      var header := new byte[HEADER_SIZE](i requires 0 <= i < HEADER_SIZE => trap.stack[i]);
      assert header[..] == trap.stack;
      var o := Execute(command, trap.at, header, trap.line, ExecutionOf(disk.vol, trap.line, trap.stack));
      NothingEnds(old(fds.handles), o);
      NoneEnds(old(mem.images), o, Loaded(disk.vol, trap));
      r := Went(o);
    }

    method ServeEvent(trap: Trap) returns (r: Reply)
      requires Valid() && WellFormed(procs.m) && Served(disk.vol, trap) && !IsFileCall(trap)
      requires Possible(procs.m, EventOf(disk.vol, trap))
      modifies procs, procs.pcbInUse, procs.totalProgs, procs.heads, procs.pcbs, fds, fds.tables, mem, mem.pages
      ensures Valid() && procs.m == Step(old(procs.m), EventOf(disk.vol, trap)).0
      ensures fds.handles == FilesAfterEvent(old(fds.handles), old(procs.m), EventOf(disk.vol, trap))
      ensures mem.images ==
                ImagesAfterEvent(old(mem.images), old(procs.m), EventOf(disk.vol, trap), Loaded(disk.vol, trap))
      ensures old(procs.Safe()) && OpensInView(old(procs.m), EventOf(disk.vol, trap)) ==>
                procs.Safe() && r == Went(Step(old(procs.m), EventOf(disk.vol, trap)).1)
    {
      match trap
      case ExecuteCall(_, _, _) =>
        r := ServeExecute(trap);
      case ExecuteNothing(at) =>
        var o := ExecuteNothing(at);
        NothingEnds(old(fds.handles), o);
        NoneEnds(old(mem.images), o, Loaded(disk.vol, trap));
        r := Went(o);
      case HaltCall(status, relaunch) =>
        var o := Halt(status, relaunch);
        r := Went(o);
      case Exception(relaunch) =>
        var o := SquashException(relaunch);
        r := Went(o);
      case Timer(at) =>
        var o := Tick(at);
        assert unchanged(fds, mem);
        TickKeepsFiles(fds.handles, mem.images, old(procs.m), EventOf(disk.vol, trap), Loaded(disk.vol, trap));
        r := Went(o);
      case SwitchKey(dest, at, launch) =>
        var o := TerminalSwitch(dest, at, launch);
        NothingEnds(old(fds.handles), o);
        NoneEnds(old(mem.images), o, Loaded(disk.vol, trap));
        r := Went(o);
    }

    method ServeOpen(name: seq<byte>) returns (r: Reply)
      requires FilesValid() && WellFormed(procs.m) && NUL !in name
      modifies fds, fds.tables
      ensures FilesValid() && Running(procs.m).pid in old(fds.handles)
      ensures fds.handles == FilesAfterOpen(disk.vol, old(fds.handles), Running(procs.m).pid, name)
      ensures r == Gave(OpenReturns(disk.vol, old(fds.handles)[Running(procs.m).pid], name), [])
    {
      var filename := NameOf(name);
      var ret := Open(filename, name);
      r := Gave(ret, []);
    }

    method ServeClose(fd: int) returns (r: Reply)
      requires FilesValid() && WellFormed(procs.m)
      modifies fds, fds.tables
      ensures FilesValid() && Running(procs.m).pid in old(fds.handles)
      ensures fds.handles == FilesAfterClose(old(fds.handles), Running(procs.m).pid, fd)
      ensures r == Gave(CloseReturns(old(fds.handles)[Running(procs.m).pid], fd), [])
    {
      var ret := Close(fd);
      r := Gave(ret, []);
    }

    method ServeRead(fd: int, nbytes: int, driver: Answer) returns (r: Reply)
      requires FilesValid() && WellFormed(procs.m)
      requires IsInt32(nbytes) && Fits(driver, nbytes)
      modifies fds, fds.tables
      ensures FilesValid() && Running(procs.m).pid in old(fds.handles)
      ensures GoodTable(disk.vol, old(fds.handles)[Running(procs.m).pid])
      ensures fds.handles == FilesAfterRead(disk.vol, old(fds.handles), Running(procs.m).pid, fd, nbytes)
      ensures r == ReadReply(disk.vol, old(fds.handles)[Running(procs.m).pid], fd, nbytes, driver)
    {
      ValidIsProper();
      RunningIsUsed(disk.vol, Now());
      var pid := RunningPid();
      r := ServeReadFor(pid, fd, nbytes, driver);
    }

    method ServeReadFor(pid: nat, fd: int, nbytes: int, driver: Answer) returns (r: Reply)
      requires FilesValid() && pid in fds.handles && GoodTable(disk.vol, fds.handles[pid])
      requires IsInt32(nbytes) && Fits(driver, nbytes)
      modifies fds, fds.tables
      ensures FilesValid() && fds.handles == FilesAfterRead(disk.vol, old(fds.handles), pid, fd, nbytes)
      ensures r == ReadReply(disk.vol, old(fds.handles)[pid], fd, nbytes, driver)
    {
      ghost var files := fds.handles;
      var buf := new byte[if nbytes < 0 then 0 else nbytes];
      ghost var before := buf[..];
      var ret := ReadFor(pid, fd, buf, nbytes, driver);
      ReadReplies(disk.vol, files, pid, fd, nbytes, driver, before, ret, buf[..], fds.handles);
      r := Gave(ret, if ret < 0 then [] else buf[..ret]);
    }

    method ServeArgs(nbytes: int) returns (r: Reply)
      requires FilesValid() && WellFormed(procs.m)
      ensures FilesValid() && r == ArgsReply(Running(procs.m).args, nbytes)
    {
      var args := RunningArgs();
      var buf := new byte[if nbytes < 0 then 0 else nbytes + 1];
      var ret := GiveArgs(args, buf, nbytes);
      r := if ret == 0 then Gave(0, buf[..|args| + 1]) else Gave(ret, []);
    }

    method ServeCall(trap: Trap) returns (r: Reply)
      requires FilesValid() && WellFormed(procs.m) && Served(disk.vol, trap) && IsFileCall(trap)
      modifies fds, fds.tables
      ensures FilesValid() && Proper(disk.vol, old(Now()))
      ensures Now() == NextState(disk.vol, old(Now()), trap) && r == ReplyOf(disk.vol, old(Now()), trap)
    {
      ValidIsProper();
      match trap
      case OpenFile(name) => r := ServeOpen(name);
      case CloseFile(fd) => r := ServeClose(fd);
      case ReadFile(fd, nbytes, driver) => r := ServeRead(fd, nbytes, driver);
      case AskArgs(nbytes) => r := ServeArgs(nbytes);
    }

    /** Every trap takes programs and open files where the specification says. */
    method Serve(trap: Trap) returns (r: Reply)
      requires Valid() && WellFormed(procs.m) && Served(disk.vol, trap)
      requires Proper(disk.vol, Now()) && Can(disk.vol, Now(), trap)
      modifies procs, procs.pcbInUse, procs.totalProgs, procs.heads, procs.pcbs, fds, fds.tables, mem, mem.pages
      ensures Valid() && Now() == NextState(disk.vol, old(Now()), trap)
      ensures mem.images == NextImages(disk.vol, old(Now()), old(mem.images), trap)
      ensures IsFileCall(trap) ==> r == ReplyOf(disk.vol, old(Now()), trap) && (procs.Safe() <==> old(procs.Safe()))
      ensures old(procs.Safe()) && InView(disk.vol, old(Now()), trap) ==>
                procs.Safe() && r == ReplyOf(disk.vol, old(Now()), trap)
    {
      if IsFileCall(trap) {
        r := ServeCall(trap);
        assert unchanged(procs, procs.pcbInUse, procs.totalProgs, procs.heads, procs.pcbs, mem, mem.pages);
        assert ImagesFit() == old(ImagesFit());
      } else {
        r := ServeEvent(trap);
      }
    }

    /** The same for programs and open files alone. */
    method Advance(trap: Trap)
      requires Valid() && Proper(disk.vol, Now()) && Served(disk.vol, trap) && Can(disk.vol, Now(), trap)
      modifies procs, procs.pcbInUse, procs.totalProgs, procs.heads, procs.pcbs, fds, fds.tables, mem, mem.pages
      ensures Valid() && Now() == NextState(disk.vol, old(Now()), trap)
    {
      var _ := Serve(trap);
    }

    /** The user window maps a page that is present and open to programs, and in it is, at 0x48000, what the
        running program was loaded from; only an execute that failed late leaves another page there. */
    lemma RunningSeesItsProgram()
      requires Valid() && WellFormed(procs.m) && Homed(procs.m)
      ensures Accessible(procs.userEntry) && procs.userEntry / 0x40_0000 == Running(procs.m).pid + 2
      ensures Running(procs.m).pid < mem.pages.Length && Running(procs.m).pid in mem.images
      ensures var page, image := mem.pages[Running(procs.m).pid], mem.images[Running(procs.m).pid];
        |page| == 0x40_0000 && 0x4_8000 + |image| <= |page| && page[0x4_8000..0x4_8000 + |image|] == image
    {
      UserEntryMaps(procs.userEntry, Running(procs.m).pid);
      TopIsUsed(procs.m);
    }

    /**
      Refinement: a run of traps takes programs and open files to the state the specification says.  If
      no terminal is opened while another one than the running one is in view, every trap also gets the
      reply the specification says.
     */
    method Run(traps: seq<Trap>) returns (rs: seq<Reply>)
      requires Valid() && Proper(disk.vol, Now()) && AllCan(disk.vol, Now(), traps)
      modifies procs, procs.pcbInUse, procs.totalProgs, procs.heads, procs.pcbs, fds, fds.tables, mem, mem.pages
      ensures Valid() && Now() == StateAfter(disk.vol, old(Now()), traps)
      ensures mem.images == ImagesAfter(disk.vol, old(Now()), old(mem.images), traps)
      ensures old(procs.Safe()) && AllInView(disk.vol, old(Now()), traps) ==>
                procs.Safe() && rs == Replies(disk.vol, old(Now()), traps)
      decreases |traps|
    {
      if traps == [] {
        rs := [];
      } else {
        NextIsProper(disk.vol, Now(), traps[0]);
        var r := Serve(traps[0]);
        rs := Run(traps[1..]);
        rs := [r] + rs;
      }
    }

    /** Whatever is called, raised or pressed from boot on: the process tables form a forest, and exactly
        the running programs have descriptors. */
    method BootAndRun(at: Ctx, traps: seq<Trap>) returns (rs: seq<Reply>)
      requires Valid() && Fresh() && BootedRun(disk.vol, procs.m, at, traps)
      modifies procs, procs.pcbInUse, procs.totalProgs, procs.heads, procs.pcbs, fds, fds.tables, mem, mem.pages
      ensures Valid() && Proper(disk.vol, Now()) && Forest(procs.Snapshot(), procs.m.leaked)
      ensures Now() == StateAfter(disk.vol, Booted(old(procs.m), at), traps)
      ensures mem.images == ImagesAfter(disk.vol, Booted(old(procs.m), at), map[0 := ImageOf(disk.vol, SHELL)], traps)
      ensures AllInView(disk.vol, Booted(old(procs.m), at), traps) ==>
                procs.Safe() && rs == Replies(disk.vol, Booted(old(procs.m), at), traps)
    {
      Boot(at);
      rs := Run(traps);
      TablesAreAForest(procs.Snapshot(), procs.m);
    }
  }

  /** What runs and is open after the first shell was started. */
  ghost function Booted(m: Machine, at: Ctx): State
    requires Shaped(m) && !Full(m)
  {
    State(Launch(m, 0, at, []), map[0 := LAUNCHED])
  }

  /** The traps can happen after the first shell was started. */
  ghost predicate BootedRun(v: Volume, m: Machine, at: Ctx, traps: seq<Trap>)
    requires Sound(v)
  {
    Shaped(m) && !Full(m) && Proper(v, Booted(m, at)) && AllCan(v, Booted(m, at), traps)
  }

  lemma TickKeepsFiles(files: map<nat, Handles>, images: map<nat, seq<byte>>, m: Machine, e: Event, image: seq<byte>)
    requires WellFormed(m) && Possible(m, e) && e.Tick?
    ensures FilesAfterEvent(files, m, e) == files && ImagesAfterEvent(images, m, e, image) == images
  {
    ScanFindsNearest(Lengths(m.stacks), m.current, Next(m.current));
    NothingEnds(files, Step(m, e).1);
    NoneEnds(images, Step(m, e).1, image);
  }

  /** The reply of a read, from the buffer it leaves. */
  lemma ReadReplies(v: Volume, files: map<nat, Handles>, pid: nat, fd: int, nbytes: int, driver: Answer,
                    before: seq<byte>, ret: int, after: seq<byte>, files': map<nat, Handles>)
    requires Sound(v) && pid in files && GoodTable(v, files[pid]) && IsInt32(nbytes) && Fits(driver, nbytes)
    requires |before| == (if nbytes < 0 then 0 else nbytes)
    requires ReadCall(v, files, pid, fd, nbytes, driver, before, ret, after, files')
    ensures ret <= |after|
    ensures ReadReply(v, files[pid], fd, nbytes, driver) == Gave(ret, if ret < 0 then [] else after[..ret])
  {
  }

  /** A getargs call fails and writes nothing, or writes the arguments and a NUL.  With nbytes equal to
      the length of the arguments that NUL lands one past the nbytes bytes of the caller. */
  predicate ArgsCall(args: seq<byte>, nbytes: int, before: seq<byte>, ret: int, after: seq<byte>)
    requires nbytes < |before|
  {
    if 0 < |args| <= nbytes
    then ret == 0 && after == Splice(before, 0, args + [NUL])
    else ret == -1 && after == before
  }

  /** getargs leaves everything from nbytes on alone unless the arguments just fit; then their NUL lands
      there, and is seen unless a NUL was there before. */
  lemma ArgsStayInsideIff(args: seq<byte>, nbytes: nat, before: seq<byte>, ret: int, after: seq<byte>)
    requires nbytes < |before| && ArgsCall(args, nbytes, before, ret, after)
    ensures |after| == |before|
    ensures after[nbytes..] == before[nbytes..] <==> !(0 < |args| == nbytes) || before[nbytes] == NUL
  {
    if 0 < |args| == nbytes {
      assert after[nbytes..][0] == NUL && before[nbytes..][0] == before[nbytes];
      if before[nbytes] == NUL {
        assert after[nbytes..] == [NUL] + before[nbytes + 1..] == before[nbytes..];
      }
    }
  }

  /** One byte of arguments, asked for with nbytes 1, overwrites the byte behind. */
  lemma ArgsOverrun(ret: int, after: seq<byte>)
    requires ArgsCall([1], 1, [2, 2], ret, after)
    ensures ret == 0 && after == [1, NUL]
  {
  }

  method GiveArgs(args: seq<byte>, buf: array<byte>, nbytes: int) returns (ret: int)
    requires nbytes < buf.Length
    modifies buf
    ensures ArgsCall(args, nbytes, old(buf[..]), ret, buf[..])
  {
    if nbytes < 0 {
      return -1;
    }
    var length := |args|;
    if length == 0 || nbytes < length {
      return -1;
    }
    CopyString(args, buf);
    ret := 0;
  }

  /** strcpy of a stored string. */
  method CopyString(text: seq<byte>, buf: array<byte>)
    requires |text| < buf.Length
    modifies buf
    ensures buf[..] == Splice(old(buf[..]), 0, text + [NUL])
  {
    var i := 0;
    assert Splice(buf[..], 0, []) == buf[..];
    while i < |text|
      invariant 0 <= i <= |text|
      invariant buf[..] == Splice(old(buf[..]), 0, text[..i])
    {
      SpliceStep(old(buf[..]), 0, text[..i], text[i]);
      assert text[..i + 1] == text[..i] + [text[i]];
      buf[i] := text[i];
      i := i + 1;
    }
    assert text[..i] == text;
    SpliceStep(old(buf[..]), 0, text, NUL);
    buf[i] := NUL;
  }

  /** A buffer that holds a command. */
  method CommandOf(line: seq<byte>) returns (command: array<byte>)
    requires |line| < COM_BUF_SIZE && forall k :: 0 <= k < |line| ==> !Ends(line[k])
    ensures fresh(command) && IsLine(command[..], line)
  {
    command := new byte[COM_BUF_SIZE](i requires 0 <= i => if i < |line| then line[i] else NUL);
  }

  /** The command "shell", and the stack space its launch uses. */
  method ShellCommand() returns (command: array<byte>, header: array<byte>)
    ensures fresh(command) && fresh(header) && command != header
    ensures IsLine(command[..], SHELL) && header.Length == HEADER_SIZE
  {
    header := new byte[HEADER_SIZE];
    command := CommandOf(SHELL);
  }

  /** A buffer that holds a file name. */
  method NameOf(name: seq<byte>) returns (filename: array<byte>)
    requires NUL !in name
    ensures fresh(filename) && IsCString(filename[..], 0, name)
  {
    filename := new byte[|name| + 1](i requires 0 <= i => if i < |name| then name[i] else NUL);
    assert filename[..][0..|name|] == name;
    CStringIff(filename[..], 0, name);
  }

  /** No process but pid has its table changed. */
  ghost predicate OnlyTableOf(pid: nat, before: seq<seq<FileDes>>, after: seq<seq<FileDes>>) {
    pid < |before| == |after| && after == before[pid := after[pid]]
  }

  /** Execute and halt are inverse on the tables: after a run as in HaltUndoesExecute the running
      terminal has its count, its head, its parent chain and its kernel stack back, and the running program
      its page, whether it was there at the time of the execute or not. */
  lemma HaltRestoresTables(k: Tables, m: Machine, launch: Event, es: seq<Event>, halt: Event, k': Tables)
    requires WellFormed(m) && launch.Execute? && Possible(m, launch) && launch.x.Launches? && !Full(m)
    requires WellFormed(Step(m, launch).0) && Feasible(Step(m, launch).0, es)
    requires StaysAbove(Step(m, launch).0, es, m.current, |m.stacks[m.current]|)
    requires var m2 := After(Step(m, launch).0, es);
             m2.current == m.current && |m2.stacks[m.current]| == |m.stacks[m.current]| + 1
    requires halt.Halt?
    requires Views(k, m) && Views(k', Step(After(Step(m, launch).0, es), halt).0)
    ensures k'.current == k.current
    ensures k'.totals[k.current] == k.totals[k.current] && k'.heads[k.current] == k.heads[k.current]
    ensures forall n: nat :: OnChain(k, k.current, n) ==>
              Chain(k', k.current, n) == Chain(k, k.current, n) && SameOrigin(k, k', Chain(k, k.current, n))
    ensures k'.userEntry == UserEntry(k'.heads[k'.current]) && k'.esp0 == k.esp0
    ensures k'.userEntry == k.userEntry <==> Homed(m)
  {
    HaltUndoesExecute(m, launch, es, halt);
    var m' := Step(After(Step(m, launch).0, es), halt).0;
    SameStackSameTables(k, m, k', m', m.current);
    HeadOfCurrent(k', m');
  }

  lemma LastHaltIs(m: Machine, status: byte, relaunch: Ctx)
    requires WellFormed(m) && |m.stacks[m.current]| == 1
    ensures Shaped(Emptied(m, false)) && !Full(Emptied(m, false))
    ensures Step(m, Event.Halt(status, false, relaunch)) ==
              (Launch(Emptied(m, false), m.current, relaunch, []), Entered(NextPid(Emptied(m, false))))
  {
    EmptiedHasRoom(m, false);
  }

  lemma ExecuteEnds(m: Machine, at: Ctx, args: seq<byte>, l: Loading)
    requires Shaped(m) && !Full(m)
    ensures ExecuteStep(m, at, args, EndOf(l)) == match l
              case Done => (Launch(m, m.current, at, args), Entered(NextPid(m)))
              case Broken => (m.(page := NextPid(m)), Refused)
              case Faulted => (Leaking(m).(page := NextPid(m)), Faults)
  {
  }

  /** The two tests of terminal_switch decide as the machine does, as long as it is not short of pids. */
  lemma SwitchIs(m: Machine, dest: nat, at: Ctx, launch: Ctx)
    requires WellFormed(m) && Possible(m, SwitchTo(dest, at, launch))
    ensures if dest != m.viewing && (Live(m, dest) || Total(m.stacks) < MAX_NUM_PROC)
            then Live(m, dest) || !Full(m)
            else Step(m, SwitchTo(dest, at, launch)) == (m, Unchanged) && OpensInView(m, SwitchTo(dest, at, launch))
  {
    FullIffCount(m);
  }

  lemma StrandedIs(m: Machine, dest: nat, at: Ctx)
    requires WellFormed(m) && dest < NUM_TERM && !Live(m, dest) && Short(m)
    ensures var m' := Suspend(m, dest, at).(viewing := dest);
      Full(m') && !Live(m', m'.current)
  {
    assert Suspend(m, dest, at).stacks == m.stacks;
  }

  lemma NothingRuns(m: Machine)
    requires Shaped(m) && Total(m.stacks) == 0 && m.leaked == {}
    ensures Used(m.stacks) == {} && !Full(m)
    ensures forall t :: 0 <= t < NUM_TERM ==> m.stacks[t] == []
  {
    NoneUsed(m.stacks);
    FullIffCount(m);
    forall t | 0 <= t < NUM_TERM ensures m.stacks[t] == [] {
      NoneRuns(m.stacks, t);
    }
  }

  /** The machine right after boot. */
  lemma BootedIsWellFormed(m: Machine, at: Ctx)
    requires Shaped(m) && Used(m.stacks) == {} && !Full(m) && m.current == m.viewing == 0
    requires forall t :: 0 <= t < NUM_TERM ==> m.stacks[t] == []
    ensures WellFormed(Launch(m, 0, at, []))
    ensures forall k: Tables :: ContextSafe(k, m)
  {
    LaunchKeeps(m, 0, at, []);
    LaunchUsed(m, 0, at, []);
  }

  lemma NoneUsed(stacks: seq<seq<Frame>>)
    requires Distinct(stacks) && Total(stacks) == 0
    ensures Used(stacks) == {}
  {
    UsedSize(stacks);
  }
}
