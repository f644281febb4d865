/**
  The kernel as its users see it: the machine of running programs together with their open files,
  and what every trap does to both.
 */
module Calls {
  import opened Common
  import opened CommandLine
  import opened FileSystem
  import opened Descriptors
  import opened Loader
  import opened Layout
  import opened Machine
  import opened Runs
  import Streams

  /** What enters the kernel: a call of the running program, an exception in it or in a call of it, the
      timer, or the key that changes terminals.  An execute can come without a command.  `stack` is what
      the kernel stack holds where execute reads the file header into, `driver` what a device answers. */
  datatype Trap =
    | ExecuteCall(line: seq<byte>, at: Ctx, stack: seq<byte>)
    | ExecuteNothing(at: Ctx)
    | HaltCall(status: byte, relaunch: Ctx)
    | Exception(relaunch: Ctx)
    | Timer(at: Ctx)
    | SwitchKey(dest: nat, at: Ctx, launch: Ctx)
    | OpenFile(name: seq<byte>)
    | CloseFile(fd: int)
    | ReadFile(fd: int, nbytes: int, driver: Answer)
    | AskArgs(nbytes: int)

  /** What comes back: a context that continues, or a result and bytes in the caller's buffer. */
  datatype Reply = Went(o: Outcome) | Gave(ret: int, bytes: seq<byte>)

  datatype State = State(m: Machine, files: map<nat, Handles>)

  predicate IsFileCall(trap: Trap) {
    trap.OpenFile? || trap.CloseFile? || trap.ReadFile? || trap.AskArgs?
  }

  // ---------- execute ----------

  /** How an execute of a command ends that got a pid. */
  ghost function ExecutionOf(v: Volume, line: seq<byte>, stack: seq<byte>): Execution
    requires Sound(v) && |stack| == HEADER_SIZE
  {
    if !Executable(v, ProgramName(line), stack) then NotFound
    else EndOf(LoadingOf(v, InodeOf(v, ProgramName(line))))
  }

  function EndOf(l: Loading): Execution {
    match l
    case Done => Launches
    case Broken => FailsLate
    case Faulted => RunsOver
  }

  lemma ShellLaunches(v: Volume, stack: seq<byte>)
    requires Sound(v) && ShellRuns(v) && |stack| == HEADER_SIZE
    ensures ExecutionOf(v, SHELL, stack) == Launches && Args(SHELL) == []
  {
    ShellIsRunnable(v, stack);
  }

  lemma LoadsAsProgramIff(v: Volume, inode: nat, stack: seq<byte>)
    requires IsVolume(v) && inode < |v.inodes| && FileOk(v, inode) && Readable(v, inode) && |stack| == HEADER_SIZE
    requires |Content(v, inode)| >= 4
    ensures StartsAsProgram(v, inode, stack) && LoadingOf(v, inode) == Done <==>
              && Content(v, inode)[..4] == [0x7F, 'E' as byte, 'L' as byte, 'F' as byte]
              && |Content(v, inode)| <= 0x3B_8000 + 4096 * NUM_TERM
  {
    MagicDecides(v, inode, stack);
    LoadsIff(v, inode);
  }

  /** A command launches an undamaged file of at least four bytes exactly if these are 0x7F and "ELF" and
      the file fits what is mapped, whatever the stack held; without a file of type 2 there is nothing to
      launch. */
  lemma LaunchesIff(v: Volume, line: seq<byte>, stack: seq<byte>)
    requires Sound(v) && |stack| == HEADER_SIZE
    ensures var i := Lookup(v, ProgramName(line));
      !(i < 63 && v.entries[i].filetype == 2) ==> ExecutionOf(v, line, stack) == NotFound
    ensures IsFile(v, ProgramName(line)) && |FileContent(v, ProgramName(line))| >= 4 ==>
      (ExecutionOf(v, line, stack) == Launches <==>
        && FileContent(v, ProgramName(line))[..4] == [0x7F, 'E' as byte, 'L' as byte, 'F' as byte]
        && |FileContent(v, ProgramName(line))| <= 0x3B_8000 + 4096 * NUM_TERM)
  {
    if IsFile(v, ProgramName(line)) && |FileContent(v, ProgramName(line))| >= 4 {
      LoadsAsProgramIff(v, InodeOf(v, ProgramName(line)), stack);
    }
  }

  /** A driver fails, or returns the number of bytes it stored, no more than asked for. */
  predicate Fits(driver: Answer, nbytes: int) {
    if driver.ret == -1 then driver.bytes == [] else driver.ret == |driver.bytes| <= if nbytes < 0 then 0 else nbytes
  }

  /** Commands are one line, shorter than the kernel's buffers; drivers keep to the caller's buffer. */
  ghost predicate Served(v: Volume, trap: Trap)
    requires Sound(v)
  {
    match trap
    case ExecuteCall(line, _, stack) =>
      |line| < COM_BUF_SIZE && (forall k :: 0 <= k < |line| ==> !Ends(line[k])) && |stack| == HEADER_SIZE
    case OpenFile(name) => NUL !in name
    case ReadFile(_, nbytes, driver) => IsInt32(nbytes) && Fits(driver, nbytes)
    case AskArgs(nbytes) => IsInt32(nbytes)
    case ExecuteNothing(_) => true
    case HaltCall(_, _) => true
    case Exception(_) => true
    case Timer(_) => true
    case SwitchKey(_, _, _) => true
    case CloseFile(_) => true
  }

  /** Commands of up to 127 characters, with 40 bytes of stack for the header of the file. */
  lemma ServedCommands(v: Volume, line: seq<byte>, at: Ctx, stack: seq<byte>)
    requires Sound(v)
    ensures Served(v, ExecuteCall(line, at, stack)) <==> |line| < 128 && 0 !in line && 10 !in line && |stack| == 40
  {
  }

  ghost predicate GoodTable(v: Volume, m: Handles)
    requires Sound(v)
  {
    && 0 in m && 1 in m
    && forall fd {:trigger m[fd]} :: fd in m ==>
         0 <= fd < MAX_FILE && GoodHandle(v, m[fd]) && (m[fd].Terminal? <==> fd < FILE_START)
  }

  /** Exactly the running programs have descriptors, and good ones. */
  ghost predicate Proper(v: Volume, s: State)
    requires Sound(v)
  {
    && WellFormed(s.m) && s.files.Keys == Used(s.m.stacks)
    && forall pid :: pid in s.files ==> GoodTable(v, s.files[pid])
  }

  ghost function EventOf(v: Volume, trap: Trap): Event
    requires Sound(v) && Served(v, trap) && !IsFileCall(trap)
  {
    match trap
    case ExecuteCall(line, at, stack) => Event.Execute(at, Args(line), ExecutionOf(v, line, stack))
    case ExecuteNothing(at) => Event.Execute(at, [], NoCommand)
    case HaltCall(status, relaunch) => Event.Halt(status, false, relaunch)
    case Exception(relaunch) => Event.Halt(0, true, relaunch)
    case Timer(at) => Event.Tick(at)
    case SwitchKey(dest, at, launch) => Event.SwitchTo(dest, at, launch)
  }

  ghost predicate Can(v: Volume, s: State, trap: Trap)
    requires Sound(v) && Proper(v, s) && Served(v, trap)
  {
    !IsFileCall(trap) ==> Possible(s.m, EventOf(v, trap))
  }

  /** An event closes all files of the program it ends, if any, and gives a program it starts the two
      terminal descriptors. */
  function FilesAfterOutcome(files: map<nat, Handles>, ends: set<nat>, o: Outcome): map<nat, Handles> {
    if o.Entered? then (files - ends)[o.pid := LAUNCHED] else files - ends
  }

  lemma NothingEnds(files: map<nat, Handles>, o: Outcome)
    ensures FilesAfterOutcome(files, {}, o) == if o.Entered? then files[o.pid := LAUNCHED] else files
  {
    assert files - {} == files;
  }

  function PidsAfterOutcome(pids: set<nat>, ends: set<nat>, o: Outcome): set<nat> {
    if o.Entered? then pids - ends + {o.pid} else pids - ends
  }

  /** The program that an event ends. */
  function Ended(m: Machine, e: Event): set<nat> {
    if e.Halt? then {Running(m).pid} else {}
  }

  lemma FilesFollowPids(v: Volume, files: map<nat, Handles>, ends: set<nat>, o: Outcome)
    requires Sound(v) && forall pid :: pid in files ==> GoodTable(v, files[pid])
    ensures var after := FilesAfterOutcome(files, ends, o);
      && after.Keys == PidsAfterOutcome(files.Keys, ends, o)
      && (forall pid :: pid in after ==> GoodTable(v, after[pid]))
  {
    assert GoodTable(v, LAUNCHED);
  }

  ghost function FilesAfterEvent(files: map<nat, Handles>, m: Machine, e: Event): map<nat, Handles>
    requires WellFormed(m) && Possible(m, e)
  {
    FilesAfterOutcome(files, Ended(m, e), Step(m, e).1)
  }

  lemma RunningIsUsed(v: Volume, s: State)
    requires Sound(v) && Proper(v, s)
    ensures Running(s.m).pid in s.files && GoodTable(v, s.files[Running(s.m).pid])
    ensures Running(s.m) == Top(s.m, s.m.current)
  {
    assert s.m.stacks[s.m.current][|s.m.stacks[s.m.current]| - 1].pid in Used(s.m.stacks);
  }

  ghost function FilesAfterCall(v: Volume, s: State, trap: Trap): map<nat, Handles>
    requires Sound(v) && Proper(v, s) && Served(v, trap) && IsFileCall(trap)
  {
    RunningIsUsed(v, s);
    var pid := Running(s.m).pid;
    match trap
    case OpenFile(name) => FilesAfterOpen(v, s.files, pid, name)
    case CloseFile(fd) => FilesAfterClose(s.files, pid, fd)
    case ReadFile(fd, nbytes, _) => FilesAfterRead(v, s.files, pid, fd, nbytes)
    case AskArgs(_) => s.files
  }

  /** The state after a trap. */
  ghost function NextState(v: Volume, s: State, trap: Trap): State
    requires Sound(v) && Proper(v, s) && Served(v, trap) && Can(v, s, trap)
  {
    if IsFileCall(trap) then State(s.m, FilesAfterCall(v, s, trap))
    else State(Step(s.m, EventOf(v, trap)).0, FilesAfterEvent(s.files, s.m, EventOf(v, trap)))
  }

  /** What a read of the running program gives it. */
  ghost function ReadReply(v: Volume, m: Handles, fd: int, nbytes: int, driver: Answer): Reply
    requires Sound(v) && GoodTable(v, m) && IsInt32(nbytes)
  {
    if fd == STDOUT_IDX || fd !in m then Gave(-1, [])
    else if !OnDisk(m[fd]) then Gave(driver.ret, driver.bytes)
    else if !Effective(m[fd], nbytes) then Gave(-1, [])
    else
      var ret := ReturnOf(v, m[fd], nbytes);
      Gave(ret, if ret < 0 then [] else Delivered(v, m[fd], nbytes))
  }

  function ArgsReply(args: seq<byte>, nbytes: int): Reply {
    if 0 < |args| <= nbytes then Gave(0, args + [NUL]) else Gave(-1, [])
  }

  ghost function ReplyOf(v: Volume, s: State, trap: Trap): Reply
    requires Sound(v) && Proper(v, s) && Served(v, trap) && Can(v, s, trap)
  {
    RunningIsUsed(v, s);
    var mine := s.files[Running(s.m).pid];
    match trap
    case OpenFile(name) => Gave(OpenReturns(v, mine, name), [])
    case CloseFile(fd) => Gave(CloseReturns(mine, fd), [])
    case ReadFile(fd, nbytes, driver) => ReadReply(v, mine, fd, nbytes, driver)
    case AskArgs(nbytes) => ArgsReply(Running(s.m).args, nbytes)
    case ExecuteCall(_, _, _) => Went(Step(s.m, EventOf(v, trap)).1)
    case ExecuteNothing(_) => Went(Step(s.m, EventOf(v, trap)).1)
    case HaltCall(_, _) => Went(Step(s.m, EventOf(v, trap)).1)
    case Exception(_) => Went(Step(s.m, EventOf(v, trap)).1)
    case Timer(_) => Went(Step(s.m, EventOf(v, trap)).1)
    case SwitchKey(_, _, _) => Went(Step(s.m, EventOf(v, trap)).1)
  }

  // ---------- every step keeps the files proper ----------

  lemma TableChanged(v: Volume, s: State, pid: nat, m: Handles)
    requires Sound(v) && Proper(v, s) && pid in s.files && GoodTable(v, m)
    ensures Proper(v, State(s.m, s.files[pid := m]))
  {
    assert s.files[pid := m].Keys == s.files.Keys;
  }

  lemma HandleChanged(v: Volume, m: Handles, fd: int, h: Handle)
    requires Sound(v) && GoodTable(v, m) && FILE_START <= fd < MAX_FILE && GoodHandle(v, h) && !h.Terminal?
    ensures GoodTable(v, m[fd := h]) && GoodTable(v, m - {fd})
  {
  }

  lemma OpenIsProper(v: Volume, s: State, pid: nat, name: seq<byte>)
    requires Sound(v) && Proper(v, s) && pid in s.files
    ensures Proper(v, State(s.m, FilesAfterOpen(v, s.files, pid, name)))
  {
    var mine := s.files[pid];
    var ret := OpenReturns(v, mine, name);
    if ret != -1 {
      HandleChanged(v, mine, ret, OpenedHandle(v, name));
      TableChanged(v, s, pid, mine[ret := OpenedHandle(v, name)]);
    }
  }

  lemma ReadIsProper(v: Volume, s: State, pid: nat, fd: int, nbytes: int)
    requires Sound(v) && Proper(v, s) && pid in s.files && IsInt32(nbytes)
    ensures Proper(v, State(s.m, FilesAfterRead(v, s.files, pid, fd, nbytes)))
  {
    var mine := s.files[pid];
    if fd != STDOUT_IDX && fd in mine && Effective(mine[fd], nbytes) {
      HandleChanged(v, mine, fd, Advanced(v, mine[fd], nbytes));
      TableChanged(v, s, pid, mine[fd := Advanced(v, mine[fd], nbytes)]);
    }
  }

  lemma CallIsProper(v: Volume, s: State, trap: Trap)
    requires Sound(v) && Proper(v, s) && Served(v, trap) && IsFileCall(trap)
    ensures Proper(v, State(s.m, FilesAfterCall(v, s, trap)))
  {
    RunningIsUsed(v, s);
    var pid := Running(s.m).pid;
    var mine := s.files[pid];
    match trap
    case OpenFile(name) => OpenIsProper(v, s, pid, name);
    case CloseFile(fd) =>
      if CloseReturns(mine, fd) == 0 {
        HandleChanged(v, mine, fd, mine[fd]);
        TableChanged(v, s, pid, mine - {fd});
      }
    case ReadFile(fd, nbytes, _) => ReadIsProper(v, s, pid, fd, nbytes);
    case AskArgs(_) =>
  }

  /** The pids in use after an event; a program that starts gets one that is free. */
  lemma UsedAfter(m: Machine, e: Event)
    requires WellFormed(m) && Possible(m, e)
    ensures Used(Step(m, e).0.stacks) == PidsAfterOutcome(Used(m.stacks), Ended(m, e), Step(m, e).1)
    ensures Step(m, e).1.Entered? ==> Step(m, e).1.pid !in Used(m.stacks) - Ended(m, e)
  {
    match e
    case Execute(at, args, _) =>
      ExecuteShape(m, e);
      if !Full(m) { LaunchUsed(m, m.current, at, args); }
    case Halt(_, fault, relaunch) =>
      if |m.stacks[m.current]| == 1 {
        EmptiedHasRoom(m, fault);
        LaunchUsed(Emptied(m, fault), m.current, relaunch, []);
      } else {
        PopUsed(m);
      }
    case Tick(_) =>
      ScanFindsNearest(Lengths(m.stacks), m.current, Next(m.current));
    case SwitchTo(dest, c, launch) =>
      if dest != m.viewing && !Live(m, dest) && !Full(m) {
        var m1 := m.(viewing := dest, current := dest, suspended := m.suspended[m.current := c]);
        assert m1.stacks == m.stacks;
        LaunchUsed(m1, dest, launch, []);
      }
  }

  lemma EventIsProper(v: Volume, s: State, e: Event)
    requires Sound(v) && Proper(v, s) && Possible(s.m, e)
    ensures Proper(v, State(Step(s.m, e).0, FilesAfterEvent(s.files, s.m, e)))
  {
    StepKeepsWellFormed(s.m, e);
    UsedAfter(s.m, e);
    FilesFollowPids(v, s.files, Ended(s.m, e), Step(s.m, e).1);
  }

  lemma NextIsProper(v: Volume, s: State, trap: Trap)
    requires Sound(v) && Proper(v, s) && Served(v, trap) && Can(v, s, trap)
    ensures Proper(v, NextState(v, s, trap))
  {
    if IsFileCall(trap) {
      CallIsProper(v, s, trap);
    } else {
      EventIsProper(v, s, EventOf(v, trap));
    }
  }

  lemma EventKeepsFiles(s: State, e: Event, pid: nat)
    requires WellFormed(s.m) && s.files.Keys == Used(s.m.stacks) && Possible(s.m, e)
    requires pid in s.files && pid !in Ended(s.m, e)
    ensures pid in FilesAfterEvent(s.files, s.m, e) && FilesAfterEvent(s.files, s.m, e)[pid] == s.files[pid]
  {
    UsedAfter(s.m, e);
  }

  /** Whatever one program calls, and whatever is launched, halted or switched: the open files of every
      other running program stay as they are. */
  lemma OthersKeepFiles(v: Volume, s: State, trap: Trap, pid: nat)
    requires Sound(v) && Proper(v, s) && Served(v, trap) && Can(v, s, trap)
    requires pid in s.files && pid != Running(s.m).pid
    ensures pid in NextState(v, s, trap).files && NextState(v, s, trap).files[pid] == s.files[pid]
  {
    if IsFileCall(trap) {
      RunningIsUsed(v, s);
    } else {
      EventKeepsFiles(s, EventOf(v, trap), pid);
    }
  }

  // ---------- runs ----------

  /** The traps can happen one after the other from s on. */
  ghost predicate AllCan(v: Volume, s: State, traps: seq<Trap>)
    requires Sound(v) && Proper(v, s)
    decreases |traps|
  {
    traps != [] ==>
      && Served(v, traps[0]) && Can(v, s, traps[0])
      && (NextIsProper(v, s, traps[0]); AllCan(v, NextState(v, s, traps[0]), traps[1..]))
  }

  ghost function StateAfter(v: Volume, s: State, traps: seq<Trap>): (r: State)
    requires Sound(v) && Proper(v, s) && AllCan(v, s, traps)
    ensures Proper(v, r)
    decreases |traps|
  {
    if traps == [] then s
    else
      NextIsProper(v, s, traps[0]);
      StateAfter(v, NextState(v, s, traps[0]), traps[1..])
  }

  ghost function Replies(v: Volume, s: State, traps: seq<Trap>): seq<Reply>
    requires Sound(v) && Proper(v, s) && AllCan(v, s, traps)
    decreases |traps|
  {
    if traps == [] then []
    else
      NextIsProper(v, s, traps[0]);
      [ReplyOf(v, s, traps[0])] + Replies(v, NextState(v, s, traps[0]), traps[1..])
  }

  ghost predicate InView(v: Volume, s: State, trap: Trap)
    requires Sound(v) && Proper(v, s) && Served(v, trap)
  {
    IsFileCall(trap) || OpensInView(s.m, EventOf(v, trap))
  }

  /** No terminal is opened while another than the running one is in view. */
  ghost predicate AllInView(v: Volume, s: State, traps: seq<Trap>)
    requires Sound(v) && Proper(v, s) && AllCan(v, s, traps)
    decreases |traps|
  {
    traps != [] ==>
      InView(v, s, traps[0]) && (NextIsProper(v, s, traps[0]); AllInView(v, NextState(v, s, traps[0]), traps[1..]))
  }

  /** The events of a run; file calls are none. */
  ghost function EventsOf(v: Volume, s: State, traps: seq<Trap>): seq<Event>
    requires Sound(v) && Proper(v, s) && AllCan(v, s, traps)
    decreases |traps|
  {
    if traps == [] then []
    else
      NextIsProper(v, s, traps[0]);
      (if IsFileCall(traps[0]) then [] else [EventOf(v, traps[0])])
      + EventsOf(v, NextState(v, s, traps[0]), traps[1..])
  }

  /** Every run is a run of the machine, so whatever holds of those holds of the kernel's programs. */
  lemma {:induction false} RunIsMachineRun(v: Volume, s: State, traps: seq<Trap>)
    requires Sound(v) && Proper(v, s) && AllCan(v, s, traps)
    ensures Leads(s.m, EventsOf(v, s, traps), StateAfter(v, s, traps).m)
    decreases |traps|
  {
    if traps != [] {
      NextIsProper(v, s, traps[0]);
      var s1 := NextState(v, s, traps[0]);
      RunIsMachineRun(v, s1, traps[1..]);
      if IsFileCall(traps[0]) {
        assert [] + EventsOf(v, s1, traps[1..]) == EventsOf(v, s1, traps[1..]);
      } else {
        LeadsBefore(s.m, EventOf(v, traps[0]), EventsOf(v, s1, traps[1..]), StateAfter(v, s, traps).m);
      }
    }
  }

  /** Program pid does not run in any state of the run but perhaps the last. */
  ghost predicate NeverRuns(v: Volume, s: State, traps: seq<Trap>, pid: nat)
    requires Sound(v) && Proper(v, s) && AllCan(v, s, traps)
    decreases |traps|
  {
    traps != [] ==>
      && Running(s.m).pid != pid
      && (NextIsProper(v, s, traps[0]); NeverRuns(v, NextState(v, s, traps[0]), traps[1..], pid))
  }

  /** While a program does not run its open files stay exactly as they are. */
  lemma {:induction false} WaitingKeepsFiles(v: Volume, s: State, traps: seq<Trap>, pid: nat)
    requires Sound(v) && Proper(v, s) && AllCan(v, s, traps)
    requires pid in s.files && NeverRuns(v, s, traps, pid)
    ensures pid in StateAfter(v, s, traps).files && StateAfter(v, s, traps).files[pid] == s.files[pid]
    decreases |traps|
  {
    if traps != [] {
      NextIsProper(v, s, traps[0]);
      OthersKeepFiles(v, s, traps[0], pid);
      WaitingKeepsFiles(v, NextState(v, s, traps[0]), traps[1..], pid);
    }
  }

  // ---------- what a descriptor delivers in a run ----------

  /** The trap is one of program pid that ends it or closes descriptor fd. */
  predicate GivesUp(s: State, trap: Trap, pid: nat, fd: int) {
    Running(s.m).pid == pid && (trap.HaltCall? || trap.Exception? || trap == CloseFile(fd))
  }

  ghost predicate KeepsOpen(v: Volume, s: State, traps: seq<Trap>, pid: nat, fd: int)
    requires Sound(v) && Proper(v, s) && AllCan(v, s, traps)
    decreases |traps|
  {
    traps != [] ==>
      && !GivesUp(s, traps[0], pid, fd)
      && (NextIsProper(v, s, traps[0]); KeepsOpen(v, NextState(v, s, traps[0]), traps[1..], pid, fd))
  }

  /** The bytes that descriptor fd of program pid delivers in a run, one after the other. */
  ghost function Obtained(v: Volume, s: State, traps: seq<Trap>, pid: nat, fd: int): seq<byte>
    requires Sound(v) && Proper(v, s) && AllCan(v, s, traps)
    decreases |traps|
  {
    if traps == [] then []
    else
      NextIsProper(v, s, traps[0]);
      (if Running(s.m).pid == pid && traps[0].ReadFile? && traps[0].fd == fd then ReplyOf(v, s, traps[0]).bytes else [])
      + Obtained(v, NextState(v, s, traps[0]), traps[1..], pid, fd)
  }

  /** One trap moves an open file descriptor over the bytes it delivers. */
  lemma TrapMoves(v: Volume, s: State, trap: Trap, pid: nat, fd: int, name: seq<byte>, pos: nat) returns (next: nat)
    requires Sound(v) && Proper(v, s) && Served(v, trap) && Can(v, s, trap)
    requires Streams.AtFile(v, s.files, pid, fd, name, pos) && !GivesUp(s, trap, pid, fd)
    ensures pos <= next <= |FileContent(v, name)|
    ensures Streams.AtFile(v, NextState(v, s, trap).files, pid, fd, name, next)
    ensures (if Running(s.m).pid == pid && trap.ReadFile? && trap.fd == fd then ReplyOf(v, s, trap).bytes else [])
              == FileContent(v, name)[pos..next]
  {
    next := pos;
    if pid != Running(s.m).pid {
      OthersKeepFiles(v, s, trap, pid);
    } else if IsFileCall(trap) {
      next := CallMoves(v, s, trap, fd, name, pos);
    } else {
      EventKeepsFiles(s, EventOf(v, trap), pid);
    }
  }

  lemma CallMoves(v: Volume, s: State, trap: Trap, fd: int, name: seq<byte>, pos: nat) returns (next: nat)
    requires Sound(v) && Proper(v, s) && Served(v, trap) && IsFileCall(trap) && trap != CloseFile(fd)
    requires Streams.AtFile(v, s.files, Running(s.m).pid, fd, name, pos)
    ensures pos <= next <= |FileContent(v, name)|
    ensures Streams.AtFile(v, FilesAfterCall(v, s, trap), Running(s.m).pid, fd, name, next)
    ensures (if trap.ReadFile? && trap.fd == fd then ReplyOf(v, s, trap).bytes else [])
              == FileContent(v, name)[pos..next]
  {
    RunningIsUsed(v, s);
    next := pos;
    if trap.ReadFile? && trap.fd == fd {
      next := ReadMoves(v, s.files, Running(s.m).pid, fd, trap.nbytes, trap.driver, name, pos);
    }
  }

  lemma ReadMoves(v: Volume, files: map<nat, Handles>, pid: nat, fd: int, nbytes: int, driver: Answer,
                  name: seq<byte>, pos: nat) returns (next: nat)
    requires Sound(v) && Streams.AtFile(v, files, pid, fd, name, pos) && GoodTable(v, files[pid]) && IsInt32(nbytes)
    ensures pos <= next <= |FileContent(v, name)|
    ensures Streams.AtFile(v, FilesAfterRead(v, files, pid, fd, nbytes), pid, fd, name, next)
    ensures ReadReply(v, files[pid], fd, nbytes, driver).bytes == FileContent(v, name)[pos..next]
  {
    next := pos + if nbytes < 0 then 0 else Min(nbytes, |FileContent(v, name)| - pos);
  }

  /** Over any run -- other programs run, are launched and halted, pids are used again, the same file is
      read elsewhere -- the bytes an open file descriptor delivers are its file from where it stood to
      where it stands. */
  lemma {:induction false} RunDeliversContent(v: Volume, s: State, traps: seq<Trap>, pid: nat, fd: int,
                                              name: seq<byte>, pos: nat) returns (last: nat)
    requires Sound(v) && Proper(v, s) && AllCan(v, s, traps) && KeepsOpen(v, s, traps, pid, fd)
    requires Streams.AtFile(v, s.files, pid, fd, name, pos)
    ensures pos <= last <= |FileContent(v, name)|
    ensures Streams.AtFile(v, StateAfter(v, s, traps).files, pid, fd, name, last)
    ensures Obtained(v, s, traps, pid, fd) == FileContent(v, name)[pos..last]
    decreases |traps|
  {
    if traps == [] {
      last := pos;
    } else {
      NextIsProper(v, s, traps[0]);
      var next := TrapMoves(v, s, traps[0], pid, fd, name, pos);
      last := RunDeliversContent(v, NextState(v, s, traps[0]), traps[1..], pid, fd, name, next);
      Streams.Joined(FileContent(v, name), pos, next, last);
    }
  }

  // ---------- what a directory descriptor delivers in a run ----------

  predicate OwnRead(s: State, trap: Trap, pid: nat, fd: int) {
    Running(s.m).pid == pid && trap.ReadFile? && trap.fd == fd
  }

  /** Every read of descriptor fd by program pid asks for at least a whole name. */
  ghost predicate LargeReads(v: Volume, s: State, traps: seq<Trap>, pid: nat, fd: int)
    requires Sound(v) && Proper(v, s) && AllCan(v, s, traps)
    decreases |traps|
  {
    traps != [] ==>
      && (OwnRead(s, traps[0], pid, fd) ==> traps[0].nbytes >= NAMELEN)
      && (NextIsProper(v, s, traps[0]); LargeReads(v, NextState(v, s, traps[0]), traps[1..], pid, fd))
  }

  /** The answers to the reads of descriptor fd by program pid, one list entry a read. */
  ghost function Answers(v: Volume, s: State, traps: seq<Trap>, pid: nat, fd: int): seq<seq<byte>>
    requires Sound(v) && Proper(v, s) && AllCan(v, s, traps)
    decreases |traps|
  {
    if traps == [] then []
    else
      NextIsProper(v, s, traps[0]);
      (if OwnRead(s, traps[0], pid, fd) then [ReplyOf(v, s, traps[0]).bytes] else [])
      + Answers(v, NextState(v, s, traps[0]), traps[1..], pid, fd)
  }

  ghost predicate AtDirectory(files: map<nat, Handles>, pid: nat, fd: int, next: nat) {
    pid in files && fd in files[pid] && files[pid][fd] == Directory(next)
  }

  lemma DirectoryMoves(v: Volume, s: State, trap: Trap, pid: nat, fd: int, next: nat) returns (next': nat)
    requires Sound(v) && Proper(v, s) && Served(v, trap) && Can(v, s, trap)
    requires AtDirectory(s.files, pid, fd, next) && !GivesUp(s, trap, pid, fd)
    requires OwnRead(s, trap, pid, fd) ==> trap.nbytes >= NAMELEN
    ensures next' == if OwnRead(s, trap, pid, fd) then Streams.Behind(v, next) else next
    ensures AtDirectory(NextState(v, s, trap).files, pid, fd, next')
    ensures OwnRead(s, trap, pid, fd) ==> ReplyOf(v, s, trap).bytes == Streams.NameAt(v, next)
  {
    next' := next;
    if pid != Running(s.m).pid {
      OthersKeepFiles(v, s, trap, pid);
    } else if IsFileCall(trap) {
      RunningIsUsed(v, s);
      if trap.ReadFile? && trap.fd == fd {
        Streams.DirectoryReadOnce(v, next, trap.nbytes);
        next' := Streams.Behind(v, next);
      }
    } else {
      EventKeepsFiles(s, EventOf(v, trap), pid);
    }
  }

  /** The names from the next-th on, in order, and then nothing. */
  ghost predicate Lists(v: Volume, next: nat, names: seq<seq<byte>>)
    requires Sound(v)
  {
    forall k :: 0 <= k < |names| ==> names[k] == Streams.NameAt(v, next + k)
  }

  /** Over any run a directory descriptor delivers every name once, complete and in order, and then
      nothing, whatever else happens between its reads. */
  lemma {:induction false} RunListsDirectory(v: Volume, s: State, traps: seq<Trap>, pid: nat, fd: int, next: nat)
    requires Sound(v) && Proper(v, s) && AllCan(v, s, traps) && KeepsOpen(v, s, traps, pid, fd)
    requires AtDirectory(s.files, pid, fd, next) && LargeReads(v, s, traps, pid, fd)
    ensures Lists(v, next, Answers(v, s, traps, pid, fd))
    decreases |traps|
  {
    if traps != [] {
      NextIsProper(v, s, traps[0]);
      var s1 := NextState(v, s, traps[0]);
      var next' := DirectoryMoves(v, s, traps[0], pid, fd, next);
      RunListsDirectory(v, s1, traps[1..], pid, fd, next');
      AnswersListed(v, s, traps, pid, fd, next);
    }
  }

  lemma AnswersListed(v: Volume, s: State, traps: seq<Trap>, pid: nat, fd: int, next: nat)
    requires Sound(v) && Proper(v, s) && AllCan(v, s, traps) && traps != [] && Proper(v, NextState(v, s, traps[0]))
    requires OwnRead(s, traps[0], pid, fd) ==> ReplyOf(v, s, traps[0]).bytes == Streams.NameAt(v, next)
    requires Lists(v, if OwnRead(s, traps[0], pid, fd) then Streams.Behind(v, next) else next,
                   Answers(v, NextState(v, s, traps[0]), traps[1..], pid, fd))
    ensures Lists(v, next, Answers(v, s, traps, pid, fd))
  {
    var rest := Answers(v, NextState(v, s, traps[0]), traps[1..], pid, fd);
    if OwnRead(s, traps[0], pid, fd) {
      NamesOn(v, next, ReplyOf(v, s, traps[0]).bytes, rest);
    } else {
      assert [] + rest == rest;
    }
  }

  lemma NamesOn(v: Volume, next: nat, first: seq<byte>, rest: seq<seq<byte>>)
    requires Sound(v) && first == Streams.NameAt(v, next)
    requires Lists(v, Streams.Behind(v, next), rest)
    ensures Lists(v, next, [first] + rest)
  {
    forall k | 0 <= k < |[first] + rest| ensures ([first] + rest)[k] == Streams.NameAt(v, next + k) {
      if k > 0 {
        assert ([first] + rest)[k] == rest[k - 1];
        Streams.NameBehind(v, next, k);
      }
    }
  }
}
