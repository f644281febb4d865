/**
  What a running program has in its page, over whole runs of traps.
 */
module Programs {
  import opened Common
  import opened CommandLine
  import opened FileSystem
  import opened Descriptors
  import opened Loader
  import opened Machine
  import opened Runs
  import opened Calls
  import opened UserMemory

  /** What the program that a command names has in its page. */
  ghost function ImageOf(v: Volume, line: seq<byte>): seq<byte>
    requires Sound(v)
  {
    if IsFile(v, ProgramName(line)) then InPage(FileContent(v, ProgramName(line))) else []
  }

  /** What a load of a file whose blocks all exist leaves in the page. */
  ghost function ImageIn(v: Volume, inode: nat): seq<byte>
    requires IsVolume(v) && inode < |v.inodes|
  {
    if FileOk(v, inode) then InPage(Content(v, inode)) else []
  }

  lemma LoadedIsNamed(v: Volume, line: seq<byte>, inode: nat)
    requires Sound(v) && IsRegular(v, ProgramName(line)) && inode == InodeOf(v, ProgramName(line))
    ensures ImageIn(v, inode) == ImageOf(v, line)
  {
  }

  /** A program that is launched is a file whose blocks all exist. */
  lemma LaunchedIsFile(v: Volume, line: seq<byte>, stack: seq<byte>)
    requires Sound(v) && |stack| == HEADER_SIZE && ExecutionOf(v, line, stack) == Launches
    ensures IsFile(v, ProgramName(line)) && ImageOf(v, line) == InPage(FileContent(v, ProgramName(line)))
  {
    LoadsIff(v, InodeOf(v, ProgramName(line)));
  }

  /** The search for the program a command names. */
  method Locate(disk: Disk, command: array<byte>, header: array<byte>, ghost line: seq<byte>, ghost x: Execution)
    returns (inode: int, args: seq<byte>)
    requires disk.Valid() && Sound(disk.vol) && IsLine(command[..], line) && |line| < COM_BUF_SIZE
    requires header.Length == HEADER_SIZE && header != command && x == ExecutionOf(disk.vol, line, header[..])
    modifies header
    ensures args == Args(line) && (inode == -1 <==> x == NotFound)
    ensures inode != -1 ==>
      && 0 <= inode < |disk.vol.inodes| && Readable(disk.vol, inode)
      && x == EndOf(LoadingOf(disk.vol, inode)) && ImageIn(disk.vol, inode) == ImageOf(disk.vol, line)
  {
    inode, args := FindProgram(disk, command, header, line);
    if inode != -1 {
      LoadedIsNamed(disk.vol, line, inode);
    }
  }

  lemma ShellImage(v: Volume)
    requires Sound(v) && ShellRuns(v)
    ensures ImageOf(v, SHELL) == FileContent(v, SHELL)
  {
    ShellParses();
  }

  /** An event takes the image of the program it ends, if any, and gives a program it starts its own. */
  function ImagesAfterOutcome(images: map<nat, seq<byte>>, ends: set<nat>, o: Outcome, image: seq<byte>):
    map<nat, seq<byte>>
  {
    if o.Entered? then (images - ends)[o.pid := image] else images - ends
  }

  lemma NoneEnds(images: map<nat, seq<byte>>, o: Outcome, image: seq<byte>)
    ensures ImagesAfterOutcome(images, {}, o, image) == if o.Entered? then images[o.pid := image] else images
  {
    assert images - {} == images;
  }

  ghost function ImagesAfterEvent(images: map<nat, seq<byte>>, m: Machine, e: Event, image: seq<byte>):
    map<nat, seq<byte>>
    requires WellFormed(m) && Possible(m, e)
  {
    ImagesAfterOutcome(images, Ended(m, e), Step(m, e).1, image)
  }

  /** The image of the program that a trap starts, if any: the one a command names, or a shell. */
  ghost function Loaded(v: Volume, trap: Trap): seq<byte>
    requires Sound(v)
  {
    ImageOf(v, if trap.ExecuteCall? then trap.line else SHELL)
  }

  ghost function NextImages(v: Volume, s: State, images: map<nat, seq<byte>>, trap: Trap): map<nat, seq<byte>>
    requires Sound(v) && Proper(v, s) && Served(v, trap) && Can(v, s, trap)
  {
    if IsFileCall(trap) then images else ImagesAfterEvent(images, s.m, EventOf(v, trap), Loaded(v, trap))
  }

  ghost function ImagesAfter(v: Volume, s: State, images: map<nat, seq<byte>>, traps: seq<Trap>):
    map<nat, seq<byte>>
    requires Sound(v) && Proper(v, s) && AllCan(v, s, traps)
    decreases |traps|
  {
    if traps == [] then images
    else
      NextIsProper(v, s, traps[0]);
      ImagesAfter(v, NextState(v, s, traps[0]), NextImages(v, s, images, traps[0]), traps[1..])
  }

  /** The running programs have images, and only they. */
  lemma NextHaveImages(v: Volume, s: State, images: map<nat, seq<byte>>, trap: Trap)
    requires Sound(v) && Proper(v, s) && Served(v, trap) && Can(v, s, trap) && images.Keys == Used(s.m.stacks)
    ensures NextImages(v, s, images, trap).Keys == Used(NextState(v, s, trap).m.stacks)
  {
    if !IsFileCall(trap) {
      UsedAfter(s.m, EventOf(v, trap));
    }
  }

  /** The trap ends program pid. */
  predicate EndsProgram(s: State, trap: Trap, pid: nat) {
    Running(s.m).pid == pid && (trap.HaltCall? || trap.Exception?)
  }

  ghost predicate NeverEnds(v: Volume, s: State, traps: seq<Trap>, pid: nat)
    requires Sound(v) && Proper(v, s) && AllCan(v, s, traps)
    decreases |traps|
  {
    traps != [] ==>
      && !EndsProgram(s, traps[0], pid)
      && (NextIsProper(v, s, traps[0]); NeverEnds(v, NextState(v, s, traps[0]), traps[1..], pid))
  }

  lemma NextKeepsImage(v: Volume, s: State, images: map<nat, seq<byte>>, trap: Trap, pid: nat)
    requires Sound(v) && Proper(v, s) && Served(v, trap) && Can(v, s, trap)
    requires images.Keys == Used(s.m.stacks) && pid in images && !EndsProgram(s, trap, pid)
    ensures pid in NextImages(v, s, images, trap) && NextImages(v, s, images, trap)[pid] == images[pid]
  {
    if !IsFileCall(trap) {
      EventKeepsImage(images, s.m, EventOf(v, trap), Loaded(v, trap), pid);
    }
  }

  lemma EventKeepsImage(images: map<nat, seq<byte>>, m: Machine, e: Event, image: seq<byte>, pid: nat)
    requires WellFormed(m) && Possible(m, e) && images.Keys == Used(m.stacks)
    requires pid in images && pid !in Ended(m, e)
    ensures var after := ImagesAfterEvent(images, m, e, image); pid in after && after[pid] == images[pid]
  {
    UsedAfter(m, e);
  }

  /** Until it ends, a program has in its page what it was loaded from, whatever else is launched, loaded,
      halted and switched. */
  lemma {:induction false} ImageStays(v: Volume, s: State, images: map<nat, seq<byte>>, traps: seq<Trap>, pid: nat)
    requires Sound(v) && Proper(v, s) && AllCan(v, s, traps) && NeverEnds(v, s, traps, pid)
    requires images.Keys == Used(s.m.stacks) && pid in images
    ensures pid in ImagesAfter(v, s, images, traps) && ImagesAfter(v, s, images, traps)[pid] == images[pid]
    decreases |traps|
  {
    if traps != [] {
      NextIsProper(v, s, traps[0]);
      NextKeepsImage(v, s, images, traps[0], pid);
      NextHaveImages(v, s, images, traps[0]);
      ImageStays(v, NextState(v, s, traps[0]), NextImages(v, s, images, traps[0]), traps[1..], pid);
    }
  }

  // ---------- a launched program and its caller ----------

  /** The trap is an execute that launches a program. */
  ghost predicate LaunchesOne(v: Volume, s: State, launch: Trap)
    requires Sound(v) && Proper(v, s)
  {
    && launch.ExecuteCall? && Served(v, launch) && Can(v, s, launch)
    && ExecutionOf(v, launch.line, launch.stack) == Launches && !Full(s.m)
  }

  /** More than d programs are on terminal t in every state of the run. */
  ghost predicate KeepsAbove(v: Volume, s: State, traps: seq<Trap>, t: nat, d: nat)
    requires Sound(v) && Proper(v, s) && AllCan(v, s, traps) && t < NUM_TERM
    decreases |traps|
  {
    && |s.m.stacks[t]| > d
    && (traps != [] ==>
          (NextIsProper(v, s, traps[0]); KeepsAbove(v, NextState(v, s, traps[0]), traps[1..], t, d)))
  }

  lemma PrefixStep(v: Volume, s: State, trap: Trap, s1: State, t: nat, d: nat)
    requires Sound(v) && Proper(v, s) && Served(v, trap) && Can(v, s, trap) && Proper(v, s1) && t < NUM_TERM
    requires s1 == NextState(v, s, trap) && 0 < d < |s.m.stacks[t]| && d < |s1.m.stacks[t]|
    ensures s1.m.stacks[t][..d + 1] == s.m.stacks[t][..d + 1]
  {
    if !IsFileCall(trap) {
      StackSteps(s.m, EventOf(v, trap), t);
      SteppedPrefix(s.m.stacks[t], s1.m.stacks[t], d);
    }
  }

  /** A program under another one of its terminal does not run. */
  lemma CallerWaits(m: Machine, t: nat, d: nat)
    requires WellFormed(m) && t < NUM_TERM && 0 < d < |m.stacks[t]|
    ensures Running(m).pid != m.stacks[t][d - 1].pid
  {
    assert At(m.stacks, t, d - 1) && At(m.stacks, m.current, |m.stacks[m.current]| - 1);
  }

  /** The d-th program of a terminal ends only if it is on top, and then no longer than d programs remain. */
  lemma EndingLowers(v: Volume, s: State, trap: Trap, s1: State, t: nat, d: nat)
    requires Sound(v) && Proper(v, s) && Served(v, trap) && Can(v, s, trap) && Proper(v, s1) && t < NUM_TERM
    requires s1 == NextState(v, s, trap) && 0 < d < |s.m.stacks[t]| && EndsProgram(s, trap, s.m.stacks[t][d].pid)
    ensures |s1.m.stacks[t]| <= d
  {
    var m := s.m;
    assert At(m.stacks, t, d) && At(m.stacks, m.current, |m.stacks[m.current]| - 1);
  }

  /** While a program launched as the d-th of terminal t is there: it is under the same pid and with the
      same arguments, the programs under it are the same, its caller keeps its open files, and both keep
      what is in their pages. */
  lemma {:induction false} CallerKeepsAll(v: Volume, s: State, images: map<nat, seq<byte>>, traps: seq<Trap>, t: nat,
                                          d: nat)
    requires Sound(v) && Proper(v, s) && AllCan(v, s, traps) && t < NUM_TERM && 0 < d && KeepsAbove(v, s, traps, t, d)
    requires images.Keys == Used(s.m.stacks)
    ensures var s', images' := StateAfter(v, s, traps), ImagesAfter(v, s, images, traps);
            var caller, pid := s.m.stacks[t][d - 1].pid, s.m.stacks[t][d].pid;
      && |s'.m.stacks[t]| > d && s'.m.stacks[t][..d + 1] == s.m.stacks[t][..d + 1]
      && caller in s.files && caller in s'.files && s'.files[caller] == s.files[caller]
      && caller in images && caller in images' && images'[caller] == images[caller]
      && pid in images && pid in images' && images'[pid] == images[pid]
    decreases |traps|
  {
    var caller, pid := s.m.stacks[t][d - 1].pid, s.m.stacks[t][d].pid;
    assert caller in Used(s.m.stacks) && pid in Used(s.m.stacks);
    if traps != [] {
      NextIsProper(v, s, traps[0]);
      var s1, images1 := NextState(v, s, traps[0]), NextImages(v, s, images, traps[0]);
      StepKeepsAll(v, s, images, traps[0], s1, images1, t, d);
      CallerKeepsAll(v, s1, images1, traps[1..], t, d);
      assert s1.m.stacks[t][d] == s1.m.stacks[t][..d + 1][d] && s1.m.stacks[t][d - 1] == s1.m.stacks[t][..d + 1][d - 1];
    }
  }

  lemma StepKeepsAll(v: Volume, s: State, images: map<nat, seq<byte>>, trap: Trap,
                     s1: State, images1: map<nat, seq<byte>>, t: nat, d: nat)
    requires Sound(v) && Proper(v, s) && Served(v, trap) && Can(v, s, trap) && Proper(v, s1) && t < NUM_TERM
    requires s1 == NextState(v, s, trap) && images1 == NextImages(v, s, images, trap)
    requires 0 < d < |s.m.stacks[t]| && d < |s1.m.stacks[t]| && images.Keys == Used(s.m.stacks)
    ensures var caller, pid := s.m.stacks[t][d - 1].pid, s.m.stacks[t][d].pid;
      && s1.m.stacks[t][..d + 1] == s.m.stacks[t][..d + 1] && images1.Keys == Used(s1.m.stacks)
      && caller in s.files && caller in s1.files && s1.files[caller] == s.files[caller]
      && caller in images && caller in images1 && images1[caller] == images[caller]
      && pid in images && pid in images1 && images1[pid] == images[pid]
  {
    var caller, pid := s.m.stacks[t][d - 1].pid, s.m.stacks[t][d].pid;
    assert caller in Used(s.m.stacks) && pid in Used(s.m.stacks);
    PrefixStep(v, s, trap, s1, t, d);
    NextHaveImages(v, s, images, trap);
    CallerWaits(s.m, t, d);
    OthersKeepFiles(v, s, trap, caller);
    NextKeepsImage(v, s, images, trap, caller);
    if EndsProgram(s, trap, pid) {
      EndingLowers(v, s, trap, s1, t, d);
    }
    NextKeepsImage(v, s, images, trap, pid);
  }

  // ---------- from the command to the return ----------

  ghost function AfterLaunch(v: Volume, s: State, launch: Trap): (r: State)
    requires Sound(v) && Proper(v, s) && LaunchesOne(v, s, launch)
    ensures Proper(v, r)
  {
    NextIsProper(v, s, launch);
    NextState(v, s, launch)
  }

  /** The program that an execute has launched runs after some more traps. */
  ghost predicate RunsAfter(v: Volume, s: State, launch: Trap, traps: seq<Trap>)
    requires Sound(v) && Proper(v, s)
  {
    && LaunchesOne(v, s, launch)
    && var s1, t, d := AfterLaunch(v, s, launch), s.m.current, |s.m.stacks[s.m.current]|;
    && AllCan(v, s1, traps) && KeepsAbove(v, s1, traps, t, d)
    && StateAfter(v, s1, traps).m.current == t && |StateAfter(v, s1, traps).m.stacks[t]| == d + 1
  }

  /** The frame of the launched program. */
  ghost function LaunchedFrame(s: State, launch: Trap): Frame
    requires launch.ExecuteCall?
  {
    Frame(NextPid(s.m), launch.at, Args(launch.line), NextPid(s.m) in s.m.flagged)
  }

  lemma LaunchStack(v: Volume, s: State, launch: Trap)
    requires Sound(v) && Proper(v, s) && LaunchesOne(v, s, launch)
    ensures var m := AfterLaunch(v, s, launch).m;
      m.stacks[s.m.current] == s.m.stacks[s.m.current] + [LaunchedFrame(s, launch)] && m.current == s.m.current
    ensures AfterLaunch(v, s, launch).files == s.files[NextPid(s.m) := LAUNCHED]
  {
    NothingEnds(s.files, Entered(NextPid(s.m)));
  }

  lemma LaunchImages(v: Volume, s: State, images: map<nat, seq<byte>>, launch: Trap)
    requires Sound(v) && Proper(v, s) && LaunchesOne(v, s, launch) && images.Keys == Used(s.m.stacks)
    ensures NextImages(v, s, images, launch) == images[NextPid(s.m) := ImageOf(v, launch.line)]
    ensures NextImages(v, s, images, launch).Keys == Used(AfterLaunch(v, s, launch).m.stacks)
    ensures NextPid(s.m) !in images
  {
    NextHaveImages(v, s, images, launch);
    NoneEnds(images, Entered(NextPid(s.m)), ImageOf(v, launch.line));
  }

  /** Programs, files and images of a terminal as they are while a program f stays on top of the others. */
  lemma Kept(v: Volume, s: State, images: map<nat, seq<byte>>, traps: seq<Trap>, s': State,
             t: nat, stack: seq<Frame>, f: Frame)
    requires Sound(v) && Proper(v, s) && AllCan(v, s, traps) && t < NUM_TERM && stack != []
    requires KeepsAbove(v, s, traps, t, |stack|) && s.m.stacks[t] == stack + [f] && images.Keys == Used(s.m.stacks)
    requires s' == StateAfter(v, s, traps) && Proper(v, s') && |s'.m.stacks[t]| == |stack| + 1
    ensures s'.m.stacks[t] == stack + [f]
    ensures var images', caller := ImagesAfter(v, s, images, traps), stack[|stack| - 1].pid;
      && caller in s.files && caller in s'.files && s'.files[caller] == s.files[caller]
      && caller in images && caller in images' && images'[caller] == images[caller]
      && f.pid in images && f.pid in images' && images'[f.pid] == images[f.pid]
  {
    var d := |stack|;
    CallerKeepsAll(v, s, images, traps, t, d);
    AllOfIt(s'.m.stacks[t], s.m.stacks[t], d + 1);
  }

  lemma AllOfIt(a: seq<Frame>, b: seq<Frame>, n: nat)
    requires |a| == |b| == n && a[..n] == b[..n]
    ensures a == b
  {
    assert a == a[..n] && b == b[..n];
  }

  /** The stack of the terminal when the launched program runs, and what is in the pages and open. */
  lemma KeptAfterLaunch(v: Volume, s: State, images: map<nat, seq<byte>>, launch: Trap, traps: seq<Trap>)
    requires Sound(v) && Proper(v, s) && RunsAfter(v, s, launch, traps) && images.Keys == Used(s.m.stacks)
    ensures var s2 := StateAfter(v, AfterLaunch(v, s, launch), traps);
            var images2 := ImagesAfter(v, AfterLaunch(v, s, launch), NextImages(v, s, images, launch), traps);
            var caller := Running(s.m).pid;
      && s2.m.stacks[s.m.current] == s.m.stacks[s.m.current] + [LaunchedFrame(s, launch)]
      && NextPid(s.m) in images2 && images2[NextPid(s.m)] == ImageOf(v, launch.line)
      && caller in images && caller in images2 && images2[caller] == images[caller]
      && caller in s.files && caller in s2.files && s2.files[caller] == s.files[caller]
  {
    LaunchStack(v, s, launch);
    LaunchImages(v, s, images, launch);
    RunningIsUsed(v, s);
    Kept(v, AfterLaunch(v, s, launch), NextImages(v, s, images, launch), traps,
         StateAfter(v, AfterLaunch(v, s, launch), traps),
         s.m.current, s.m.stacks[s.m.current], LaunchedFrame(s, launch));
  }

  lemma ArgsReplyIs(v: Volume, s: State, nbytes: int)
    requires Sound(v) && Proper(v, s) && IsInt32(nbytes)
    ensures Served(v, AskArgs(nbytes)) && Can(v, s, AskArgs(nbytes))
    ensures ReplyOf(v, s, AskArgs(nbytes)) == ArgsReply(Running(s.m).args, nbytes)
  {
  }

  lemma HaltReplyIs(v: Volume, s: State, last: Trap)
    requires Sound(v) && Proper(v, s) && (last.HaltCall? || last.Exception?) && |s.m.stacks[s.m.current]| > 1
    ensures Served(v, last) && Can(v, s, last) && NextState(v, s, last).m == Popped(s.m)
    ensures var top := Top(s.m, s.m.current);
      ReplyOf(v, s, last) == Went(Returned(top.caller, if last.Exception? || top.tainted then 256 else last.status))
  {
    NestedHaltIs(s.m, EventOf(v, last));
  }

  /** Whenever the program that a command has launched runs, whatever else has been launched, loaded, halted
      and switched meanwhile: it is the file the command names, it gets the arguments of the command from
      getargs, and the program that called execute has its own image and its open files as before. */
  lemma ProgramRuns(v: Volume, s: State, images: map<nat, seq<byte>>, launch: Trap, traps: seq<Trap>, nbytes: int)
    requires Sound(v) && Proper(v, s) && RunsAfter(v, s, launch, traps) && images.Keys == Used(s.m.stacks)
    requires IsInt32(nbytes)
    ensures IsFile(v, ProgramName(launch.line))
    ensures var s2 := StateAfter(v, AfterLaunch(v, s, launch), traps);
            var images2 := ImagesAfter(v, AfterLaunch(v, s, launch), NextImages(v, s, images, launch), traps);
            var pid, caller := Running(s2.m).pid, Running(s.m).pid;
      && pid in images2 && images2[pid] == InPage(FileContent(v, ProgramName(launch.line)))
      && caller in images && caller in images2 && images2[caller] == images[caller]
      && caller in s.files && caller in s2.files && s2.files[caller] == s.files[caller]
    ensures var s2 := StateAfter(v, AfterLaunch(v, s, launch), traps);
      && Served(v, AskArgs(nbytes)) && Can(v, s2, AskArgs(nbytes))
      && ReplyOf(v, s2, AskArgs(nbytes)) ==
           if 0 < |Args(launch.line)| <= nbytes then Gave(0, Args(launch.line) + [0]) else Gave(-1, [])
  {
    LaunchedIsFile(v, launch.line, launch.stack);
    KeptAfterLaunch(v, s, images, launch, traps);
    ArgsReplyIs(v, StateAfter(v, AfterLaunch(v, s, launch), traps), nbytes);
  }

  lemma ReturnIs(v: Volume, s: State, last: Trap, stack: seq<Frame>, f: Frame)
    requires Sound(v) && Proper(v, s) && (last.HaltCall? || last.Exception?) && Served(v, last) && Can(v, s, last)
    requires s.m.stacks[s.m.current] == stack + [f] && stack != []
    ensures ReplyOf(v, s, last) ==
              Went(Returned(f.caller, if last.Exception? || f.tainted then 256 else last.status))
    ensures NextState(v, s, last).m ==
              s.m.(stacks := s.m.stacks[s.m.current := stack], page := stack[|stack| - 1].pid)
  {
    HaltReplyIs(v, s, last);
    PoppedIs(s.m, stack, f);
  }

  lemma PoppedIs(m: Machine, stack: seq<Frame>, f: Frame)
    requires |m.stacks| == NUM_TERM && m.current < NUM_TERM && m.stacks[m.current] == stack + [f] && stack != []
    ensures Live(m, m.current) && Top(m, m.current) == f
    ensures Popped(m) == m.(stacks := m.stacks[m.current := stack], page := stack[|stack| - 1].pid)
  {
    assert (stack + [f])[..|stack|] == stack;
  }

  lemma StackAfterLaunch(v: Volume, s: State, launch: Trap, traps: seq<Trap>, s2: State)
    requires Sound(v) && Proper(v, s) && RunsAfter(v, s, launch, traps)
    requires s2 == StateAfter(v, AfterLaunch(v, s, launch), traps)
    ensures s2.m.stacks[s.m.current] == s.m.stacks[s.m.current] + [LaunchedFrame(s, launch)]
    ensures s2.m.current == s.m.current && s.m.stacks[s.m.current] != []
  {
    KeptAfterLaunch(v, s, map pid | pid in Used(s.m.stacks) :: [], launch, traps);
  }

  /** When that program calls halt, or an exception halts it, the execute that launched it returns, with
      the status or with 256, the programs of its terminal are as they were and those of the others are left
      alone, and the user window shows the page of the program that called execute. */
  lemma ExecuteReturns(v: Volume, s: State, launch: Trap, traps: seq<Trap>, s2: State, last: Trap)
    requires Sound(v) && Proper(v, s) && RunsAfter(v, s, launch, traps)
    requires Proper(v, s2) && s2 == StateAfter(v, AfterLaunch(v, s, launch), traps)
    requires (last.HaltCall? || last.Exception?) && Served(v, last) && Can(v, s2, last)
    ensures ReplyOf(v, s2, last) ==
              Went(Returned(launch.at, if last.Exception? || NextPid(s.m) in s.m.flagged then 256 else last.status))
    ensures NextState(v, s2, last).m ==
              s2.m.(stacks := s2.m.stacks[s.m.current := s.m.stacks[s.m.current]], page := Top(s.m, s.m.current).pid)
  {
    StackAfterLaunch(v, s, launch, traps, s2);
    ReturnIs(v, s2, last, s.m.stacks[s.m.current], LaunchedFrame(s, launch));
  }

  /** A typed command launches the program named by its word, with its argument text, spaces inside it
      included, whenever that program runs. */
  lemma TypedCommandRuns(v: Volume, s: State, images: map<nat, seq<byte>>, indent: seq<byte>, word: seq<byte>,
                         gap: seq<byte>, args: seq<byte>, launch: Trap, traps: seq<Trap>, nbytes: int)
    requires Sound(v) && Proper(v, s) && RunsAfter(v, s, launch, traps) && images.Keys == Used(s.m.stacks)
    requires Blank(indent) && Word(word) && word != [] && Blank(gap) && (args != [] ==> gap != [] && args[0] != SPACE)
    requires launch.line == indent + (word + (gap + args)) && IsInt32(nbytes)
    ensures IsFile(v, word)
    ensures var s2 := StateAfter(v, AfterLaunch(v, s, launch), traps);
            var images2 := ImagesAfter(v, AfterLaunch(v, s, launch), NextImages(v, s, images, launch), traps);
      Running(s2.m).pid in images2 && images2[Running(s2.m).pid] == InPage(FileContent(v, word))
    ensures var s2 := StateAfter(v, AfterLaunch(v, s, launch), traps);
      && Served(v, AskArgs(nbytes)) && Can(v, s2, AskArgs(nbytes))
      && ReplyOf(v, s2, AskArgs(nbytes)) == if 0 < |args| <= nbytes then Gave(0, args + [0]) else Gave(-1, [])
  {
    ParseOfAssembled(indent, word, gap, args);
    ProgramRuns(v, s, images, launch, traps, nbytes);
  }
}
