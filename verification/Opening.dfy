/**
  From open to the last read: what the type of a directory entry has to do with what a descriptor
  delivers, over whole runs of traps.
 */
module Opening {
  import opened Common
  import opened FileSystem
  import opened Descriptors
  import opened Machine
  import opened Calls
  import Streams

  /** The name resolves to a directory entry of this type. */
  ghost predicate HasType(v: Volume, name: seq<byte>, filetype: int)
    requires IsVolume(v)
  {
    Lookup(v, name) < 63 && v.entries[Lookup(v, name)].filetype == filetype
  }

  /** An open takes the lowest descriptor from 2 to 7 that is free, and fails only without one or if the
      name has none of the three types. */
  lemma OpenReturnsIs(v: Volume, mine: Handles, name: seq<byte>)
    requires Sound(v)
    ensures var fd := OpenReturns(v, mine, name);
      if (HasType(v, name, 0) || HasType(v, name, 1) || HasType(v, name, 2)) && exists k :: 2 <= k < 8 && k !in mine
      then 2 <= fd < 8 && fd !in mine && forall k :: 2 <= k < fd ==> k in mine
      else fd == -1
  {
  }

  /** The program that runs has opened a name in state s, and got descriptor fd. */
  ghost predicate HasOpened(v: Volume, s: State, name: seq<byte>, fd: int)
    requires Sound(v) && Proper(v, s)
  {
    && Served(v, OpenFile(name)) && Can(v, s, OpenFile(name))
    && ReplyOf(v, s, OpenFile(name)) == Gave(fd, []) && fd != -1
  }

  ghost function AfterOpen(v: Volume, s: State, name: seq<byte>): (r: State)
    requires Sound(v) && Proper(v, s) && Served(v, OpenFile(name)) && Can(v, s, OpenFile(name))
    ensures Proper(v, r) && r.m == s.m
  {
    NextIsProper(v, s, OpenFile(name));
    NextState(v, s, OpenFile(name))
  }

  /** What the new descriptor is, by the type of the entry: clock, directory or file. */
  lemma OpenedIs(v: Volume, s: State, name: seq<byte>, fd: int)
    requires Sound(v) && Proper(v, s) && HasOpened(v, s, name, fd)
    ensures var pid, files := Running(s.m).pid, AfterOpen(v, s, name).files;
      && pid in s.files && pid in files && files == s.files[pid := files[pid]]
      && fd !in s.files[pid] && fd in files[pid] && files[pid] == s.files[pid][fd := files[pid][fd]]
      && (HasType(v, name, 0) ==> files[pid][fd] == Rtc)
      && (HasType(v, name, 1) ==> files[pid][fd] == Directory(0))
      && (HasType(v, name, 2) ==> files[pid][fd] == if IsFile(v, name) then File(name, 0) else Damaged(name, 0))
  {
    RunningIsUsed(v, s);
  }

  lemma ClosedAgain(files: map<nat, Handles>, pid: nat, fd: int, h: Handle)
    requires pid in files && fd !in files[pid] && 2 <= fd < 8
    ensures var after := files[pid := files[pid][fd := h]];
      CloseReturns(after[pid], fd) == 0 && FilesAfterClose(after, pid, fd) == files
  {
    assert files[pid][fd := h] - {fd} == files[pid];
  }

  /** A close undoes the open that gave the descriptor. */
  lemma CloseUndoesOpen(v: Volume, s: State, name: seq<byte>, fd: int)
    requires Sound(v) && Proper(v, s) && HasOpened(v, s, name, fd)
    ensures var s1 := AfterOpen(v, s, name);
      && Served(v, CloseFile(fd)) && Can(v, s1, CloseFile(fd))
      && ReplyOf(v, s1, CloseFile(fd)) == Gave(0, []) && NextState(v, s1, CloseFile(fd)) == s
  {
    RunningIsUsed(v, s);
    OpenReturnsIs(v, s.files[Running(s.m).pid], name);
    ClosedAgain(s.files, Running(s.m).pid, fd, OpenedHandle(v, name));
  }

  // ---------- type 1: the directory ----------

  /** The reads of a descriptor for an entry of type 1 deliver every name, from the first on and in order,
      and then nothing. */
  lemma OpenedDirectoryLists(v: Volume, s: State, name: seq<byte>, fd: int, traps: seq<Trap>)
    requires Sound(v) && Proper(v, s) && HasOpened(v, s, name, fd) && HasType(v, name, 1)
    requires var pid, s1 := Running(s.m).pid, AfterOpen(v, s, name);
      AllCan(v, s1, traps) && KeepsOpen(v, s1, traps, pid, fd) && LargeReads(v, s1, traps, pid, fd)
    ensures var names := Answers(v, AfterOpen(v, s, name), traps, Running(s.m).pid, fd);
      forall k :: 0 <= k < |names| ==> names[k] == if k < v.dirCount then Name(v, k) else []
  {
    var pid, s1 := Running(s.m).pid, AfterOpen(v, s, name);
    OpenedIs(v, s, name, fd);
    RunListsDirectory(v, s1, traps, pid, fd, 0);
    var names := Answers(v, s1, traps, pid, fd);
    forall k | 0 <= k < |names| ensures names[k] == if k < v.dirCount then Name(v, k) else [] {
      assert names[k] == Streams.NameAt(v, 0 + k);
    }
  }

  // ---------- type 2: files ----------

  /** The reads of a descriptor for an entry of type 2 deliver the file of that entry from its start. */
  lemma OpenedFileDelivers(v: Volume, s: State, name: seq<byte>, fd: int, traps: seq<Trap>) returns (last: nat)
    requires Sound(v) && Proper(v, s) && HasOpened(v, s, name, fd) && HasType(v, name, 2)
    requires FileOk(v, InodeOf(v, name))
    requires AllCan(v, AfterOpen(v, s, name), traps)
    requires KeepsOpen(v, AfterOpen(v, s, name), traps, Running(s.m).pid, fd)
    ensures last <= |Content(v, InodeOf(v, name))|
    ensures Obtained(v, AfterOpen(v, s, name), traps, Running(s.m).pid, fd) == Content(v, InodeOf(v, name))[..last]
  {
    var pid, s1 := Running(s.m).pid, AfterOpen(v, s, name);
    OpenedIs(v, s, name, fd);
    last := RunDeliversContent(v, s1, traps, pid, fd, name, 0);
  }

  /** One read gets what it asks for, or the whole rest. */
  lemma ReadIs(v: Volume, s: State, fd: int, nbytes: nat, driver: Answer, name: seq<byte>, pos: nat)
    requires Sound(v) && Proper(v, s) && Served(v, ReadFile(fd, nbytes, driver))
    requires Streams.AtFile(v, s.files, Running(s.m).pid, fd, name, pos)
    ensures Can(v, s, ReadFile(fd, nbytes, driver))
    ensures var c := FileContent(v, name);
            var n := if nbytes <= |c| - pos then nbytes else |c| - pos;
      ReplyOf(v, s, ReadFile(fd, nbytes, driver)) == Gave(n, c[pos..pos + n])
  {
    RunningIsUsed(v, s);
  }

  // ---------- type 0: the clock ----------

  ghost predicate AtClock(files: map<nat, Handles>, pid: nat, fd: int) {
    pid in files && fd in files[pid] && files[pid][fd] == Rtc
  }

  /** Every read of descriptor fd by program pid gets what the driver of the device answers. */
  ghost predicate DriverAnswers(v: Volume, s: State, traps: seq<Trap>, pid: nat, fd: int)
    requires Sound(v) && Proper(v, s) && AllCan(v, s, traps)
    decreases |traps|
  {
    traps != [] ==>
      && (OwnRead(s, traps[0], pid, fd) ==>
            ReplyOf(v, s, traps[0]) == Gave(traps[0].driver.ret, traps[0].driver.bytes))
      && (NextIsProper(v, s, traps[0]); DriverAnswers(v, NextState(v, s, traps[0]), traps[1..], pid, fd))
  }

  lemma ClockStays(v: Volume, s: State, trap: Trap, pid: nat, fd: int)
    requires Sound(v) && Proper(v, s) && Served(v, trap) && Can(v, s, trap)
    requires AtClock(s.files, pid, fd) && !GivesUp(s, trap, pid, fd)
    ensures AtClock(NextState(v, s, trap).files, pid, fd)
    ensures OwnRead(s, trap, pid, fd) ==> ReplyOf(v, s, trap) == Gave(trap.driver.ret, trap.driver.bytes)
  {
    if pid != Running(s.m).pid {
      OthersKeepFiles(v, s, trap, pid);
    } else if IsFileCall(trap) {
      RunningIsUsed(v, s);
    } else {
      EventKeepsFiles(s, EventOf(v, trap), pid);
    }
  }

  lemma {:induction false} ClockAnswers(v: Volume, s: State, traps: seq<Trap>, pid: nat, fd: int)
    requires Sound(v) && Proper(v, s) && AllCan(v, s, traps) && KeepsOpen(v, s, traps, pid, fd)
    requires AtClock(s.files, pid, fd)
    ensures DriverAnswers(v, s, traps, pid, fd)
    decreases |traps|
  {
    if traps != [] {
      NextIsProper(v, s, traps[0]);
      ClockStays(v, s, traps[0], pid, fd);
      ClockAnswers(v, NextState(v, s, traps[0]), traps[1..], pid, fd);
    }
  }

  /** The reads of a descriptor for an entry of type 0 get what the clock answers. */
  lemma OpenedClockAnswers(v: Volume, s: State, name: seq<byte>, fd: int, traps: seq<Trap>)
    requires Sound(v) && Proper(v, s) && HasOpened(v, s, name, fd) && HasType(v, name, 0)
    requires AllCan(v, AfterOpen(v, s, name), traps)
    requires KeepsOpen(v, AfterOpen(v, s, name), traps, Running(s.m).pid, fd)
    ensures DriverAnswers(v, AfterOpen(v, s, name), traps, Running(s.m).pid, fd)
  {
    OpenedIs(v, s, name, fd);
    ClockAnswers(v, AfterOpen(v, s, name), traps, Running(s.m).pid, fd);
  }
}
