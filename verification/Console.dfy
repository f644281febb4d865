/**
  Descriptor 0: the line a program reads is the one typed on its terminal.
 */
module Console {
  import opened Common
  import opened Descriptors
  import opened Machine
  import opened FileSystem
  import opened Calls
  import Sessions
  import Terminal
  import Kernel

  /** A line is typed, or already entered, and lands in a buffer of the driver. */
  method AskTerminal(t: Terminal.Terminal, ss: seq<Sessions.Stroke>, nbytes: nat) returns (answer: Answer)
    requires t.Valid() && t.history.Valid() && Sessions.IsEditing(Sessions.Shown(t))
    requires Sessions.AllPossible(Sessions.Asked(Sessions.Shown(t)), ss)
    requires Sessions.Typed(Sessions.Asked(Sessions.Shown(t)), ss).entered
    modifies t`idx, t`enterFlag, t`readWanted, t.keyBuf, t.screen, t.screen.vm.phys, t.history, t.history.hist
    ensures t.Valid() && t.history.Valid()
    ensures var r := Sessions.Typed(Sessions.Asked(old(Sessions.Shown(t))), ss);
      && answer == Answer(Min(nbytes, |r.line|), r.line[..Min(nbytes, |r.line|)])
      && Sessions.Shown(t) == r.(line := [], wanted := false, entered := false)
  {
    var buf := new byte[nbytes];
    var n := Sessions.ReadLine(t, ss, buf, nbytes);
    answer := Answer(n, buf[..n]);
  }

  /** A read of descriptor 0 reads the terminal, in every program. */
  lemma StandardInputIs(v: Volume, files: map<nat, Handles>, pid: nat, nbytes: int, answer: Answer,
                        before: seq<byte>, ret: int, after: seq<byte>, files': map<nat, Handles>)
    requires Sound(v) && pid in files && GoodTable(v, files[pid])
    requires IsInt32(nbytes) && nbytes <= |before| && |answer.bytes| <= |before|
    requires ReadCall(v, files, pid, 0, nbytes, answer, before, ret, after, files')
    ensures ret == answer.ret && after == Splice(before, 0, answer.bytes) && files' == files
  {
  }

  /** The same, next to a kernel. */
  method AskBeside(k: Kernel.Kernel, t: Terminal.Terminal, ss: seq<Sessions.Stroke>, buf: array<byte>, nbytes: nat)
    returns (answer: Answer)
    requires t.Valid() && t.history.Valid() && Sessions.IsEditing(Sessions.Shown(t))
    requires Sessions.AllPossible(Sessions.Asked(Sessions.Shown(t)), ss)
    requires Sessions.Typed(Sessions.Asked(Sessions.Shown(t)), ss).entered
    requires buf != t.keyBuf && buf != t.screen.vm.phys && buf != t.history.hist
    modifies t`idx, t`enterFlag, t`readWanted, t.keyBuf, t.screen, t.screen.vm.phys, t.history, t.history.hist
    ensures unchanged(k.procs, k.procs.pcbInUse, k.procs.totalProgs, k.procs.heads, k.procs.pcbs)
    ensures unchanged(k.fds, k.fds.tables, k.mem, k.mem.pages, buf)
    ensures var r := Sessions.Typed(Sessions.Asked(old(Sessions.Shown(t))), ss);
      answer == Answer(Min(nbytes, |r.line|), r.line[..Min(nbytes, |r.line|)])
  {
    answer := AskTerminal(t, ss, nbytes);
  }

  /** read(0, buf, nbytes) of the running program, on the terminal t that it runs on, with everything
      typed and printed until it goes on: the buffer gets the first nbytes of what the strokes spell,
      behind what was in the key buffer, and no descriptor changes. */
  method ReadStandardInput(k: Kernel.Kernel, t: Terminal.Terminal, ss: seq<Sessions.Stroke>, buf: array<byte>,
                           nbytes: nat)
    returns (ret: int)
    requires k.Valid() && WellFormed(k.procs.m) && IsInt32(nbytes) && nbytes <= buf.Length
    requires t.Valid() && t.history.Valid() && Sessions.IsEditing(Sessions.Shown(t))
    requires Sessions.AllPossible(Sessions.Asked(Sessions.Shown(t)), ss)
    requires Sessions.Typed(Sessions.Asked(Sessions.Shown(t)), ss).entered
    requires buf != t.keyBuf && buf != t.screen.vm.phys && buf != t.history.hist
    modifies t`idx, t`enterFlag, t`readWanted, t.keyBuf, t.screen, t.screen.vm.phys, t.history, t.history.hist
    modifies k.fds, k.fds.tables, buf
    ensures k.Valid() && k.fds.handles == old(k.fds.handles) && k.procs.m == old(k.procs.m)
    ensures var r := Sessions.Typed(Sessions.Asked(old(Sessions.Shown(t))), ss);
      && ret == Min(nbytes, |r.line|)
      && buf[..] == Splice(old(buf[..]), 0, r.line[..ret])
  {
    var answer := AskBeside(k, t, ss, buf, nbytes);
    ret := Deliver(k, buf, nbytes, answer);
  }

  method Deliver(k: Kernel.Kernel, buf: array<byte>, nbytes: nat, answer: Answer) returns (ret: int)
    requires k.Valid() && WellFormed(k.procs.m) && IsInt32(nbytes) && |answer.bytes| <= nbytes <= buf.Length
    modifies k.fds, k.fds.tables, buf
    ensures k.Valid() && k.fds.handles == old(k.fds.handles) && k.procs.m == old(k.procs.m)
    ensures ret == answer.ret && buf[..] == Splice(old(buf[..]), 0, answer.bytes)
  {
    ret := CallRead(k, buf, nbytes, answer);
    assert k.ImagesFit() == old(k.ImagesFit());
  }

  method CallRead(k: Kernel.Kernel, buf: array<byte>, nbytes: nat, answer: Answer) returns (ret: int)
    requires k.FilesValid() && WellFormed(k.procs.m) && IsInt32(nbytes) && |answer.bytes| <= nbytes <= buf.Length
    modifies k.fds, k.fds.tables, buf
    ensures k.FilesValid() && k.fds.handles == old(k.fds.handles) && k.procs.m == old(k.procs.m)
    ensures ret == answer.ret && buf[..] == Splice(old(buf[..]), 0, answer.bytes)
  {
    k.ValidIsProper();
    RunningIsUsed(k.disk.vol, k.Now());
    ghost var pid, files, before := Running(k.procs.m).pid, k.fds.handles, buf[..];
    ret := k.Read(0, buf, nbytes, answer);
    StandardInputIs(k.disk.vol, files, pid, nbytes, answer, before, ret, buf[..], k.fds.handles);
  }
}
