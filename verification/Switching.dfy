/**
  terminal_switch as a whole: the display and the processes change together.
 */
module Switching {
  import opened Common
  import opened Layout
  import opened Machine
  import opened Descriptors
  import opened Loader
  import Screen
  import Display
  import Kernel

  /** The process half. */
  method Schedule(k: Kernel.Kernel, d: Display.Display, dest: nat, at: Ctx, launch: Ctx) returns (o: Outcome)
    requires k.Valid() && WellFormed(k.procs.m) && Possible(k.procs.m, SwitchTo(dest, at, launch))
    modifies k.procs, k.procs.pcbInUse, k.procs.totalProgs, k.procs.heads, k.procs.pcbs
    modifies k.fds, k.fds.tables, k.mem, k.mem.pages
    ensures k.Valid() && (k.procs.m, o) == Step(old(k.procs.m), SwitchTo(dest, at, launch))
    ensures o.Entered? ==> k.fds.handles == old(k.fds.handles)[o.pid := LAUNCHED]
    ensures !o.Entered? ==> k.fds.handles == old(k.fds.handles)
    ensures unchanged(d.screens, d.vm, d.vm.pageTable, d.vm.phys)
  {
    o := k.TerminalSwitch(dest, at, launch);
  }

  /** The switch is carried out: another terminal is asked for, and it runs something or a pid is free
      for its shell. */
  ghost predicate Goes(m: Machine, dest: nat)
    requires |m.stacks| == NUM_TERM
  {
    dest != m.viewing && (Live(m, dest) || Total(m.stacks) < MAX_NUM_PROC)
  }

  lemma ViewAfter(m: Machine, dest: nat, at: Ctx, launch: Ctx)
    requires WellFormed(m) && Possible(m, SwitchTo(dest, at, launch))
    ensures Step(m, SwitchTo(dest, at, launch)).0.viewing == if Goes(m, dest) then dest else m.viewing
  {
    FullIffCount(m);
  }

  /** What terminal t shows afterwards. */
  ghost function ShownAfter(m: Machine, dest: nat, t: nat, s: Screen.Screen, color: byte): Screen.Screen
    requires |m.stacks| == NUM_TERM && Screen.IsScreen(s)
  {
    Display.ShownAfter(m.viewing, dest, m.current, !Goes(m, dest), !Live(m, dest), t, s, color)
  }

  /** Both halves stay in step: the terminal in view is the same for the processes and for the display,
      every terminal keeps its screen, and only one that is opened starts with a cleared one.  A switch
      that is refused changes nothing but the screen of the terminal that runs, which gets the message.
      The shell that a terminal opens with stays within its page and leaves all screens alone. */
  method TerminalSwitch(k: Kernel.Kernel, d: Display.Display, dest: nat, at: Ctx, launch: Ctx) returns (o: Outcome)
    requires k.Valid() && WellFormed(k.procs.m) && Possible(k.procs.m, SwitchTo(dest, at, launch))
    requires d.Valid() && d.vm.viewing == k.procs.m.viewing
    modifies k.procs, k.procs.pcbInUse, k.procs.totalProgs, k.procs.heads, k.procs.pcbs
    modifies k.fds, k.fds.tables, k.mem, k.mem.pages
    modifies d.screens, d.vm, d.vm.pageTable, d.vm.phys
    ensures k.Valid() && (k.procs.m, o) == Step(old(k.procs.m), SwitchTo(dest, at, launch))
    ensures o.Entered? ==> k.fds.handles == old(k.fds.handles)[o.pid := LAUNCHED]
    ensures !o.Entered? ==> k.fds.handles == old(k.fds.handles)
    ensures d.Valid() && d.vm.viewing == k.procs.m.viewing
    ensures LeavesScreens(FileContent(k.disk.vol, SHELL))
    ensures forall t :: 0 <= t < NUM_TERM ==>
              d.Shows(t) == ShownAfter(old(k.procs.m), dest, t, old(d.Shows(t)), d.screens[t].color)
  {
    ShellLeavesScreens(k.disk.vol);
    ViewAfter(k.procs.m, dest, at, launch);
    DisplaySwitch(k, d, dest);
    o := Schedule(k, d, dest, at, launch);
  }

  method DisplaySwitch(k: Kernel.Kernel, d: Display.Display, dest: nat)
    requires k.procs.Valid() && dest < NUM_TERM && d.Valid() && d.vm.viewing == k.procs.m.viewing
    modifies d.screens, d.vm, d.vm.pageTable, d.vm.phys
    ensures d.Valid() && d.vm.viewing == if Goes(k.procs.m, dest) then dest else k.procs.m.viewing
    ensures forall t :: 0 <= t < NUM_TERM ==>
              d.Shows(t) == ShownAfter(k.procs.m, dest, t, old(d.Shows(t)), d.screens[t].color)
    ensures unchanged(k.procs, k.procs.pcbInUse, k.procs.totalProgs, k.procs.heads, k.procs.pcbs)
    ensures unchanged(k.fds, k.fds.tables, k.mem, k.mem.pages)
  {
    var allowed, empty := k.MaySwitch(dest);
    d.Open(dest, k.procs.currentTerm, !allowed, empty);
  }
}
