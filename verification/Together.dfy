/**
  Programs, files and screens over one run: what every trap and every character written does to the
  kernel and to the display together.
 */
module Together {
  import opened Common
  import opened CommandLine
  import opened FileSystem
  import opened Descriptors
  import opened Loader
  import opened Layout
  import opened Machine
  import opened Calls
  import opened Screen
  import Display
  import Kernel
  import Switching

  /** A trap, or something written on, erased from or cleared on a terminal, by a program, a key or a
      message of the kernel. */
  datatype Input = Call(trap: Trap) | Written(term: nat, op: Op)

  /** No program is loaded beyond its own page, over the screens. */
  ghost predicate Contained(v: Volume, trap: Trap)
    requires Sound(v) && Served(v, trap)
  {
    trap.ExecuteCall? && Executable(v, ProgramName(trap.line), trap.stack) ==>
      v.inodes[InodeOf(v, ProgramName(trap.line))].length <= PAGE_ROOM
  }

  ghost predicate CanDo(v: Volume, s: State, i: Input)
    requires Sound(v) && Proper(v, s)
  {
    match i
    case Call(trap) => Served(v, trap) && Can(v, s, trap) && Contained(v, trap)
    case Written(term, _) => term < NUM_TERM
  }

  ghost function NextOf(v: Volume, s: State, i: Input): (r: State)
    requires Sound(v) && Proper(v, s) && CanDo(v, s, i)
    ensures Proper(v, r)
  {
    if i.Call? then
      NextIsProper(v, s, i.trap);
      NextState(v, s, i.trap)
    else s
  }

  /** What a terminal switch does to the display: the view moves, or a message is printed, and a
      terminal that opens is cleared. */
  ghost function SwitchEvents(m: Machine, dest: nat): seq<Display.Event>
    requires |m.stacks| == NUM_TERM
  {
    [Display.View(dest, m.current, !Switching.Goes(m, dest))]
    + if Switching.Goes(m, dest) && !Live(m, dest) then [Display.On(dest, ClearOp)] else []
  }

  ghost function EventsOn(m: Machine, i: Input): seq<Display.Event>
    requires |m.stacks| == NUM_TERM
  {
    match i
    case Call(trap) => if trap.SwitchKey? then SwitchEvents(m, trap.dest) else []
    case Written(term, op) => [Display.On(term, op)]
  }

  ghost predicate AllCanDo(v: Volume, s: State, ins: seq<Input>)
    requires Sound(v) && Proper(v, s)
    decreases |ins|
  {
    ins != [] ==> CanDo(v, s, ins[0]) && AllCanDo(v, NextOf(v, s, ins[0]), ins[1..])
  }

  ghost function Ends(v: Volume, s: State, ins: seq<Input>): (r: State)
    requires Sound(v) && Proper(v, s) && AllCanDo(v, s, ins)
    ensures Proper(v, r)
    decreases |ins|
  {
    if ins == [] then s else Ends(v, NextOf(v, s, ins[0]), ins[1..])
  }

  /** The events of a run on the display. */
  ghost function DisplayRun(v: Volume, s: State, ins: seq<Input>): seq<Display.Event>
    requires Sound(v) && Proper(v, s) && AllCanDo(v, s, ins)
    decreases |ins|
  {
    if ins == [] then [] else EventsOn(s.m, ins[0]) + DisplayRun(v, NextOf(v, s, ins[0]), ins[1..])
  }

  // ---------- shares ----------

  lemma {:induction false} MineSplits(a: seq<Display.Event>, b: seq<Display.Event>, viewing: nat, t: nat)
    ensures Display.Mine(a + b, viewing, t) ==
              Display.Mine(a, viewing, t) + Display.Mine(b, Display.Viewed(a, viewing), t)
    decreases |a|
  {
    if a == [] {
      assert a + b == b;
    } else {
      assert (a + b)[1..] == a[1..] + b;
      MineSplits(a[1..], b, Display.Next(a[0], viewing), t);
    }
  }

  /** What terminal t shows after some events is what its share of them leads to. */
  ghost predicate Led(es: seq<Display.Event>, viewing: nat, t: nat, s: Screen, s': Screen, color: byte)
    requires IsScreen(s)
  {
    AllAllowed(s, Display.Mine(es, viewing, t), color) && s' == ScreenRun(s, Display.Mine(es, viewing, t), color)
  }

  lemma OneLed(e: Display.Event, viewing: nat, t: nat, s: Screen, s': Screen, color: byte)
    requires IsScreen(s) && Display.Shown(e, viewing, t, s, s', color)
    ensures Led([e], viewing, t, s, s', color)
    ensures Display.Viewed([e], viewing) == Display.Next(e, viewing)
  {
    MineOfOne(e, viewing, t);
  }

  lemma MineOfOne(e: Display.Event, viewing: nat, t: nat)
    ensures Display.Mine([e], viewing, t) == Display.Share(e, viewing, t)
    ensures Display.Viewed([e], viewing) == Display.Next(e, viewing)
  {
    assert [e][1..] == [];
    assert Display.Share(e, viewing, t) + [] == Display.Share(e, viewing, t);
  }

  lemma {:induction false} RunsOn(s: Screen, first: seq<Op>, rest: seq<Op>, color: byte)
    requires IsScreen(s) && AllAllowed(s, first, color) && AllAllowed(ScreenRun(s, first, color), rest, color)
    ensures AllAllowed(s, first + rest, color)
    ensures ScreenRun(s, first + rest, color) == ScreenRun(ScreenRun(s, first, color), rest, color)
    decreases |first|
  {
    if first == [] {
      assert first + rest == rest;
    } else {
      assert (first + rest)[1..] == first[1..] + rest;
      RunsOn(ScreenStep(s, first[0], color), first[1..], rest, color);
    }
  }

  lemma LedOn(a: seq<Display.Event>, b: seq<Display.Event>, viewing: nat, t: nat,
              s: Screen, s1: Screen, s2: Screen, color: byte)
    requires IsScreen(s) && IsScreen(s1) && Led(a, viewing, t, s, s1, color)
    requires Led(b, Display.Viewed(a, viewing), t, s1, s2, color)
    ensures Led(a + b, viewing, t, s, s2, color)
  {
    MineSplits(a, b, viewing, t);
    RunsOn(s, Display.Mine(a, viewing, t), Display.Mine(b, Display.Viewed(a, viewing), t), color);
  }

  lemma SwitchIsLed(m: Machine, dest: nat, t: nat, s: Screen, color: byte)
    requires |m.stacks| == NUM_TERM && IsScreen(s)
    ensures Led(SwitchEvents(m, dest), m.viewing, t, s, Switching.ShownAfter(m, dest, t, s, color), color)
    ensures Display.Viewed(SwitchEvents(m, dest), m.viewing) == if Switching.Goes(m, dest) then dest else m.viewing
  {
    var view := Display.View(dest, m.current, !Switching.Goes(m, dest));
    var s1 := Display.ShownAfter(m.viewing, dest, m.current, !Switching.Goes(m, dest), false, t, s, color);
    Display.ShareIs(view, m.viewing, t, s, color);
    OneLed(view, m.viewing, t, s, s1, color);
    if Switching.Goes(m, dest) && !Live(m, dest) {
      var clear := Display.On(dest, ClearOp);
      var s2 := if t == dest then Cleared(color) else s1;
      Display.ShareIs(clear, dest, t, s1, color);
      OneLed(clear, dest, t, s1, s2, color);
      LedOn([view], [clear], m.viewing, t, s, s1, s2, color);
      ViewedOn([view], [clear], m.viewing);
    } else {
      assert [view] + [] == [view];
    }
  }

  lemma {:induction false} ViewedOn(a: seq<Display.Event>, b: seq<Display.Event>, viewing: nat)
    ensures Display.Viewed(a + b, viewing) == Display.Viewed(b, Display.Viewed(a, viewing))
    decreases |a|
  {
    if a == [] {
      assert a + b == b;
    } else {
      assert (a + b)[1..] == a[1..] + b;
      ViewedOn(a[1..], b, Display.Next(a[0], viewing));
    }
  }

  // ---------- the kernel and the display ----------

  /** What the terminals show, and their colours. */
  ghost function Screens(d: Display.Display): (screens: seq<Screen>)
    requires |d.screens| == NUM_TERM
    reads d.screens
    ensures |screens| == NUM_TERM && forall t :: 0 <= t < NUM_TERM ==> screens[t] == d.Shows(t)
  {
    seq(NUM_TERM, t requires 0 <= t < NUM_TERM reads d.screens => d.Shows(t))
  }

  ghost function Colors(d: Display.Display): (colors: seq<byte>)
    requires |d.screens| == NUM_TERM
    ensures |colors| == NUM_TERM && forall t :: 0 <= t < NUM_TERM ==> colors[t] == d.screens[t].color
  {
    seq(NUM_TERM, t requires 0 <= t < NUM_TERM => d.screens[t].color)
  }

  ghost predicate AreScreens(screens: seq<Screen>, colors: seq<byte>) {
    |screens| == |colors| == NUM_TERM && forall t :: 0 <= t < NUM_TERM ==> IsScreen(screens[t])
  }

  /** Every terminal allows its share of the events. */
  ghost predicate AllAllow(es: seq<Display.Event>, viewing: nat, screens: seq<Screen>, colors: seq<byte>)
    requires AreScreens(screens, colors)
  {
    forall t :: 0 <= t < NUM_TERM ==> AllAllowed(screens[t], Display.Mine(es, viewing, t), colors[t])
  }

  /** What every terminal shows after some events is what its own share of them leads to. */
  ghost predicate AllLed(es: seq<Display.Event>, viewing: nat, before: seq<Screen>, after: seq<Screen>,
                         colors: seq<byte>)
    requires AreScreens(before, colors)
  {
    |after| == NUM_TERM && forall t :: 0 <= t < NUM_TERM ==> Led(es, viewing, t, before[t], after[t], colors[t])
  }

  lemma AllLedOn(a: seq<Display.Event>, b: seq<Display.Event>, viewing: nat,
                 x: seq<Screen>, y: seq<Screen>, z: seq<Screen>, colors: seq<byte>)
    requires AreScreens(x, colors) && AreScreens(y, colors) && AllLed(a, viewing, x, y, colors)
    requires AllLed(b, Display.Viewed(a, viewing), y, z, colors)
    ensures AllLed(a + b, viewing, x, z, colors)
  {
    forall t | 0 <= t < NUM_TERM ensures Led(a + b, viewing, t, x[t], z[t], colors[t]) {
      LedOn(a, b, viewing, t, x[t], y[t], z[t], colors[t]);
    }
  }

  lemma AreShown(d: Display.Display)
    requires d.Valid()
    ensures AreScreens(Screens(d), Colors(d))
  {
  }

  /** Kernel and display agree on the terminal in view. */
  ghost predicate InStep(k: Kernel.Kernel, d: Display.Display)
    reads k.procs, k.procs.pcbInUse, k.procs.totalProgs, k.procs.heads, k.procs.pcbs
    reads k.fds, k.fds.tables, k.mem, k.mem.pages
    reads d.vm, d.vm.pageTable, d.vm.phys, d.screens
  {
    k.Valid() && d.Valid() && d.vm.viewing == k.procs.m.viewing
  }

  method Switch(k: Kernel.Kernel, d: Display.Display, dest: nat, at: Ctx, launch: Ctx)
    requires InStep(k, d) && WellFormed(k.procs.m) && Possible(k.procs.m, SwitchTo(dest, at, launch))
    modifies k.procs, k.procs.pcbInUse, k.procs.totalProgs, k.procs.heads, k.procs.pcbs
    modifies k.fds, k.fds.tables, k.mem, k.mem.pages
    modifies d.screens, d.vm, d.vm.pageTable, d.vm.phys
    ensures InStep(k, d) && k.procs.m == Step(old(k.procs.m), SwitchTo(dest, at, launch)).0
    ensures k.fds.handles == FilesAfterEvent(old(k.fds.handles), old(k.procs.m), SwitchTo(dest, at, launch))
    ensures d.vm.viewing == Display.Viewed(SwitchEvents(old(k.procs.m), dest), old(d.vm.viewing))
    ensures AreScreens(old(Screens(d)), Colors(d))
    ensures AllLed(SwitchEvents(old(k.procs.m), dest), old(d.vm.viewing), old(Screens(d)), Screens(d), Colors(d))
  {
    AreShown(d);
    Switching.ViewAfter(k.procs.m, dest, at, launch);
    var o := Switching.TerminalSwitch(k, d, dest, at, launch);
    NothingEnds(old(k.fds.handles), o);
    AllSwitchLed(old(k.procs.m), dest, old(Screens(d)), Screens(d), Colors(d));
  }

  lemma AllSwitchLed(m: Machine, dest: nat, before: seq<Screen>, after: seq<Screen>, colors: seq<byte>)
    requires |m.stacks| == NUM_TERM && AreScreens(before, colors) && |after| == NUM_TERM
    requires forall t :: 0 <= t < NUM_TERM ==>
               after[t] == Switching.ShownAfter(m, dest, t, before[t], colors[t])
    ensures AllLed(SwitchEvents(m, dest), m.viewing, before, after, colors)
    ensures Display.Viewed(SwitchEvents(m, dest), m.viewing) == if Switching.Goes(m, dest) then dest else m.viewing
  {
    forall t | 0 <= t < NUM_TERM ensures Led(SwitchEvents(m, dest), m.viewing, t, before[t], after[t], colors[t]) {
      SwitchIsLed(m, dest, t, before[t], colors[t]);
    }
    SwitchIsLed(m, dest, 0, before[0], colors[0]);
  }

  lemma SwitchTrapIs(v: Volume, s: State, trap: Trap)
    requires Sound(v) && Proper(v, s) && Served(v, trap) && trap.SwitchKey? && Can(v, s, trap)
    ensures var e := SwitchTo(trap.dest, trap.at, trap.launch);
      Possible(s.m, e) && NextState(v, s, trap) == State(Step(s.m, e).0, FilesAfterEvent(s.files, s.m, e))
  {
  }

  lemma NoneLed(viewing: nat, before: seq<Screen>, after: seq<Screen>, colors: seq<byte>)
    requires AreScreens(before, colors) && |after| == NUM_TERM
    requires forall t :: 0 <= t < NUM_TERM ==> after[t] == before[t]
    ensures AllLed([], viewing, before, after, colors)
  {
  }

  method Serve(k: Kernel.Kernel, d: Display.Display, trap: Trap)
    requires k.Valid() && Proper(k.disk.vol, k.Now())
    requires Served(k.disk.vol, trap) && Can(k.disk.vol, k.Now(), trap)
    modifies k.procs, k.procs.pcbInUse, k.procs.totalProgs, k.procs.heads, k.procs.pcbs
    modifies k.fds, k.fds.tables, k.mem, k.mem.pages
    ensures k.Valid() && k.Now() == NextState(k.disk.vol, old(k.Now()), trap)
    ensures unchanged(d.vm, d.vm.pageTable, d.vm.phys)
    ensures forall s :: s in d.screens ==> unchanged(s)
  {
    k.Advance(trap);
  }

  /** Any other trap leaves the display alone: programs are loaded into their own pages only. */
  method Pass(k: Kernel.Kernel, d: Display.Display, trap: Trap)
    requires InStep(k, d) && Proper(k.disk.vol, k.Now()) && !trap.SwitchKey?
    requires Served(k.disk.vol, trap) && Can(k.disk.vol, k.Now(), trap)
    modifies k.procs, k.procs.pcbInUse, k.procs.totalProgs, k.procs.heads, k.procs.pcbs
    modifies k.fds, k.fds.tables, k.mem, k.mem.pages
    ensures InStep(k, d) && k.Now() == NextState(k.disk.vol, old(k.Now()), trap)
    ensures d.vm.viewing == old(d.vm.viewing) && AreScreens(old(Screens(d)), Colors(d))
    ensures AllLed([], d.vm.viewing, old(Screens(d)), Screens(d), Colors(d))
  {
    ViewStays(k.disk.vol, k.Now(), trap);
    AreShown(d);
    Serve(k, d, trap);
    assert unchanged(d.screens, d.vm, d.vm.pageTable, d.vm.phys);
    NoneLed(d.vm.viewing, old(Screens(d)), Screens(d), Colors(d));
  }

  lemma ViewStays(v: Volume, s: State, trap: Trap)
    requires Sound(v) && Proper(v, s) && Served(v, trap) && Can(v, s, trap) && !trap.SwitchKey?
    ensures NextState(v, s, trap).m.viewing == s.m.viewing
  {
    if !IsFileCall(trap) && EventOf(v, trap).Execute? {
      ExecuteShape(s.m, EventOf(v, trap));
    }
  }

  /** One input. */
  method Take(k: Kernel.Kernel, d: Display.Display, i: Input)
    requires InStep(k, d) && Proper(k.disk.vol, k.Now()) && CanDo(k.disk.vol, k.Now(), i)
    requires i.Written? ==> Allowed(d.Shows(i.term), i.op)
    modifies k.procs, k.procs.pcbInUse, k.procs.totalProgs, k.procs.heads, k.procs.pcbs
    modifies k.fds, k.fds.tables, k.mem, k.mem.pages
    modifies d.screens, d.vm, d.vm.pageTable, d.vm.phys
    ensures InStep(k, d) && k.Now() == NextOf(k.disk.vol, old(k.Now()), i)
    ensures d.vm.viewing == Display.Viewed(EventsOn(old(k.procs.m), i), old(d.vm.viewing))
    ensures AreScreens(old(Screens(d)), Colors(d))
    ensures AllLed(EventsOn(old(k.procs.m), i), old(d.vm.viewing), old(Screens(d)), Screens(d), Colors(d))
  {
    match i
    case Call(trap) =>
      if trap.SwitchKey? {
        SwitchTrapIs(k.disk.vol, k.Now(), trap);
        Switch(k, d, trap.dest, trap.at, trap.launch);
      } else {
        Pass(k, d, trap);
      }
    case Written(term, op) =>
      Write(k, d, term, op);
  }

  method Draw(k: Kernel.Kernel, d: Display.Display, term: nat, op: Op)
    requires k.Valid() && d.Valid() && term < NUM_TERM && Allowed(d.Shows(term), op)
    modifies d.screens, d.vm, d.vm.pageTable, d.vm.phys
    ensures k.Valid() && k.Now() == old(k.Now())
    ensures d.Valid() && d.vm.viewing == old(d.vm.viewing)
    ensures forall t :: 0 <= t < NUM_TERM ==>
              Display.Shown(Display.On(term, op), d.vm.viewing, t, old(d.Shows(t)), d.Shows(t), d.screens[t].color)
  {
    d.Perform(Display.On(term, op));
    assert unchanged(k.procs, k.procs.pcbInUse, k.procs.totalProgs, k.procs.heads, k.procs.pcbs);
    assert unchanged(k.fds, k.fds.tables, k.mem, k.mem.pages);
  }

  method Write(k: Kernel.Kernel, d: Display.Display, term: nat, op: Op)
    requires InStep(k, d) && term < NUM_TERM && Allowed(d.Shows(term), op)
    modifies d.screens, d.vm, d.vm.pageTable, d.vm.phys
    ensures InStep(k, d) && k.Now() == old(k.Now())
    ensures d.vm.viewing == Display.Viewed([Display.On(term, op)], old(d.vm.viewing))
    ensures AreScreens(old(Screens(d)), Colors(d))
    ensures AllLed([Display.On(term, op)], old(d.vm.viewing), old(Screens(d)), Screens(d), Colors(d))
  {
    ghost var e := Display.On(term, op);
    MineOfOne(e, d.vm.viewing, 0);
    Draw(k, d, term, op);
    forall t | 0 <= t < NUM_TERM
      ensures Led([e], old(d.vm.viewing), t, old(d.Shows(t)), d.Shows(t), d.screens[t].color)
    {
      OneLed(e, old(d.vm.viewing), t, old(d.Shows(t)), d.Shows(t), d.screens[t].color);
    }
  }

  lemma FirstAllowed(v: Volume, s: State, ins: seq<Input>, viewing: nat, t: nat, screen: Screen, color: byte)
    requires Sound(v) && Proper(v, s) && AllCanDo(v, s, ins) && ins != [] && IsScreen(screen)
    requires AllAllowed(screen, Display.Mine(DisplayRun(v, s, ins), viewing, t), color)
    ensures var first := EventsOn(s.m, ins[0]);
      && AllAllowed(screen, Display.Mine(first, viewing, t), color)
      && AllAllowed(ScreenRun(screen, Display.Mine(first, viewing, t), color),
                    Display.Mine(DisplayRun(v, NextOf(v, s, ins[0]), ins[1..]), Display.Viewed(first, viewing), t),
                    color)
    ensures ins[0].Written? && ins[0].term == t ==> Allowed(screen, ins[0].op)
  {
    var first, rest := EventsOn(s.m, ins[0]), DisplayRun(v, NextOf(v, s, ins[0]), ins[1..]);
    MineSplits(first, rest, viewing, t);
    Display.RunSplits(screen, Display.Mine(first, viewing, t),
                      Display.Mine(rest, Display.Viewed(first, viewing), t), color);
    if ins[0].Written? && ins[0].term == t {
      MineOfOne(first[0], viewing, t);
      assert Display.Mine(first, viewing, t) == [ins[0].op];
    }
  }

  lemma MayTake(v: Volume, s: State, ins: seq<Input>, viewing: nat, screens: seq<Screen>, colors: seq<byte>)
    requires Sound(v) && Proper(v, s) && AllCanDo(v, s, ins) && ins != [] && AreScreens(screens, colors)
    requires AllAllow(DisplayRun(v, s, ins), viewing, screens, colors)
    ensures ins[0].Written? ==> Allowed(screens[ins[0].term], ins[0].op)
  {
    if ins[0].Written? {
      var t := ins[0].term;
      FirstAllowed(v, s, ins, viewing, t, screens[t], colors[t]);
    }
  }

  lemma RestAllows(v: Volume, s: State, ins: seq<Input>, viewing: nat, x: seq<Screen>, y: seq<Screen>,
                   colors: seq<byte>)
    requires Sound(v) && Proper(v, s) && AllCanDo(v, s, ins) && ins != []
    requires AreScreens(x, colors) && AreScreens(y, colors)
    requires AllAllow(DisplayRun(v, s, ins), viewing, x, colors)
    requires AllLed(EventsOn(s.m, ins[0]), viewing, x, y, colors)
    ensures AllAllow(DisplayRun(v, NextOf(v, s, ins[0]), ins[1..]),
                     Display.Viewed(EventsOn(s.m, ins[0]), viewing), y, colors)
  {
    var rest := DisplayRun(v, NextOf(v, s, ins[0]), ins[1..]);
    forall t | 0 <= t < NUM_TERM
      ensures AllAllowed(y[t], Display.Mine(rest, Display.Viewed(EventsOn(s.m, ins[0]), viewing), t), colors[t])
    {
      FirstAllowed(v, s, ins, viewing, t, x[t], colors[t]);
    }
  }

  /**
    One run of everything: system calls, exceptions, ticks, terminal keys, output and echo.  The programs
    and their open files end where the specification says, kernel and display agree on the terminal in
    view, and every terminal shows what its own writings, clearings and messages alone make of its screen.
   */
  method Run(k: Kernel.Kernel, d: Display.Display, ins: seq<Input>)
    requires InStep(k, d) && Proper(k.disk.vol, k.Now()) && AllCanDo(k.disk.vol, k.Now(), ins)
    requires AreScreens(Screens(d), Colors(d))
    requires AllAllow(DisplayRun(k.disk.vol, k.Now(), ins), d.vm.viewing, Screens(d), Colors(d))
    modifies k.procs, k.procs.pcbInUse, k.procs.totalProgs, k.procs.heads, k.procs.pcbs
    modifies k.fds, k.fds.tables, k.mem, k.mem.pages
    modifies d.screens, d.vm, d.vm.pageTable, d.vm.phys
    ensures InStep(k, d) && k.Now() == Ends(k.disk.vol, old(k.Now()), ins)
    ensures AllLed(DisplayRun(k.disk.vol, old(k.Now()), ins), old(d.vm.viewing), old(Screens(d)), Screens(d), Colors(d))
    decreases |ins|
  {
    if ins != [] {
      ghost var s, viewing, v, x := k.Now(), d.vm.viewing, k.disk.vol, Screens(d);
      MayTake(v, s, ins, viewing, x, Colors(d));
      Take(k, d, ins[0]);
      ghost var y := Screens(d);
      AreShown(d);
      RestAllows(v, s, ins, viewing, x, y, Colors(d));
      Run(k, d, ins[1..]);
      AllLedOn(EventsOn(s.m, ins[0]), DisplayRun(v, NextOf(v, s, ins[0]), ins[1..]), viewing,
               x, y, Screens(d), Colors(d));
    }
  }
}
