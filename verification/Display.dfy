/**
  All terminals together on one physical display.
 */
module Display {
  import opened Common
  import opened Screen
  import opened VideoMemory
  import opened TextScreen

  // "Error: Invalid Terminal ID\n"
  const INVALID_ID: seq<byte> := [69, 114, 114, 111, 114, 58, 32, 73, 110, 118, 97, 108, 105, 100, 32, 84, 101, 114,
                                  109, 105, 110, 97, 108, 32, 73, 68, 10]

  // "Error: At process limit\n"
  const AT_LIMIT: seq<byte> := [69, 114, 114, 111, 114, 58, 32, 65, 116, 32, 112, 114, 111, 99, 101, 115, 115, 32,
                                108, 105, 109, 105, 116, 10]

  /** The message of a refused switch. */
  function Message(viewing: nat, dest: nat): seq<byte> {
    if dest == viewing then INVALID_ID else AT_LIMIT
  }

  lemma MessageIs(viewing: nat, dest: nat)
    ensures Message(viewing, dest) ==
              if dest == viewing then Text("Error: Invalid Terminal ID\n") else Text("Error: At process limit\n")
  {
  }

  /** What programs and keys do to the display: write on some terminal, or ask for terminal dest while
      terminal `running` has the processor; `full` says that the process limit forbids to open dest. */
  datatype Event = On(term: nat, op: Op) | View(dest: nat, running: nat, full: bool)

  predicate OfTerminals(e: Event) {
    match e
    case On(term, _) => term < NUM_TERM
    case View(dest, running, _) => dest < NUM_TERM && running < NUM_TERM
  }

  predicate Refused(e: Event, viewing: nat) {
    e.View? && (e.dest == viewing || e.full)
  }

  /** Printing a text. */
  function Prints(text: seq<byte>): seq<Op> {
    if text == [] then [] else [PutOp(text[0])] + Prints(text[1..])
  }

  /** The operations with which e concerns terminal t: the terminal that runs gets the message of a
      refused switch. */
  function Share(e: Event, viewing: nat, t: nat): seq<Op> {
    match e
    case On(term, op) => if term == t then [op] else []
    case View(dest, running, _) => if Refused(e, viewing) && running == t then Prints(Message(viewing, dest)) else []
  }

  /** The terminal in view after an event. */
  function Next(e: Event, viewing: nat): nat {
    if e.View? && !Refused(e, viewing) then e.dest else viewing
  }

  /** The operations of a run that concern terminal t. */
  function Mine(es: seq<Event>, viewing: nat, t: nat): seq<Op>
    decreases |es|
  {
    if es == [] then [] else Share(es[0], viewing, t) + Mine(es[1..], Next(es[0], viewing), t)
  }

  /** The terminal in view after a run. */
  function Viewed(es: seq<Event>, viewing: nat): nat
    decreases |es|
  {
    if es == [] then viewing else Viewed(es[1..], Next(es[0], viewing))
  }

  lemma {:induction false} PrintsIsPutAll(s: Screen, text: seq<byte>, color: byte)
    requires IsScreen(s)
    ensures AllAllowed(s, Prints(text), color) && ScreenRun(s, Prints(text), color) == PutAll(s, text, color)
    decreases |text|
  {
    if text != [] {
      assert Prints(text)[1..] == Prints(text[1..]);
      PrintsIsPutAll(Put(s, text[0], color), text[1..], color);
    }
  }

  lemma {:induction false} RunSplits(s: Screen, first: seq<Op>, rest: seq<Op>, color: byte)
    requires IsScreen(s) && AllAllowed(s, first + rest, color)
    ensures AllAllowed(s, first, color) && AllAllowed(ScreenRun(s, first, color), rest, color)
    ensures ScreenRun(s, first + rest, color) == ScreenRun(ScreenRun(s, first, color), rest, color)
    decreases |first|
  {
    if first == [] {
      assert first + rest == rest;
    } else {
      assert (first + rest)[1..] == first[1..] + rest;
      RunSplits(ScreenStep(s, first[0], color), first[1..], rest, color);
    }
  }

  /** The first event of a run takes its share of the run of terminal t. */
  lemma FirstShare(es: seq<Event>, viewing: nat, t: nat, s: Screen, color: byte)
    requires es != [] && IsScreen(s) && AllAllowed(s, Mine(es, viewing, t), color)
    ensures AllAllowed(s, Share(es[0], viewing, t), color)
    ensures var s' := ScreenRun(s, Share(es[0], viewing, t), color);
      && AllAllowed(s', Mine(es[1..], Next(es[0], viewing), t), color)
      && ScreenRun(s, Mine(es, viewing, t), color) == ScreenRun(s', Mine(es[1..], Next(es[0], viewing), t), color)
  {
    RunSplits(s, Share(es[0], viewing, t), Mine(es[1..], Next(es[0], viewing), t), color);
  }

  /** What terminal t shows after an event is what its share of the event leads to. */
  ghost predicate Shown(e: Event, viewing: nat, t: nat, s: Screen, s': Screen, color: byte)
    requires IsScreen(s)
  {
    AllAllowed(s, Share(e, viewing, t), color) && s' == ScreenRun(s, Share(e, viewing, t), color)
  }

  lemma ShareIs(e: Event, viewing: nat, t: nat, s: Screen, color: byte)
    requires IsScreen(s) && (e.On? && e.term == t ==> Allowed(s, e.op))
    ensures Shown(e, viewing, t, s,
                  match e
                  case On(term, op) => if term == t then ScreenStep(s, op, color) else s
                  case View(dest, running, full) => ShownAfter(viewing, dest, running, full, false, t, s, color),
                  color)
  {
    match e
    case On(_, op) => if e.term == t { OneRun(s, op, color); }
    case View(dest, _, _) => PrintsIsPutAll(s, Message(viewing, dest), color);
  }

  lemma OneRun(s: Screen, op: Op, color: byte)
    requires IsScreen(s) && Allowed(s, op)
    ensures AllAllowed(s, [op], color) && ScreenRun(s, [op], color) == ScreenStep(s, op, color)
  {
    assert [op][1..] == [];
  }

  /** What terminal t shows after terminal dest was asked for. */
  function ShownAfter(viewing: nat, dest: nat, running: nat, full: bool, empty: bool,
                      t: nat, s: Screen, color: byte): Screen
    requires IsScreen(s)
  {
    if dest == viewing || full then if t == running then PutAll(s, Message(viewing, dest), color) else s
    else if t == dest && empty then Cleared(color)
    else s
  }

  class Display {
    const vm: VideoMemory
    const screens: seq<TextScreen>

    ghost predicate Valid()
      reads vm, vm.pageTable, vm.phys, screens
    {
      && vm.Valid() && |screens| == NUM_TERM
      && (forall t :: 0 <= t < NUM_TERM ==> screens[t].id == t && screens[t].vm == vm && screens[t].Valid())
      && (forall t, u :: 0 <= t < u < NUM_TERM ==> screens[t] != screens[u])
    }

    constructor (vm: VideoMemory, screens: seq<TextScreen>)
      requires vm.Valid() && |screens| == NUM_TERM
      requires forall t :: 0 <= t < NUM_TERM ==> screens[t].id == t && screens[t].vm == vm && screens[t].Valid()
      requires forall t, u :: 0 <= t < u < NUM_TERM ==> screens[t] != screens[u]
      ensures this.vm == vm && this.screens == screens && Valid()
    {
      this.vm, this.screens := vm, screens;
    }

    /** What terminal t shows. */
    ghost function Shows(t: nat): Screen
      requires |screens| == NUM_TERM && t < NUM_TERM
      reads screens
    {
      screens[t].view
    }

    /** What the hardware shows: from 0xB8000 on, row by row, character and colour of the terminal in
        view. */
    lemma OnDisplay(row: nat, col: nat)
      requires Valid() && row < 25 && col < 80
      ensures var address := 0xB_8000 + 2 * (80 * row + col);
        && address + 1 < vm.phys.Length && |Shows(vm.viewing).cells| == 2000
        && Shows(vm.viewing).cells[80 * row + col] == Cell(vm.phys[address], vm.phys[address + 1])
    {
      assert Shows(vm.viewing).cells == Cells(vm.Page(vm.viewing));
    }

    method Write(t: nat, op: Op)
      requires Valid() && t < NUM_TERM && Allowed(Shows(t), op)
      modifies screens[t], vm.phys
      ensures Valid() && vm.viewing == old(vm.viewing)
      ensures forall u :: 0 <= u < NUM_TERM ==>
                Shows(u) == if u == t then ScreenStep(old(Shows(u)), op, screens[u].color) else old(Shows(u))
    {
      match op
      case PutOp(c) => screens[t].TermPutc(c);
      case EraseOp => var _ := screens[t].StepBack();
      case ClearOp => screens[t].TermClear();
    }

    /** Prints on terminal t. */
    method Print(t: nat, text: seq<byte>)
      requires Valid() && t < NUM_TERM
      modifies screens[t], vm.phys
      ensures Valid() && vm.viewing == old(vm.viewing)
      ensures forall u :: 0 <= u < NUM_TERM ==>
                Shows(u) == if u == t then PutAll(old(Shows(u)), text, screens[u].color) else old(Shows(u))
    {
      screens[t].TermPuts(text);
    }

    /** The pages and the mapping change. */
    method ShowPages(dest: nat)
      requires Valid() && dest < NUM_TERM && dest != vm.viewing
      modifies vm, vm.pageTable, vm.phys
      ensures Valid() && vm.viewing == dest
    {
      vm.SwitchPages(vm.viewing, dest);
    }

    /** A message on the terminal that runs. */
    method Refuse(dest: nat, running: nat, full: bool)
      requires Valid() && running < NUM_TERM && (dest == vm.viewing || full)
      modifies screens[running], vm.phys
      ensures Valid() && vm.viewing == old(vm.viewing)
      ensures forall t :: 0 <= t < NUM_TERM ==>
                Shows(t) == ShownAfter(vm.viewing, dest, running, full, false, t, old(Shows(t)), screens[t].color)
    {
      Print(running, Message(vm.viewing, dest));
    }

    /** The part of terminal_switch that concerns the display of terminals that run something. */
    method Switch(dest: nat, running: nat, full: bool)
      requires Valid() && dest < NUM_TERM && running < NUM_TERM
      modifies screens[running], vm, vm.pageTable, vm.phys
      ensures Valid() && vm.viewing == if dest == old(vm.viewing) || full then old(vm.viewing) else dest
      ensures forall t :: 0 <= t < NUM_TERM ==>
                Shows(t) == ShownAfter(old(vm.viewing), dest, running, full, false, t, old(Shows(t)), screens[t].color)
    {
      if dest > NUM_TERM || dest == vm.viewing {
        Refuse(dest, running, full);
      } else if full {
        Refuse(dest, running, full);
      } else {
        ShowPages(dest);
      }
    }

    /** The same with the clearing of a terminal that runs nothing yet. */
    method Open(dest: nat, running: nat, full: bool, empty: bool)
      requires Valid() && dest < NUM_TERM && running < NUM_TERM
      modifies screens, vm, vm.pageTable, vm.phys
      ensures Valid() && vm.viewing == if dest == old(vm.viewing) || full then old(vm.viewing) else dest
      ensures forall t :: 0 <= t < NUM_TERM ==>
                Shows(t) == ShownAfter(old(vm.viewing), dest, running, full, empty, t, old(Shows(t)), screens[t].color)
    {
      var goes := dest != vm.viewing && !full;
      Switch(dest, running, full);
      if goes && empty {
        Write(dest, ClearOp);
      }
    }

    method Perform(e: Event)
      requires Valid() && OfTerminals(e) && (e.On? ==> Allowed(Shows(e.term), e.op))
      modifies screens, vm, vm.pageTable, vm.phys
      ensures Valid() && vm.viewing == Next(e, old(vm.viewing))
      ensures forall t :: 0 <= t < NUM_TERM ==> Shown(e, old(vm.viewing), t, old(Shows(t)), Shows(t), screens[t].color)
    {
      forall t | 0 <= t < NUM_TERM {
        ShareIs(e, vm.viewing, t, Shows(t), screens[t].color);
      }
      match e
      case On(t, op) => Write(t, op);
      case View(dest, running, full) => Switch(dest, running, full);
    }

    /** Multiplexing: after any run every terminal shows what it would show if it alone existed, and
        the video page holds what the terminal in view shows. */
    method Run(es: seq<Event>)
      requires Valid() && forall i :: 0 <= i < |es| ==> OfTerminals(es[i])
      requires forall t :: 0 <= t < NUM_TERM ==> AllAllowed(Shows(t), Mine(es, vm.viewing, t), screens[t].color)
      modifies screens, vm, vm.pageTable, vm.phys
      ensures Valid() && vm.viewing == Viewed(es, old(vm.viewing))
      ensures forall t :: 0 <= t < NUM_TERM ==>
                Shows(t) == ScreenRun(old(Shows(t)), Mine(es, old(vm.viewing), t), screens[t].color)
      ensures Cells(vm.PageAt(VIDEO)) == Shows(vm.viewing).cells
      decreases |es|
    {
      if es != [] {
        ghost var v := vm.viewing;
        forall t | 0 <= t < NUM_TERM
          ensures AllAllowed(Shows(t), Share(es[0], v, t), screens[t].color)
          ensures var s' := ScreenRun(Shows(t), Share(es[0], v, t), screens[t].color);
            && AllAllowed(s', Mine(es[1..], Next(es[0], v), t), screens[t].color)
            && ScreenRun(Shows(t), Mine(es, v, t), screens[t].color)
            == ScreenRun(s', Mine(es[1..], Next(es[0], v), t), screens[t].color)
        {
          FirstShare(es, v, t, Shows(t), screens[t].color);
        }
        MayStart(es, v);
        Perform(es[0]);
        Run(es[1..]);
      }
    }

    lemma MayStart(es: seq<Event>, viewing: nat)
      requires Valid() && es != [] && OfTerminals(es[0])
      requires forall t :: 0 <= t < NUM_TERM ==> AllAllowed(Shows(t), Share(es[0], viewing, t), screens[t].color)
      ensures es[0].On? ==> Allowed(Shows(es[0].term), es[0].op)
    {
      if es[0].On? {
        var t := es[0].term;
        assert Share(es[0], viewing, t) == [es[0].op];
        assert AllAllowed(Shows(t), [es[0].op], screens[t].color);
      }
    }

    /** Every terminal shows the window of its own transcript, whatever happens on the others: if ts are
        the transcripts before a run, each has grown by the operations of its own terminal. */
    method RunTranscripts(es: seq<Event>, ghost ts: seq<Transcript>)
      requires Valid() && forall i :: 0 <= i < |es| ==> OfTerminals(es[i])
      requires |ts| == NUM_TERM
      requires forall t :: 0 <= t < NUM_TERM ==> IsTranscript(ts[t]) && Window(ts[t]) == Shows(t)
      requires forall t :: 0 <= t < NUM_TERM ==> AllAllowed(Shows(t), Mine(es, vm.viewing, t), screens[t].color)
      modifies screens, vm, vm.pageTable, vm.phys
      ensures Valid()
      ensures forall t :: 0 <= t < NUM_TERM ==>
                Shows(t) == Window(TranscriptRun(ts[t], Mine(es, old(vm.viewing), t), screens[t].color))
      ensures Cells(vm.PageAt(VIDEO)) ==
                Window(TranscriptRun(ts[vm.viewing], Mine(es, old(vm.viewing), vm.viewing),
                                     screens[vm.viewing].color)).cells
    {
      forall t | 0 <= t < NUM_TERM
        ensures Window(TranscriptRun(ts[t], Mine(es, vm.viewing, t), screens[t].color))
             == ScreenRun(Shows(t), Mine(es, vm.viewing, t), screens[t].color)
      {
        ScreenIsWindowOfTranscript(ts[t], Mine(es, vm.viewing, t), screens[t].color);
      }
      Run(es);
    }
  }
}
