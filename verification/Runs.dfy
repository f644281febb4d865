/**
  Properties of whole runs of the process machine: nesting is last-in first-out, an
  interrupted terminal continues where it was interrupted, the scheduler starves nobody, and
  exactly which halts report an exception.
 */
module Runs {
  import opened Common
  import opened Layout
  import opened Machine

  /** es can happen one after the other from m on. */
  ghost predicate Feasible(m: Machine, es: seq<Event>)
    requires WellFormed(m)
    decreases |es|
  {
    es == [] || (Possible(m, es[0]) && (StepKeepsWellFormed(m, es[0]); Feasible(Step(m, es[0]).0, es[1..])))
  }

  ghost function After(m: Machine, es: seq<Event>): (r: Machine)
    requires WellFormed(m) && Feasible(m, es)
    ensures WellFormed(r)
    decreases |es|
  {
    if es == [] then m
    else
      StepKeepsWellFormed(m, es[0]);
      After(Step(m, es[0]).0, es[1..])
  }

  /** A terminal is opened only while the running terminal is in view. */
  ghost predicate OpensInView(m: Machine, e: Event)
    requires WellFormed(m)
  {
    e.SwitchTo? && e.dest < NUM_TERM && !Live(m, e.dest) && !Full(m) ==> m.viewing == m.current
  }

  ghost predicate AllOpenInView(m: Machine, es: seq<Event>)
    requires WellFormed(m) && Feasible(m, es)
    decreases |es|
  {
    es != [] ==>
      OpensInView(m, es[0]) && (StepKeepsWellFormed(m, es[0]); AllOpenInView(Step(m, es[0]).0, es[1..]))
  }

  ghost function Outcomes(m: Machine, es: seq<Event>): (os: seq<Outcome>)
    requires WellFormed(m) && Feasible(m, es)
    decreases |es|
  {
    if es == [] then []
    else
      StepKeepsWellFormed(m, es[0]);
      [Step(m, es[0]).1] + Outcomes(Step(m, es[0]).0, es[1..])
  }

  // ---------- nesting ----------

  /** More than d programs are on terminal t in every state of the run. */
  ghost predicate StaysAbove(m: Machine, es: seq<Event>, t: nat, d: nat)
    requires WellFormed(m) && Feasible(m, es) && t < NUM_TERM
    decreases |es|
  {
    && |m.stacks[t]| > d
    && (es != [] ==>
          (StepKeepsWellFormed(m, es[0]); StaysAbove(Step(m, es[0]).0, es[1..], t, d)))
  }

  lemma SteppedPrefix(s: seq<Frame>, s': seq<Frame>, d: nat)
    requires Stepped(s, s') && 0 < d < |s| && d < |s'|
    ensures s'[..d + 1] == s[..d + 1]
  {
    if |s'| == |s| + 1 && s'[..|s|] == s {
      assert s'[..d + 1] == s'[..|s|][..d + 1];
    }
  }

  lemma {:induction false} PrefixKept(m: Machine, es: seq<Event>, t: nat, d: nat)
    requires WellFormed(m) && Feasible(m, es) && t < NUM_TERM && 0 < d
    requires StaysAbove(m, es, t, d)
    ensures |After(m, es).stacks[t]| > d
    ensures After(m, es).stacks[t][..d + 1] == m.stacks[t][..d + 1]
    decreases |es|
  {
    if es != [] {
      StepKeepsWellFormed(m, es[0]);
      StackSteps(m, es[0], t);
      SteppedPrefix(m.stacks[t], Step(m, es[0]).0.stacks[t], d);
      PrefixKept(Step(m, es[0]).0, es[1..], t, d);
    }
  }

  /**
    Last-in first-out.  A program launched on the running terminal is followed by any feasible
    run, of any depth and on any terminals, during which that program stays on its terminal.  If
    the program on top is then it, its halt continues exactly the launching `execute`, and the
    terminal's stack is what it was before the launch.  The value delivered is the status, or
    256 after a fault -- or when the pid still carried the flag of an earlier program.
   */
  lemma HaltUndoesExecute(m: Machine, launch: Event, es: seq<Event>, halt: Event)
    requires WellFormed(m) && launch.Execute? && Possible(m, launch) && launch.x.Launches? && !Full(m)
    requires WellFormed(Step(m, launch).0) && Feasible(Step(m, launch).0, es)
    requires StaysAbove(Step(m, launch).0, es, m.current, |m.stacks[m.current]|)
    requires var m2 := After(Step(m, launch).0, es);
             m2.current == m.current && |m2.stacks[m.current]| == |m.stacks[m.current]| + 1
    requires halt.Halt?
    ensures var m2 := After(Step(m, launch).0, es);
            var pid := NextPid(m);
            && Top(m2, m.current).pid == pid && Top(m2, m.current).args == launch.args
            && Step(m2, halt).1 ==
                 Returned(launch.at, if halt.fault || pid in m.flagged then 256 else halt.status)
            && Step(m2, halt).0.stacks[m.current] == m.stacks[m.current]
            && Step(m2, halt).0.current == m.current && Homed(Step(m2, halt).0)
  {
    var t, d := m.current, |m.stacks[m.current]|;
    var m1 := Step(m, launch).0;
    ExecuteShape(m, launch);
    PrefixKept(m1, es, t, d);
    var m2 := After(m1, es);
    assert m2.stacks[t] == m2.stacks[t][..d + 1] == m1.stacks[t][..d + 1] == m1.stacks[t];
    assert m1.stacks[t][..d] == m.stacks[t];
    NestedHaltIs(m2, halt);
  }

  lemma NestedHaltIs(m: Machine, halt: Event)
    requires WellFormed(m) && halt.Halt? && |m.stacks[m.current]| > 1
    ensures Step(m, halt) ==
              (Popped(m), Returned(Top(m, m.current).caller,
                                   if halt.fault || Top(m, m.current).tainted then 256 else halt.status))
    ensures Homed(Popped(m))
  {
  }

  /** Whatever runs, is launched and ends meanwhile: while a program is on its terminal it has the
      arguments it was launched with. */
  lemma ArgsSurvive(m: Machine, launch: Event, es: seq<Event>)
    requires WellFormed(m) && launch.Execute? && Possible(m, launch) && launch.x.Launches? && !Full(m)
    requires WellFormed(Step(m, launch).0) && Feasible(Step(m, launch).0, es)
    requires StaysAbove(Step(m, launch).0, es, m.current, |m.stacks[m.current]|)
    ensures var s := After(Step(m, launch).0, es).stacks[m.current];
            |s| > |m.stacks[m.current]| && s[|m.stacks[m.current]|].args == launch.args
            && s[|m.stacks[m.current]|].pid == NextPid(m)
  {
    var t, d, m1 := m.current, |m.stacks[m.current]|, Step(m, launch).0;
    PrefixKept(m1, es, t, d);
    assert After(m1, es).stacks[t][..d + 1][d] == m1.stacks[t][..d + 1][d];
  }

  // ---------- suspension ----------

  ghost predicate Away(m: Machine, es: seq<Event>, t: nat)
    requires WellFormed(m) && Feasible(m, es)
    decreases |es|
  {
    && m.current != t
    && (es != [] ==>
          (StepKeepsWellFormed(m, es[0]); Away(Step(m, es[0]).0, es[1..], t)))
  }

  lemma AwayStep(m: Machine, e: Event, t: nat)
    requires WellFormed(m) && Possible(m, e) && Live(m, t) && m.current != t && Step(m, e).0.current != t
    ensures |Step(m, e).0.stacks| == NUM_TERM && Step(m, e).0.stacks[t] == m.stacks[t]
    ensures t in m.suspended && t in Step(m, e).0.suspended
    ensures Step(m, e).0.suspended[t] == m.suspended[t]
  {
    StackSteps(m, e, t);
    if e.Execute? {
      ExecuteShape(m, e);
    }
  }

  lemma {:induction false} SuspendedKept(m: Machine, es: seq<Event>, t: nat)
    requires WellFormed(m) && Feasible(m, es) && Away(m, es, t) && Live(m, t)
    ensures After(m, es).current != t
    ensures After(m, es).stacks[t] == m.stacks[t]
    ensures t in m.suspended && t in After(m, es).suspended
    ensures After(m, es).suspended[t] == m.suspended[t]
    decreases |es|
  {
    if es != [] {
      StepKeepsWellFormed(m, es[0]);
      AwayStep(m, es[0], t);
      SuspendedKept(Step(m, es[0]).0, es[1..], t);
    }
  }

  lemma LeavingSuspends(m: Machine, leave: Event)
    requires WellFormed(m) && Possible(m, leave) && Step(m, leave).0.current != m.current
    ensures leave.Tick? || leave.SwitchTo?
    ensures |Step(m, leave).0.stacks| == NUM_TERM
    ensures Step(m, leave).0.stacks[m.current] == m.stacks[m.current]
    ensures m.current in Step(m, leave).0.suspended
    ensures Step(m, leave).0.suspended[m.current] == leave.interrupted
  {
  }

  lemma ReturnIsByTick(m: Machine, back: Event, t: nat)
    requires WellFormed(m) && Possible(m, back) && m.current != t && Live(m, t)
    requires Step(m, back).0.current == t
    ensures back.Tick? && t in m.suspended && Step(m, back).1 == Switched(m.suspended[t])
    ensures Step(m, back).0.stacks == m.stacks
  {
  }

  /**
    Whatever takes the processor away from terminal t, and whatever happens until t runs again:
    only a timer tick gives it back, and that tick continues exactly the interrupted context,
    with the same programs on t.
   */
  lemma TickContinuesWhereInterrupted(m: Machine, leave: Event, es: seq<Event>, back: Event)
    requires WellFormed(m) && Possible(m, leave) && Step(m, leave).0.current != m.current
    requires WellFormed(Step(m, leave).0) && Feasible(Step(m, leave).0, es)
    requires Away(Step(m, leave).0, es, m.current)
    requires Possible(After(Step(m, leave).0, es), back)
    requires Step(After(Step(m, leave).0, es), back).0.current == m.current
    ensures leave.Tick? || leave.SwitchTo?
    ensures back.Tick?
    ensures Step(After(Step(m, leave).0, es), back).1 == Switched(leave.interrupted)
    ensures Step(After(Step(m, leave).0, es), back).0.stacks[m.current] == m.stacks[m.current]
  {
    var m1 := Step(m, leave).0;
    LeavingSuspends(m, leave);
    SuspendedKept(m1, es, m.current);
    ReturnIsByTick(After(m1, es), back, m.current);
  }

  // ---------- fairness ----------

  lemma LiveStaysLive(m: Machine, e: Event, t: nat)
    requires WellFormed(m) && Possible(m, e) && Live(m, t)
    ensures |Step(m, e).0.stacks| == NUM_TERM && Live(Step(m, e).0, t)
  {
    StackSteps(m, e, t);
  }

  function Dead(stacks: seq<seq<Frame>>): nat {
    if stacks == [] then 0
    else Dead(stacks[..|stacks| - 1]) + if stacks[|stacks| - 1] == [] then 1 else 0
  }

  lemma {:induction false} DeadCompare(a: seq<seq<Frame>>, b: seq<seq<Frame>>, t: nat)
    requires |a| == |b|
    requires forall u :: 0 <= u < |a| && u != t ==> (a[u] == [] <==> b[u] == [])
    ensures Dead(b) == Dead(a)
              + if t < |a| && a[t] != [] && b[t] == [] then 1
                else if t < |a| && a[t] == [] && b[t] != [] then -1 else 0
  {
    if a != [] {
      DeadCompare(a[..|a| - 1], b[..|b| - 1], t);
    }
  }

  lemma {:induction false} DeadBelow(stacks: seq<seq<Frame>>, t: nat)
    requires t < |stacks|
    ensures Dead(stacks) <= |stacks|
    ensures stacks[t] != [] ==> Dead(stacks) < |stacks|
  {
    var n := |stacks| - 1;
    if n > 0 {
      DeadBelow(stacks[..n], if t < n then t else 0);
    }
  }

  /** At most this many ticks until t runs: a full round for every terminal that may still be
      opened, and the way from the running terminal to t. */
  function Patience(m: Machine, t: nat): nat
    requires |m.stacks| == NUM_TERM && m.current < NUM_TERM && t < NUM_TERM
  {
    Dead(m.stacks) * NUM_TERM + Dist(m.current, t)
  }

  lemma TickApproaches(m: Machine, e: Event, t: nat)
    requires WellFormed(m) && e.Tick? && Possible(m, e) && Live(m, t) && m.current != t
    ensures Step(m, e).0.stacks == m.stacks && Step(m, e).0.current < NUM_TERM
    ensures Dist(Step(m, e).0.current, t) < Dist(m.current, t)
  {
    ScanFindsNearest(Lengths(m.stacks), m.current, Next(m.current));
    assert Lengths(m.stacks)[t] > 0;
  }

  lemma OpeningLowersDead(m: Machine, e: Event)
    requires WellFormed(m) && e.SwitchTo? && Possible(m, e)
    ensures |Step(m, e).0.stacks| == NUM_TERM
    ensures Dead(Step(m, e).0.stacks) == Dead(m.stacks) - if Step(m, e).0.current != m.current then 1 else 0
  {
    DeadCompare(m.stacks, Step(m, e).0.stacks, e.dest);
  }

  lemma StayingKeepsDead(m: Machine, e: Event)
    requires WellFormed(m) && (e.Execute? || e.Halt?) && Possible(m, e)
    ensures |Step(m, e).0.stacks| == NUM_TERM && Step(m, e).0.current == m.current
    ensures Dead(Step(m, e).0.stacks) == Dead(m.stacks)
  {
    StackSteps(m, e, m.current);
    forall u | 0 <= u < NUM_TERM ensures m.stacks[u] == [] <==> Step(m, e).0.stacks[u] == [] {
      StackSteps(m, e, u);
    }
    StaysOn(m, e);
    DeadCompare(m.stacks, Step(m, e).0.stacks, m.current);
  }

  lemma StaysOn(m: Machine, e: Event)
    requires WellFormed(m) && (e.Execute? || e.Halt?) && Possible(m, e)
    ensures Step(m, e).0.current == m.current
  {
    if e.Execute? {
      ExecuteShape(m, e);
    }
  }

  lemma Lexicographic(dead: nat, dist: nat, dead': nat, dist': nat, ticks: nat)
    requires (dead' == dead && dist' + ticks <= dist) || (dead' + 1 == dead && dist' + ticks < NUM_TERM)
    ensures dead' * NUM_TERM + dist' + ticks <= dead * NUM_TERM + dist
  {
    if dead' + 1 == dead {
      assert dead * NUM_TERM == dead' * NUM_TERM + NUM_TERM;
    }
  }

  lemma Approaches(m: Machine, e: Event, t: nat)
    requires WellFormed(m) && Possible(m, e) && Live(m, t) && m.current != t
    ensures WellFormed(Step(m, e).0) && Live(Step(m, e).0, t)
    ensures Patience(Step(m, e).0, t) + (if e.Tick? then 1 else 0) <= Patience(m, t)
  {
    StepKeepsWellFormed(m, e);
    LiveStaysLive(m, e, t);
    var m' := Step(m, e).0;
    assert m'.current < NUM_TERM;
    assert (Dead(m'.stacks) == Dead(m.stacks) && Dist(m'.current, t) + (if e.Tick? then 1 else 0) <= Dist(m.current, t))
        || (Dead(m'.stacks) + 1 == Dead(m.stacks) && !e.Tick?) by {
      if e.Tick? {
        TickApproaches(m, e, t);
      } else if e.SwitchTo? {
        OpeningLowersDead(m, e);
      } else {
        StayingKeepsDead(m, e);
      }
    }
    Lexicographic(Dead(m.stacks), Dist(m.current, t), Dead(m'.stacks), Dist(m'.current, t), if e.Tick? then 1 else 0);
  }

  function Ticks(es: seq<Event>): nat {
    if es == [] then 0 else (if es[0].Tick? then 1 else 0) + Ticks(es[1..])
  }

  /** Terminal t is the running one in some state of the run. */
  ghost predicate Runs(m: Machine, es: seq<Event>, t: nat)
    requires WellFormed(m) && Feasible(m, es)
    decreases |es|
  {
    || m.current == t
    || (es != [] && (StepKeepsWellFormed(m, es[0]); Runs(Step(m, es[0]).0, es[1..], t)))
  }

  lemma OthersNeedPatience(m: Machine, t: nat)
    requires |m.stacks| == NUM_TERM && m.current < NUM_TERM && t < NUM_TERM && m.current != t
    ensures Patience(m, t) > 0
  {
    assert Dead(m.stacks) * NUM_TERM >= 0;
  }

  lemma {:induction false} RunsWithinPatience(m: Machine, es: seq<Event>, t: nat)
    requires WellFormed(m) && Feasible(m, es) && Live(m, t)
    requires Ticks(es) >= Patience(m, t)
    ensures Runs(m, es, t)
    decreases |es|
  {
    if m.current != t {
      OthersNeedPatience(m, t);
      assert es != [] && Ticks(es) == (if es[0].Tick? then 1 else 0) + Ticks(es[1..]);
      Approaches(m, es[0], t);
      RunsWithinPatience(Step(m, es[0]).0, es[1..], t);
    }
  }

  lemma PatienceBound(dead: nat, terminals: nat, distance: nat)
    requires dead < terminals && distance < terminals
    ensures dead * terminals + distance <= terminals * terminals
  {
    assert dead * terminals <= (terminals - 1) * terminals;
  }

  /** No starvation: in any run with NUM_TERM squared ticks, every terminal that was live at its
      start gets the processor, whatever is launched, halted or opened in between. */
  lemma SchedulerIsFair(m: Machine, es: seq<Event>, t: nat)
    requires WellFormed(m) && Feasible(m, es) && Live(m, t)
    ensures Ticks(es) >= NUM_TERM * NUM_TERM ==> Runs(m, es, t)
  {
    DeadBelow(m.stacks, m.current);
    PatienceBound(Dead(m.stacks), NUM_TERM, Dist(m.current, t));
    if Ticks(es) >= NUM_TERM * NUM_TERM {
      RunsWithinPatience(m, es, t);
    }
  }

  // ---------- exception flags ----------

  /** No program carries, and no free PCB keeps, an exception flag. */
  ghost predicate Clean(m: Machine) {
    && m.flagged == {}
    && forall t: nat, i: nat :: At(m.stacks, t, i) ==> !m.stacks[t][i].tainted
  }

  /** The run never halts a terminal's last program by a fault. */
  ghost predicate RootsDoNotFault(m: Machine, es: seq<Event>)
    requires WellFormed(m) && Feasible(m, es)
    decreases |es|
  {
    es != [] ==>
      && (es[0].Halt? && es[0].fault ==> |m.stacks[m.current]| > 1)
      && (StepKeepsWellFormed(m, es[0]); RootsDoNotFault(Step(m, es[0]).0, es[1..]))
  }

  lemma LaunchKeepsClean(m: Machine, t: nat, caller: Ctx, args: seq<byte>)
    requires Shaped(m) && t < NUM_TERM && !Full(m)
    requires forall u: nat, i: nat :: At(m.stacks, u, i) ==> !m.stacks[u][i].tainted
    ensures Clean(Launch(m, t, caller, args)) <==> m.flagged == {}
  {
    var m', last := Launch(m, t, caller, args), |m.stacks[t]|;
    assert At(m'.stacks, t, last) && m'.stacks[t][last].tainted == (NextPid(m) in m.flagged);
    forall u: nat, i: nat | At(m'.stacks, u, i) && !(u == t && i == last)
      ensures !m'.stacks[u][i].tainted
    {
      assert At(m.stacks, u, i);
    }
  }

  lemma PopKeepsClean(m: Machine)
    requires WellFormed(m) && Clean(m)
    ensures Clean(Popped(m)) && !Top(m, m.current).tainted
  {
    assert At(m.stacks, m.current, |m.stacks[m.current]| - 1);
    forall u: nat, i: nat | At(Popped(m).stacks, u, i) ensures !Popped(m).stacks[u][i].tainted {
      assert At(m.stacks, u, i);
    }
  }

  lemma HaltKeepsClean(m: Machine, e: Event)
    requires WellFormed(m) && e.Halt? && Clean(m)
    ensures Clean(Step(m, e).0) <==> !(e.fault && |m.stacks[m.current]| == 1)
  {
    PopKeepsClean(m);
    if |m.stacks[m.current]| == 1 {
      EmptiedHasRoom(m, e.fault);
      assert Emptied(m, e.fault).stacks == Popped(m).stacks;
      LaunchKeepsClean(Emptied(m, e.fault), m.current, e.relaunch, []);
    }
  }

  lemma SwitchKeepsClean(m: Machine, e: Event)
    requires WellFormed(m) && Possible(m, e) && Clean(m) && e.SwitchTo?
    ensures Clean(Step(m, e).0)
  {
    if e.dest != m.viewing && !Live(m, e.dest) && !Full(m) {
      var m1 := m.(viewing := e.dest, current := e.dest, suspended := m.suspended[m.current := e.interrupted]);
      assert m1.stacks == m.stacks;
      LaunchKeepsClean(m1, e.dest, e.launch, []);
    }
  }

  lemma StepKeepsClean(m: Machine, e: Event)
    requires WellFormed(m) && Possible(m, e) && Clean(m)
    ensures Clean(Step(m, e).0) <==> !(e.Halt? && e.fault && |m.stacks[m.current]| == 1)
  {
    match e
    case Execute(at, args, _) =>
      ExecuteShape(m, e);
      if !Full(m) {
        LaunchKeepsClean(m, m.current, at, args);
      }
    case Halt(_, _, _) => HaltKeepsClean(m, e);
    case Tick(_) =>
    case SwitchTo(_, _, _) => SwitchKeepsClean(m, e);
  }

  /** Until a terminal's last program faults, no launch meets a stale flag. */
  lemma {:induction false} CleanKept(m: Machine, es: seq<Event>)
    requires WellFormed(m) && Feasible(m, es) && Clean(m) && RootsDoNotFault(m, es)
    ensures Clean(After(m, es))
    decreases |es|
  {
    if es != [] {
      StepKeepsWellFormed(m, es[0]);
      StepKeepsClean(m, es[0]);
      CleanKept(Step(m, es[0]).0, es[1..]);
    }
  }

  /** In such runs a halt delivers 256 exactly after an exception, and otherwise the status itself. */
  lemma CleanHaltDelivers(m: Machine, es: seq<Event>, halt: Event)
    requires WellFormed(m) && Feasible(m, es) && Clean(m) && RootsDoNotFault(m, es)
    requires halt.Halt? && |After(m, es).stacks[After(m, es).current]| > 1
    ensures var m2 := After(m, es);
            Step(m2, halt).1 == Returned(Top(m2, m2.current).caller, if halt.fault then 256 else halt.status)
    ensures Step(After(m, es), halt).1.value == 256 <==> halt.fault
  {
    CleanKept(m, es);
    var m2 := After(m, es);
    assert At(m2.stacks, m2.current, |m2.stacks[m2.current]| - 1);
  }

  // ---------- executes that fail ----------

  /** The event is an execute that gets a pid, and then fails in a way that does not give it back, or
      after its page is in the user window. */
  ghost predicate Leaks(m: Machine, e: Event) {
    e.Execute? && !Full(m) && (e.x.NoCommand? || e.x.RunsOver?)
  }

  ghost predicate Remaps(m: Machine, e: Event) {
    e.Execute? && !Full(m) && (e.x.FailsLate? || e.x.RunsOver?)
  }

  /** A pid leaks with an execute that has no command, and with one whose load runs over, and with
      nothing else; it never comes back. */
  lemma LeakedIff(m: Machine, e: Event)
    requires WellFormed(m) && Possible(m, e)
    ensures Step(m, e).0.leaked == if Leaks(m, e) then m.leaked + {NextPid(m)} else m.leaked
    ensures Leaks(m, e) ==> NextPid(m) !in m.leaked && NextPid(m) < MAX_NUM_PROC
  {
  }

  /** How many pids a run leaks. */
  ghost function LeakCount(m: Machine, es: seq<Event>): nat
    requires WellFormed(m) && Feasible(m, es)
    decreases |es|
  {
    if es == [] then 0
    else
      StepKeepsWellFormed(m, es[0]);
      (if Leaks(m, es[0]) then 1 else 0) + LeakCount(Step(m, es[0]).0, es[1..])
  }

  lemma {:induction false} LeaksAddUp(m: Machine, es: seq<Event>)
    requires WellFormed(m) && Feasible(m, es)
    ensures m.leaked <= After(m, es).leaked && |After(m, es).leaked| == |m.leaked| + LeakCount(m, es)
    decreases |es|
  {
    if es != [] {
      StepKeepsWellFormed(m, es[0]);
      LeakedIff(m, es[0]);
      LeaksAddUp(Step(m, es[0]).0, es[1..]);
    }
  }

  /** Every leak lowers the number of programs that can run by one. */
  lemma RoomAfterLeaks(m: Machine, es: seq<Event>)
    requires WellFormed(m) && Feasible(m, es) && m.leaked == {}
    ensures Full(After(m, es)) <==> Total(After(m, es).stacks) == MAX_NUM_PROC - LeakCount(m, es)
  {
    LeaksAddUp(m, es);
    FullIffCount(After(m, es));
  }

  lemma RemappedIsNotHome(m: Machine)
    requires WellFormed(m) && !Full(m)
    ensures NextPid(m) != Top(m, m.current).pid
  {
    assert m.stacks[m.current][|m.stacks[m.current]| - 1].pid in Used(m.stacks);
  }

  lemma LaunchIsHome(m: Machine, caller: Ctx, args: seq<byte>)
    requires Shaped(m) && !Full(m)
    ensures Homed(Launch(m, m.current, caller, args))
  {
  }

  /** What launches, resumes or switches programs gives the one that runs its own page. */
  predicate Rehomes(o: Outcome) {
    o.Entered? || o.Returned? || o.Switched?
  }

  lemma HomedAfterExecute(m: Machine, e: Event)
    requires WellFormed(m) && e.Execute? && Possible(m, e) && (Homed(m) || Rehomes(Step(m, e).1))
    ensures Homed(Step(m, e).0) <==> !Remaps(m, e)
  {
    ExecuteShape(m, e);
    if !Full(m) {
      RemappedIsNotHome(m);
      LaunchIsHome(m, e.at, e.args);
    }
  }

  lemma HomedAfterHalt(m: Machine, e: Event)
    requires WellFormed(m) && e.Halt?
    ensures Homed(Step(m, e).0)
  {
    if |m.stacks[m.current]| == 1 {
      EmptiedHasRoom(m, e.fault);
      LaunchIsHome(Emptied(m, e.fault), e.relaunch, []);
    }
  }

  lemma HomedAfterSwitch(m: Machine, e: Event)
    requires WellFormed(m) && e.SwitchTo? && Possible(m, e) && (Homed(m) || Rehomes(Step(m, e).1))
    ensures Homed(Step(m, e).0)
  {
    if e.dest != m.viewing && !Live(m, e.dest) && !Full(m) {
      var m1 := m.(viewing := e.dest, current := e.dest, suspended := m.suspended[m.current := e.interrupted]);
      assert m1.stacks == m.stacks;
      LaunchIsHome(m1, e.launch, []);
    }
  }

  /** The program that runs sees its own page after every step, unless an execute failed after it had
      changed the user window; whatever launches, resumes or switches programs puts that right. */
  lemma HomedIff(m: Machine, e: Event)
    requires WellFormed(m) && Possible(m, e) && (Homed(m) || Rehomes(Step(m, e).1))
    ensures Homed(Step(m, e).0) <==> !Remaps(m, e)
  {
    match e
    case Execute(_, _, _) => HomedAfterExecute(m, e);
    case Halt(_, _, _) => HomedAfterHalt(m, e);
    case Tick(_) => ScanFindsNearest(Lengths(m.stacks), m.current, Next(m.current));
    case SwitchTo(_, _, _) => HomedAfterSwitch(m, e);
  }

  ghost predicate NeverRemaps(m: Machine, es: seq<Event>)
    requires WellFormed(m) && Feasible(m, es)
    decreases |es|
  {
    es != [] ==>
      !Remaps(m, es[0]) && (StepKeepsWellFormed(m, es[0]); NeverRemaps(Step(m, es[0]).0, es[1..]))
  }

  lemma {:induction false} PageKept(m: Machine, es: seq<Event>)
    requires WellFormed(m) && Feasible(m, es) && Homed(m) && NeverRemaps(m, es)
    ensures Homed(After(m, es))
    decreases |es|
  {
    if es != [] {
      StepKeepsWellFormed(m, es[0]);
      HomedIff(m, es[0]);
      PageKept(Step(m, es[0]).0, es[1..]);
    }
  }

  /** A load that runs over ends the program that called execute, as any page fault does: its own caller
      gets 256, or a new shell takes its place, and the pid that was meant for the new program is lost. */
  lemma OverrunHaltsCaller(m: Machine, load: Event, fault: Event)
    requires WellFormed(m) && load.Execute? && load.x.RunsOver? && Possible(m, load) && !Full(m)
    requires fault.Halt? && fault.fault
    ensures Step(m, load).1 == Faults && WellFormed(Step(m, load).0)
    ensures var m' := Step(Step(m, load).0, fault).0;
      && m'.leaked == m.leaked + {NextPid(m)} && NextPid(m) !in m.leaked && Homed(m')
      && (|m.stacks[m.current]| > 1 ==>
            Step(Step(m, load).0, fault).1 == Returned(Top(m, m.current).caller, 256)
            && m'.stacks == Popped(m).stacks)
  {
    StepKeepsWellFormed(m, load);
    LeakedIff(m, load);
    HomedAfterHalt(Step(m, load).0, fault);
  }

  /** Executes without a command, one after the other. */
  function Nulls(c: Ctx, n: nat): seq<Event> {
    seq(n, i => Execute(c, [], NoCommand))
  }

  /** The program that runs can leak n pids. */
  ghost predicate CanLeak(m: Machine, c: Ctx, n: nat) {
    WellFormed(m) && OnStack(c, Top(m, m.current).pid) && Total(m.stacks) + |m.leaked| + n <= MAX_NUM_PROC
  }

  lemma NullLeaks(m: Machine, c: Ctx, n: nat)
    requires n > 0 && CanLeak(m, c, n)
    ensures Possible(m, Execute(c, [], NoCommand)) && Step(m, Execute(c, [], NoCommand)).0 == Leaking(m)
    ensures CanLeak(Leaking(m), c, n - 1) && |Leaking(m).leaked| == |m.leaked| + 1
  {
    FullIffCount(m);
    StepKeepsWellFormed(m, Execute(c, [], NoCommand));
  }

  lemma NullsFirst(c: Ctx, n: nat)
    requires n > 0
    ensures Nulls(c, n) == [Execute(c, [], NoCommand)] + Nulls(c, n - 1)
  {
  }

  lemma NullThen(m: Machine, c: Ctx, n: nat, m': Machine)
    requires n > 0 && CanLeak(m, c, n) && Leads(Leaking(m), Nulls(c, n - 1), m')
    ensures Leads(m, Nulls(c, n), m')
  {
    var e := Execute(c, [], NoCommand);
    NullLeaks(m, c, n);
    assert Leads(Step(m, e).0, Nulls(c, n - 1), m');
    LeadsBefore(m, e, Nulls(c, n - 1), m');
    NullsFirst(c, n);
  }

  lemma {:induction false} NullsLeak(m: Machine, c: Ctx, n: nat) returns (m': Machine)
    requires CanLeak(m, c, n)
    ensures Leads(m, Nulls(c, n), m') && m' == m.(leaked := m'.leaked) && |m'.leaked| == |m.leaked| + n
    decreases n
  {
    if n == 0 {
      m' := m;
    } else {
      NullLeaks(m, c, n);
      m' := NullsLeak(Leaking(m), c, n - 1);
      NullThen(m, c, n, m');
    }
  }

  /** The first program can leak all pids but its own: from then on the limit check of terminal_switch
      lets a terminal open although no pid is free. */
  lemma ShortageHappens(m: Machine, at: Ctx, c: Ctx) returns (m': Machine)
    requires Unstarted(m) && MAX_NUM_PROC >= 2 && OnStack(c, 0)
    ensures !Full(m) && Leads(Launch(m, 0, at, []), Nulls(c, MAX_NUM_PROC - 1), m') && Short(m')
  {
    BootedIsOneRun(m, at);
    m' := NullsLeak(Launch(m, 0, at, []), c, MAX_NUM_PROC - 1);
    FullIffCount(m');
  }

  // ---------- a stale exception flag ----------

  ghost predicate PidsAre(s: seq<Frame>, pids: seq<nat>) {
    |s| == |pids| && forall i :: 0 <= i < |pids| ==> s[i].pid == pids[i]
  }

  /** Only the terminals 0 and 1 run programs, with the given pids. */
  ghost predicate TwoRun(m: Machine, a: seq<nat>, b: seq<nat>, current: nat, flagged: set<nat>) {
    && WellFormed(m) && NUM_TERM >= 2 && MAX_NUM_PROC >= 3
    && PidsAre(m.stacks[0], a) && PidsAre(m.stacks[1], b)
    && (forall t :: 2 <= t < NUM_TERM ==> m.stacks[t] == [])
    && m.current == current && current < 2 && m.flagged == flagged && m.leaked == {}
  }

  /** p is the lowest pid that is in neither list. */
  ghost predicate Lowest(p: nat, a: seq<nat>, b: seq<nat>) {
    p < MAX_NUM_PROC && p !in a && p !in b && forall q :: 0 <= q < p ==> q in a || q in b
  }

  lemma TwoUse(m: Machine, a: seq<nat>, b: seq<nat>, p: nat)
    requires |m.stacks| == NUM_TERM >= 2 && PidsAre(m.stacks[0], a) && PidsAre(m.stacks[1], b)
    requires forall t :: 2 <= t < NUM_TERM ==> m.stacks[t] == []
    requires Lowest(p, a, b) && m.leaked == {}
    ensures NextPid(m) == p && !Full(m)
  {
    forall q | 0 <= q < p ensures q in Used(m.stacks) {
      if q in a {
        var i: nat :| i < |a| && a[i] == q;
        assert m.stacks[0][i].pid == q;
      } else {
        var i: nat :| i < |b| && b[i] == q;
        assert m.stacks[1][i].pid == q;
      }
    }
    assert p !in Used(m.stacks);
  }

  lemma TwoIsLowest()
    requires MAX_NUM_PROC >= 3
    ensures Lowest(2, [0], [1])
  {
    assert 0 in [0] && 1 in [1];
  }

  function OnStackOf(pid: nat): Ctx {
    Ctx(if pid <= 2 then GetPcbAddr(pid) else 0, 0)
  }

  /** es is a run from m to m'. */
  ghost predicate Leads(m: Machine, es: seq<Event>, m': Machine) {
    WellFormed(m) && Feasible(m, es) && After(m, es) == m'
  }

  lemma LeadsByOne(m: Machine, e: Event)
    requires WellFormed(m) && Possible(m, e)
    ensures Leads(m, [e], Step(m, e).0)
  {
    StepKeepsWellFormed(m, e);
    assert [e][1..] == [];
  }

  lemma LeadsFirst(m: Machine, es: seq<Event>, m': Machine)
    requires Leads(m, es, m') && es != []
    ensures Possible(m, es[0]) && Leads(Step(m, es[0]).0, es[1..], m')
  {
    StepKeepsWellFormed(m, es[0]);
  }

  lemma LeadsBefore(m: Machine, e: Event, es: seq<Event>, m': Machine)
    requires WellFormed(m) && Possible(m, e) && Leads(Step(m, e).0, es, m')
    ensures Leads(m, [e] + es, m')
  {
    assert ([e] + es)[1..] == es;
  }

  lemma {:induction false} LeadsOn(m: Machine, es: seq<Event>, m1: Machine, more: seq<Event>, m2: Machine)
    requires Leads(m, es, m1) && Leads(m1, more, m2)
    ensures Leads(m, es + more, m2)
    decreases |es|
  {
    if es == [] {
      assert es + more == more;
    } else {
      LeadsFirst(m, es, m1);
      LeadsOn(Step(m, es[0]).0, es[1..], m1, more, m2);
      LeadsBefore(m, es[0], es[1..] + more, m2);
      HeadFirst(es, more);
    }
  }

  lemma TwoExecute(m: Machine, e: Event, a: seq<nat>, b: seq<nat>, flagged: set<nat>, p: nat) returns (m': Machine)
    requires TwoRun(m, a, b, 0, flagged) && e.Execute? && e.x.Launches? && Lowest(p, a, b)
    requires a != [] && a[|a| - 1] <= 2 && e.at == OnStackOf(a[|a| - 1])
    ensures Leads(m, [e], m') && TwoRun(m', a + [p], b, 0, flagged - {p})
    ensures Top(m', 0).caller == e.at && (Top(m', 0).tainted <==> p in flagged) && m'.viewing == m.viewing
  {
    TwoUse(m, a, b, p);
    LeadsByOne(m, e);
    StepKeepsWellFormed(m, e);
    m' := Step(m, e).0;
  }

  lemma TwoOpen(m: Machine, e: Event, a: seq<nat>, p: nat) returns (m': Machine)
    requires TwoRun(m, a, [], 0, {}) && m.viewing == 0 && e.SwitchTo? && e.dest == 1 && Lowest(p, a, [])
    requires a != [] && a[|a| - 1] <= 2 && e.interrupted == OnStackOf(a[|a| - 1])
    ensures Leads(m, [e], m') && TwoRun(m', a, [p], 1, {}) && m'.viewing == 1
  {
    TwoUse(m, a, [], p);
    LeadsByOne(m, e);
    StepKeepsWellFormed(m, e);
    m' := Step(m, e).0;
  }

  lemma TwoTick(m: Machine, e: Event, a: seq<nat>, b: seq<nat>, current: nat, flagged: set<nat>) returns (m': Machine)
    requires TwoRun(m, a, b, current, flagged) && a != [] && b != [] && e.Tick?
    requires var s := if current == 0 then a else b; s[|s| - 1] <= 2 && e.interrupted == OnStackOf(s[|s| - 1])
    ensures Leads(m, [e], m') && TwoRun(m', a, b, 1 - current, flagged) && m'.viewing == m.viewing
  {
    LeadsByOne(m, e);
    StepKeepsWellFormed(m, e);
    ScanFindsNearest(Lengths(m.stacks), current, Next(current));
    assert Lengths(m.stacks)[1 - current] > 0;
    m' := Step(m, e).0;
  }

  lemma TwoHalt(m: Machine, e: Event, a: seq<nat>, p: nat, b: seq<nat>) returns (m': Machine)
    requires TwoRun(m, a + [p], b, 0, {}) && a != [] && e.Halt?
    ensures Leads(m, [e], m') && TwoRun(m', a, b, 0, {})
  {
    LeadsByOne(m, e);
    StepKeepsWellFormed(m, e);
    m' := Step(m, e).0;
  }

  lemma TwoRootFault(m: Machine, e: Event, a: seq<nat>, q: nat, p: nat) returns (m': Machine)
    requires TwoRun(m, a, [q], 1, {}) && e.Halt? && e.fault && Lowest(p, a, []) && p != q
    ensures Leads(m, [e], m') && TwoRun(m', a, [p], 1, {q})
  {
    EmptiedHasRoom(m, true);
    TwoUse(Emptied(m, true), a, [], p);
    LeadsByOne(m, e);
    StepKeepsWellFormed(m, e);
    m' := Step(m, e).0;
  }

  /** The first shell launches a program, and a second terminal is opened meanwhile. */
  function OpeningPart(): seq<Event> {
    [ Execute(OnStackOf(0), [], Launches), SwitchTo(1, OnStackOf(1), OnStackOf(2)) ]
  }

  /** The program ends. */
  function EndingPart(): seq<Event> {
    [ Tick(OnStackOf(2)), Halt(0, false, OnStackOf(0)) ]
  }

  /** The second shell faults and is replaced. */
  function FaultingPart(): seq<Event> {
    [ Tick(OnStackOf(0)), Halt(0, true, OnStackOf(0)) ]
  }

  /** The first shell launches a program again, which gets the pid of the faulted shell. */
  function LaunchingPart(): seq<Event> {
    [ Tick(OnStackOf(1)), Execute(OnStackOf(0), [], Launches) ]
  }

  lemma StaleRunOpens(m: Machine) returns (m': Machine)
    requires TwoRun(m, [0], [], 0, {}) && m.viewing == 0
    ensures Leads(m, OpeningPart(), m') && TwoRun(m', [0] + [1], [2], 1, {})
  {
    var es := OpeningPart();
    var m1 := TwoExecute(m, es[0], [0], [], {}, 1);
    m' := TwoOpen(m1, es[1], [0] + [1], 2);
    LeadsOn(m, [es[0]], m1, [es[1]], m');
    assert es == [es[0]] + [es[1]];
  }

  lemma StaleRunEnds(m: Machine) returns (m': Machine)
    requires TwoRun(m, [0] + [1], [2], 1, {})
    ensures Leads(m, EndingPart(), m') && TwoRun(m', [0], [2], 0, {})
  {
    var es := EndingPart();
    var m1 := TwoTick(m, es[0], [0] + [1], [2], 1, {});
    m' := TwoHalt(m1, es[1], [0], 1, [2]);
    LeadsOn(m, [es[0]], m1, [es[1]], m');
    assert es == [es[0]] + [es[1]];
  }

  lemma StaleRunFaults(m: Machine) returns (m': Machine)
    requires TwoRun(m, [0], [2], 0, {})
    ensures Leads(m, FaultingPart(), m') && TwoRun(m', [0], [1], 1, {2})
  {
    var es := FaultingPart();
    var m1 := TwoTick(m, es[0], [0], [2], 0, {});
    m' := TwoRootFault(m1, es[1], [0], 2, 1);
    LeadsOn(m, [es[0]], m1, [es[1]], m');
    assert es == [es[0]] + [es[1]];
  }

  lemma StaleRunLaunches(m: Machine) returns (m': Machine)
    requires TwoRun(m, [0], [1], 1, {2})
    ensures Leads(m, LaunchingPart(), m') && TwoRun(m', [0] + [2], [1], 0, {2} - {2})
    ensures Top(m', 0).tainted && Top(m', 0).caller == OnStackOf(0)
  {
    var es := LaunchingPart();
    var m1 := TwoTick(m, es[0], [0], [1], 1, {2});
    TwoIsLowest();
    m' := TwoExecute(m1, es[1], [0], [1], {2}, 2);
    LeadsOn(m, [es[0]], m1, [es[1]], m');
    assert es == [es[0]] + [es[1]];
  }

  /** Nothing has been started, and no PCB carries an exception flag. */
  ghost predicate Unstarted(m: Machine) {
    && Shaped(m) && m.current == m.viewing == 0 && m.flagged == m.leaked == {}
    && forall t :: 0 <= t < NUM_TERM ==> m.stacks[t] == []
  }

  /** The first shell is the only program, and has pid 0. */
  lemma BootedIsOneRun(m: Machine, at: Ctx)
    requires Unstarted(m)
    ensures !Full(m) && WellFormed(Launch(m, 0, at, [])) && Total(Launch(m, 0, at, []).stacks) == 1
    ensures Launch(m, 0, at, []).leaked == {} && Launch(m, 0, at, []).current == 0
    ensures Top(Launch(m, 0, at, []), 0).pid == 0
  {
    NothingTaken(m);
    LaunchKeeps(m, 0, at, []);
    TotalUpdate(m.stacks, 0, Launch(m, 0, at, []).stacks[0]);
  }

  lemma NothingTaken(m: Machine)
    requires Unstarted(m)
    ensures Taken(m) == {} && NextPid(m) == 0 && !Full(m) && Total(m.stacks) == 0
  {
    NoneTotal(m.stacks);
    UsedSize(m.stacks);
  }

  lemma {:induction false} NoneTotal(stacks: seq<seq<Frame>>)
    requires forall t :: 0 <= t < |stacks| ==> stacks[t] == []
    ensures Total(stacks) == 0
  {
    if stacks != [] {
      NoneTotal(stacks[..|stacks| - 1]);
    }
  }

  /** The first shell gets pid 0 on terminal 0. */
  lemma BootedIsTwoRun(m: Machine, at: Ctx)
    requires Unstarted(m) && NUM_TERM >= 2 && MAX_NUM_PROC >= 3
    ensures !Full(m) && TwoRun(Launch(m, 0, at, []), [0], [], 0, {}) && Launch(m, 0, at, []).viewing == 0
  {
    TwoUse(m, [], [], 0);
    LaunchKeeps(m, 0, at, []);
    LaunchUsed(m, 0, at, []);
  }

  lemma StaleRunLeads(m: Machine) returns (m': Machine)
    requires TwoRun(m, [0], [], 0, {}) && m.viewing == 0
    ensures Leads(m, OpeningPart() + EndingPart() + FaultingPart() + LaunchingPart(), m')
    ensures TwoRun(m', [0] + [2], [1], 0, {2} - {2})
    ensures Top(m', 0).tainted && Top(m', 0).caller == OnStackOf(0)
  {
    var m1 := StaleRunOpens(m);
    var m2 := StaleRunEnds(m1);
    LeadsOn(m, OpeningPart(), m1, EndingPart(), m2);
    var m3 := StaleRunFaults(m2);
    LeadsOn(m, OpeningPart() + EndingPart(), m2, FaultingPart(), m3);
    m' := StaleRunLaunches(m3);
    LeadsOn(m, OpeningPart() + EndingPart() + FaultingPart(), m3, LaunchingPart(), m');
  }

  /** A program that ends in the ordinary way can deliver 256: on this run from boot the flag of a
      replaced shell survives in the PCB that the next program with the same pid gets. */
  lemma StaleFlagDelivers256(m: Machine, at: Ctx, status: byte, relaunch: Ctx) returns (m': Machine)
    requires Unstarted(m) && NUM_TERM >= 2 && MAX_NUM_PROC >= 3
    ensures !Full(m)
    ensures Leads(Launch(m, 0, at, []), OpeningPart() + EndingPart() + FaultingPart() + LaunchingPart(), m')
    ensures Step(m', Halt(status, false, relaunch)).1 == Returned(OnStackOf(0), 256)
  {
    BootedIsTwoRun(m, at);
    m' := StaleRunLeads(Launch(m, 0, at, []));
  }

  /** On this run from boot a second terminal is opened and the first one gets the processor back; then
      opening a third one happens while the terminal in view is not the running one. */
  lemma OpeningOutOfViewHappens(m: Machine, at: Ctx, launch: Ctx) returns (m': Machine)
    requires Unstarted(m) && NUM_TERM >= 3 && MAX_NUM_PROC >= 3
    ensures !Full(m)
    ensures Leads(Launch(m, 0, at, []), [SwitchTo(1, OnStackOf(0), OnStackOf(1))] + [Tick(OnStackOf(1))], m')
    ensures Possible(m', SwitchTo(2, OnStackOf(0), launch)) && !OpensInView(m', SwitchTo(2, OnStackOf(0), launch))
    ensures TwoRun(m', [0], [1], 0, {}) && m'.viewing == 1
  {
    BootedIsTwoRun(m, at);
    var m0 := Launch(m, 0, at, []);
    var open, tick := SwitchTo(1, OnStackOf(0), OnStackOf(1)), Tick(OnStackOf(1));
    var m1 := TwoOpen(m0, open, [0], 1);
    m' := TwoTick(m1, tick, [0], [1], 1, {});
    LeadsOn(m0, [open], m1, [tick], m');
    TwoIsLowest();
    TwoUse(m', [0], [1], 2);
  }
}
