/**
  What becomes of a context that is saved in the PCB of the wrong terminal.
 */
module Misplaced {
  import opened Common
  import opened Layout
  import opened Machine
  import opened ProcessTables
  import opened Runs

  /** The tables when terminal_switch has left for terminal dest, with terminal v in view before. */
  function LeftTables(k: Tables, v: nat, dest: nat, c: Ctx): Tables
    requires Sized(k) && v < NUM_TERM && k.heads[v] < |k.pcbs|
  {
    Saved(k, k.heads[v], c).(current := dest).(viewing := dest)
  }

  /** The tables after a tick to terminal next. */
  function TickedTables(k: Tables, next: nat, c: Ctx): Tables
    requires Sized(k) && next < NUM_TERM && k.heads[k.current] < |k.pcbs|
  {
    Saved(k, k.heads[k.current], c).(current := next, userEntry := UserEntry(k.heads[next]),
                                     esp0 := GetEsp0(k.heads[next]))
  }

  /** Three terminals run a program each, with pids 0, 1 and 2. */
  ghost predicate ThreeRun(m: Machine, current: nat) {
    && WellFormed(m) && NUM_TERM >= 3 && m.current == current < 3
    && (forall t :: 0 <= t < 3 ==> |m.stacks[t]| == 1 && m.stacks[t][0].pid == t)
    && (forall t :: 3 <= t < NUM_TERM ==> m.stacks[t] == [])
  }

  lemma ThirdRuns(m: Machine, c: Ctx, launch: Ctx)
    requires TwoRun(m, [0], [1], 0, {}) && m.viewing == 1 && NUM_TERM >= 3 && OnStack(c, 0)
    ensures Possible(m, SwitchTo(2, c, launch)) && NextPid(m) == 2
    ensures var m1 := Suspend(m, 2, c).(viewing := 2);
      Shaped(m1) && !Full(m1) && Step(m, SwitchTo(2, c, launch)).0 == Launch(m1, 2, launch, [])
    ensures ThreeRun(Step(m, SwitchTo(2, c, launch)).0, 2)
  {
    TwoIsLowest();
    TwoUse(m, [0], [1], 2);
    StepKeepsWellFormed(m, SwitchTo(2, c, launch));
  }

  lemma ThirdOpens(k: Tables, m: Machine, c: Ctx, launch: Ctx)
    requires TwoRun(m, [0], [1], 0, {}) && m.viewing == 1 && NUM_TERM >= 3 && Views(k, m) && OnStack(c, 0)
    ensures Possible(m, SwitchTo(2, c, launch)) && k.heads[1] == 1 < |k.pcbs|
    ensures ThreeRun(Step(m, SwitchTo(2, c, launch)).0, 2)
    ensures Views(Started(LeftTables(k, 1, 2, c), 2, launch, []), Step(m, SwitchTo(2, c, launch)).0)
  {
    ThirdRuns(m, c, launch);
    assert HeadIs(k, m, 1);
    LeftViews(k, m, c);
    StartedViews(LeftTables(k, 1, 2, c), Suspend(m, 2, c).(viewing := 2), launch, []);
  }

  lemma LeftViews(k: Tables, m: Machine, c: Ctx)
    requires NUM_TERM >= 3 && MAX_NUM_PROC >= 2 && Views(k, m) && !Live(m, 2) && k.heads[1] == 1
    ensures Views(LeftTables(k, 1, 2, c), Suspend(m, 2, c).(viewing := 2))
  {
    OpenedViews(k, m, 2, 1, c);
    ViewingViews(Saved(k, 1, c).(current := 2), Suspend(m, 2, c), 2);
  }

  lemma TickFrom(k: Tables, m: Machine, from: nat, to: nat, c: Ctx)
    requires ThreeRun(m, from) && Views(k, m) && OnStack(c, from)
    requires (from == 2 && to == 0) || (from == 0 && to == 1)
    ensures Possible(m, Tick(c)) && Step(m, Tick(c)).0.current == to && ThreeRun(Step(m, Tick(c)).0, to)
    ensures k.heads[from] == from < |k.pcbs| && Views(TickedTables(k, to, c), Step(m, Tick(c)).0)
  {
    ScanFindsNearest(Lengths(m.stacks), from, Next(from));
    NearestIs(m, from, to);
    StepKeepsWellFormed(m, Tick(c));
    HeadOfCurrent(k, m);
    SwitchedViews(k, m, to, c);
  }

  lemma NearestIs(m: Machine, from: nat, to: nat)
    requires ThreeRun(m, from) && ((from == 2 && to == 0) || (from == 0 && to == 1))
    ensures Scan(Lengths(m.stacks), from, Next(from)) == to
  {
    ScanFindsNearest(Lengths(m.stacks), from, Next(from));
    assert Lengths(m.stacks)[to] > 0;
    var r := Scan(Lengths(m.stacks), from, Next(from));
    assert r != from && Lengths(m.stacks)[r] > 0 && r < 3;
  }

  /**
    The run of Runs.OpeningOutOfViewHappens goes on: the third terminal is opened with c interrupted on
    terminal 0, while terminal 1 is in view.  The second tick from then on reaches terminal 1 and continues
    c there, on the kernel stack of terminal 0, instead of what was interrupted on terminal 1.
   */
  lemma ForeignContextContinues(k: Tables, m: Machine, c: Ctx, launch: Ctx, c2: Ctx, c3: Ctx)
    requires TwoRun(m, [0], [1], 0, {}) && m.viewing == 1 && NUM_TERM >= 3 && Views(k, m)
    requires OnStack(c, 0) && OnStack(c2, 2) && OnStack(c3, 0)
    ensures Possible(m, SwitchTo(2, c, launch)) && k.heads[1] < |k.pcbs|
    ensures var m1, k1 := Step(m, SwitchTo(2, c, launch)).0, Started(LeftTables(k, 1, 2, c), 2, launch, []);
      && WellFormed(m1) && Possible(m1, Tick(c2)) && Views(k1, m1) && k1.heads[k1.current] < |k1.pcbs|
      && var m2, k2 := Step(m1, Tick(c2)).0, TickedTables(k1, 0, c2);
      && WellFormed(m2) && Possible(m2, Tick(c3)) && Views(k2, m2)
      && Step(m2, Tick(c3)).0.current == 1
      && TickLoads(k2, m2) == Switched(c) != Step(m2, Tick(c3)).1
  {
    ThirdOpens(k, m, c, launch);
    var m1, k1 := Step(m, SwitchTo(2, c, launch)).0, Started(LeftTables(k, 1, 2, c), 2, launch, []);
    TickFrom(k1, m1, 2, 0, c2);
    var m2, k2 := Step(m1, Tick(c2)).0, TickedTables(k1, 0, c2);
    assert k2.heads[1] == k.heads[1] == 1 && k2.pcbs[1].self == c;
    TickFrom(k2, m2, 0, 1, c3);
    TickAfterOpeningIsWrong(k2, m2, 1, c, 0, c3);
  }
}
