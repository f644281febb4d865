/**
  What the process tables mean: for every terminal a stack of running programs.  The kernel's
  counters, heads, parent links, page mapping and stack pointer are all views of this object.
 */
module Machine {
  import opened Common
  import opened Layout

  /** One running program: its pid, where the launching `execute` continues, its arguments, and
      whether its PCB still carried an exception flag of an earlier program when it was launched. */
  datatype Frame = Frame(pid: nat, caller: Ctx, args: seq<byte>, tainted: bool)

  /** flagged: the free pids whose PCB carries an exception flag; leaked: the pids that are taken but
      belong to no program; page: the pid whose page the user window shows. */
  datatype Machine = Machine(
    stacks: seq<seq<Frame>>,
    current: nat,
    viewing: nat,
    suspended: map<nat, Ctx>,
    flagged: set<nat>,
    leaked: set<nat>,
    page: nat)

  /** How an execute ends that got a pid: without a command, before anything is loaded, with the program
      launched, after loading failed, or with the load running into an address that is not mapped. */
  datatype Execution = NoCommand | NotFound | Launches | FailsLate | RunsOver

  datatype Event =
    | Execute(at: Ctx, args: seq<byte>, x: Execution)
    | Halt(status: byte, fault: bool, relaunch: Ctx)
    | Tick(interrupted: Ctx)
    | SwitchTo(dest: nat, interrupted: Ctx, launch: Ctx)

  datatype Outcome =
    | Entered(pid: nat)              // a new program starts in user mode
    | Returned(to: Ctx, value: int)  // an `execute` returns to its caller
    | Switched(to: Ctx)              // the context of another terminal continues
    | Refused                        // the caller gets -1
    | Faults                         // the processor raises a page fault in the kernel
    | Unchanged                      // the interrupted program continues

  // ---------- pids ----------

  ghost predicate At(stacks: seq<seq<Frame>>, t: nat, i: nat) {
    t < |stacks| && i < |stacks[t]|
  }

  ghost function Used(stacks: seq<seq<Frame>>): set<nat> {
    set t: nat, i: nat | t < |stacks| && i < |stacks[t]| :: stacks[t][i].pid
  }

  ghost predicate Distinct(stacks: seq<seq<Frame>>) {
    forall t: nat, i: nat, u: nat, j: nat ::
      At(stacks, t, i) && At(stacks, u, j) && stacks[t][i].pid == stacks[u][j].pid ==> t == u && i == j
  }

  /** The number of running programs on all terminals together. */
  function Total(stacks: seq<seq<Frame>>): nat {
    if stacks == [] then 0 else Total(stacks[..|stacks| - 1]) + |stacks[|stacks| - 1]|
  }

  ghost function AllPids(n: nat): (all: set<nat>)
    ensures |all| == n
    ensures forall p: nat :: p in all <==> p < n
  {
    if n == 0 then {} else AllPids(n - 1) + {n - 1}
  }

  ghost function Pids(s: seq<Frame>): set<nat> {
    set i: nat | i < |s| :: s[i].pid
  }

  /** The lowest pid from `from` on that is not used; MAX_NUM_PROC if there is none. */
  ghost function LeastFree(used: set<nat>, from: nat): (p: nat)
    requires from <= MAX_NUM_PROC
    ensures from <= p <= MAX_NUM_PROC
    ensures p < MAX_NUM_PROC ==> p !in used
    ensures forall q :: from <= q < p ==> q in used
    decreases MAX_NUM_PROC - from
  {
    if from == MAX_NUM_PROC || from !in used then from else LeastFree(used, from + 1)
  }

  lemma {:induction false} SubsetSize(a: set<nat>, b: set<nat>)
    requires a <= b
    ensures |a| <= |b|
    ensures |a| == |b| ==> a == b
  {
    if a != {} {
      var x :| x in a;
      SubsetSize(a - {x}, b - {x});
    }
  }

  lemma {:induction false} StackSize(s: seq<Frame>)
    requires forall i, j :: 0 <= i < j < |s| ==> s[i].pid != s[j].pid
    ensures |Pids(s)| == |s|
  {
    var n := |s| - 1;
    if s == [] {
      assert Pids(s) == {};
    } else {
      StackSize(s[..n]);
      assert s[n].pid !in Pids(s[..n]);
      assert Pids(s) == Pids(s[..n]) + {s[n].pid};
    }
  }

  lemma UsedSplit(stacks: seq<seq<Frame>>)
    requires stacks != []
    ensures Used(stacks) == Used(stacks[..|stacks| - 1]) + Pids(stacks[|stacks| - 1])
  {
    var n := |stacks| - 1;
    var rest := stacks[..n];
    forall p | p in Used(stacks) ensures p in Used(rest) + Pids(stacks[n]) {
      var t: nat, i: nat :| t < |stacks| && i < |stacks[t]| && stacks[t][i].pid == p;
      if t < n { assert rest[t][i].pid == p; }
    }
    forall p | p in Used(rest) ensures p in Used(stacks) {
      var t: nat, i: nat :| t < |rest| && i < |rest[t]| && rest[t][i].pid == p;
      assert stacks[t][i].pid == p;
    }
  }

  lemma LastIsApart(stacks: seq<seq<Frame>>)
    requires Distinct(stacks) && stacks != []
    ensures Used(stacks[..|stacks| - 1]) !! Pids(stacks[|stacks| - 1])
  {
    var n := |stacks| - 1;
    var rest := stacks[..n];
    forall p | p in Used(rest) ensures p !in Pids(stacks[n]) {
      var t: nat, i: nat :| t < |rest| && i < |rest[t]| && rest[t][i].pid == p;
      assert At(stacks, t, i);
      forall j: nat | j < |stacks[n]| ensures stacks[n][j].pid != p {
        assert At(stacks, n, j);
      }
    }
  }

  /** Every running program has a pid of its own, so the pids count the programs. */
  lemma {:induction false} UsedSize(stacks: seq<seq<Frame>>)
    requires Distinct(stacks)
    ensures |Used(stacks)| == Total(stacks)
  {
    if stacks == [] {
      assert Used(stacks) == {};
    } else {
      var n := |stacks| - 1;
      assert Distinct(stacks[..n]) by {
        assert forall t: nat, i: nat :: At(stacks[..n], t, i) ==> At(stacks, t, i);
      }
      UsedSize(stacks[..n]);
      UsedSplit(stacks);
      LastIsApart(stacks);
      assert |Pids(stacks[n])| == |stacks[n]| by {
        assert forall i: nat :: i < |stacks[n]| ==> At(stacks, n, i);
        StackSize(stacks[n]);
      }
    }
  }

  lemma {:induction false} TotalUpdate(stacks: seq<seq<Frame>>, t: nat, s: seq<Frame>)
    requires t < |stacks|
    ensures Total(stacks[t := s]) == Total(stacks) - |stacks[t]| + |s|
  {
    var n := |stacks| - 1;
    var next := stacks[t := s];
    if t == n {
      assert next[..n] == stacks[..n];
    } else {
      TotalUpdate(stacks[..n], t, s);
      assert next[..n] == stacks[..n][t := s];
    }
  }

  lemma {:induction false} NoneRuns(stacks: seq<seq<Frame>>, t: nat)
    requires Total(stacks) == 0 && t < |stacks|
    ensures stacks[t] == []
  {
    var n := |stacks| - 1;
    if t < n {
      NoneRuns(stacks[..n], t);
    }
  }

  lemma UsedBelow(stacks: seq<seq<Frame>>)
    requires forall t: nat, i: nat :: At(stacks, t, i) ==> stacks[t][i].pid < MAX_NUM_PROC
    ensures forall p :: p in Used(stacks) ==> p < MAX_NUM_PROC
  {
    forall p | p in Used(stacks) ensures p < MAX_NUM_PROC {
      var t: nat, i: nat :| t < |stacks| && i < |stacks[t]| && stacks[t][i].pid == p;
      assert At(stacks, t, i);
    }
  }

  /** Pigeonhole: no pid is free exactly when MAX_NUM_PROC are taken. */
  lemma NoneFreeIffAll(taken: set<nat>)
    requires forall p :: p in taken ==> p < MAX_NUM_PROC
    ensures |taken| <= MAX_NUM_PROC
    ensures LeastFree(taken, 0) == MAX_NUM_PROC <==> |taken| == MAX_NUM_PROC
  {
    var all := AllPids(MAX_NUM_PROC);
    SubsetSize(taken, all);
    if LeastFree(taken, 0) == MAX_NUM_PROC {
      assert all <= taken;
      assert taken == all;
    }
  }

  // ---------- scheduling ----------

  function Next(t: nat): (n: nat)
    requires t < NUM_TERM
    ensures n < NUM_TERM
  {
    if t + 1 == NUM_TERM then 0 else t + 1
  }

  /** How many places round-robin order has to advance from a to b. */
  function Dist(a: nat, b: nat): nat
    requires a < NUM_TERM && b < NUM_TERM
  {
    if a <= b then b - a else b + NUM_TERM - a
  }

  /** The scan of the scheduler: the first live terminal from t on, stopping at `from`. */
  function Scan(totals: seq<nat>, from: nat, t: nat): (r: nat)
    requires |totals| == NUM_TERM && from < NUM_TERM && t < NUM_TERM
    ensures r < NUM_TERM
    decreases Dist(t, from)
  {
    if t == from || totals[t] > 0 then t else Scan(totals, from, Next(t))
  }

  /** The scan returns the cyclically nearest live terminal other than `from`, or `from` itself
      when there is no other. */
  lemma {:induction false} ScanFindsNearest(totals: seq<nat>, from: nat, t: nat)
    requires |totals| == NUM_TERM && from < NUM_TERM && t < NUM_TERM
    ensures var r := Scan(totals, from, t);
      && (r != from ==> totals[r] > 0)
      && Dist(t, r) <= Dist(t, from)
      && (forall u :: 0 <= u < NUM_TERM && totals[u] > 0 && Dist(t, u) < Dist(t, from) ==>
            r != from && Dist(t, r) <= Dist(t, u))
    decreases Dist(t, from)
  {
    if t != from && totals[t] == 0 {
      ScanFindsNearest(totals, from, Next(t));
      forall u | 0 <= u < NUM_TERM && totals[u] > 0 && Dist(t, u) < Dist(t, from)
        ensures Dist(Next(t), u) == Dist(t, u) - 1
      {
      }
    }
  }

  /** The e-th terminal behind another one, counting around. */
  function Behind(from: nat, e: nat): (t: nat)
    ensures t < NUM_TERM
  {
    (from + e) % NUM_TERM
  }

  lemma BehindIs(from: nat, e: nat)
    requires from < NUM_TERM && e < NUM_TERM
    ensures Behind(from, e) == from <==> e == 0
    ensures Next(Behind(from, e)) == Behind(from, e + 1) && Behind(from, NUM_TERM) == from
  {
    PlaceInRing(from, e, NUM_TERM);
    PlaceInRing(from, e + 1, NUM_TERM);
    PlaceInRing(from, NUM_TERM, NUM_TERM);
  }

  lemma {:induction false} ScanCounts(totals: seq<nat>, from: nat, j: nat) returns (d: nat)
    requires |totals| == NUM_TERM && from < NUM_TERM && 1 <= j <= NUM_TERM
    ensures j <= d <= NUM_TERM && Scan(totals, from, Behind(from, j)) == Behind(from, d)
    ensures d == NUM_TERM || totals[Behind(from, d)] > 0
    ensures forall e :: j <= e < d ==> totals[Behind(from, e)] == 0
    decreases NUM_TERM - j
  {
    d := j;
    BehindIs(from, 0);
    if j < NUM_TERM {
      BehindIs(from, j);
      if totals[Behind(from, j)] == 0 {
        d := ScanCounts(totals, from, j + 1);
      }
    }
  }

  function Lengths(stacks: seq<seq<Frame>>): seq<nat> {
    seq(|stacks|, t requires 0 <= t < |stacks| => |stacks[t]|)
  }

  // ---------- states ----------

  ghost predicate Shaped(m: Machine) {
    && |m.stacks| == NUM_TERM && m.current < NUM_TERM && m.viewing < NUM_TERM
    && Distinct(m.stacks)
    && (forall t: nat, i: nat :: At(m.stacks, t, i) ==> m.stacks[t][i].pid < MAX_NUM_PROC)
    && m.leaked !! Used(m.stacks) && (forall p :: p in m.leaked ==> p < MAX_NUM_PROC)
  }

  ghost function Taken(m: Machine): set<nat> {
    Used(m.stacks) + m.leaked
  }

  /** The pid an execute gets; MAX_NUM_PROC if there is none. */
  ghost function NextPid(m: Machine): (p: nat)
    ensures p < MAX_NUM_PROC ==> p !in Used(m.stacks) && p !in m.leaked
  {
    LeastFree(Taken(m), 0)
  }

  predicate Live(m: Machine, t: nat)
    requires |m.stacks| == NUM_TERM
  {
    t < NUM_TERM && m.stacks[t] != []
  }

  function Top(m: Machine, t: nat): Frame
    requires |m.stacks| == NUM_TERM && Live(m, t)
  {
    m.stacks[t][|m.stacks[t]| - 1]
  }

  /** The program that has the processor. */
  function Running(m: Machine): Frame {
    if |m.stacks| == NUM_TERM && Live(m, m.current) then Top(m, m.current) else Frame(0, Ctx(0, 0), [], false)
  }

  /** A launching `execute` waits on the kernel stack of the program that called it. */
  ghost predicate CallersWait(m: Machine) {
    forall t: nat, i: nat :: At(m.stacks, t, i) && 0 < i ==>
      OnStack(m.stacks[t][i].caller, m.stacks[t][i - 1].pid)
  }

  /** Every live terminal that is not running waits somewhere on its own head's kernel stack. */
  ghost predicate OthersWait(m: Machine)
    requires |m.stacks| == NUM_TERM
  {
    forall t: nat :: Live(m, t) && t != m.current ==>
      t in m.suspended && OnStack(m.suspended[t], Top(m, t).pid)
  }

  ghost predicate WellFormed(m: Machine) {
    && Shaped(m)
    && Live(m, m.current) && Live(m, m.viewing)
    && CallersWait(m)
    && OthersWait(m)
    && (forall p :: p in m.flagged ==> p !in Used(m.stacks))
  }

  ghost predicate Full(m: Machine) {
    NextPid(m) == MAX_NUM_PROC
  }

  /** No pid is free although fewer than MAX_NUM_PROC programs run. */
  ghost predicate Short(m: Machine) {
    Full(m) && Total(m.stacks) < MAX_NUM_PROC
  }

  /** The user window shows the page of the program that runs. */
  predicate Homed(m: Machine) {
    |m.stacks| == NUM_TERM && Live(m, m.current) ==> m.page == Top(m, m.current).pid
  }

  lemma FullIffCount(m: Machine)
    requires Shaped(m)
    ensures Full(m) <==> Total(m.stacks) + |m.leaked| == MAX_NUM_PROC
    ensures Total(m.stacks) <= MAX_NUM_PROC && (Total(m.stacks) == MAX_NUM_PROC ==> Full(m))
  {
    UsedBelow(m.stacks);
    UsedSize(m.stacks);
    NoneFreeIffAll(Taken(m));
    assert |Taken(m)| == |Used(m.stacks)| + |m.leaked|;
  }

  /** The limit check of terminal_switch is right as long as no pid has leaked; without a free pid it is
      wrong exactly if one has. */
  lemma ShortIffLeaked(m: Machine)
    requires Shaped(m)
    ensures Full(m) ==> (Short(m) <==> m.leaked != {})
    ensures m.leaked == {} ==> (Full(m) <==> Total(m.stacks) == MAX_NUM_PROC)
  {
    FullIffCount(m);
  }

  // ---------- steps ----------

  /** Put a new program on terminal t. */
  ghost function Launch(m: Machine, t: nat, caller: Ctx, args: seq<byte>): Machine
    requires Shaped(m) && t < NUM_TERM && !Full(m)
  {
    var p := NextPid(m);
    m.(stacks := m.stacks[t := m.stacks[t] + [Frame(p, caller, args, p in m.flagged)]],
       flagged := m.flagged - {p}, page := p)
  }

  /** A pid is taken for good. */
  ghost function Leaking(m: Machine): Machine {
    m.(leaked := m.leaked + {NextPid(m)})
  }

  /** The program on top ends; the one below, if any, has its page back. */
  function Popped(m: Machine): Machine
    requires |m.stacks| == NUM_TERM && Live(m, m.current)
  {
    var s := m.stacks[m.current];
    m.(stacks := m.stacks[m.current := s[..|s| - 1]], page := if |s| > 1 then s[|s| - 2].pid else m.page)
  }

  /** The state in which the shell of an emptied terminal is relaunched. */
  function Emptied(m: Machine, fault: bool): Machine
    requires |m.stacks| == NUM_TERM && Live(m, m.current)
  {
    var top := Top(m, m.current);
    Popped(m).(flagged := if top.tainted || fault then m.flagged + {top.pid} else m.flagged)
  }

  /** An event is possible where the hardware can raise it: on the stack of the running program.  A
      terminal that runs nothing can be asked for unless the limit check would let it open without a
      pid for its shell. */
  ghost predicate Possible(m: Machine, e: Event)
    requires WellFormed(m)
  {
    match e
    case Execute(at, _, _) => OnStack(at, Top(m, m.current).pid)
    case Halt(_, _, _) => true
    case Tick(c) => OnStack(c, Top(m, m.current).pid)
    case SwitchTo(dest, c, _) =>
      dest < NUM_TERM && OnStack(c, Top(m, m.current).pid) && (dest == m.viewing || Live(m, dest) || !Short(m))
  }

  /** An execute: without a free pid nothing happens. */
  ghost function ExecuteStep(m: Machine, at: Ctx, args: seq<byte>, x: Execution): (Machine, Outcome)
    requires Shaped(m)
  {
    if Full(m) then (m, Refused)
    else match x
      case NoCommand => (Leaking(m), Refused)
      case NotFound => (m, Refused)
      case Launches => (Launch(m, m.current, at, args), Entered(NextPid(m)))
      case FailsLate => (m.(page := NextPid(m)), Refused)
      case RunsOver => (Leaking(m).(page := NextPid(m)), Faults)
  }

  ghost function Step(m: Machine, e: Event): (Machine, Outcome)
    requires WellFormed(m) && Possible(m, e)
  {
    var t := m.current;
    match e
    case Execute(at, args, x) => ExecuteStep(m, at, args, x)
    case Halt(status, fault, relaunch) =>
      var top := Top(m, t);
      if |m.stacks[t]| == 1 then
        var m' := Emptied(m, fault);
        EmptiedHasRoom(m, fault);
        (Launch(m', t, relaunch, []), Entered(NextPid(m')))
      else
        (Popped(m), Returned(top.caller, if fault || top.tainted then 256 else status))
    case Tick(c) =>
      var n := Scan(Lengths(m.stacks), t, Next(t));
      if n == t then (m, Unchanged)
      else
        ScanFindsNearest(Lengths(m.stacks), t, Next(t));
        (m.(current := n, suspended := m.suspended[t := c], page := Top(m, n).pid), Switched(m.suspended[n]))
    case SwitchTo(dest, c, launch) =>
      if dest == m.viewing then (m, Unchanged)
      else if Live(m, dest) then (m.(viewing := dest), Unchanged)
      else if Full(m) then (m, Unchanged)
      else
        (Launch(m.(viewing := dest, current := dest, suspended := m.suspended[t := c]), dest, launch, []),
         Entered(NextPid(m)))
  }

  /** Counting on from the running terminal and around, a tick gives the processor to the first terminal
      that runs something; after a whole round to the running one. */
  lemma TickCountsOn(m: Machine, c: Ctx) returns (d: nat)
    requires WellFormed(m) && Possible(m, Tick(c))
    ensures 1 <= d <= NUM_TERM && Step(m, Tick(c)).0.current == Behind(m.current, d)
    ensures m.stacks[Behind(m.current, d)] != []
    ensures forall e :: 1 <= e < d ==> m.stacks[Behind(m.current, e)] == []
  {
    PlaceInRing(m.current, 1, NUM_TERM);
    BehindIs(m.current, 0);
    d := ScanCounts(Lengths(m.stacks), m.current, 1);
  }

  /** An execute launches a program on the running terminal, or changes no more than the leaked pids
      and the page in the user window. */
  lemma ExecuteShape(m: Machine, e: Event)
    requires WellFormed(m) && e.Execute? && Possible(m, e)
    ensures if !Full(m) && e.x.Launches? then Step(m, e).0 == Launch(m, m.current, e.at, e.args)
            else Step(m, e).0 == m.(leaked := Step(m, e).0.leaked, page := Step(m, e).0.page)
  {
  }

  /** How one terminal's stack changes in a step: not at all, by a program on top, by losing the one on
      top, or by the replacement of its only program. */
  ghost predicate Stepped(s: seq<Frame>, s': seq<Frame>) {
    || s' == s
    || (|s'| == |s| + 1 && s'[..|s|] == s)
    || (|s| > 1 && s' == s[..|s| - 1])
    || |s| == |s'| == 1
  }

  lemma ExecuteSteps(m: Machine, e: Event, t: nat)
    requires WellFormed(m) && e.Execute? && Possible(m, e) && t < NUM_TERM
    ensures |Step(m, e).0.stacks| == NUM_TERM && Stepped(m.stacks[t], Step(m, e).0.stacks[t])
    ensures t != m.current ==> Step(m, e).0.stacks[t] == m.stacks[t]
  {
    ExecuteShape(m, e);
  }

  lemma HaltSteps(m: Machine, e: Event, t: nat)
    requires WellFormed(m) && e.Halt? && t < NUM_TERM
    ensures |Step(m, e).0.stacks| == NUM_TERM && Stepped(m.stacks[t], Step(m, e).0.stacks[t])
    ensures t != m.current ==> Step(m, e).0.stacks[t] == m.stacks[t]
  {
  }

  /** Only the terminal that runs, before or after the step, changes its stack. */
  lemma StackSteps(m: Machine, e: Event, t: nat)
    requires WellFormed(m) && Possible(m, e) && t < NUM_TERM
    ensures |Step(m, e).0.stacks| == NUM_TERM && Stepped(m.stacks[t], Step(m, e).0.stacks[t])
    ensures t != m.current && t != Step(m, e).0.current ==> Step(m, e).0.stacks[t] == m.stacks[t]
  {
    match e
    case Execute(_, _, _) => ExecuteSteps(m, e, t);
    case Halt(_, _, _) => HaltSteps(m, e, t);
    case Tick(_) =>
    case SwitchTo(_, _, _) =>
  }

  /** Halting a root program frees the pid its replacement needs: the relaunch cannot fail. */
  lemma EmptiedHasRoom(m: Machine, fault: bool)
    requires WellFormed(m) && |m.stacks[m.current]| == 1
    ensures Shaped(Emptied(m, fault)) && !Full(Emptied(m, fault))
    ensures Used(Emptied(m, fault).stacks) == Used(m.stacks) - {Top(m, m.current).pid}
  {
    PopUsed(m);
    var top := Top(m, m.current);
    assert At(m.stacks, m.current, 0);
    assert top.pid !in Used(Popped(m).stacks);
  }

  lemma PopUsed(m: Machine)
    requires Shaped(m) && Live(m, m.current)
    ensures Shaped(Popped(m))
    ensures Used(Popped(m).stacks) == Used(m.stacks) - {Top(m, m.current).pid}
  {
    var before, after, c := m.stacks, Popped(m).stacks, m.current;
    var last := |before[c]| - 1;
    assert forall t: nat, i: nat :: At(after, t, i) ==> At(before, t, i) && after[t][i] == before[t][i];
    forall p | p in Used(after) ensures p in Used(before) && p != before[c][last].pid {
      var t: nat, i: nat :| t < |after| && i < |after[t]| && after[t][i].pid == p;
      assert At(after, t, i) && At(before, c, last);
      assert before[t][i].pid == p;
    }
    forall p | p in Used(before) && p != before[c][last].pid ensures p in Used(after) {
      var t: nat, i: nat :| t < |before| && i < |before[t]| && before[t][i].pid == p;
      assert after[t][i].pid == p;
    }
  }

  lemma PushUsed(stacks: seq<seq<Frame>>, t: nat, f: Frame)
    requires t < |stacks|
    ensures Used(stacks[t := stacks[t] + [f]]) == Used(stacks) + {f.pid}
  {
    var after, last := stacks[t := stacks[t] + [f]], |stacks[t]|;
    forall q | q in Used(stacks) ensures q in Used(after) {
      var u: nat, i: nat :| u < |stacks| && i < |stacks[u]| && stacks[u][i].pid == q;
      assert after[u][i].pid == q;
    }
    assert after[t][last].pid == f.pid;
    forall q | q in Used(after) ensures q in Used(stacks) + {f.pid} {
      var u: nat, i: nat :| u < |after| && i < |after[u]| && after[u][i].pid == q;
      if !(u == t && i == last) {
        assert stacks[u][i].pid == q;
      }
    }
  }

  lemma PushDistinct(stacks: seq<seq<Frame>>, t: nat, f: Frame)
    requires t < |stacks| && Distinct(stacks) && f.pid !in Used(stacks)
    ensures Distinct(stacks[t := stacks[t] + [f]])
  {
    var after, last := stacks[t := stacks[t] + [f]], |stacks[t]|;
    forall u: nat, i: nat | At(after, u, i) && !(u == t && i == last)
      ensures At(stacks, u, i) && after[u][i] == stacks[u][i] && after[u][i].pid in Used(stacks)
    {
    }
  }

  lemma LaunchUsed(m: Machine, t: nat, caller: Ctx, args: seq<byte>)
    requires Shaped(m) && t < NUM_TERM && !Full(m)
    ensures Shaped(Launch(m, t, caller, args))
    ensures Used(Launch(m, t, caller, args).stacks) == Used(m.stacks) + {NextPid(m)}
  {
    var f := Frame(NextPid(m), caller, args, NextPid(m) in m.flagged);
    PushUsed(m.stacks, t, f);
    PushDistinct(m.stacks, t, f);
    var after := Launch(m, t, caller, args).stacks;
    assert after == m.stacks[t := m.stacks[t] + [f]];
    forall u: nat, i: nat | At(after, u, i) ensures after[u][i].pid < MAX_NUM_PROC {
      assert At(m.stacks, u, i) || after[u][i] == f;
    }
  }

  ghost predicate FlagsAreFree(m: Machine) {
    forall p :: p in m.flagged ==> p !in Used(m.stacks)
  }

  lemma LaunchKeeps(m: Machine, t: nat, caller: Ctx, args: seq<byte>)
    requires Shaped(m) && t < NUM_TERM && !Full(m) && CallersWait(m) && FlagsAreFree(m)
    requires Live(m, t) ==> OnStack(caller, Top(m, t).pid)
    ensures Shaped(Launch(m, t, caller, args))
    ensures CallersWait(Launch(m, t, caller, args)) && FlagsAreFree(Launch(m, t, caller, args))
  {
    LaunchUsed(m, t, caller, args);
    var m' := Launch(m, t, caller, args);
    forall u: nat, i: nat | At(m'.stacks, u, i) && 0 < i
      ensures OnStack(m'.stacks[u][i].caller, m'.stacks[u][i - 1].pid)
    {
      if !(u == t && i == |m.stacks[t]|) {
        assert At(m.stacks, u, i);
      }
    }
  }

  lemma PopKeeps(m: Machine)
    requires WellFormed(m)
    ensures Shaped(Popped(m)) && CallersWait(Popped(m)) && FlagsAreFree(Popped(m))
  {
    PopUsed(m);
    var m' := Popped(m);
    forall u: nat, i: nat | At(m'.stacks, u, i) && 0 < i
      ensures OnStack(m'.stacks[u][i].caller, m'.stacks[u][i - 1].pid)
    {
      assert At(m.stacks, u, i);
    }
  }

  lemma EmptiedKeeps(m: Machine, fault: bool)
    requires WellFormed(m) && |m.stacks[m.current]| == 1
    ensures Shaped(Emptied(m, fault)) && CallersWait(Emptied(m, fault)) && FlagsAreFree(Emptied(m, fault))
    ensures !Full(Emptied(m, fault))
  {
    PopKeeps(m);
    EmptiedHasRoom(m, fault);
    assert Emptied(m, fault).stacks == Popped(m).stacks;
  }

  /** Leaked pids and the page in the user window concern no program. */
  lemma LeakKeeps(m: Machine, leaked: set<nat>, page: nat)
    requires WellFormed(m) && leaked !! Used(m.stacks) && forall p :: p in leaked ==> p < MAX_NUM_PROC
    ensures WellFormed(m.(leaked := leaked, page := page))
  {
  }

  lemma ExecuteKeeps(m: Machine, e: Event)
    requires WellFormed(m) && e.Execute? && Possible(m, e)
    ensures WellFormed(Step(m, e).0)
  {
    if !Full(m) && !e.x.Launches? {
      LeakKeeps(m, Step(m, e).0.leaked, Step(m, e).0.page);
      assert Step(m, e).0 == m.(leaked := Step(m, e).0.leaked, page := Step(m, e).0.page);
    }
    if !Full(m) && e.x.Launches? {
      LaunchKeeps(m, m.current, e.at, e.args);
    }
  }

  lemma ReplacementKeeps(m: Machine, e: Event)
    requires WellFormed(m) && e.Halt? && |m.stacks[m.current]| == 1
    ensures WellFormed(Step(m, e).0)
  {
    EmptiedKeeps(m, e.fault);
    LaunchKeeps(Emptied(m, e.fault), m.current, e.relaunch, []);
    var m' := Step(m, e).0;
    forall t: nat | Live(m', t) && t != m'.current
      ensures t in m'.suspended && OnStack(m'.suspended[t], Top(m', t).pid)
    {
      assert Live(m, t);
    }
  }

  lemma HaltKeeps(m: Machine, e: Event)
    requires WellFormed(m) && e.Halt?
    ensures WellFormed(Step(m, e).0)
  {
    if |m.stacks[m.current]| == 1 {
      ReplacementKeeps(m, e);
    } else {
      PopKeeps(m);
      var m' := Popped(m);
      forall t: nat | Live(m', t) && t != m'.current
        ensures t in m'.suspended && OnStack(m'.suspended[t], Top(m', t).pid)
      {
        assert Live(m, t);
      }
    }
  }

  lemma TickKeeps(m: Machine, e: Event)
    requires WellFormed(m) && e.Tick? && Possible(m, e)
    ensures WellFormed(Step(m, e).0)
  {
    ScanFindsNearest(Lengths(m.stacks), m.current, Next(m.current));
    var m' := Step(m, e).0;
    forall t: nat | Live(m', t) && t != m'.current
      ensures t in m'.suspended && OnStack(m'.suspended[t], Top(m', t).pid)
    {
      assert Live(m, t);
    }
    assert CallersWait(m');
  }

  lemma SwitchKeeps(m: Machine, e: Event)
    requires WellFormed(m) && e.SwitchTo? && Possible(m, e)
    ensures WellFormed(Step(m, e).0)
  {
    if e.dest != m.viewing && !Live(m, e.dest) && !Full(m) {
      var m1 := m.(viewing := e.dest, current := e.dest, suspended := m.suspended[m.current := e.interrupted]);
      assert Used(m1.stacks) == Used(m.stacks);
      LaunchKeeps(m1, e.dest, e.launch, []);
    }
  }

  /** Every step from a well-formed state leads to a well-formed state. */
  lemma StepKeepsWellFormed(m: Machine, e: Event)
    requires WellFormed(m) && Possible(m, e)
    ensures WellFormed(Step(m, e).0)
  {
    match e
    case Execute(_, _, _) => ExecuteKeeps(m, e);
    case Halt(_, _, _) => HaltKeeps(m, e);
    case Tick(_) => TickKeeps(m, e);
    case SwitchTo(_, _, _) => SwitchKeeps(m, e);
  }
}
