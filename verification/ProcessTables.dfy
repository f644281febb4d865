/**
  How the kernel's tables represent the process machine: the allocation flags, the counters, the
  head of every terminal, the parent links, the user page and the kernel stack are redundant views
  of the stacks of running programs.
 */
module ProcessTables {
  import opened Common
  import opened Layout
  import opened Machine

  datatype Pcb = Pcb(pidNum: nat, self: Ctx, haltStat: bool, parent: nat, par: Ctx, args: seq<byte>)

  datatype Tables = Tables(
    inUse: seq<bool>,
    totals: seq<nat>,
    heads: seq<nat>,
    pcbs: seq<Pcb>,
    count: nat,
    current: nat,
    viewing: nat,
    userEntry: nat,
    esp0: int)

  ghost predicate Sized(k: Tables) {
    && |k.inUse| == |k.pcbs| == MAX_NUM_PROC
    && |k.totals| == |k.heads| == NUM_TERM
    && k.current < NUM_TERM && k.viewing < NUM_TERM
  }

  /** PCB contents of program i on terminal t. */
  ghost predicate Describes(pcbs: seq<Pcb>, stacks: seq<seq<Frame>>, t: nat, i: nat)
    requires At(stacks, t, i)
  {
    var f := stacks[t][i];
    f.pid < |pcbs|
    && pcbs[f.pid].pidNum == f.pid
    && pcbs[f.pid].parent == (if i == 0 then f.pid else stacks[t][i - 1].pid)
    && pcbs[f.pid].par == f.caller
    && pcbs[f.pid].haltStat == f.tainted
    && pcbs[f.pid].args == f.args
  }

  ghost predicate HeadIs(k: Tables, m: Machine, t: nat)
    requires Sized(k) && |m.stacks| == NUM_TERM && t < NUM_TERM
  {
    && k.totals[t] == |m.stacks[t]|
    && (m.stacks[t] != [] ==> k.heads[t] == Top(m, t).pid)
  }

  /** The tables k are what the kernel keeps for the machine m. */
  ghost predicate Views(k: Tables, m: Machine) {
    && Sized(k) && Shaped(m)
    && k.current == m.current && k.viewing == m.viewing
    && k.count == Total(m.stacks)
    && (forall p :: 0 <= p < MAX_NUM_PROC ==> (k.inUse[p] <==> p in Taken(m)))
    && (forall t :: 0 <= t < NUM_TERM ==> HeadIs(k, m, t))
    && (forall t: nat, i: nat :: At(m.stacks, t, i) ==> Describes(k.pcbs, m.stacks, t, i))
    && (forall p :: 0 <= p < MAX_NUM_PROC && p !in Used(m.stacks) ==> (k.pcbs[p].haltStat <==> p in m.flagged))
    && (Live(m, m.current) ==>
          k.userEntry == UserEntry(m.page) && k.esp0 == GetEsp0(Top(m, m.current).pid))
  }

  /** The context of terminal t is saved in the PCB of its head. */
  ghost predicate SavedAt(pcbs: seq<Pcb>, m: Machine, t: nat)
    requires |m.stacks| == NUM_TERM && Live(m, t)
  {
    t in m.suspended && Top(m, t).pid < |pcbs| && pcbs[Top(m, t).pid].self == m.suspended[t]
  }

  /** Every live terminal that does not run has its context saved in the PCB of its head. */
  ghost predicate ContextSafe(k: Tables, m: Machine) {
    |m.stacks| == NUM_TERM && forall t: nat :: Live(m, t) && t != m.current ==> SavedAt(k.pcbs, m, t)
  }

  /** What a timer tick continues: whatever context the PCB of the next terminal's head holds. */
  ghost function TickLoads(k: Tables, m: Machine): Outcome
    requires Views(k, m)
  {
    var n := Scan(Lengths(m.stacks), m.current, Next(m.current));
    if n == m.current || k.heads[n] >= |k.pcbs| then Unchanged else Switched(k.pcbs[k.heads[n]].self)
  }

  // ---------- what the tables say by themselves ----------

  /** The process reached from p by n parent links. */
  function Ancestor(pcbs: seq<Pcb>, p: nat, n: nat): nat
    decreases n
  {
    if n == 0 || p >= |pcbs| then p else Ancestor(pcbs, pcbs[p].parent, n - 1)
  }

  ghost predicate OnChain(k: Tables, t: nat, n: nat)
    requires Sized(k)
  {
    t < NUM_TERM && n < k.totals[t]
  }

  /** The n-th process on the parent chain of terminal t, from its head. */
  ghost function Chain(k: Tables, t: nat, n: nat): nat
    requires Sized(k) && t < NUM_TERM
  {
    Ancestor(k.pcbs, k.heads[t], n)
  }

  ghost function Allocated(k: Tables): set<nat>
    requires Sized(k)
  {
    set p: nat | p < MAX_NUM_PROC && k.inUse[p]
  }

  function Sum(s: seq<nat>): nat {
    if s == [] then 0 else Sum(s[..|s| - 1]) + s[|s| - 1]
  }

  /** The parent chains of the terminals are as long as their program counts, run through allocated
      processes to a process that is its own parent and to no other such process before, never meet,
      and cover all allocated pids but the leaked ones; the process count is the number of those and
      the sum of the program counts. */
  ghost predicate Forest(k: Tables, leaked: set<nat>) {
    && Sized(k) && leaked <= Allocated(k)
    && (forall t: nat, n: nat :: OnChain(k, t, n) ==>
          var p := Chain(k, t, n);
          && p < MAX_NUM_PROC && k.inUse[p] && p !in leaked && k.pcbs[p].pidNum == p
          && (k.pcbs[p].parent == p <==> n == k.totals[t] - 1))
    && (forall t: nat, n: nat, u: nat, j: nat ::
          OnChain(k, t, n) && OnChain(k, u, j) && Chain(k, t, n) == Chain(k, u, j) ==> t == u && n == j)
    && (forall p :: p in Allocated(k) - leaked ==> exists t: nat, n: nat :: OnChain(k, t, n) && Chain(k, t, n) == p)
    && k.count == |Allocated(k) - leaked| == Sum(k.totals)
  }

  lemma {:induction false} AncestorOf(pcbs: seq<Pcb>, stacks: seq<seq<Frame>>, t: nat, i: nat, n: nat)
    requires At(stacks, t, i) && n <= i
    requires forall j: nat :: At(stacks, t, j) ==> Describes(pcbs, stacks, t, j)
    ensures Ancestor(pcbs, stacks[t][i].pid, n) == stacks[t][i - n].pid
    decreases n
  {
    assert Describes(pcbs, stacks, t, i);
    if n > 0 {
      AncestorOf(pcbs, stacks, t, i - 1, n - 1);
    }
  }

  lemma ChainIs(k: Tables, m: Machine, t: nat, n: nat)
    requires Views(k, m) && OnChain(k, t, n)
    ensures k.totals[t] == |m.stacks[t]| && At(m.stacks, t, k.totals[t] - 1 - n)
    ensures Chain(k, t, n) == m.stacks[t][k.totals[t] - 1 - n].pid
    ensures Describes(k.pcbs, m.stacks, t, k.totals[t] - 1 - n)
  {
    assert HeadIs(k, m, t);
    AllDescribed(k, m, t);
    ChainOf(k, m.stacks, t, n);
  }

  lemma AllDescribed(k: Tables, m: Machine, t: nat)
    requires Views(k, m)
    ensures forall j: nat :: At(m.stacks, t, j) ==> Describes(k.pcbs, m.stacks, t, j)
  {
  }

  lemma ChainOf(k: Tables, stacks: seq<seq<Frame>>, t: nat, n: nat)
    requires Sized(k) && OnChain(k, t, n) && |stacks| == NUM_TERM && k.totals[t] == |stacks[t]|
    requires k.heads[t] == stacks[t][|stacks[t]| - 1].pid
    requires forall j: nat :: At(stacks, t, j) ==> Describes(k.pcbs, stacks, t, j)
    ensures At(stacks, t, k.totals[t] - 1 - n)
    ensures Chain(k, t, n) == stacks[t][k.totals[t] - 1 - n].pid
    ensures Describes(k.pcbs, stacks, t, k.totals[t] - 1 - n)
  {
    AncestorOf(k.pcbs, stacks, t, |stacks[t]| - 1, n);
    assert At(stacks, t, k.totals[t] - 1 - n);
  }

  lemma ChainLinks(k: Tables, m: Machine, t: nat, n: nat)
    requires Views(k, m) && OnChain(k, t, n)
    ensures var p := Chain(k, t, n);
      && p < MAX_NUM_PROC && k.inUse[p] && p !in m.leaked && k.pcbs[p].pidNum == p
      && (k.pcbs[p].parent == p <==> n == k.totals[t] - 1)
  {
    ChainIs(k, m, t, n);
    var i := k.totals[t] - 1 - n;
    assert m.stacks[t][i].pid in Used(m.stacks);
    if i > 0 {
      assert At(m.stacks, t, i - 1);
    }
  }

  lemma ChainCovers(k: Tables, m: Machine, p: nat)
    requires Views(k, m) && p in Used(m.stacks)
    ensures exists t: nat, n: nat :: OnChain(k, t, n) && Chain(k, t, n) == p
  {
    var t: nat, i: nat :| t < |m.stacks| && i < |m.stacks[t]| && m.stacks[t][i].pid == p;
    assert HeadIs(k, m, t);
    ChainIs(k, m, t, |m.stacks[t]| - 1 - i);
    assert OnChain(k, t, |m.stacks[t]| - 1 - i);
  }

  lemma {:induction false} SumIsTotal(totals: seq<nat>, stacks: seq<seq<Frame>>)
    requires |totals| == |stacks| && forall t :: 0 <= t < |stacks| ==> totals[t] == |stacks[t]|
    ensures Sum(totals) == Total(stacks)
  {
    if stacks != [] {
      SumIsTotal(totals[..|stacks| - 1], stacks[..|stacks| - 1]);
    }
  }

  /** Whatever represents a machine is such a forest. */
  lemma TablesAreAForest(k: Tables, m: Machine)
    requires Views(k, m)
    ensures Forest(k, m.leaked)
  {
    forall t: nat, n: nat | OnChain(k, t, n)
      ensures var p := Chain(k, t, n);
        && p < MAX_NUM_PROC && k.inUse[p] && p !in m.leaked && k.pcbs[p].pidNum == p
        && (k.pcbs[p].parent == p <==> n == k.totals[t] - 1)
    {
      ChainLinks(k, m, t, n);
    }
    forall t: nat, n: nat, u: nat, j: nat | OnChain(k, t, n) && OnChain(k, u, j) && Chain(k, t, n) == Chain(k, u, j)
      ensures t == u && n == j
    {
      ChainIs(k, m, t, n);
      ChainIs(k, m, u, j);
    }
    AllocatedIsTaken(k, m);
    assert Allocated(k) - m.leaked == Used(m.stacks);
    forall p | p in Used(m.stacks) ensures exists t: nat, n: nat :: OnChain(k, t, n) && Chain(k, t, n) == p {
      ChainCovers(k, m, p);
    }
    UsedSize(m.stacks);
    forall t | 0 <= t < NUM_TERM ensures k.totals[t] == |m.stacks[t]| {
      assert HeadIs(k, m, t);
    }
    SumIsTotal(k.totals, m.stacks);
  }

  lemma AllocatedIsTaken(k: Tables, m: Machine)
    requires Views(k, m)
    ensures Allocated(k) == Taken(m)
  {
    UsedBelow(m.stacks);
  }

  /** How many pids have leaked can be read off the tables. */
  lemma LeaksShow(k: Tables, m: Machine)
    requires Views(k, m)
    ensures |Allocated(k)| == k.count + |m.leaked|
  {
    AllocatedIsTaken(k, m);
    UsedSize(m.stacks);
    assert |Taken(m)| == |Used(m.stacks)| + |m.leaked|;
  }

  /** Every address from the PCB of the running program to the word the stack pointer is loaded with,
      and so every word pushed until the stack meets that PCB, is in the block of the running program
      and of no other. */
  lemma StackIsOwn(k: Tables, m: Machine, address: int, pid: nat)
    requires Views(k, m) && Live(m, m.current) && k.esp0 + 4 - 0x2000 <= address < k.esp0 + 4
    ensures InBlock(address, pid) <==> pid == Top(m, m.current).pid
    ensures 0x80_0000 - 0x2000 * (pid + 1) <= address < 0x80_0000 - 0x2000 * pid <==> pid == Top(m, m.current).pid
  {
    StackFillsBlock(Top(m, m.current).pid, address);
    StackFillsBlock(pid, address);
  }

  /** Both tables say the same about where process p came from and what it was called with. */
  ghost predicate SameOrigin(k: Tables, k': Tables, p: nat) {
    && p < |k.pcbs| == |k'.pcbs|
    && k'.pcbs[p].parent == k.pcbs[p].parent && k'.pcbs[p].par == k.pcbs[p].par && k'.pcbs[p].args == k.pcbs[p].args
  }

  /** What a program's PCB says about where it came from, as its terminal's stack has it. */
  function Origin(stack: seq<Frame>, i: nat): (nat, Ctx, seq<byte>)
    requires i < |stack|
  {
    (if i == 0 then stack[i].pid else stack[i - 1].pid, stack[i].caller, stack[i].args)
  }

  /** The n-th process of a terminal's chain is the n-th program of the stack, with its origin. */
  ghost predicate ChainHas(k: Tables, t: nat, n: nat, stack: seq<Frame>)
    requires Sized(k) && t < NUM_TERM && n < |stack|
  {
    var i := |stack| - 1 - n;
    && Chain(k, t, n) == stack[i].pid < |k.pcbs|
    && (k.pcbs[stack[i].pid].parent, k.pcbs[stack[i].pid].par, k.pcbs[stack[i].pid].args) == Origin(stack, i)
  }

  lemma ChainOrigin(k: Tables, m: Machine, t: nat, n: nat)
    requires Views(k, m) && OnChain(k, t, n)
    ensures n < |m.stacks[t]| && ChainHas(k, t, n, m.stacks[t])
  {
    ChainIs(k, m, t, n);
  }

  lemma SameChain(k: Tables, k': Tables, t: nat, n: nat, stack: seq<Frame>)
    requires Sized(k) && Sized(k') && t < NUM_TERM && n < |stack|
    requires ChainHas(k, t, n, stack) && ChainHas(k', t, n, stack)
    ensures Chain(k', t, n) == Chain(k, t, n) && SameOrigin(k, k', Chain(k, t, n))
  {
  }

  /** Tables of states in which terminal t runs the same programs agree about t: its count, its head,
      its parent chain with all return points and arguments, and, if t runs in both, the user page and
      the kernel stack. */
  lemma SameStackSameTables(k: Tables, m: Machine, k': Tables, m': Machine, t: nat)
    requires Views(k, m) && Views(k', m') && Live(m, t) && m'.stacks[t] == m.stacks[t]
    ensures k'.totals[t] == k.totals[t] && k'.heads[t] == k.heads[t]
    ensures forall n: nat :: OnChain(k, t, n) ==>
              Chain(k', t, n) == Chain(k, t, n) && SameOrigin(k, k', Chain(k, t, n))
    ensures m.current == m'.current == t ==>
              k'.esp0 == k.esp0 && (k'.userEntry == k.userEntry <==> m'.page == m.page)
  {
    assert HeadIs(k, m, t) && HeadIs(k', m', t);
    forall n: nat | OnChain(k, t, n)
      ensures Chain(k', t, n) == Chain(k, t, n) && SameOrigin(k, k', Chain(k, t, n))
    {
      ChainOrigin(k, m, t, n);
      ChainOrigin(k', m', t, n);
      SameChain(k, k', t, n, m.stacks[t]);
    }
  }

  // ---------- changes ----------

  /** Tables that differ in nothing a stack shows. */
  lemma StacksShown(k: Tables, m: Machine, k': Tables, m': Machine)
    requires Views(k, m) && Sized(k') && m'.stacks == m.stacks && k'.totals == k.totals && k'.heads == k.heads
    requires forall p :: 0 <= p < MAX_NUM_PROC ==> k'.pcbs[p] == k.pcbs[p].(self := k'.pcbs[p].self)
    ensures forall t :: 0 <= t < NUM_TERM ==> HeadIs(k', m', t)
    ensures forall t: nat, i: nat :: At(m'.stacks, t, i) ==> Describes(k'.pcbs, m'.stacks, t, i)
  {
    forall t | 0 <= t < NUM_TERM ensures HeadIs(k', m', t) {
      assert HeadIs(k, m, t);
    }
    forall t: nat, i: nat | At(m'.stacks, t, i) ensures Describes(k'.pcbs, m'.stacks, t, i) {
      assert Describes(k.pcbs, m.stacks, t, i);
    }
  }

  function Started(k: Tables, p: nat, at: Ctx, args: seq<byte>): Tables
    requires Sized(k) && p < MAX_NUM_PROC
  {
    var t := k.current;
    var parent := if k.totals[t] == 0 then p else k.heads[t];
    k.(inUse := k.inUse[p := true],
       totals := k.totals[t := k.totals[t] + 1],
       heads := k.heads[t := p],
       pcbs := k.pcbs[p := k.pcbs[p].(pidNum := p, parent := parent, par := at, args := args)],
       count := k.count + 1,
       userEntry := UserEntry(p),
       esp0 := GetEsp0(p))
  }

  lemma StartedHead(k: Tables, m: Machine, at: Ctx, args: seq<byte>, u: nat)
    requires Views(k, m) && !Full(m) && u < NUM_TERM
    ensures HeadIs(Started(k, NextPid(m), at, args), Launch(m, m.current, at, args), u)
  {
    assert HeadIs(k, m, u);
  }

  lemma StartedDescribes(k: Tables, m: Machine, at: Ctx, args: seq<byte>, u: nat, i: nat)
    requires Views(k, m) && !Full(m) && At(Launch(m, m.current, at, args).stacks, u, i)
    ensures Describes(Started(k, NextPid(m), at, args).pcbs,
                      Launch(m, m.current, at, args).stacks, u, i)
  {
    if u == m.current && i == |m.stacks[m.current]| {
      assert HeadIs(k, m, m.current);
    } else {
      assert At(m.stacks, u, i) && Describes(k.pcbs, m.stacks, u, i);
      assert m.stacks[u][i].pid in Used(m.stacks);
    }
  }

  lemma StartedViews(k: Tables, m: Machine, at: Ctx, args: seq<byte>)
    requires Views(k, m) && !Full(m)
    ensures Views(Started(k, NextPid(m), at, args), Launch(m, m.current, at, args))
  {
    var p, t := NextPid(m), m.current;
    var k', m' := Started(k, p, at, args), Launch(m, t, at, args);
    LaunchUsed(m, t, at, args);
    TotalUpdate(m.stacks, t, m'.stacks[t]);
    forall u | 0 <= u < NUM_TERM ensures HeadIs(k', m', u) {
      StartedHead(k, m, at, args, u);
    }
    forall u: nat, i: nat | At(m'.stacks, u, i) ensures Describes(k'.pcbs, m'.stacks, u, i) {
      StartedDescribes(k, m, at, args, u, i);
    }
    assert HeadIs(k', m', t) && Top(m', t).pid == p;
  }

  /** The mark of a pid that no program gets. */
  lemma LeakingViews(k: Tables, m: Machine)
    requires Views(k, m) && !Full(m)
    ensures Views(k.(inUse := k.inUse[NextPid(m) := true]), Leaking(m))
  {
    SameStacksView(k, m, k.(inUse := k.inUse[NextPid(m) := true]), Leaking(m));
  }

  /** Another page in the user window. */
  lemma RemappedViews(k: Tables, m: Machine, pid: nat)
    requires Views(k, m)
    ensures Views(k.(userEntry := UserEntry(pid)), m.(page := pid))
  {
    SameStacksView(k, m, k.(userEntry := UserEntry(pid)), m.(page := pid));
  }

  /** Tables that differ in the marks and the user window only. */
  lemma SameStacksView(k: Tables, m: Machine, k': Tables, m': Machine)
    requires Views(k, m) && k' == k.(inUse := k'.inUse, userEntry := k'.userEntry) && |k'.inUse| == MAX_NUM_PROC
    requires m' == m.(leaked := m'.leaked, page := m'.page) && Shaped(m')
    requires forall p :: 0 <= p < MAX_NUM_PROC ==> (k'.inUse[p] <==> p in Taken(m'))
    requires Live(m, m.current) ==> k'.userEntry == UserEntry(m'.page)
    ensures Views(k', m')
  {
    StacksShown(k, m, k', m');
  }

  /** The tables after the bookkeeping of halt, before anything is relaunched or resumed. */
  function Freed(k: Tables): Tables
    requires Sized(k) && k.heads[k.current] < MAX_NUM_PROC && k.totals[k.current] > 0 && k.count > 0
  {
    var t := k.current;
    k.(inUse := k.inUse[k.heads[t] := false], totals := k.totals[t := k.totals[t] - 1], count := k.count - 1)
  }

  lemma PopTotal(m: Machine)
    requires Shaped(m) && Live(m, m.current)
    ensures Total(m.stacks) > 0 && Total(Popped(m).stacks) == Total(m.stacks) - 1
  {
    TotalUpdate(m.stacks, m.current, Popped(m).stacks[m.current]);
  }

  lemma HeadOfCurrent(k: Tables, m: Machine)
    requires Views(k, m) && Live(m, m.current)
    ensures k.heads[m.current] == Top(m, m.current).pid < MAX_NUM_PROC
    ensures k.totals[m.current] == |m.stacks[m.current]|
    ensures Describes(k.pcbs, m.stacks, m.current, |m.stacks[m.current]| - 1)
    ensures k.count > 0
  {
    assert HeadIs(k, m, m.current);
    assert At(m.stacks, m.current, |m.stacks[m.current]| - 1);
    PopTotal(m);
  }

  lemma EmptiedViews(k: Tables, m: Machine)
    requires Views(k, m) && WellFormed(m) && |m.stacks[m.current]| == 1
    ensures k.heads[k.current] < MAX_NUM_PROC && k.totals[k.current] > 0 && k.count > 0
    ensures Views(Freed(k), Emptied(m, false))
  {
    HeadOfCurrent(k, m);
    PopTotal(m);
    EmptiedHasRoom(m, false);
    var k', m' := Freed(k), Emptied(m, false);
    forall u | 0 <= u < NUM_TERM ensures HeadIs(k', m', u) {
      assert HeadIs(k, m, u);
    }
    forall u: nat, i: nat | At(m'.stacks, u, i) ensures Describes(k'.pcbs, m'.stacks, u, i) {
      assert At(m.stacks, u, i) && Describes(k.pcbs, m.stacks, u, i);
    }
  }

  /** The tables after a halt that resumes the parent. */
  function Resumed(k: Tables): Tables
    requires Sized(k) && k.heads[k.current] < MAX_NUM_PROC && k.totals[k.current] > 0 && k.count > 0
  {
    var p := k.heads[k.current];
    var parent := k.pcbs[p].parent;
    Freed(k).(heads := k.heads[k.current := parent],
              pcbs := k.pcbs[p := k.pcbs[p].(haltStat := false)],
              userEntry := UserEntry(parent),
              esp0 := GetEsp0(parent))
  }

  lemma ResumedDescribes(k: Tables, m: Machine, u: nat, i: nat)
    requires Views(k, m) && Live(m, m.current) && At(Popped(m).stacks, u, i)
    requires k.heads[k.current] < MAX_NUM_PROC && k.totals[k.current] > 0 && k.count > 0
    ensures Describes(Resumed(k).pcbs, Popped(m).stacks, u, i)
  {
    HeadOfCurrent(k, m);
    assert At(m.stacks, u, i) && Describes(k.pcbs, m.stacks, u, i);
    assert At(m.stacks, m.current, |m.stacks[m.current]| - 1);
    assert m.stacks[u][i].pid != Top(m, m.current).pid;
  }

  lemma ParentIsBelow(k: Tables, m: Machine)
    requires Views(k, m) && |m.stacks| == NUM_TERM && m.current < NUM_TERM && |m.stacks[m.current]| > 1
    ensures k.heads[m.current] == Top(m, m.current).pid < |k.pcbs|
    ensures k.pcbs[k.heads[m.current]].parent == m.stacks[m.current][|m.stacks[m.current]| - 2].pid
  {
    var i := |m.stacks[m.current]| - 1;
    assert HeadIs(k, m, m.current);
    assert At(m.stacks, m.current, i) && Describes(k.pcbs, m.stacks, m.current, i);
  }

  lemma ResumedHead(k: Tables, m: Machine, u: nat)
    requires Sized(k) && |m.stacks| == NUM_TERM && k.current == m.current && u < NUM_TERM && HeadIs(k, m, u)
    requires |m.stacks[m.current]| > 1 && k.heads[m.current] < MAX_NUM_PROC && k.totals[m.current] > 0 && k.count > 0
    requires k.pcbs[k.heads[m.current]].parent == m.stacks[m.current][|m.stacks[m.current]| - 2].pid
    ensures HeadIs(Resumed(k), Popped(m), u)
  {
    if u == m.current {
      assert Top(Popped(m), u) == m.stacks[u][|m.stacks[u]| - 2];
    }
  }

  lemma ResumedStacks(k: Tables, m: Machine)
    requires Views(k, m) && |m.stacks[m.current]| > 1
    requires k.heads[k.current] < MAX_NUM_PROC && k.totals[k.current] > 0 && k.count > 0
    ensures forall u :: 0 <= u < NUM_TERM ==> HeadIs(Resumed(k), Popped(m), u)
    ensures forall u: nat, i: nat :: At(Popped(m).stacks, u, i) ==> Describes(Resumed(k).pcbs, Popped(m).stacks, u, i)
  {
    ParentIsBelow(k, m);
    forall u | 0 <= u < NUM_TERM ensures HeadIs(Resumed(k), Popped(m), u) {
      assert HeadIs(k, m, u);
      ResumedHead(k, m, u);
    }
    forall u: nat, i: nat | At(Popped(m).stacks, u, i) ensures Describes(Resumed(k).pcbs, Popped(m).stacks, u, i) {
      ResumedDescribes(k, m, u, i);
    }
  }

  lemma ResumedViews(k: Tables, m: Machine)
    requires Views(k, m) && WellFormed(m) && |m.stacks[m.current]| > 1
    ensures k.heads[k.current] < MAX_NUM_PROC && k.totals[k.current] > 0 && k.count > 0
    ensures Views(Resumed(k), Popped(m))
  {
    HeadOfCurrent(k, m);
    PopTotal(m);
    PopUsed(m);
    var k', m' := Resumed(k), Popped(m);
    ResumedStacks(k, m);
    TopIsUsed(m);
    assert k'.inUse == k.inUse[Top(m, m.current).pid := false];
    ParentIsBelow(k, m);
    assert k'.userEntry == UserEntry(m'.page) && Top(m', m'.current).pid == m'.page;
  }

  lemma TopIsUsed(m: Machine)
    requires |m.stacks| == NUM_TERM && Live(m, m.current)
    ensures Top(m, m.current).pid in Used(m.stacks)
  {
    assert m.stacks[m.current][|m.stacks[m.current]| - 1].pid == Top(m, m.current).pid;
  }

  /** Saving a context in a PCB is invisible to everything else. */
  lemma SavedViews(k: Tables, m: Machine, p: nat, c: Ctx)
    requires Views(k, m) && p < MAX_NUM_PROC
    ensures Views(k.(pcbs := k.pcbs[p := k.pcbs[p].(self := c)]), m)
  {
    var k' := k.(pcbs := k.pcbs[p := k.pcbs[p].(self := c)]);
    StacksShown(k, m, k', m);
  }

  // ---------- saved contexts ----------

  /** Where the stacks of the waiting terminals, their suspension points and the saved contexts are
      as before, the waiting terminals are as safe as before. */
  lemma SafeKept(k: Tables, m: Machine, k': Tables, m': Machine)
    requires |m.stacks| == |m'.stacks| == NUM_TERM && |k.pcbs| == |k'.pcbs|
    requires m'.current == m.current && m'.suspended == m.suspended
    requires forall t :: 0 <= t < NUM_TERM && t != m.current ==> m'.stacks[t] == m.stacks[t]
    requires forall p :: 0 <= p < |k.pcbs| ==> k'.pcbs[p].self == k.pcbs[p].self
    ensures ContextSafe(k', m') <==> ContextSafe(k, m)
  {
    forall t: nat | t < NUM_TERM && t != m.current
      ensures Live(m, t) <==> Live(m', t)
      ensures Live(m, t) ==> (SavedAt(k.pcbs, m, t) <==> SavedAt(k'.pcbs, m', t))
    {
    }
  }

  function Suspend(m: Machine, next: nat, c: Ctx): Machine {
    m.(current := next, suspended := m.suspended[m.current := c])
  }

  /** Another live terminal gets the processor, and its program its page. */
  function SwitchedTo(m: Machine, next: nat, c: Ctx): Machine
    requires |m.stacks| == NUM_TERM && Live(m, next)
  {
    Suspend(m, next, c).(page := Top(m, next).pid)
  }

  function Saved(k: Tables, p: nat, c: Ctx): Tables
    requires p < |k.pcbs|
  {
    k.(pcbs := k.pcbs[p := k.pcbs[p].(self := c)])
  }

  /** The registers of another live terminal: its page and its kernel stack. */
  lemma GivenViews(k: Tables, m: Machine, next: nat, c: Ctx)
    requires Views(k, m) && Live(m, next)
    ensures k.heads[next] == Top(m, next).pid
    ensures Views(k.(current := next, userEntry := UserEntry(k.heads[next]), esp0 := GetEsp0(k.heads[next])),
                  SwitchedTo(m, next, c))
  {
    assert HeadIs(k, m, next);
    var k' := k.(current := next, userEntry := UserEntry(k.heads[next]), esp0 := GetEsp0(k.heads[next]));
    var m' := SwitchedTo(m, next, c);
    StacksShown(k, m, k', m');
  }

  /** Giving the processor to another live terminal. */
  lemma SwitchedViews(k: Tables, m: Machine, next: nat, c: Ctx)
    requires Views(k, m) && Live(m, m.current) && Live(m, next)
    ensures k.heads[m.current] < MAX_NUM_PROC && k.heads[next] == Top(m, next).pid
    ensures Views(Saved(k, k.heads[m.current], c).(current := next, userEntry := UserEntry(k.heads[next]),
                                                   esp0 := GetEsp0(k.heads[next])),
                  SwitchedTo(m, next, c))
  {
    HeadOfCurrent(k, m);
    SavedViews(k, m, k.heads[m.current], c);
    GivenViews(Saved(k, k.heads[m.current], c), m, next, c);
  }

  lemma HeadsDiffer(m: Machine, t: nat, u: nat)
    requires Shaped(m) && Live(m, t) && Live(m, u) && t != u
    ensures Top(m, t).pid != Top(m, u).pid && Top(m, t).pid < MAX_NUM_PROC
  {
    assert At(m.stacks, t, |m.stacks[t]| - 1) && At(m.stacks, u, |m.stacks[u]| - 1);
  }

  /** Saving the interrupted context in the PCB of the running terminal's head is right. */
  lemma SuspendingIsSafe(k: Tables, m: Machine, pcbs: seq<Pcb>, next: nat, c: Ctx)
    requires Shaped(m) && |k.pcbs| == MAX_NUM_PROC && ContextSafe(k, m) && Live(m, m.current)
    requires Top(m, m.current).pid < MAX_NUM_PROC && pcbs == Saved(k, Top(m, m.current).pid, c).pcbs
    ensures forall t: nat :: Live(m, t) && t != next ==> SavedAt(pcbs, Suspend(m, next, c), t)
  {
    forall t: nat | Live(m, t) && t != next ensures SavedAt(pcbs, Suspend(m, next, c), t) {
      if t != m.current {
        HeadsDiffer(m, t, m.current);
      }
    }
  }

  lemma SwitchedSafe(k: Tables, m: Machine, next: nat, c: Ctx, k': Tables)
    requires Views(k, m) && ContextSafe(k, m) && Live(m, m.current) && Live(m, next) && next != m.current
    requires k.heads[m.current] < |k.pcbs| && k'.pcbs == Saved(k, k.heads[m.current], c).pcbs
    ensures ContextSafe(k', SwitchedTo(m, next, c))
    ensures k.heads[next] < |k.pcbs| && next in m.suspended && k.pcbs[k.heads[next]].self == m.suspended[next]
  {
    HeadOfCurrent(k, m);
    assert HeadIs(k, m, next) && SavedAt(k.pcbs, m, next);
    SuspendingIsSafe(k, m, k'.pcbs, next, c);
    var m' := SwitchedTo(m, next, c);
    forall t: nat | Live(m', t) && t != m'.current ensures SavedAt(k'.pcbs, m', t) {
      assert SavedAt(k'.pcbs, Suspend(m, next, c), t);
    }
  }

  /** Leaving for a terminal without programs. */
  lemma OpenedViews(k: Tables, m: Machine, dest: nat, p: nat, c: Ctx)
    requires Views(k, m) && dest < NUM_TERM && !Live(m, dest) && p < MAX_NUM_PROC
    ensures Views(Saved(k, p, c).(current := dest), Suspend(m, dest, c))
  {
    SavedViews(k, m, p, c);
    var k1, k', m' := Saved(k, p, c), Saved(k, p, c).(current := dest), Suspend(m, dest, c);
    StacksShown(k1, m, k', m');
  }

  lemma OpeningElsewhereIsUnsafe(k: Tables, m: Machine, v: nat, dest: nat, c: Ctx)
    requires Shaped(m) && Live(m, m.current) && OthersWait(m)
    requires |k.pcbs| == MAX_NUM_PROC && dest < NUM_TERM && !Live(m, dest)
    requires Live(m, v) && v != m.current && OnStack(c, Top(m, m.current).pid) && Top(m, v).pid < MAX_NUM_PROC
    ensures !SavedAt(Saved(k, Top(m, v).pid, c).pcbs, Suspend(m, dest, c), v)
  {
    HeadsDiffer(m, m.current, v);
    ProcessesAreApart(Top(m, m.current).pid, Top(m, v).pid, c.esp);
  }

  /** Opening a terminal saves the interrupted context in the PCB of the head of terminal v, the one
      in view.  That is the right place exactly when the running terminal is the one in view. */
  lemma OpeningIsSafeIff(k: Tables, m: Machine, dest: nat, v: nat, c: Ctx)
    requires Views(k, m) && Live(m, m.current) && OthersWait(m) && ContextSafe(k, m)
    requires dest < NUM_TERM && !Live(m, dest) && Live(m, v) && OnStack(c, Top(m, m.current).pid)
    ensures k.heads[v] == Top(m, v).pid < MAX_NUM_PROC
    ensures Views(Saved(k, k.heads[v], c).(current := dest), Suspend(m, dest, c))
    ensures ContextSafe(Saved(k, k.heads[v], c).(current := dest), Suspend(m, dest, c)) <==> v == m.current
  {
    assert HeadIs(k, m, v);
    assert At(m.stacks, v, |m.stacks[v]| - 1);
    OpenedViews(k, m, dest, k.heads[v], c);
    var m' := Suspend(m, dest, c);
    if v == m.current {
      SuspendingIsSafe(k, m, Saved(k, k.heads[v], c).pcbs, dest, c);
    } else {
      OpeningElsewhereIsUnsafe(k, m, v, dest, c);
      assert Live(m', v) && v != m'.current;
    }
  }

  /** A tick to another terminal continues what that terminal was interrupted at if and only if its
      context is saved in the PCB of its own head. */
  lemma TickIsRightIff(k: Tables, m: Machine, at: Ctx)
    requires Views(k, m) && WellFormed(m) && Possible(m, Tick(at))
    requires Step(m, Tick(at)).0.current != m.current
    ensures var next := Step(m, Tick(at)).0.current;
      Live(m, next) && (TickLoads(k, m) == Step(m, Tick(at)).1 <==> SavedAt(k.pcbs, m, next))
  {
    var next := Scan(Lengths(m.stacks), m.current, Next(m.current));
    ScanFindsNearest(Lengths(m.stacks), m.current, Next(m.current));
    assert HeadIs(k, m, next);
    assert At(m.stacks, next, |m.stacks[next]| - 1);
  }

  /** After a terminal was opened while v was in view and another terminal ran, a tick that reaches v
      continues the context that was interrupted on that other terminal, on a foreign stack. */
  lemma TickAfterOpeningIsWrong(k: Tables, m: Machine, v: nat, c: Ctx, pid: nat, at: Ctx)
    requires Views(k, m) && WellFormed(m) && Possible(m, Tick(at)) && v < NUM_TERM
    requires Step(m, Tick(at)).0.current == v != m.current
    requires k.heads[v] < |k.pcbs| && k.pcbs[k.heads[v]].self == c && OnStack(c, pid) && pid != k.heads[v]
    ensures TickLoads(k, m) == Switched(c) != Step(m, Tick(at)).1
  {
    ScanFindsNearest(Lengths(m.stacks), m.current, Next(m.current));
    assert HeadIs(k, m, v);
    ProcessesAreApart(pid, k.heads[v], c.esp);
  }

  lemma ViewingViews(k: Tables, m: Machine, dest: nat)
    requires Views(k, m) && dest < NUM_TERM
    ensures Views(k.(viewing := dest), m.(viewing := dest))
  {
    var k', m' := k.(viewing := dest), m.(viewing := dest);
    StacksShown(k, m, k', m');
  }

  // ---------- faults ----------

  /** The running program has raised an exception. */
  function Faulted(m: Machine): Machine
    requires |m.stacks| == NUM_TERM && Live(m, m.current)
  {
    var s := m.stacks[m.current];
    m.(stacks := m.stacks[m.current := s[|s| - 1 := s[|s| - 1].(tainted := true)]])
  }

  lemma FaultedUsed(m: Machine)
    requires Shaped(m) && Live(m, m.current)
    ensures Shaped(Faulted(m)) && Used(Faulted(m).stacks) == Used(m.stacks)
    ensures Total(Faulted(m).stacks) == Total(m.stacks)
  {
    var m' := Faulted(m);
    TotalUpdate(m.stacks, m.current, m'.stacks[m.current]);
    assert forall t: nat, i: nat :: At(m'.stacks, t, i) <==> At(m.stacks, t, i);
    forall t: nat, i: nat | At(m.stacks, t, i) ensures m'.stacks[t][i].pid == m.stacks[t][i].pid {
    }
    forall p | p in Used(m.stacks) ensures p in Used(m'.stacks) {
      var t: nat, i: nat :| t < |m.stacks| && i < |m.stacks[t]| && m.stacks[t][i].pid == p;
      assert m'.stacks[t][i].pid == p;
    }
    forall p | p in Used(m'.stacks) ensures p in Used(m.stacks) {
      var t: nat, i: nat :| t < |m'.stacks| && i < |m'.stacks[t]| && m'.stacks[t][i].pid == p;
      assert m.stacks[t][i].pid == p;
    }
  }

  lemma FaultedKeeps(m: Machine)
    requires WellFormed(m)
    ensures WellFormed(Faulted(m))
  {
    FaultedUsed(m);
    var m' := Faulted(m);
    forall t: nat, i: nat | At(m'.stacks, t, i) && 0 < i
      ensures OnStack(m'.stacks[t][i].caller, m'.stacks[t][i - 1].pid)
    {
      assert At(m.stacks, t, i);
    }
  }

  /** An ordinary halt with the flag raised is a halt by exception. */
  lemma FaultedHalt(m: Machine, status: byte, relaunch: Ctx)
    requires WellFormed(m)
    ensures WellFormed(Faulted(m))
    ensures Step(Faulted(m), Halt(status, false, relaunch)) == Step(m, Halt(status, true, relaunch))
  {
    FaultedKeeps(m);
    assert Popped(Faulted(m)).stacks == Popped(m).stacks;
    assert Emptied(Faulted(m), false) == Emptied(m, true);
  }

  lemma FaultedDescribes(k: Tables, m: Machine, pcbs: seq<Pcb>, t: nat, i: nat)
    requires Views(k, m) && Live(m, m.current) && At(Faulted(m).stacks, t, i) && Top(m, m.current).pid < MAX_NUM_PROC
    requires var p := Top(m, m.current).pid; pcbs == k.pcbs[p := k.pcbs[p].(haltStat := true)]
    ensures Describes(pcbs, Faulted(m).stacks, t, i)
  {
    assert At(m.stacks, t, i) && Describes(k.pcbs, m.stacks, t, i);
    assert At(m.stacks, m.current, |m.stacks[m.current]| - 1);
  }

  lemma FaultedHead(k: Tables, m: Machine, pcbs: seq<Pcb>, t: nat)
    requires Sized(k) && |m.stacks| == NUM_TERM && Live(m, m.current) && t < NUM_TERM && |pcbs| == |k.pcbs|
    requires HeadIs(k, m, t)
    ensures HeadIs(k.(pcbs := pcbs), Faulted(m), t)
  {
    if t == m.current {
      assert Top(Faulted(m), t).pid == Top(m, t).pid;
    } else {
      assert Faulted(m).stacks[t] == m.stacks[t];
    }
  }

  lemma FaultedViews(k: Tables, m: Machine)
    requires Views(k, m) && Live(m, m.current)
    ensures k.heads[m.current] < MAX_NUM_PROC
    ensures Views(k.(pcbs := k.pcbs[k.heads[m.current] := k.pcbs[k.heads[m.current]].(haltStat := true)]), Faulted(m))
  {
    HeadOfCurrent(k, m);
    FaultedUsed(m);
    TopIsUsed(m);
    var p := k.heads[m.current];
    var k', m' := k.(pcbs := k.pcbs[p := k.pcbs[p].(haltStat := true)]), Faulted(m);
    forall t | 0 <= t < NUM_TERM ensures HeadIs(k', m', t) {
      assert HeadIs(k, m, t);
      FaultedHead(k, m, k'.pcbs, t);
    }
    forall t: nat, i: nat | At(m'.stacks, t, i) ensures Describes(k'.pcbs, m'.stacks, t, i) {
      FaultedDescribes(k, m, k'.pcbs, t, i);
    }
  }

  lemma FaultedSafe(k: Tables, m: Machine, k': Tables)
    requires Shaped(m) && Live(m, m.current) && ContextSafe(k, m) && |k.pcbs| == |k'.pcbs|
    requires forall p :: 0 <= p < |k.pcbs| ==> k'.pcbs[p].self == k.pcbs[p].self
    ensures ContextSafe(k', Faulted(m))
  {
    SafeKept(k, m, k', Faulted(m));
  }
}
