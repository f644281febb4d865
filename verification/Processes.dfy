/**
  The process tables as the kernel keeps and changes them, and the scheduler.
 */
module Processes {
  import opened Common
  import opened Layout
  import opened Machine
  import opened ProcessTables

  class Processes {
    const pcbInUse: array<bool>
    const totalProgs: array<nat>
    const heads: array<nat>         // terminal[t].process
    const pcbs: array<Pcb>
    var processCnt: nat
    var currentTerm: nat
    var viewingTerm: nat
    var userEntry: nat              // page_dir_array[USER_ENT]
    var esp0: int                   // tss.esp0
    ghost var m: Machine

    ghost function Snapshot(): Tables
      reads this, pcbInUse, totalProgs, heads, pcbs
    {
      Tables(pcbInUse[..], totalProgs[..], heads[..], pcbs[..], processCnt, currentTerm, viewingTerm, userEntry, esp0)
    }

    ghost predicate Valid()
      reads this, pcbInUse, totalProgs, heads, pcbs
    {
      totalProgs != heads && Views(Snapshot(), m)
    }

    /** The tables without the mark of pid. */
    ghost function Without(pid: nat): Tables
      requires pid < pcbInUse.Length
      reads this, pcbInUse, totalProgs, heads, pcbs
    {
      Snapshot().(inUse := pcbInUse[..][pid := false])
    }

    /** pid is marked in use but belongs to no program yet. */
    ghost predicate Reserved(pid: nat)
      reads this, pcbInUse, totalProgs, heads, pcbs
    {
      && totalProgs != heads && Sized(Snapshot()) && Shaped(m) && !Full(m)
      && pid == NextPid(m) && pcbInUse[pid]
      && Views(Without(pid), m)
    }

    /** pid is reserved and the user window already maps its page; k is what the tables were before. */
    ghost predicate Prepared(pid: nat, k: Tables)
      reads this, pcbInUse, totalProgs, heads, pcbs
    {
      && totalProgs != heads && Sized(Snapshot()) && Shaped(m) && !Full(m)
      && pid == NextPid(m) && pcbInUse[pid] && userEntry == UserEntry(pid)
      && k == Without(pid).(userEntry := k.userEntry) && Views(k, m)
    }

    /** terminal_init: no program anywhere. */
    constructor (pcbs: array<Pcb>)
      requires pcbs.Length == MAX_NUM_PROC
      ensures Valid() && this.pcbs == pcbs && m.current == 0 && m.viewing == 0 && m.suspended == map[]
      ensures Total(m.stacks) == 0 && m.leaked == {} && !Full(m)
      ensures fresh(pcbInUse) && fresh(totalProgs) && fresh(heads)
    {
      this.pcbs := pcbs;
      pcbInUse := new bool[MAX_NUM_PROC](i => false);
      totalProgs := new nat[NUM_TERM](i => 0);
      heads := new nat[NUM_TERM](i => 10);
      processCnt, currentTerm, viewingTerm := 0, 0, 0;
      userEntry, esp0 := 0, TOP_OF_KERNEL;
      m := Machine(seq(NUM_TERM, t => []), 0, 0, map[], set p: nat | p < MAX_NUM_PROC && pcbs[p].haltStat,
                   {}, 0);
      new;
      TotalOfNone(NUM_TERM);
      assert Used(m.stacks) == {};
      assert forall t: nat, i: nat :: !At(m.stacks, t, i);
    }

    method PidAvailable() returns (pid: int)
      requires Valid()
      modifies pcbInUse
      ensures pid == -1 <==> Full(m)
      ensures pid == -1 <==> old(processCnt) + |m.leaked| == MAX_NUM_PROC
      ensures pid == -1 ==> Valid() && Snapshot() == old(Snapshot())
      ensures pid != -1 ==> pid >= 0 && Reserved(pid) && pcbInUse[..] == old(pcbInUse[..])[pid := true]
      ensures pid != -1 ==> Without(pid) == old(Snapshot())
    {
      FullIffCount(m);
      ghost var used := Taken(m);
      ghost var k := Snapshot();
      var i := 0;
      while i < MAX_NUM_PROC
        invariant 0 <= i <= MAX_NUM_PROC && pcbInUse[..] == k.inUse
        invariant LeastFree(used, 0) == LeastFree(used, i)
      {
        if !pcbInUse[i] {
          pcbInUse[i] := true;
          assert pcbInUse[..][i := false] == k.inUse;
          return i;
        }
        i := i + 1;
      }
      pid := -1;
    }

    /** execute without a command returns between taking a pid and giving it back: the pid has leaked. */
    method ExecuteNull() returns (ret: int)
      requires Valid()
      modifies pcbInUse, this`m
      ensures Valid() && ret == -1 && m == if Full(old(m)) then old(m) else Leaking(old(m))
      ensures Safe() <==> old(Safe())
    {
      ghost var k, m0 := Snapshot(), m;
      var pid := PidAvailable();
      ret := -1;
      if pid != -1 {
        LeakingViews(k, m);
        m := Leaking(m);
        SafeKept(k, m0, Snapshot(), m);
      }
    }

    /** PCB_in_use[pid] = 0 on a failing execute. */
    method ReleasePid(pid: nat)
      requires Reserved(pid)
      modifies pcbInUse
      ensures Valid() && Snapshot() == old(Without(pid))
    {
      pcbInUse[pid] := false;
    }

    /** Afterwards the user window shows the page of pid, present, writable and open to user programs. */
    method SetPageExecute(pid: nat)
      modifies this`userEntry
      ensures userEntry / 0x40_0000 == pid + 2 && Accessible(userEntry) && Large(userEntry) && Plain(userEntry)
    {
      userEntry := EIGHTMB + FOURMB * pid + USER_PAGE_FLAGS;
      UserEntryMaps(userEntry, pid);
    }

    /** set_page_execute in execute. */
    method Prepare(pid: nat)
      requires Reserved(pid)
      modifies this`userEntry
      ensures Prepared(pid, old(Without(pid)))
    {
      ghost var k := Without(pid);
      SetPageExecute(pid);
      UserEntryMaps(userEntry, pid);
      assert k == Without(pid).(userEntry := k.userEntry);
    }

    /** Loading runs over: the pid stays marked, and its page in the user window. */
    ghost method LeaveMarked(pid: nat, k: Tables)
      requires Prepared(pid, k)
      modifies this`m
      ensures Valid() && m == Leaking(old(m)).(page := pid)
      ensures Safe() <==> ContextSafe(k, old(m))
    {
      var m0 := m;
      assert pcbInUse[..] == k.inUse[pid := true];
      LeakingViews(k, m);
      RemappedViews(k.(inUse := k.inUse[pid := true]), Leaking(m), pid);
      m := Leaking(m).(page := pid);
      SafeKept(k, m0, Snapshot(), m);
    }

    /** The way out of execute when loading fails: the pid is free again, but the user window keeps the
        page of a program that does not exist. */
    method Abandon(pid: nat, ghost k: Tables)
      requires Prepared(pid, k)
      modifies pcbInUse, this`m
      ensures Valid() && m == old(m).(page := pid)
      ensures Safe() <==> ContextSafe(k, old(m))
    {
      ghost var m0 := m;
      RemappedViews(k, m, pid);
      pcbInUse[pid] := false;
      m := m.(page := pid);
      SafeKept(k, m0, Snapshot(), m);
    }

    /** The PCB of a new program and the head of its terminal. */
    method FillPcb(pid: nat, at: Ctx, args: seq<byte>)
      requires Sized(Snapshot()) && pid < MAX_NUM_PROC && totalProgs != heads
      modifies pcbs, heads
      ensures heads[..] == old(heads[..])[currentTerm := pid]
      ensures pcbs[..] == old(pcbs[..])[pid := old(pcbs[pid]).(
                pidNum := pid, parent := if totalProgs[currentTerm] == 0 then pid else old(heads[currentTerm]),
                par := at, args := args)]
      ensures totalProgs[..] == old(totalProgs[..])
    {
      pcbs[pid] := pcbs[pid].(pidNum := pid);
      if totalProgs[currentTerm] == 0 {
        pcbs[pid] := pcbs[pid].(parent := pid);
      } else {
        pcbs[pid] := pcbs[pid].(parent := heads[currentTerm]);
      }
      heads[currentTerm] := pid;
      pcbs[pid] := pcbs[pid].(args := args);
      pcbs[pid] := pcbs[pid].(par := at);
    }

    /** The bookkeeping of a successful execute. */
    method Start(pid: nat, ghost k: Tables, at: Ctx, args: seq<byte>)
      requires Prepared(pid, k)
      modifies this, pcbs, heads, totalProgs
      ensures Valid() && m == Launch(old(m), old(m).current, at, args)
      ensures Used(m.stacks) == Used(old(m).stacks) + {pid}
      ensures Safe() <==> ContextSafe(k, old(m))
    {
      ghost var m0 := m;
      LaunchUsed(m, m.current, at, args);
      StartPrepared(pid, k, at, args);
      SafeKept(k, m0, Snapshot(), m);
    }

    method StartPrepared(pid: nat, ghost k: Tables, at: Ctx, args: seq<byte>)
      requires Prepared(pid, k)
      modifies this, pcbs, heads, totalProgs
      ensures Valid() && m == Launch(old(m), old(m).current, at, args)
      ensures Snapshot() == Started(k, pid, at, args)
    {
      StartedViews(k, m, at, args);
      FillPcb(pid, at, args);
      esp0 := GetEsp0(pid);
      totalProgs[currentTerm] := totalProgs[currentTerm] + 1;
      processCnt := processCnt + 1;
      m := Launch(m, m.current, at, args);
      assert k.inUse[pid := true] == pcbInUse[..] == old(pcbInUse[..])[pid := true];
      assert Snapshot() == Started(k, pid, at, args);
    }

    // ---------- halt ----------

    /** The running program's PCB is where the head of the running terminal says. */
    ghost predicate HeadSound()
      reads this, pcbInUse, totalProgs, heads, pcbs
    {
      && totalProgs != heads && Sized(Snapshot())
      && heads[currentTerm] < MAX_NUM_PROC && totalProgs[currentTerm] > 0 && processCnt > 0
      && pcbs[heads[currentTerm]].pidNum == heads[currentTerm]
    }

    lemma HeadIsSound()
      requires Valid() && WellFormed(m)
      ensures HeadSound() && heads[currentTerm] == Top(m, m.current).pid
      ensures var pcb := pcbs[heads[currentTerm]]; var top := Top(m, m.current);
        pcb.par == top.caller && pcb.args == top.args && pcb.haltStat == top.tainted
      ensures totalProgs[currentTerm] == |m.stacks[m.current]|
    {
      HeadOfCurrent(Snapshot(), m);
    }

    /** The counters and the pid that every halt gives back. */
    method Free()
      requires HeadSound()
      modifies this`processCnt, pcbInUse, totalProgs
      ensures totalProgs != heads && Sized(Snapshot()) && Snapshot() == Freed(old(Snapshot()))
    {
      totalProgs[currentTerm] := totalProgs[currentTerm] - 1;
      processCnt := processCnt - 1;
      pcbInUse[pcbs[heads[currentTerm]].pidNum] := false;
    }

    /** Halt of a terminal's last program, up to the relaunch. */
    method FreeRoot()
      requires Valid() && WellFormed(m) && |m.stacks[m.current]| == 1
      modifies this, pcbInUse, totalProgs
      ensures Valid() && m == Emptied(old(m), false) && totalProgs[currentTerm] == 0
      ensures Safe() <==> old(Safe())
    {
      ghost var k, m0 := Snapshot(), m;
      HeadIsSound();
      EmptiedViews(Snapshot(), m);
      Free();
      m := Emptied(m, false);
      SafeKept(k, m0, Snapshot(), m);
    }

    /** The end of halt for a program with a parent. */
    method Unlink(status: byte) returns (to: Ctx, value: int)
      requires HeadSound()
      modifies this`processCnt, this`esp0, this`userEntry, pcbInUse, totalProgs, heads, pcbs
      ensures totalProgs != heads && Snapshot() == Resumed(old(Snapshot()))
      ensures to == old(pcbs[heads[currentTerm]]).par
      ensures value == if old(pcbs[heads[currentTerm]]).haltStat then 256 else status
    {
      var pid := heads[currentTerm];
      var pcb := pcbs[pid];
      Free();
      BackTo(pcb.parent);
      value := TakeHaltStat(pid, status);
      to := pcb.par;
    }

    /** Halt of a program with a parent: back to the `execute` that launched it. */
    method ResumeParent(status: byte) returns (to: Ctx, value: int)
      requires Valid() && WellFormed(m) && |m.stacks[m.current]| > 1
      modifies this, pcbInUse, totalProgs, heads, pcbs
      ensures Valid() && m == Popped(old(m))
      ensures to == Top(old(m), m.current).caller
      ensures value == if Top(old(m), m.current).tainted then 256 else status
      ensures Safe() <==> old(Safe())
    {
      ghost var k, m0 := Snapshot(), m;
      HeadIsSound();
      ResumedViews(Snapshot(), m);
      to, value := Unlink(status);
      m := Popped(m);
      SafeKept(k, m0, Snapshot(), m);
    }

    method BackTo(parent: nat)
      requires currentTerm < heads.Length && totalProgs != heads
      modifies this`esp0, this`userEntry, heads
      ensures heads[..] == old(heads[..])[currentTerm := parent]
      ensures esp0 == GetEsp0(parent) && userEntry == UserEntry(parent)
    {
      heads[currentTerm] := parent;
      esp0 := GetEsp0(parent);
      SetPageExecute(parent);
      UserEntryMaps(userEntry, parent);
    }

    method TakeHaltStat(pid: nat, status: byte) returns (value: int)
      requires pid < pcbs.Length
      modifies pcbs
      ensures pcbs[..] == old(pcbs[..])[pid := old(pcbs[pid]).(haltStat := false)]
      ensures value == if old(pcbs[pid]).haltStat then 256 else status
    {
      value := status;
      if pcbs[pid].haltStat {
        pcbs[pid] := pcbs[pid].(haltStat := false);
        value := 256;
      }
    }

    /** squash_exception marks the program that raised the exception. */
    method RaiseHaltStat()
      requires Valid() && WellFormed(m)
      modifies this`m, pcbs
      ensures Valid() && m == Faulted(old(m)) && WellFormed(m)
      ensures old(Safe()) ==> Safe()
    {
      ghost var k, m0 := Snapshot(), m;
      FaultedKeeps(m);
      FaultedViews(Snapshot(), m);
      var p := heads[currentTerm];
      pcbs[p] := pcbs[p].(haltStat := true);
      m := Faulted(m);
      if ContextSafe(k, m0) {
        FaultedSafe(k, m0, Snapshot());
      }
    }

    // ---------- scheduling ----------

    ghost predicate Safe()
      reads this, pcbInUse, totalProgs, heads, pcbs
    {
      ContextSafe(Snapshot(), m)
    }

    /** Round robin: the next terminal that runs something, or the current one. */
    method GetScheduledTerm() returns (term: nat)
      requires Valid()
      ensures term < NUM_TERM && term == Scan(Lengths(m.stacks), m.current, Next(m.current))
    {
      ghost var totals := totalProgs[..];
      assert totals == Lengths(m.stacks) by {
        forall t | 0 <= t < NUM_TERM ensures totals[t] == Lengths(m.stacks)[t] {
          assert HeadIs(Snapshot(), m, t);
        }
      }
      SuccessorInRing(currentTerm, NUM_TERM);
      term := (currentTerm + 1) % NUM_TERM;
      while term != currentTerm
        invariant term < NUM_TERM && totalProgs[..] == totals
        invariant Scan(totals, currentTerm, Next(currentTerm)) == Scan(totals, currentTerm, term)
        decreases Dist(term, currentTerm)
      {
        if totalProgs[term] > 0 {
          return;
        }
        SuccessorInRing(term, NUM_TERM);
        term := (term + 1) % NUM_TERM;
      }
    }

    method SaveContext(pid: nat, at: Ctx)
      requires pid < pcbs.Length
      modifies pcbs
      ensures pcbs[..] == old(pcbs[..])[pid := old(pcbs[pid]).(self := at)]
    {
      pcbs[pid] := pcbs[pid].(self := at);
    }

    /** The timer interrupt. */
    method PitHandler(at: Ctx) returns (o: Outcome)
      requires Valid() && WellFormed(m) && Possible(m, Tick(at))
      modifies this, pcbs
      ensures Valid() && m == Step(old(m), Tick(at)).0
      ensures o == TickLoads(old(Snapshot()), old(m))
      ensures old(Safe()) ==> Safe() && o == Step(old(m), Tick(at)).1
    {
      var nextTerm := GetScheduledTerm();
      if nextTerm == currentTerm {
        return Unchanged;
      }
      ScanFindsNearest(Lengths(m.stacks), m.current, Next(m.current));
      o := SwitchTerminal(nextTerm, at);
    }

    method SwitchTerminal(nextTerm: nat, at: Ctx) returns (o: Outcome)
      requires Valid() && WellFormed(m) && Live(m, nextTerm) && nextTerm != m.current
      modifies this, pcbs
      ensures Valid() && m == SwitchedTo(old(m), nextTerm, at)
      ensures old(heads[nextTerm]) < pcbs.Length && o == Switched(old(pcbs[heads[nextTerm]]).self)
      ensures old(Safe()) ==> Safe() && nextTerm in old(m).suspended && o == Switched(old(m).suspended[nextTerm])
    {
      ghost var k, m0 := Snapshot(), m;
      HeadIsSound();
      SwitchedViews(k, m0, nextTerm, at);
      HeadsDiffer(m0, nextTerm, m0.current);
      var to := LoadTerminal(nextTerm, at);
      o := Switched(to);
      m := SwitchedTo(m0, nextTerm, at);
      if ContextSafe(k, m0) {
        SwitchedSafe(k, m0, nextTerm, at, Snapshot());
      }
    }

    /** The context switch of the timer interrupt. */
    method LoadTerminal(nextTerm: nat, at: Ctx) returns (to: Ctx)
      requires Sized(Snapshot()) && nextTerm < NUM_TERM && heads[currentTerm] < pcbs.Length
      requires heads[nextTerm] < pcbs.Length && heads[nextTerm] != heads[currentTerm]
      modifies this`userEntry, this`esp0, this`currentTerm, pcbs
      ensures Snapshot() == Saved(old(Snapshot()), heads[old(currentTerm)], at).(
                current := nextTerm, userEntry := UserEntry(heads[nextTerm]), esp0 := GetEsp0(heads[nextTerm]))
      ensures to == old(pcbs[heads[nextTerm]]).self
    {
      var curPid, nextPid := heads[currentTerm], heads[nextTerm];
      SetPageExecute(nextPid);
      UserEntryMaps(userEntry, nextPid);
      esp0 := GetEsp0(nextPid);
      SaveContext(curPid, at);
      currentTerm := nextTerm;
      to := pcbs[nextPid].self;
    }

    // ---------- opening a terminal ----------

    /** The view moves to a terminal that runs something. */
    method SetView(dest: nat)
      requires Valid() && dest < NUM_TERM
      modifies this`viewingTerm, this`m
      ensures Valid() && m == old(m).(viewing := dest)
      ensures old(Safe()) <==> Safe()
    {
      viewingTerm := dest;
      m := m.(viewing := dest);
      ViewingViews(old(Snapshot()), old(m), dest);
      SafeKept(old(Snapshot()), old(m), Snapshot(), m);
    }

    /** terminal_switch, before it launches the shell on an empty terminal: the interrupted context
        goes into the PCB of the terminal that was in view. */
    method LeaveFor(dest: nat, cur: nat, at: Ctx)
      requires Valid() && Live(m, m.current) && OthersWait(m)
      requires dest < NUM_TERM && !Live(m, dest) && Live(m, cur)
      requires OnStack(at, Top(m, m.current).pid)
      modifies this`currentTerm, this`m, pcbs
      ensures Valid() && m == Suspend(old(m), dest, at) && totalProgs[currentTerm] == 0
      ensures old(Safe()) ==> (Safe() <==> cur == old(m.current))
    {
      ghost var k := Snapshot();
      assert HeadIs(k, m, cur) && HeadIs(k, m, dest);
      assert At(m.stacks, cur, |m.stacks[cur]| - 1);
      OpenedViews(k, m, dest, heads[cur], at);
      if Safe() {
        OpeningIsSafeIff(k, m, dest, cur, at);
      }
      SaveContext(heads[cur], at);
      currentTerm := dest;
      m := Suspend(m, dest, at);
      assert Snapshot() == Saved(k, k.heads[cur], at).(current := dest);
    }
  }

  lemma {:induction false} TotalOfNone(n: nat)
    ensures Total(seq(n, t => [])) == 0
  {
    if n > 0 {
      var s: seq<seq<Frame>> := seq(n, t => []);
      assert s[..n - 1] == seq(n - 1, t => []);
      TotalOfNone(n - 1);
    }
  }
}
