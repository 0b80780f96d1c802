// Whole runs of the process table: the invariant in every reachable state and
// the ancestry of every process.

module SchedTheorems {
  import opened Common
  import opened SchedModel
  import opened SchedInvariant

  // ------------------------------------------------------------------- runs

  ghost function Apply(m: Limits, t: Table, a: Step): Table
    requires Inv(m, t) && Enabled(m, t, a)
  {
    SleepersHaveLists(m, t);
    InvPartition(m, t);
    match a
    case TickStep(d) => t.(ticks := t.ticks + d)
    case ForkAllocStep(x) => ForkAlloc(m, t, x).value
    case ForkFailStep(x) => ForkFacts(m, t, x); ForkFail(m, t, x)
    case ForkSetupStep(x) => ForkFacts(m, t, x); ForkSetup(m, t, x)
    case ForkFinishStep(x) => ForkFacts(m, t, x); ForkFinish(m, t, x)
    case ExitStep(x) => ExitKeeps(m, t, x); Exit(t, x)
    case WaitStep(x) => Wait(m, t, x).1
    case YieldStep(x) => SlotFacts(m, t, x); Yield(m, t, x)
    case SleepStep(x, id) => Sleep(m, t, x, OtherChan(id))
    case WakeupStep(id) => Wakeup1(t, OtherChan(id))
    case KillStep(pid) => Kill(m, t, pid).1
    case SetPriorityStep(pid, prio) => SetPriority(m, t, pid, prio).1
    case ScheduleStep => Schedule(m, t)
  }

  lemma StepKeeps(m: Limits, t: Table, a: Step)
    requires Inv(m, t) && Enabled(m, t, a)
    ensures Inv(m, Apply(m, t, a))
  {
    hide Inv, Listed;
    InvPartition(m, t);
    match a
    case TickStep(d) => TickKeeps(m, t, d);
    case ForkAllocStep(x) => ForkAllocKeeps(m, t, x);
    case ForkFailStep(x) => ForkFailKeeps(m, t, x);
    case ForkSetupStep(x) => ForkSetupKeeps(m, t, x);
    case ForkFinishStep(x) => ForkFinishKeeps(m, t, x);
    case ExitStep(x) => ExitKeeps(m, t, x);
    case WaitStep(x) => WaitKeeps(m, t, x);
    case YieldStep(x) => SlotFacts(m, t, x); YieldKeeps(m, t, x);
    case SleepStep(x, id) => SleepKeeps(m, t, x, id);
    case WakeupStep(id) => WakeupKeeps(m, t, OtherChan(id));
    case KillStep(pid) => KillKeeps(m, t, pid);
    case SetPriorityStep(pid, prio) => SetPriorityKeeps(m, t, pid, prio);
    case ScheduleStep => ScheduleKeeps(m, t);
  }

  /** The table after a run, if each step was enabled in its turn. */
  ghost function Exec(m: Limits, t: Table, run: seq<Step>): (r: Option<Table>)
    requires Inv(m, t)
    ensures r.Some? ==> Inv(m, r.value)
  {
    if run == [] then Some(t)
    else
      var before := Exec(m, t, run[..|run| - 1]);
      var a := run[|run| - 1];
      if before.Some? && Enabled(m, before.value, a)
      then StepKeeps(m, before.value, a); Some(Apply(m, before.value, a))
      else None
  }

  // ------------------------------------------------------------ after userinit

  function FreshProc(m: Limits): Proc { Proc(UNUSED, 0, None, NoChan, false, 0, 0, 0) }

  function InitProc(m: Limits): Proc { Proc(RUNNABLE, 1, None, NoChan, false, m.budget, 0, 0) }

  function Range(lo: nat, hi: nat): (s: seq<nat>)
    requires lo <= hi
    ensures |s| == hi - lo && forall i | 0 <= i < |s| :: s[i] == lo + i
    decreases hi - lo
  {
    if lo == hi then [] else [lo] + Range(lo + 1, hi)
  }

  function ReadyIds(k: nat): (r: set<ListId>)
    ensures forall id :: id in r <==> id.ReadyL? && id.k <= k
  {
    if k == 0 then {ReadyL(0)} else ReadyIds(k - 1) + {ReadyL(k)}
  }

  function Ids(m: Limits): set<ListId> {
    {FreeL, EmbryoL, SleepL, RunningL, ZombieL} + ReadyIds(m.maxPrio)
  }

  function FreshProcs(m: Limits): seq<Proc> {
    seq(m.nproc, _ => FreshProc(m))
  }

  function BootList(m: Limits, id: ListId): seq<nat>
    requires m.Valid()
  {
    match id
    case FreeL => Range(1, m.nproc)
    case ReadyL(k) => if k == 0 then [0] else []
    case _ => []
  }

  function BootProcs(m: Limits): (procs: seq<Proc>)
    requires m.Valid()
    ensures |procs| == m.nproc && procs[0] == InitProc(m) && forall i | 0 < i < |procs| :: procs[i] == FreshProc(m)
  {
    [InitProc(m)] + seq(m.nproc - 1, _ => FreshProc(m))
  }

  /** The table when userinit returns: init is ready, every other slot is free. */
  function Booted(m: Limits, ticks: nat): Table
    requires m.Valid()
  {
    Table(BootProcs(m), map id | id in Ids(m) :: BootList(m, id), ticks, ticks + m.promote, 2, 0, map[])
  }

  lemma BootedPartition(m: Limits, ticks: nat)
    requires m.Valid()
    ensures Partition(m, Booted(m, ticks))
  {
    var t := Booted(m, ticks);
    forall id | id in t.lists ensures GoodList(t.procs, t.lists[id], id, {}) {
      assert t.lists[id] == BootList(m, id);
    }
    forall x | 0 <= x < |t.procs| ensures m.IsList(ListOf(t.procs[x])) && x in t.lists[ListOf(t.procs[x])] {
      if x > 0 {
        assert Range(1, m.nproc)[x - 1] == x;
      }
    }
  }

  lemma BootedInv(m: Limits, ticks: nat)
    requires m.Valid()
    ensures Inv(m, Booted(m, ticks))
  {
    hide Listed;
    BootedPartition(m, ticks);
    var t := Booted(m, ticks);
    assert forall i | 0 <= i < |t.procs| && i != 0 :: InTree(t.procs, t.procs[i]);
    assert forall i | 0 <= i < |t.procs| :: !InWait(t.procs[i]) && t.procs[i].state != EMBRYO;
  }

  /** In every run from boot the invariant holds: the partition, the ranges,
      distinct pids, the parent tree and no lost wakeup. */
  lemma ReachableInv(m: Limits, ticks: nat, run: seq<Step>)
    requires m.Valid()
    ensures Inv(m, Booted(m, ticks))
    ensures Exec(m, Booted(m, ticks), run).Some? ==> Inv(m, Exec(m, Booted(m, ticks), run).value)
  {
    BootedInv(m, ticks);
  }

  // ---------------------------------------------------------------- ancestry

  /** Follow parents until there is none. */
  ghost function Root(m: Limits, t: Table, i: nat): nat
    requires Inv(m, t) && i < |t.procs| && t.procs[i].state != UNUSED && t.procs[i].state != EMBRYO
    decreases t.procs[i].pid
  {
    if i == t.initproc then i
    else
      ParentFacts(m, t, i);
      Root(m, t, t.procs[i].parent.value)
  }

  lemma ParentFacts(m: Limits, t: Table, i: nat)
    requires Inv(m, t) && i < |t.procs| && i != t.initproc && t.procs[i].state != UNUSED && t.procs[i].state != EMBRYO
    ensures ChildOk(t.procs, t.procs[i])
  {
    assert InTree(t.procs, t.procs[i]);
  }

  /** Every process, zombies included, descends from init. */
  lemma {:induction false} AllDescendFromInit(m: Limits, t: Table, i: nat)
    requires Inv(m, t) && i < |t.procs| && t.procs[i].state != UNUSED && t.procs[i].state != EMBRYO
    ensures Root(m, t, i) == t.initproc
    decreases t.procs[i].pid
  {
    if i != t.initproc {
      ParentFacts(m, t, i);
      AllDescendFromInit(m, t, t.procs[i].parent.value);
    }
  }
}
