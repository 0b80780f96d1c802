// The list forms of exit, wait and kill against the table scans that proc.c
// keeps for the build without state lists.  (wakeup1 is defined by its scan:
// SchedModel.Wakeup1 changes the processes by ScanWakeup.)

module SchedScans {
  import opened Common
  import opened SchedModel
  import opened SchedInvariant
  import opened SchedTheorems

  // -------------------------------------------------------------------- exit

  /** The adoption loop of the scan form, from slot i on (proc.c:377-383). */
  function ScanAdopt(procs: seq<Proc>, x: nat, init: nat, i: nat): (r: seq<Proc>)
    requires i <= |procs|
    ensures |r| == |procs|
    decreases |procs| - i
  {
    if i == |procs| then procs
    else if procs[i].parent == Some(x) then
      var adopted := procs[i := procs[i].(parent := Some(init))];
      ScanAdopt(if procs[i].state == ZOMBIE then ScanWakeup(adopted, ProcChan(init)) else adopted, x, init, i + 1)
    else ScanAdopt(procs, x, init, i + 1)
  }

  /** exit with table scans (proc.c:371-387). */
  function ScanExit(procs: seq<Proc>, x: nat, init: nat): seq<Proc>
    requires x < |procs|
  {
    var r := ScanAdopt(ScanWakeup(procs, ParentChan(procs[x])), x, init, 0);
    r[x := r[x].(state := ZOMBIE)]
  }

  predicate ZombieChildFrom(procs: seq<Proc>, x: nat, i: nat) {
    exists j | i <= j < |procs| :: procs[j].parent == Some(x) && procs[j].state == ZOMBIE
  }

  function Adopted(p: Proc, x: nat, init: nat, zombies: bool): Proc {
    var q := Adopt(p, x, init);
    if zombies && Woken(q, ProcChan(init)) then q.(state := RUNNABLE) else q
  }

  lemma {:induction false} ScanAdoptIs(procs: seq<Proc>, x: nat, init: nat, i: nat)
    requires i <= |procs| && x != init
    ensures var r := ScanAdopt(procs, x, init, i);
      forall j | 0 <= j < |procs| ::
        r[j] == if j < i
                then (if ZombieChildFrom(procs, x, i) && Woken(procs[j], ProcChan(init))
                      then procs[j].(state := RUNNABLE) else procs[j])
                else Adopted(procs[j], x, init, ZombieChildFrom(procs, x, i))
    decreases |procs| - i
  {
    if i < |procs| {
      var adopted := procs[i := Adopt(procs[i], x, init)];
      var zombie := procs[i].parent == Some(x) && procs[i].state == ZOMBIE;
      var next := if zombie then ScanWakeup(adopted, ProcChan(init)) else adopted;
      assert procs[i].parent != Some(x) ==> adopted == procs;
      assert ScanAdopt(procs, x, init, i) == ScanAdopt(next, x, init, i + 1);
      ScanAdoptIs(next, x, init, i + 1);
      assert ZombieChildFrom(next, x, i + 1) == ZombieChildFrom(procs, x, i + 1) by {
        assert forall j | i + 1 <= j < |procs| ::
          next[j].parent == procs[j].parent && (next[j].state == ZOMBIE <==> procs[j].state == ZOMBIE);
      }
      assert ZombieChildFrom(procs, x, i) <==> zombie || ZombieChildFrom(procs, x, i + 1);
    }
  }

  /** The list form of exit leaves every process exactly as the scan does. */
  lemma ExitAgrees(m: Limits, t: Table, x: nat)
    requires Inv(m, t) && CanRun(t, x) && x !in t.forks && x != t.initproc
    ensures SleepL in t.lists && ZombieL in t.lists && ListOf(Abandon(t, x).procs[x]) in Abandon(t, x).lists
    ensures Exit(t, x).procs == ScanExit(t.procs, x, t.initproc)
  {
    hide Inv, Abandon, Exit;
    ExitKeeps(m, t, x);
    ExitProcs(t, x);
    var woken := ScanWakeup(t.procs, ParentChan(t.procs[x]));
    ScanAdoptIs(woken, x, t.initproc, 0);
    assert ZombieChildFrom(woken, x, 0) == HasZombieChild(t.procs, x) by {
      assert forall j | 0 <= j < |woken| ::
        woken[j].parent == t.procs[j].parent && (woken[j].state == ZOMBIE <==> t.procs[j].state == ZOMBIE);
    }
    hide HasZombieChild, ZombieChildFrom;
    var a, b := Exit(t, x).procs, ScanExit(t.procs, x, t.initproc);
    assert forall j | 0 <= j < |a| :: a[j] == b[j];
  }

  // -------------------------------------------------------------------- wait

  /** The first zombie child in table order, from slot i on. */
  function ScanZombie(procs: seq<Proc>, x: nat, i: nat): (r: Option<nat>)
    requires i <= |procs|
    ensures r.Some? ==> i <= r.value < |procs| && procs[r.value].parent == Some(x) && procs[r.value].state == ZOMBIE
    ensures r.None? ==> !ZombieChildFrom(procs, x, i)
    decreases |procs| - i
  {
    if i == |procs| then None
    else if procs[i].parent == Some(x) && procs[i].state == ZOMBIE then Some(i)
    else ScanZombie(procs, x, i + 1)
  }

  predicate HasChild(procs: seq<Proc>, x: nat) {
    exists i | 0 <= i < |procs| :: procs[i].parent == Some(x)
  }

  /** One pass of wait with a table scan (proc.c:494-523). */
  function ScanWait(procs: seq<Proc>, x: nat): (WaitResult, seq<Proc>)
    requires x < |procs|
  {
    match ScanZombie(procs, x, 0)
    case Some(c) =>
      (Reaped(procs[c].pid), procs[c := procs[c].(state := UNUSED, pid := 0, parent := None, killed := false)])
    case None =>
      if !HasChild(procs, x) || procs[x].killed then (NoChildren, procs)
      else (Asleep, procs[x := procs[x].(state := SLEEPING, chan := ProcChan(x))])
  }

  predicate SameOutcome(a: WaitResult, b: WaitResult) {
    (a.Reaped? <==> b.Reaped?) && (a.NoChildren? <==> b.NoChildren?)
  }

  /** Slot c was a zombie child of x with this pid and is free now; every other slot is as it was. */
  ghost predicate Frees(procs: seq<Proc>, procs': seq<Proc>, x: nat, pid: nat, c: nat) {
    && |procs'| == |procs| && c < |procs|
    && procs[c].parent == Some(x) && procs[c].state == ZOMBIE && procs[c].pid == pid
    && procs'[c].state == UNUSED && procs'[c].pid == 0 && procs'[c].parent == None && !procs'[c].killed
    && forall y | 0 <= y < |procs| && y != c :: procs'[y] == procs[y]
  }

  /** What either form of wait answers and leaves. */
  ghost predicate WaitDoes(procs: seq<Proc>, x: nat, r: WaitResult, procs': seq<Proc>)
    requires x < |procs|
  {
    match r
    case Reaped(pid) => exists c :: Frees(procs, procs', x, pid, c)
    case NoChildren => procs' == procs
    case Asleep =>
      && |procs'| == |procs| && procs'[x].state == SLEEPING && procs'[x].chan == ProcChan(x)
      && forall y | 0 <= y < |procs| && y != x :: procs'[y] == procs[y]
  }

  /** Both forms of wait reap, give up or sleep in the same cases.  Reaping frees
      the slot of a zombie child, which carried the pid that is returned. */
  lemma WaitAgrees(m: Limits, t: Table, x: nat)
    requires Inv(m, t) && CanRun(t, x) && Partition(m, t)
    ensures SameOutcome(Wait(m, t, x).0, ScanWait(t.procs, x).0)
    ensures WaitDoes(t.procs, x, Wait(m, t, x).0, Wait(m, t, x).1.procs)
    ensures WaitDoes(t.procs, x, ScanWait(t.procs, x).0, ScanWait(t.procs, x).1)
  {
    hide Inv, Listed, Without, HasChild, HasLiveChild, Charge;
    ZombieChildListed(m, t, x);
    assert HasZombieChild(t.procs, x) <==> ZombieChildFrom(t.procs, x, 0);
    ChildrenLive(m, t, x);
    var r, z := FirstChild(t.procs, t.lists[ZombieL], x), ScanZombie(t.procs, x, 0);
    if r.Some? {
      assert Frees(t.procs, Wait(m, t, x).1.procs, x, t.procs[r.value].pid, r.value);
      assert Frees(t.procs, ScanWait(t.procs, x).1, x, t.procs[z.value].pid, z.value);
    }
  }

  lemma ChildrenLive(m: Limits, t: Table, x: nat)
    requires Inv(m, t)
    ensures !HasZombieChild(t.procs, x) ==> (HasChild(t.procs, x) <==> HasLiveChild(t.procs, x))
  {
    if HasChild(t.procs, x) && !HasZombieChild(t.procs, x) {
      var i :| 0 <= i < |t.procs| && t.procs[i].parent == Some(x);
      assert i != t.initproc ==> InTree(t.procs, t.procs[i]);
    }
  }

  // -------------------------------------------------------------------- kill

  /** The first slot with this pid, in any state. */
  function ScanPid(procs: seq<Proc>, pid: int, i: nat): (r: Option<nat>)
    requires i <= |procs|
    ensures r.Some? ==> i <= r.value < |procs| && procs[r.value].pid == pid
    ensures r.None? ==> forall j | i <= j < |procs| :: procs[j].pid != pid
    decreases |procs| - i
  {
    if i == |procs| then None
    else if procs[i].pid == pid then Some(i)
    else ScanPid(procs, pid, i + 1)
  }

  /** kill with a table scan (proc.c:982-993). */
  function ScanKill(procs: seq<Proc>, pid: int): (bool, seq<Proc>) {
    match ScanPid(procs, pid, 0)
    case None => (false, procs)
    case Some(x) =>
      var p := procs[x].(killed := true);
      (true, procs[x := if p.state == SLEEPING then p.(state := RUNNABLE) else p])
  }

  /** The slots whose pid the list form cannot see. */
  ghost predicate Hidden(procs: seq<Proc>, pid: int) {
    exists i | 0 <= i < |procs| :: procs[i].pid == pid && (procs[i].state == UNUSED || procs[i].state == ZOMBIE)
  }

  /** kill agrees with its table scan exactly for the pids that no UNUSED or
      ZOMBIE slot carries; for the others the list form answers -1. */
  lemma KillAgreesIff(m: Limits, t: Table, pid: int)
    requires Inv(m, t) && Partition(m, t)
    requires forall x | 0 <= x < |t.procs| && t.procs[x].state == SLEEPING :: t.procs[x].prio <= m.maxPrio
    ensures var (ok, t') := Kill(m, t, pid);
      (ok, t'.procs) == ScanKill(t.procs, pid) <==> !Hidden(t.procs, pid)
  {
    hide Inv, Listed, Without;
    var found, scanned := FindPid(t.procs, pid, true), ScanPid(t.procs, pid, 0);
    if Hidden(t.procs, pid) {
      var i :| 0 <= i < |t.procs| && t.procs[i].pid == pid
               && (t.procs[i].state == UNUSED || t.procs[i].state == ZOMBIE);
      assert scanned.Some?;
      if found.Some? {
        SamePid(m, t, found.value, i);
      }
    } else if scanned.Some? {
      assert found.Some? by {
        assert Visited(t.procs[scanned.value], true);
      }
      SamePid(m, t, found.value, scanned.value);
    }
  }

  lemma SamePid(m: Limits, t: Table, i: nat, j: nat)
    requires Inv(m, t) && i < |t.procs| && j < |t.procs| && t.procs[i].pid == t.procs[j].pid
    requires t.procs[i].state != UNUSED
    ensures i == j
  {
  }

  // ------------------------------------------- a run in which the kills differ

  lemma FirstOnly(m: Limits, t: Table, x: nat)
    requires Partition(m, t) && x < |t.procs| && t.procs[x].state == RUNNABLE
    requires forall y | 0 <= y < |t.procs| && y != x :: t.procs[y].state != RUNNABLE
    ensures FirstReady(m, t.lists, 0).Some? && t.lists[ReadyL(FirstReady(m, t.lists, 0).value)][0] == x
  {
    hide FirstReady;
    assert x in t.lists[ReadyL(t.procs[x].prio)];
    var k := FirstReady(m, t.lists, 0).value;
    assert GoodList(t.procs, t.lists[ReadyL(k)], ReadyL(k), {});
    assert t.procs[t.lists[ReadyL(k)][0]].state == RUNNABLE;
  }

  lemma DispatchOnly(m: Limits, t: Table, x: nat)
    requires Partition(m, t) && x < |t.procs| && t.procs[x].state == RUNNABLE
    requires forall y | 0 <= y < |t.procs| && y != x :: t.procs[y].state != RUNNABLE
    ensures var u := Dispatch(m, t);
      && |u.procs| == |t.procs| && u.procs[x].state == RUNNING
      && (forall y | 0 <= y < |t.procs| && y != x :: u.procs[y] == t.procs[y])
      && u.initproc == t.initproc && u.forks == t.forks && FreeL in u.lists && u.lists[FreeL] == t.lists[FreeL]
  {
    hide FirstReady, GoodList, Without;
    FirstOnly(m, t, x);
  }

  /** When one process is ready, a pass of the scheduler dispatches it. */
  lemma ScheduleOnly(m: Limits, t: Table, x: nat)
    requires Partition(m, t) && x < |t.procs| && t.procs[x].state == RUNNABLE
    requires forall y | 0 <= y < |t.procs| && y != x :: t.procs[y].state != RUNNABLE
    ensures var u := Schedule(m, t);
      && |u.procs| == |t.procs| && u.procs[x].state == RUNNING
      && (forall y | 0 <= y < |t.procs| && y != x :: u.procs[y].state == t.procs[y].state)
      && u.initproc == t.initproc && u.forks == t.forks && FreeL in u.lists && u.lists[FreeL] == t.lists[FreeL]
  {
    hide GoodList, Dispatch;
    PromotePartition(m, t);
    DispatchOnly(m, if t.promoteAt <= t.ticks then Promote(m, t) else t, x);
  }

  /** The table while init forks one child, in slot 1. */
  ghost predicate OneChild(m: Limits, t: Table, init: PState, child: PState) {
    && |t.procs| == m.nproc >= 2 && t.initproc == 0 && t.procs[0].state == init && t.procs[1].state == child
    && forall y | 2 <= y < |t.procs| :: t.procs[y].state == UNUSED
  }

  ghost function ZombieRun(): seq<Step> {
    [ScheduleStep, ForkAllocStep(0), ForkSetupStep(0), ForkFinishStep(0), ScheduleStep, ExitStep(1)]
  }

  lemma ExecNext(m: Limits, t: Table, run: seq<Step>, a: Step)
    requires Inv(m, t) && Exec(m, t, run).Some? && Enabled(m, Exec(m, t, run).value, a)
    ensures Exec(m, t, run + [a]) == Some(Apply(m, Exec(m, t, run).value, a))
  {
    hide Inv, Enabled, Apply;
    assert (run + [a])[..|run|] == run;
  }

  /** init runs and forks. */
  lemma Forked(m: Limits, ticks: nat)
    requires m.Valid() && m.nproc >= 2
    ensures Inv(m, Booted(m, ticks)) && Exec(m, Booted(m, ticks), ZombieRun()[..2]).Some?
    ensures var t := Exec(m, Booted(m, ticks), ZombieRun()[..2]).value;
      OneChild(m, t, RUNNING, EMBRYO) && t.forks == map[0 := Fork(1, false)]
  {
    hide Inv, Listed, Schedule;
    var b := Booted(m, ticks);
    BootedInv(m, ticks);
    BootedPartition(m, ticks);
    ScheduleOnly(m, b, 0);
    assert b.lists[FreeL][0] == 1;
    assert Exec(m, b, []) == Some(b);
    ExecNext(m, b, [], ScheduleStep);
    assert [] + [ScheduleStep] == [ScheduleStep];
    var t1 := Exec(m, b, [ScheduleStep]).value;
    InvPartition(m, t1);
    ExecNext(m, b, [ScheduleStep], ForkAllocStep(0));
    assert ZombieRun()[..2] == [ScheduleStep] + [ForkAllocStep(0)];
  }

  /** The child becomes ready, and is the only one. */
  lemma ForkedReady(m: Limits, ticks: nat)
    requires m.Valid() && m.nproc >= 2
    ensures Inv(m, Booted(m, ticks)) && Exec(m, Booted(m, ticks), ZombieRun()[..4]).Some?
    ensures var t := Exec(m, Booted(m, ticks), ZombieRun()[..4]).value;
      OneChild(m, t, RUNNING, RUNNABLE) && t.forks == map[]
  {
    hide Inv, Listed;
    Forked(m, ticks);
    var b, run := Booted(m, ticks), ZombieRun()[..2];
    ExecNext(m, b, run, ForkSetupStep(0));
    ExecNext(m, b, run + [ForkSetupStep(0)], ForkFinishStep(0));
    assert ZombieRun()[..4] == run + [ForkSetupStep(0)] + [ForkFinishStep(0)];
  }

  lemma ExitedZombie(m: Limits, t: Table)
    requires Inv(m, t) && OneChild(m, t, RUNNING, RUNNING) && t.forks == map[]
    ensures Enabled(m, t, ExitStep(1)) && OneChild(m, Apply(m, t, ExitStep(1)), RUNNING, ZOMBIE)
  {
    hide Inv, Listed, Exit, Abandon;
    ExitKeeps(m, t, 1);
    ExitProcs(t, 1);
  }

  lemma ZombieKilled(m: Limits, t: Table)
    requires Inv(m, t) && OneChild(m, t, RUNNING, ZOMBIE)
    ensures FindPid(t.procs, t.procs[1].pid, true).None? && ScanKill(t.procs, t.procs[1].pid).0
  {
    hide Inv;
    if FindPid(t.procs, t.procs[1].pid, true).Some? {
      SamePid(m, t, FindPid(t.procs, t.procs[1].pid, true).value, 1);
    }
  }

  /** The child runs, on another processor than init. */
  lemma ChildRuns(m: Limits, ticks: nat)
    requires m.Valid() && m.nproc >= 2
    ensures Inv(m, Booted(m, ticks)) && Exec(m, Booted(m, ticks), ZombieRun()[..5]).Some?
    ensures var t := Exec(m, Booted(m, ticks), ZombieRun()[..5]).value;
      OneChild(m, t, RUNNING, RUNNING) && t.forks == map[]
  {
    hide Inv, Listed, Schedule, Exit, Exec;
    ForkedReady(m, ticks);
    var b, run := Booted(m, ticks), ZombieRun()[..4];
    InvPartition(m, Exec(m, b, run).value);
    ScheduleOnly(m, Exec(m, b, run).value, 1);
    ExecNext(m, b, run, ScheduleStep);
    assert ZombieRun()[..5] == run + [ScheduleStep];
  }

  lemma ZombieReached(m: Limits, ticks: nat)
    requires m.Valid() && m.nproc >= 2
    ensures Inv(m, Booted(m, ticks)) && Exec(m, Booted(m, ticks), ZombieRun()).Some?
    ensures OneChild(m, Exec(m, Booted(m, ticks), ZombieRun()).value, RUNNING, ZOMBIE)
  {
    hide Inv, Listed, Exit, Exec, Apply;
    ChildRuns(m, ticks);
    var b, run := Booted(m, ticks), ZombieRun()[..5];
    ExitedZombie(m, Exec(m, b, run).value);
    ExecNext(m, b, run, ExitStep(1));
    assert ZombieRun() == run + [ExitStep(1)];
  }

  /** After the child has run and exited, before init waits for it, kill of its
      pid answers -1 on lists and succeeds by scan. */
  lemma KillsDiffer(m: Limits, ticks: nat)
    requires m.Valid() && m.nproc >= 2
    ensures Inv(m, Booted(m, ticks)) && Exec(m, Booted(m, ticks), ZombieRun()).Some?
    ensures var t := Exec(m, Booted(m, ticks), ZombieRun()).value;
      && Partition(m, t) && OneChild(m, t, RUNNING, ZOMBIE)
      && (forall x | 0 <= x < |t.procs| && t.procs[x].state == SLEEPING :: t.procs[x].prio <= m.maxPrio)
      && Kill(m, t, t.procs[1].pid) == (false, t) && ScanKill(t.procs, t.procs[1].pid).0
  {
    hide Inv, Listed, Exec, ScanKill;
    ZombieReached(m, ticks);
    var t := Exec(m, Booted(m, ticks), ZombieRun()).value;
    InvPartition(m, t);
    ZombieKilled(m, t);
  }
}
