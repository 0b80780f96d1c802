// What the scheduler promises on the clock and over runs: who is dispatched and
// when priorities rise and fall, how sleep and wakeup meet, that wait frees what
// it reaps and never returns a pid twice, and what setpriority does.

module SchedLaws {
  import opened Common
  import opened SchedModel
  import opened SchedInvariant
  import opened SchedTheorems
  import opened SchedStarvation
  import opened SchedScans

  // ------------------------------------------------------ a pass of the scheduler

  /** x stands before y: at a higher level, or earlier in the same queue. */
  ghost predicate Before(t: Table, x: nat, y: nat) {
    && Queued(t, x) && Queued(t, y)
    && (t.procs[x].prio < t.procs[y].prio || (t.procs[x].prio == t.procs[y].prio && Ahead(t, x) < Ahead(t, y)))
  }

  /** The level one promotion up. */
  function Up(prio: nat): nat { if prio > 0 then prio - 1 else 0 }

  lemma {:induction false} IndexHead(s: seq<nat>, x: nat)
    requires x in s && x != s[0]
    ensures IndexOf(s, s[0]) == 0 < IndexOf(s, x)
  {
  }

  lemma {:induction false} IndexBehind(s: seq<nat>, more: seq<nat>, x: nat)
    requires x in more && x !in s
    ensures x in s + more && IndexOf(s + more, x) == |s| + IndexOf(more, x)
  {
    if s == [] {
      assert s + more == more;
    } else {
      assert (s + more)[1..] == s[1..] + more;
      IndexBehind(s[1..], more, x);
    }
  }

  /** Taking y out of a queue leaves the others in order. */
  lemma {:induction false} OrderWithout(s: seq<nat>, y: nat, a: nat, b: nat)
    requires a in s && b in s && a != y && b != y && IndexOf(s, a) < IndexOf(s, b)
    ensures a in Without(s, y) && b in Without(s, y) && IndexOf(Without(s, y), a) < IndexOf(Without(s, y), b)
  {
    if s[0] == a {
      assert ([s[0]] + Without(s[1..], y))[0] == a;
    } else if s[0] != y {
      OrderWithout(s[1..], y, a, b);
      assert ([s[0]] + Without(s[1..], y))[1..] == Without(s[1..], y);
    }
  }

  lemma OneQueue(m: Limits, t: Table, x: nat, k: nat)
    requires Inv(m, t) && x < |t.procs| && ReadyL(k) in t.lists && x in t.lists[ReadyL(k)]
    ensures t.procs[x].state == RUNNABLE && t.procs[x].prio == k
  {
    hide ProcsOk, NoDup;
    assert GoodList(t.procs, t.lists[ReadyL(k)], ReadyL(k), {});
  }

  ghost function Queue(t: Table, k: nat): seq<nat> {
    if ReadyL(k) in t.lists then t.lists[ReadyL(k)] else []
  }

  lemma PromotedQueue(m: Limits, t: Table, k: nat)
    requires ReadyL(k) in t.lists
    ensures Queue(Promote(m, t), k) == if k == 0 then Queue(t, 0) + Queue(t, 1) else Queue(t, k + 1)
  {
    hide PromoteProcs;
  }

  lemma PromotedSlot(m: Limits, t: Table, x: nat)
    requires Inv(m, t) && Queued(t, x)
    ensures Queued(Promote(m, t), x) && Promote(m, t).procs[x].prio == Up(t.procs[x].prio)
    ensures ReadyL(0) in t.lists && ReadyL(0) in Promote(m, t).lists
    ensures t.procs[x].prio >= 2 ==> Ahead(Promote(m, t), x) == Ahead(t, x)
  {
    hide Inv, Listed, IndexOf, PromoteList;
    PromoteKeeps(m, t);
    InvQueued(m, Promote(m, t), x);
    SlotFacts(m, t, x);
    if t.procs[x].prio >= 2 {
      PromotedQueue(m, t, t.procs[x].prio - 1);
    }
  }

  /** Promotion keeps the order of those that wait. */
  lemma PromoteOrder(m: Limits, t: Table, x: nat, y: nat)
    requires Inv(m, t) && Before(t, x, y)
    ensures Before(Promote(m, t), x, y)
  {
    hide Inv, Promote, IndexOf;
    PromotedSlot(m, t, x);
    PromotedSlot(m, t, y);
    if t.procs[y].prio <= 1 {
      PromotedQueue(m, t, 0);
      JoinOrder(m, t, x, y);
    }
  }

  lemma JoinOrder(m: Limits, t: Table, x: nat, y: nat)
    requires Inv(m, t) && Before(t, x, y) && t.procs[y].prio <= 1 && ReadyL(0) in t.lists
    ensures var q := Queue(t, 0) + Queue(t, 1); x in q && y in q && IndexOf(q, x) < IndexOf(q, y)
  {
    hide Inv, Listed;
    JoinIndex(m, t, x);
    JoinIndex(m, t, y);
  }

  lemma JoinIndex(m: Limits, t: Table, x: nat)
    requires Inv(m, t) && Queued(t, x) && t.procs[x].prio <= 1 && ReadyL(0) in t.lists
    ensures var q := Queue(t, 0) + Queue(t, 1);
      x in q && IndexOf(q, x) == Ahead(t, x) + if t.procs[x].prio == 0 then 0 else |Queue(t, 0)|
  {
    hide Inv, Listed;
    if x in Queue(t, 0) {
      OneQueue(m, t, x, 0);
      IndexAppend(Queue(t, 0), Queue(t, 1), x);
    } else {
      IndexBehind(Queue(t, 0), Queue(t, 1), x);
    }
  }

  /** The table when the scheduler looks for a process: promoted when it is time. */
  ghost function Lifted(m: Limits, t: Table): Table {
    if t.promoteAt <= t.ticks then Promote(m, t) else t
  }

  lemma LiftedKeeps(m: Limits, t: Table)
    requires Inv(m, t)
    ensures Inv(m, Lifted(m, t)) && Partition(m, t) && Partition(m, Lifted(m, t))
    ensures Schedule(m, t) == Dispatch(m, Lifted(m, t))
  {
    hide Inv, Listed, Dispatch, Promote;
    PromoteKeeps(m, t);
    InvPartition(m, t);
    PromotePartition(m, t);
  }

  lemma ReadyLists(m: Limits, t: Table)
    requires Partition(m, t)
    ensures forall i: nat | i <= m.maxPrio :: ReadyL(i) in t.lists
  {
  }

  lemma FirstIsBefore(m: Limits, t: Table, k: nat, y: nat)
    requires Inv(m, t) && Partition(m, t) && FirstReady(m, t.lists, 0) == Some(k)
    requires Waiting(t, y) && y != t.lists[ReadyL(k)][0]
    ensures Queued(t, t.lists[ReadyL(k)][0]) && Before(t, t.lists[ReadyL(k)][0], y)
  {
    hide Inv, Listed, FirstReady, IndexOf;
    ReadyLists(m, t);
    InvQueued(m, t, y);
    ReadyHead(m, t, k);
    if t.procs[y].prio == k {
      IndexHead(t.lists[ReadyL(k)], y);
    }
  }

  lemma DispatchSlots(m: Limits, t: Table)
    requires Inv(m, t) && Partition(m, t)
    ensures match FirstReady(m, t.lists, 0)
      case None => Dispatch(m, t) == t && forall y | 0 <= y < |t.procs| :: t.procs[y].state != RUNNABLE
      case Some(k) =>
        var x := t.lists[ReadyL(k)][0];
        && x < |t.procs| && t.procs[x].state == RUNNABLE
        && Dispatch(m, t).procs == t.procs[x := t.procs[x].(state := RUNNING, cpuIn := t.ticks, chan := NoChan)]
        && Dispatch(m, t).promoteAt == t.promoteAt && Dispatch(m, t).ticks == t.ticks
  {
    match FirstReady(m, t.lists, 0)
    case None =>
      forall y | 0 <= y < |t.procs| ensures t.procs[y].state != RUNNABLE {
        if t.procs[y].state == RUNNABLE {
          InvQueued(m, t, y);
        }
      }
    case Some(k) =>
      ReadyHead(m, t, k);
      hide Inv, Listed, FirstReady;
  }

  /** Dispatching x leaves the others that wait in order. */
  lemma DispatchOrder(m: Limits, t: Table, y: nat, z: nat)
    requires Inv(m, t) && Partition(m, t) && Before(t, y, z)
    requires Waiting(Dispatch(m, t), y) && Waiting(Dispatch(m, t), z)
    ensures Before(Dispatch(m, t), y, z)
  {
    hide Inv, Listed, FirstReady, IndexOf, Without;
    DispatchNotBehind(m, t, y);
    DispatchNotBehind(m, t, z);
    DispatchKeeps(m, t);
    InvQueued(m, Dispatch(m, t), y);
    InvQueued(m, Dispatch(m, t), z);
    DispatchSlots(m, t);
    ReadyLists(m, t);
    var x := t.lists[ReadyL(FirstReady(m, t.lists, 0).value)][0];
    var k := t.procs[y].prio;
    if t.procs[z].prio == k && k == t.procs[x].prio {
      OrderWithout(t.lists[ReadyL(k)], x, y, z);
    }
  }

  /** A pass of the scheduler dispatches the process that stands before every
      other, at the tick of the pass, and idles only when none waits.  When the
      time for it has come, every process that sleeps, waits or runs goes up one
      level, and the next promotion is TICKS_TO_PROMOTE later; before that, no
      level changes.  Nothing else does. */
  lemma PassLaw(m: Limits, t: Table) returns (ran: Option<nat>)
    requires Inv(m, t)
    ensures Partition(m, t) && |Schedule(m, t).procs| == |t.procs|
    ensures ran.None? <==> forall y | 0 <= y < |t.procs| :: t.procs[y].state != RUNNABLE
    ensures ran.Some? ==> Waiting(t, ran.value)
    ensures ran.Some? ==> forall y: nat | Waiting(t, y) && y != ran.value :: Before(t, ran.value, y)
    ensures forall y | 0 <= y < |t.procs| ::
      var p, q := t.procs[y], Schedule(m, t).procs[y];
      && q.prio == (if t.promoteAt <= t.ticks && p.state in {SLEEPING, RUNNABLE, RUNNING} then Up(p.prio) else p.prio)
      && q == (if ran == Some(y) then p.(state := RUNNING, cpuIn := t.ticks, chan := NoChan) else p).(prio := q.prio)
    ensures Schedule(m, t).promoteAt == if t.promoteAt <= t.ticks then t.ticks + m.promote else t.promoteAt
    ensures Schedule(m, t).ticks == t.ticks
  {
    hide Inv, Listed, FirstReady, IndexOf, Dispatch, PromoteList;
    LiftedKeeps(m, t);
    var u := Lifted(m, t);
    DispatchSlots(m, u);
    ReadyLists(m, u);
    var k := FirstReady(m, u.lists, 0);
    if k.None? {
      ran := None;
    } else {
      ran := Some(u.lists[ReadyL(k.value)][0]);
      forall y: nat | Waiting(t, y) && y != ran.value ensures Before(t, ran.value, y) {
        FirstIsBefore(m, u, k.value, y);
        LiftedOrder(m, t, ran.value, y);
      }
    }
  }

  /** One of two that wait stands before the other. */
  lemma BeforeOrAfter(m: Limits, t: Table, x: nat, y: nat)
    requires Inv(m, t) && Waiting(t, x) && Waiting(t, y) && x != y
    ensures Before(t, x, y) || Before(t, y, x)
  {
    hide Inv, IndexOf;
    InvQueued(m, t, x);
    InvQueued(m, t, y);
  }

  lemma LiftedOrder(m: Limits, t: Table, x: nat, y: nat)
    requires Inv(m, t) && Waiting(t, x) && Waiting(t, y) && Before(Lifted(m, t), x, y)
    ensures Before(t, x, y)
  {
    hide Inv, IndexOf, Promote;
    BeforeOrAfter(m, t, x, y);
    if Before(t, y, x) && t.promoteAt <= t.ticks {
      PromoteOrder(m, t, y, x);
    }
  }

  /** Of two processes that go on waiting, the one before the other stays before it. */
  lemma PassOrder(m: Limits, t: Table, x: nat, y: nat)
    requires Inv(m, t) && Partition(m, t) && Before(t, x, y)
    requires Waiting(Schedule(m, t), x) && Waiting(Schedule(m, t), y)
    ensures Before(Schedule(m, t), x, y)
  {
    hide Inv, Listed, Dispatch, Promote, IndexOf;
    LiftedKeeps(m, t);
    if t.promoteAt <= t.ticks {
      PromoteOrder(m, t, x, y);
    }
    DispatchOrder(m, Lifted(m, t), x, y);
  }

  // ------------------------------------------------- what a step makes of a slot

  predicate SlotStep(m: Limits, t: Table, a: Step, y: nat, p: Proc, q: Proc) {
    match a
    case TickStep(_) => q == p
    case ForkAllocStep(_) => q == p || (p.state == UNUSED && q == p.(state := EMBRYO, pid := t.nextpid))
    case ForkFailStep(_) => q == p || (p.state == EMBRYO && q == p.(state := UNUSED))
    case ForkSetupStep(_) =>
      q == p || (p.state == EMBRYO && q == p.(budget := q.budget, prio := q.prio, parent := q.parent))
    case ForkFinishStep(_) => q == p || (p.state == EMBRYO && q == p.(state := RUNNABLE))
    case ExitStep(x) =>
      x < |t.procs| &&
      var r := AfterAbandon(p, x, ParentChan(t.procs[x]), t.initproc, HasZombieChild(t.procs, x));
      q == if y == x then r.(state := ZOMBIE) else r
    case WaitStep(x) =>
      || q == p || (p.state == ZOMBIE && q == Reap(p))
      || (y == x && q == Charge(m, p, t.ticks).(state := SLEEPING, chan := ProcChan(x)))
    case YieldStep(x) => q == if y == x then Charge(m, p, t.ticks).(state := RUNNABLE) else p
    case SleepStep(x, id) =>
      q == if y == x then Charge(m, p, t.ticks).(state := SLEEPING, chan := OtherChan(id)) else p
    case WakeupStep(id) => q == if Woken(p, OtherChan(id)) then p.(state := RUNNABLE) else p
    case KillStep(pid) =>
      if p.pid == pid && Visited(p, true)
      then q == p.(killed := true, state := if p.state == SLEEPING then RUNNABLE else p.state)
      else q == p
    case SetPriorityStep(pid, prio) =>
      if 0 <= prio <= m.maxPrio && 0 <= pid == p.pid && Scheduled(p.state)
      then q == p.(prio := prio, budget := m.budget)
      else q == p
    case ScheduleStep =>
      && q.prio == (if t.promoteAt <= t.ticks && Scheduled(p.state) then Up(p.prio) else p.prio)
      && (q == p.(prio := q.prio)
          || (p.state == RUNNABLE && q == p.(prio := q.prio, state := RUNNING, cpuIn := t.ticks, chan := NoChan)))
  }

  lemma KillSlot(m: Limits, t: Table, pid: int, y: nat)
    requires Inv(m, t) && Partition(m, t) && y < |t.procs|
    requires forall i | 0 <= i < |t.procs| && t.procs[i].state == SLEEPING :: t.procs[i].prio <= m.maxPrio
    ensures |Kill(m, t, pid).1.procs| == |t.procs|
    ensures SlotStep(m, t, KillStep(pid), y, t.procs[y], Kill(m, t, pid).1.procs[y])
  {
    hide Inv, Listed, Without;
    var r := FindPid(t.procs, pid, true);
    if r.Some? && t.procs[y].pid == pid {
      SamePid(m, t, r.value, y);
    }
  }

  lemma SetPrioritySlot(m: Limits, t: Table, pid: int, prio: int, y: nat)
    requires Inv(m, t) && Partition(m, t) && y < |t.procs|
    ensures |SetPriority(m, t, pid, prio).1.procs| == |t.procs|
    ensures SlotStep(m, t, SetPriorityStep(pid, prio), y, t.procs[y], SetPriority(m, t, pid, prio).1.procs[y])
  {
    hide Inv, Listed, Without;
    var r := FindPid(t.procs, pid, false);
    if r.Some? && t.procs[y].pid == pid {
      SamePid(m, t, r.value, y);
    }
  }

  lemma WaitSlot(m: Limits, t: Table, x: nat, y: nat)
    requires Inv(m, t) && Partition(m, t) && CanRun(t, x) && y < |t.procs|
    ensures |Wait(m, t, x).1.procs| == |t.procs|
    ensures SlotStep(m, t, WaitStep(x), y, t.procs[y], Wait(m, t, x).1.procs[y])
  {
    hide Inv, Listed, Without, HasLiveChild, HasZombieChild, Charge;
    ZombieChildListed(m, t, x);
  }

  lemma StepSlot(m: Limits, t: Table, a: Step, y: nat)
    requires Inv(m, t) && Enabled(m, t, a) && y < |t.procs|
    ensures |Apply(m, t, a).procs| == |t.procs| && SlotStep(m, t, a, y, t.procs[y], Apply(m, t, a).procs[y])
  {
    hide Inv, Listed, Schedule, Exit, Without, WakeList, HasZombieChild, Charge, AfterAbandon, Kill, SetPriority, Wait;
    SleepersHaveLists(m, t);
    InvPartition(m, t);
    match a
    case ScheduleStep => var ran := PassLaw(m, t);
    case ExitStep(x) => ExitKeeps(m, t, x); ExitProcs(t, x);
    case ForkAllocStep(x) => FreeFacts(m, t, x);
    case ForkFailStep(x) => ForkFacts(m, t, x);
    case ForkSetupStep(x) => ForkFacts(m, t, x);
    case ForkFinishStep(x) => ForkFacts(m, t, x);
    case YieldStep(x) => SlotFacts(m, t, x);
    case WaitStep(x) => WaitSlot(m, t, x, y);
    case KillStep(pid) => KillSlot(m, t, pid, y);
    case SetPriorityStep(pid, prio) => SetPrioritySlot(m, t, pid, prio, y);
    case _ =>
  }

  // ---------------------------------------------------------------- the clock

  /** After userinit: init waits alone, with pid 1, at level 0 and with a full
      budget; every other slot is free, in order; pids go on from 2; the first
      promotion is TICKS_TO_PROMOTE away. */
  lemma BootLaw(m: Limits, now: nat)
    requires m.Valid()
    ensures var t := Booted(m, now);
      && |t.procs| == m.nproc && t.initproc == 0 && t.nextpid == 2 && t.ticks == now && t.promoteAt == now + m.promote
      && var p := t.procs[0];
      && p.state == RUNNABLE && p.pid == 1 && p.parent == None && !p.killed && p.prio == 0 && p.budget == m.budget
      && (forall i | 0 < i < m.nproc :: t.procs[i].state == UNUSED && t.procs[i].pid == 0 && !t.procs[i].killed)
      && Queue(t, 0) == [0] && FreeL in t.lists && |t.lists[FreeL]| == m.nproc - 1
      && forall i | 0 <= i < m.nproc - 1 :: t.lists[FreeL][i] == i + 1
  {
    hide Range;
  }

  lemma StepClock(m: Limits, t: Table, a: Step)
    requires Inv(m, t) && Enabled(m, t, a)
    ensures Apply(m, t, a).ticks == t.ticks + if a.TickStep? then a.d else 0
    ensures Apply(m, t, a).promoteAt ==
      if a.ScheduleStep? && t.promoteAt <= t.ticks then t.ticks + m.promote else t.promoteAt
  {
    hide Inv, Listed, Schedule, Without, WakeList, ScanWakeup, HasZombieChild, HasLiveChild, Charge;
    SleepersHaveLists(m, t);
    InvPartition(m, t);
    if a.ScheduleStep? {
      var ran := PassLaw(m, t);
    } else if a.ExitStep? {
      ExitKeeps(m, t, a.x);
    } else if a.ForkFailStep? || a.ForkSetupStep? || a.ForkFinishStep? {
      ForkFacts(m, t, a.x);
    } else if a.YieldStep? {
      SlotFacts(m, t, a.x);
    }
  }

  /** n promotions since boot, and when the next one is due. */
  predicate OnTime(m: Limits, boot: nat, n: nat, t: Table) {
    boot + (n + 1) * m.promote <= t.promoteAt <= t.ticks + m.promote
  }

  lemma BootOnTime(m: Limits, boot: nat)
    requires m.Valid()
    ensures Inv(m, Booted(m, boot)) && OnTime(m, boot, 0, Booted(m, boot))
  {
    BootedInv(m, boot);
  }

  lemma StepOnTime(m: Limits, boot: nat, n: nat, t: Table, a: Step)
    requires Inv(m, t) && Enabled(m, t, a) && OnTime(m, boot, n, t)
    ensures OnTime(m, boot, if a.ScheduleStep? && t.promoteAt <= t.ticks then n + 1 else n, Apply(m, t, a))
  {
    hide Inv, Enabled, Apply;
    StepClock(m, t, a);
    assert (n + 1 + 1) * m.promote == (n + 1) * m.promote + m.promote;
  }

  /** From boot on, promotions are at least TICKS_TO_PROMOTE apart, and the next
      one is never further away than that. */
  lemma {:induction false} PromotionClock(m: Limits, boot: nat, run: seq<Step>)
    requires m.Valid()
    ensures Inv(m, Booted(m, boot))
    ensures Exec(m, Booted(m, boot), run).Some? ==>
      OnTime(m, boot, Promotions(m, Booted(m, boot), run), Exec(m, Booted(m, boot), run).value)
  {
    hide Inv, Enabled, Apply, Booted, OnTime;
    BootOnTime(m, boot);
    if run != [] && Exec(m, Booted(m, boot), run).Some? {
      var init, a := run[..|run| - 1], run[|run| - 1];
      PromotionClock(m, boot, init);
      StepOnTime(m, boot, Promotions(m, Booted(m, boot), init), Exec(m, Booted(m, boot), init).value, a);
    }
  }

  // ------------------------------------------------- from dispatch to giving up

  /** x is dispatched by the first step and runs from then on; nobody sets its priority. */
  ghost predicate RunsSince(m: Limits, t: Table, run: seq<Step>, x: nat)
    requires Inv(m, t)
  {
    && run != [] && run[0] == ScheduleStep && Waiting(t, x)
    && (forall i | 1 <= i <= |run| :: At(m, t, run, i).Some? && CanRun(At(m, t, run, i).value, x))
    && (forall i | 0 <= i < |run| :: !Targets(run[i], t.procs[x].pid))
  }

  lemma RunsPrefix(m: Limits, t: Table, run: seq<Step>, x: nat)
    requires Inv(m, t) && RunsSince(m, t, run, x)
    ensures Exec(m, t, run).Some? && CanRun(Exec(m, t, run).value, x)
    ensures |run| > 1 ==> RunsSince(m, t, run[..|run| - 1], x)
  {
    hide Inv, CanRun, Exec;
    assert At(m, t, run, |run|).Some? && run[..|run|] == run;
    if |run| > 1 {
      var init := run[..|run| - 1];
      forall i | 1 <= i <= |init| ensures At(m, t, init, i).Some? && CanRun(At(m, t, init, i).value, x) {
        assert init[..i] == run[..i] && At(m, t, run, i).Some?;
      }
    }
  }

  /** No other step touches the time account of a process that runs on. */
  lemma RunningStep(m: Limits, t: Table, a: Step, x: nat)
    requires Inv(m, t) && Enabled(m, t, a) && CanRun(t, x) && CanRun(Apply(m, t, a), x) && !Targets(a, t.procs[x].pid)
    ensures var p, q := t.procs[x], Apply(m, t, a).procs[x];
      && q.budget == p.budget && q.cpuIn == p.cpuIn && q.pid == p.pid
      && q.prio == if a.ScheduleStep? && t.promoteAt <= t.ticks then Up(p.prio) else p.prio
  {
    hide Inv, Enabled, Apply, HasZombieChild, Charge;
    StepSlot(m, t, a, x);
  }

  function LiftedBy(prio: nat, n: nat): nat { if n < prio then prio - n else 0 }

  lemma Dispatched(m: Limits, t: Table, x: nat)
    requires Inv(m, t) && Enabled(m, t, ScheduleStep) && Waiting(t, x) && CanRun(Apply(m, t, ScheduleStep), x)
    ensures var p, q := t.procs[x], Apply(m, t, ScheduleStep).procs[x];
      && q.cpuIn == t.ticks && q.budget == p.budget && q.pid == p.pid
      && q.prio == if t.promoteAt <= t.ticks then Up(p.prio) else p.prio
  {
    hide Inv, Listed, Schedule;
    InvPartition(m, t);
    ApplySchedule(m, t);
    var ran := PassLaw(m, t);
  }

  /** What a running process has kept since it was dispatched. */
  ghost predicate Account(t: Table, u: Table, n: nat, x: nat) {
    && x < |t.procs| && CanRun(u, x) && u.procs[x].cpuIn == t.ticks && u.procs[x].pid == t.procs[x].pid
    && u.procs[x].budget == t.procs[x].budget && u.procs[x].prio == LiftedBy(t.procs[x].prio, n)
  }

  lemma AccountStep(m: Limits, t: Table, u: Table, n: nat, a: Step, x: nat)
    requires Account(t, u, n, x) && Inv(m, u) && Enabled(m, u, a) && CanRun(Apply(m, u, a), x)
    requires !Targets(a, t.procs[x].pid)
    ensures Account(t, Apply(m, u, a), if a.ScheduleStep? && u.promoteAt <= u.ticks then n + 1 else n, x)
  {
    hide Inv, Apply, Enabled;
    RunningStep(m, u, a, x);
  }

  lemma {:induction false} RunAccount(m: Limits, t: Table, run: seq<Step>, x: nat)
    requires Inv(m, t) && RunsSince(m, t, run, x)
    ensures Exec(m, t, run).Some? && Account(t, Exec(m, t, run).value, Promotions(m, t, run), x)
  {
    hide Inv, Apply, Enabled, Account;
    RunsPrefix(m, t, run, x);
    var init := run[..|run| - 1];
    if |run| == 1 {
      assert init == [] && Exec(m, t, init) == Some(t);
      Dispatched(m, t, x);
      FirstAccount(m, t, x);
    } else {
      RunAccount(m, t, init, x);
      AccountStep(m, t, Exec(m, t, init).value, Promotions(m, t, init), run[|run| - 1], x);
    }
  }

  lemma FirstAccount(m: Limits, t: Table, x: nat)
    requires Inv(m, t) && Enabled(m, t, ScheduleStep) && Waiting(t, x) && CanRun(Apply(m, t, ScheduleStep), x)
    ensures Account(t, Apply(m, t, ScheduleStep), if t.promoteAt <= t.ticks then 1 else 0, x)
  {
    hide Inv, Apply, Enabled;
    Dispatched(m, t, x);
  }

  /** p gives up the processor after `used` ticks and becomes q: what is left of
      the budget, or one level down with a full one. */
  predicate GaveUp(m: Limits, p: Proc, used: int, q: Proc) {
    if used < p.budget then q.budget == p.budget - used && q.prio == p.prio
    else q.budget == m.budget && q.prio == Min(p.prio + 1, m.maxPrio)
  }

  /** Only yield and sleep take the processor from a process, sleep in wait too. */
  lemma StopIs(m: Limits, t: Table, a: Step, x: nat)
    requires Inv(m, t) && Enabled(m, t, a) && CanRun(t, x)
    requires x < |Apply(m, t, a).procs| && Apply(m, t, a).procs[x].state in {RUNNABLE, SLEEPING}
    ensures Partition(m, t) && t.procs[x].prio <= m.maxPrio
    ensures Apply(m, t, a) == Yield(m, t, x) || exists chan :: Apply(m, t, a) == Sleep(m, t, x, chan)
  {
    hide Inv, Listed, Schedule, Exit, HasZombieChild, HasLiveChild, Charge, Yield, Sleep, Without;
    StepSlot(m, t, a, x);
    InvPartition(m, t);
    SlotFacts(m, t, x);
    SleepersHaveLists(m, t);
    assert a == YieldStep(x) || a == WaitStep(x) || (a.SleepStep? && a.x == x);
    if a == WaitStep(x) {
      ZombieChildListed(m, t, x);
    }
  }

  lemma StopStep(m: Limits, t: Table, a: Step, x: nat)
    requires Inv(m, t) && Enabled(m, t, a) && CanRun(t, x)
    requires x < |Apply(m, t, a).procs| && Apply(m, t, a).procs[x].state in {RUNNABLE, SLEEPING}
    ensures var u := Apply(m, t, a);
      && GaveUp(m, t.procs[x], t.ticks - t.procs[x].cpuIn, u.procs[x]) && u.procs[x].pid == t.procs[x].pid
      && |u.procs| == |t.procs| && (forall y | 0 <= y < |t.procs| && y != x :: u.procs[y] == t.procs[y])
      && (u.procs[x].state == RUNNABLE ==> JoinsLast(t, u, x))
  {
    hide Inv, Listed, Apply, Enabled, Without, JoinsLast;
    StopIs(m, t, a, x);
    YieldLast(m, t, x);
  }

  /** x, coming from another list, is last in its queue. */
  ghost predicate JoinsLast(t: Table, u: Table, x: nat) {
    && Queued(u, x) && Ahead(u, x) == |u.lists[ReadyL(u.procs[x].prio)]| - 1
    && ReadyL(u.procs[x].prio) in t.lists
    && u.lists[ReadyL(u.procs[x].prio)] == t.lists[ReadyL(u.procs[x].prio)] + [x]
  }

  lemma MovedLast(m: Limits, t: Table, x: nat, p: Proc)
    requires Inv(m, t) && x < |t.procs| && ListOf(t.procs[x]) in t.lists
    requires p.state == RUNNABLE && ReadyL(p.prio) in t.lists
    requires ListOf(t.procs[x]) != ReadyL(p.prio)
    ensures JoinsLast(t, Move(t, x, p, Tail), x)
  {
    hide Inv, Without, IndexOf;
    var q := t.lists[ReadyL(p.prio)];
    if x in q {
      OneQueue(m, t, x, p.prio);
    }
    IndexBehind(q, [x], x);
  }

  lemma YieldLast(m: Limits, t: Table, x: nat)
    requires Inv(m, t) && Partition(m, t) && CanRun(t, x) && t.procs[x].prio <= m.maxPrio
    ensures JoinsLast(t, Yield(m, t, x), x)
  {
    hide Inv, Listed, Move;
    SlotFacts(m, t, x);
    MovedLast(m, t, x, Charge(m, t.procs[x], t.ticks).(state := RUNNABLE));
  }

  /** A process dispatched at the tick of t gives up the processor at the tick of
      u.  Its budget is then lower by exactly the ticks between; with nothing
      left it is full again and the process one level down, MAX being the last.
      On yield it is last in its queue.  No other process changes. */
  lemma TimeCharged(m: Limits, t: Table, run: seq<Step>, a: Step, x: nat)
    requires Inv(m, t) && RunsSince(m, t, run, x)
    requires Exec(m, t, run).Some? && Enabled(m, Exec(m, t, run).value, a)
    requires var v := Apply(m, Exec(m, t, run).value, a); x < |v.procs| && v.procs[x].state in {RUNNABLE, SLEEPING}
    ensures var u := Exec(m, t, run).value; var v := Apply(m, u, a);
      var used, level := u.ticks - t.ticks, LiftedBy(t.procs[x].prio, Promotions(m, t, run));
      && used >= 0 && v.ticks == u.ticks && u.procs[x].pid == v.procs[x].pid == t.procs[x].pid
      && (used < t.procs[x].budget ==> v.procs[x].budget == t.procs[x].budget - used && v.procs[x].prio == level)
      && (used >= t.procs[x].budget ==> v.procs[x].budget == m.budget && v.procs[x].prio == Min(level + 1, m.maxPrio))
      && (v.procs[x].state == RUNNABLE ==> JoinsLast(u, v, x))
      && |v.procs| == |u.procs| && forall y | 0 <= y < |u.procs| && y != x :: v.procs[y] == u.procs[y]
  {
    hide Inv, Enabled, Apply, RunsSince, Exec, JoinsLast;
    RunAccount(m, t, run, x);
    var u := Exec(m, t, run).value;
    StopStep(m, u, a, x);
    StepClock(m, u, a);
    SlotFacts(m, u, x);
    StopIs(m, u, a, x);
  }

  // ------------------------------------------------------------ sleep and wakeup

  lemma OnlyList(m: Limits, t: Table, x: nat)
    requires Partition(m, t) && x < |t.procs|
    ensures ListOf(t.procs[x]) in t.lists && x in t.lists[ListOf(t.procs[x])]
    ensures forall id | id in t.lists && x in t.lists[id] :: id == ListOf(t.procs[x])
  {
    forall id | id in t.lists && x in t.lists[id] ensures id == ListOf(t.procs[x]) {
      assert GoodList(t.procs, t.lists[id], id, {});
    }
  }

  ghost predicate Levels(m: Limits, procs: seq<Proc>) {
    forall y | 0 <= y < |procs| && procs[y].state == SLEEPING :: procs[y].prio <= m.maxPrio
  }

  lemma Asleep(m: Limits, t: Table, x: nat, chan: Chan)
    requires Inv(m, t) && Partition(m, t) && CanRun(t, x)
    ensures var s := Sleep(m, t, x, chan);
      && |s.procs| == |t.procs| && s.procs[x].state == SLEEPING && s.procs[x].chan == chan
      && s.procs[x].pid == t.procs[x].pid && Partition(m, s) && Levels(m, s.procs)
  {
    hide Inv, Listed, Without;
    SlotFacts(m, t, x);
    SleepersHaveLists(m, t);
    MovePartition(m, t, x, Charge(m, t.procs[x], t.ticks).(state := SLEEPING, chan := chan), Head);
  }

  /** After x sleeps on a channel, wakeup of that channel makes it RUNNABLE on the
      queue of its level, and wakeup of any other leaves it asleep. */
  lemma SleepThenWakeup(m: Limits, t: Table, x: nat, chan: Chan, woken: Chan)
    requires Inv(m, t) && Partition(m, t) && CanRun(t, x)
    ensures var s := Sleep(m, t, x, chan);
      && SleepL in s.lists && SleepL in Wakeup1(s, woken).lists && s.procs[x].state == SLEEPING && x in s.lists[SleepL]
      && var u := Wakeup1(s, woken);
         if woken == chan
         then u.procs[x] == s.procs[x].(state := RUNNABLE) && Queued(u, x) && x !in u.lists[SleepL]
         else u.procs[x] == s.procs[x] && x in u.lists[SleepL]
  {
    hide Inv, Listed, Sleep, WakeList, Without;
    Asleep(m, t, x, chan);
    var s := Sleep(m, t, x, chan);
    OnlyList(m, s, x);
    WakeupPartition(m, s, woken);
    OnlyList(m, Wakeup1(s, woken), x);
  }

  /** The last to go to sleep is the first on the sleep list. */
  lemma SleepsFirst(m: Limits, t: Table, x: nat, chan: Chan)
    requires Inv(m, t) && Partition(m, t) && CanRun(t, x) && SleepL in t.lists
    ensures SleepL in Sleep(m, t, x, chan).lists && Sleep(m, t, x, chan).lists[SleepL] == [x] + t.lists[SleepL]
  {
    hide Inv, Listed, Without;
    SlotFacts(m, t, x);
  }

  lemma {:induction false} SleepersOrder(procs: seq<Proc>, s: seq<nat>, chan: Chan, k: Option<nat>, x: nat, y: nat)
    requires NoDup(s) && x in s && y in s && IndexOf(s, x) < IndexOf(s, y)
    requires GoesTo(procs, x, chan, k) && GoesTo(procs, y, chan, k)
    ensures var r := Sleepers(procs, s, chan, k); x in r && y in r && IndexOf(r, x) < IndexOf(r, y)
  {
    var init, z := s[..|s| - 1], s[|s| - 1];
    var r := Sleepers(procs, init, chan, k);
    SplitLast(s, x);
    SplitLast(s, y);
    assert init + [z] == s;
    if z == y {
      IndexAppend(r, [y], x);
      IndexBehind(r, [y], y);
    } else {
      IndexAppend(init, [z], x);
      IndexAppend(init, [z], y);
      SleepersOrder(procs, init, chan, k, x, y);
      IndexAppend(r, [z], x);
      IndexAppend(r, [z], y);
    }
  }

  lemma SplitLast(s: seq<nat>, x: nat)
    requires NoDup(s) && x in s
    ensures s != [] && (x in s[..|s| - 1] <==> x != s[|s| - 1])
    ensures x == s[|s| - 1] ==> IndexOf(s, x) == |s| - 1
  {
    assert s[IndexOf(s, x)] == x;
  }

  /** Of two sleepers on one channel and level, the one that went to sleep later
      is woken first. */
  lemma WokenOrder(m: Limits, t: Table, chan: Chan, x: nat, y: nat)
    requires Inv(m, t) && AsleepOn(t, x, chan) && AsleepOn(t, y, chan) && t.procs[x].prio == t.procs[y].prio
    requires SleepL in t.lists && x in t.lists[SleepL] && y in t.lists[SleepL]
    requires IndexOf(t.lists[SleepL], x) < IndexOf(t.lists[SleepL], y)
    ensures Before(Wakeup1(t, chan), x, y)
  {
    hide Inv, Listed, IndexOf, Sleepers;
    var u, k := Wakeup1(t, chan), t.procs[x].prio;
    SlotFacts(m, t, x);
    InvPartition(m, t);
    SleepListNoDup(m, t);
    SleepersOrder(t.procs, t.lists[SleepL], chan, Some(k), x, y);
    var q, r := t.lists[ReadyL(k)], Sleepers(t.procs, t.lists[SleepL], chan, Some(k));
    NotQueued(m, t, x, k);
    NotQueued(m, t, y, k);
    IndexBehind(q, r, x);
    IndexBehind(q, r, y);
  }

  lemma SleepListNoDup(m: Limits, t: Table)
    requires Partition(m, t) && SleepL in t.lists
    ensures NoDup(t.lists[SleepL])
  {
    assert GoodList(t.procs, t.lists[SleepL], SleepL, {});
  }

  lemma NotQueued(m: Limits, t: Table, x: nat, k: nat)
    requires Inv(m, t) && x < |t.procs| && t.procs[x].state != RUNNABLE && ReadyL(k) in t.lists
    ensures x !in t.lists[ReadyL(k)]
  {
    hide Inv;
    if x in t.lists[ReadyL(k)] {
      OneQueue(m, t, x, k);
    }
  }

  /** The step wakes sleepers on the channel: a wakeup of it, or an exit whose
      parent waits there or whose zombie children are passed to init. */
  ghost predicate Wakes(t: Table, a: Step, chan: Chan) {
    match a
    case WakeupStep(id) => chan == OtherChan(id)
    case ExitStep(y) => y < |t.procs| && (
      || chan == ParentChan(t.procs[y])
      || (chan == ProcChan(t.initproc) && HasZombieChild(t.procs, y)))
    case _ => false
  }

  ghost predicate AsleepOn(t: Table, x: nat, chan: Chan) {
    x < |t.procs| && t.procs[x].state == SLEEPING && t.procs[x].chan == chan
  }

  ghost predicate Kills(a: Step, pid: nat) { a.KillStep? && a.pid == pid }

  /** A sleeper stays asleep on its channel exactly until a step wakes the channel
      or kills it, and is then on the queue of its level. */
  lemma SleeperStep(m: Limits, t: Table, a: Step, x: nat, chan: Chan)
    requires Inv(m, t) && Enabled(m, t, a) && AsleepOn(t, x, chan)
    ensures var u := Apply(m, t, a);
      && |u.procs| == |t.procs| && u.procs[x].pid == t.procs[x].pid
      && if Wakes(t, a, chan) || Kills(a, t.procs[x].pid) then Queued(u, x) else AsleepOn(u, x, chan)
  {
    hide Inv, Enabled, Apply, HasZombieChild, Charge, Queued;
    StepSlot(m, t, a, x);
    StepKeeps(m, t, a);
    StepRuns(m, t, a);
    if Waiting(Apply(m, t, a), x) {
      InvQueued(m, Apply(m, t, a), x);
    }
  }

  /** The process that takes a step is running. */
  lemma StepRuns(m: Limits, t: Table, a: Step)
    requires Enabled(m, t, a)
    ensures a.ExitStep? || a.WaitStep? || a.YieldStep? || a.SleepStep? ==> CanRun(t, a.x)
  {
  }

  /** Over a run: x, asleep on chan, is not woken and not killed. */
  ghost predicate Undisturbed(m: Limits, t: Table, run: seq<Step>, x: nat, chan: Chan)
    requires Inv(m, t) && x < |t.procs|
  {
    forall i | 0 <= i < |run| :: At(m, t, run, i).Some? ==>
      !Wakes(At(m, t, run, i).value, run[i], chan) && !Kills(run[i], t.procs[x].pid)
  }

  lemma UndisturbedPrefix(m: Limits, t: Table, run: seq<Step>, x: nat, chan: Chan)
    requires Inv(m, t) && x < |t.procs| && run != [] && Undisturbed(m, t, run, x, chan) && Exec(m, t, run).Some?
    ensures Undisturbed(m, t, run[..|run| - 1], x, chan) && Exec(m, t, run[..|run| - 1]).Some?
    ensures var u, a := Exec(m, t, run[..|run| - 1]).value, run[|run| - 1];
      Enabled(m, u, a) && !Wakes(u, a, chan) && !Kills(a, t.procs[x].pid)
  {
    hide Inv, Enabled, Apply, Wakes;
    var init := run[..|run| - 1];
    assert At(m, t, run, |init|).Some?;
    forall i | 0 <= i < |init| && At(m, t, init, i).Some?
      ensures !Wakes(At(m, t, init, i).value, init[i], chan) && !Kills(init[i], t.procs[x].pid)
    {
      assert init[..i] == run[..i];
      assert At(m, t, run, i).Some?;
    }
  }

  lemma {:induction false} StaysAsleep(m: Limits, t: Table, run: seq<Step>, x: nat, chan: Chan)
    requires Inv(m, t) && AsleepOn(t, x, chan) && x < |t.procs|
    requires Undisturbed(m, t, run, x, chan) && Exec(m, t, run).Some?
    ensures AsleepOn(Exec(m, t, run).value, x, chan) && x < |Exec(m, t, run).value.procs|
    ensures Exec(m, t, run).value.procs[x].pid == t.procs[x].pid
  {
    hide Inv, Enabled, Apply, Wakes, AsleepOn, Undisturbed, Queued;
    if run != [] {
      UndisturbedPrefix(m, t, run, x, chan);
      StaysAsleep(m, t, run[..|run| - 1], x, chan);
      SleeperStep(m, Exec(m, t, run[..|run| - 1]).value, run[|run| - 1], x, chan);
    }
  }

  /** x goes to sleep on a channel: by sleep, or in wait on itself. */
  ghost predicate GoesToSleep(m: Limits, t: Table, a: Step, x: nat, chan: Chan)
    requires Inv(m, t) && Enabled(m, t, a)
  {
    match a
    case SleepStep(y, id) => y == x && chan == OtherChan(id)
    case WaitStep(y) => InvPartition(m, t); y == x && Wait(m, t, y).0 == WaitResult.Asleep && chan == ProcChan(x)
    case _ => false
  }

  lemma FallsAsleep(m: Limits, t: Table, a: Step, x: nat, chan: Chan)
    requires Inv(m, t) && Enabled(m, t, a) && GoesToSleep(m, t, a, x, chan)
    ensures Inv(m, Apply(m, t, a)) && AsleepOn(Apply(m, t, a), x, chan)
    ensures x < |t.procs| && Apply(m, t, a).procs[x].pid == t.procs[x].pid
  {
    hide Inv, Listed, Sleep, Move, HasLiveChild;
    StepKeeps(m, t, a);
    InvPartition(m, t);
    StepRuns(m, t, a);
    Asleep(m, t, x, chan);
  }

  /** A process that goes to sleep on a channel sleeps on it through every run in
      which the channel is not woken and the process not killed, and the step
      that wakes the channel puts it on the queue of its level. */
  lemma SleepsUntilWoken(m: Limits, t: Table, a: Step, run: seq<Step>, x: nat, chan: Chan)
    requires Inv(m, t) && Enabled(m, t, a) && GoesToSleep(m, t, a, x, chan)
    requires Inv(m, Apply(m, t, a)) && x < |Apply(m, t, a).procs|
    requires Undisturbed(m, Apply(m, t, a), run, x, chan) && Exec(m, Apply(m, t, a), run).Some?
    ensures var u := Exec(m, Apply(m, t, a), run).value;
      && AsleepOn(u, x, chan) && u.procs[x].pid == t.procs[x].pid
      && forall w | Enabled(m, u, w) && Wakes(u, w, chan) :: Queued(Apply(m, u, w), x)
  {
    hide Inv, Enabled, Apply, Wakes, AsleepOn, Undisturbed, Queued, GoesToSleep;
    FallsAsleep(m, t, a, x, chan);
    StaysAsleep(m, Apply(m, t, a), run, x, chan);
    var u := Exec(m, Apply(m, t, a), run).value;
    forall w | Enabled(m, u, w) && Wakes(u, w, chan) ensures Queued(Apply(m, u, w), x) {
      SleeperStep(m, u, w, x, chan);
    }
  }

  // -------------------------------------------------------------------- wait

  ghost function ZombieChildren(procs: seq<Proc>, x: nat): set<nat> {
    set i | 0 <= i < |procs| && procs[i].parent == Some(x) && procs[i].state == ZOMBIE
  }

  /** The last to exit is the first on the zombie list. */
  lemma ExitsFirst(m: Limits, t: Table, x: nat)
    requires Inv(m, t) && CanRun(t, x) && x !in t.forks && x != t.initproc
    ensures SleepL in t.lists && ZombieL in t.lists && ListOf(Abandon(t, x).procs[x]) in Abandon(t, x).lists
    ensures ZombieL in Exit(t, x).lists && Exit(t, x).lists[ZombieL] == [x] + t.lists[ZombieL]
  {
    hide Inv, Listed, Without, HasZombieChild, ScanWakeup, Sleepers;
    ExitKeeps(m, t, x);
    AbandonProcs(t, x);
  }

  lemma {:induction false} FirstChildFirst(procs: seq<Proc>, s: seq<nat>, x: nat, d: nat)
    requires d in s && d < |procs| && procs[d].parent == Some(x)
    ensures var r := FirstChild(procs, s, x); r.Some? && IndexOf(s, r.value) <= IndexOf(s, d)
  {
    if s[0] != d && !(s[0] < |procs| && procs[s[0]].parent == Some(x)) {
      FirstChildFirst(procs, s[1..], x, d);
    }
  }

  /** Reaping puts the child's slot on the free list, and the caller has one
      zombie child fewer: the one that exited last. */
  lemma WaitFrees(m: Limits, t: Table, x: nat) returns (c: nat)
    requires Inv(m, t) && CanRun(t, x) && Partition(m, t) && Wait(m, t, x).0.Reaped?
    ensures FreeL in t.lists && var (r, u) := Wait(m, t, x);
      && Frees(t.procs, u.procs, x, r.pid, c)
      && FreeL in u.lists && u.lists[FreeL] == [c] + t.lists[FreeL] && (ZombieL in u.lists ==> c !in u.lists[ZombieL])
      && ZombieChildren(u.procs, x) == ZombieChildren(t.procs, x) - {c}
      && |ZombieChildren(u.procs, x)| == |ZombieChildren(t.procs, x)| - 1
    ensures ZombieL in t.lists && c in t.lists[ZombieL] && forall d | d in ZombieChildren(t.procs, x) ::
      d in t.lists[ZombieL] && IndexOf(t.lists[ZombieL], c) <= IndexOf(t.lists[ZombieL], d)
  {
    hide Inv, Listed, Without, HasChild, HasLiveChild, Charge;
    ZombieChildListed(m, t, x);
    c := FirstChild(t.procs, t.lists[ZombieL], x).value;
    PartitionFacts(m, t, c);
    MovePartition(m, t, c, Reap(t.procs[c]), Head);
    var u := Wait(m, t, x).1;
    OnlyList(m, u, c);
    assert ZombieChildren(u.procs, x) == ZombieChildren(t.procs, x) - {c};
    forall d | d in ZombieChildren(t.procs, x)
      ensures d in t.lists[ZombieL] && IndexOf(t.lists[ZombieL], c) <= IndexOf(t.lists[ZombieL], d)
    {
      OnlyList(m, t, d);
      FirstChildFirst(t.procs, t.lists[ZombieL], x, d);
    }
  }

  /** The pid has been given out and no slot carries it any more. */
  ghost predicate Gone(t: Table, pid: nat) {
    1 <= pid < t.nextpid && forall y | 0 <= y < |t.procs| :: t.procs[y].pid != pid
  }

  lemma NextpidGrows(m: Limits, t: Table, a: Step)
    requires Inv(m, t) && Enabled(m, t, a)
    ensures Apply(m, t, a).nextpid >= t.nextpid
  {
    hide Inv, Listed, Schedule, Without, WakeList, ScanWakeup, HasZombieChild, HasLiveChild, Charge;
    SleepersHaveLists(m, t);
    InvPartition(m, t);
    if a.ScheduleStep? {
      ScheduleNextpid(m, t);
    } else if a.ExitStep? {
      ExitKeeps(m, t, a.x);
    } else if a.ForkFailStep? || a.ForkSetupStep? || a.ForkFinishStep? {
      ForkFacts(m, t, a.x);
    } else if a.YieldStep? {
      SlotFacts(m, t, a.x);
    }
  }

  lemma ScheduleNextpid(m: Limits, t: Table)
    requires Partition(m, t)
    ensures Schedule(m, t).nextpid == t.nextpid
  {
    hide Listed, Without, FirstReady;
    PromotePartition(m, t);
  }

  lemma GoneStep(m: Limits, t: Table, a: Step, pid: nat)
    requires Inv(m, t) && Enabled(m, t, a) && Gone(t, pid)
    ensures Gone(Apply(m, t, a), pid)
  {
    hide Inv, Enabled, Apply, HasZombieChild;
    NextpidGrows(m, t, a);
    var u := Apply(m, t, a);
    forall y | 0 <= y < |u.procs| ensures u.procs[y].pid != pid {
      SameSize(m, t, a);
      StepSlot(m, t, a, y);
    }
  }

  lemma SameSize(m: Limits, t: Table, a: Step)
    requires Inv(m, t) && Enabled(m, t, a)
    ensures |Apply(m, t, a).procs| == |t.procs| == m.nproc
  {
    hide Inv, Enabled, Apply, Partition;
    StepKeeps(m, t, a);
    InvPartition(m, t);
    InvPartition(m, Apply(m, t, a));
  }

  /** Step i of the run is a wait that returns this pid. */
  ghost predicate Returns(m: Limits, t: Table, run: seq<Step>, i: nat, pid: nat)
    requires Inv(m, t)
  {
    && i < |run| && At(m, t, run, i + 1).Some? && At(m, t, run, i).Some? && run[i].WaitStep?
    && Enabled(m, At(m, t, run, i).value, run[i])
    && WaitOf(m, At(m, t, run, i).value, run[i].x) == Reaped(pid)
  }

  ghost function WaitOf(m: Limits, t: Table, x: nat): WaitResult
    requires Inv(m, t) && CanRun(t, x)
  {
    InvPartition(m, t);
    Wait(m, t, x).0
  }

  lemma ReturnedIs(m: Limits, t: Table, x: nat, pid: nat)
    requires Inv(m, t) && Enabled(m, t, WaitStep(x)) && WaitOf(m, t, x) == Reaped(pid)
    ensures Gone(Apply(m, t, WaitStep(x)), pid)
    ensures exists c | 0 <= c < |t.procs| :: t.procs[c].pid == pid
  {
    hide Inv, Listed, Wait;
    InvPartition(m, t);
    SleepersHaveLists(m, t);
    WaitAgrees(m, t, x);
    var u := Apply(m, t, WaitStep(x));
    var c :| Frees(t.procs, u.procs, x, pid, c);
    NextpidGrows(m, t, WaitStep(x));
    PidsAre(m, t, c);
  }

  lemma PidsAre(m: Limits, t: Table, c: nat)
    requires Inv(m, t) && c < |t.procs| && t.procs[c].state != UNUSED
    ensures 1 <= t.procs[c].pid < t.nextpid
    ensures forall y | 0 <= y < |t.procs| && y != c :: t.procs[y].pid != t.procs[c].pid
  {
    hide Partition, Ranges, Tree, NoLostWakeup, ForksOk;
  }

  lemma {:induction false} GoneAfter(m: Limits, t: Table, run: seq<Step>, i: nat, j: nat, pid: nat)
    requires Inv(m, t) && Returns(m, t, run, i, pid) && i < j <= |run| && At(m, t, run, j).Some?
    ensures Gone(At(m, t, run, j).value, pid)
    decreases j
  {
    hide Inv, Enabled, Apply, Gone, WaitOf;
    var init := run[..j][..j - 1];
    assert init == run[..j - 1] && run[..j][j - 1] == run[j - 1];
    if j == i + 1 {
      ReturnedIs(m, At(m, t, run, i).value, run[i].x, pid);
    } else {
      GoneAfter(m, t, run, i, j - 1, pid);
      GoneStep(m, At(m, t, run, j - 1).value, run[j - 1], pid);
    }
  }

  /** No pid is returned twice by wait, in any run. */
  lemma ReapedOnce(m: Limits, t: Table, run: seq<Step>, i: nat, j: nat, pid: nat, pid': nat)
    requires Inv(m, t) && i < j && Returns(m, t, run, i, pid) && Returns(m, t, run, j, pid')
    ensures pid != pid'
  {
    hide Inv, Enabled, Apply, WaitOf;
    GoneAfter(m, t, run, i, j, pid);
    ReturnedIs(m, At(m, t, run, j).value, run[j].x, pid');
  }

  // -------------------------------------------------------------------- fork

  /** x has been forking since it took slot c and gave it this pid. */
  ghost predicate InFork(t: Table, x: nat, c: nat, pid: nat) {
    x in t.forks && t.forks[x].child == c && c < |t.procs| && t.procs[c].state == EMBRYO && t.procs[c].pid == pid
  }

  ghost predicate EndsFork(a: Step, x: nat) { (a.ForkFailStep? || a.ForkFinishStep?) && a.x == x }

  lemma ForksStep(m: Limits, t: Table, a: Step, x: nat)
    requires Inv(m, t) && Enabled(m, t, a) && x in t.forks && !EndsFork(a, x)
    ensures x in Apply(m, t, a).forks && Apply(m, t, a).forks[x].child == t.forks[x].child
  {
    hide Inv, Listed, Schedule, Without, WakeList, ScanWakeup, HasZombieChild, HasLiveChild, Charge;
    SleepersHaveLists(m, t);
    InvPartition(m, t);
    if a.ScheduleStep? {
      ScheduleForks(m, t);
    } else if a.ExitStep? {
      ExitKeeps(m, t, a.x);
    } else if a.ForkFailStep? || a.ForkSetupStep? || a.ForkFinishStep? {
      ForkFacts(m, t, a.x);
    } else if a.YieldStep? {
      SlotFacts(m, t, a.x);
    }
  }

  lemma ScheduleForks(m: Limits, t: Table)
    requires Partition(m, t)
    ensures Schedule(m, t).forks == t.forks
  {
    hide Listed, Without, FirstReady;
    PromotePartition(m, t);
  }

  lemma EmbryoStays(m: Limits, t: Table, x: nat)
    requires Inv(m, t) && x in t.forks
    ensures t.forks[x].child < |t.procs| && t.procs[t.forks[x].child].state == EMBRYO
  {
    hide Partition, Ranges, Pids, Tree, NoLostWakeup;
    assert ForkOk(m, t.procs, x, t.forks[x]);
  }

  lemma InForkStep(m: Limits, t: Table, a: Step, x: nat, c: nat, pid: nat)
    requires Inv(m, t) && Enabled(m, t, a) && InFork(t, x, c, pid) && !EndsFork(a, x)
    ensures InFork(Apply(m, t, a), x, c, pid)
  {
    hide Inv, Enabled, Apply, HasZombieChild, Charge;
    ForksStep(m, t, a, x);
    StepKeeps(m, t, a);
    EmbryoStays(m, Apply(m, t, a), x);
    StepSlot(m, t, a, c);
    StepRuns(m, t, a);
  }

  lemma {:induction false} InForkRun(m: Limits, t: Table, run: seq<Step>, x: nat, c: nat, pid: nat)
    requires Inv(m, t) && InFork(t, x, c, pid) && Exec(m, t, run).Some?
    requires forall i | 0 <= i < |run| :: !EndsFork(run[i], x)
    ensures InFork(Exec(m, t, run).value, x, c, pid)
  {
    hide Inv, Enabled, Apply, InFork;
    if run != [] {
      InForkRun(m, t, run[..|run| - 1], x, c, pid);
      InForkStep(m, Exec(m, t, run[..|run| - 1]).value, run[|run| - 1], x, c, pid);
    }
  }

  /** fork, whatever other steps come between its critical sections: a free slot
      becomes the RUNNABLE child of the caller, with the next pid, priority 0 and
      a full budget, last in queue 0; no other slot changes in the last section. */
  lemma ForkLaw(m: Limits, t: Table, run: seq<Step>, x: nat) returns (c: nat)
    requires Inv(m, t) && Enabled(m, t, ForkAllocStep(x)) && Inv(m, Apply(m, t, ForkAllocStep(x)))
    requires Exec(m, Apply(m, t, ForkAllocStep(x)), run).Some? && forall i | 0 <= i < |run| :: !EndsFork(run[i], x)
    requires Enabled(m, Exec(m, Apply(m, t, ForkAllocStep(x)), run).value, ForkFinishStep(x))
    ensures var u := Exec(m, Apply(m, t, ForkAllocStep(x)), run).value; var v := Apply(m, u, ForkFinishStep(x));
      && c < |t.procs| == |u.procs| == |v.procs| && t.procs[c].state == UNUSED
      && v.procs[c]
         == u.procs[c].(state := RUNNABLE, pid := t.nextpid, parent := Some(x), prio := 0, budget := m.budget)
      && JoinsLast(u, v, c) && forall y | 0 <= y < |u.procs| && y != c :: v.procs[y] == u.procs[y]
  {
    hide Inv, Enabled, Apply, JoinsLast;
    c := Allocated(m, t, x);
    var s := Apply(m, t, ForkAllocStep(x));
    InForkRun(m, s, run, x, c, t.nextpid);
    SizeStays(m, t, s, Exec(m, s, run).value);
    Finished(m, Exec(m, s, run).value, x, c, t.nextpid);
  }

  lemma SizeStays(m: Limits, t: Table, s: Table, u: Table)
    requires Inv(m, t) && Inv(m, s) && Inv(m, u)
    ensures |t.procs| == |s.procs| == |u.procs|
  {
    hide Inv, Partition;
    InvPartition(m, t);
    InvPartition(m, s);
    InvPartition(m, u);
  }

  lemma Allocated(m: Limits, t: Table, x: nat) returns (c: nat)
    requires Inv(m, t) && Enabled(m, t, ForkAllocStep(x))
    ensures c < |t.procs| && t.procs[c].state == UNUSED && InFork(Apply(m, t, ForkAllocStep(x)), x, c, t.nextpid)
  {
    hide Inv, Listed, Without;
    FreeFacts(m, t, x);
    c := t.lists[FreeL][0];
  }

  lemma Finished(m: Limits, t: Table, x: nat, c: nat, pid: nat)
    requires Inv(m, t) && Enabled(m, t, ForkFinishStep(x)) && InFork(t, x, c, pid)
    ensures var v := Apply(m, t, ForkFinishStep(x));
      && |v.procs| == |t.procs| && c < |t.procs|
      && v.procs[c] == t.procs[c].(state := RUNNABLE, pid := pid, parent := Some(x), prio := 0, budget := m.budget)
      && JoinsLast(t, v, c) && forall y | 0 <= y < |t.procs| && y != c :: v.procs[y] == t.procs[y]
  {
    hide Inv, Listed, Without, JoinsLast;
    InvPartition(m, t);
    ForkFacts(m, t, x);
    var p := t.procs[c].(state := RUNNABLE);
    MovedLast(m, t, c, p);
    SameJoin(t, Move(t, c, p, Tail), Apply(m, t, ForkFinishStep(x)), c);
  }

  lemma SameJoin(t: Table, u: Table, v: Table, x: nat)
    requires JoinsLast(t, u, x) && v.procs == u.procs && v.lists == u.lists
    ensures JoinsLast(t, v, x)
  {
  }

  // ------------------------------------------------------- kill and setpriority

  /** Slot x holds a process with this pid that a search of the lists visits. */
  ghost predicate Carries(t: Table, x: nat, pid: int, embryos: bool) {
    && x < |t.procs| && t.procs[x].pid == pid
    && (t.procs[x].state in {SLEEPING, RUNNABLE, RUNNING} || (embryos && t.procs[x].state == EMBRYO))
  }

  /** setpriority succeeds exactly for a level in range and the pid of a process
      that sleeps, waits or runs.  That process gets the level and a full budget;
      if it waits at another level it joins the new queue last, and otherwise no
      queue changes.  No other process changes. */
  lemma SetPriorityLaw(m: Limits, t: Table, pid: int, prio: int)
    requires Inv(m, t) && Partition(m, t)
    ensures var (ok, u) := SetPriority(m, t, pid, prio);
      && (ok <==> 0 <= prio <= m.maxPrio && 0 <= pid && exists x: nat :: Carries(t, x, pid, false))
      && |u.procs| == |t.procs| && (!ok ==> u == t)
      && forall x: nat | x < |t.procs| ::
           if ok && Carries(t, x, pid, false)
           then
             && u.procs[x] == t.procs[x].(prio := prio, budget := m.budget)
             && if t.procs[x].state == RUNNABLE && t.procs[x].prio != prio then JoinsLast(t, u, x)
                else u.lists == t.lists
           else u.procs[x] == t.procs[x]
  {
    hide Inv, Listed, Move, JoinsLast;
    var r := FindPid(t.procs, pid, false);
    if r.Some? {
      assert Carries(t, r.value, pid, false);
    }
    forall x: nat | x < |t.procs| && Carries(t, x, pid, false) && r.Some? ensures x == r.value {
      SamePid(m, t, x, r.value);
    }
    if 0 <= prio <= m.maxPrio && 0 <= pid && r.Some? {
      var x := r.value;
      SlotFacts(m, t, x);
      var p := t.procs[x].(prio := prio, budget := m.budget);
      if p.state == RUNNABLE && t.procs[x].prio != prio {
        MovedLast(m, t, x, p);
        MoveProcs(t, x, p, Tail);
      }
    }
  }

  lemma MoveProcs(t: Table, x: nat, p: Proc, e: End)
    requires x < |t.procs| && ListOf(t.procs[x]) in t.lists && ListOf(p) in t.lists
    ensures Move(t, x, p, e).procs == t.procs[x := p]
  {
  }

  /** kill succeeds exactly for the pid of a process that is neither free nor a
      zombie.  That process is marked; if it sleeps it joins the queue of its
      level last, and otherwise no list changes.  No other process changes. */
  lemma KillLaw(m: Limits, t: Table, pid: int)
    requires Inv(m, t) && Partition(m, t) && Levels(m, t.procs)
    ensures var (ok, u) := Kill(m, t, pid);
      && (ok <==> exists x: nat :: Carries(t, x, pid, true))
      && |u.procs| == |t.procs| && (!ok ==> u == t)
      && forall x: nat | x < |t.procs| ::
           if Carries(t, x, pid, true)
           then
             && u.procs[x] == t.procs[x].(killed := true, state := u.procs[x].state)
             && if t.procs[x].state == SLEEPING then u.procs[x].state == RUNNABLE && JoinsLast(t, u, x)
                else u.procs[x].state == t.procs[x].state && u.lists == t.lists
           else u.procs[x] == t.procs[x]
  {
    hide Inv, Listed, Move, JoinsLast;
    var r := FindPid(t.procs, pid, true);
    if r.Some? {
      assert Carries(t, r.value, pid, true);
    }
    forall x: nat | x < |t.procs| && Carries(t, x, pid, true) && r.Some? ensures x == r.value {
      SamePid(m, t, x, r.value);
    }
    if r.Some? {
      var x := r.value;
      SlotFacts(m, t, x);
      if t.procs[x].state == SLEEPING {
        var p := t.procs[x].(killed := true, state := RUNNABLE);
        MovedLast(m, t, x, p);
        MoveProcs(t, x, p, Tail);
      }
    }
  }
}
