// A process that stays RUNNABLE is dispatched after at most MAX promotions
// followed by fewer than NPROC dispatches.

module SchedStarvation {
  import opened Common
  import opened SchedModel
  import opened SchedInvariant
  import opened SchedTheorems

  // ----------------------------------------------------- positions in a queue

  function IndexOf(s: seq<nat>, x: nat): (r: nat)
    requires x in s
    ensures r < |s| && s[r] == x
  {
    if s[0] == x then 0 else 1 + IndexOf(s[1..], x)
  }

  lemma {:induction false} IndexAppend(s: seq<nat>, more: seq<nat>, x: nat)
    requires x in s
    ensures IndexOf(s + more, x) == IndexOf(s, x)
  {
    if s[0] != x {
      assert (s + more)[1..] == s[1..] + more;
      IndexAppend(s[1..], more, x);
    }
  }

  lemma {:induction false} IndexWithout(s: seq<nat>, y: nat, x: nat)
    requires x in s && x != y
    ensures x in Without(s, y) && IndexOf(Without(s, y), x) <= IndexOf(s, x)
  {
    if s[0] != x && s[0] != y {
      IndexWithout(s[1..], y, x);
      assert ([s[0]] + Without(s[1..], y))[1..] == Without(s[1..], y);
    }
  }

  // ------------------------------------------------------------- the measure

  ghost predicate Waiting(t: Table, x: nat) {
    x < |t.procs| && t.procs[x].state == RUNNABLE
  }

  /** How many processes are ahead of x in its queue. */
  ghost function Ahead(t: Table, x: nat): nat
    requires Queued(t, x)
  {
    IndexOf(t.lists[ReadyL(t.procs[x].prio)], x)
  }

  ghost predicate Queued(t: Table, x: nat) {
    && Waiting(t, x) && ReadyL(t.procs[x].prio) in t.lists
    && x in t.lists[ReadyL(t.procs[x].prio)]
  }

  /** (prio, number ahead) did not grow, in lexicographic order. */
  ghost predicate NotBehind(t: Table, t': Table, x: nat) {
    && Queued(t, x) && Queued(t', x)
    && (t'.procs[x].prio < t.procs[x].prio
      || (t'.procs[x].prio == t.procs[x].prio && Ahead(t', x) <= Ahead(t, x)))
  }

  lemma InvQueued(m: Limits, t: Table, x: nat)
    requires Inv(m, t) && Waiting(t, x)
    ensures Queued(t, x) && t.procs[x].prio <= m.maxPrio
  {
    hide GoodList, ProcsOk;
  }

  /** Another process leaves a queue, or joins one at its tail. */
  lemma MoveNotBehind(t: Table, x: nat, y: nat, p: Proc, e: End)
    requires Queued(t, x) && y < |t.procs| && y != x
    requires ListOf(t.procs[y]) in t.lists && ListOf(p) in t.lists
    requires e.Tail? || !ListOf(p).ReadyL?
    ensures NotBehind(t, Move(t, y, p, e), x) && Move(t, y, p, e).procs[x] == t.procs[x]
  {
    var q := ReadyL(t.procs[x].prio);
    var from := ListOf(t.procs[y]);
    var out := t.lists[from := Without(t.lists[from], y)];
    if from == q {
      IndexWithout(t.lists[q], y, x);
    }
    assert x in out[q] && IndexOf(out[q], x) <= Ahead(t, x);
    if ListOf(p) == q {
      IndexAppend(out[q], [y], x);
    }
  }

  lemma WakeupNotBehind(t: Table, chan: Chan, x: nat)
    requires Queued(t, x) && SleepL in t.lists
    ensures NotBehind(t, Wakeup1(t, chan), x) && Wakeup1(t, chan).procs[x] == t.procs[x]
  {
    var k := t.procs[x].prio;
    IndexAppend(t.lists[ReadyL(k)], Sleepers(t.procs, t.lists[SleepL], chan, Some(k)), x);
  }

  /** Promotion lifts x by one level, or leaves it where it is at level 0. */
  lemma PromoteNotBehind(m: Limits, t: Table, x: nat)
    requires Queued(t, x) && ReadyL(0) in t.lists
    requires t.procs[x].prio > 0 ==> ReadyL(t.procs[x].prio - 1) in t.lists
    ensures NotBehind(t, Promote(m, t), x)
    ensures t.procs[x].prio > 0 ==> Promote(m, t).procs[x].prio == t.procs[x].prio - 1
    ensures t.procs[x].prio == 0 ==> Promote(m, t).procs[x].prio == 0 && Ahead(Promote(m, t), x) == Ahead(t, x)
  {
    var k := t.procs[x].prio;
    if k == 0 {
      IndexAppend(t.lists[ReadyL(0)], PromoteList(t.lists, ReadyL(0))[|t.lists[ReadyL(0)]|..], x);
      assert PromoteList(t.lists, ReadyL(0))
        == t.lists[ReadyL(0)] + PromoteList(t.lists, ReadyL(0))[|t.lists[ReadyL(0)]|..];
    }
  }

  /** The head of the highest queue leaves; at level 0 that is x's own queue. */
  lemma DispatchNotBehind(m: Limits, t: Table, x: nat)
    requires Inv(m, t) && Waiting(t, x) && Partition(m, t) && Waiting(Dispatch(m, t), x)
    ensures Queued(t, x) && NotBehind(t, Dispatch(m, t), x) && Dispatch(m, t).procs[x] == t.procs[x]
    ensures t.procs[x].prio == 0 ==> Ahead(Dispatch(m, t), x) == Ahead(t, x) - 1
  {
    InvQueued(m, t, x);
    var r := FirstReady(m, t.lists, 0);
    assert r.Some?;
    ReadyHead(m, t, r.value);
    var y := t.lists[ReadyL(r.value)][0];
    SlotFacts(m, t, y);
    hide Inv, Listed;
    var p := t.procs[y].(state := RUNNING, cpuIn := t.ticks, chan := NoChan);
    assert y != x;
    MoveNotBehind(t, x, y, p, Head);
  }

  lemma ScheduleNotBehind(m: Limits, t: Table, x: nat)
    requires Inv(m, t) && Waiting(t, x) && Partition(m, t) && Waiting(Schedule(m, t), x)
    ensures Queued(t, x) && NotBehind(t, Schedule(m, t), x) && Schedule(m, t).procs[x].pid == t.procs[x].pid
    ensures t.procs[x].prio > 0 && t.promoteAt <= t.ticks ==> Schedule(m, t).procs[x].prio == t.procs[x].prio - 1
    ensures t.procs[x].prio == 0 ==> Schedule(m, t).procs[x].prio == 0 && Ahead(Schedule(m, t), x) == Ahead(t, x) - 1
  {
    hide Inv, Listed, Dispatch;
    InvQueued(m, t, x);
    SlotFacts(m, t, x);
    PromoteKeeps(m, t);
    PromotePartition(m, t);
    if t.promoteAt <= t.ticks {
      PromoteNotBehind(m, t, x);
      DispatchNotBehind(m, Promote(m, t), x);
    } else {
      DispatchNotBehind(m, t, x);
    }
  }

  lemma NotBehindTrans(t: Table, u: Table, v: Table, x: nat)
    requires NotBehind(t, u, x) && NotBehind(u, v, x)
    ensures NotBehind(t, v, x)
  {
  }

  lemma SameQueue(t: Table, u: Table, x: nat)
    requires Queued(t, x) && u.lists == t.lists && x < |u.procs|
    requires u.procs[x].state == RUNNABLE && u.procs[x].prio == t.procs[x].prio
    ensures NotBehind(t, u, x)
  {
  }

  lemma AbandonNotBehind(t: Table, x: nat, y: nat)
    requires Queued(t, x) && y < |t.procs| && SleepL in t.lists
    ensures NotBehind(t, Abandon(t, y), x) && Abandon(t, y).procs[x].pid == t.procs[x].pid
  {
    hide Sleepers, WakeList, NotBehind;
    var woken := Wakeup1(t, ParentChan(t.procs[y]));
    WakeupNotBehind(t, ParentChan(t.procs[y]), x);
    BothQueued(t, woken, x);
    var adopted := woken.(procs := Reparent(woken.procs, y, t.initproc));
    SameQueue(woken, adopted, x);
    NotBehindTrans(t, woken, adopted, x);
    if HasZombieChild(woken.procs, y) {
      BothQueued(t, adopted, x);
      WakeupNotBehind(adopted, ProcChan(t.initproc), x);
      NotBehindTrans(t, adopted, Abandon(t, y), x);
    }
  }

  lemma BothQueued(t: Table, u: Table, x: nat)
    requires NotBehind(t, u, x)
    ensures Queued(t, x) && Queued(u, x)
  {
  }

  lemma ExitNotBehind(t: Table, x: nat, y: nat)
    requires Queued(t, x) && y < |t.procs| && y != x && SleepL in t.lists && ZombieL in t.lists
    requires ListOf(Abandon(t, y).procs[y]) in Abandon(t, y).lists
    ensures NotBehind(t, Exit(t, y), x) && Exit(t, y).procs[x].pid == t.procs[x].pid
  {
    hide Abandon, NotBehind, Without, Queued;
    AbandonNotBehind(t, x, y);
    AbandonProcs(t, y);
    AbandonFields(t, y);
    var a := Abandon(t, y);
    BothQueued(t, a, x);
    MoveNotBehind(a, x, y, a.procs[y].(state := ZOMBIE), Head);
    NotBehindTrans(t, a, Exit(t, y), x);
  }

  ghost predicate Targets(a: Step, pid: int) { a.SetPriorityStep? && a.target == pid }

  /** A step that is one Move of another slot, or no change for x. */
  lemma ForkNotBehind(m: Limits, t: Table, a: Step, x: nat)
    requires Inv(m, t) && Enabled(m, t, a) && Waiting(t, x) && Waiting(Apply(m, t, a), x)
    requires a.ForkAllocStep? || a.ForkFailStep? || a.ForkSetupStep? || a.ForkFinishStep?
    ensures NotBehind(t, Apply(m, t, a), x) && Apply(m, t, a).procs[x].pid == t.procs[x].pid
  {
    InvQueued(m, t, x);
    var t' := Apply(m, t, a);
    if a.ForkAllocStep? {
      FreeFacts(m, t, a.x);
      hide Inv, Listed, NotBehind;
      var c := t.lists[FreeL][0];
      var p := t.procs[c].(state := EMBRYO, pid := t.nextpid);
      MoveNotBehind(t, x, c, p, Head);
      BothQueued(t, Move(t, c, p, Head), x);
      SameQueue(Move(t, c, p, Head), t', x);
      NotBehindTrans(t, Move(t, c, p, Head), t', x);
    } else {
      ForkFacts(m, t, a.x);
      hide Inv, Listed, NotBehind;
      var c := t.forks[a.x].child;
      if a.ForkSetupStep? {
        SameQueue(t, t', x);
      } else {
        var p := t.procs[c].(state := if a.ForkFailStep? then UNUSED else RUNNABLE);
        var e := if a.ForkFailStep? then Head else Tail;
        MoveNotBehind(t, x, c, p, e);
        BothQueued(t, Move(t, c, p, e), x);
        SameQueue(Move(t, c, p, e), t', x);
        NotBehindTrans(t, Move(t, c, p, e), t', x);
      }
    }
  }

  lemma WaitNotBehind(m: Limits, t: Table, y: nat, x: nat)
    requires Inv(m, t) && CanRun(t, y) && Waiting(t, x) && Partition(m, t)
    ensures NotBehind(t, Wait(m, t, y).1, x) && Wait(m, t, y).1.procs[x].pid == t.procs[x].pid
  {
    InvQueued(m, t, x);
    ZombieChildListed(m, t, y);
    PartitionFacts(m, t, y);
    hide Inv, Listed, HasLiveChild, HasZombieChild;
    var r := FirstChild(t.procs, t.lists[ZombieL], y);
    if r.Some? {
      MoveNotBehind(t, x, r.value, Reap(t.procs[r.value]), Head);
    } else if HasLiveChild(t.procs, y) && !t.procs[y].killed {
      MoveNotBehind(t, x, y, Charge(m, t.procs[y], t.ticks).(state := SLEEPING, chan := ProcChan(y)), Head);
    }
  }

  lemma KillNotBehind(m: Limits, t: Table, pid: int, x: nat)
    requires Inv(m, t) && Waiting(t, x) && Partition(m, t)
    requires forall i | 0 <= i < |t.procs| && t.procs[i].state == SLEEPING :: t.procs[i].prio <= m.maxPrio
    ensures NotBehind(t, Kill(m, t, pid).1, x) && Kill(m, t, pid).1.procs[x].pid == t.procs[x].pid
  {
    hide Inv, Listed, NotBehind, Queued;
    InvQueued(m, t, x);
    var r := FindPid(t.procs, pid, true);
    if r.Some? {
      var y := r.value;
      SlotFacts(m, t, y);
      if t.procs[y].state == SLEEPING {
        MoveNotBehind(t, x, y, t.procs[y].(killed := true, state := RUNNABLE), Tail);
      } else {
        SameQueue(t, Update(t, y, t.procs[y].(killed := true)), x);
      }
    } else {
      SameQueue(t, t, x);
    }
  }

  lemma SetPriorityNotBehind(m: Limits, t: Table, pid: int, prio: int, x: nat)
    requires Inv(m, t) && Waiting(t, x) && Partition(m, t) && pid != t.procs[x].pid
    ensures NotBehind(t, SetPriority(m, t, pid, prio).1, x)
    ensures SetPriority(m, t, pid, prio).1.procs[x].pid == t.procs[x].pid
  {
    hide Inv, Listed, NotBehind, Queued;
    InvQueued(m, t, x);
    if 0 <= prio <= m.maxPrio && 0 <= pid && FindPid(t.procs, pid, false).Some? {
      var y := FindPid(t.procs, pid, false).value;
      SlotFacts(m, t, y);
      var p := t.procs[y].(prio := prio, budget := m.budget);
      if p.state == RUNNABLE && t.procs[y].prio != prio {
        MoveNotBehind(t, x, y, p, Tail);
      } else {
        SameQueue(t, Update(t, y, p), x);
      }
    } else {
      SameQueue(t, t, x);
    }
  }

  /** No step other than setpriority on x itself pushes a waiting process back. */
  lemma StepNotBehind(m: Limits, t: Table, a: Step, x: nat)
    requires Inv(m, t) && Enabled(m, t, a) && Waiting(t, x) && Waiting(Apply(m, t, a), x)
    requires !Targets(a, t.procs[x].pid)
    ensures NotBehind(t, Apply(m, t, a), x) && Apply(m, t, a).procs[x].pid == t.procs[x].pid
  {
    hide Inv, Listed, NotBehind, Queued;
    InvQueued(m, t, x);
    InvPartition(m, t);
    SleepersHaveLists(m, t);
    match a
    case TickStep(d) => SameQueue(t, t.(ticks := t.ticks + d), x);
    case ForkAllocStep(_) => ForkNotBehind(m, t, a, x);
    case ForkFailStep(_) => ForkNotBehind(m, t, a, x);
    case ForkSetupStep(_) => ForkNotBehind(m, t, a, x);
    case ForkFinishStep(_) => ForkNotBehind(m, t, a, x);
    case ExitStep(y) => ExitKeeps(m, t, y); ExitNotBehind(t, x, y);
    case WaitStep(y) => WaitNotBehind(m, t, y, x);
    case YieldStep(y) =>
      SlotFacts(m, t, y);
      MoveNotBehind(t, x, y, Charge(m, t.procs[y], t.ticks).(state := RUNNABLE), Tail);
    case SleepStep(y, id) =>
      SlotFacts(m, t, y);
      MoveNotBehind(t, x, y, Charge(m, t.procs[y], t.ticks).(state := SLEEPING, chan := OtherChan(id)), Head);
    case WakeupStep(id) => WakeupNotBehind(t, OtherChan(id), x);
    case KillStep(pid) => KillNotBehind(m, t, pid, x);
    case SetPriorityStep(pid, prio) => SetPriorityNotBehind(m, t, pid, prio, x);
    case ScheduleStep => ScheduleNotBehind(m, t, x);
  }

  // -------------------------------------------------------------- whole runs

  ghost function At(m: Limits, t: Table, run: seq<Step>, i: nat): Option<Table>
    requires Inv(m, t) && i <= |run|
  {
    Exec(m, t, run[..i])
  }

  /** x is RUNNABLE in every state of the run, and nobody sets its priority. */
  ghost predicate StaysWaiting(m: Limits, t: Table, run: seq<Step>, x: nat)
    requires Inv(m, t)
  {
    && x < |t.procs|
    && (forall i | 0 <= i <= |run| :: At(m, t, run, i).Some? && Waiting(At(m, t, run, i).value, x))
    && (forall i | 0 <= i < |run| :: !Targets(run[i], t.procs[x].pid))
  }

  lemma StaysPrefix(m: Limits, t: Table, run: seq<Step>, x: nat)
    requires Inv(m, t) && run != [] && StaysWaiting(m, t, run, x)
    ensures StaysWaiting(m, t, run[..|run| - 1], x)
    ensures Exec(m, t, run[..|run| - 1]).Some? && Waiting(Exec(m, t, run[..|run| - 1]).value, x)
    ensures Exec(m, t, run).Some? && Waiting(Exec(m, t, run).value, x)
  {
    hide Inv, Waiting, Exec;
    var init := run[..|run| - 1];
    forall i | 0 <= i <= |init| ensures At(m, t, init, i).Some? && Waiting(At(m, t, init, i).value, x) {
      assert init[..i] == run[..i];
      assert At(m, t, run, i).Some?;
    }
    assert At(m, t, run, |init|).Some? && run[..|run|] == run && At(m, t, run, |run|).Some?;
  }

  /** How often the run promotes, and how often it dispatches. */
  ghost function Promotions(m: Limits, t: Table, run: seq<Step>): nat
    requires Inv(m, t)
  {
    if run == [] then 0
    else
      var before := Exec(m, t, run[..|run| - 1]);
      Promotions(m, t, run[..|run| - 1]) +
      if run[|run| - 1].ScheduleStep? && before.Some? && before.value.promoteAt <= before.value.ticks then 1 else 0
  }

  function Dispatches(run: seq<Step>): nat {
    if run == [] then 0
    else Dispatches(run[..|run| - 1]) + if run[|run| - 1].ScheduleStep? then 1 else 0
  }

  /** Each promotion lifts a waiting process one level. */
  lemma {:induction false} PromotionsLift(m: Limits, t: Table, run: seq<Step>, x: nat)
    requires Inv(m, t) && StaysWaiting(m, t, run, x)
    ensures Exec(m, t, run).Some? && Waiting(Exec(m, t, run).value, x)
    ensures var p := Exec(m, t, run).value.procs[x];
      && p.pid == t.procs[x].pid && p.prio <= t.procs[x].prio
      && (p.prio == 0 || p.prio + Promotions(m, t, run) <= t.procs[x].prio)
  {
    if run == [] {
      assert At(m, t, run, 0).Some? && run[..0] == [];
    } else {
      hide Inv, Waiting, Enabled, Schedule;
      StaysPrefix(m, t, run, x);
      PromotionsLift(m, t, run[..|run| - 1], x);
      var u, a := Exec(m, t, run[..|run| - 1]).value, run[|run| - 1];
      StepNotBehind(m, u, a, x);
      StepLift(m, u, a, x);
    }
  }

  lemma StepLift(m: Limits, t: Table, a: Step, x: nat)
    requires Inv(m, t) && Enabled(m, t, a) && Waiting(t, x) && Waiting(Apply(m, t, a), x) && !Targets(a, t.procs[x].pid)
    ensures var p, q := t.procs[x], Apply(m, t, a).procs[x];
      && q.prio <= p.prio && q.pid == p.pid
      && (a.ScheduleStep? && t.promoteAt <= t.ticks && p.prio > 0 ==> q.prio == p.prio - 1)
    ensures Queued(t, x) && Queued(Apply(m, t, a), x)
    ensures t.procs[x].prio == 0 ==>
      Ahead(Apply(m, t, a), x) <= Ahead(t, x) - if a.ScheduleStep? then 1 else 0
  {
    hide Inv, Listed, Schedule, Apply, Enabled;
    StepNotBehind(m, t, a, x);
    InvPartition(m, t);
    if a.ScheduleStep? {
      ApplySchedule(m, t);
      ScheduleNotBehind(m, t, x);
    }
  }

  lemma ApplySchedule(m: Limits, t: Table)
    requires Inv(m, t) && Partition(m, t) && Enabled(m, t, ScheduleStep)
    ensures Apply(m, t, ScheduleStep) == Schedule(m, t)
  {
    hide Inv, Listed, Schedule;
  }

  /** At level 0 each dispatch brings a waiting process one place forward. */
  lemma {:induction false} DispatchesAdvance(m: Limits, t: Table, run: seq<Step>, x: nat)
    requires Inv(m, t) && StaysWaiting(m, t, run, x) && t.procs[x].prio == 0
    ensures Exec(m, t, run).Some? && Queued(t, x) && Queued(Exec(m, t, run).value, x)
    ensures Exec(m, t, run).value.procs[x].prio == 0 && Exec(m, t, run).value.procs[x].pid == t.procs[x].pid
    ensures Ahead(Exec(m, t, run).value, x) + Dispatches(run) <= Ahead(t, x)
  {
    if run == [] {
      assert At(m, t, run, 0).Some? && run[..0] == [];
      InvQueued(m, t, x);
    } else {
      hide Inv, Waiting, Enabled, Ahead, Queued;
      StaysPrefix(m, t, run, x);
      DispatchesAdvance(m, t, run[..|run| - 1], x);
      StepLift(m, Exec(m, t, run[..|run| - 1]).value, run[|run| - 1], x);
    }
  }

  ghost function Below(n: nat): (r: set<nat>)
    ensures |r| == n && forall x: nat :: x in r <==> x < n
  {
    if n == 0 then {}
    else
      var less := Below(n - 1);
      assert n - 1 !in less;
      less + {n - 1}
  }

  ghost function ToSet(s: seq<nat>): set<nat> {
    set x | x in s
  }

  lemma {:induction false} DistinctSize(s: seq<nat>)
    requires NoDup(s)
    ensures |ToSet(s)| == |s|
  {
    if s != [] {
      var rest := s[..|s| - 1];
      DistinctSize(rest);
      assert ToSet(s) == ToSet(rest) + {s[|s| - 1]};
      assert s[|s| - 1] !in rest;
    }
  }

  lemma SubsetSize(a: set<nat>, b: set<nat>)
    requires a <= b
    ensures |a| <= |b|
  {
    var c := b - a;
    assert b == a + c && |a + c| == |a| + |c|;
  }

  /** Distinct slots below n are at most n. */
  lemma NoDupBound(s: seq<nat>, n: nat)
    requires NoDup(s) && forall j | 0 <= j < |s| :: s[j] < n
    ensures |s| <= n
  {
    DistinctSize(s);
    SubsetSize(ToSet(s), Below(n));
  }

  lemma AheadBound(m: Limits, t: Table, x: nat)
    requires Inv(m, t) && Queued(t, x)
    ensures Ahead(t, x) < m.nproc
  {
    hide ProcsOk;
    var q := t.lists[ReadyL(t.procs[x].prio)];
    assert GoodList(t.procs, q, ReadyL(t.procs[x].prio), {});
    NoDupBound(q, m.nproc);
  }

  lemma {:induction false} ExecSplit(m: Limits, t: Table, first: seq<Step>, second: seq<Step>)
    requires Inv(m, t) && Exec(m, t, first + second).Some?
    ensures Exec(m, t, first).Some?
    ensures Exec(m, Exec(m, t, first).value, second) == Exec(m, t, first + second)
    decreases |second|
  {
    hide Inv, Apply, Enabled;
    if second == [] {
      assert first + second == first;
    } else {
      var init := second[..|second| - 1];
      assert (first + second)[..|first + second| - 1] == first + init;
      ExecSplit(m, t, first, init);
    }
  }

  lemma StaysSplit(m: Limits, t: Table, first: seq<Step>, second: seq<Step>, x: nat)
    requires Inv(m, t) && StaysWaiting(m, t, first + second, x)
    ensures StaysWaiting(m, t, first, x) && Exec(m, t, first).Some?
    ensures Exec(m, t, first).value.procs[x].pid == t.procs[x].pid ==>
      StaysWaiting(m, Exec(m, t, first).value, second, x)
  {
    hide Inv, Exec;
    var run := first + second;
    forall i | 0 <= i <= |first| ensures At(m, t, first, i).Some? && Waiting(At(m, t, first, i).value, x) {
      assert first[..i] == run[..i] && At(m, t, run, i).Some?;
    }
    assert first[..|first|] == first && At(m, t, first, |first|).Some?;
    forall i | 0 <= i < |first| ensures first[i] == run[i] {
    }
    var u := Exec(m, t, first).value;
    forall i | 0 <= i <= |second| ensures At(m, u, second, i).Some? && Waiting(At(m, u, second, i).value, x) {
      assert run[..|first| + i] == first + second[..i] && At(m, t, run, |first| + i).Some?;
      ExecSplit(m, t, first, second[..i]);
    }
    forall i | 0 <= i < |second| ensures second[i] == run[|first| + i] {
    }
  }

  /** No starvation: a process cannot stay RUNNABLE through MAX promotions and
      then NPROC dispatches, whatever else happens in between. */
  lemma NoStarvation(m: Limits, t: Table, first: seq<Step>, second: seq<Step>, x: nat)
    requires Inv(m, t) && StaysWaiting(m, t, first + second, x)
    requires Promotions(m, t, first) >= m.maxPrio
    ensures Dispatches(second) < m.nproc
  {
    hide Inv, Exec, StaysWaiting, Dispatches, Ahead, Queued;
    StaysSplit(m, t, first, second, x);
    PromotionsLift(m, t, first, x);
    var u := Exec(m, t, first).value;
    InitialLevel(m, t, x, first);
    assert u.procs[x].prio == 0;
    DispatchesAdvance(m, u, second, x);
    AheadBound(m, u, x);
  }

  lemma InitialLevel(m: Limits, t: Table, x: nat, run: seq<Step>)
    requires Inv(m, t) && StaysWaiting(m, t, run, x)
    ensures t.procs[x].prio <= m.maxPrio
  {
    hide Inv;
    assert At(m, t, run, 0).Some? && run[..0] == [];
    InvQueued(m, t, x);
  }
}
