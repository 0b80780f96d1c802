// What every critical section of proc.c keeps: the partition over the state
// lists, the ranges of priorities and budgets, distinct pids, the parent tree
// rooted at init, and no lost wakeup in wait.

module SchedInvariant {
  import opened Common
  import opened SchedModel

  // -------------------------------------------------------------- per process

  /** Live processes have 0 <= prio <= MAX and 1 <= budget <= BUDGET. */
  ghost predicate Ranges(m: Limits, procs: seq<Proc>, ticks: nat) {
    forall i | 0 <= i < |procs| && Scheduled(procs[i].state) ::
      && procs[i].prio <= m.maxPrio && 1 <= procs[i].budget <= m.budget
      && (procs[i].state == RUNNING ==> procs[i].cpuIn <= ticks)
  }

  /** No pid is ever shared, not even with the stale pid of an UNUSED slot. */
  ghost predicate Pids(procs: seq<Proc>, nextpid: nat) {
    && (forall i | 0 <= i < |procs| :: procs[i].pid < nextpid && (procs[i].state != UNUSED ==> 1 <= procs[i].pid))
    && (forall i, j | 0 <= i < |procs| && 0 <= j < |procs| && i != j && procs[i].pid != 0 ::
          procs[i].pid != procs[j].pid)
  }

  /** The parent is alive, not a zombie, and older. */
  predicate ChildOk(procs: seq<Proc>, p: Proc) {
    && p.parent.Some? && p.parent.value < |procs|
    && Scheduled(procs[p.parent.value].state) && procs[p.parent.value].pid < p.pid
  }

  predicate InTree(procs: seq<Proc>, p: Proc) {
    match p.state
    case UNUSED => p.parent == None
    case EMBRYO => p.parent == None || ChildOk(procs, p)
    case _ => ChildOk(procs, p)
  }

  /** init is pid 1, never exits, and is the root. */
  ghost predicate Tree(procs: seq<Proc>, init: nat) {
    && init < |procs| && Scheduled(procs[init].state) && procs[init].pid == 1 && procs[init].parent == None
    && forall i | 0 <= i < |procs| && i != init :: InTree(procs, procs[i])
  }

  predicate InWait(p: Proc) { p.state == SLEEPING && p.chan.ProcChan? }

  predicate ChildOf(p: Proc, x: nat) { p.parent == Some(x) }

  /** Only wait sleeps on a process, on its caller, and never while the caller
      has a zombie child, nor without a child that may still exit. */
  ghost predicate NoLostWakeup(procs: seq<Proc>) {
    forall i | 0 <= i < |procs| && InWait(procs[i]) ::
      && procs[i].chan.slot == i
      && (forall z | 0 <= z < |procs| && ChildOf(procs[z], i) :: procs[z].state != ZOMBIE)
      && (exists c | 0 <= c < |procs| :: ChildOf(procs[c], i))
  }

  predicate ForkOk(m: Limits, procs: seq<Proc>, x: nat, f: Fork) {
    && x < |procs| && Scheduled(procs[x].state) && !InWait(procs[x])
    && f.child < |procs| && procs[f.child].state == EMBRYO && procs[x].pid < procs[f.child].pid
    && if f.ready then procs[f.child].parent == Some(x) && procs[f.child].prio == 0 && procs[f.child].budget == m.budget
       else procs[f.child].parent == None
  }

  /** Every EMBRYO slot belongs to one fork in progress. */
  ghost predicate ForksOk(m: Limits, procs: seq<Proc>, forks: map<nat, Fork>) {
    && (forall x | x in forks :: ForkOk(m, procs, x, forks[x]))
    && (forall x, y | x in forks && y in forks && x != y :: forks[x].child != forks[y].child)
    && (forall c | 0 <= c < |procs| && procs[c].state == EMBRYO :: exists x :: x in forks && forks[x].child == c)
  }

  ghost predicate ProcsOk(m: Limits, t: Table) {
    && Ranges(m, t.procs, t.ticks) && Pids(t.procs, t.nextpid) && Tree(t.procs, t.initproc)
    && NoLostWakeup(t.procs) && ForksOk(m, t.procs, t.forks)
  }

  ghost predicate Inv(m: Limits, t: Table) {
    m.Valid() && Partition(m, t) && ProcsOk(m, t)
  }

  // ------------------------------------------------------------------- steps

  datatype Step =
    | TickStep(d: nat)
    | ForkAllocStep(x: nat)
    | ForkFailStep(x: nat)
    | ForkSetupStep(x: nat)
    | ForkFinishStep(x: nat)
    | ExitStep(x: nat)
    | WaitStep(x: nat)
    | YieldStep(x: nat)
    | SleepStep(x: nat, id: nat)
    | WakeupStep(id: nat)
    | KillStep(pid: int)
    | SetPriorityStep(target: int, prio: int)
    | ScheduleStep

  /** A step is taken by a running process that is not inside another call. */
  ghost predicate Enabled(m: Limits, t: Table, a: Step) {
    match a
    case ForkAllocStep(x) => CanRun(t, x) && x !in t.forks && FreeL in t.lists && t.lists[FreeL] != []
    case ForkFailStep(x) => CanRun(t, x) && x in t.forks && !t.forks[x].ready
    case ForkSetupStep(x) => CanRun(t, x) && x in t.forks && !t.forks[x].ready
    case ForkFinishStep(x) => CanRun(t, x) && x in t.forks && t.forks[x].ready
    case ExitStep(x) => CanRun(t, x) && x !in t.forks && x != t.initproc
    case WaitStep(x) => CanRun(t, x) && x !in t.forks
    case YieldStep(x) => CanRun(t, x)
    case SleepStep(x, _) => CanRun(t, x)
    case _ => true
  }

  /** Processes that may be moved to a ready list have a list to go to. */
  lemma SleepersHaveLists(m: Limits, t: Table)
    requires Inv(m, t)
    ensures m.IsList(SleepL) && SleepL in t.lists
    ensures forall x | 0 <= x < |t.procs| && t.procs[x].state == SLEEPING :: t.procs[x].prio <= m.maxPrio
  {
  }

  // Steps that only move live processes between the scheduler's lists.

  predicate Benign(p: Proc, q: Proc) {
    && p.pid == q.pid && p.parent == q.parent
    && (p.state == q.state || (Scheduled(p.state) && Scheduled(q.state)))
    && (InWait(q) ==> InWait(p) && q.chan == p.chan)
    && (p.state == EMBRYO ==> q.prio == p.prio && q.budget == p.budget)
  }

  ghost predicate BenignStep(t: Table, t': Table) {
    && |t.procs| == |t'.procs| && t'.nextpid == t.nextpid && t'.initproc == t.initproc && t'.forks == t.forks
    && forall i | 0 <= i < |t.procs| :: Benign(t.procs[i], t'.procs[i])
  }

  lemma BenignTree(procs: seq<Proc>, procs': seq<Proc>, init: nat)
    requires |procs| == |procs'| && forall i | 0 <= i < |procs| :: Benign(procs[i], procs'[i])
    requires Tree(procs, init)
    ensures Tree(procs', init)
  {
    forall i | 0 <= i < |procs| && i != init ensures InTree(procs', procs'[i]) {
      assert InTree(procs, procs[i]) && Benign(procs[i], procs'[i]);
      if procs[i].parent.Some? && procs[i].parent.value < |procs| {
        assert Benign(procs[procs[i].parent.value], procs'[procs[i].parent.value]);
      }
    }
  }

  lemma BenignWakeup(procs: seq<Proc>, procs': seq<Proc>)
    requires |procs| == |procs'| && forall i | 0 <= i < |procs| :: Benign(procs[i], procs'[i])
    requires NoLostWakeup(procs)
    ensures NoLostWakeup(procs')
  {
    forall i | 0 <= i < |procs| && InWait(procs'[i])
      ensures procs'[i].chan.slot == i
      ensures forall z | 0 <= z < |procs| && ChildOf(procs'[z], i) :: procs'[z].state != ZOMBIE
      ensures exists c | 0 <= c < |procs| :: ChildOf(procs'[c], i)
    {
      assert Benign(procs[i], procs'[i]) && InWait(procs[i]);
      var c :| 0 <= c < |procs| && ChildOf(procs[c], i);
      assert ChildOf(procs'[c], i);
      forall z | 0 <= z < |procs| && ChildOf(procs'[z], i) ensures procs'[z].state != ZOMBIE {
        assert ChildOf(procs[z], i);
      }
    }
  }

  lemma BenignForks(m: Limits, procs: seq<Proc>, procs': seq<Proc>, forks: map<nat, Fork>)
    requires |procs| == |procs'| && forall i | 0 <= i < |procs| :: Benign(procs[i], procs'[i])
    requires ForksOk(m, procs, forks)
    ensures ForksOk(m, procs', forks)
  {
    forall x | x in forks ensures ForkOk(m, procs', x, forks[x]) {
      assert ForkOk(m, procs, x, forks[x]);
      assert Benign(procs[x], procs'[x]) && Benign(procs[forks[x].child], procs'[forks[x].child]);
    }
    forall c | 0 <= c < |procs'| && procs'[c].state == EMBRYO ensures exists x :: x in forks && forks[x].child == c {
      assert procs[c].state == EMBRYO;
    }
  }

  lemma BenignKeeps(m: Limits, t: Table, t': Table)
    requires ProcsOk(m, t) && BenignStep(t, t') && Ranges(m, t'.procs, t'.ticks)
    ensures ProcsOk(m, t')
  {
    BenignTree(t.procs, t'.procs, t.initproc);
    BenignWakeup(t.procs, t'.procs);
    BenignForks(m, t.procs, t'.procs, t.forks);
    hide Tree, NoLostWakeup, ForksOk, Ranges;
    forall i | 0 <= i < |t.procs|
      ensures t'.procs[i].pid == t.procs[i].pid && (t'.procs[i].state == UNUSED <==> t.procs[i].state == UNUSED)
    {
      assert Benign(t.procs[i], t'.procs[i]);
    }
  }

  lemma TickKeeps(m: Limits, t: Table, d: nat)
    requires Inv(m, t)
    ensures Inv(m, t.(ticks := t.ticks + d))
  {
    BenignKeeps(m, t, t.(ticks := t.ticks + d));
  }

  predicate InRange(m: Limits, p: Proc, ticks: nat) {
    Scheduled(p.state) ==>
      && p.prio <= m.maxPrio && 1 <= p.budget <= m.budget
      && (p.state == RUNNING ==> p.cpuIn <= ticks)
  }

  lemma BenignSlot(m: Limits, t: Table, t': Table, x: nat, p: Proc)
    requires ProcsOk(m, t) && x < |t.procs| && Benign(t.procs[x], p) && InRange(m, p, t.ticks)
    requires t' == t.(procs := t.procs[x := p], lists := t'.lists)
    ensures ProcsOk(m, t')
  {
    hide Tree, NoLostWakeup, ForksOk, Pids;
    BenignKeeps(m, t, t');
  }

  lemma MoveBenign(m: Limits, t: Table, x: nat, p: Proc, e: End)
    requires Inv(m, t) && x < m.nproc && Benign(t.procs[x], p) && InRange(m, p, t.ticks) && m.IsList(ListOf(p))
    requires ListOf(t.procs[x]) in t.lists && ListOf(p) in t.lists
    ensures Inv(m, Move(t, x, p, e))
  {
    hide Listed, ProcsOk;
    assert |t.procs| == m.nproc by { InvPartition(m, t); }
    MovePartition(m, t, x, p, e);
    BenignSlot(m, t, Move(t, x, p, e), x, p);
  }

  lemma UpdateBenign(m: Limits, t: Table, x: nat, p: Proc)
    requires Inv(m, t) && x < |t.procs| && Benign(t.procs[x], p) && InRange(m, p, t.ticks)
    requires ListOf(p) == ListOf(t.procs[x])
    ensures Inv(m, Update(t, x, p))
  {
    hide Listed, ProcsOk;
    assert |t.procs| == m.nproc by { InvPartition(m, t); }
    UpdatePartition(m, t, x, p);
    BenignSlot(m, t, Update(t, x, p), x, p);
  }

  /** What the invariant says about one slot. */
  lemma SlotFacts(m: Limits, t: Table, x: nat)
    requires Inv(m, t) && x < |t.procs|
    ensures |t.procs| == m.nproc && m.Valid() && ListOf(t.procs[x]) in t.lists
    ensures InRange(m, t.procs[x], t.ticks)
    ensures forall id :: id in t.lists <==> m.IsList(id)
  {
    hide Tree, NoLostWakeup, ForksOk, Pids, GoodList;
  }

  lemma YieldKeeps(m: Limits, t: Table, x: nat)
    requires Inv(m, t) && CanRun(t, x) && t.procs[x].prio <= m.maxPrio
    ensures Inv(m, Yield(m, t, x))
  {
    hide Inv, Listed, Move;
    SlotFacts(m, t, x);
    MoveBenign(m, t, x, Charge(m, t.procs[x], t.ticks).(state := RUNNABLE), Tail);
  }

  lemma SleepKeeps(m: Limits, t: Table, x: nat, id: nat)
    requires Inv(m, t) && CanRun(t, x)
    ensures Inv(m, Sleep(m, t, x, OtherChan(id)))
  {
    hide Inv, Listed, Move;
    SlotFacts(m, t, x);
    MoveBenign(m, t, x, Charge(m, t.procs[x], t.ticks).(state := SLEEPING, chan := OtherChan(id)), Head);
  }

  lemma WakeupKeeps(m: Limits, t: Table, chan: Chan)
    requires Inv(m, t)
    ensures SleepL in t.lists && Inv(m, Wakeup1(t, chan))
  {
    hide Tree, NoLostWakeup, ForksOk, Pids, Listed;
    SleepersHaveLists(m, t);
    WakeupPartition(m, t, chan);
    BenignKeeps(m, t, Wakeup1(t, chan));
  }

  lemma PromoteKeeps(m: Limits, t: Table)
    requires Inv(m, t)
    ensures Inv(m, Promote(m, t))
  {
    hide Tree, NoLostWakeup, ForksOk, Pids, Listed;
    PromotePartition(m, t);
    BenignKeeps(m, t, Promote(m, t));
  }

  lemma ReadyHead(m: Limits, t: Table, k: nat)
    requires Inv(m, t) && k <= m.maxPrio && ReadyL(k) in t.lists && t.lists[ReadyL(k)] != []
    ensures t.lists[ReadyL(k)][0] < |t.procs| && ListOf(t.procs[t.lists[ReadyL(k)][0]]) == ReadyL(k)
  {
    assert GoodList(t.procs, t.lists[ReadyL(k)], ReadyL(k), {});
  }

  lemma DispatchKeeps(m: Limits, t: Table)
    requires Inv(m, t)
    ensures Inv(m, Dispatch(m, t))
  {
    InvPartition(m, t);
    var r := FirstReady(m, t.lists, 0);
    if r.Some? {
      ReadyHead(m, t, r.value);
      hide Inv, Listed, Move;
      var x := t.lists[ReadyL(r.value)][0];
      SlotFacts(m, t, x);
      MoveBenign(m, t, x, t.procs[x].(state := RUNNING, cpuIn := t.ticks, chan := NoChan), Head);
    }
  }

  lemma ScheduleKeeps(m: Limits, t: Table)
    requires Inv(m, t)
    ensures Inv(m, Schedule(m, t))
  {
    hide Inv, Listed;
    InvPartition(m, t);
    PromoteKeeps(m, t);
    PromotePartition(m, t);
    DispatchKeeps(m, if t.promoteAt <= t.ticks then Promote(m, t) else t);
  }

  lemma InvPartition(m: Limits, t: Table)
    requires Inv(m, t)
    ensures m.Valid() && Partition(m, t) && |t.procs| == m.nproc
  {
  }

  lemma KillKeeps(m: Limits, t: Table, pid: int)
    requires Inv(m, t)
    ensures Inv(m, Kill(m, t, pid).1)
  {
    SleepersHaveLists(m, t);
    InvPartition(m, t);
    hide Inv, Listed, Move;
    var r := FindPid(t.procs, pid, true);
    if r.Some? {
      var x := r.value;
      var p := t.procs[x].(killed := true);
      SlotFacts(m, t, x);
      if p.state == SLEEPING {
        MoveBenign(m, t, x, p.(state := RUNNABLE), Tail);
      } else {
        UpdateBenign(m, t, x, p);
      }
    }
  }

  lemma SetPriorityKeeps(m: Limits, t: Table, pid: int, prio: int)
    requires Inv(m, t)
    ensures Inv(m, SetPriority(m, t, pid, prio).1)
  {
    InvPartition(m, t);
    hide Inv, Listed, Move;
    if 0 <= prio <= m.maxPrio && 0 <= pid {
      var r := FindPid(t.procs, pid, false);
      if r.Some? {
        var x := r.value;
        var p := t.procs[x].(prio := prio, budget := m.budget);
        SlotFacts(m, t, x);
        if p.state == RUNNABLE && t.procs[x].prio != prio {
          MoveBenign(m, t, x, p, Tail);
        } else {
          UpdateBenign(m, t, x, p);
        }
      }
    }
  }

  // -------------------------------------------------------------------- fork

  lemma AllocTree(procs: seq<Proc>, init: nat, c: nat, p: Proc)
    requires Tree(procs, init) && c < |procs| && procs[c].state == UNUSED
    requires p.state == EMBRYO && p.parent == procs[c].parent
    ensures Tree(procs[c := p], init)
  {
    assert InTree(procs, procs[c]);
    forall i | 0 <= i < |procs| && i != init && i != c ensures InTree(procs[c := p], procs[i]) {
      assert InTree(procs, procs[i]);
    }
  }

  lemma AllocForks(m: Limits, procs: seq<Proc>, forks: map<nat, Fork>, x: nat, c: nat, p: Proc)
    requires ForksOk(m, procs, forks) && c < |procs| && procs[c].state == UNUSED && procs[c].parent == None
    requires x < |procs| && procs[x].state == RUNNING && x !in forks && procs[x].pid < p.pid
    requires p.state == EMBRYO && p.parent == None
    ensures ForksOk(m, procs[c := p], forks[x := Fork(c, false)])
  {
    var procs', forks' := procs[c := p], forks[x := Fork(c, false)];
    forall y | y in forks' ensures ForkOk(m, procs', y, forks'[y]) {
      assert y in forks ==> ForkOk(m, procs, y, forks[y]);
    }
    forall d | 0 <= d < |procs'| && procs'[d].state == EMBRYO ensures exists y :: y in forks' && forks'[y].child == d {
      if d == c {
        assert x in forks' && forks'[x].child == c;
      } else {
        var y :| y in forks && forks[y].child == d;
        assert y in forks' && forks'[y].child == d;
      }
    }
  }

  /** Changing a slot that is nobody's concern in wait. */
  lemma QuietSlot(procs: seq<Proc>, c: nat, p: Proc)
    requires NoLostWakeup(procs) && c < |procs| && !InWait(p)
    requires procs[c].parent == None
    requires p.parent.Some? ==> p.state != ZOMBIE
    ensures NoLostWakeup(procs[c := p])
  {
    var procs' := procs[c := p];
    forall i | 0 <= i < |procs'| && InWait(procs'[i])
      ensures procs'[i].chan.slot == i
      ensures forall z | 0 <= z < |procs'| && ChildOf(procs'[z], i) :: procs'[z].state != ZOMBIE
      ensures exists d | 0 <= d < |procs'| :: ChildOf(procs'[d], i)
    {
      assert InWait(procs[i]);
      var d :| 0 <= d < |procs| && ChildOf(procs[d], i);
      assert ChildOf(procs'[d], i);
    }
  }

  lemma RangesSlot(m: Limits, procs: seq<Proc>, ticks: nat, c: nat, p: Proc)
    requires Ranges(m, procs, ticks) && c < |procs| && InRange(m, p, ticks)
    ensures Ranges(m, procs[c := p], ticks)
  {
  }

  /** A slot keeps its pid, or gets the next one. */
  lemma PidsSlot(procs: seq<Proc>, nextpid: nat, c: nat, p: Proc)
    requires Pids(procs, nextpid) && c < |procs| && 1 <= nextpid
    requires p.pid == procs[c].pid || p.pid == nextpid
    requires p.state != UNUSED && p.pid != nextpid ==> procs[c].state != UNUSED
    ensures Pids(procs[c := p], if p.pid == nextpid then nextpid + 1 else nextpid)
  {
  }

  /** What the invariant says about a slot on the free list. */
  lemma FreeFacts(m: Limits, t: Table, x: nat)
    requires Inv(m, t) && CanRun(t, x) && FreeL in t.lists && t.lists[FreeL] != []
    ensures var c := t.lists[FreeL][0];
      c < |t.procs| && t.procs[c].state == UNUSED && t.procs[c].parent == None
    ensures t.procs[x].pid < t.nextpid && 1 <= t.nextpid && |t.procs| == m.nproc
    ensures FreeL in t.lists && EmbryoL in t.lists
  {
    hide NoLostWakeup, ForksOk, Ranges;
    assert GoodList(t.procs, t.lists[FreeL], FreeL, {});
    assert InTree(t.procs, t.procs[t.lists[FreeL][0]]);
  }

  /** Every pid in the table was given before nextpid, also where the slot is free again. */
  lemma PidsBelow(m: Limits, t: Table)
    requires Inv(m, t)
    ensures forall i | 0 <= i < |t.procs| :: t.procs[i].pid < t.nextpid
  {
  }

  lemma ForkAllocKeeps(m: Limits, t: Table, x: nat)
    requires Inv(m, t) && CanRun(t, x) && x !in t.forks && FreeL in t.lists && t.lists[FreeL] != []
    ensures Inv(m, ForkAlloc(m, t, x).value)
    ensures var u := ForkAlloc(m, t, x).value; var f := u.forks[x];
      && f.child < |u.procs| && u.procs[f.child].state == EMBRYO && u.procs[f.child].pid < u.nextpid
      && forall i | 0 <= i < |t.procs| :: t.procs[i].pid < u.procs[f.child].pid
  {
    hide Listed, Ranges, Pids, Tree, ForksOk, NoLostWakeup;
    PidsBelow(m, t);
    FreeFacts(m, t, x);
    var c := t.lists[FreeL][0];
    var p := t.procs[c].(state := EMBRYO, pid := t.nextpid);
    MovePartition(m, t, c, p, Head);
    RangesSlot(m, t.procs, t.ticks, c, p);
    PidsSlot(t.procs, t.nextpid, c, p);
    AllocTree(t.procs, t.initproc, c, p);
    AllocForks(m, t.procs, t.forks, x, c, p);
    QuietSlot(t.procs, c, p);
  }

  /** What the invariant says about a fork in progress. */
  lemma ForkFacts(m: Limits, t: Table, x: nat)
    requires Inv(m, t) && CanRun(t, x) && x in t.forks
    ensures Forking(t, x) && |t.procs| == m.nproc && 1 <= t.nextpid && m.Valid()
    ensures var f := t.forks[x]; var p := t.procs[f.child];
      && t.procs[x].pid < p.pid < t.nextpid
      && if f.ready then p.parent == Some(x) && p.prio == 0 && p.budget == m.budget else p.parent == None
    ensures FreeL in t.lists && EmbryoL in t.lists && ReadyL(0) in t.lists && m.IsList(ReadyL(0))
  {
    hide NoLostWakeup, Tree, Ranges;
    assert ForkOk(m, t.procs, x, t.forks[x]);
  }

  lemma ForkFailKeeps(m: Limits, t: Table, x: nat)
    requires Inv(m, t) && CanRun(t, x) && x in t.forks && !t.forks[x].ready
    ensures Forking(t, x) && Inv(m, ForkFail(m, t, x))
  {
    hide Listed, Ranges, Pids, Tree, ForksOk, NoLostWakeup;
    ForkFacts(m, t, x);
    var c := t.forks[x].child;
    var p := t.procs[c].(state := UNUSED);
    MovePartition(m, t, c, p, Head);
    RangesSlot(m, t.procs, t.ticks, c, p);
    PidsSlot(t.procs, t.nextpid, c, p);
    QuietSlot(t.procs, c, p);
    EmbryoTree(t.procs, t.initproc, c, p);
    DropFork(m, t.procs, t.forks, x, p);
  }

  /** An EMBRYO changes; nobody is its child. */
  lemma EmbryoTree(procs: seq<Proc>, init: nat, c: nat, p: Proc)
    requires Tree(procs, init) && c < |procs| && procs[c].state == EMBRYO
    requires InTree(procs, p)
    ensures Tree(procs[c := p], init)
  {
    var procs' := procs[c := p];
    forall i | 0 <= i < |procs'| && i != init ensures InTree(procs', procs'[i]) {
      if i != c {
        assert InTree(procs, procs[i]);
      }
    }
  }

  lemma DropFork(m: Limits, procs: seq<Proc>, forks: map<nat, Fork>, x: nat, p: Proc)
    requires ForksOk(m, procs, forks) && x in forks && p.state != EMBRYO
    ensures ForksOk(m, procs[forks[x].child := p], forks - {x})
  {
    var c := forks[x].child;
    var procs', forks' := procs[c := p], forks - {x};
    assert ForkOk(m, procs, x, forks[x]);
    forall y | y in forks' ensures ForkOk(m, procs', y, forks'[y]) {
      assert ForkOk(m, procs, y, forks[y]);
    }
    forall d | 0 <= d < |procs'| && procs'[d].state == EMBRYO ensures exists y :: y in forks' && forks'[y].child == d {
      assert d != c && procs[d].state == EMBRYO;
      var y :| y in forks && forks[y].child == d;
      assert y in forks' && forks'[y].child == d;
    }
  }

  lemma SetupForks(m: Limits, procs: seq<Proc>, forks: map<nat, Fork>, x: nat, p: Proc)
    requires ForksOk(m, procs, forks) && x in forks
    requires p == procs[forks[x].child].(budget := m.budget, prio := 0, parent := Some(x))
    ensures ForksOk(m, procs[forks[x].child := p], forks[x := Fork(forks[x].child, true)])
  {
    var c := forks[x].child;
    var procs', forks' := procs[c := p], forks[x := Fork(c, true)];
    assert ForkOk(m, procs, x, forks[x]);
    forall y | y in forks' ensures ForkOk(m, procs', y, forks'[y]) {
      assert ForkOk(m, procs, y, forks[y]);
    }
    forall d | 0 <= d < |procs'| && procs'[d].state == EMBRYO ensures exists y :: y in forks' && forks'[y].child == d {
      assert procs[d].state == EMBRYO;
      var y :| y in forks && forks[y].child == d;
      assert y in forks' && forks'[y].child == d;
    }
  }

  lemma ForkSetupKeeps(m: Limits, t: Table, x: nat)
    requires Inv(m, t) && CanRun(t, x) && x in t.forks && !t.forks[x].ready
    ensures Forking(t, x) && Inv(m, ForkSetup(m, t, x))
  {
    hide Listed, Ranges, Pids, Tree, ForksOk, NoLostWakeup;
    ForkFacts(m, t, x);
    var c := t.forks[x].child;
    var p := t.procs[c].(budget := m.budget, prio := 0, parent := Some(x));
    UpdatePartition(m, t, c, p);
    RangesSlot(m, t.procs, t.ticks, c, p);
    PidsSlot(t.procs, t.nextpid, c, p);
    QuietSlot(t.procs, c, p);
    EmbryoTree(t.procs, t.initproc, c, p);
    SetupForks(m, t.procs, t.forks, x, p);
  }

  /** The child of a fork, now RUNNABLE, may be waited for. */
  lemma BornSlot(procs: seq<Proc>, c: nat, p: Proc)
    requires NoLostWakeup(procs) && c < |procs| && !InWait(p) && procs[c].state != ZOMBIE
    requires p.parent == procs[c].parent && p.state != ZOMBIE
    ensures NoLostWakeup(procs[c := p])
  {
    var procs' := procs[c := p];
    forall i | 0 <= i < |procs'| && InWait(procs'[i])
      ensures procs'[i].chan.slot == i
      ensures forall z | 0 <= z < |procs'| && ChildOf(procs'[z], i) :: procs'[z].state != ZOMBIE
      ensures exists d | 0 <= d < |procs'| :: ChildOf(procs'[d], i)
    {
      assert InWait(procs[i]);
      var d :| 0 <= d < |procs| && ChildOf(procs[d], i);
      assert ChildOf(procs'[d], i);
    }
  }

  lemma ForkFinishKeeps(m: Limits, t: Table, x: nat)
    requires Inv(m, t) && CanRun(t, x) && x in t.forks && t.forks[x].ready
    ensures Forking(t, x) && t.procs[t.forks[x].child].prio == 0 && Inv(m, ForkFinish(m, t, x))
  {
    hide Listed, Ranges, Pids, Tree, ForksOk, NoLostWakeup;
    ForkFacts(m, t, x);
    var c := t.forks[x].child;
    var p := t.procs[c].(state := RUNNABLE);
    MovePartition(m, t, c, p, Tail);
    RangesSlot(m, t.procs, t.ticks, c, p);
    PidsSlot(t.procs, t.nextpid, c, p);
    BornSlot(t.procs, c, p);
    EmbryoTree(t.procs, t.initproc, c, p);
    DropFork(m, t.procs, t.forks, x, p);
  }

  // -------------------------------------------------------------------- exit

  /** What exit leaves in a slot, woken and adopted. */
  function AfterAbandon(p: Proc, x: nat, parent: Chan, init: nat, zombies: bool): Proc {
    var q := if Woken(p, parent) then p.(state := RUNNABLE) else p;
    var r := Adopt(q, x, init);
    if zombies && Woken(r, ProcChan(init)) then r.(state := RUNNABLE) else r
  }

  lemma AbandonProcs(t: Table, x: nat)
    requires x < |t.procs| && SleepL in t.lists
    ensures var a := Abandon(t, x);
      && |a.procs| == |t.procs|
      && forall i | 0 <= i < |t.procs| ::
        a.procs[i] == AfterAbandon(t.procs[i], x, ParentChan(t.procs[x]), t.initproc, HasZombieChild(t.procs, x))
  {
    var woken := Wakeup1(t, ParentChan(t.procs[x]));
    assert HasZombieChild(woken.procs, x) == HasZombieChild(t.procs, x) by {
      assert forall i | 0 <= i < |t.procs| ::
        woken.procs[i].parent == t.procs[i].parent && (woken.procs[i].state == ZOMBIE <==> t.procs[i].state == ZOMBIE);
    }
  }

  lemma SameLists(m: Limits, procs: seq<Proc>, procs': seq<Proc>, lists: Lists)
    requires Listed(m, procs, lists, {}) && |procs| == |procs'|
    requires forall i | 0 <= i < |procs| :: ListOf(procs'[i]) == ListOf(procs[i])
    ensures Listed(m, procs', lists, {})
  {
    forall id | id in lists ensures GoodList(procs', lists[id], id, {}) {
      assert GoodList(procs, lists[id], id, {});
    }
  }

  lemma AbandonPartition(m: Limits, t: Table, x: nat)
    requires Partition(m, t) && x < |t.procs| && SleepL in t.lists
    requires forall i | 0 <= i < |t.procs| && t.procs[i].state == SLEEPING :: t.procs[i].prio <= m.maxPrio
    ensures Partition(m, Abandon(t, x))
  {
    hide Listed;
    var woken := Wakeup1(t, ParentChan(t.procs[x]));
    WakeupPartition(m, t, ParentChan(t.procs[x]));
    var adopted := woken.(procs := Reparent(woken.procs, x, t.initproc));
    SameLists(m, woken.procs, adopted.procs, woken.lists);
    if HasZombieChild(woken.procs, x) {
      WakeupPartition(m, adopted, ProcChan(t.initproc));
    }
  }

  /** The processes before and after x has exited. */
  ghost predicate Exited(procs: seq<Proc>, procs': seq<Proc>, x: nat, init: nat) {
    && |procs'| == |procs| && x < |procs|
    && forall i | 0 <= i < |procs| ::
      var q := AfterAbandon(procs[i], x, ParentChan(procs[x]), init, HasZombieChild(procs, x));
      procs'[i] == if i == x then q.(state := ZOMBIE) else q
  }

  /** What exit does to any slot, x itself included. */
  predicate ExitSlot(p: Proc, q: Proc, x: nat, init: nat) {
    && q.pid == p.pid && q.prio == p.prio && q.budget == p.budget && q.cpuIn == p.cpuIn && q.chan == p.chan
    && q.parent == (if p.parent == Some(x) then Some(init) else p.parent)
    && (q.state == p.state || (p.state == SLEEPING && q.state == RUNNABLE))
  }

  lemma ExitedSlots(procs: seq<Proc>, procs': seq<Proc>, x: nat, init: nat)
    requires Exited(procs, procs', x, init)
    ensures |procs'| == |procs| && x < |procs|
    ensures forall i | 0 <= i < |procs| && i != x :: ExitSlot(procs[i], procs'[i], x, init)
    ensures procs'[x].state == ZOMBIE && ExitSlot(procs[x], procs'[x].(state := procs[x].state), x, init)
  {
    hide HasZombieChild;
  }

  lemma ExitTree(procs: seq<Proc>, procs': seq<Proc>, x: nat, init: nat, nextpid: nat)
    requires Tree(procs, init) && Pids(procs, nextpid) && Exited(procs, procs', x, init)
    requires procs[x].state == RUNNING && x != init
    ensures Tree(procs', init)
  {
    ExitedSlots(procs, procs', x, init);
    hide Exited;
    assert ExitSlot(procs[init], procs'[init], x, init);
    assert procs[init].parent == None;
    forall i | 0 <= i < |procs'| && i != init ensures InTree(procs', procs'[i]) {
      assert InTree(procs, procs[i]);
      assert procs[i].state != UNUSED ==> 1 < procs[i].pid;
      assert i != x ==> ExitSlot(procs[i], procs'[i], x, init);
      if procs[i].parent.Some? {
        var q := procs[i].parent.value;
        assert q != x ==> ExitSlot(procs[q], procs'[q], x, init);
      }
    }
  }

  /** Who still sleeps in wait is neither the parent of x nor, if x leaves zombies, init. */
  lemma ExitWoke(procs: seq<Proc>, procs': seq<Proc>, x: nat, init: nat, i: nat)
    requires Exited(procs, procs', x, init) && procs[x].state == RUNNING
    requires i < |procs'| && InWait(procs'[i]) && procs'[i].chan == ProcChan(i)
    ensures i != x && InWait(procs[i]) && procs'[i].chan == procs[i].chan
    ensures procs'[i].parent == Adopt(procs[i], x, init).parent
    ensures ParentChan(procs[x]) != ProcChan(i) && (HasZombieChild(procs, x) ==> i != init)
  {
    hide HasZombieChild;
  }

  lemma ExitWakeupOne(procs: seq<Proc>, procs': seq<Proc>, x: nat, init: nat, i: nat)
    requires Tree(procs, init) && NoLostWakeup(procs) && Exited(procs, procs', x, init)
    requires procs[x].state == RUNNING && x != init && i < |procs'| && InWait(procs'[i])
    ensures procs'[i].chan.slot == i
    ensures forall z | 0 <= z < |procs'| && ChildOf(procs'[z], i) :: procs'[z].state != ZOMBIE
    ensures exists d | 0 <= d < |procs'| :: ChildOf(procs'[d], i)
  {
    assert InTree(procs, procs[x]);
    ExitedSlots(procs, procs', x, init);
    assert i != x && InWait(procs[i]) && procs'[i].chan == procs[i].chan by {
      assert i != x ==> ExitSlot(procs[i], procs'[i], x, init);
    }
    ExitWoke(procs, procs', x, init, i);
    hide Exited, Tree;
    var d :| 0 <= d < |procs| && ChildOf(procs[d], i);
    assert ChildOf(procs'[d], i) by {
      assert d != x ==> ExitSlot(procs[d], procs'[d], x, init);
    }
    forall z | 0 <= z < |procs'| && ChildOf(procs'[z], i) ensures procs'[z].state != ZOMBIE {
      assert z != x ==> ExitSlot(procs[z], procs'[z], x, init);
      assert ChildOf(procs[z], i) || ChildOf(procs[z], x);
    }
  }

  lemma ExitWakeup(procs: seq<Proc>, procs': seq<Proc>, x: nat, init: nat)
    requires Tree(procs, init) && NoLostWakeup(procs) && Exited(procs, procs', x, init)
    requires procs[x].state == RUNNING && x != init
    ensures NoLostWakeup(procs')
  {
    hide Exited, Tree;
    forall i | 0 <= i < |procs'| && InWait(procs'[i])
      ensures procs'[i].chan.slot == i
      ensures forall z | 0 <= z < |procs'| && ChildOf(procs'[z], i) :: procs'[z].state != ZOMBIE
      ensures exists d | 0 <= d < |procs'| :: ChildOf(procs'[d], i)
    {
      ExitWakeupOne(procs, procs', x, init, i);
    }
  }

  lemma ExitForks(m: Limits, procs: seq<Proc>, procs': seq<Proc>, x: nat, init: nat, forks: map<nat, Fork>)
    requires ForksOk(m, procs, forks) && Exited(procs, procs', x, init)
    requires procs[x].state == RUNNING && x != init && x !in forks
    ensures ForksOk(m, procs', forks)
  {
    ExitedSlots(procs, procs', x, init);
    hide Exited;
    forall y | y in forks ensures ForkOk(m, procs', y, forks[y]) {
      assert ForkOk(m, procs, y, forks[y]);
      assert ExitSlot(procs[y], procs'[y], x, init) && ExitSlot(procs[forks[y].child], procs'[forks[y].child], x, init);
    }
    forall c | 0 <= c < |procs'| && procs'[c].state == EMBRYO ensures exists y :: y in forks && forks[y].child == c {
      assert c != x && ExitSlot(procs[c], procs'[c], x, init);
      assert procs[c].state == EMBRYO;
    }
  }

  lemma ExitPids(m: Limits, procs: seq<Proc>, procs': seq<Proc>, x: nat, init: nat, nextpid: nat, ticks: nat)
    requires Pids(procs, nextpid) && Ranges(m, procs, ticks) && Exited(procs, procs', x, init)
    requires procs[x].state == RUNNING
    ensures Pids(procs', nextpid) && Ranges(m, procs', ticks)
  {
    ExitedSlots(procs, procs', x, init);
    hide Exited;
    assert forall i | 0 <= i < |procs| :: procs'[i].pid == procs[i].pid;
  }

  lemma PartitionFacts(m: Limits, t: Table, x: nat)
    requires Partition(m, t) && x < |t.procs|
    ensures |t.procs| == m.nproc && ListOf(t.procs[x]) in t.lists
    ensures SleepL in t.lists && ZombieL in t.lists && FreeL in t.lists && m.IsList(ZombieL) && m.IsList(SleepL)
  {
    hide GoodList;
  }

  lemma ExitPartition(m: Limits, t: Table, x: nat)
    requires Partition(m, t) && x < |t.procs| && SleepL in t.lists && ZombieL in t.lists
    requires forall i | 0 <= i < |t.procs| && t.procs[i].state == SLEEPING :: t.procs[i].prio <= m.maxPrio
    ensures ListOf(Abandon(t, x).procs[x]) in Abandon(t, x).lists
    ensures Partition(m, Exit(t, x))
  {
    hide Abandon, Listed, Without;
    AbandonPartition(m, t, x);
    AbandonProcs(t, x);
    var a := Abandon(t, x);
    PartitionFacts(m, a, x);
    MovePartition(m, a, x, a.procs[x].(state := ZOMBIE), Head);
  }

  lemma ExitProcs(t: Table, x: nat)
    requires x < |t.procs| && SleepL in t.lists && ZombieL in t.lists
    requires ListOf(Abandon(t, x).procs[x]) in Abandon(t, x).lists
    ensures var t' := Exit(t, x);
      && Exited(t.procs, t'.procs, x, t.initproc)
      && t' == t.(procs := t'.procs, lists := t'.lists)
  {
    AbandonProcs(t, x);
    AbandonFields(t, x);
    hide Abandon;
  }

  lemma ExitKeeps(m: Limits, t: Table, x: nat)
    requires Inv(m, t) && CanRun(t, x) && x !in t.forks && x != t.initproc
    ensures SleepL in t.lists && ZombieL in t.lists && ListOf(Abandon(t, x).procs[x]) in Abandon(t, x).lists
    ensures Inv(m, Exit(t, x))
  {
    SleepersHaveLists(m, t);
    hide Listed, Ranges, Pids, Tree, ForksOk, NoLostWakeup, Abandon, Exit;
    PartitionFacts(m, t, x);
    ExitPartition(m, t, x);
    ExitProcs(t, x);
    var t' := Exit(t, x);
    hide Exited;
    ExitTree(t.procs, t'.procs, x, t.initproc, t.nextpid);
    ExitWakeup(t.procs, t'.procs, x, t.initproc);
    ExitForks(m, t.procs, t'.procs, x, t.initproc, t.forks);
    ExitPids(m, t.procs, t'.procs, x, t.initproc, t.nextpid, t.ticks);
  }

  lemma AbandonFields(t: Table, x: nat)
    requires x < |t.procs| && SleepL in t.lists
    ensures var a := Abandon(t, x);
      a == t.(procs := a.procs, lists := a.lists) && a.lists.Keys == t.lists.Keys
  {
  }

  // -------------------------------------------------------------------- wait

  lemma ReapProcs(m: Limits, t: Table, c: nat)
    requires ProcsOk(m, t) && c < |t.procs| && t.procs[c].state == ZOMBIE
    requires t.procs[c].parent.Some? && t.procs[c].parent.value < |t.procs| && !InWait(t.procs[t.procs[c].parent.value])
    ensures ProcsOk(m, t.(procs := t.procs[c := Reap(t.procs[c])]))
  {
    hide Tree, NoLostWakeup, ForksOk, Ranges, Pids;
    ReapTree(t.procs, t.initproc, c);
    ReapWakeup(t.procs, c);
    ReapForks(m, t.procs, t.forks, c);
    RangesSlot(m, t.procs, t.ticks, c, Reap(t.procs[c]));
    ReapPids(t.procs, t.nextpid, c);
  }

  lemma ReapPids(procs: seq<Proc>, nextpid: nat, c: nat)
    requires Pids(procs, nextpid) && c < |procs| && procs[c].state == ZOMBIE
    ensures Pids(procs[c := Reap(procs[c])], nextpid)
  {
  }

  lemma ReapTree(procs: seq<Proc>, init: nat, c: nat)
    requires Tree(procs, init) && c < |procs| && procs[c].state == ZOMBIE
    ensures Tree(procs[c := Reap(procs[c])], init)
  {
    var procs' := procs[c := Reap(procs[c])];
    forall i | 0 <= i < |procs'| && i != init ensures InTree(procs', procs'[i]) {
      assert InTree(procs, procs[i]);
    }
  }

  lemma ReapWakeup(procs: seq<Proc>, c: nat)
    requires NoLostWakeup(procs) && c < |procs| && procs[c].state == ZOMBIE
    requires procs[c].parent.Some? && procs[c].parent.value < |procs| && !InWait(procs[procs[c].parent.value])
    ensures NoLostWakeup(procs[c := Reap(procs[c])])
  {
    var procs' := procs[c := Reap(procs[c])];
    forall i | 0 <= i < |procs'| && InWait(procs'[i])
      ensures procs'[i].chan.slot == i
      ensures forall z | 0 <= z < |procs'| && ChildOf(procs'[z], i) :: procs'[z].state != ZOMBIE
      ensures exists d | 0 <= d < |procs'| :: ChildOf(procs'[d], i)
    {
      assert InWait(procs[i]);
      var d :| 0 <= d < |procs| && ChildOf(procs[d], i);
      assert ChildOf(procs'[d], i);
    }
  }

  lemma ReapForks(m: Limits, procs: seq<Proc>, forks: map<nat, Fork>, c: nat)
    requires ForksOk(m, procs, forks) && c < |procs| && procs[c].state == ZOMBIE
    ensures ForksOk(m, procs[c := Reap(procs[c])], forks)
  {
    var procs' := procs[c := Reap(procs[c])];
    forall y | y in forks ensures ForkOk(m, procs', y, forks[y]) {
      assert ForkOk(m, procs, y, forks[y]);
    }
    forall d | 0 <= d < |procs'| && procs'[d].state == EMBRYO ensures exists y :: y in forks && forks[y].child == d {
      assert procs[d].state == EMBRYO;
    }
  }

  /** x goes to sleep in wait: it has a child, and none of its children is a zombie. */
  lemma EnterWait(procs: seq<Proc>, x: nat, p: Proc)
    requires NoLostWakeup(procs) && x < |procs| && procs[x].state == RUNNING
    requires p.parent == procs[x].parent && p.state == SLEEPING && p.chan == ProcChan(x)
    requires !HasZombieChild(procs, x) && HasLiveChild(procs, x)
    ensures NoLostWakeup(procs[x := p])
  {
    var procs' := procs[x := p];
    forall i | 0 <= i < |procs'| && InWait(procs'[i])
      ensures procs'[i].chan.slot == i
      ensures forall z | 0 <= z < |procs'| && ChildOf(procs'[z], i) :: procs'[z].state != ZOMBIE
      ensures exists d | 0 <= d < |procs'| :: ChildOf(procs'[d], i)
    {
      if i == x {
        var d :| 0 <= d < |procs| && procs[d].parent == Some(x);
        assert ChildOf(procs'[d], i);
      } else {
        assert InWait(procs[i]);
        var d :| 0 <= d < |procs| && ChildOf(procs[d], i);
        assert ChildOf(procs'[d], i);
      }
    }
  }

  lemma SleepProcs(m: Limits, t: Table, x: nat, p: Proc)
    requires ProcsOk(m, t) && CanRun(t, x) && x !in t.forks
    requires p.pid == t.procs[x].pid && p.parent == t.procs[x].parent && p.state == SLEEPING && p.chan == ProcChan(x)
    requires InRange(m, p, t.ticks) && !HasZombieChild(t.procs, x) && HasLiveChild(t.procs, x)
    ensures ProcsOk(m, t.(procs := t.procs[x := p]))
  {
    hide Tree, ForksOk, NoLostWakeup, Ranges, HasZombieChild, HasLiveChild;
    EnterWait(t.procs, x, p);
    RangesSlot(m, t.procs, t.ticks, x, p);
    // As far as the tree and the forks are concerned, x sleeps on something else.
    var q := p.(chan := OtherChan(0));
    BenignSlot(m, t, t.(procs := t.procs[x := q]), x, q);
    WaitTree(t.procs[x := q], t.procs[x := p], t.initproc, x);
    WaitForks(m, t.procs[x := q], t.procs[x := p], t.forks, x);
  }

  lemma WaitTree(procs: seq<Proc>, procs': seq<Proc>, init: nat, x: nat)
    requires Tree(procs, init) && x < |procs| && procs' == procs[x := procs[x].(chan := ProcChan(x))]
    ensures Tree(procs', init)
  {
    forall i | 0 <= i < |procs'| && i != init ensures InTree(procs', procs'[i]) {
      assert InTree(procs, procs[i]);
    }
  }

  lemma WaitForks(m: Limits, procs: seq<Proc>, procs': seq<Proc>, forks: map<nat, Fork>, x: nat)
    requires ForksOk(m, procs, forks) && x < |procs| && x !in forks
    requires procs' == procs[x := procs[x].(chan := ProcChan(x))]
    ensures ForksOk(m, procs', forks)
  {
    forall y | y in forks ensures ForkOk(m, procs', y, forks[y]) {
      assert ForkOk(m, procs, y, forks[y]);
    }
    forall c | 0 <= c < |procs'| && procs'[c].state == EMBRYO ensures exists y :: y in forks && forks[y].child == c {
      assert procs[c].state == EMBRYO;
    }
  }

  /** The zombie list is where the zombie children are. */
  lemma ZombieChildListed(m: Limits, t: Table, x: nat)
    requires Partition(m, t)
    ensures ZombieL in t.lists
    ensures FirstChild(t.procs, t.lists[ZombieL], x).Some? <==> HasZombieChild(t.procs, x)
    ensures FirstChild(t.procs, t.lists[ZombieL], x).Some? ==>
      t.procs[FirstChild(t.procs, t.lists[ZombieL], x).value].state == ZOMBIE
  {
    hide NoDup;
    assert GoodList(t.procs, t.lists[ZombieL], ZombieL, {});
    if HasZombieChild(t.procs, x) {
      var i :| 0 <= i < |t.procs| && t.procs[i].parent == Some(x) && t.procs[i].state == ZOMBIE;
      assert i in t.lists[ZombieL];
    }
  }

  lemma ReapKeeps(m: Limits, t: Table, x: nat, c: nat)
    requires Inv(m, t) && CanRun(t, x) && c < |t.procs| && t.procs[c].state == ZOMBIE && t.procs[c].parent == Some(x)
    requires ListOf(t.procs[c]) in t.lists && FreeL in t.lists
    ensures Inv(m, Move(t, c, Reap(t.procs[c]), Head))
  {
    hide Listed, ProcsOk, Without;
    InvPartition(m, t);
    MovePartition(m, t, c, Reap(t.procs[c]), Head);
    ReapProcs(m, t, c);
    ProcsOnly(m, t.(procs := t.procs[c := Reap(t.procs[c])]), Move(t, c, Reap(t.procs[c]), Head));
  }

  lemma WaitSleepKeeps(m: Limits, t: Table, x: nat)
    requires Inv(m, t) && CanRun(t, x) && x !in t.forks && !HasZombieChild(t.procs, x) && HasLiveChild(t.procs, x)
    ensures Inv(m, Sleep(m, t, x, ProcChan(x)))
  {
    hide Listed, ProcsOk, Without, HasZombieChild, HasLiveChild;
    InvPartition(m, t);
    SlotFacts(m, t, x);
    PartitionFacts(m, t, x);
    var p := Charge(m, t.procs[x], t.ticks).(state := SLEEPING, chan := ProcChan(x));
    MovePartition(m, t, x, p, Head);
    SleepProcs(m, t, x, p);
    ProcsOnly(m, t.(procs := t.procs[x := p]), Sleep(m, t, x, ProcChan(x)));
  }

  lemma WaitKeeps(m: Limits, t: Table, x: nat)
    requires Inv(m, t) && CanRun(t, x) && x !in t.forks
    ensures Inv(m, Wait(m, t, x).1)
  {
    hide Inv, Listed, Move, HasZombieChild, HasLiveChild, Sleep;
    InvPartition(m, t);
    ZombieChildListed(m, t, x);
    var r := FirstChild(t.procs, t.lists[ZombieL], x);
    if r.Some? {
      PartitionFacts(m, t, r.value);
      ReapKeeps(m, t, x, r.value);
    } else if HasLiveChild(t.procs, x) && !t.procs[x].killed {
      WaitSleepKeeps(m, t, x);
    }
  }

  lemma ProcsOnly(m: Limits, t: Table, t': Table)
    requires ProcsOk(m, t) && t' == t.(lists := t'.lists)
    ensures ProcsOk(m, t')
  {
  }
}
