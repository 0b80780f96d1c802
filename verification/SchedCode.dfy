// proc.c as it is written: the process table with its linked state lists,
// updated in place by loops over the lists, proved against SchedModel.

module SchedCode {
  import opened Common
  import opened SchedModel
  import opened SchedInvariant
  import opened SchedLists
  import opened SchedLoops
  import opened SchedTheorems

  /** kill on a table that obeys the invariant. */
  ghost function KillIn(m: Limits, t: Table, pid: int): (bool, Table)
    requires Inv(m, t)
  {
    InvPartition(m, t);
    SleepersHaveLists(m, t);
    SchedModel.Kill(m, t, pid)
  }

  class ProcTable {
    const m: Limits
    var procs: seq<Proc>
    var next: seq<int>
    var heads: map<ListId, int>
    var ticks: nat
    var promoteAt: nat
    var nextpid: nat
    var initproc: nat
    ghost var forks: map<nat, Fork>
    ghost var lists: Lists

    ghost function Abs(): Table
      reads this
    {
      Table(procs, lists, ticks, promoteAt, nextpid, initproc, forks)
    }

    ghost predicate Wired()
      reads this
    {
      |next| == |procs| && Linked(next, heads, lists)
    }

    ghost predicate Listed()
      reads this
    {
      Wired() && Partition(m, Abs())
    }

    ghost predicate Valid()
      reads this
    {
      Wired() && Inv(m, Abs())
    }

    // ------------------------------------------------ addhead, addtail, remove

    method AddHead(id: ListId, x: nat)
      requires Wired() && Apart(lists) && id in lists && x < |procs| && OffLists(lists, x)
      modifies `next, `heads, `lists
      ensures Wired() && Apart(lists)
      ensures lists == old(lists)[id := [x] + old(lists)[id]]
    {
      ChainPush(next, heads[id], lists[id], x);
      LinkedOthers(next, next[x := heads[id]], heads, lists, id, x, [x] + lists[id]);
      ApartAdd(lists, id, x, Head);
      next := next[x := heads[id]];
      heads := heads[id := x];
      lists := lists[id := [x] + lists[id]];
    }

    method AddTail(id: ListId, x: nat)
      requires Wired() && Apart(lists) && id in lists && x < |procs| && OffLists(lists, x)
      modifies `next, `heads, `lists
      ensures Wired() && Apart(lists)
      ensures lists == old(lists)[id := old(lists)[id] + [x]]
    {
      hide Linked, Apart, OffLists;
      ghost var s := lists[id];
      WalkStart(next, heads, lists, id);
      LinkedTail(next, heads, lists, id, x);
      ApartAdd(lists, id, x, Tail);
      if heads[id] == -1 {
        heads := heads[id := x];
        next := next[x := -1];
      } else {
        var current := heads[id];
        ghost var j := 0;
        WalkNext(next, heads, lists, id, j);
        while next[current] != -1
          invariant unchanged(this) && 0 <= j < |s|
          invariant current == s[j] && 0 <= current < |next| && next[current] == At(s, j + 1)
          decreases |s| - j
        {
          current := next[current];
          j := j + 1;
          WalkNext(next, heads, lists, id, j);
        }
        next := next[current := x];
        next := next[x := -1];
      }
      lists := lists[id := s + [x]];
    }

    /** remove's loop: the slot itself and the one before it. */
    method Seek(id: ListId, x: nat) returns (current: int, previous: int)
      requires Wired() && id in lists
      ensures current == if x in lists[id] then x else -1
      ensures x in lists[id] ==> var j := Count(lists[id], x); previous == if j == 0 then -1 else lists[id][j - 1]
    {
      hide Linked, Count;
      ghost var s, j := lists[id], 0;
      WalkStart(next, heads, lists, id);
      current, previous := heads[id], -1;
      while current != -1 && current != x
        invariant 0 <= j <= |s| && current == At(s, j) && previous == (if j == 0 then -1 else s[j - 1])
        invariant x !in s[..j]
        decreases |s| - j
      {
        WalkNext(next, heads, lists, id, j);
        previous := current;
        current := next[current];
        j := j + 1;
      }
      if current == x {
        CountAt(s, x, j);
      }
    }

    /** remove returns -1 exactly when the slot is not on the list. */
    method Remove(id: ListId, x: nat) returns (err: int)
      requires Wired() && Apart(lists) && id in lists && x < |procs|
      modifies `next, `heads, `lists
      ensures Wired() && Apart(lists)
      ensures err == if x in old(lists)[id] then 0 else -1
      ensures lists == old(lists)[id := Without(old(lists)[id], x)]
      ensures err == 0 ==> OffLists(lists, x)
    {
      hide Linked, Apart, OffLists, Without, Count;
      ghost var s := lists[id];
      WalkStart(next, heads, lists, id);
      ApartRemove(lists, id, x);
      assert x !in s ==> lists[id := Without(s, x)] == lists;
      if heads[id] == -1 {
        return -1;
      }
      if heads[id] == x {
        LinkedPop(next, heads, lists, id, x);
        heads := heads[id := next[x]];
        next := next[x := -1];
        lists := lists[id := Without(s, x)];
        return 0;
      }
      var current, previous := Seek(id, x);
      if current == -1 {
        return -1;
      }
      LinkedCut(next, heads, lists, id, Count(s, x));
      next := next[previous := next[current]];
      next := next[current := -1];
      lists := lists[id := Without(s, x)];
      err := 0;
    }

    /** A change of state: off the old list (never a panic), onto the new one. */
    method Transfer(x: nat, p: Proc, e: End)
      requires Listed() && x < |procs| && ListOf(p) in lists && ListOf(procs[x]) in lists
      modifies `procs, `next, `heads, `lists
      ensures Listed() && Abs() == Move(old(Abs()), x, p, e)
    {
      hide Partition, Linked, Apart, OffLists;
      ghost var t := Abs();
      PartitionSlot(m, t, x, p);
      var err := Remove(ListOf(procs[x]), x);
      assert err == 0;
      procs := procs[x := p];
      match e {
        case Head => AddHead(ListOf(p), x);
        case Tail => AddTail(ListOf(p), x);
      }
      MovePartition(m, t, x, p, e);
    }

    // ----------------------------------------------------------------- wakeup1

    method Wakeup1(chan: Chan)
      requires Listed() && SleepL in lists
      requires SleepersOk(m, procs)
      modifies `procs, `next, `heads, `lists
      ensures Listed() && Abs() == SchedModel.Wakeup1(old(Abs()), chan)
    {
      hide Partition, Linked, WokenTo;
      ghost var t, s, j := Abs(), lists[SleepL], 0;
      WalkStart(next, heads, lists, SleepL);
      var current := heads[SleepL];
      WokenStart(t, chan);
      while current != -1
        invariant j <= |s| && current == At(s, j)
        invariant Listed() && Abs() == WokenTo(t, chan, j)
        decreases |s| - j
      {
        WokenNext(m, t, chan, j);
        WokenWalk(t, chan, j);
        WalkNext(next, heads, lists, SleepL, |lists[SleepL]| - (|s| - j));
        var temp := next[current];
        if procs[current].chan == chan {
          assert procs[current].state == SLEEPING;
          assert ReadyL(procs[current].prio) in lists by { IsReadyList(m, t, procs[current].prio); }
          Transfer(current, procs[current].(state := RUNNABLE), Tail);
        }
        current := temp;
        j := j + 1;
      }
      WokenAll(m, t, chan);
    }

    // --------------------------------------------------------------- scheduler

    /** The sleep list or the running list: every priority goes up by one. */
    method AgeList(id: ListId)
      requires Listed() && (id == SleepL || id == RunningL) && id in lists
      modifies `procs
      ensures Listed() && Abs() == old(Abs()).(procs := Aged(old(procs), Elems(lists[id])))
    {
      hide Partition, Linked, Aged, Elems;
      ghost var t, s, j := Abs(), lists[id], 0;
      ListMembers(m, t, id);
      WalkStart(next, heads, lists, id);
      var current := heads[id];
      AgedStart(procs, s);
      while current != -1
        invariant j <= |s| && current == At(s, j)
        invariant Wired() && lists == t.lists && procs == Aged(t.procs, Elems(s[..j]))
        decreases |s| - j
      {
        AgedNext(t.procs, s, j);
        WalkNext(next, heads, lists, id, j);
        if procs[current].prio > 0 {
          procs := procs[current := procs[current].(prio := procs[current].prio - 1)];
        }
        current := next[current];
        j := j + 1;
      }
      assert s[..j] == s;
      AgedPartition(m, t, Elems(s)) by { ElemsState(m, t, id); }
    }

    method LiftLevel(i: nat, ghost t: Table)
      requires Partition(m, t) && 0 < i <= m.maxPrio && |t.procs| == m.nproc && ReadyL(i) in t.lists
      requires Listed() && Abs() == LiftedTo(t, PastSlots(t.procs, i), i, 0)
      modifies `procs, `next, `heads, `lists
      ensures Listed() && Abs() == LiftedTo(t, PastSlots(t.procs, i + 1), i + 1, 0)
    {
      hide Partition, Linked, LiftedTo, PastSlots, Elems;
      ghost var s, j := t.lists[ReadyL(i)], 0;
      LiftedWalk(t, PastSlots(t.procs, i), i, 0);
      WalkStart(next, heads, lists, ReadyL(i));
      var current := heads[ReadyL(i)];
      assert s[..0] == [] && PastSlots(t.procs, i) + Elems(s[..0]) == PastSlots(t.procs, i) by { ElemsNone(); }
      while current != -1
        invariant j <= |s| && current == At(s, j)
        invariant Listed() && Abs() == LiftedTo(t, PastSlots(t.procs, i) + Elems(s[..j]), i, j)
        decreases |s| - j
      {
        ghost var done := PastSlots(t.procs, i) + Elems(s[..j]);
        NotDone(m, t, i, j);
        LiftedNext(m, t, done, i, j);
        LiftedWalk(t, done, i, j);
        WalkNext(next, heads, lists, ReadyL(i), 0);
        var connect := next[current];
        assert procs[current].state == RUNNABLE;
        Transfer(current, procs[current].(prio := procs[current].prio - 1), Tail);
        current := connect;
        ElemsNext(PastSlots(t.procs, i), s, j);
        j := j + 1;
      }
      assert s[..j] == s;
      PastNext(m, t, i);
      LiftedLevel(t, PastSlots(t.procs, i + 1), i);
    }

    method Promote()
      requires Listed()
      modifies `procs, `next, `heads, `lists, `promoteAt
      ensures Listed() && Abs() == SchedModel.Promote(m, old(Abs()))
    {
      hide Partition, Linked, LiftedTo, Aged, Elems, PastSlots;
      ghost var t := Abs();
      ListsPresent(m, t);
      AgeList(SleepL);
      AgeList(RunningL);
      PastStart(m, t);
      LiftedStart(t, PastSlots(t.procs, 1));
      for i := 1 to m.maxPrio + 1
        invariant Listed() && Abs() == LiftedTo(t, PastSlots(t.procs, i), i, 0)
      {
        IsReadyList(m, t, i);
        LiftLevel(i, t);
      }
      LiftedAll(m, t);
      PromotePartition(m, t);
      promoteAt := ticks + m.promote;
    }

    /** One pass of the scheduler's loop; -1 when idle. */
    method Scheduler() returns (ran: int)
      requires Valid()
      modifies `procs, `next, `heads, `lists, `promoteAt
      ensures Valid() && Abs() == Schedule(m, old(Abs()))
      ensures ran >= 0 ==> CanRun(Abs(), ran)
      ensures ran < 0 ==> forall x | 0 <= x < |procs| :: procs[x].state != RUNNABLE
    {
      hide Inv, Partition, Linked, SchedModel.Promote, Move;
      ghost var t := Abs();
      InvPartition(m, t);
      ScheduleKeeps(m, t);
      if promoteAt <= ticks {
        Promote();
      }
      ran := DispatchFirst();
    }

    /** The head of the first non-empty ready list runs.  A process that slept
        clears its channel as it resumes, under the same lock. */
    method DispatchFirst() returns (ran: int)
      requires Listed()
      modifies `procs, `next, `heads, `lists
      ensures Listed() && Abs() == Dispatch(m, old(Abs()))
      ensures ran >= 0 ==> CanRun(Abs(), ran)
      ensures ran < 0 ==> forall x | 0 <= x < |procs| :: procs[x].state != RUNNABLE
    {
      hide Partition, Linked;
      ghost var t := Abs();
      ListsPresent(m, t);
      ReadyPresent(m, t);
      ran := -1;
      var i := 0;
      while i < m.maxPrio + 1
        invariant ran < 0 ==> i <= m.maxPrio + 1 && Listed() && Abs() == t
        invariant ran < 0 ==> forall k: nat | k < i :: ReadyL(k) in lists && lists[ReadyL(k)] == []
        invariant ran >= 0 ==> i > m.maxPrio && Listed() && Abs() == Dispatch(m, t) && CanRun(Abs(), ran)
      {
        WalkStart(next, heads, lists, ReadyL(i));
        if heads[ReadyL(i)] != -1 {
          var p := heads[ReadyL(i)];
          ReadyFacts(m, t, i, 0);
          assert procs[p].state == RUNNABLE;
          Transfer(p, procs[p].(state := RUNNING, cpuIn := ticks, chan := NoChan), Head);
          ran := p;
          i := m.maxPrio + 1;
        }
        i := i + 1;
      }
      if ran < 0 {
        NoneReady(m, t);
      }
    }

    // ------------------------------------------------------------ yield, sleep

    method ChargeTime(x: nat)
      requires x < |procs|
      modifies `procs
      ensures procs == old(procs)[x := Charge(m, old(procs)[x], ticks)]
    {
      var p := procs[x];
      p := p.(budget := p.budget - (ticks - p.cpuIn));
      if p.budget <= 0 {
        if p.prio != m.maxPrio {
          p := p.(prio := p.prio + 1);
        }
        p := p.(budget := m.budget);
      }
      procs := procs[x := p];
    }

    method Yield(x: nat)
      requires Valid() && CanRun(Abs(), x)
      modifies `procs, `next, `heads, `lists
      ensures Valid() && procs[x].prio <= m.maxPrio && Abs() == SchedModel.Yield(m, old(Abs()), x)
    {
      hide Inv, Partition, Linked, Apart, OffLists, Charge, Without;
      ghost var t := Abs();
      InvPartition(m, t);
      SlotFacts(m, t, x);
      YieldKeeps(m, t, x);
      PartitionSlot(m, t, x, t.procs[x]);
      var err := Remove(RunningL, x);
      assert err == 0;
      procs := procs[x := procs[x].(state := RUNNABLE)];
      ChargeTime(x);
      ChargeOther(m, t.procs[x], ticks, RUNNABLE, t.procs[x].chan);
      assert t.procs[x].(state := RUNNABLE, chan := t.procs[x].chan) == t.procs[x].(state := RUNNABLE);
      assert procs == t.procs[x := Charge(m, t.procs[x], ticks).(state := RUNNABLE)];
      AddTail(ReadyL(procs[x].prio), x);
    }

    method Sleep(x: nat, chan: Chan)
      requires Listed() && CanRun(Abs(), x)
      modifies `procs, `next, `heads, `lists
      ensures Listed() && Abs() == SchedModel.Sleep(m, old(Abs()), x, chan)
    {
      hide Partition, Linked, Apart, OffLists, Charge, Without;
      ghost var t := Abs();
      ListsPresent(m, t);
      PartitionSlot(m, t, x, t.procs[x]);
      procs := procs[x := procs[x].(chan := chan)];
      var err := Remove(RunningL, x);
      assert err == 0;
      procs := procs[x := procs[x].(state := SLEEPING)];
      ChargeTime(x);
      ChargeOther(m, t.procs[x], ticks, SLEEPING, chan);
      assert procs == t.procs[x := Charge(m, t.procs[x], ticks).(state := SLEEPING, chan := chan)];
      AddHead(SleepL, x);
      MovePartition(m, t, x, Charge(m, t.procs[x], ticks).(state := SLEEPING, chan := chan), Head);
    }

    // -------------------------------------------------------------------- fork

    /** allocproc's first critical section; -1 when no slot is free. */
    method AllocProc(x: nat) returns (c: int)
      requires Valid() && CanRun(Abs(), x) && x !in forks
      modifies `procs, `next, `heads, `lists, `nextpid, `forks
      ensures Valid()
      ensures c == -1 <==> old(Abs()).lists[FreeL] == []
      ensures Some(Abs()) == if c == -1 then Some(old(Abs())) else ForkAlloc(m, old(Abs()), x)
      ensures c >= 0 ==> forks[x] == Fork(c, false)
    {
      hide Inv, Partition, Linked, Move;
      ghost var t := Abs();
      InvPartition(m, t);
      ListsPresent(m, t);
      WalkStart(next, heads, lists, FreeL);
      if heads[FreeL] == -1 {
        return -1;
      }
      c := heads[FreeL];
      ForkAllocKeeps(m, t, x);
      ListMembers(m, t, FreeL);
      assert procs[c].state == UNUSED;
      Transfer(c, procs[c].(state := EMBRYO, pid := nextpid), Head);
      nextpid := nextpid + 1;
      forks := forks[x := Fork(c, false)];
    }

    method ForkFail(x: nat, c: nat)
      requires Valid() && CanRun(Abs(), x) && x in forks && forks[x] == Fork(c, false)
      modifies `procs, `next, `heads, `lists, `forks
      ensures Valid() && Forking(old(Abs()), x) && Abs() == SchedModel.ForkFail(m, old(Abs()), x)
    {
      hide Inv, Partition, Linked, Move;
      ghost var t := Abs();
      InvPartition(m, t);
      ListsPresent(m, t);
      ForkFailKeeps(m, t, x);
      Transfer(c, procs[c].(state := UNUSED), Head);
      forks := forks - {x};
    }

    method ForkSetup(x: nat, c: nat)
      requires Valid() && CanRun(Abs(), x) && x in forks && forks[x] == Fork(c, false)
      modifies `procs, `forks
      ensures Valid() && Forking(old(Abs()), x) && Abs() == SchedModel.ForkSetup(m, old(Abs()), x)
    {
      hide Inv, Linked;
      ForkSetupKeeps(m, Abs(), x);
      procs := procs[c := procs[c].(budget := m.budget, prio := 0, parent := Some(x))];
      forks := forks[x := Fork(c, true)];
    }

    method ForkFinish(x: nat, c: nat)
      requires Valid() && CanRun(Abs(), x) && x in forks && forks[x] == Fork(c, true)
      modifies `procs, `next, `heads, `lists, `forks
      ensures Valid() && Forking(old(Abs()), x) && old(Abs()).procs[c].prio == 0
      ensures Abs() == SchedModel.ForkFinish(m, old(Abs()), x)
    {
      hide Inv, Partition, Linked, Move;
      ghost var t := Abs();
      InvPartition(m, t);
      ListsPresent(m, t);
      ReadyPresent(m, t);
      ForkFinishKeeps(m, t, x);
      Transfer(c, procs[c].(state := RUNNABLE), Tail);
      forks := forks - {x};
    }

    // -------------------------------------------------------------------- exit

    /** Children of x on one list are passed to init. */
    method AdoptList(id: ListId, x: nat)
      requires Listed() && id in lists && x != initproc
      modifies `procs
      ensures Listed() && Abs() == old(Abs()).(procs := AdoptSome(old(procs), Elems(lists[id]), x, initproc))
    {
      hide SchedModel.Listed, Linked, AdoptSome, Elems;
      ghost var t, s, j := Abs(), lists[id], 0;
      ListMembers(m, t, id);
      WalkStart(next, heads, lists, id);
      var p := heads[id];
      AdoptStart(procs, s, x, initproc);
      while p != -1
        invariant j <= |s| && p == At(s, j)
        invariant Wired() && lists == t.lists && procs == AdoptSome(t.procs, Elems(s[..j]), x, initproc)
        decreases |s| - j
      {
        AdoptNext(t.procs, s, j, x, initproc);
        WalkNext(next, heads, lists, id, j);
        if procs[p].parent == Some(x) {
          procs := procs[p := procs[p].(parent := Some(initproc))];
        }
        p := next[p];
        j := j + 1;
      }
      assert s[..j] == s;
      SameLists(m, t.procs, procs, lists);
    }

    /** The zombie list: each child found also wakes init. */
    method AdoptZombies(x: nat, ghost t: Table, ghost done: set<nat>) returns (ghost found: bool)
      requires Partition(m, t) && SleepersOk(m, t.procs) && {SleepL, ZombieL} <= t.lists.Keys && x != t.initproc
      requires done !! Elems(t.lists[ZombieL])
      requires Listed() && Abs() == AdoptedTo(t, done, x, false)
      modifies `procs, `next, `heads, `lists
      ensures Listed() && Abs() == AdoptedTo(t, done + Elems(t.lists[ZombieL]), x, found)
      ensures found <==> ChildAmong(t.procs, t.lists[ZombieL], x)
    {
      hide Partition, Linked, AdoptedTo, AdoptSome, Elems, SleepersOk, ChildAmong;
      ghost var s, j := t.lists[ZombieL], 0;
      found := false;
      NoChildAmong(t.procs, s, x);
      ListMembers(m, t, ZombieL);
      AdoptedLists(t, done, x, false);
      WalkStart(next, heads, lists, ZombieL);
      var p := heads[ZombieL];
      assert s[..0] == [] && done + Elems(s[..0]) == done by { ElemsNone(); }
      while p != -1
        invariant j <= |s| && p == At(s, j)
        invariant Listed() && Abs() == AdoptedTo(t, done + Elems(s[..j]), x, found)
        invariant found <==> ChildAmong(t.procs, s[..j], x)
        decreases |s| - j
      {
        AdoptedZombie(m, t, done, s, j, x, found);
        ChildAmongNext(t.procs, s, j, x);
        AdoptedLists(t, done + Elems(s[..j + 1]), x, found);
        if procs[p].parent == Some(x) {
          procs := procs[p := procs[p].(parent := Some(initproc))];
          AdoptedWake(t, done + Elems(s[..j + 1]), x, found);
          Wakeup1(ProcChan(initproc));
          found := true;
          AdoptedLists(t, done + Elems(s[..j + 1]), x, true);
        }
        WalkNext(next, heads, lists, ZombieL, j);
        p := next[p];
        j := j + 1;
      }
      assert s[..j] == s;
    }

    /** Every child of x, on whatever list, is passed to init. */
    method AdoptAll(x: nat) returns (ghost found: bool)
      requires Listed() && SleepersOk(m, procs) && x != initproc
      requires {SleepL, ZombieL, RunningL, EmbryoL} <= lists.Keys
      modifies `procs, `next, `heads, `lists
      ensures Listed() && Abs() == AdoptedTo(old(Abs()), Everyone(old(Abs()), m.maxPrio + 1), x, found)
      ensures found <==> ChildAmong(old(procs), old(lists)[ZombieL], x)
    {
      hide Partition, Linked, AdoptedTo, AdoptSome, Elems, SleepersOk, ChildAmong, OnReady;
      ghost var t := Abs();
      ReadyPresent(m, t);
      AdoptedStart(t, x);
      for i := 0 to m.maxPrio + 1
        invariant Listed() && Abs() == AdoptedTo(t, OnReady(t.procs, i), x, false)
      {
        AdoptedLists(t, OnReady(t.procs, i), x, false);
        AdoptedMore(t, OnReady(t.procs, i), Elems(t.lists[ReadyL(i)]), x, false);
        OnReadyNext(m, t, i);
        AdoptList(ReadyL(i), x);
      }
      ghost var done := OnReady(t.procs, m.maxPrio + 1);
      AdoptedLists(t, done, x, false);
      AdoptedMore(t, done, Elems(t.lists[SleepL]), x, false);
      AdoptList(SleepL, x);
      done := done + Elems(t.lists[SleepL]);
      NoZombieYet(m, t);
      found := AdoptZombies(x, t, done);
      done := done + Elems(t.lists[ZombieL]);
      AdoptedLists(t, done, x, found);
      AdoptedMore(t, done, Elems(t.lists[RunningL]), x, found);
      AdoptList(RunningL, x);
      done := done + Elems(t.lists[RunningL]);
      AdoptedLists(t, done, x, found);
      AdoptedMore(t, done, Elems(t.lists[EmbryoL]), x, found);
      AdoptList(EmbryoL, x);
    }

    method Exit(x: nat)
      requires Valid() && CanRun(Abs(), x) && x !in forks && x != initproc
      modifies `procs, `next, `heads, `lists
      ensures Valid()
      ensures {SleepL, ZombieL} <= old(lists).Keys
      ensures ListOf(Abandon(old(Abs()), x).procs[x]) in Abandon(old(Abs()), x).lists
      ensures Abs() == SchedModel.Exit(old(Abs()), x)
    {
      hide Inv, Partition, Linked, AdoptedTo, SleepersOk, Everyone, ChildAmong, Abandon, Move;
      ghost var t := Abs();
      InvPartition(m, t);
      ExitPrep(m, t, ParentChan(t.procs[x]));
      ExitKeeps(m, t, x);
      Wakeup1(if procs[x].parent.Some? then ProcChan(procs[x].parent.value) else NoChan);
      ListsPresent(m, Abs());
      ghost var found := AdoptAll(x);
      ExitDone(m, t, x, found);
      AbandonRuns(t, x);
      assert procs[x].state == RUNNING;
      Transfer(x, procs[x].(state := ZOMBIE), Head);
    }

    // -------------------------------------------------------------------- wait

    /** The first child of x on one list, or -1. */
    method SearchChild(id: ListId, x: nat) returns (p: int)
      requires Listed() && id in lists
      ensures FirstChild(procs, lists[id], x) == if p == -1 then None else Some(p)
      ensures p == -1 || 0 <= p < |procs|
    {
      hide Partition, Linked, FirstChild;
      ghost var s, j := lists[id], 0;
      ListMembers(m, Abs(), id);
      WalkStart(next, heads, lists, id);
      assert s[0..] == s;
      p := heads[id];
      while p != -1
        invariant j <= |s| && p == At(s, j) && FirstChild(procs, s, x) == FirstChild(procs, s[j..], x)
        decreases |s| - j
      {
        FirstChildSkip(procs, s, j, x);
        WalkNext(next, heads, lists, id, j);
        if procs[p].parent == Some(x) {
          return;
        }
        p := next[p];
        j := j + 1;
      }
      assert s[j..] == [] && FirstChild(procs, [], x) == None by { NoFirstChild(procs, x); }
    }

    method HaveKids(x: nat) returns (havekids: bool)
      requires Listed() && {SleepL, RunningL, EmbryoL} <= lists.Keys
      ensures havekids <==> HasLiveChild(procs, x)
    {
      hide Partition, Linked, FirstChild, HasLiveChild;
      LiveChildListed(m, Abs(), x);
      var p := SearchChild(SleepL, x);
      havekids := p != -1;
      var i := 0;
      while i < m.maxPrio + 1 && !havekids
        invariant i <= m.maxPrio + 1
        invariant havekids ==> HasLiveChild(procs, x)
        invariant !havekids ==> FirstChild(procs, lists[SleepL], x).None?
        invariant !havekids ==> forall k: nat | k < i :: FirstChild(procs, lists[ReadyL(k)], x).None?
      {
        p := SearchChild(ReadyL(i), x);
        havekids := p != -1;
        i := i + 1;
      }
      if !havekids {
        p := SearchChild(RunningL, x);
        havekids := p != -1;
      }
      if !havekids {
        p := SearchChild(EmbryoL, x);
        havekids := p != -1;
      }
    }

    /** One pass of wait's loop. */
    method Wait(x: nat) returns (r: WaitResult)
      requires Valid() && CanRun(Abs(), x) && x !in forks
      modifies `procs, `next, `heads, `lists
      ensures Valid() && (r, Abs()) == SchedModel.Wait(m, old(Abs()), x)
    {
      hide Inv, Partition, Linked, FirstChild, HasLiveChild, Move, SchedModel.Sleep;
      ghost var t := Abs();
      InvPartition(m, t);
      ListsPresent(m, t);
      WaitKeeps(m, t, x);
      var p := SearchChild(ZombieL, x);
      if p != -1 {
        ListMembers(m, t, ZombieL);
        var pid := procs[p].pid;
        assert procs[p].state == ZOMBIE;
        Transfer(p, Reap(procs[p]), Head);
        return Reaped(pid);
      }
      var havekids := HaveKids(x);
      if !havekids || procs[x].killed {
        return NoChildren;
      }
      Sleep(x, ProcChan(x));
      r := Asleep;
    }

    // ------------------------------------------------------- kill, setpriority

    method SearchPid(id: ListId, pid: int) returns (p: int)
      requires Listed() && id in lists
      ensures p == -1 ==> NotOn(procs, lists[id], pid)
      ensures p != -1 ==> 0 <= p < |procs| && ListOf(procs[p]) == id && procs[p].pid == pid
    {
      hide Partition, Linked;
      ghost var s, j := lists[id], 0;
      ListMembers(m, Abs(), id);
      WalkStart(next, heads, lists, id);
      p := heads[id];
      while p != -1
        invariant j <= |s| && p == At(s, j) && forall i | 0 <= i < j :: procs[s[i]].pid != pid
        decreases |s| - j
      {
        WalkNext(next, heads, lists, id, j);
        if procs[p].pid == pid {
          return;
        }
        p := next[p];
        j := j + 1;
      }
    }

    /** The same search over the ready lists, highest priority first. */
    method SearchReady(pid: int) returns (p: int)
      requires Listed()
      ensures p == -1 ==> forall k: nat | k <= m.maxPrio :: ReadyL(k) in lists && NotOn(procs, lists[ReadyL(k)], pid)
      ensures p != -1 ==> 0 <= p < |procs| && procs[p].state == RUNNABLE && procs[p].pid == pid
    {
      hide Partition, Linked, NotOn;
      ReadyPresent(m, Abs());
      p := -1;
      var i := 0;
      while i < m.maxPrio + 1 && p == -1
        invariant i <= m.maxPrio + 1
        invariant p == -1 ==> forall k: nat | k < i :: NotOn(procs, lists[ReadyL(k)], pid)
        invariant p != -1 ==> 0 <= p < |procs| && procs[p].pid == pid && procs[p].state == RUNNABLE
      {
        p := SearchPid(ReadyL(i), pid);
        i := i + 1;
      }
    }

    /** kill returns 0 or -1. */
    method Kill(pid: int) returns (r: int)
      requires Valid()
      modifies `procs, `next, `heads, `lists
      ensures Valid() && (r == 0 || r == -1) && (r == 0, Abs()) == KillIn(m, old(Abs()), pid)
    {
      hide Inv, Partition, Linked, FindPid, NotOn, Move;
      ghost var t := Abs();
      InvPartition(m, t);
      ListsPresent(m, t);
      ReadyPresent(m, t);
      KillKeeps(m, t, pid);
      SleepersHaveLists(m, t);
      var p := SearchPid(SleepL, pid);
      if p != -1 {
        PidFound(m, t, p, true);
        assert procs[p].state == SLEEPING;
        Transfer(p, procs[p].(killed := true, state := RUNNABLE), Tail);
        return 0;
      }
      p := SearchPid(RunningL, pid);
      if p == -1 {
        p := SearchPid(EmbryoL, pid);
      }
      if p == -1 {
        p := SearchReady(pid);
      }
      if p == -1 {
        PidMissing(m, t, pid, true);
        return -1;
      }
      PidFound(m, t, p, true);
      procs := procs[p := procs[p].(killed := true)];
      r := 0;
    }

    method SetPriority(pid: int, priority: int) returns (r: int)
      requires Valid()
      modifies `procs, `next, `heads, `lists
      ensures Valid() && r == (if SchedModel.SetPriority(m, old(Abs()), pid, priority).0 then 0 else -1)
      ensures Abs() == SchedModel.SetPriority(m, old(Abs()), pid, priority).1
    {
      hide Inv, Partition, Linked, FindPid, NotOn, Move;
      ghost var t := Abs();
      InvPartition(m, t);
      if priority > m.maxPrio || priority < 0 || pid < 0 {
        return -1;
      }
      ListsPresent(m, t);
      ReadyPresent(m, t);
      SetPriorityKeeps(m, t, pid, priority);
      var p := SearchPid(SleepL, pid);
      if p == -1 {
        p := SearchPid(RunningL, pid);
      }
      if p != -1 {
        PidFound(m, t, p, false);
        procs := procs[p := procs[p].(prio := priority, budget := m.budget)];
        return 0;
      }
      p := SearchReady(pid);
      if p == -1 {
        PidMissing(m, t, pid, false);
        return -1;
      }
      PidFound(m, t, p, false);
      if procs[p].prio == priority {
        procs := procs[p := procs[p].(prio := priority, budget := m.budget)];
      } else {
        PartitionSlot(m, t, p, procs[p]);
        Transfer(p, procs[p].(prio := priority, budget := m.budget), Tail);
      }
      r := 0;
    }

    // ---------------------------------------------------------------- userinit

    /** All slots go on the free list in order; the first becomes init. */
    constructor (m: Limits, now: nat)
      requires m.Valid()
      ensures this.m == m && Valid() && Abs() == Booted(m, now)
    {
      this.m := m;
      procs := FreshProcs(m);
      next := seq(m.nproc, _ => -1);
      heads := map id | id in Ids(m) :: -1;
      lists := map id | id in Ids(m) :: [];
      ticks, promoteAt, nextpid, initproc, forks := now, now + m.promote, 1, 0, map[];
      new;
      Userinit(now);
    }

    /** Every slot is free; then init is made ready. */
    method Userinit(now: nat)
      requires m.Valid() && procs == FreshProcs(m) && next == seq(m.nproc, _ => -1)
      requires heads == (map id | id in Ids(m) :: -1) && lists == map id | id in Ids(m) :: []
      requires ticks == now && promoteAt == now + m.promote && nextpid == 1 && initproc == 0 && forks == map[]
      modifies this
      ensures Valid() && Abs() == Booted(m, now)
    {
      hide Ids, FreshProcs, Booted, Linked, Partition, Apart, Inv;
      FreshCount(m);
      EmptyLists(m, next, heads, lists);
      FillFree();
      StartInit();
      BootedInv(m, now);
    }

    /** Every slot in turn is added to the tail of the free list. */
    method FillFree()
      requires |procs| == m.nproc && FreeL in lists && lists[FreeL] == [] && Wired() && Apart(lists)
      requires forall id | id in lists :: lists[id] == []
      modifies `next, `heads, `lists
      ensures Wired() && lists == old(lists)[FreeL := Range(0, m.nproc)]
    {
      hide Linked, Apart;
      assert Range(0, 0) == [];
      for x := 0 to m.nproc
        invariant Wired() && Apart(lists) && lists == old(lists)[FreeL := Range(0, x)]
      {
        RangeNext(x);
        assert OffLists(lists, x);
        AddTail(FreeL, x);
      }
    }

    /** allocproc for init, then ready list 0 is init alone. */
    method StartInit()
      requires m.Valid() && Wired() && Fresh(m, Abs())
      modifies `procs, `next, `heads, `lists, `nextpid
      ensures Wired() && Abs() == Booted(m, ticks)
    {
      hide Fresh, Booted, Partition, Linked, Apart, OffLists, Inv;
      ghost var t := Abs();
      FreshPartition(m, t);
      BootLists(m, t);
      ListsPresent(m, t);
      WalkStart(next, heads, lists, FreeL);
      var p := heads[FreeL];
      Transfer(p, procs[p].(state := EMBRYO, pid := nextpid, budget := m.budget, prio := 0), Head);
      PartitionSlot(m, Abs(), p, procs[p]);
      nextpid := nextpid + 1;
      var err := Remove(EmbryoL, p);
      assert err == 0;
      procs := procs[p := procs[p].(state := RUNNABLE)];
      LinkedFirst(next, heads, lists, ReadyL(0), p);
      heads := heads[ReadyL(0) := p];
      next := next[p := -1];
      lists := lists[ReadyL(0) := [p]];
    }
  }

  lemma PartitionSlot(m: Limits, t: Table, x: nat, p: Proc)
    requires Partition(m, t) && x < |t.procs|
    ensures |t.procs| == m.nproc && Apart(t.lists) && ListOf(t.procs[x]) in t.lists && x in t.lists[ListOf(t.procs[x])]
    ensures ListOf(p) in t.lists ==> m.IsList(ListOf(p))
  {
    ListedApart(m, t.procs, t.lists, {});
  }

  lemma ListsPresent(m: Limits, t: Table)
    requires Partition(m, t)
    ensures {FreeL, EmbryoL, SleepL, RunningL, ZombieL} <= t.lists.Keys && |t.procs| == m.nproc
  {
  }

  lemma ReadyPresent(m: Limits, t: Table)
    requires Partition(m, t)
    ensures forall k: nat | k <= m.maxPrio :: ReadyL(k) in t.lists
  {
  }

  lemma NoneReady(m: Limits, t: Table)
    requires Partition(m, t) && forall k: nat | k <= m.maxPrio :: ReadyL(k) in t.lists && t.lists[ReadyL(k)] == []
    ensures forall x | 0 <= x < |t.procs| :: t.procs[x].state != RUNNABLE
  {
    forall x | 0 <= x < |t.procs| ensures t.procs[x].state != RUNNABLE {
      assert m.IsList(ListOf(t.procs[x])) && x in t.lists[ListOf(t.procs[x])];
    }
  }

  lemma ChargeOther(m: Limits, p: Proc, now: nat, st: PState, chan: Chan)
    ensures Charge(m, p.(state := st, chan := chan), now) == Charge(m, p, now).(state := st, chan := chan)
    ensures Charge(m, p, now).chan == p.chan && (p.prio <= m.maxPrio ==> Charge(m, p, now).prio <= m.maxPrio)
  {
  }

  lemma AbandonRuns(t: Table, x: nat)
    requires x < |t.procs| && SleepL in t.lists && t.procs[x].state == RUNNING
    ensures |Abandon(t, x).procs| == |t.procs| && Abandon(t, x).procs[x].state == RUNNING
    ensures Abandon(t, x).lists.Keys == t.lists.Keys
  {
  }

  lemma NoFirstChild(procs: seq<Proc>, x: nat)
    ensures FirstChild(procs, [], x) == None
  {
  }

  lemma RangeNext(x: nat)
    ensures Range(0, x + 1) == Range(0, x) + [x]
  {
  }

  lemma FreshCount(m: Limits)
    ensures |FreshProcs(m)| == m.nproc
  {
  }

  lemma EmptyLists(m: Limits, next: seq<int>, heads: map<ListId, int>, lists: Lists)
    requires heads == (map id | id in Ids(m) :: -1) && lists == (map id | id in Ids(m) :: [])
    ensures Linked(next, heads, lists) && Apart(lists) && FreeL in lists && forall id | id in lists :: lists[id] == []
  {
  }

  /** The table before init exists: every slot is unused and on the free list. */
  ghost predicate Fresh(m: Limits, t: Table) {
    && t.procs == FreshProcs(m) && t.lists.Keys == Ids(m)
    && (forall id | id in t.lists :: t.lists[id] == if id == FreeL then Range(0, m.nproc) else [])
    && t.promoteAt == t.ticks + m.promote && t.nextpid == 1 && t.initproc == 0 && t.forks == map[]
  }

  lemma FreshPartition(m: Limits, t: Table)
    requires m.Valid() && Fresh(m, t)
    ensures Partition(m, t)
  {
    hide Range;
    assert forall x | 0 <= x < |t.procs| :: t.procs[x].state == UNUSED;
    forall id | id in t.lists ensures GoodList(t.procs, t.lists[id], id, {}) {
    }
    forall x | 0 <= x < |t.procs| ensures x in t.lists[FreeL] {
      assert Range(0, m.nproc)[x] == x;
    }
  }

  lemma BootSlot(m: Limits, t: Table)
    requires m.Valid() && Fresh(m, t)
    ensures t.procs != [] && FreeL in t.lists && EmbryoL in t.lists && ReadyL(0) in t.lists && t.lists[FreeL] != []
    ensures t.lists[FreeL][0] == 0
    ensures t.procs[0].state == UNUSED && t.procs[0 := InitProc(m)] == BootProcs(m)
    ensures t.procs[0].(state := EMBRYO, pid := 1, budget := m.budget, prio := 0).(state := RUNNABLE) == InitProc(m)
    ensures t.lists[ReadyL(0)] == []
  {
    assert t.procs[0 := InitProc(m)] == BootProcs(m);
  }

  /** Taking slot 0 through the embryo list leaves the table as userinit does. */
  lemma BootLists(m: Limits, t: Table)
    requires m.Valid() && Fresh(m, t)
    ensures t.procs != [] && {FreeL, EmbryoL, ReadyL(0)} <= t.lists.Keys && t.lists[FreeL] != []
    ensures t.lists[FreeL][0] == 0
    ensures t.procs[0].state == UNUSED && t.nextpid == 1 && t.lists[ReadyL(0)] == []
    ensures var q := t.procs[0].(state := EMBRYO, pid := 1, budget := m.budget, prio := 0);
      var a := Move(t, 0, q, Head);
      && EmbryoL in a.lists && ReadyL(0) in a.lists && a.lists[ReadyL(0)] == []
      && a.(procs := a.procs[0 := q.(state := RUNNABLE)], nextpid := 2,
            lists := a.lists[EmbryoL := Without(a.lists[EmbryoL], 0)][ReadyL(0) := [0]]) == Booted(m, t.ticks)
  {
    BootSlot(m, t);
    var q := t.procs[0].(state := EMBRYO, pid := 1, budget := m.budget, prio := 0);
    var a, b := Move(t, 0, q, Head), Booted(m, t.ticks);
    assert a.procs[0 := q.(state := RUNNABLE)] == b.procs;
    var lists := a.lists[EmbryoL := Without(a.lists[EmbryoL], 0)][ReadyL(0) := [0]];
    forall id | id in b.lists ensures lists[id] == b.lists[id] {
      assert b.lists[id] == BootList(m, id);
    }
    assert lists == b.lists;
  }
}
