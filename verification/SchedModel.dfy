// The process table of proc.c (state lists, MLFQ scheduling) on values.
//
// A Table is what ptable.lock protects.  Every function below is one critical
// section: the state between an acquire and the matching release.

module SchedModel {
  import opened Common

  datatype PState = UNUSED | EMBRYO | SLEEPING | RUNNABLE | RUNNING | ZOMBIE

  // What a process sleeps on: the address of a process (only wait does that)
  // or any other kernel address.
  datatype Chan = NoChan | ProcChan(slot: nat) | OtherChan(id: nat)

  datatype Proc = Proc(
    state: PState,
    pid: nat,
    parent: Option<nat>,
    chan: Chan,
    killed: bool,
    budget: int,
    prio: nat,
    cpuIn: nat)

  datatype ListId = FreeL | EmbryoL | SleepL | RunningL | ZombieL | ReadyL(k: nat)

  // A fork in progress: the new slot, and whether its fields are set up.
  datatype Fork = Fork(child: nat, ready: bool)

  /** NPROC, MAX, BUDGET and TICKS_TO_PROMOTE. */
  datatype Limits = Limits(nproc: nat, maxPrio: nat, budget: nat, promote: nat)
  {
    predicate Valid() { 0 < nproc && 0 < budget }

    predicate IsList(id: ListId) { id.ReadyL? ==> id.k <= maxPrio }
  }

  datatype Table = Table(
    procs: seq<Proc>,
    lists: Lists,
    ticks: nat,
    promoteAt: nat,
    nextpid: nat,
    initproc: nat,
    forks: map<nat, Fork>)

  // --------------------------------------------------------------- sequences

  /** remove(): the list without the first occurrence of x. */
  function Without(s: seq<nat>, x: nat): (r: seq<nat>)
    ensures forall y :: y != x ==> (y in r <==> y in s)
    ensures x !in s ==> r == s
  {
    if s == [] then []
    else if s[0] == x then s[1..]
    else
      assert forall y :: y in s <==> y == s[0] || y in s[1..];
      [s[0]] + Without(s[1..], x)
  }

  lemma {:induction false} WithoutAt(s: seq<nat>, j: nat)
    requires NoDup(s) && j < |s|
    ensures Without(s, s[j]) == s[..j] + s[j + 1..]
  {
    if j > 0 {
      WithoutAt(s[1..], j - 1);
    }
  }

  /** Taking an element out of a list without duplicates leaves none of it. */
  lemma WithoutGone(s: seq<nat>, x: nat)
    requires NoDup(s)
    ensures NoDup(Without(s, x)) && x !in Without(s, x)
  {
    if x in s {
      var j :| 0 <= j < |s| && s[j] == x;
      WithoutAt(s, j);
    }
  }

  // ------------------------------------------------------------------- lists

  /** The list a process belongs on. */
  function ListOf(p: Proc): ListId {
    match p.state
    case UNUSED => FreeL
    case EMBRYO => EmbryoL
    case SLEEPING => SleepL
    case RUNNABLE => ReadyL(p.prio)
    case RUNNING => RunningL
    case ZOMBIE => ZombieL
  }

  type Lists = map<ListId, seq<nat>>

  ghost predicate GoodList(procs: seq<Proc>, s: seq<nat>, id: ListId, gone: set<nat>) {
    && NoDup(s)
    && forall j | 0 <= j < |s| :: s[j] < |procs| && s[j] !in gone && ListOf(procs[s[j]]) == id
  }

  /** Every slot outside `gone` is on exactly one list, once: the one for its state. */
  ghost predicate Listed(m: Limits, procs: seq<Proc>, lists: Lists, gone: set<nat>) {
    && |procs| == m.nproc
    && (forall id :: id in lists <==> m.IsList(id))
    && (forall id | id in lists :: GoodList(procs, lists[id], id, gone))
    && (forall x | 0 <= x < |procs| && x !in gone :: m.IsList(ListOf(procs[x])) && x in lists[ListOf(procs[x])])
  }

  ghost predicate Partition(m: Limits, t: Table) {
    Listed(m, t.procs, t.lists, {})
  }

  datatype End = Head | Tail

  /** remove from the old list, update, then addhead or addtail to the new list. */
  function Move(t: Table, x: nat, p: Proc, e: End): Table
    requires x < |t.procs| && ListOf(t.procs[x]) in t.lists && ListOf(p) in t.lists
  {
    var out := t.lists[ListOf(t.procs[x]) := Without(t.lists[ListOf(t.procs[x])], x)];
    var rest := out[ListOf(p)];
    t.(procs := t.procs[x := p], lists := out[ListOf(p) := if e.Head? then [x] + rest else rest + [x]])
  }

  /** Fields change, the list does not. */
  function Update(t: Table, x: nat, p: Proc): Table
    requires x < |t.procs|
  {
    t.(procs := t.procs[x := p])
  }

  lemma TakeOut(m: Limits, procs: seq<Proc>, lists: Lists, x: nat)
    requires Listed(m, procs, lists, {}) && x < m.nproc
    ensures var id := ListOf(procs[x]); Listed(m, procs, lists[id := Without(lists[id], x)], {x})
  {
    var id0 := ListOf(procs[x]);
    WithoutGone(lists[id0], x);
    var out := lists[id0 := Without(lists[id0], x)];
    forall id | id in out ensures GoodList(procs, out[id], id, {x}) {
      assert GoodList(procs, lists[id], id, {});
      assert forall j | 0 <= j < |out[id]| :: out[id][j] in lists[id];
    }
  }

  lemma PutIn(m: Limits, procs: seq<Proc>, lists: Lists, x: nat, p: Proc, e: End)
    requires Listed(m, procs, lists, {x}) && x < m.nproc && m.IsList(ListOf(p))
    ensures var s := lists[ListOf(p)];
      Listed(m, procs[x := p], lists[ListOf(p) := if e.Head? then [x] + s else s + [x]], {})
  {
    var s := lists[ListOf(p)];
    var s' := if e.Head? then [x] + s else s + [x];
    var lists' := lists[ListOf(p) := s'];
    forall id | id in lists' ensures GoodList(procs[x := p], lists'[id], id, {}) {
      assert GoodList(procs, lists[id], id, {x});
    }
    assert forall y | y in s :: y in s';
    assert x in s';
  }

  lemma MovePartition(m: Limits, t: Table, x: nat, p: Proc, e: End)
    requires Partition(m, t) && x < m.nproc && m.IsList(ListOf(p))
    ensures Partition(m, Move(t, x, p, e))
  {
    TakeOut(m, t.procs, t.lists, x);
    PutIn(m, t.procs, t.lists[ListOf(t.procs[x]) := Without(t.lists[ListOf(t.procs[x])], x)], x, p, e);
  }

  lemma UpdatePartition(m: Limits, t: Table, x: nat, p: Proc)
    requires Partition(m, t) && x < m.nproc && ListOf(p) == ListOf(t.procs[x])
    ensures Partition(m, Update(t, x, p))
  {
    var t' := Update(t, x, p);
    forall id | id in t'.lists ensures GoodList(t'.procs, t'.lists[id], id, {}) {
      assert GoodList(t.procs, t.lists[id], id, {});
    }
  }

  // ----------------------------------------------------------------- wakeup1

  predicate Woken(p: Proc, chan: Chan) { p.state == SLEEPING && p.chan == chan }

  /** The table-scan form of wakeup1 (proc.c:927-935). */
  function ScanWakeup(procs: seq<Proc>, chan: Chan): (r: seq<Proc>)
    ensures |r| == |procs|
    ensures forall i | 0 <= i < |procs| ::
      r[i] == if Woken(procs[i], chan) then procs[i].(state := RUNNABLE) else procs[i]
  {
    if procs == [] then []
    else
      var p := procs[|procs| - 1];
      ScanWakeup(procs[..|procs| - 1], chan) + [if Woken(p, chan) then p.(state := RUNNABLE) else p]
  }

  // Where a sleeper goes when chan is woken: None is the sleep list.
  predicate GoesTo(procs: seq<Proc>, x: nat, chan: Chan, k: Option<nat>) {
    if x < |procs| && procs[x].chan == chan then k == Some(procs[x].prio) else k == None
  }

  /** The sleepers that go to one list, in order. */
  function Sleepers(procs: seq<Proc>, s: seq<nat>, chan: Chan, k: Option<nat>): (r: seq<nat>)
    ensures forall y :: y in r <==> y in s && GoesTo(procs, y, chan, k)
  {
    if s == [] then []
    else
      var r := Sleepers(procs, s[..|s| - 1], chan, k);
      var x := s[|s| - 1];
      assert forall y :: y in s <==> y == x || y in s[..|s| - 1];
      if GoesTo(procs, x, chan, k) then r + [x] else r
  }

  lemma {:induction false} SleepersNoDup(procs: seq<Proc>, s: seq<nat>, chan: Chan, k: Option<nat>)
    requires NoDup(s)
    ensures NoDup(Sleepers(procs, s, chan, k))
  {
    if s != [] {
      SleepersNoDup(procs, s[..|s| - 1], chan, k);
      assert s[|s| - 1] !in s[..|s| - 1];
    }
  }

  function WakeList(procs: seq<Proc>, lists: Lists, chan: Chan, id: ListId): seq<nat>
    requires id in lists && SleepL in lists
  {
    match id
    case SleepL => Sleepers(procs, lists[SleepL], chan, None)
    case ReadyL(k) => lists[id] + Sleepers(procs, lists[SleepL], chan, Some(k))
    case _ => lists[id]
  }

  /** wakeup1: sleepers on chan leave the sleep list, in order, for the tails of
      the ready lists of their priorities. */
  function Wakeup1(t: Table, chan: Chan): Table
    requires SleepL in t.lists
  {
    t.(procs := ScanWakeup(t.procs, chan),
       lists := map id | id in t.lists :: WakeList(t.procs, t.lists, chan, id))
  }

  lemma GoodConcat(procs: seq<Proc>, a: seq<nat>, b: seq<nat>, id: ListId)
    requires GoodList(procs, a, id, {}) && GoodList(procs, b, id, {})
    requires forall x | x in a :: x !in b
    ensures GoodList(procs, a + b, id, {})
  {
    var c := a + b;
    assert forall i | 0 <= i < |a| :: c[i] == a[i] && c[i] in a;
    assert forall i | |a| <= i < |c| :: c[i] == b[i - |a|] && c[i] in b;
  }

  lemma GoodSleepers(procs: seq<Proc>, s: seq<nat>, chan: Chan, k: Option<nat>)
    requires GoodList(procs, s, SleepL, {})
    ensures GoodList(ScanWakeup(procs, chan), Sleepers(procs, s, chan, k),
                     if k.Some? then ReadyL(k.value) else SleepL, {})
  {
    SleepersNoDup(procs, s, chan, k);
    var r := Sleepers(procs, s, chan, k);
    forall j | 0 <= j < |r| ensures r[j] in s && GoesTo(procs, r[j], chan, k) {
      assert r[j] in r;
    }
  }

  lemma WakeGoodList(m: Limits, t: Table, chan: Chan, id: ListId)
    requires Partition(m, t) && id in t.lists
    ensures GoodList(ScanWakeup(t.procs, chan), WakeList(t.procs, t.lists, chan, id), id, {})
  {
    assert GoodList(t.procs, t.lists[id], id, {});
    assert GoodList(t.procs, t.lists[SleepL], SleepL, {});
    hide Listed, NoDup;
    var s := t.lists[SleepL];
    if id == SleepL {
      GoodSleepers(t.procs, s, chan, None);
    } else {
      assert GoodList(ScanWakeup(t.procs, chan), t.lists[id], id, {});
      if id.ReadyL? {
        GoodSleepers(t.procs, s, chan, Some(id.k));
        GoodConcat(ScanWakeup(t.procs, chan), t.lists[id], Sleepers(t.procs, s, chan, Some(id.k)), id);
      }
    }
  }

  lemma WakeupSlot(m: Limits, t: Table, chan: Chan, x: nat)
    requires Partition(m, t) && x < |t.procs| && SleepL in t.lists
    requires t.procs[x].state == SLEEPING ==> t.procs[x].prio <= m.maxPrio
    ensures var t' := Wakeup1(t, chan);
      m.IsList(ListOf(t'.procs[x])) && ListOf(t'.procs[x]) in t'.lists && x in t'.lists[ListOf(t'.procs[x])]
  {
    hide GoodList;
    assert x in t.lists[ListOf(t.procs[x])];
  }

  lemma WakeupPartition(m: Limits, t: Table, chan: Chan)
    requires Partition(m, t) && SleepL in t.lists
    requires forall x | 0 <= x < |t.procs| && t.procs[x].state == SLEEPING :: t.procs[x].prio <= m.maxPrio
    ensures Partition(m, Wakeup1(t, chan))
  {
    hide GoodList, WakeList;
    var t' := Wakeup1(t, chan);
    forall id | id in t'.lists ensures GoodList(t'.procs, t'.lists[id], id, {}) {
      WakeGoodList(m, t, chan, id);
    }
    forall x | 0 <= x < |t'.procs|
      ensures m.IsList(ListOf(t'.procs[x])) && x in t'.lists[ListOf(t'.procs[x])]
    {
      WakeupSlot(m, t, chan, x);
    }
  }

  // --------------------------------------------------------------- promotion

  predicate Scheduled(st: PState) { st == SLEEPING || st == RUNNABLE || st == RUNNING }

  function PromoteProc(p: Proc): Proc {
    if Scheduled(p.state) && p.prio > 0 then p.(prio := p.prio - 1) else p
  }

  function PromoteProcs(procs: seq<Proc>): (r: seq<Proc>)
    ensures |r| == |procs| && forall i | 0 <= i < |procs| :: r[i] == PromoteProc(procs[i])
  {
    if procs == [] then [] else PromoteProcs(procs[..|procs| - 1]) + [PromoteProc(procs[|procs| - 1])]
  }

  /** Every ready queue moves up one level; the top two are joined. */
  function PromoteList(lists: Lists, id: ListId): seq<nat>
    requires id in lists
  {
    if !id.ReadyL? then lists[id]
    else
      var up := if ReadyL(id.k + 1) in lists then lists[ReadyL(id.k + 1)] else [];
      if id.k == 0 then lists[id] + up else up
  }

  function Promote(m: Limits, t: Table): Table {
    t.(procs := PromoteProcs(t.procs),
       lists := map id | id in t.lists :: PromoteList(t.lists, id),
       promoteAt := t.ticks + m.promote)
  }

  lemma GoodPromoted(procs: seq<Proc>, s: seq<nat>, id: ListId)
    requires GoodList(procs, s, id, {})
    ensures GoodList(PromoteProcs(procs), s, if id.ReadyL? && id.k > 0 then ReadyL(id.k - 1) else id, {})
  {
  }

  lemma GoodJoined(procs: seq<Proc>, a: seq<nat>, b: seq<nat>)
    requires GoodList(procs, a, ReadyL(0), {}) && GoodList(procs, b, ReadyL(1), {})
    ensures GoodList(PromoteProcs(procs), a + b, ReadyL(0), {})
  {
    GoodPromoted(procs, a, ReadyL(0));
    GoodPromoted(procs, b, ReadyL(1));
    assert forall x | x in a :: x < |procs| && ListOf(procs[x]) == ReadyL(0);
    assert forall x | x in b :: x < |procs| && ListOf(procs[x]) == ReadyL(1);
    hide GoodList;
    GoodConcat(PromoteProcs(procs), a, b, ReadyL(0));
  }

  lemma PromoteGoodList(m: Limits, t: Table, id: ListId)
    requires Partition(m, t) && id in t.lists
    ensures GoodList(PromoteProcs(t.procs), PromoteList(t.lists, id), id, {})
  {
    hide GoodList;
    assert GoodList(t.procs, t.lists[id], id, {});
    GoodPromoted(t.procs, t.lists[id], id);
    if id.ReadyL? && ReadyL(id.k + 1) in t.lists {
      var up := t.lists[ReadyL(id.k + 1)];
      assert GoodList(t.procs, up, ReadyL(id.k + 1), {});
      GoodPromoted(t.procs, up, ReadyL(id.k + 1));
      if id.k == 0 {
        GoodJoined(t.procs, t.lists[id], up);
      }
    } else if id.ReadyL? && id.k > 0 {
      GoodEmpty(PromoteProcs(t.procs), id);
    } else if id.ReadyL? {
      assert t.lists[id] + [] == t.lists[id];
    }
  }

  lemma GoodEmpty(procs: seq<Proc>, id: ListId)
    ensures GoodList(procs, [], id, {})
  {
  }

  lemma PromoteSlot(m: Limits, t: Table, x: nat)
    requires Partition(m, t) && x < |t.procs|
    ensures var t' := Promote(m, t);
      m.IsList(ListOf(t'.procs[x])) && ListOf(t'.procs[x]) in t'.lists && x in t'.lists[ListOf(t'.procs[x])]
  {
    hide GoodList;
    assert x in t.lists[ListOf(t.procs[x])];
  }

  lemma PromotePartition(m: Limits, t: Table)
    requires Partition(m, t)
    ensures Partition(m, Promote(m, t))
  {
    hide GoodList, PromoteList;
    var t' := Promote(m, t);
    forall id | id in t'.lists ensures GoodList(t'.procs, t'.lists[id], id, {}) {
      PromoteGoodList(m, t, id);
    }
    forall x | 0 <= x < |t'.procs|
      ensures m.IsList(ListOf(t'.procs[x])) && x in t'.lists[ListOf(t'.procs[x])]
    {
      PromoteSlot(m, t, x);
    }
  }

  // --------------------------------------------------------------- scheduler

  /** The first non-empty ready queue at level k or below in priority. */
  function FirstReady(m: Limits, lists: Lists, k: nat): (r: Option<nat>)
    requires k <= m.maxPrio + 1 && forall i | k <= i <= m.maxPrio :: ReadyL(i) in lists
    ensures r.Some? ==> k <= r.value <= m.maxPrio && lists[ReadyL(r.value)] != []
    ensures forall i | k <= i <= m.maxPrio && (r.None? || i < r.value) :: lists[ReadyL(i)] == []
    decreases m.maxPrio + 1 - k
  {
    if k > m.maxPrio then None
    else if lists[ReadyL(k)] != [] then Some(k)
    else FirstReady(m, lists, k + 1)
  }

  /** The process at the head of the highest non-empty queue starts to run. */
  function Dispatch(m: Limits, t: Table): Table
    requires Partition(m, t)
  {
    match FirstReady(m, t.lists, 0)
    case None => t
    case Some(k) =>
      assert GoodList(t.procs, t.lists[ReadyL(k)], ReadyL(k), {});
      var x := t.lists[ReadyL(k)][0];
      Move(t, x, t.procs[x].(state := RUNNING, cpuIn := t.ticks, chan := NoChan), Head)
  }

  /** One pass of scheduler's loop. */
  function Schedule(m: Limits, t: Table): Table
    requires Partition(m, t)
  {
    PromotePartition(m, t);
    Dispatch(m, if t.promoteAt <= t.ticks then Promote(m, t) else t)
  }

  /** Charge the time since the process was dispatched; demote when it is used up. */
  function Charge(m: Limits, p: Proc, now: nat): Proc {
    var left := p.budget - (now - p.cpuIn);
    if left > 0 then p.(budget := left)
    else p.(budget := m.budget, prio := if p.prio != m.maxPrio then p.prio + 1 else p.prio)
  }

  predicate CanRun(t: Table, x: nat) {
    x < |t.procs| && t.procs[x].state == RUNNING
  }

  function Yield(m: Limits, t: Table, x: nat): Table
    requires Partition(m, t) && CanRun(t, x) && t.procs[x].prio <= m.maxPrio
  {
    Move(t, x, Charge(m, t.procs[x], t.ticks).(state := RUNNABLE), Tail)
  }

  function Sleep(m: Limits, t: Table, x: nat, chan: Chan): Table
    requires Partition(m, t) && CanRun(t, x)
  {
    Move(t, x, Charge(m, t.procs[x], t.ticks).(state := SLEEPING, chan := chan), Head)
  }

  // -------------------------------------------------------------------- fork

  /** allocproc's first critical section, called by x; None when no slot is free. */
  function ForkAlloc(m: Limits, t: Table, x: nat): (r: Option<Table>)
    requires Partition(m, t)
    ensures r.Some? <==> t.lists[FreeL] != []
  {
    if t.lists[FreeL] == [] then None
    else
      assert GoodList(t.procs, t.lists[FreeL], FreeL, {});
      var c := t.lists[FreeL][0];
      var a := Move(t, c, t.procs[c].(state := EMBRYO, pid := t.nextpid), Head);
      Some(a.(nextpid := t.nextpid + 1, forks := t.forks[x := Fork(c, false)]))
  }

  predicate Forking(t: Table, x: nat) {
    x in t.forks && t.forks[x].child < |t.procs| && t.procs[t.forks[x].child].state == EMBRYO
  }

  /** kalloc or copyuvm failed: give the slot back. */
  function ForkFail(m: Limits, t: Table, x: nat): Table
    requires Partition(m, t) && Forking(t, x)
  {
    var c := t.forks[x].child;
    Move(t, c, t.procs[c].(state := UNUSED), Head).(forks := t.forks - {x})
  }

  /** The fields of the child, set outside the lock. */
  function ForkSetup(m: Limits, t: Table, x: nat): Table
    requires Forking(t, x)
  {
    var c := t.forks[x].child;
    Update(t, c, t.procs[c].(budget := m.budget, prio := 0, parent := Some(x)))
      .(forks := t.forks[x := Fork(c, true)])
  }

  /** fork's last critical section. */
  function ForkFinish(m: Limits, t: Table, x: nat): Table
    requires Partition(m, t) && Forking(t, x) && t.procs[t.forks[x].child].prio == 0
  {
    var c := t.forks[x].child;
    Move(t, c, t.procs[c].(state := RUNNABLE), Tail).(forks := t.forks - {x})
  }

  // -------------------------------------------------------------------- exit

  function Adopt(p: Proc, x: nat, init: nat): Proc {
    if p.parent == Some(x) then p.(parent := Some(init)) else p
  }

  /** Abandoned children are passed to init. */
  function Reparent(procs: seq<Proc>, x: nat, init: nat): (r: seq<Proc>)
    ensures |r| == |procs| && forall i | 0 <= i < |procs| :: r[i] == Adopt(procs[i], x, init)
  {
    if procs == [] then []
    else Reparent(procs[..|procs| - 1], x, init) + [Adopt(procs[|procs| - 1], x, init)]
  }

  predicate HasZombieChild(procs: seq<Proc>, x: nat) {
    exists i | 0 <= i < |procs| :: procs[i].parent == Some(x) && procs[i].state == ZOMBIE
  }

  function ParentChan(p: Proc): Chan {
    if p.parent.Some? then ProcChan(p.parent.value) else NoChan
  }

  /** exit up to the point where the process leaves the running list. */
  function Abandon(t: Table, x: nat): Table
    requires x < |t.procs| && SleepL in t.lists
  {
    var woken := Wakeup1(t, ParentChan(t.procs[x]));
    var adopted := woken.(procs := Reparent(woken.procs, x, t.initproc));
    if HasZombieChild(woken.procs, x) then Wakeup1(adopted, ProcChan(t.initproc)) else adopted
  }

  function Exit(t: Table, x: nat): Table
    requires x < |t.procs| && SleepL in t.lists && ZombieL in t.lists
    requires ListOf(Abandon(t, x).procs[x]) in Abandon(t, x).lists
  {
    var a := Abandon(t, x);
    Move(a, x, a.procs[x].(state := ZOMBIE), Head)
  }

  // -------------------------------------------------------------------- wait

  /** The first child of x on a list. */
  function FirstChild(procs: seq<Proc>, s: seq<nat>, x: nat): (r: Option<nat>)
    ensures r.Some? ==> r.value in s && r.value < |procs| && procs[r.value].parent == Some(x)
    ensures r.None? ==> forall y | y in s && y < |procs| :: procs[y].parent != Some(x)
  {
    if s == [] then None
    else if s[0] < |procs| && procs[s[0]].parent == Some(x) then Some(s[0])
    else
      assert forall y :: y in s <==> y == s[0] || y in s[1..];
      FirstChild(procs, s[1..], x)
  }

  predicate HasLiveChild(procs: seq<Proc>, x: nat) {
    exists i | 0 <= i < |procs| :: procs[i].parent == Some(x) && (procs[i].state == EMBRYO || Scheduled(procs[i].state))
  }

  function Reap(p: Proc): Proc {
    p.(state := UNUSED, pid := 0, parent := None, killed := false)
  }

  datatype WaitResult = Reaped(pid: nat) | NoChildren | Asleep

  /** One pass of wait's loop. */
  function Wait(m: Limits, t: Table, x: nat): (WaitResult, Table)
    requires Partition(m, t) && CanRun(t, x)
  {
    match FirstChild(t.procs, t.lists[ZombieL], x)
    case Some(c) => (Reaped(t.procs[c].pid), Move(t, c, Reap(t.procs[c]), Head))
    case None =>
      if !HasLiveChild(t.procs, x) || t.procs[x].killed then (NoChildren, t)
      else (Asleep, Sleep(m, t, x, ProcChan(x)))
  }

  // ------------------------------------------------------- kill, setpriority

  /** The slot with this pid among those a list search visits. */
  function FindPid(procs: seq<Proc>, pid: int, embryos: bool): (r: Option<nat>)
    ensures r.Some? ==> r.value < |procs| && procs[r.value].pid == pid && Visited(procs[r.value], embryos)
    ensures r.None? ==> forall i | 0 <= i < |procs| && procs[i].pid == pid :: !Visited(procs[i], embryos)
  {
    if procs == [] then None
    else
      var p := procs[|procs| - 1];
      if p.pid == pid && Visited(p, embryos) then Some(|procs| - 1)
      else FindPid(procs[..|procs| - 1], pid, embryos)
  }

  predicate Visited(p: Proc, embryos: bool) {
    Scheduled(p.state) || (embryos && p.state == EMBRYO)
  }

  /** kill: false is the source's -1. */
  function Kill(m: Limits, t: Table, pid: int): (bool, Table)
    requires Partition(m, t)
    requires forall x | 0 <= x < |t.procs| && t.procs[x].state == SLEEPING :: t.procs[x].prio <= m.maxPrio
  {
    match FindPid(t.procs, pid, true)
    case None => (false, t)
    case Some(x) =>
      var p := t.procs[x].(killed := true);
      (true, if p.state == SLEEPING then Move(t, x, p.(state := RUNNABLE), Tail) else Update(t, x, p))
  }

  function SetPriority(m: Limits, t: Table, pid: int, prio: int): (bool, Table)
    requires Partition(m, t)
  {
    if prio > m.maxPrio || prio < 0 || pid < 0 then (false, t)
    else
      match FindPid(t.procs, pid, false)
      case None => (false, t)
      case Some(x) =>
        var p := t.procs[x].(prio := prio, budget := m.budget);
        (true, if p.state == RUNNABLE && t.procs[x].prio != prio then Move(t, x, p, Tail) else Update(t, x, p))
  }
}
