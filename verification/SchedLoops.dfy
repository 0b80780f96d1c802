// The process table part-way through the list walks of wakeup1, the promotion
// pass and exit, and how each step of a walk advances it.

module SchedLoops {
  import opened Common
  import opened SchedModel
  import opened SchedInvariant

  lemma Prefix(s: seq<nat>, j: nat)
    requires j < |s|
    ensures s[..j + 1] == s[..j] + [s[j]] && s[..j + 1][..j] == s[..j] && s[j..] == [s[j]] + s[j + 1..]
  {
  }

  // ----------------------------------------------------------------- wakeup1

  /** Sleepers on chan among the slots of s are runnable. */
  function WakeSome(procs: seq<Proc>, s: seq<nat>, chan: Chan): (r: seq<Proc>)
    ensures |r| == |procs|
    ensures forall i | 0 <= i < |procs| ::
      r[i] == if i in s && procs[i].chan == chan then procs[i].(state := RUNNABLE) else procs[i]
  {
    if s == [] then procs
    else
      var r := WakeSome(procs, s[..|s| - 1], chan);
      var x := s[|s| - 1];
      assert forall y :: y in s <==> y == x || y in s[..|s| - 1];
      if x < |procs| && procs[x].chan == chan then r[x := procs[x].(state := RUNNABLE)] else r
  }

  function WokenList(t: Table, chan: Chan, j: nat, id: ListId): seq<nat>
    requires id in t.lists && SleepL in t.lists && j <= |t.lists[SleepL]|
  {
    var s := t.lists[SleepL];
    match id
    case SleepL => Sleepers(t.procs, s[..j], chan, None) + s[j..]
    case ReadyL(k) => t.lists[id] + Sleepers(t.procs, s[..j], chan, Some(k))
    case _ => t.lists[id]
  }

  /** wakeup1 when its walk has passed the first j sleepers. */
  function WokenTo(t: Table, chan: Chan, j: nat): Table
    requires SleepL in t.lists && j <= |t.lists[SleepL]|
  {
    t.(procs := WakeSome(t.procs, t.lists[SleepL][..j], chan),
       lists := map id | id in t.lists :: WokenList(t, chan, j, id))
  }

  lemma WokenStart(t: Table, chan: Chan)
    requires SleepL in t.lists
    ensures WokenTo(t, chan, 0) == t
  {
    var t' := WokenTo(t, chan, 0);
    assert t.lists[SleepL][..0] == [];
    assert forall id | id in t.lists :: t'.lists[id] == t.lists[id];
  }

  lemma SleeperFacts(m: Limits, t: Table, j: nat)
    requires Partition(m, t) && SleepL in t.lists && j < |t.lists[SleepL]|
    ensures var x := t.lists[SleepL][j]; x < |t.procs| && t.procs[x].state == SLEEPING && x !in t.lists[SleepL][..j]
    ensures NoDup(t.lists[SleepL])
  {
    assert GoodList(t.procs, t.lists[SleepL], SleepL, {});
  }

  lemma {:induction false} WithoutMiddle(a: seq<nat>, x: nat, b: seq<nat>)
    requires x !in a
    ensures Without(a + [x] + b, x) == a + b
  {
    var s := a + [x] + b;
    if a != [] {
      assert s[0] == a[0] && s[0] != x && s[1..] == a[1..] + [x] + b;
      WithoutMiddle(a[1..], x, b);
    } else {
      assert s[0] == x && s[1..] == b;
    }
  }

  lemma WokenListNext(m: Limits, t: Table, chan: Chan, j: nat, id: ListId)
    requires Partition(m, t) && SleepL in t.lists && j < |t.lists[SleepL]| && id in t.lists
    ensures var x := t.lists[SleepL][j];
      x < |t.procs| &&
      WokenList(t, chan, j + 1, id) ==
        if t.procs[x].chan != chan then WokenList(t, chan, j, id)
        else if id == SleepL then Without(WokenList(t, chan, j, id), x)
        else if id == ReadyL(t.procs[x].prio) then WokenList(t, chan, j, id) + [x]
        else WokenList(t, chan, j, id)
  {
    hide Partition, NoDup, Without;
    SleeperFacts(m, t, j);
    var s := t.lists[SleepL];
    var x := s[j];
    Prefix(s, j);
    if id == SleepL {
      var a := Sleepers(t.procs, s[..j], chan, None);
      assert x !in a;
      WithoutMiddle(a, x, s[j + 1..]);
      assert a + s[j..] == a + [x] + s[j + 1..];
    }
  }

  /** One turn of wakeup1's loop. */
  lemma WokenNext(m: Limits, t: Table, chan: Chan, j: nat)
    requires Partition(m, t) && SleepL in t.lists && j < |t.lists[SleepL]|
    ensures var x := t.lists[SleepL][j];
      && x < |t.procs| && t.procs[x].state == SLEEPING && WokenTo(t, chan, j).procs[x] == t.procs[x]
      && (t.procs[x].chan != chan ==> WokenTo(t, chan, j + 1) == WokenTo(t, chan, j))
      && (t.procs[x].chan == chan && ReadyL(t.procs[x].prio) in t.lists ==>
            WokenTo(t, chan, j + 1) == Move(WokenTo(t, chan, j), x, t.procs[x].(state := RUNNABLE), Tail))
  {
    hide Partition, NoDup, Without, Sleepers, WokenList, WakeSome;
    SleeperFacts(m, t, j);
    var s := t.lists[SleepL];
    var x := s[j];
    Prefix(s, j);
    var a, b := WokenTo(t, chan, j), WokenTo(t, chan, j + 1);
    forall id | id in t.lists
      ensures a.lists[id] == WokenList(t, chan, j, id) && b.lists[id] == WokenList(t, chan, j + 1, id)
    {
    }
    forall id | id in t.lists { WokenListNext(m, t, chan, j, id); }
    if t.procs[x].chan != chan {
      assert a.lists == b.lists;
      assert a.procs == b.procs;
    } else if ReadyL(t.procs[x].prio) in t.lists {
      var c := Move(a, x, t.procs[x].(state := RUNNABLE), Tail);
      assert c.lists == b.lists;
      assert c.procs == b.procs;
    }
  }

  /** The rest of the walk is still ahead on the sleep list. */
  lemma WokenWalk(t: Table, chan: Chan, j: nat)
    requires SleepL in t.lists && j < |t.lists[SleepL]|
    ensures var s, a := t.lists[SleepL], WokenTo(t, chan, j);
      && SleepL in a.lists && |a.lists[SleepL]| >= |s| - j
      && (forall i | j <= i < |s| :: a.lists[SleepL][|a.lists[SleepL]| - (|s| - i)] == s[i])
      && a.lists.Keys == t.lists.Keys && |a.procs| == |t.procs|
  {
    var s := t.lists[SleepL];
    assert WokenTo(t, chan, j).lists[SleepL] == Sleepers(t.procs, s[..j], chan, None) + s[j..];
  }

  lemma IsReadyList(m: Limits, t: Table, k: nat)
    requires Partition(m, t) && k <= m.maxPrio
    ensures ReadyL(k) in t.lists
  {
  }

  lemma WokenAll(m: Limits, t: Table, chan: Chan)
    requires Partition(m, t) && SleepL in t.lists
    ensures WokenTo(t, chan, |t.lists[SleepL]|) == Wakeup1(t, chan)
  {
    hide Partition, Sleepers, WakeSome, ScanWakeup;
    var s := t.lists[SleepL];
    var a, b := WokenTo(t, chan, |s|), Wakeup1(t, chan);
    assert s[..|s|] == s;
    forall i | 0 <= i < |t.procs| ensures a.procs[i] == b.procs[i] {
      SleepersListed(m, t, i);
    }
    assert a.procs == b.procs;
    forall id | id in t.lists ensures a.lists[id] == b.lists[id] {
      assert Sleepers(t.procs, s, chan, None) + s[|s|..] == Sleepers(t.procs, s, chan, None);
    }
    assert a.lists == b.lists;
  }

  lemma SleepersListed(m: Limits, t: Table, i: nat)
    requires Partition(m, t) && SleepL in t.lists && i < |t.procs|
    ensures i in t.lists[SleepL] <==> t.procs[i].state == SLEEPING
  {
    assert GoodList(t.procs, t.lists[SleepL], SleepL, {});
    assert i in t.lists[ListOf(t.procs[i])];
  }

  // --------------------------------------------------------------- promotion

  ghost function Elems(s: seq<nat>): set<nat> {
    set x | x in s
  }

  ghost function Aged(procs: seq<Proc>, done: set<nat>): (r: seq<Proc>)
    ensures |r| == |procs|
    ensures forall i | 0 <= i < |procs| :: r[i] == if i in done then PromoteProc(procs[i]) else procs[i]
  {
    if procs == [] then []
    else
      var n := |procs| - 1;
      Aged(procs[..n], done) + [if n in done then PromoteProc(procs[n]) else procs[n]]
  }

  lemma AgedNext(procs: seq<Proc>, s: seq<nat>, j: nat)
    requires j < |s| && s[j] < |procs| && s[j] !in s[..j]
    ensures var a := Aged(procs, Elems(s[..j]));
      a[s[j]] == procs[s[j]] && Aged(procs, Elems(s[..j + 1])) == a[s[j] := PromoteProc(procs[s[j]])]
  {
    hide Aged, Elems, PromoteProc;
    InElems(s[..j], s[j]);
    ElemsNext({}, s, j);
    var a, b := Aged(procs, Elems(s[..j])), Aged(procs, Elems(s[..j + 1]));
    forall i | 0 <= i < |procs| ensures b[i] == a[s[j] := PromoteProc(procs[s[j]])][i] {
      assert i in Elems(s[..j + 1]) <==> i == s[j] || i in Elems(s[..j]);
    }
  }

  lemma AgedStart(procs: seq<Proc>, s: seq<nat>)
    ensures Aged(procs, Elems(s[..0])) == procs
  {
  }

  lemma InElems(s: seq<nat>, x: nat)
    ensures x in Elems(s) <==> x in s
  {
  }

  lemma ElemsNone()
    ensures Elems([]) == {}
  {
  }

  lemma ElemsNext(done: set<nat>, s: seq<nat>, j: nat)
    requires j < |s|
    ensures done + Elems(s[..j + 1]) == done + Elems(s[..j]) + {s[j]}
  {
    Prefix(s, j);
  }

  lemma ListMembers(m: Limits, t: Table, id: ListId)
    requires Partition(m, t) && id in t.lists
    ensures forall j | 0 <= j < |t.lists[id]| ::
      t.lists[id][j] < |t.procs| && t.lists[id][j] !in t.lists[id][..j] && ListOf(t.procs[t.lists[id][j]]) == id
  {
    assert GoodList(t.procs, t.lists[id], id, {});
  }

  lemma ElemsState(m: Limits, t: Table, id: ListId)
    requires Partition(m, t) && id in t.lists
    ensures forall x: nat | x in Elems(t.lists[id]) :: x < |t.procs| && ListOf(t.procs[x]) == id
  {
    assert GoodList(t.procs, t.lists[id], id, {});
  }

  /** Slots the promotion pass has dealt with before it starts on ready list i. */
  predicate Past(p: Proc, i: nat) {
    p.state == SLEEPING || p.state == RUNNING || (p.state == RUNNABLE && 1 <= p.prio < i)
  }

  ghost function PastSlots(procs: seq<Proc>, i: nat): set<nat> {
    set x: nat | x < |procs| && Past(procs[x], i)
  }

  function UpList(lists: Lists, k: nat): seq<nat> {
    if ReadyL(k) in lists then lists[ReadyL(k)] else []
  }

  /** A ready list when the pass has moved j slots off ready list i. */
  function LiftedList(lists: Lists, i: nat, j: nat, id: ListId): seq<nat>
    requires id in lists && 0 < i && j <= |UpList(lists, i)|
  {
    if !id.ReadyL? || id.k > i then lists[id]
    else if id.k == i then lists[id][j..]
    else
      var up := UpList(lists, id.k + 1);
      (if id.k == 0 then lists[id] else []) + if id.k == i - 1 then up[..j] else up
  }

  ghost function LiftedTo(t: Table, done: set<nat>, i: nat, j: nat): Table
    requires 0 < i && j <= |UpList(t.lists, i)|
  {
    t.(procs := Aged(t.procs, done), lists := LiftedLists(t.lists, i, j))
  }

  lemma LiftedStart(t: Table, done: set<nat>)
    ensures LiftedTo(t, done, 1, 0) == t.(procs := Aged(t.procs, done))
  {
    var a := LiftedTo(t, done, 1, 0);
    forall id | id in t.lists ensures a.lists[id] == t.lists[id] {
    }
    assert a.lists == t.lists;
  }

  lemma LiftedLevel(t: Table, done: set<nat>, i: nat)
    requires 0 < i
    ensures LiftedTo(t, done, i, |UpList(t.lists, i)|) == LiftedTo(t, done, i + 1, 0)
  {
    var a, b := LiftedTo(t, done, i, |UpList(t.lists, i)|), LiftedTo(t, done, i + 1, 0);
    forall id | id in t.lists ensures a.lists[id] == b.lists[id] {
    }
    assert a.lists == b.lists;
  }

  lemma ReadyFacts(m: Limits, t: Table, i: nat, j: nat)
    requires Partition(m, t) && ReadyL(i) in t.lists && j < |t.lists[ReadyL(i)]|
    ensures var x := t.lists[ReadyL(i)][j];
      x < |t.procs| && t.procs[x].state == RUNNABLE && t.procs[x].prio == i && x !in t.lists[ReadyL(i)][..j]
    ensures i > 0 ==> ReadyL(i - 1) in t.lists
  {
    assert GoodList(t.procs, t.lists[ReadyL(i)], ReadyL(i), {});
  }

  lemma LiftedListNext(lists: Lists, i: nat, j: nat, id: ListId)
    requires 0 < i && ReadyL(i) in lists && j < |lists[ReadyL(i)]| && id in lists
    ensures var x, a := lists[ReadyL(i)][j], LiftedList(lists, i, j, id);
      LiftedList(lists, i, j + 1, id) ==
        if id == ReadyL(i) then Without(a, x) else if id == ReadyL(i - 1) then a + [x] else a
  {
    Prefix(lists[ReadyL(i)], j);
  }

  function LiftedLists(lists: Lists, i: nat, j: nat): Lists
    requires 0 < i && j <= |UpList(lists, i)|
  {
    map id | id in lists :: LiftedList(lists, i, j, id)
  }

  lemma LiftedListsNext(lists: Lists, i: nat, j: nat)
    requires 0 < i && ReadyL(i) in lists && j < |lists[ReadyL(i)]| && ReadyL(i - 1) in lists
    ensures var x, a := lists[ReadyL(i)][j], LiftedLists(lists, i, j);
      LiftedLists(lists, i, j + 1) ==
        a[ReadyL(i) := Without(a[ReadyL(i)], x)][ReadyL(i - 1) := a[ReadyL(i - 1)] + [x]]
  {
    hide LiftedList, Without;
    var x, a := lists[ReadyL(i)][j], LiftedLists(lists, i, j);
    var b := LiftedLists(lists, i, j + 1);
    var c := a[ReadyL(i) := Without(a[ReadyL(i)], x)][ReadyL(i - 1) := a[ReadyL(i - 1)] + [x]];
    forall id | id in lists ensures b[id] == c[id] {
      LiftedListNext(lists, i, j, id);
    }
    assert b == c;
  }

  /** One turn of the loop over ready list i. */
  lemma LiftedNext(m: Limits, t: Table, done: set<nat>, i: nat, j: nat)
    requires Partition(m, t) && 0 < i && ReadyL(i) in t.lists && j < |t.lists[ReadyL(i)]|
    requires t.lists[ReadyL(i)][j] !in done
    ensures var x := t.lists[ReadyL(i)][j];
      && x < |t.procs| && t.procs[x].state == RUNNABLE && t.procs[x].prio == i
      && LiftedTo(t, done, i, j).procs[x] == t.procs[x]
      && ReadyL(i - 1) in t.lists
      && LiftedTo(t, done + {x}, i, j + 1) == Move(LiftedTo(t, done, i, j), x, t.procs[x].(prio := i - 1), Tail)
  {
    hide Partition, LiftedLists, Without, Aged;
    ReadyFacts(m, t, i, j);
    LiftedListsNext(t.lists, i, j);
    var x := t.lists[ReadyL(i)][j];
    assert LiftedTo(t, done + {x}, i, j + 1).procs == LiftedTo(t, done, i, j).procs[x := t.procs[x].(prio := i - 1)];
    LiftedKeys(t.lists, i, j);
  }

  lemma LiftedKeys(lists: Lists, i: nat, j: nat)
    requires 0 < i && j <= |UpList(lists, i)|
    ensures LiftedLists(lists, i, j).Keys == lists.Keys
  {
  }

  lemma NotDone(m: Limits, t: Table, i: nat, j: nat)
    requires Partition(m, t) && 0 < i && ReadyL(i) in t.lists && j < |t.lists[ReadyL(i)]|
    ensures t.lists[ReadyL(i)][j] !in PastSlots(t.procs, i) + Elems(t.lists[ReadyL(i)][..j])
  {
    hide Partition;
    ReadyFacts(m, t, i, j);
  }

  lemma LiftedWalk(t: Table, done: set<nat>, i: nat, j: nat)
    requires 0 < i && ReadyL(i) in t.lists && j <= |t.lists[ReadyL(i)]|
    ensures var a := LiftedTo(t, done, i, j);
      a.lists.Keys == t.lists.Keys && |a.procs| == |t.procs| && a.lists[ReadyL(i)] == t.lists[ReadyL(i)][j..]
  {
    assert LiftedTo(t, done, i, j).lists[ReadyL(i)] == LiftedList(t.lists, i, j, ReadyL(i));
  }

  /** After the last ready list every process that could move up has. */
  lemma LiftedAll(m: Limits, t: Table)
    requires Partition(m, t)
    ensures UpList(t.lists, m.maxPrio + 1) == []
    ensures Promote(m, t)
      == LiftedTo(t, PastSlots(t.procs, m.maxPrio + 1), m.maxPrio + 1, 0).(promoteAt := t.ticks + m.promote)
  {
    hide Listed, LiftedList, PromoteList, Aged, PromoteProcs, PastSlots;
    NoList(m, t);
    var a, b := LiftedTo(t, PastSlots(t.procs, m.maxPrio + 1), m.maxPrio + 1, 0), Promote(m, t);
    forall id | id in t.lists ensures a.lists[id] == b.lists[id] {
      LiftedLast(m, t, id);
    }
    assert a.lists == b.lists;
    AgedAll(m, t);
  }

  lemma NoList(m: Limits, t: Table)
    requires Partition(m, t)
    ensures UpList(t.lists, m.maxPrio + 1) == []
  {
    hide GoodList;
  }

  lemma LiftedLast(m: Limits, t: Table, id: ListId)
    requires Partition(m, t) && UpList(t.lists, m.maxPrio + 1) == [] && id in t.lists
    ensures LiftedList(t.lists, m.maxPrio + 1, 0, id) == PromoteList(t.lists, id)
  {
    hide GoodList;
  }

  lemma AgedAll(m: Limits, t: Table)
    requires Partition(m, t)
    ensures Aged(t.procs, PastSlots(t.procs, m.maxPrio + 1)) == PromoteProcs(t.procs)
  {
    hide GoodList;
    var a, b := Aged(t.procs, PastSlots(t.procs, m.maxPrio + 1)), PromoteProcs(t.procs);
    forall x | 0 <= x < |t.procs| ensures a[x] == b[x] {
      assert m.IsList(ListOf(t.procs[x]));
    }
  }

  lemma PastNext(m: Limits, t: Table, i: nat)
    requires Partition(m, t) && 0 < i && ReadyL(i) in t.lists
    ensures PastSlots(t.procs, i) + Elems(t.lists[ReadyL(i)]) == PastSlots(t.procs, i + 1)
  {
    assert GoodList(t.procs, t.lists[ReadyL(i)], ReadyL(i), {});
    forall x: nat | x < |t.procs| && ListOf(t.procs[x]) == ReadyL(i) ensures x in t.lists[ReadyL(i)] {
    }
  }

  lemma PastStart(m: Limits, t: Table)
    requires Partition(m, t) && SleepL in t.lists && RunningL in t.lists
    ensures PastSlots(t.procs, 1) == Elems(t.lists[SleepL]) + Elems(t.lists[RunningL])
    ensures Aged(t.procs, PastSlots(t.procs, 1))
      == Aged(Aged(t.procs, Elems(t.lists[SleepL])), Elems(t.lists[RunningL]))
  {
    assert GoodList(t.procs, t.lists[SleepL], SleepL, {});
    assert GoodList(t.procs, t.lists[RunningL], RunningL, {});
    forall x: nat | x < |t.procs| && (t.procs[x].state == SLEEPING || t.procs[x].state == RUNNING)
      ensures x in t.lists[SleepL] || x in t.lists[RunningL]
    {
      assert x in t.lists[ListOf(t.procs[x])];
    }
    assert Elems(t.lists[SleepL]) !! Elems(t.lists[RunningL]);
  }

  /** Ageing processes that are not on a ready list moves none of them. */
  lemma AgedPartition(m: Limits, t: Table, done: set<nat>)
    requires Partition(m, t) && forall x: nat | x in done && x < |t.procs| :: t.procs[x].state != RUNNABLE
    ensures Partition(m, t.(procs := Aged(t.procs, done)))
  {
    SameLists(m, t.procs, Aged(t.procs, done), t.lists);
  }

  // -------------------------------------------------------------------- exit

  ghost predicate SleepersOk(m: Limits, procs: seq<Proc>) {
    forall x | 0 <= x < |procs| && procs[x].state == SLEEPING :: procs[x].prio <= m.maxPrio
  }

  ghost function AdoptSome(procs: seq<Proc>, done: set<nat>, x: nat, init: nat): (r: seq<Proc>)
    ensures |r| == |procs|
    ensures forall i | 0 <= i < |procs| :: r[i] == if i in done then Adopt(procs[i], x, init) else procs[i]
  {
    if procs == [] then []
    else
      var n := |procs| - 1;
      AdoptSome(procs[..n], done, x, init) + [if n in done then Adopt(procs[n], x, init) else procs[n]]
  }

  lemma AdoptStart(procs: seq<Proc>, s: seq<nat>, x: nat, init: nat)
    ensures AdoptSome(procs, Elems(s[..0]), x, init) == procs
  {
  }

  lemma AdoptOne(procs: seq<Proc>, y: nat, x: nat, init: nat)
    requires y < |procs|
    ensures AdoptSome(procs, {y}, x, init) == procs[y := Adopt(procs[y], x, init)]
  {
  }

  lemma NotYet(done: set<nat>, s: seq<nat>, j: nat)
    requires j < |s| && done !! Elems(s) && s[j] !in s[..j]
    ensures s[j] !in done + Elems(s[..j])
  {
    assert s[j] in Elems(s);
  }

  lemma AdoptNext(procs: seq<Proc>, s: seq<nat>, j: nat, x: nat, init: nat)
    requires j < |s| && s[j] < |procs| && x != init
    ensures var a := AdoptSome(procs, Elems(s[..j]), x, init);
      AdoptSome(procs, Elems(s[..j + 1]), x, init) == a[s[j] := Adopt(a[s[j]], x, init)]
  {
    hide AdoptSome, Elems;
    ElemsNext({}, s, j);
  }

  /** exit when it has passed the slots in done to init; found says whether one was a zombie. */
  ghost function AdoptedTo(t: Table, done: set<nat>, x: nat, found: bool): Table
    requires SleepL in t.lists
  {
    var a := t.(procs := AdoptSome(t.procs, done, x, t.initproc));
    if found then Wakeup1(a, ProcChan(t.initproc)) else a
  }

  lemma {:induction false} SleepersSame(procs: seq<Proc>, procs': seq<Proc>, s: seq<nat>, chan: Chan, k: Option<nat>)
    requires |procs| == |procs'|
    requires forall i | 0 <= i < |procs| :: procs[i].chan == procs'[i].chan && procs[i].prio == procs'[i].prio
    ensures Sleepers(procs, s, chan, k) == Sleepers(procs', s, chan, k)
  {
    if s != [] {
      SleepersSame(procs, procs', s[..|s| - 1], chan, k);
    }
  }

  lemma WakeListSame(t: Table, procs: seq<Proc>, chan: Chan, id: ListId)
    requires SleepL in t.lists && id in t.lists && |procs| == |t.procs|
    requires forall i | 0 <= i < |procs| :: t.procs[i].chan == procs[i].chan && t.procs[i].prio == procs[i].prio
    ensures WakeList(t.procs, t.lists, chan, id) == WakeList(procs, t.lists, chan, id)
  {
    SleepersSame(t.procs, procs, t.lists[SleepL], chan, if id.ReadyL? then Some(id.k) else None);
  }

  /** Changing parents and waking commute. */
  lemma AdoptedMore(t: Table, done: set<nat>, more: set<nat>, x: nat, found: bool)
    requires SleepL in t.lists && x != t.initproc
    ensures var a := AdoptedTo(t, done, x, found);
      AdoptedTo(t, done + more, x, found) == a.(procs := AdoptSome(a.procs, more, x, t.initproc))
  {
    hide WakeList, AdoptSome, ScanWakeup;
    var a := AdoptedTo(t, done, x, found);
    var b := AdoptedTo(t, done + more, x, found);
    assert b.procs == AdoptSome(a.procs, more, x, t.initproc);
    if found {
      forall id | id in t.lists ensures b.lists[id] == a.lists[id] {
        WakeListSame(t, AdoptSome(t.procs, done, x, t.initproc), ProcChan(t.initproc), id);
        WakeListSame(t, AdoptSome(t.procs, done + more, x, t.initproc), ProcChan(t.initproc), id);
      }
      assert b.lists == a.lists;
    }
  }

  lemma {:induction false} SleepersTwice(procs: seq<Proc>, s: seq<nat>, chan: Chan, k: Option<nat>)
    requires forall y | y in s && k.Some? :: !GoesTo(procs, y, chan, k)
    requires forall y | y in s && k.None? :: GoesTo(procs, y, chan, k)
    ensures Sleepers(procs, s, chan, k) == if k.Some? then [] else s
  {
    if s != [] {
      SleepersTwice(procs, s[..|s| - 1], chan, k);
    }
  }

  /** A second wakeup on the same channel finds nobody. */
  lemma WakeupTwice(t: Table, chan: Chan)
    requires SleepL in t.lists
    ensures SleepL in Wakeup1(t, chan).lists && Wakeup1(Wakeup1(t, chan), chan) == Wakeup1(t, chan)
  {
    var a := Wakeup1(t, chan);
    var b := Wakeup1(a, chan);
    assert b.procs == a.procs;
    var s := a.lists[SleepL];
    assert s == Sleepers(t.procs, t.lists[SleepL], chan, None);
    SleepersSame(t.procs, a.procs, s, chan, None);
    SleepersTwice(t.procs, s, chan, None);
    forall id | id in t.lists ensures b.lists[id] == a.lists[id] {
      if id.ReadyL? {
        SleepersSame(t.procs, a.procs, s, chan, Some(id.k));
        SleepersTwice(t.procs, s, chan, Some(id.k));
      }
    }
    assert b.lists == a.lists;
  }

  /** A second wakeup changes nothing more. */
  lemma AdoptedWake(t: Table, done: set<nat>, x: nat, found: bool)
    requires SleepL in t.lists
    ensures var a := AdoptedTo(t, done, x, found);
      SleepL in a.lists && Wakeup1(a, ProcChan(t.initproc)) == AdoptedTo(t, done, x, true)
  {
    if found {
      WakeupTwice(t.(procs := AdoptSome(t.procs, done, x, t.initproc)), ProcChan(t.initproc));
    }
  }

  /** Waking leaves alone every list but the sleep list and the ready lists. */
  lemma AdoptedLists(t: Table, done: set<nat>, x: nat, found: bool)
    requires SleepL in t.lists
    ensures var a := AdoptedTo(t, done, x, found);
      && a.lists.Keys == t.lists.Keys && |a.procs| == |t.procs| && a.initproc == t.initproc
      && (forall id | id in t.lists && id != SleepL && !id.ReadyL? :: a.lists[id] == t.lists[id])
      && (!found ==> a.lists == t.lists)
      && (forall y | 0 <= y < |t.procs| && y !in done :: a.procs[y].parent == t.procs[y].parent)
  {
  }

  lemma AdoptedPartition(m: Limits, t: Table, done: set<nat>, x: nat, found: bool)
    requires Partition(m, t) && SleepersOk(m, t.procs) && SleepL in t.lists
    ensures Partition(m, AdoptedTo(t, done, x, found)) && SleepersOk(m, AdoptedTo(t, done, x, found).procs)
  {
    var a := t.(procs := AdoptSome(t.procs, done, x, t.initproc));
    SameLists(m, t.procs, a.procs, t.lists);
    hide Listed;
    WakeupPartition(m, a, ProcChan(t.initproc));
  }

  /** A child of x is among the slots of s. */
  predicate ChildAmong(procs: seq<Proc>, s: seq<nat>, x: nat) {
    exists y | y in s :: y < |procs| && procs[y].parent == Some(x)
  }

  lemma NoChildAmong(procs: seq<Proc>, s: seq<nat>, x: nat)
    ensures !ChildAmong(procs, s[..0], x)
  {
  }

  lemma ChildAmongNext(procs: seq<Proc>, s: seq<nat>, j: nat, x: nat)
    requires j < |s| && s[j] < |procs|
    ensures ChildAmong(procs, s[..j + 1], x) <==> ChildAmong(procs, s[..j], x) || procs[s[j]].parent == Some(x)
  {
    Prefix(s, j);
    if ChildAmong(procs, s[..j], x) {
      var y :| y in s[..j] && y < |procs| && procs[y].parent == Some(x);
      assert y in s[..j + 1];
    }
    assert s[j] in s[..j + 1];
  }

  /** One turn of exit's loop over the zombie list, up to the wakeup. */
  lemma AdoptedZombie(m: Limits, t: Table, done: set<nat>, s: seq<nat>, j: nat, x: nat, found: bool)
    requires Partition(m, t) && SleepersOk(m, t.procs) && SleepL in t.lists && x != t.initproc
    requires j < |s| && s[j] < |t.procs| && s[j] !in s[..j] && done !! Elems(s)
    ensures var a, b := AdoptedTo(t, done + Elems(s[..j]), x, found), AdoptedTo(t, done + Elems(s[..j + 1]), x, found);
      && |a.procs| == |t.procs| && a.procs[s[j]].parent == t.procs[s[j]].parent
      && b == a.(procs := a.procs[s[j] := Adopt(a.procs[s[j]], x, t.initproc)])
      && Partition(m, b) && SleepersOk(m, b.procs)
  {
    hide Partition, AdoptedTo, AdoptSome, Elems, SleepersOk;
    var so := done + Elems(s[..j]);
    NotYet(done, s, j);
    AdoptedLists(t, so, x, found);
    ElemsNext(done, s, j);
    AdoptedMore(t, so, {s[j]}, x, found);
    AdoptOne(AdoptedTo(t, so, x, found).procs, s[j], x, t.initproc);
    AdoptedPartition(m, t, so + {s[j]}, x, found);
  }

  ghost function OnReady(procs: seq<Proc>, i: nat): set<nat> {
    set y: nat | y < |procs| && procs[y].state == RUNNABLE && procs[y].prio < i
  }

  lemma OnReadyNext(m: Limits, t: Table, i: nat)
    requires Partition(m, t) && ReadyL(i) in t.lists
    ensures OnReady(t.procs, i) + Elems(t.lists[ReadyL(i)]) == OnReady(t.procs, i + 1)
  {
    assert GoodList(t.procs, t.lists[ReadyL(i)], ReadyL(i), {});
    forall y: nat | y < |t.procs| && ListOf(t.procs[y]) == ReadyL(i) ensures y in t.lists[ReadyL(i)] {
    }
  }

  lemma AdoptedStart(t: Table, x: nat)
    requires SleepL in t.lists
    ensures AdoptedTo(t, OnReady(t.procs, 0), x, false) == t
  {
  }

  lemma NoZombieYet(m: Limits, t: Table)
    requires Partition(m, t) && SleepL in t.lists && ZombieL in t.lists
    ensures OnReady(t.procs, m.maxPrio + 1) + Elems(t.lists[SleepL]) !! Elems(t.lists[ZombieL])
  {
    hide Partition;
    ElemsState(m, t, SleepL);
    ElemsState(m, t, ZombieL);
  }

  ghost function Everyone(t: Table, k: nat): set<nat>
    requires {SleepL, ZombieL, RunningL, EmbryoL} <= t.lists.Keys
  {
    OnReady(t.procs, k)
    + Elems(t.lists[SleepL]) + Elems(t.lists[ZombieL]) + Elems(t.lists[RunningL]) + Elems(t.lists[EmbryoL])
  }

  /** The five kinds of list hold every slot that can have a parent. */
  lemma EveryoneHas(m: Limits, t: Table, y: nat)
    requires Partition(m, t) && y < |t.procs| && {SleepL, ZombieL, RunningL, EmbryoL} <= t.lists.Keys
    ensures y in Everyone(t, m.maxPrio + 1) || t.procs[y].state == UNUSED
  {
    hide GoodList;
    assert y in t.lists[ListOf(t.procs[y])] && m.IsList(ListOf(t.procs[y]));
  }

  lemma AdoptedAll(m: Limits, t: Table, x: nat)
    requires Partition(m, t) && {SleepL, ZombieL, RunningL, EmbryoL} <= t.lists.Keys
    requires forall y | 0 <= y < |t.procs| && t.procs[y].state == UNUSED :: t.procs[y].parent == None
    ensures AdoptedTo(t, Everyone(t, m.maxPrio + 1), x, false) == t.(procs := Reparent(t.procs, x, t.initproc))
  {
    hide Partition, Everyone;
    forall y | 0 <= y < |t.procs|
      ensures AdoptSome(t.procs, Everyone(t, m.maxPrio + 1), x, t.initproc)[y] == Adopt(t.procs[y], x, t.initproc)
    {
      EveryoneHas(m, t, y);
    }
    assert AdoptSome(t.procs, Everyone(t, m.maxPrio + 1), x, t.initproc) == Reparent(t.procs, x, t.initproc);
  }

  /** What exit's walks rely on once it has woken the parent. */
  lemma ExitPrep(m: Limits, t: Table, chan: Chan)
    requires Inv(m, t)
    ensures SleepL in t.lists && SleepersOk(m, t.procs)
    ensures var a := Wakeup1(t, chan);
      && Partition(m, a) && SleepersOk(m, a.procs) && a.initproc == t.initproc
      && forall y | 0 <= y < |a.procs| && a.procs[y].state == UNUSED :: a.procs[y].parent == None
  {
    hide Listed, NoLostWakeup, ForksOk, Pids;
    WakeupKeeps(m, t, chan);
    var a := Wakeup1(t, chan);
    forall y | 0 <= y < |a.procs| && a.procs[y].state == UNUSED ensures a.procs[y].parent == None {
      assert y != t.initproc && InTree(a.procs, a.procs[y]);
    }
  }

  lemma ZombieAmong(m: Limits, t: Table, x: nat)
    requires Partition(m, t) && ZombieL in t.lists
    ensures ChildAmong(t.procs, t.lists[ZombieL], x) <==> HasZombieChild(t.procs, x)
  {
    assert GoodList(t.procs, t.lists[ZombieL], ZombieL, {});
    if HasZombieChild(t.procs, x) {
      var i :| 0 <= i < |t.procs| && t.procs[i].parent == Some(x) && t.procs[i].state == ZOMBIE;
      assert i in t.lists[ZombieL];
    }
  }

  /** The walks of exit add up to Abandon. */
  lemma ExitDone(m: Limits, t: Table, x: nat, found: bool)
    requires Inv(m, t) && x < |t.procs| && SleepL in t.lists
    requires var a := Wakeup1(t, ParentChan(t.procs[x]));
      {SleepL, ZombieL, RunningL, EmbryoL} <= a.lists.Keys && (found <==> ChildAmong(a.procs, a.lists[ZombieL], x))
    ensures var a := Wakeup1(t, ParentChan(t.procs[x]));
      AdoptedTo(a, Everyone(a, m.maxPrio + 1), x, found) == Abandon(t, x)
  {
    hide Inv, Partition, Everyone, ChildAmong, HasZombieChild, AdoptSome, Reparent, Wakeup1;
    ExitPrep(m, t, ParentChan(t.procs[x]));
    var a := Wakeup1(t, ParentChan(t.procs[x]));
    ZombieAmong(m, a, x);
    AdoptedAll(m, a, x);
  }

  // -------------------------------------------------- wait, kill, setpriority

  lemma {:induction false} FirstChildSkip(procs: seq<Proc>, s: seq<nat>, j: nat, x: nat)
    requires j < |s| && s[j] < |procs|
    ensures FirstChild(procs, s[j..], x)
      == if procs[s[j]].parent == Some(x) then Some(s[j]) else FirstChild(procs, s[j + 1..], x)
  {
    assert s[j..][0] == s[j] && s[j..][1..] == s[j + 1..];
  }

  /** A child that may still exit is on a list that wait searches. */
  lemma LiveChildListed(m: Limits, t: Table, x: nat)
    requires Partition(m, t) && {SleepL, RunningL, EmbryoL} <= t.lists.Keys
    ensures forall k: nat | k <= m.maxPrio :: ReadyL(k) in t.lists
    ensures HasLiveChild(t.procs, x) <==>
      || FirstChild(t.procs, t.lists[SleepL], x).Some?
      || (exists k: nat :: k <= m.maxPrio && FirstChild(t.procs, t.lists[ReadyL(k)], x).Some?)
      || FirstChild(t.procs, t.lists[RunningL], x).Some?
      || FirstChild(t.procs, t.lists[EmbryoL], x).Some?
  {
    hide GoodList, FirstChild;
    forall id | id in t.lists && id != ZombieL && id != FreeL && FirstChild(t.procs, t.lists[id], x).Some?
      ensures HasLiveChild(t.procs, x)
    {
      var c := FirstChild(t.procs, t.lists[id], x).value;
      ListMembers(m, t, id);
    }
    if HasLiveChild(t.procs, x) {
      var i :| 0 <= i < |t.procs| && t.procs[i].parent == Some(x)
               && (t.procs[i].state == EMBRYO || Scheduled(t.procs[i].state));
      assert i in t.lists[ListOf(t.procs[i])] && m.IsList(ListOf(t.procs[i]));
      assert FirstChild(t.procs, t.lists[ListOf(t.procs[i])], x).Some?;
    }
  }

  /** Pids are unique, so the order in which the lists are searched does not matter. */
  lemma PidFound(m: Limits, t: Table, c: nat, embryos: bool)
    requires Inv(m, t) && c < |t.procs| && Visited(t.procs[c], embryos)
    ensures FindPid(t.procs, t.procs[c].pid, embryos) == Some(c)
  {
    hide Listed, Ranges, Tree, NoLostWakeup, ForksOk;
    var r := FindPid(t.procs, t.procs[c].pid, embryos);
    assert r.Some?;
  }

  ghost predicate NotOn(procs: seq<Proc>, s: seq<nat>, pid: int) {
    forall y | y in s && y < |procs| :: procs[y].pid != pid
  }

  lemma PidMissing(m: Limits, t: Table, pid: int, embryos: bool)
    requires Partition(m, t) && {SleepL, RunningL, EmbryoL} <= t.lists.Keys
    requires NotOn(t.procs, t.lists[SleepL], pid) && NotOn(t.procs, t.lists[RunningL], pid)
    requires embryos ==> NotOn(t.procs, t.lists[EmbryoL], pid)
    requires forall k: nat | k <= m.maxPrio && ReadyL(k) in t.lists :: NotOn(t.procs, t.lists[ReadyL(k)], pid)
    ensures FindPid(t.procs, pid, embryos) == None
  {
    hide GoodList, FindPid;
    forall y: nat | y < |t.procs| && Visited(t.procs[y], embryos) ensures t.procs[y].pid != pid {
      assert m.IsList(ListOf(t.procs[y])) && y in t.lists[ListOf(t.procs[y])];
      assert NotOn(t.procs, t.lists[ListOf(t.procs[y])], pid);
    }
  }
}
