// Log space: what begin_op reserves, and exactly when log_write can panic.

module LogReservation {
  import opened Common
  import opened LogMachine
  import opened LogTheorems

  // ------------------------------------------------------------ reservations

  /** Log blocks the outstanding operations may still ask for. */
  ghost function Unused(maxOp: nat, ops: map<Tid, set<nat>>): int
    decreases |ops|
  {
    if ops == map[] then 0
    else
      var t :| t in ops;
      maxOp - |ops[t]| + Unused(maxOp, ops - {t})
  }

  lemma {:induction false} UnusedRemove(maxOp: nat, ops: map<Tid, set<nat>>, t: Tid)
    requires t in ops
    ensures Unused(maxOp, ops) == maxOp - |ops[t]| + Unused(maxOp, ops - {t})
    decreases |ops|
  {
    var u :| u in ops && Unused(maxOp, ops) == maxOp - |ops[u]| + Unused(maxOp, ops - {u});
    if u != t {
      UnusedRemove(maxOp, ops - {u}, t);
      UnusedRemove(maxOp, ops - {t}, u);
      assert ops - {u} - {t} == ops - {t} - {u};
    }
  }

  lemma UnusedUpdate(maxOp: nat, ops: map<Tid, set<nat>>, t: Tid, x: set<nat>)
    ensures Unused(maxOp, ops[t := x]) == maxOp - |x| + Unused(maxOp, ops - {t})
  {
    assert ops[t := x] - {t} == ops - {t};
    UnusedRemove(maxOp, ops[t := x], t);
  }

  /** No operation has logged more than MAXOPBLOCKS different blocks. */
  ghost predicate WithinBudget(g: Geometry, s: State) {
    forall t | t in s.ops :: |s.ops[t]| <= g.maxOp
  }

  lemma MulSucc(k: nat, m: nat)
    ensures (k + 1) * m == k * m + m
  {
  }

  lemma {:induction false} UnusedBounds(maxOp: nat, ops: map<Tid, set<nat>>, k: nat)
    requires forall t | t in ops :: |ops[t]| <= maxOp
    requires |ops| == k
    ensures 0 <= Unused(maxOp, ops) <= k * maxOp
    decreases k
  {
    if k > 0 {
      assert ops.Keys != {};
      var t :| t in ops;
      UnusedRemove(maxOp, ops, t);
      assert (ops - {t}).Keys == ops.Keys - {t};
      UnusedBounds(maxOp, ops - {t}, k - 1);
      MulSucc(k - 1, maxOp);
    }
  }

  /** The header and every unused reservation fit in the log, and what an
      operation has logged is in the header. */
  ghost predicate Reserved(g: Geometry, s: State) {
    && |s.header| + Unused(g.maxOp, s.ops) <= g.capacity
    && forall t, b | t in s.ops && b in s.ops[t] :: b in s.header
  }

  lemma ReservedLogWrite(g: Geometry, s: State, a: Step)
    requires Reserved(g, s) && Enabled(g, s, a) && a.LogWriteStep?
    ensures Reserved(g, Apply(g, s, a))
  {
    UnusedRemove(g.maxOp, s.ops, a.t);
    UnusedUpdate(g.maxOp, s.ops, a.t, s.ops[a.t] + {a.b});
    hide Unused;
    assert a.b in s.ops[a.t] ==> s.ops[a.t] + {a.b} == s.ops[a.t];
    assert a.b !in s.ops[a.t] ==> |s.ops[a.t] + {a.b}| == |s.ops[a.t]| + 1;
  }

  lemma UnusedBegin(g: Geometry, s: State, t: Tid)
    requires WithinBudget(g, s) && t !in s.ops
    ensures Unused(g.maxOp, s.ops[t := {}]) <= (|s.ops| + 1) * g.maxOp
  {
    UnusedBounds(g.maxOp, s.ops, |s.ops|);
    UnusedUpdate(g.maxOp, s.ops, t, {});
    assert s.ops - {t} == s.ops;
    MulSucc(|s.ops|, g.maxOp);
  }

  lemma ReservedBegin(g: Geometry, s: State, a: Step)
    requires WithinBudget(g, s) && Reserved(g, s) && Enabled(g, s, a) && a.BeginStep?
    ensures Reserved(g, Apply(g, s, a))
  {
    hide Unused;
    UnusedBegin(g, s, a.t);
  }

  lemma ReservedEnd(g: Geometry, s: State, a: Step)
    requires WithinBudget(g, s) && Reserved(g, s) && Enabled(g, s, a) && a.EndStep?
    ensures Reserved(g, Apply(g, s, a))
  {
    UnusedRemove(g.maxOp, s.ops, a.t);
  }

  lemma ReservedStep(g: Geometry, s: State, a: Step)
    requires Inv(g, s) && WithinBudget(g, s) && Reserved(g, s) && Enabled(g, s, a)
    ensures Reserved(g, Apply(g, s, a))
  {
    match a
    case LogWriteStep(_, _) => ReservedLogWrite(g, s, a);
    case BeginStep(_) => ReservedBegin(g, s, a);
    case EndStep(_) => ReservedEnd(g, s, a);
    case ReadHeadStep => ReadHeadKeeps(g, s);
    case _ =>
  }

  /** A run in which every operation stays within its budget. */
  ghost predicate Budgeted(g: Geometry, s: State, run: seq<Step>) {
    forall i | 0 <= i <= |run| :: Legal(g, s, run[..i]) && WithinBudget(g, After(g, s, run[..i]))
  }

  /** begin_op's test is enough: header plus unused reservations never exceed LOGSIZE. */
  lemma {:induction false} ReservationHolds(g: Geometry, s0: State, run: seq<Step>)
    requires Start(g, s0) && Budgeted(g, s0, run)
    ensures Legal(g, s0, run) && Reserved(g, After(g, s0, run))
  {
    hide Inv, Enabled, Apply;
    assert run[..|run|] == run;
    if run != [] {
      var init := run[..|run| - 1];
      assert forall i | 0 <= i <= |init| :: init[..i] == run[..i];
      ReservationHolds(g, s0, init);
      StartInv(g, s0);
      RunKeeps(g, s0, init);
      ReservedStep(g, After(g, s0, init), run[|run| - 1]);
    }
  }

  // ------------------------------------------------------- the log_write panic

  /** No operation that still has budget can be stopped by log_write's checks.
      One that makes at most MAXOPBLOCKS calls of log_write has budget before each. */
  ghost predicate NeverPanics(g: Geometry) {
    forall s0, run, t ::
      Start(g, s0) && Budgeted(g, s0, run) && HasBudget(g, s0, run, t) ==> !LogWritePanics(g, After(g, s0, run))
  }

  ghost predicate HasBudget(g: Geometry, s0: State, run: seq<Step>, t: Tid) {
    && Legal(g, s0, run)
    && t in After(g, s0, run).ops && |After(g, s0, run).ops[t]| < g.maxOp
  }

  /** Operation t stays within its budget when it logs block b, perhaps again. */
  ghost predicate MayLog(g: Geometry, s0: State, run: seq<Step>, t: Tid, b: nat) {
    && Legal(g, s0, run)
    && t in After(g, s0, run).ops && |After(g, s0, run).ops[t] + {b}| <= g.maxOp
  }

  /** With room for the header beside LOGSIZE blocks, log_write never panics
      while the operation has budget. */
  lemma EnoughLogBlocks(g: Geometry, s0: State, run: seq<Step>, t: Tid)
    requires g.capacity + 1 <= g.nlog
    requires Start(g, s0) && Budgeted(g, s0, run) && HasBudget(g, s0, run, t)
    ensures !LogWritePanics(g, After(g, s0, run))
  {
    hide Inv, Enabled, Apply, Start;
    var s := After(g, s0, run);
    ReservationHolds(g, s0, run);
    assert run[..|run|] == run;
    assert WithinBudget(g, s);
    UnusedRemove(g.maxOp, s.ops, t);
    UnusedBounds(g.maxOp, s.ops - {t}, |s.ops - {t}|);
  }

  /** With that room, a log_write within the budget panics if and only if the
      header is full; then it repeats a block that the operation has logged,
      and every operation outstanding has used its whole budget. */
  lemma RepeatPanicsIff(g: Geometry, s0: State, run: seq<Step>, t: Tid, b: nat)
    requires g.capacity + 1 <= g.nlog
    requires Start(g, s0) && Budgeted(g, s0, run) && MayLog(g, s0, run, t, b)
    ensures var s := After(g, s0, run);
      && (LogWritePanics(g, s) <==> |s.header| == g.capacity)
      && (LogWritePanics(g, s) ==> b in s.ops[t] && forall u | u in s.ops :: |s.ops[u]| == g.maxOp)
  {
    hide Inv, Enabled, Apply, Start;
    var s := After(g, s0, run);
    ReservationHolds(g, s0, run);
    assert run[..|run|] == run;
    assert WithinBudget(g, s);
    forall u | u in s.ops ensures |s.header| + g.maxOp - |s.ops[u]| <= g.capacity {
      UnusedRemove(g.maxOp, s.ops, u);
      UnusedBounds(g.maxOp, s.ops - {u}, |s.ops - {u}|);
    }
    hide Unused, Reserved;
    assert b !in s.ops[t] ==> |s.ops[t] + {b}| == |s.ops[t]| + 1;
    assert |s.ops| >= 1;
  }

  // The converse: with a smaller log, three full operations reach the panic.

  /** LOGSIZE is three times MAXOPBLOCKS, and the disk has that many home blocks after the log. */
  ghost predicate SourceSizes(g: Geometry) {
    && g.Valid() && 1 <= g.maxOp && g.capacity == 3 * g.maxOp
    && g.logStart + g.nlog + g.capacity <= g.fssize
  }

  ghost function EmptyDisk(g: Geometry): Disk {
    seq(g.fssize, _ => seq(g.words, _ => 0))
  }

  ghost function Fresh(g: Geometry): State {
    State(EmptyDisk(g), map[], [], map[], Boot, 0, true, EmptyDisk(g), [], 0)
  }

  lemma FreshStarts(g: Geometry)
    requires g.Valid()
    ensures Start(g, Fresh(g))
  {
    assert DecodeHead(EmptyDisk(g)[g.logStart]) == [];
  }

  lemma Extend(g: Geometry, s0: State, run: seq<Step>, a: Step)
    requires Budgeted(g, s0, run) && Legal(g, s0, run)
    requires Enabled(g, After(g, s0, run), a)
    requires WithinBudget(g, Apply(g, After(g, s0, run), a))
    ensures Budgeted(g, s0, run + [a]) && Legal(g, s0, run + [a])
    ensures After(g, s0, run + [a]) == Apply(g, After(g, s0, run), a)
  {
    hide Enabled, Apply;
    LegalSnoc(g, s0, run, a);
    forall i | 0 <= i <= |run + [a]|
      ensures Legal(g, s0, (run + [a])[..i]) && WithinBudget(g, After(g, s0, (run + [a])[..i]))
    {
      if i <= |run| {
        assert (run + [a])[..i] == run[..i];
      } else {
        assert (run + [a])[..i] == run + [a];
      }
    }
  }

  ghost function HomeAt(g: Geometry, k: nat): nat { g.logStart + g.nlog + k }

  /** The home blocks HomeAt(lo) .. HomeAt(hi). */
  ghost function Homes(g: Geometry, lo: nat, hi: nat): (r: set<nat>)
    ensures forall b: nat :: b in r <==> HomeAt(g, lo) <= b < HomeAt(g, hi)
    ensures lo <= hi ==> |r| == hi - lo
    decreases hi
  {
    if hi <= lo then {} else Homes(g, lo, hi - 1) + {HomeAt(g, hi - 1)}
  }

  /** What operation t has logged when the three have logged k blocks, the first operation first. */
  ghost function Share(g: Geometry, k: nat, t: Tid): set<nat> {
    Homes(g, First(g, t), Max(First(g, t), Min(k, First(g, t) + g.maxOp)))
  }

  ghost function First(g: Geometry, t: Tid): nat {
    if t == 0 then 0 else if t == 1 then g.maxOp else 2 * g.maxOp
  }

  ghost function Shares(g: Geometry, k: nat): map<Tid, set<nat>> {
    map[0 := Share(g, k, 0), 1 := Share(g, k, 1), 2 := Share(g, k, 2)]
  }

  /** A buffer that log_write has pinned and nobody holds. */
  predicate Pinned(u: Buf) { u.dirty && u.owner == None && !u.touched }

  /** The header is the first k home blocks, and the cache holds these and no others. */
  ghost predicate Cached(g: Geometry, s: State, k: nat) {
    && |s.header| == k && (forall i | 0 <= i < k :: s.header[i] == HomeAt(g, i))
    && (forall b | b in s.cache :: b in s.header && Pinned(s.cache[b])) && (forall b | b in s.header :: b in s.cache)
    && g.GoodDisk(s.disk)
  }

  /** Three operations outstanding, k distinct blocks logged, the first operations first. */
  ghost predicate Filled(g: Geometry, s: State, k: nat) {
    s.phase == Open && !s.booting && s.ops == Shares(g, k) && Cached(g, s, k)
  }

  /** The first process reads an empty log. */
  lemma OpenRead(g: Geometry) returns (s1: State, s2: State)
    requires SourceSizes(g)
    ensures Enabled(g, Fresh(g), BreadStep(0, g.logStart)) && s1 == Apply(g, Fresh(g), BreadStep(0, g.logStart))
    ensures Enabled(g, s1, ReadHeadStep) && s2 == Apply(g, s1, ReadHeadStep)
    ensures s1.ops == s2.ops == map[] && s2.phase == Installed && s2.committer == 0 && g.GoodDisk(s2.disk)
    ensures s2.cache.Keys == {g.logStart} && |s2.cache[g.logStart].data| == g.words
    ensures s2.cache[g.logStart].owner == Some(0) && !s2.cache[g.logStart].touched
  {
    var s0 := Fresh(g);
    var blk := s0.disk[g.logStart];
    s1 := s0.(cache := map[g.logStart := Buf(blk, false, Some(0), false)]);
    assert HeadOk(blk) && DecodeHead(blk) == [];
    s2 := s1.(phase := Installed);
  }

  /** ... and clears it. */
  lemma OpenClear(g: Geometry, s2: State) returns (s3: State, s4: State, s5: State)
    requires SourceSizes(g)
    requires s2.ops == map[] && s2.phase == Installed && s2.committer == 0 && g.GoodDisk(s2.disk)
    requires s2.cache.Keys == {g.logStart} && |s2.cache[g.logStart].data| == g.words
    requires s2.cache[g.logStart].owner == Some(0) && !s2.cache[g.logStart].touched
    ensures Enabled(g, s2, ForgetStep) && s3 == Apply(g, s2, ForgetStep)
    ensures Enabled(g, s3, ClearHeadStep) && s4 == Apply(g, s3, ClearHeadStep)
    ensures Enabled(g, s4, FinishStep) && s5 == Apply(g, s4, FinishStep)
    ensures s3.ops == s4.ops == s5.ops == map[]
    ensures s5.phase == Open && !s5.booting && s5.header == [] && s5.cache.Keys == {g.logStart} && g.GoodDisk(s5.disk)
    ensures s5.cache[g.logStart].owner == Some(0) && !s5.cache[g.logStart].touched && !s5.cache[g.logStart].dirty
  {
    s3 := Forget(s2);
    s4 := EraseHead(g, s3);
    s5 := Finish(s4);
  }

  /** ... and lets the header block go. */
  lemma OpenDrop(g: Geometry, s5: State) returns (s6: State, s7: State)
    requires s5.cache.Keys == {g.logStart} && s5.cache[g.logStart].owner == Some(0)
    requires !s5.cache[g.logStart].touched && !s5.cache[g.logStart].dirty
    ensures Enabled(g, s5, BrelseStep(0, g.logStart)) && s6 == Apply(g, s5, BrelseStep(0, g.logStart))
    ensures Enabled(g, s6, EvictStep(g.logStart)) && s7 == Apply(g, s6, EvictStep(g.logStart))
    ensures s6.ops == s5.ops && s7 == s5.(cache := map[])
  {
    s6 := Brelse(s5, 0, g.logStart);
    s7 := Evict(s6, g.logStart);
  }

  lemma OpenLog(g: Geometry) returns (run: seq<Step>)
    requires SourceSizes(g)
    ensures Budgeted(g, Fresh(g), run) && Legal(g, Fresh(g), run)
    ensures var s := After(g, Fresh(g), run);
      && s.phase == Open && !s.booting && s.ops == map[] && s.header == []
      && s.cache == map[] && g.GoodDisk(s.disk)
  {
    hide Enabled, Apply;
    var s0 := Fresh(g);
    var s1, s2 := OpenRead(g);
    var s3, s4, s5 := OpenClear(g, s2);
    var s6, s7 := OpenDrop(g, s5);
    run := [];
    assert forall i | 0 <= i <= |run| :: run[..i] == [];
    assert Budgeted(g, s0, run);
    hide Budgeted, Legal, Exec;
    Extend(g, s0, run, BreadStep(0, g.logStart));
    run := run + [BreadStep(0, g.logStart)];
    Extend(g, s0, run, ReadHeadStep);
    run := run + [ReadHeadStep];
    Extend(g, s0, run, ForgetStep);
    run := run + [ForgetStep];
    Extend(g, s0, run, ClearHeadStep);
    run := run + [ClearHeadStep];
    Extend(g, s0, run, FinishStep);
    run := run + [FinishStep];
    Extend(g, s0, run, BrelseStep(0, g.logStart));
    run := run + [BrelseStep(0, g.logStart)];
    Extend(g, s0, run, EvictStep(g.logStart));
    run := run + [EvictStep(g.logStart)];
  }

  lemma BeginEnabled(g: Geometry, s: State, t: Tid)
    requires SourceSizes(g) && s.phase == Open && s.header == [] && t !in s.ops && |s.ops| <= 2
    ensures Enabled(g, s, BeginStep(t))
    ensures Apply(g, s, BeginStep(t)) == s.(ops := s.ops[t := {}], trace := s.trace + [Begin(t)])
  {
    assert (|s.ops| + 1) * g.maxOp <= 3 * g.maxOp;
  }

  lemma BeginOne(g: Geometry, s0: State, run: seq<Step>, t: Tid)
    requires SourceSizes(g) && Budgeted(g, s0, run) && Legal(g, s0, run)
    requires var s := After(g, s0, run);
      s.phase == Open && s.header == [] && t !in s.ops && |s.ops| <= 2
    ensures Budgeted(g, s0, run + [BeginStep(t)]) && Legal(g, s0, run + [BeginStep(t)])
    ensures var s := After(g, s0, run);
      After(g, s0, run + [BeginStep(t)]) == s.(ops := s.ops[t := {}], trace := s.trace + [Begin(t)])
  {
    hide Enabled, Apply, Legal, Exec;
    var s := After(g, s0, run);
    assert run[..|run|] == run;
    assert WithinBudget(g, s);
    hide Budgeted;
    BeginEnabled(g, s, t);
    Extend(g, s0, run, BeginStep(t));
  }

  lemma BeginThree(g: Geometry) returns (run: seq<Step>)
    requires SourceSizes(g)
    ensures Budgeted(g, Fresh(g), run) && Legal(g, Fresh(g), run)
    ensures Filled(g, After(g, Fresh(g), run), 0)
  {
    hide Budgeted, Legal, After, Enabled, Apply;
    run := OpenLog(g);
    BeginOne(g, Fresh(g), run, 0);
    run := run + [BeginStep(0)];
    BeginOne(g, Fresh(g), run, 1);
    run := run + [BeginStep(1)];
    BeginOne(g, Fresh(g), run, 2);
    run := run + [BeginStep(2)];
    NoShares(g);
  }

  lemma NoShares(g: Geometry)
    ensures Shares(g, 0) == map[0 := {}, 1 := {}, 2 := {}]
  {
  }

  ghost function Turn(g: Geometry, k: nat): Tid {
    if k < g.maxOp then 0 else if k < 2 * g.maxOp then 1 else 2
  }

  lemma ShareStep(g: Geometry, k: nat, u: Tid)
    requires SourceSizes(g) && k < g.capacity && u < 3
    ensures Share(g, k + 1, u) == if u == Turn(g, k) then Share(g, k, u) + {HomeAt(g, k)} else Share(g, k, u)
    ensures |Share(g, k, u)| <= g.maxOp && (u == Turn(g, k) ==> |Share(g, k, u)| < g.maxOp)
    ensures |Share(g, k + 1, u)| <= g.maxOp
  {
    hide SourceSizes, Turn, First, Homes, HomeAt;
    SizesAre(g);
    ShareEnds(g, k, u);
    if u == Turn(g, k) {
      HomesNext(g, First(g, u), k);
    }
  }

  lemma HomesNext(g: Geometry, lo: nat, hi: nat)
    requires lo <= hi
    ensures Homes(g, lo, hi + 1) == Homes(g, lo, hi) + {HomeAt(g, hi)}
  {
  }

  lemma SizesAre(g: Geometry)
    requires SourceSizes(g)
    ensures g.capacity == 3 * g.maxOp && g.maxOp >= 1
  {
  }

  /** Where the share of operation u ends, before and after block k. */
  lemma ShareEnds(g: Geometry, k: nat, u: Tid)
    requires k < 3 * g.maxOp && u < 3
    ensures var lo := First(g, u);
      var hi, hi' := Max(lo, Min(k, lo + g.maxOp)), Max(lo, Min(k + 1, lo + g.maxOp));
      if u == Turn(g, k) then hi == k < lo + g.maxOp && hi' == k + 1 else hi' == hi
  {
  }

  lemma SharesStep(g: Geometry, k: nat)
    requires SourceSizes(g) && k < g.capacity
    ensures Turn(g, k) in Shares(g, k) && |Shares(g, k)| == 3
    ensures Shares(g, k + 1) == Shares(g, k)[Turn(g, k) := Shares(g, k)[Turn(g, k)] + {HomeAt(g, k)}]
    ensures SmallShares(g, Shares(g, k)) && SmallShares(g, Shares(g, k + 1))
    ensures |Shares(g, k)[Turn(g, k)]| < g.maxOp
  {
    hide Share, HomeAt, Turn;
    SharesKeys(g, k);
    assert Turn(g, k) < 3 by { TurnSmall(g, k); }
    ShareStep(g, k, 0);
    ShareStep(g, k, 1);
    ShareStep(g, k, 2);
    assert Shares(g, k + 1) == Shares(g, k)[Turn(g, k) := Shares(g, k)[Turn(g, k)] + {HomeAt(g, k)}];
  }

  lemma TurnSmall(g: Geometry, k: nat)
    ensures Turn(g, k) < 3
  {
  }

  lemma SharesKeys(g: Geometry, k: nat)
    ensures Shares(g, k).Keys == {0, 1, 2} && |Shares(g, k)| == 3
  {
    hide Share;
    assert Shares(g, k).Keys == {0, 1, 2};
  }

  ghost predicate SmallShares(g: Geometry, ops: map<Tid, set<nat>>) {
    forall t | t in ops :: |ops[t]| <= g.maxOp
  }

  lemma FillRead(g: Geometry, s: State, k: nat)
    requires SourceSizes(g) && Filled(g, s, k) && k < g.capacity
    ensures var t, b := Turn(g, k), HomeAt(g, k);
      && Enabled(g, s, BreadStep(t, b))
      && Apply(g, s, BreadStep(t, b)) == s.(cache := s.cache[b := Buf(s.disk[b], false, Some(t), false)])
  {
    assert HomeAt(g, k) !in s.cache;
  }

  lemma FillLog(g: Geometry, s: State, s1: State, k: nat)
    requires SourceSizes(g) && Filled(g, s, k) && k < g.capacity && k + 1 < g.nlog
    requires s1 == s.(cache := s.cache[HomeAt(g, k) := Buf(s.disk[HomeAt(g, k)], false, Some(Turn(g, k)), false)])
    ensures var t, b := Turn(g, k), HomeAt(g, k);
      && Enabled(g, s1, LogWriteStep(t, b))
      && var s2 := Apply(g, s1, LogWriteStep(t, b));
      && s2 == s1.(header := s.header + [b], cache := s2.cache, ops := Shares(g, k + 1), trace := s2.trace)
      && s2.cache == s1.cache[b := Buf(s.disk[b], true, Some(t), false)]
  {
    hide Shares, Turn;
    var t, b := Turn(g, k), HomeAt(g, k);
    SharesStep(g, k);
    assert b !in s.header && g.Home(b) && Owns(s1, t, b);
    assert !LogWritePanics(g, s1);
  }

  lemma FillDrop(g: Geometry, s: State, s2: State, k: nat)
    requires SourceSizes(g) && Filled(g, s, k) && k < g.capacity
    requires var t, b := Turn(g, k), HomeAt(g, k);
      && s2 == s.(header := s.header + [b], cache := s2.cache, ops := Shares(g, k + 1), trace := s2.trace)
      && s2.cache == s.cache[b := Buf(s.disk[b], true, Some(t), false)]
    ensures Enabled(g, s2, BrelseStep(Turn(g, k), HomeAt(g, k)))
    ensures Filled(g, Apply(g, s2, BrelseStep(Turn(g, k), HomeAt(g, k))), k + 1)
    ensures Apply(g, s2, BrelseStep(Turn(g, k), HomeAt(g, k))).ops == s2.ops
  {
    hide Shares, Turn;
    var t, b := Turn(g, k), HomeAt(g, k);
    var s3 := Brelse(s2, t, b);
    assert s3.cache == s.cache[b := Buf(s.disk[b], true, None, false)];
  }

  lemma FillStates(g: Geometry, s: State, k: nat) returns (s1: State, s2: State, s3: State)
    requires SourceSizes(g) && Filled(g, s, k) && k < g.capacity && k + 1 < g.nlog
    ensures var t, b := Turn(g, k), HomeAt(g, k);
      && Enabled(g, s, BreadStep(t, b)) && s1 == Apply(g, s, BreadStep(t, b))
      && Enabled(g, s1, LogWriteStep(t, b)) && s2 == Apply(g, s1, LogWriteStep(t, b))
      && Enabled(g, s2, BrelseStep(t, b)) && s3 == Apply(g, s2, BrelseStep(t, b))
    ensures WithinBudget(g, s1) && WithinBudget(g, s2) && WithinBudget(g, s3) && Filled(g, s3, k + 1)
  {
    hide Enabled, Apply, Shares;
    var t, b := Turn(g, k), HomeAt(g, k);
    FillRead(g, s, k);
    s1 := Apply(g, s, BreadStep(t, b));
    FillLog(g, s, s1, k);
    s2 := Apply(g, s1, LogWriteStep(t, b));
    assert s2.cache == s.cache[b := Buf(s.disk[b], true, Some(t), false)];
    FillDrop(g, s, s2, k);
    s3 := Apply(g, s2, BrelseStep(t, b));
    SharesStep(g, k);
  }

  lemma FillOne(g: Geometry, s0: State, run: seq<Step>, k: nat) returns (more: seq<Step>)
    requires SourceSizes(g) && Budgeted(g, s0, run) && Legal(g, s0, run)
    requires Filled(g, After(g, s0, run), k) && k < g.capacity && k + 1 < g.nlog
    ensures Budgeted(g, s0, more) && Legal(g, s0, more)
    ensures Filled(g, After(g, s0, more), k + 1)
  {
    hide Enabled, Apply, Legal, Exec, Budgeted, Filled, WithinBudget;
    var t, b := Turn(g, k), HomeAt(g, k);
    var s1, s2, s3 := FillStates(g, After(g, s0, run), k);
    Extend(g, s0, run, BreadStep(t, b));
    more := run + [BreadStep(t, b)];
    Extend(g, s0, more, LogWriteStep(t, b));
    more := more + [LogWriteStep(t, b)];
    Extend(g, s0, more, BrelseStep(t, b));
    more := more + [BrelseStep(t, b)];
  }

  lemma {:induction false} Fill(g: Geometry, k: nat) returns (run: seq<Step>)
    requires SourceSizes(g) && k <= g.capacity && k < g.nlog
    ensures Budgeted(g, Fresh(g), run) && Legal(g, Fresh(g), run)
    ensures Filled(g, After(g, Fresh(g), run), k)
  {
    hide Budgeted, Legal, After, Enabled, Apply, Filled;
    if k == 0 {
      run := BeginThree(g);
    } else {
      run := Fill(g, k - 1);
      run := FillOne(g, Fresh(g), run, k - 1);
    }
  }

  /** log_write is safe for every budgeted run if and only if the log has a
      block for the header beside its LOGSIZE data blocks. */
  lemma PanicIffLogTooSmall(g: Geometry)
    requires SourceSizes(g)
    ensures NeverPanics(g) <==> g.capacity + 1 <= g.nlog
  {
    if g.capacity + 1 <= g.nlog {
      forall s0, run, t | Start(g, s0) && Budgeted(g, s0, run) && HasBudget(g, s0, run, t)
        ensures !LogWritePanics(g, After(g, s0, run))
      {
        EnoughLogBlocks(g, s0, run, t);
      }
    } else {
      FreshStarts(g);
      var k := g.nlog - 1;
      var run := Fill(g, k);
      SharesStep(g, k);
      assert HasBudget(g, Fresh(g), run, Turn(g, k));
    }
  }

  /** The checks come before absorption: for every log size, a run in which each
      operation keeps to its budget ends in the panic, at a block that may be logged. */
  lemma RepeatCanPanic(g: Geometry) returns (run: seq<Step>, t: Tid, b: nat)
    requires SourceSizes(g)
    ensures Start(g, Fresh(g)) && Budgeted(g, Fresh(g), run) && MayLog(g, Fresh(g), run, t, b)
    ensures LogWritePanics(g, After(g, Fresh(g), run))
    ensures g.capacity + 1 <= g.nlog ==> b in After(g, Fresh(g), run).ops[t]
  {
    FreshStarts(g);
    var k := Min(g.capacity, g.nlog - 1);
    run := Fill(g, k);
    if k < g.capacity {
      SharesStep(g, k);
      t, b := Turn(g, k), HomeAt(g, k);
    } else {
      ShareStep(g, k - 1, 2);
      t, b := 2, HomeAt(g, k - 1);
      assert Share(g, k, 2) + {b} == Share(g, k, 2);
    }
  }

  // ------------------------------------------------- a commit with a full log

  /** An operation ends; the last one starts the commit. */
  lemma EndOne(g: Geometry, s: State, t: Tid, rest: set<Tid>)
    requires s.phase == Open && s.ops.Keys == rest + {t} && t !in rest && s.header != []
    requires forall b | b in s.cache :: s.cache[b].owner == None
    ensures Enabled(g, s, EndStep(t))
    ensures var e := Apply(g, s, EndStep(t));
      && e == s.(ops := s.ops - {t}, trace := e.trace, phase := e.phase, committer := e.committer)
      && e.ops.Keys == rest && e.phase == if rest == {} then WriteLog(0) else Open
  {
    assert (s.ops - {t}).Keys == rest;
    assert |s.ops - {t}| == |rest|;
  }

  lemma EndStates(g: Geometry, s: State, k: nat) returns (s1: State, s2: State, s3: State)
    requires Filled(g, s, k) && k > 0
    ensures Enabled(g, s, EndStep(0)) && s1 == Apply(g, s, EndStep(0))
    ensures Enabled(g, s1, EndStep(1)) && s2 == Apply(g, s1, EndStep(1))
    ensures Enabled(g, s2, EndStep(2)) && s3 == Apply(g, s2, EndStep(2))
    ensures s1.ops == s.ops - {0} && s2.ops == s1.ops - {1} && s3.ops.Keys == {}
    ensures s3.phase == WriteLog(0) && Cached(g, s3, k)
  {
    hide Shares, Enabled, Apply;
    SharesKeys(g, k);
    EndOne(g, s, 0, {1, 2});
    s1 := Apply(g, s, EndStep(0));
    EndOne(g, s1, 1, {2});
    s2 := Apply(g, s1, EndStep(1));
    EndOne(g, s2, 2, {});
    s3 := Apply(g, s2, EndStep(2));
  }

  /** With LOGSIZE + 1 log blocks, a run within budget reaches a commit of
      LOGSIZE blocks at which every block in the cache is pinned. */
  lemma FullCommitReachable(g: Geometry) returns (run: seq<Step>)
    requires SourceSizes(g) && g.capacity + 1 <= g.nlog
    ensures Start(g, Fresh(g)) && Budgeted(g, Fresh(g), run) && Legal(g, Fresh(g), run)
    ensures After(g, Fresh(g), run).phase == WriteLog(0) && Cached(g, After(g, Fresh(g), run), g.capacity)
  {
    hide Enabled, Apply, Legal, Exec, Cached;
    FreshStarts(g);
    run := Fill(g, g.capacity);
    assert run[..|run|] == run;
    assert WithinBudget(g, After(g, Fresh(g), run));
    hide Budgeted, Start;
    var s1, s2, s3 := EndStates(g, After(g, Fresh(g), run), g.capacity);
    Extend(g, Fresh(g), run, EndStep(0));
    run := run + [EndStep(0)];
    Extend(g, Fresh(g), run, EndStep(1));
    run := run + [EndStep(1)];
    Extend(g, Fresh(g), run, EndStep(2));
    run := run + [EndStep(2)];
  }

  /** The image mkfs builds: FSSIZE 2000, log at block 2, nlog = LOGSIZE = 30. */
  lemma ShippedImageCanPanic()
    ensures !NeverPanics(Geometry(2000, 2, 30, 30, 10, 128))
  {
    PanicIffLogTooSmall(Geometry(2000, 2, 30, 30, 10, 128));
  }
}
