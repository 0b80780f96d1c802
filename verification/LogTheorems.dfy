// What every run of the log guarantees: crash atomicity, durability, coherent
// reads, and when log_write's "too big a transaction" panic can be reached.

module LogTheorems {
  import opened Common
  import opened LogMachine

  // ------------------------------------------------------------------- runs

  /** A machine about to run initlog on a disk with a well-formed log. */
  ghost predicate Start(g: Geometry, s: State) {
    && GoodImage(g, s.disk) && g.GoodDisk(s.origin)
    && (forall b: nat | g.Home(b) :: s.origin[b] == Recovered(g, s.disk, b))
    && s.cache == map[] && s.header == [] && s.ops == map[]
    && s.phase == Boot && s.booting && s.trace == [] && s.cut == 0
  }

  /** The state after a run, if each step was enabled in its turn. */
  ghost function Exec(g: Geometry, s: State, run: seq<Step>): Option<State> {
    if run == [] then Some(s)
    else
      var before := Exec(g, s, run[..|run| - 1]);
      if before.Some? && Enabled(g, before.value, run[|run| - 1])
      then Some(Apply(g, before.value, run[|run| - 1]))
      else None
  }

  ghost predicate Legal(g: Geometry, s: State, run: seq<Step>) {
    Exec(g, s, run).Some?
  }

  ghost function After(g: Geometry, s: State, run: seq<Step>): State
    requires Legal(g, s, run)
  {
    Exec(g, s, run).value
  }

  lemma LegalSnoc(g: Geometry, s: State, run: seq<Step>, a: Step)
    requires Legal(g, s, run) && Enabled(g, After(g, s, run), a)
    ensures Legal(g, s, run + [a])
    ensures After(g, s, run + [a]) == Apply(g, After(g, s, run), a)
  {
    assert (run + [a])[..|run + [a]| - 1] == run;
  }

  /** A legal run splits anywhere into two legal runs. */
  lemma {:induction false} LegalSplit(g: Geometry, s: State, first: seq<Step>, second: seq<Step>)
    requires Legal(g, s, first + second)
    ensures Legal(g, s, first)
    ensures Legal(g, After(g, s, first), second)
    ensures After(g, After(g, s, first), second) == After(g, s, first + second)
    decreases |second|
  {
    if second == [] {
      assert first + second == first;
    } else {
      var init := second[..|second| - 1];
      assert (first + second)[..|first + second| - 1] == first + init;
      LegalSplit(g, s, first, init);
    }
  }

  // -------------------------------------------------------------- invariant

  lemma StartInv(g: Geometry, s: State)
    requires Start(g, s)
    ensures Inv(g, s)
  {
    assert s.trace[..s.cut] == [];
  }

  lemma StepKeeps(g: Geometry, s: State, a: Step)
    requires Inv(g, s) && Enabled(g, s, a)
    ensures Inv(g, Apply(g, s, a))
  {
    hide Inv;
    match a
    case BreadStep(t, b) => BreadKeeps(g, s, t, b);
    case BrelseStep(t, b) => BrelseKeeps(g, s, t, b);
    case EvictStep(b) => EvictKeeps(g, s, b);
    case ModifyStep(t, b, x) => ModifyKeeps(g, s, t, b, x);
    case LogWriteStep(t, b) => LogWriteKeeps(g, s, t, b);
    case BeginStep(t) => BeginKeeps(g, s, t);
    case EndStep(t) => EndKeeps(g, s, t);
    case WriteLogStep => WriteLogKeeps(g, s);
    case WriteHeadStep => WriteHeadKeeps(g, s);
    case InstallStep => InstallKeeps(g, s);
    case ForgetStep => ForgetKeeps(g, s);
    case ClearHeadStep => EraseHeadKeeps(g, s);
    case FinishStep => FinishKeeps(g, s);
    case CrashStep(t) => CrashKeeps(g, s, t);
    case ReadHeadStep => ReadHeadKeeps(g, s);
  }

  lemma {:induction false} RunKeeps(g: Geometry, s: State, run: seq<Step>)
    requires Inv(g, s) && Legal(g, s, run)
    ensures Inv(g, After(g, s, run))
  {
    if run != [] {
      RunKeeps(g, s, run[..|run| - 1]);
      StepKeeps(g, After(g, s, run[..|run| - 1]), run[|run| - 1]);
    }
  }

  // ------------------------------------------------- durability and atomicity

  /** The durable prefix of the history only grows. */
  lemma StepDurable(g: Geometry, s: State, a: Step)
    requires Inv(g, s) && Enabled(g, s, a)
    ensures var s' := Apply(g, s, a);
      s.cut <= |s.trace| && s.cut <= s'.cut <= |s'.trace| && s'.trace[..s.cut] == s.trace[..s.cut]
  {
    hide Shape, CacheOk, DiskOk, Active;
  }

  lemma {:induction false} RunDurable(g: Geometry, s: State, run: seq<Step>)
    requires Inv(g, s) && Legal(g, s, run) && s.cut <= |s.trace|
    ensures var s' := After(g, s, run);
      s.cut <= s'.cut <= |s'.trace| && s'.trace[..s.cut] == s.trace[..s.cut]
  {
    hide Inv, Apply, Enabled;
    if run != [] {
      var mid := After(g, s, run[..|run| - 1]);
      RunKeeps(g, s, run[..|run| - 1]);
      RunDurable(g, s, run[..|run| - 1]);
      StepDurable(g, mid, run[|run| - 1]);
      var s' := After(g, s, run);
      assert s'.trace[..s.cut] == s'.trace[..mid.cut][..s.cut];
      assert mid.trace[..s.cut] == mid.trace[..mid.cut][..s.cut];
    }
  }

  /** When a commit closes, the whole history is durable. */
  lemma FinishIsDurable(g: Geometry, s: State)
    requires Inv(g, s) && Enabled(g, s, FinishStep)
    ensures Apply(g, s, FinishStep).cut == |Apply(g, s, FinishStep).trace|
  {
  }

  /** Once the end_op that commits has returned, whatever the file system had
      done by then is part of every later history, crashes included. */
  lemma CommitSurvives(g: Geometry, s0: State, before: seq<Step>, later: seq<Step>)
    requires Start(g, s0) && Legal(g, s0, before + [FinishStep] + later)
    ensures Legal(g, s0, before + [FinishStep])
    ensures After(g, s0, before + [FinishStep]).trace <= After(g, s0, before + [FinishStep] + later).trace
  {
    hide Inv, Apply, Enabled, Start;
    StartInv(g, s0);
    LegalSplit(g, s0, before + [FinishStep], later);
    LegalSplit(g, s0, before, [FinishStep]);
    var s := After(g, s0, before + [FinishStep]);
    RunKeeps(g, s0, before + [FinishStep]);
    RunKeeps(g, s0, before);
    assert (before + [FinishStep])[..|before + [FinishStep]| - 1] == before;
    FinishIsDurable(g, After(g, s0, before));
    RunDurable(g, s, later);
    assert s.trace[..s.cut] == s.trace;
  }

  /** Recovery: nothing but FinishStep at the very end turns booting off. */
  ghost predicate IsRecovery(run: seq<Step>) {
    && run != [] && run[|run| - 1] == FinishStep
    && forall i | 0 <= i < |run| - 1 :: run[i] != FinishStep
  }

  lemma RecoveryStep(g: Geometry, s: State, a: Step)
    requires Inv(g, s) && Enabled(g, s, a) && s.booting && s.cut == |s.trace| && a != FinishStep
    ensures var s' := Apply(g, s, a);
      s'.booting && s'.trace == s.trace && s'.cut == s.cut && s'.origin == s.origin
  {
    assert s.trace[..s.cut] == s.trace;
  }

  lemma {:induction false} RecoveryKeepsHistory(g: Geometry, s: State, run: seq<Step>)
    requires Inv(g, s) && s.booting && s.cut == |s.trace| && Legal(g, s, run)
    requires forall i | 0 <= i < |run| :: run[i] != FinishStep
    ensures var s' := After(g, s, run);
      s'.booting && s'.trace == s.trace && s'.cut == s.cut && s'.origin == s.origin
  {
    hide Inv, Apply, Enabled;
    if run != [] {
      var init := run[..|run| - 1];
      assert forall i | 0 <= i < |init| :: init[i] == run[i];
      RecoveryKeepsHistory(g, s, init);
      RunKeeps(g, s, init);
      RecoveryStep(g, After(g, s, init), run[|run| - 1]);
    }
  }

  /** The home blocks on disk are the effect of `durable`, which no operation straddles. */
  ghost predicate HoldsExactly(g: Geometry, d: Disk, origin: Disk, durable: seq<Event>) {
    && g.GoodDisk(d) && g.GoodDisk(origin) && GoodTrace(g, durable)
    && Active(durable) == {}
    && forall b: nat | g.Home(b) :: d[b] == Replay(g, origin, durable)[b]
  }

  lemma OpenHolds(g: Geometry, s: State)
    requires Inv(g, s) && s.phase == Open
    ensures HoldsExactly(g, s.disk, s.origin, s.trace[..s.cut])
  {
  }

  lemma CrashState(g: Geometry, s: State, t: Tid)
    requires Inv(g, s)
    ensures Enabled(g, s, CrashStep(t))
    ensures var c := Apply(g, s, CrashStep(t));
      c.booting && c.trace == s.trace[..s.cut] && c.cut == |c.trace| && c.origin == s.origin
  {
  }

  lemma FinishOpens(g: Geometry, s: State)
    requires Inv(g, s) && Enabled(g, s, FinishStep)
    ensures var s' := Apply(g, s, FinishStep);
      s'.phase == Open && s'.trace == s.trace && s'.cut == s.cut && s'.origin == s.origin
  {
  }

  /** Crash anywhere in any run, recover, crash again while recovering as often
      as you like: when recovery ends, the home blocks are exactly the effect of
      a prefix of the history that no operation straddles, and that prefix is
      the one whose write_head had finished. */
  lemma CrashAtomicity(g: Geometry, s0: State, before: seq<Step>, t: Tid, recovery: seq<Step>)
    requires Start(g, s0) && IsRecovery(recovery)
    requires Legal(g, s0, before + [CrashStep(t)] + recovery)
    ensures Legal(g, s0, before) && After(g, s0, before).cut <= |After(g, s0, before).trace|
    ensures var s := After(g, s0, before);
      var r := After(g, s0, before + [CrashStep(t)] + recovery);
      var durable := s.trace[..s.cut];
      r.phase == Open && r.trace == durable && HoldsExactly(g, r.disk, s.origin, durable)
  {
    hide Inv, Apply, Enabled, Start, HoldsExactly;
    StartInv(g, s0);
    var crashed := before + [CrashStep(t)];
    LegalSplit(g, s0, crashed, recovery);
    LegalSplit(g, s0, before, [CrashStep(t)]);
    assert crashed[..|crashed| - 1] == before;
    RunKeeps(g, s0, before);
    RunKeeps(g, s0, crashed);
    var s := After(g, s0, before);
    var c := After(g, s0, crashed);
    CrashState(g, s, t);
    StepDurable(g, s, CrashStep(t));
    var init := recovery[..|recovery| - 1];
    assert forall i | 0 <= i < |init| :: init[i] == recovery[i];
    assert recovery == init + [FinishStep];
    RecoveryKeepsHistory(g, c, init);
    RunKeeps(g, c, init);
    FinishOpens(g, After(g, c, init));
    RunKeeps(g, c, recovery);
    var r := After(g, c, recovery);
    OpenHolds(g, r);
    assert r.trace[..r.cut] == r.trace;
  }

  // ---------------------------------------------------------- coherent reads

  /** bread of a home block returns the current contents: the effect of every
      log_write so far, in every phase of a commit. */
  lemma ReadsAreCurrent(g: Geometry, s0: State, run: seq<Step>, t: Tid, b: nat)
    requires Start(g, s0) && Legal(g, s0, run + [BreadStep(t, b)])
    requires g.Home(b)
    ensures Legal(g, s0, run) && Inv(g, After(g, s0, run))
    ensures var s := After(g, s0, run);
      !s.booting ==>
        After(g, s0, run + [BreadStep(t, b)]).cache[b].data == Replay(g, s.origin, s.trace)[b]
  {
    StartInv(g, s0);
    LegalSplit(g, s0, run, [BreadStep(t, b)]);
    assert (run + [BreadStep(t, b)])[..|run + [BreadStep(t, b)]| - 1] == run;
    RunKeeps(g, s0, run);
    var s := After(g, s0, run);
    if !s.booting {
      assert b !in s.cache || !s.cache[b].dirty ==> b !in Unwritten(s);
    }
  }

  lemma InvAlone(g: Geometry, s: State)
    requires Inv(g, s)
    ensures (s.phase != Open ==> s.ops == map[]) && g.GoodHeader(s.header)
  {
  }

  /** While a commit runs no operation is outstanding, so log_write cannot
      change the header under it; header entries are distinct home blocks. */
  lemma CommitRunsAlone(g: Geometry, s0: State, run: seq<Step>)
    requires Start(g, s0) && Legal(g, s0, run)
    ensures var s := After(g, s0, run);
      (s.phase != Open ==> s.ops == map[]) && g.GoodHeader(s.header)
  {
    hide Inv, Start, Enabled, Apply;
    StartInv(g, s0);
    RunKeeps(g, s0, run);
    InvAlone(g, After(g, s0, run));
  }
}
