// The functions of log.c as code over the in-memory log, the buffer cache and
// the disk.  Each one is proved to take legal steps of LogMachine, one per
// block write, so that the theorems about runs cover a crash at any point
// inside it.

module LogCode {
  import opened Common
  import opened LogMachine
  import opened LogTheorems

  /** The blocks that a commit or a recovery uses: the logged ones and the log's own. */
  predicate InZone(g: Geometry, s: State, b: nat) { b in s.header || !g.Home(b) }

  /** Of those, thread t holds exactly the ones in x, and nobody the others.
      Buffers of other blocks may be held by anyone. */
  ghost predicate Holds(g: Geometry, s: State, t: Tid, x: set<nat>) {
    && (forall b | b in x :: b in s.cache && s.cache[b].owner == Some(t) && !s.cache[b].touched)
    && (forall b | b in s.cache && InZone(g, s, b) && b !in x :: s.cache[b].owner == None)
  }

  /** Nobody holds a buffer, as when the machine starts. */
  ghost predicate Idle(s: State) {
    forall b | b in s.cache :: s.cache[b].owner == None
  }

  lemma BreadHolds(g: Geometry, s: State, t: Tid, x: set<nat>, b: nat)
    requires Holds(g, s, t, x) && InZone(g, s, b) && b !in x && b < |s.disk| && (s.booting ==> t == s.committer)
    requires b in s.cache ==> !s.cache[b].touched
    ensures CanBread(s, t, b) && Holds(g, Bread(s, t, b), t, x + {b})
    ensures forall c | c in Bread(s, t, b).cache && c != b :: c in s.cache && Bread(s, t, b).cache[c] == s.cache[c]
  {
  }

  lemma BrelseHolds(g: Geometry, s: State, t: Tid, x: set<nat>, b: nat)
    requires Holds(g, s, t, x) && b in x
    ensures CanBrelse(s, t, b) && Holds(g, Brelse(s, t, b), t, x - {b})
  {
  }

  lemma BwriteHolds(g: Geometry, s: State, t: Tid, x: set<nat>, b: nat, data: Block, phase: Phase, cut: nat)
    requires Holds(g, s, t, x) && b in s.cache && b < |s.disk|
    ensures Holds(g, Bwrite(s, b, data).(phase := phase, cut := cut), t, x)
  {
  }

  lemma TakeTwo(g: Geometry, s: State, t: Tid, a: nat, b: nat)
    requires Holds(g, s, t, {}) && InZone(g, s, a) && InZone(g, s, b) && a != b && a < |s.disk| && b < |s.disk|
    requires (s.booting ==> t == s.committer) && forall c | c in s.cache :: !s.cache[c].touched
    ensures CanBread(s, t, a) && CanBread(Bread(s, t, a), t, b)
    ensures var u := Bread(Bread(s, t, a), t, b); Owns(u, t, a) && Owns(u, t, b) && Holds(g, u, t, {a, b})
  {
    hide Holds;
    BreadHolds(g, s, t, {}, a);
    BreadHolds(g, Bread(s, t, a), t, {} + {a}, b);
    assert {} + {a} + {b} == {a, b};
  }

  lemma GiveTwo(g: Geometry, s: State, t: Tid, a: nat, b: nat)
    requires Holds(g, s, t, {a, b}) && a != b
    ensures CanBrelse(s, t, a) && CanBrelse(Brelse(s, t, a), t, b)
    ensures Holds(g, Brelse(Brelse(s, t, a), t, b), t, {})
  {
    hide Holds;
    BrelseHolds(g, s, t, {a, b}, a);
    BrelseHolds(g, Brelse(s, t, a), t, {a, b} - {a}, b);
    assert {a, b} - {a} - {b} == {};
  }

  /** What the thread that commits or recovers may rely on. */
  lemma Quiet(g: Geometry, s: State)
    requires Inv(g, s) && s.phase != Open
    ensures |s.disk| == g.fssize && g.logStart < g.fssize && |s.header| <= g.capacity < g.words && !g.Home(g.logStart)
    ensures forall b | b in s.cache :: !s.cache[b].touched && |s.cache[b].data| == g.words
    ensures HeadOk(s.disk[g.logStart]) && forall b | b in s.cache && !g.Home(b) :: s.cache[b].data == s.disk[b]
    ensures s.phase.WriteLog? || s.phase.Install? ==>
      && s.phase.tail < |s.header|
      && g.LogBlk(s.phase.tail) < g.fssize && s.header[s.phase.tail] < g.fssize
      && g.LogBlk(s.phase.tail) != s.header[s.phase.tail] && !g.Home(g.LogBlk(s.phase.tail))
    ensures s.phase == ClearHead ==> s.header == []
    ensures s.phase.WriteLog? || s.phase == WriteHead ==> !s.booting
  {
    hide Replay, Active, GoodTrace, UpToDate, Logged;
    if s.phase.WriteLog? || s.phase.Install? {
      assert g.Home(s.header[s.phase.tail]);
    }
  }

  /** One round of write_log: its five steps and where they lead. */
  lemma WriteLogRound(g: Geometry, s: State, t: Tid) returns (s1: State, s2: State, s3: State, s4: State, s5: State)
    requires Inv(g, s) && Holds(g, s, t, {}) && s.phase.WriteLog? && s.committer == t
    ensures s.phase.tail < |s.header| <= g.capacity && !s.booting
    ensures var to, from := g.LogBlk(s.phase.tail), s.header[s.phase.tail];
      && CanBread(s, t, to) && s1 == Bread(s, t, to)
      && CanBread(s1, t, from) && s2 == Bread(s1, t, from)
      && CanWriteLog(g, s2) && s3 == WriteLogBlock(g, s2)
      && CanBrelse(s3, t, from) && s4 == Brelse(s3, t, from)
      && CanBrelse(s4, t, to) && s5 == Brelse(s4, t, to)
    ensures s5 == s.(disk := s5.disk, cache := s5.cache, phase := s5.phase) && Holds(g, s5, t, {})
    ensures s5.phase == if s.phase.tail + 1 < |s.header| then WriteLog(s.phase.tail + 1) else WriteHead
  {
    hide Inv, Holds;
    Quiet(g, s);
    var to, from := g.LogBlk(s.phase.tail), s.header[s.phase.tail];
    TakeTwo(g, s, t, to, from);
    s1 := Bread(s, t, to);
    s2 := Bread(s1, t, from);
    s3 := WriteLogBlock(g, s2);
    BwriteHolds(g, s2, t, {to, from}, to, s2.cache[from].data, s3.phase, s3.cut);
    assert {to, from} == {from, to};
    GiveTwo(g, s3, t, from, to);
    s4 := Brelse(s3, t, from);
    s5 := Brelse(s4, t, to);
  }

  /** One round of install_trans. */
  lemma InstallRound(g: Geometry, s: State, t: Tid) returns (s1: State, s2: State, s3: State, s4: State, s5: State)
    requires Inv(g, s) && Holds(g, s, t, {}) && s.phase.Install? && s.committer == t
    ensures s.phase.tail < |s.header| <= g.capacity
    ensures var from, to := g.LogBlk(s.phase.tail), s.header[s.phase.tail];
      && CanBread(s, t, from) && s1 == Bread(s, t, from)
      && CanBread(s1, t, to) && s2 == Bread(s1, t, to)
      && CanInstall(g, s2) && s3 == InstallBlock(g, s2)
      && CanBrelse(s3, t, from) && s4 == Brelse(s3, t, from)
      && CanBrelse(s4, t, to) && s5 == Brelse(s4, t, to)
    ensures s5 == s.(disk := s5.disk, cache := s5.cache, phase := s5.phase) && Holds(g, s5, t, {})
    ensures s5.phase == if s.phase.tail + 1 < |s.header| then Install(s.phase.tail + 1) else Installed
  {
    hide Inv, Holds;
    Quiet(g, s);
    var from, to := g.LogBlk(s.phase.tail), s.header[s.phase.tail];
    TakeTwo(g, s, t, from, to);
    s1 := Bread(s, t, from);
    s2 := Bread(s1, t, to);
    s3 := InstallBlock(g, s2);
    BwriteHolds(g, s2, t, {from, to}, to, s2.cache[from].data, s3.phase, s3.cut);
    GiveTwo(g, s3, t, from, to);
    s4 := Brelse(s3, t, from);
    s5 := Brelse(s4, t, to);
  }

  /** write_head, for a commit or to clear the log. */
  lemma HeadRound(g: Geometry, s: State, t: Tid) returns (s1: State, s2: State, s3: State)
    requires Inv(g, s) && Holds(g, s, t, {}) && (s.phase == WriteHead || s.phase == ClearHead) && s.committer == t
    ensures CanBread(s, t, g.logStart) && s1 == Bread(s, t, g.logStart)
    ensures |s1.header| < |s1.cache[g.logStart].data|
    ensures s.phase == WriteHead ==> CanWriteHead(g, s1) && s2 == CommitHead(g, s1)
    ensures s.phase == ClearHead ==> s.header == [] && CanClearHead(g, s1) && s2 == EraseHead(g, s1)
    ensures CanBrelse(s2, t, g.logStart) && s3 == Brelse(s2, t, g.logStart) && Holds(g, s3, t, {})
    ensures s3 == s.(disk := s3.disk, cache := s3.cache, phase := s3.phase, cut := s3.cut)
    ensures s3.phase == if s.phase == WriteHead then Install(0) else Closing
    ensures s3.cut == if s.phase == WriteHead then |s.trace| else s.cut
  {
    hide Inv;
    Quiet(g, s);
    HeadSize(g, s);
    BreadHolds(g, s, t, {}, g.logStart);
    s1 := Bread(s, t, g.logStart);
    assert Owns(s1, t, g.logStart);
    var x := EncodeHead(s1.cache[g.logStart].data, s.header);
    s2 := if s.phase == WriteHead then CommitHead(g, s1) else EraseHead(g, s1);
    BwriteHolds(g, s1, t, {} + {g.logStart}, g.logStart, x, s2.phase, s2.cut);
    BrelseHolds(g, s2, t, {} + {g.logStart}, g.logStart);
    s3 := Brelse(s2, t, g.logStart);
    assert {} + {g.logStart} - {g.logStart} == {};
  }

  lemma HeadSize(g: Geometry, s: State)
    requires Inv(g, s)
    ensures g.logStart < |s.disk| && |s.disk[g.logStart]| == g.words
  {
  }

  /** read_head. */
  lemma ReadRound(g: Geometry, s: State, t: Tid) returns (s1: State, s2: State, s3: State)
    requires Inv(g, s) && Idle(s) && s.phase == Boot && s.committer == t
    ensures CanBread(s, t, g.logStart) && s1 == Bread(s, t, g.logStart)
    ensures CanReadHead(g, s1) && s2 == ReadHead(g, s1) && |s2.header| <= g.capacity
    ensures CanBrelse(s2, t, g.logStart) && s3 == Brelse(s2, t, g.logStart) && Holds(g, s3, t, {})
    ensures s3 == s.(header := s2.header, cache := s3.cache, phase := s2.phase)
  {
    hide Inv;
    Quiet(g, s);
    BreadHolds(g, s, t, {}, g.logStart);
    s1 := Bread(s, t, g.logStart);
    assert Owns(s1, t, g.logStart) && s1.cache[g.logStart].data == s.disk[g.logStart];
    BreadKeeps(g, s, t, g.logStart);
    s2 := ReadHead(g, s1);
    ReadHeadKeeps(g, s1);
    Quiet(g, s2);
    assert Holds(g, s2, t, {} + {g.logStart});
    BrelseHolds(g, s2, t, {} + {g.logStart}, g.logStart);
    s3 := Brelse(s2, t, g.logStart);
    assert {} + {g.logStart} - {g.logStart} == {};
  }

  lemma OpsMeanOpen(g: Geometry, s: State, t: Tid)
    requires Inv(g, s) && t in s.ops
    ensures s.phase == Open && !s.booting
  {
  }

  lemma BootingAt(g: Geometry, s: State)
    requires Inv(g, s) && s.phase == Boot
    ensures s.booting && s.cut == |s.trace|
  {
  }

  lemma LogWriteTaken(g: Geometry, s0: State, run: seq<Step>, t: Tid, b: nat)
    requires Legal(g, s0, run) && CanLogWrite(g, After(g, s0, run), t, b)
    ensures Legal(g, s0, run + [LogWriteStep(t, b)])
    ensures After(g, s0, run + [LogWriteStep(t, b)]) == LogWrite(After(g, s0, run), t, b)
  {
    LegalSnoc(g, s0, run, LogWriteStep(t, b));
  }

  lemma EndTaken(g: Geometry, s0: State, run: seq<Step>, t: Tid)
    requires Legal(g, s0, run) && CanEnd(After(g, s0, run), t)
    ensures Legal(g, s0, run + [EndStep(t)])
    ensures After(g, s0, run + [EndStep(t)]) == EndOp(After(g, s0, run), t)
  {
    LegalSnoc(g, s0, run, EndStep(t));
  }

  lemma EndFields(s: State, t: Tid)
    requires t in s.ops && s.phase == Open
    ensures var e := EndOp(s, t);
      && e == s.(ops := e.ops, phase := e.phase, committer := e.committer, trace := e.trace, cut := e.cut)
      && |e.ops| == |s.ops| - 1 && (e.phase == Open <==> |s.ops| > 1)
  {
    assert (s.ops - {t}).Keys == s.ops.Keys - {t};
  }

  class Log {
    const g: Geometry

    // struct log
    var outstanding: nat
    var committing: bool
    var n: nat                 // lh.n
    const block: array<nat>    // lh.block

    // the device and its cache
    var disk: Disk
    var cache: map<nat, Buf>

    // history
    ghost var ops: map<Tid, set<nat>>
    ghost var phase: Phase
    ghost var committer: Tid
    ghost var booting: bool
    ghost var origin: Disk
    ghost var trace: seq<Event>
    ghost var cut: nat
    ghost var start: State
    ghost var run: seq<Step>

    ghost function Abs(): State
      reads this, block
      requires n <= block.Length
    {
      State(disk, cache, block[..n], ops, phase, committer, booting, origin, trace, cut)
    }

    /** The object is in the state its recorded run leads to. */
    ghost predicate Valid()
      reads this, block
    {
      && block.Length == g.capacity && n <= block.Length
      && outstanding == |ops| && committing == (phase != Open && !booting)
      && Start(g, start) && Legal(g, start, run) && After(g, start, run) == Abs()
    }

    lemma Invariant()
      requires Valid()
      ensures Inv(g, Abs())
    {
      hide Inv, Enabled, Apply;
      StartInv(g, start);
      RunKeeps(g, start, run);
    }

    /** The log memory of a machine that starts on a disk with a well-formed log. */
    constructor (g: Geometry, disk: Disk, ghost origin: Disk)
      requires GoodImage(g, disk) && g.GoodDisk(origin)
      requires forall b: nat | g.Home(b) :: origin[b] == Recovered(g, disk, b)
      ensures Valid() && this.g == g && this.disk == disk && this.origin == origin
      ensures phase == Boot && cache == map[] && fresh(block)
    {
      this.g := g;
      outstanding, committing, n := 0, false, 0;
      block := new nat[g.capacity];
      this.disk, cache := disk, map[];
      ops, phase, committer, booting := map[], Boot, 0, true;
      this.origin, trace, cut := origin, [], 0;
      new;
      start, run := Abs(), [];
    }

    /** The history takes step a, which leads to e: what the code has done already. */
    ghost method Account(e: State, a: Step)
      requires block.Length == g.capacity && n <= block.Length
      requires e.disk == disk && e.cache == cache && e.header == block[..n]
      requires e.booting == booting && e.origin == origin
      requires outstanding == |e.ops| && committing == (e.phase != Open && !e.booting)
      requires Start(g, start) && Legal(g, start, run + [a]) && After(g, start, run + [a]) == e
      modifies `ops, `phase, `committer, `trace, `cut, `run
      ensures Valid() && Abs() == e && run == old(run) + [a]
    {
      hide Start, Legal, Exec;
      ops, phase, committer, trace, cut := e.ops, e.phase, e.committer, e.trace, e.cut;
      run := run + [a];
    }

    // ------------------------------------------------------- bio.c, one block

    method Bread(t: Tid, b: nat)
      requires Valid() && CanBread(Abs(), t, b)
      modifies this
      ensures Valid() && Abs() == LogMachine.Bread(old(Abs()), t, b) && n == old(n)
      ensures run == old(run) + [BreadStep(t, b)] && start == old(start)
    {
      hide Start, Legal, Exec;
      LegalSnoc(g, start, run, BreadStep(t, b));
      if b in cache {
        cache := cache[b := cache[b].(owner := Some(t))];
      } else {
        cache := cache[b := Buf(disk[b], false, Some(t), false)];
      }
      run := run + [BreadStep(t, b)];
    }

    method Brelse(t: Tid, b: nat)
      requires Valid() && CanBrelse(Abs(), t, b)
      modifies this
      ensures Valid() && Abs() == LogMachine.Brelse(old(Abs()), t, b) && n == old(n)
      ensures run == old(run) + [BrelseStep(t, b)] && start == old(start)
    {
      hide Start, Legal, Exec;
      LegalSnoc(g, start, run, BrelseStep(t, b));
      cache := cache[b := cache[b].(owner := None)];
      run := run + [BrelseStep(t, b)];
    }

    // --------------------------------------------------------- system calls

    /** One pass of begin_op's loop; false means the caller sleeps. */
    method BeginOp(t: Tid) returns (begun: bool)
      requires Valid() && !booting && t !in ops
      modifies this
      ensures Valid() && start == old(start)
      ensures begun <==> old(!committing && n + (outstanding + 1) * g.maxOp <= g.capacity)
      ensures begun ==> Abs() == LogMachine.BeginOp(old(Abs()), t) && run == old(run) + [BeginStep(t)]
      ensures !begun ==> Abs() == old(Abs()) && run == old(run)
    {
      hide Start, Legal, Exec;
      if committing {
        return false;
      } else if n + (outstanding + 1) * g.maxOp > g.capacity {
        return false;
      }
      LegalSnoc(g, start, run, BeginStep(t));
      outstanding := outstanding + 1;
      ops, trace := ops[t := {}], trace + [Begin(t)];
      run := run + [BeginStep(t)];
      return true;
    }

    /** The locked part of log_write: enter b in the header unless it is there. */
    method Record(b: nat)
      requires n < block.Length
      modifies this`n, block
      ensures n <= block.Length
      ensures block[..n] == if b in old(block[..n]) then old(block[..n]) else old(block[..n]) + [b]
    {
      ghost var h := block[..n];
      var i := 0;
      while i < n && block[i] != b
        invariant 0 <= i <= n && b !in h[..i]
      {
        i := i + 1;
      }
      assert i == n ==> h[..i] == h;
      block[i] := b;
      if i == n {
        n := n + 1;
      }
      assert block[..n] == if b in h then h else h + [b];
    }

    /** Returns false where the source panics. */
    method LogWrite(t: Tid, b: nat) returns (ok: bool)
      requires Valid() && Owns(Abs(), t, b) && t in ops && g.Home(b)
      modifies this, block
      ensures Valid() && start == old(start)
      ensures ok <==> !LogWritePanics(g, old(Abs()))
      ensures ok ==> Abs() == LogMachine.LogWrite(old(Abs()), t, b) && run == old(run) + [LogWriteStep(t, b)]
      ensures !ok ==> Abs() == old(Abs()) && run == old(run)
    {
      hide Start, Legal, Exec, Enabled, Apply;
      if n >= g.capacity || n + 1 >= g.nlog {
        return false;
      }
      if outstanding < 1 {
        return false;
      }
      LogWriteTaken(g, start, run, t, b);
      ghost var e := LogMachine.LogWrite(Abs(), t, b);
      Record(b);
      cache := cache[b := cache[b].(dirty := true, touched := false)];
      assert e.ops.Keys == ops.Keys;
      Account(e, LogWriteStep(t, b));
      return true;
    }

    // --------------------------------------------------------------- commit

    /** memmove and bwrite of one log block. */
    method WriteToLog(tail: nat)
      requires Valid() && phase == WriteLog(tail) && CanWriteLog(g, Abs())
      modifies this`cache, this`disk, this`phase, this`run
      ensures Valid() && Abs() == WriteLogBlock(g, old(Abs()))
      ensures run == old(run) + [WriteLogStep]
    {
      hide Start, Legal, Exec;
      LegalSnoc(g, start, run, WriteLogStep);
      var to, from := g.LogBlk(tail), block[tail];
      var data := cache[from].data;
      cache := cache[to := cache[to].(data := data, dirty := false)];
      disk := disk[to := data];
      phase := if tail + 1 < n then WriteLog(tail + 1) else WriteHead;
      run := run + [WriteLogStep];
    }

    /** The body of write_log's loop: copy one cached block to the log. */
    method CopyToLog(t: Tid, tail: nat)
      requires Valid() && Holds(g, Abs(), t, {}) && phase == WriteLog(tail) && committer == t
      modifies this
      ensures Valid() && Holds(g, Abs(), t, {}) && committer == t && tail < n && booting == old(booting)
      ensures phase == if tail + 1 < n then WriteLog(tail + 1) else WriteHead
      ensures n == old(n) && trace == old(trace) && start == old(start) && origin == old(origin) && old(run) <= run
    {
      hide Start, Legal, Exec, Enabled, Apply, Inv, Holds;
      Invariant();
      ghost var s1, s2, s3, s4, s5 := WriteLogRound(g, Abs(), t);
      var to, from := g.LogBlk(tail), block[tail];
      Bread(t, to);
      Bread(t, from);
      WriteToLog(tail);
      Brelse(t, from);
      Brelse(t, to);
    }

    /** write_log: copy every logged block from the cache to the log. */
    method WriteLogBlocks(t: Tid)
      requires Valid() && Holds(g, Abs(), t, {}) && phase == WriteLog(0) && committer == t && 0 < n
      modifies this
      ensures Valid() && Holds(g, Abs(), t, {}) && phase == WriteHead && committer == t && booting == old(booting)
      ensures n == old(n) && trace == old(trace) && start == old(start) && origin == old(origin) && old(run) <= run
    {
      hide Start, Legal, Exec, Holds;
      var tail := 0;
      while tail < n
        invariant Valid() && Holds(g, Abs(), t, {}) && committer == t && tail <= n
        invariant phase == (if tail < n then WriteLog(tail) else WriteHead) && booting == old(booting)
        invariant n == old(n) && trace == old(trace) && start == old(start) && origin == old(origin) && old(run) <= run
      {
        CopyToLog(t, tail);
        tail := tail + 1;
      }
    }

    /** The loop of write_head: the header over the old contents of its block. */
    method FillHeader(old_: Block) returns (hb: Block)
      requires n <= block.Length && n < |old_|
      ensures hb == EncodeHead(old_, block[..n])
    {
      hb := old_[0 := n];
      var i := 0;
      while i < n
        invariant 0 <= i <= n && hb == [n] + block[..i] + old_[1 + i..]
      {
        hb := hb[1 + i := block[i]];
        i := i + 1;
      }
    }

    /** bwrite of the header block: the commit point, or the end of a commit. */
    method PutHeader(hb: Block)
      requires Valid() && (CanWriteHead(g, Abs()) || (CanClearHead(g, Abs()) && n == 0))
      requires |Abs().header| < |cache[g.logStart].data| && hb == EncodeHead(cache[g.logStart].data, block[..n])
      modifies `cache, `disk, `ops, `phase, `committer, `trace, `cut, `run
      ensures Valid()
      ensures old(phase) == WriteHead ==> Abs() == CommitHead(g, old(Abs())) && run == old(run) + [WriteHeadStep]
      ensures old(phase) == ClearHead ==> Abs() == EraseHead(g, old(Abs())) && run == old(run) + [ClearHeadStep]
    {
      hide Start, Legal, Exec;
      ghost var a := if phase == WriteHead then WriteHeadStep else ClearHeadStep;
      ghost var e := if phase == WriteHead then CommitHead(g, Abs()) else EraseHead(g, Abs());
      assert n == 0 ==> block[..n] == [];
      LegalSnoc(g, start, run, a);
      cache := cache[g.logStart := cache[g.logStart].(data := hb, dirty := false)];
      disk := disk[g.logStart := hb];
      Account(e, a);
    }

    method WriteHeader(t: Tid)
      requires Valid() && Holds(g, Abs(), t, {}) && (phase == WriteHead || phase == ClearHead) && committer == t
      modifies this
      ensures Valid() && Holds(g, Abs(), t, {}) && committer == t
      ensures old(phase) == WriteHead ==> phase == Install(0) && cut == |trace|
      ensures old(phase) == ClearHead ==> phase == Closing && cut == old(cut)
      ensures n == old(n) && trace == old(trace) && booting == old(booting)
      ensures start == old(start) && origin == old(origin) && old(run) <= run
    {
      hide Start, Legal, Exec, Inv, Holds, Enabled, Apply, EncodeHead;
      Invariant();
      ghost var s1, s2, s3 := HeadRound(g, Abs(), t);
      Bread(t, g.logStart);
      var hb := FillHeader(cache[g.logStart].data);
      PutHeader(hb);
      Brelse(t, g.logStart);
    }

    /** memmove and bwrite of one home block. */
    method WriteHome(tail: nat)
      requires Valid() && phase == Install(tail) && CanInstall(g, Abs())
      modifies this`cache, this`disk, this`phase, this`run
      ensures Valid() && Abs() == InstallBlock(g, old(Abs()))
      ensures run == old(run) + [InstallStep]
    {
      hide Start, Legal, Exec;
      LegalSnoc(g, start, run, InstallStep);
      var from, to := g.LogBlk(tail), block[tail];
      var data := cache[from].data;
      cache := cache[to := cache[to].(data := data, dirty := false)];
      disk := disk[to := data];
      phase := if tail + 1 < n then Install(tail + 1) else Installed;
      run := run + [InstallStep];
    }

    /** The body of install_trans' loop: copy one block from the log to its home. */
    method CopyHome(t: Tid, tail: nat)
      requires Valid() && Holds(g, Abs(), t, {}) && phase == Install(tail) && committer == t
      modifies this
      ensures Valid() && Holds(g, Abs(), t, {}) && committer == t && tail < n
      ensures phase == if tail + 1 < n then Install(tail + 1) else Installed
      ensures n == old(n) && trace == old(trace) && cut == old(cut) && booting == old(booting)
      ensures start == old(start) && origin == old(origin) && old(run) <= run
    {
      hide Start, Legal, Exec, Enabled, Apply, Inv, Holds;
      Invariant();
      ghost var s1, s2, s3, s4, s5 := InstallRound(g, Abs(), t);
      var from, to := g.LogBlk(tail), block[tail];
      Bread(t, from);
      Bread(t, to);
      WriteHome(tail);
      Brelse(t, from);
      Brelse(t, to);
    }

    /** install_trans: copy every logged block to its home. */
    method InstallTrans(t: Tid)
      requires Valid() && Holds(g, Abs(), t, {}) && committer == t
      requires phase == if n > 0 then Install(0) else Installed
      modifies this
      ensures Valid() && Holds(g, Abs(), t, {}) && phase == Installed && committer == t
      ensures n == old(n) && trace == old(trace) && cut == old(cut) && booting == old(booting)
      ensures start == old(start) && origin == old(origin) && old(run) <= run
    {
      hide Start, Legal, Exec, Holds;
      var tail := 0;
      while tail < n
        invariant Valid() && Holds(g, Abs(), t, {}) && committer == t && tail <= n
        invariant phase == if tail < n then Install(tail) else Installed
        invariant n == old(n) && trace == old(trace) && cut == old(cut) && booting == old(booting)
        invariant start == old(start) && origin == old(origin) && old(run) <= run
      {
        CopyHome(t, tail);
        tail := tail + 1;
      }
    }

    /** Set lh.n to 0 and write the header: the log is empty again. */
    method ClearLog(t: Tid)
      requires Valid() && Holds(g, Abs(), t, {}) && phase == Installed && committer == t
      modifies this
      ensures Valid() && Holds(g, Abs(), t, {}) && phase == Closing && committer == t && n == 0
      ensures trace == old(trace) && cut == old(cut) && booting == old(booting)
      ensures start == old(start) && origin == old(origin) && old(run) <= run
    {
      hide Start, Legal, Exec;
      LegalSnoc(g, start, run, ForgetStep);
      n, phase := 0, ClearHead;
      assert block[..n] == [];
      run := run + [ForgetStep];
      WriteHeader(t);
    }

    method Commit(t: Tid)
      requires Valid() && Holds(g, Abs(), t, {}) && committer == t && !booting
      requires if n > 0 then phase == WriteLog(0) else phase == Closing && cut == |trace|
      modifies this
      ensures Valid() && Holds(g, Abs(), t, {}) && phase == Closing && committer == t && n == 0 && !booting
      ensures trace == old(trace) && cut == |trace| && start == old(start) && origin == old(origin) && old(run) <= run
    {
      hide Start, Legal, Exec, Holds;
      if n > 0 {
        WriteLogBlocks(t);
        WriteHeader(t);
        InstallTrans(t);
        ClearLog(t);
      }
    }

    // ----------------------------------------------- end_op and recovery, whole

    /** In the Open phase with nothing logged, the disk holds the whole history. */
    lemma Settled()
      requires Valid() && phase == Open && cut == |trace|
      ensures HoldsExactly(g, disk, origin, trace)
    {
      hide Start, Legal, Exec, Inv, HoldsExactly;
      Invariant();
      OpenHolds(g, Abs());
      assert trace[..cut] == trace;
    }

    /** log.committing := 0. */
    method Release(t: Tid)
      requires Valid() && phase == Closing && n == 0 && cut == |trace|
      modifies this
      ensures Valid() && phase == Open && !booting && n == 0 && !committing
      ensures trace == old(trace) && cut == |trace| && cache == old(cache) && committer == old(committer)
      ensures disk == old(disk) && ops == old(ops) && start == old(start) && origin == old(origin)
      ensures run == old(run) + [FinishStep]
    {
      hide Start, Legal, Exec;
      LegalSnoc(g, start, run, FinishStep);
      committing := false;
      phase, booting := Open, false;
      run := run + [FinishStep];
    }

    /** end_op up to the release of log.lock. */
    method LeaveOp(t: Tid) returns (doCommit: bool)
      requires Valid() && CanEnd(Abs(), t)
      modifies this
      ensures Valid() && Abs() == LogMachine.EndOp(old(Abs()), t) && n == old(n)
      ensures doCommit <==> old(outstanding) == 1
      ensures !booting
      ensures start == old(start) && run == old(run) + [EndStep(t)]
    {
      hide Start, Legal, Exec, Enabled, Apply, Inv, LogMachine.EndOp;
      Invariant();
      OpsMeanOpen(g, Abs(), t);
      EndTaken(g, start, run, t);
      EndFields(Abs(), t);
      ghost var e := LogMachine.EndOp(Abs(), t);
      outstanding := outstanding - 1;
      if committing {
        assert false;    // panic("log.committing")
      }
      doCommit := outstanding == 0;
      if doCommit {
        committing := true;
      }
      Account(e, EndStep(t));
    }

    /** The last operation to end commits the whole group before it returns. */
    method EndOp(t: Tid)
      requires Valid() && CanEnd(Abs(), t)
      requires outstanding == 1 ==> Holds(g, Abs(), t, {})
      modifies this
      ensures Valid() && start == old(start) && old(run) <= run
      ensures old(outstanding) > 1 ==> Abs() == LogMachine.EndOp(old(Abs()), t)
      ensures old(outstanding) == 1 ==>
        && phase == Open && n == 0 && outstanding == 0 && trace == old(trace) + [End(t)]
        && HoldsExactly(g, disk, old(origin), trace)
    {
      hide Start, Legal, Exec, Inv, Enabled, Apply, HoldsExactly;
      var doCommit := LeaveOp(t);
      if doCommit {
        Commit(t);
        Invariant();
        InvAlone(g, Abs());
        Release(t);
        Settled();
      }
    }

    /** The loop of read_head. */
    method CopyHeader(blk: Block)
      requires HeadOk(blk) && blk[0] <= block.Length
      modifies this`n, block
      ensures n <= block.Length && block[..n] == DecodeHead(blk)
    {
      n := blk[0];
      var i := 0;
      while i < n
        invariant 0 <= i <= n == blk[0] && block[..i] == blk[1..1 + i]
      {
        block[i] := blk[1 + i];
        i := i + 1;
      }
    }

    method ReadHeader(t: Tid)
      requires Valid() && Idle(Abs()) && phase == Boot && committer == t
      modifies this, block
      ensures Valid() && Holds(g, Abs(), t, {}) && committer == t && booting
      ensures phase == if n > 0 then Install(0) else Installed
      ensures trace == old(trace) && cut == old(cut)
      ensures start == old(start) && origin == old(origin) && old(run) <= run
    {
      hide Start, Legal, Exec, Inv, Holds;
      Invariant();
      BootingAt(g, Abs());
      ghost var s1, s2, s3 := ReadRound(g, Abs(), t);
      Bread(t, g.logStart);
      LegalSnoc(g, start, run, ReadHeadStep);
      CopyHeader(cache[g.logStart].data);
      phase := if n > 0 then Install(0) else Installed;
      run := run + [ReadHeadStep];
      Brelse(t, g.logStart);
    }

    /** recover_from_log: the home blocks become the effect of the durable history. */
    method RecoverFromLog(t: Tid)
      requires Valid() && phase == Boot && committer == t && Idle(Abs())
      modifies this, block
      ensures Valid() && start == old(start) && old(run) <= run
      ensures phase == Open && n == 0 && !booting && trace == old(trace)
      ensures HoldsExactly(g, disk, old(origin), trace)
    {
      hide Start, Legal, Exec, Inv, Enabled, Apply, HoldsExactly, Holds;
      Invariant();
      BootingAt(g, Abs());
      ReadHeader(t);
      InstallTrans(t);
      ClearLog(t);
      Release(t);
      Settled();
    }
  }
}
