// The write-ahead log of log.c as a state machine over single block writes.
//
// Every thread takes steps of its own: a region run under log.lock is one
// step, a buffer is held between bread and brelse, and each bwrite changes one
// disk block.  A crash may happen in any state, also while the log is being
// recovered.  Two history variables record what the file system did: `trace`
// lists begin_op, log_write and end_op in order, and `cut` is the length of
// the prefix of `trace` that is safe on disk.

module LogMachine {
  import opened Common

  type Block = seq<nat>          // a block as 32-bit words
  type Disk = seq<Block>
  type Tid = nat

  /** Sizes fixed by param.h, fs.h and the superblock. */
  datatype Geometry = Geometry(
    fssize: nat,     // blocks on the disk
    logStart: nat,   // first log block: the header
    nlog: nat,       // log blocks, the header included
    capacity: nat,   // LOGSIZE
    maxOp: nat,      // MAXOPBLOCKS
    words: nat)      // words in a block
  {
    predicate Valid() {
      && 1 <= nlog
      && logStart + nlog <= fssize
      && capacity + 1 < words      // initlog panics otherwise
    }

    /** A block outside the log: the only kind the file system writes. */
    predicate Home(b: nat) {
      b < fssize && !(logStart <= b < logStart + nlog)
    }

    /** The log block that holds the i-th logged block. */
    function LogBlk(i: nat): nat { logStart + 1 + i }

    /** A header the code can have written. */
    predicate GoodHeader(h: seq<nat>) {
      && |h| <= capacity && |h| < nlog
      && (forall i | 0 <= i < |h| :: Home(h[i]))
      && (forall i, j | 0 <= i < j < |h| :: h[i] != h[j])
    }

    ghost predicate GoodDisk(d: Disk) {
      |d| == fssize && forall b | 0 <= b < |d| :: |d[b]| == words
    }
  }

  datatype Event = Begin(t: Tid) | Write(t: Tid, b: nat, data: Block) | End(t: Tid)

  datatype Buf = Buf(data: Block, dirty: bool, owner: Option<Tid>, touched: bool)

  // Where the thread that runs commit() or recover_from_log() stands.
  datatype Phase =
    | Boot                   // about to read the header
    | Open                   // log.committing == 0
    | WriteLog(tail: nat)
    | WriteHead
    | Install(tail: nat)
    | Installed              // about to set log.lh.n to 0
    | ClearHead
    | Closing                // about to clear log.committing

  datatype State = State(
    disk: Disk,
    cache: map<nat, Buf>,
    header: seq<nat>,        // log.lh.block[..log.lh.n]
    ops: map<Tid, set<nat>>, // outstanding operations and the blocks they have logged
    phase: Phase,
    committer: Tid,
    booting: bool,
    origin: Disk,            // history: the home blocks at the start
    trace: seq<Event>,       // history: what the file system did
    cut: nat)                // history: how much of it is durable

  // ---------------------------------------------------------------- history

  predicate GoodEvent(g: Geometry, e: Event) {
    e.Write? ==> g.Home(e.b) && |e.data| == g.words
  }

  predicate GoodTrace(g: Geometry, ev: seq<Event>) {
    forall i | 0 <= i < |ev| :: GoodEvent(g, ev[i])
  }

  /** The home blocks after applying every logged write in order. */
  function Replay(g: Geometry, d: Disk, ev: seq<Event>): (r: Disk)
    requires g.GoodDisk(d) && GoodTrace(g, ev)
    ensures g.GoodDisk(r)
  {
    if ev == [] then d
    else
      var before := Replay(g, d, ev[..|ev| - 1]);
      var e := ev[|ev| - 1];
      assert GoodEvent(g, e);
      if e.Write? then before[e.b := e.data] else before
  }

  function ActiveAfter(before: set<Tid>, e: Event): set<Tid> {
    match e
    case Begin(t) => before + {t}
    case Write(_, _, _) => before
    case End(t) => before - {t}
  }

  /** Operations begun and not yet ended. */
  function Active(ev: seq<Event>): set<Tid> {
    if ev == [] then {} else ActiveAfter(Active(ev[..|ev| - 1]), ev[|ev| - 1])
  }

  // ------------------------------------------------------- the log on disk

  /** A header block whose count fits in the block. */
  predicate HeadOk(blk: Block) { 0 < |blk| && blk[0] < |blk| }

  /** read_head: the block numbers stored in a header block. */
  function DecodeHead(blk: Block): (h: seq<nat>)
    requires HeadOk(blk)
  {
    blk[1..1 + blk[0]]
  }

  /** write_head: the header is written over the old contents of the block. */
  function EncodeHead(blk: Block, h: seq<nat>): (r: Block)
    requires |h| < |blk|
    ensures |r| == |blk| && HeadOk(r)
    ensures DecodeHead(r) == h
  {
    [|h|] + h + blk[1 + |h|..]
  }

  /** What block b holds after installing the first n logged blocks, in order. */
  function Overlay(g: Geometry, d: Disk, h: seq<nat>, n: nat, b: nat): Block
    requires n <= |h| && b < |d| && g.logStart + n < |d|
  {
    if n == 0 then d[b]
    else if h[n - 1] == b then d[g.LogBlk(n - 1)]
    else Overlay(g, d, h, n - 1, b)
  }

  lemma {:induction false} OverlayHit(g: Geometry, d: Disk, h: seq<nat>, n: nat, i: nat)
    requires n <= |h| && i < n && h[i] < |d| && g.logStart + n < |d|
    requires forall j, k | 0 <= j < k < |h| :: h[j] != h[k]
    ensures Overlay(g, d, h, n, h[i]) == d[g.LogBlk(i)]
  {
    if i < n - 1 {
      OverlayHit(g, d, h, n - 1, i);
    }
  }

  lemma {:induction false} OverlayMiss(g: Geometry, d: Disk, h: seq<nat>, n: nat, b: nat)
    requires n <= |h| && b < |d| && g.logStart + n < |d| && b !in h
    ensures Overlay(g, d, h, n, b) == d[b]
  {
    if n > 0 {
      OverlayMiss(g, d, h, n - 1, b);
    }
  }

  ghost predicate GoodImage(g: Geometry, d: Disk) {
    g.Valid() && g.GoodDisk(d) && HeadOk(d[g.logStart]) && g.GoodHeader(DecodeHead(d[g.logStart]))
  }

  /** The home block that recover_from_log would produce from this disk. */
  ghost function Recovered(g: Geometry, d: Disk, b: nat): Block
    requires GoodImage(g, d) && b < g.fssize
  {
    var h := DecodeHead(d[g.logStart]);
    Overlay(g, d, h, |h|, b)
  }

  // ------------------------------------------------------------------ steps

  predicate Owns(s: State, t: Tid, b: nat) {
    b in s.cache && s.cache[b].owner == Some(t)
  }

  predicate CanBread(s: State, t: Tid, b: nat) {
    && b < |s.disk| && (b in s.cache ==> s.cache[b].owner == None)
    && (s.booting ==> t == s.committer)
  }

  function Bread(s: State, t: Tid, b: nat): State
    requires CanBread(s, t, b)
  {
    var u := if b in s.cache then s.cache[b].(owner := Some(t)) else Buf(s.disk[b], false, Some(t), false);
    s.(cache := s.cache[b := u])
  }

  predicate CanBrelse(s: State, t: Tid, b: nat) { Owns(s, t, b) && !s.cache[b].touched }

  function Brelse(s: State, t: Tid, b: nat): State
    requires CanBrelse(s, t, b)
  {
    s.(cache := s.cache[b := s.cache[b].(owner := None)])
  }

  predicate CanEvict(s: State, b: nat) {
    b in s.cache && s.cache[b].owner == None && !s.cache[b].dirty
  }

  function Evict(s: State, b: nat): State { s.(cache := s.cache - {b}) }

  predicate CanModify(g: Geometry, s: State, t: Tid, b: nat, x: Block) {
    Owns(s, t, b) && t in s.ops && g.Home(b) && |x| == g.words
  }

  function Modify(s: State, t: Tid, b: nat, x: Block): State
    requires Owns(s, t, b)
  {
    s.(cache := s.cache[b := s.cache[b].(data := x, touched := true)])
  }

  /** log.c:215-218, the checks of log_write. */
  predicate LogWritePanics(g: Geometry, s: State) {
    |s.header| >= g.capacity || |s.header| + 1 >= g.nlog || |s.ops| < 1
  }

  predicate CanLogWrite(g: Geometry, s: State, t: Tid, b: nat) {
    Owns(s, t, b) && t in s.ops && g.Home(b) && !LogWritePanics(g, s)
  }

  function LogWrite(s: State, t: Tid, b: nat): State
    requires Owns(s, t, b) && t in s.ops
  {
    s.(header := if b in s.header then s.header else s.header + [b],
       cache := s.cache[b := s.cache[b].(dirty := true, touched := false)],
       ops := s.ops[t := s.ops[t] + {b}],
       trace := s.trace + [Write(t, b, s.cache[b].data)])
  }

  predicate CanBegin(g: Geometry, s: State, t: Tid) {
    s.phase == Open && t !in s.ops && |s.header| + (|s.ops| + 1) * g.maxOp <= g.capacity
  }

  function BeginOp(s: State, t: Tid): State {
    s.(ops := s.ops[t := {}], trace := s.trace + [Begin(t)])
  }

  predicate CanEnd(s: State, t: Tid) {
    && t in s.ops
    && forall b | b in s.cache :: s.cache[b].owner == Some(t) ==> !s.cache[b].touched
  }

  function EndOp(s: State, t: Tid): State {
    var e := s.(ops := s.ops - {t}, trace := s.trace + [End(t)]);
    if |e.ops| > 0 then e
    else if |e.header| > 0 then e.(phase := WriteLog(0), committer := t)
    else e.(phase := Closing, committer := t, cut := |e.trace|)
  }

  /** bwrite: the buffer and the disk block both become x. */
  function Bwrite(s: State, b: nat, x: Block): State
    requires b in s.cache && b < |s.disk|
  {
    s.(disk := s.disk[b := x], cache := s.cache[b := s.cache[b].(data := x, dirty := false)])
  }

  predicate CanWriteLog(g: Geometry, s: State) {
    && s.phase.WriteLog? && s.phase.tail < |s.header| && g.LogBlk(s.phase.tail) < |s.disk|
    && Owns(s, s.committer, g.LogBlk(s.phase.tail))
    && Owns(s, s.committer, s.header[s.phase.tail])
  }

  function WriteLogBlock(g: Geometry, s: State): State
    requires CanWriteLog(g, s)
  {
    var tail := s.phase.tail;
    Bwrite(s, g.LogBlk(tail), s.cache[s.header[tail]].data)
      .(phase := if tail + 1 < |s.header| then WriteLog(tail + 1) else WriteHead)
  }

  predicate CanWriteHead(g: Geometry, s: State) {
    && s.phase == WriteHead && g.logStart < |s.disk| && Owns(s, s.committer, g.logStart)
    && |s.header| < |s.cache[g.logStart].data|
  }

  function CommitHead(g: Geometry, s: State): State
    requires CanWriteHead(g, s)
  {
    Bwrite(s, g.logStart, EncodeHead(s.cache[g.logStart].data, s.header)).(phase := Install(0), cut := |s.trace|)
  }

  predicate CanInstall(g: Geometry, s: State) {
    && s.phase.Install? && s.phase.tail < |s.header| && s.header[s.phase.tail] < |s.disk|
    && Owns(s, s.committer, g.LogBlk(s.phase.tail))
    && Owns(s, s.committer, s.header[s.phase.tail])
  }

  function InstallBlock(g: Geometry, s: State): State
    requires CanInstall(g, s)
  {
    var tail := s.phase.tail;
    Bwrite(s, s.header[tail], s.cache[g.LogBlk(tail)].data)
      .(phase := if tail + 1 < |s.header| then Install(tail + 1) else Installed)
  }

  function Forget(s: State): State { s.(header := [], phase := ClearHead) }

  predicate CanClearHead(g: Geometry, s: State) {
    && s.phase == ClearHead && g.logStart < |s.disk| && Owns(s, s.committer, g.logStart)
    && 0 < |s.cache[g.logStart].data|
  }

  function EraseHead(g: Geometry, s: State): State
    requires CanClearHead(g, s)
  {
    Bwrite(s, g.logStart, EncodeHead(s.cache[g.logStart].data, [])).(phase := Closing)
  }

  function Finish(s: State): State { s.(phase := Open, booting := false) }

  /** Power is lost: only the disk survives. */
  function Crash(s: State, t: Tid): State
    requires s.cut <= |s.trace|
  {
    State(s.disk, map[], [], map[], Boot, t, true, s.origin, s.trace[..s.cut], s.cut)
  }

  predicate CanReadHead(g: Geometry, s: State) {
    s.phase == Boot && Owns(s, s.committer, g.logStart) && HeadOk(s.cache[g.logStart].data)
  }

  function ReadHead(g: Geometry, s: State): State
    requires CanReadHead(g, s)
  {
    var h := DecodeHead(s.cache[g.logStart].data);
    s.(header := h, phase := if |h| > 0 then Install(0) else Installed)
  }

  datatype Step =
    | BreadStep(t: Tid, b: nat)
    | BrelseStep(t: Tid, b: nat)
    | EvictStep(b: nat)
    | ModifyStep(t: Tid, b: nat, data: Block)
    | LogWriteStep(t: Tid, b: nat)
    | BeginStep(t: Tid)
    | EndStep(t: Tid)
    | WriteLogStep
    | WriteHeadStep
    | InstallStep
    | ForgetStep
    | ClearHeadStep
    | FinishStep
    | CrashStep(t: Tid)
    | ReadHeadStep

  predicate Enabled(g: Geometry, s: State, a: Step) {
    match a
    case BreadStep(t, b) => CanBread(s, t, b)
    case BrelseStep(t, b) => CanBrelse(s, t, b)
    case EvictStep(b) => CanEvict(s, b)
    case ModifyStep(t, b, x) => CanModify(g, s, t, b, x)
    case LogWriteStep(t, b) => CanLogWrite(g, s, t, b)
    case BeginStep(t) => CanBegin(g, s, t)
    case EndStep(t) => CanEnd(s, t)
    case WriteLogStep => CanWriteLog(g, s)
    case WriteHeadStep => CanWriteHead(g, s)
    case InstallStep => CanInstall(g, s)
    case ForgetStep => s.phase == Installed
    case ClearHeadStep => CanClearHead(g, s)
    case FinishStep => s.phase == Closing
    case CrashStep(_) => s.cut <= |s.trace|
    case ReadHeadStep => CanReadHead(g, s)
  }

  function Apply(g: Geometry, s: State, a: Step): State
    requires Enabled(g, s, a)
  {
    match a
    case BreadStep(t, b) => Bread(s, t, b)
    case BrelseStep(t, b) => Brelse(s, t, b)
    case EvictStep(b) => Evict(s, b)
    case ModifyStep(t, b, x) => Modify(s, t, b, x)
    case LogWriteStep(t, b) => LogWrite(s, t, b)
    case BeginStep(t) => BeginOp(s, t)
    case EndStep(t) => EndOp(s, t)
    case WriteLogStep => WriteLogBlock(g, s)
    case WriteHeadStep => CommitHead(g, s)
    case InstallStep => InstallBlock(g, s)
    case ForgetStep => Forget(s)
    case ClearHeadStep => EraseHead(g, s)
    case FinishStep => Finish(s)
    case CrashStep(t) => Crash(s, t)
    case ReadHeadStep => ReadHead(g, s)
  }

  // -------------------------------------------------------------- invariant

  ghost predicate Shape(g: Geometry, s: State) {
    && g.Valid() && g.GoodDisk(s.disk) && HeadOk(s.disk[g.logStart])
    && g.GoodDisk(s.origin) && g.GoodHeader(s.header)
    && (forall b | b in s.cache :: b < g.fssize && |s.cache[b].data| == g.words)
    && GoodTrace(g, s.trace)
  }

  ghost predicate History(s: State) {
    && s.cut <= |s.trace|
    && Active(s.trace[..s.cut]) == {}
    && Active(s.trace) == s.ops.Keys
  }

  /** The home blocks as the file system now sees them. */
  ghost function Current(g: Geometry, s: State): Disk
    requires Shape(g, s)
  {
    Replay(g, s.origin, s.trace)
  }

  /** The home blocks after the durable groups. */
  ghost function Committed(g: Geometry, s: State): Disk
    requires Shape(g, s) && s.cut <= |s.trace|
  {
    Replay(g, s.origin, s.trace[..s.cut])
  }

  /** One buffer against its disk block and the current contents of the block. */
  predicate BufOk(u: Buf, home: bool, onDisk: Block, cur: Block, ops: set<Tid>, unwritten: bool) {
    && (u.touched ==> home && u.owner.Some? && u.owner.value in ops)
    && (u.dirty ==> home && unwritten)
    && (!u.touched ==> u.data == if u.dirty then cur else onDisk)
  }

  /** Logged blocks not yet installed. */
  function Unwritten(s: State): seq<nat> {
    if s.phase.Installed? then []
    else if s.phase.Install? && s.phase.tail <= |s.header| then s.header[s.phase.tail..]
    else s.header
  }

  ghost predicate CacheOk(g: Geometry, cache: map<nat, Buf>, d: Disk, cur: Disk, ops: set<Tid>, unwritten: seq<nat>,
                          pinned: bool)
    requires |d| == |cur| == g.fssize && forall b | b in cache :: b < g.fssize
  {
    && (forall b | b in cache :: BufOk(cache[b], g.Home(b), d[b], cur[b], ops, b in unwritten))
    && (pinned ==> forall b | b in unwritten :: b in cache && cache[b].dirty)
  }

  /** Every home block outside `except` holds its current contents. */
  ghost predicate UpToDate(g: Geometry, d: Disk, cur: Disk, except: seq<nat>)
    requires |d| == |cur| == g.fssize
  {
    forall b: nat | g.Home(b) && b !in except :: d[b] == cur[b]
  }

  ghost predicate Logged(g: Geometry, d: Disk, cur: Disk, h: seq<nat>, n: nat)
    requires g.Valid() && |d| == |cur| == g.fssize && g.GoodHeader(h) && n <= |h|
  {
    forall i {:trigger h[i]} | 0 <= i < n :: d[g.LogBlk(i)] == cur[h[i]]
  }

  /** What the disk holds in each phase; cur and com are the current and committed contents. */
  ghost predicate DiskOk(g: Geometry, d: Disk, cur: Disk, com: Disk, h: seq<nat>, phase: Phase)
    requires g.Valid() && g.GoodDisk(d) && HeadOk(d[g.logStart]) && |cur| == |com| == g.fssize && g.GoodHeader(h)
  {
    var dh := DecodeHead(d[g.logStart]);
    match phase
    case Boot =>
      h == [] && GoodImage(g, d) && (forall b: nat | g.Home(b) :: Recovered(g, d, b) == cur[b])
    case Open =>
      dh == [] && UpToDate(g, d, com, []) && UpToDate(g, com, cur, h)
    case WriteLog(tail) =>
      && dh == [] && UpToDate(g, d, com, []) && UpToDate(g, com, cur, h)
      && tail < |h| && Logged(g, d, cur, h, tail)
    case WriteHead =>
      && dh == [] && UpToDate(g, d, com, []) && UpToDate(g, com, cur, h)
      && 0 < |h| && Logged(g, d, cur, h, |h|)
    case Install(tail) =>
      dh == h && tail < |h| && Logged(g, d, cur, h, |h|) && UpToDate(g, d, cur, h[tail..])
    case Installed =>
      dh == h && Logged(g, d, cur, h, |h|) && UpToDate(g, d, cur, [])
    case ClearHead =>
      && h == [] && UpToDate(g, d, cur, [])
      && g.GoodHeader(dh) && Logged(g, d, cur, dh, |dh|)
    case Closing =>
      h == [] && dh == [] && UpToDate(g, d, cur, [])
  }

  /** Who may run in which phase, and how much is durable. */
  predicate Control(s: State) {
    && (s.phase != Open ==> s.ops == map[])
    && (s.phase == Boot ==> s.booting)
    && (s.booting ==> s.phase !in {Open, WriteHead} && !s.phase.WriteLog?)
    && (s.phase in {Boot, Installed, ClearHead, Closing} || s.phase.Install? ==> s.cut == |s.trace|)
  }

  ghost predicate Inv(g: Geometry, s: State) {
    && Shape(g, s) && History(s) && Control(s)
    && CacheOk(g, s.cache, s.disk, Current(g, s), s.ops.Keys, Unwritten(s), !s.booting)
    && DiskOk(g, s.disk, Current(g, s), Committed(g, s), s.header, s.phase)
  }

  /** In every state the disk alone determines the durable groups. */
  lemma DiskHoldsCommitted(g: Geometry, s: State)
    requires Inv(g, s)
    ensures GoodImage(g, s.disk)
    ensures forall b: nat | g.Home(b) :: Recovered(g, s.disk, b) == Committed(g, s)[b]
  {
    assert s.trace[..|s.trace|] == s.trace;
    var dh := DecodeHead(s.disk[g.logStart]);
    forall b: nat | g.Home(b) ensures Recovered(g, s.disk, b) == Committed(g, s)[b] {
      if b in dh {
        var i :| 0 <= i < |dh| && dh[i] == b;
        OverlayHit(g, s.disk, dh, |dh|, i);
      } else {
        OverlayMiss(g, s.disk, dh, |dh|, b);
      }
    }
  }

  // ----------------------------------------------- every step keeps the invariant

  lemma TraceGrows(g: Geometry, d: Disk, ev: seq<Event>, e: Event)
    requires g.GoodDisk(d) && GoodTrace(g, ev) && GoodEvent(g, e)
    ensures GoodTrace(g, ev + [e])
    ensures Replay(g, d, ev + [e])
         == if e.Write? then Replay(g, d, ev)[e.b := e.data] else Replay(g, d, ev)
    ensures Active(ev + [e]) == ActiveAfter(Active(ev), e)
  {
    assert (ev + [e])[..|ev + [e]| - 1] == ev;
  }

  // The cache part, component by component.

  /** Replace or add one buffer that still satisfies BufOk. */
  lemma CachePut(g: Geometry, c: map<nat, Buf>, d: Disk, cur: Disk, ops: set<Tid>, h: seq<nat>, pinned: bool, b: nat,
                 u: Buf)
    requires |d| == |cur| == g.fssize && (forall x | x in c :: x < g.fssize) && b < g.fssize
    requires CacheOk(g, c, d, cur, ops, h, pinned)
    requires BufOk(u, g.Home(b), d[b], cur[b], ops, b in h)
    requires b in c && c[b].dirty ==> u.dirty
    ensures CacheOk(g, c[b := u], d, cur, ops, h, pinned)
  {
  }

  /** log_write: the buffer is pinned and the block gets new contents. */
  lemma CacheLog(g: Geometry, c: map<nat, Buf>, d: Disk, cur: Disk, ops: set<Tid>, h: seq<nat>, h': seq<nat>,
                 pinned: bool, b: nat)
    requires |d| == |cur| == g.fssize && (forall x | x in c :: x < g.fssize) && b in c && g.Home(b)
    requires CacheOk(g, c, d, cur, ops, h, pinned)
    requires h' == if b in h then h else h + [b]
    ensures CacheOk(g, c[b := c[b].(dirty := true, touched := false)], d, cur[b := c[b].data], ops, h', pinned)
  {
  }

  /** bwrite of an unlogged block, or of the next logged one. */
  lemma CacheBwrite(g: Geometry, c: map<nat, Buf>, d: Disk, cur: Disk, ops: set<Tid>, h: seq<nat>, h': seq<nat>,
                    pinned: bool, b: nat, x: Block)
    requires |d| == |cur| == g.fssize && (forall y | y in c :: y < g.fssize) && b in c
    requires CacheOk(g, c, d, cur, ops, h, pinned)
    requires b !in h' && (h == h' || h == [b] + h')
    ensures CacheOk(g, c[b := c[b].(data := x, dirty := false)], d[b := x], cur, ops, h', pinned)
  {
  }

  lemma BreadKeeps(g: Geometry, s: State, t: Tid, b: nat)
    requires Inv(g, s) && CanBread(s, t, b)
    ensures Inv(g, Bread(s, t, b))
  {
    hide DiskOk;
    var s' := Bread(s, t, b);
    CachePut(g, s.cache, s.disk, Current(g, s), s.ops.Keys, Unwritten(s), !s.booting, b, s'.cache[b]);
    hide CacheOk;
  }

  lemma BrelseKeeps(g: Geometry, s: State, t: Tid, b: nat)
    requires Inv(g, s) && CanBrelse(s, t, b)
    ensures Inv(g, Brelse(s, t, b))
  {
    hide DiskOk;
    var s' := Brelse(s, t, b);
    CachePut(g, s.cache, s.disk, Current(g, s), s.ops.Keys, Unwritten(s), !s.booting, b, s'.cache[b]);
    hide CacheOk;
  }

  lemma EvictKeeps(g: Geometry, s: State, b: nat)
    requires Inv(g, s) && CanEvict(s, b)
    ensures Inv(g, Evict(s, b))
  {
    hide DiskOk, BufOk;
  }

  lemma ModifyKeeps(g: Geometry, s: State, t: Tid, b: nat, x: Block)
    requires Inv(g, s) && CanModify(g, s, t, b, x)
    ensures Inv(g, Modify(s, t, b, x))
  {
    hide DiskOk;
    var s' := Modify(s, t, b, x);
    CachePut(g, s.cache, s.disk, Current(g, s), s.ops.Keys, Unwritten(s), !s.booting, b, s'.cache[b]);
    hide CacheOk;
  }

  lemma DiskLog(g: Geometry, d: Disk, cur: Disk, com: Disk, h: seq<nat>, h': seq<nat>, b: nat, x: Block)
    requires g.Valid() && g.GoodDisk(d) && HeadOk(d[g.logStart]) && |cur| == |com| == g.fssize && g.GoodHeader(h)
    requires g.GoodHeader(h')
    requires DiskOk(g, d, cur, com, h, Open) && b < g.fssize
    requires h' == if b in h then h else h + [b]
    ensures DiskOk(g, d, cur[b := x], com, h', Open)
  {
  }

  lemma LogWriteKeeps(g: Geometry, s: State, t: Tid, b: nat)
    requires Inv(g, s) && CanLogWrite(g, s, t, b)
    ensures Inv(g, LogWrite(s, t, b))
  {
    hide DiskOk, CacheOk, Active;
    var s' := LogWrite(s, t, b);
    var cur, x := Current(g, s), s.cache[b].data;
    TraceGrows(g, s.origin, s.trace, Write(t, b, x));
    hide Replay;
    assert s'.trace[..s.cut] == s.trace[..s.cut];
    assert s'.ops.Keys == s.ops.Keys;
    assert s.phase == Open;
    CacheLog(g, s.cache, s.disk, cur, s.ops.Keys, s.header, s'.header, !s.booting, b);
    DiskLog(g, s.disk, cur, Committed(g, s), s.header, s'.header, b, x);
  }

  lemma BeginKeeps(g: Geometry, s: State, t: Tid)
    requires Inv(g, s) && CanBegin(g, s, t)
    ensures Inv(g, BeginOp(s, t))
  {
    hide DiskOk, Active;
    var s' := BeginOp(s, t);
    TraceGrows(g, s.origin, s.trace, Begin(t));
    hide Replay;
    assert s'.trace[..s.cut] == s.trace[..s.cut];
  }

  /** Once its operation has ended, no buffer is left modified and unlogged. */
  lemma CacheEnd(g: Geometry, c: map<nat, Buf>, d: Disk, cur: Disk, ops: set<Tid>, h: seq<nat>, pinned: bool, t: Tid)
    requires |d| == |cur| == g.fssize && (forall x | x in c :: x < g.fssize)
    requires CacheOk(g, c, d, cur, ops, h, pinned)
    requires forall b | b in c :: c[b].owner == Some(t) ==> !c[b].touched
    ensures CacheOk(g, c, d, cur, ops - {t}, h, pinned)
  {
  }

  lemma DiskEnd(g: Geometry, d: Disk, cur: Disk, com: Disk, h: seq<nat>)
    requires g.Valid() && g.GoodDisk(d) && HeadOk(d[g.logStart]) && |cur| == |com| == g.fssize && g.GoodHeader(h)
    requires DiskOk(g, d, cur, com, h, Open)
    ensures if |h| > 0 then DiskOk(g, d, cur, com, h, WriteLog(0)) else DiskOk(g, d, cur, cur, h, Closing)
  {
  }

  lemma EndKeeps(g: Geometry, s: State, t: Tid)
    requires Inv(g, s) && CanEnd(s, t)
    ensures Inv(g, EndOp(s, t))
  {
    hide CacheOk, DiskOk, Active;
    var s' := EndOp(s, t);
    TraceGrows(g, s.origin, s.trace, End(t));
    hide Replay;
    assert s'.trace[..s.cut] == s.trace[..s.cut];
    assert s'.trace[..|s'.trace|] == s'.trace;
    assert s'.ops.Keys == s.ops.Keys - {t};
    assert s.phase == Open && Unwritten(s') == Unwritten(s);
    CacheEnd(g, s.cache, s.disk, Current(g, s), s.ops.Keys, Unwritten(s), !s.booting, t);
    DiskEnd(g, s.disk, Current(g, s), Committed(g, s), s.header);
  }

  lemma DiskWriteLog(g: Geometry, d: Disk, cur: Disk, com: Disk, h: seq<nat>, tail: nat)
    requires g.Valid() && g.GoodDisk(d) && HeadOk(d[g.logStart]) && g.GoodDisk(cur) && |com| == g.fssize
    requires g.GoodHeader(h)
    requires DiskOk(g, d, cur, com, h, WriteLog(tail))
    ensures g.LogBlk(tail) < |d| && h[tail] < |d|
    ensures DiskOk(g, d[g.LogBlk(tail) := cur[h[tail]]], cur, com, h,
                   if tail + 1 < |h| then WriteLog(tail + 1) else WriteHead)
  {
  }

  lemma WriteLogData(g: Geometry, s: State)
    requires Inv(g, s) && CanWriteLog(g, s)
    ensures s.cache[s.header[s.phase.tail]].data == Current(g, s)[s.header[s.phase.tail]]
    ensures g.LogBlk(s.phase.tail) !in s.header
  {
    hide Replay, Active, DiskOk, GoodTrace;
    assert g.Home(s.header[s.phase.tail]) && s.header[s.phase.tail] in Unwritten(s);
  }

  lemma WriteLogKeeps(g: Geometry, s: State)
    requires Inv(g, s) && CanWriteLog(g, s)
    ensures Inv(g, WriteLogBlock(g, s))
  {
    hide CacheOk, DiskOk, Replay, Active;
    var cur, tail := Current(g, s), s.phase.tail;
    WriteLogData(g, s);
    DiskWriteLog(g, s.disk, cur, Committed(g, s), s.header, tail);
    CacheBwrite(g, s.cache, s.disk, cur, s.ops.Keys, s.header, s.header, !s.booting, g.LogBlk(tail),
                cur[s.header[tail]]);
  }

  lemma DiskWriteHead(g: Geometry, d: Disk, cur: Disk, com: Disk, h: seq<nat>, x: Block)
    requires g.Valid() && g.GoodDisk(d) && HeadOk(d[g.logStart]) && |cur| == |com| == g.fssize && g.GoodHeader(h)
    requires DiskOk(g, d, cur, com, h, WriteHead) && |x| == g.words && HeadOk(x) && DecodeHead(x) == h
    ensures DiskOk(g, d[g.logStart := x], cur, cur, h, Install(0))
  {
    assert h[0..] == h;
  }

  lemma WriteHeadKeeps(g: Geometry, s: State)
    requires Inv(g, s) && CanWriteHead(g, s)
    ensures Inv(g, CommitHead(g, s))
  {
    hide CacheOk, DiskOk, Replay, Active;
    assert s.trace[..|s.trace|] == s.trace;
    assert s.header[0..] == s.header;
    assert !g.Home(g.logStart);
    var x := EncodeHead(s.cache[g.logStart].data, s.header);
    DiskWriteHead(g, s.disk, Current(g, s), Committed(g, s), s.header, x);
    CacheBwrite(g, s.cache, s.disk, Current(g, s), s.ops.Keys, s.header, s.header, !s.booting, g.logStart, x);
  }

  lemma DiskInstall(g: Geometry, d: Disk, cur: Disk, com: Disk, h: seq<nat>, tail: nat, x: Block)
    requires g.Valid() && g.GoodDisk(d) && HeadOk(d[g.logStart]) && g.GoodDisk(cur) && |com| == g.fssize
    requires g.GoodHeader(h)
    requires DiskOk(g, d, cur, com, h, Install(tail)) && x == cur[h[tail]]
    ensures DiskOk(g, d[h[tail] := x], cur, com, h, if tail + 1 < |h| then Install(tail + 1) else Installed)
  {
    assert h[tail..] == [h[tail]] + h[tail + 1..];
    assert d[h[tail] := x][g.logStart] == d[g.logStart];
  }

  lemma InstallData(g: Geometry, s: State)
    requires Inv(g, s) && CanInstall(g, s)
    ensures s.cache[g.LogBlk(s.phase.tail)].data == Current(g, s)[s.header[s.phase.tail]]
  {
    hide Replay, Active, UpToDate, GoodTrace;
    assert s.header[s.phase.tail] < g.fssize && !g.Home(g.LogBlk(s.phase.tail));
  }

  lemma InstallShrinks(g: Geometry, s: State)
    requires g.GoodHeader(s.header) && CanInstall(g, s)
    ensures var rest := s.header[s.phase.tail + 1..];
      && Unwritten(s) == [s.header[s.phase.tail]] + rest && Unwritten(InstallBlock(g, s)) == rest
      && s.header[s.phase.tail] !in rest
  {
  }

  lemma InstallShape(g: Geometry, s: State)
    requires Inv(g, s) && CanInstall(g, s)
    ensures var s' := InstallBlock(g, s);
      && Shape(g, s') && History(s') && Control(s')
      && Current(g, s') == Current(g, s) && Committed(g, s') == Committed(g, s)
  {
    hide CacheOk, DiskOk, Replay, Active;
    assert s.header[s.phase.tail] != g.logStart;
  }

  lemma InstallCache(g: Geometry, s: State)
    requires Inv(g, s) && CanInstall(g, s)
    requires var s' := InstallBlock(g, s); Shape(g, s') && Current(g, s') == Current(g, s)
    ensures var s' := InstallBlock(g, s);
      CacheOk(g, s'.cache, s'.disk, Current(g, s), s'.ops.Keys, Unwritten(s'), !s'.booting)
  {
    hide CacheOk, DiskOk, Replay, Active, GoodTrace;
    InstallShrinks(g, s);
    hide Unwritten, Geometry.GoodHeader;
    var b := s.header[s.phase.tail];
    CacheBwrite(g, s.cache, s.disk, Current(g, s), s.ops.Keys, Unwritten(s), s.header[s.phase.tail + 1..],
                !s.booting, b, s.cache[g.LogBlk(s.phase.tail)].data);
  }

  lemma InstallKeeps(g: Geometry, s: State)
    requires Inv(g, s) && CanInstall(g, s)
    ensures Inv(g, InstallBlock(g, s))
  {
    hide CacheOk, DiskOk, Replay, Active, GoodTrace, Unwritten;
    InstallShape(g, s);
    InstallCache(g, s);
    InstallData(g, s);
    DiskInstall(g, s.disk, Current(g, s), Committed(g, s), s.header, s.phase.tail,
                s.cache[g.LogBlk(s.phase.tail)].data);
  }

  lemma ForgetKeeps(g: Geometry, s: State)
    requires Inv(g, s) && s.phase == Installed
    ensures Inv(g, Forget(s))
  {
    hide CacheOk, Replay, Active;
  }

  lemma DiskErase(g: Geometry, d: Disk, cur: Disk, com: Disk, h: seq<nat>, x: Block)
    requires g.Valid() && g.GoodDisk(d) && HeadOk(d[g.logStart]) && |cur| == |com| == g.fssize && g.GoodHeader(h)
    requires DiskOk(g, d, cur, com, h, ClearHead) && |x| == g.words && HeadOk(x) && DecodeHead(x) == []
    ensures h == [] && DiskOk(g, d[g.logStart := x], cur, com, h, Closing)
  {
  }

  lemma EraseHeadKeeps(g: Geometry, s: State)
    requires Inv(g, s) && CanClearHead(g, s)
    ensures Inv(g, EraseHead(g, s))
  {
    hide CacheOk, DiskOk, Replay, Active;
    var x := EncodeHead(s.cache[g.logStart].data, []);
    DiskErase(g, s.disk, Current(g, s), Committed(g, s), s.header, x);
    CacheBwrite(g, s.cache, s.disk, Current(g, s), s.ops.Keys, s.header, s.header, !s.booting, g.logStart, x);
  }

  lemma FinishKeeps(g: Geometry, s: State)
    requires Inv(g, s) && s.phase == Closing
    ensures Inv(g, Finish(s))
  {
    hide Replay, Active;
    assert s.trace[..|s.trace|] == s.trace;
  }

  lemma CrashKeeps(g: Geometry, s: State, t: Tid)
    requires Inv(g, s)
    ensures Inv(g, Crash(s, t))
  {
    var s' := Crash(s, t);
    assert s'.trace[..s'.cut] == s'.trace;
    DiskHoldsCommitted(g, s);
  }

  lemma ReadHeadKeeps(g: Geometry, s: State)
    requires Inv(g, s) && CanReadHead(g, s)
    ensures Inv(g, ReadHead(g, s))
  {
    hide Replay, Active;
    var d, cur := s.disk, Current(g, s);
    var h := DecodeHead(d[g.logStart]);
    assert ReadHead(g, s).header == h;
    assert h[0..] == h;
    forall i {:trigger h[i]} | 0 <= i < |h| ensures d[g.LogBlk(i)] == cur[h[i]] {
      OverlayHit(g, d, h, |h|, i);
      assert Recovered(g, d, h[i]) == cur[h[i]];
    }
    forall b: nat | g.Home(b) && b !in h ensures d[b] == cur[b] {
      OverlayMiss(g, d, h, |h|, b);
      assert Recovered(g, d, b) == cur[b];
    }
  }
}
