// A crash during filewrite: the file system as disk blocks, the transactions of
// filewrite as the log's history, and what recovery leaves of the file.

module FsCrash {
  import opened Common
  import opened FsModel
  import opened FsCode
  import opened LogMachine
  import opened LogTheorems

  // ------------------------------------------------------ the disk, block by block

  type Bytes = FsModel.Block
  type Words = LogMachine.Block

  /** Block b as little-endian words. */
  function DataWords(blocks: seq<Bytes>, b: nat): (r: Words)
    ensures |r| == NINDIRECT
    ensures b < |blocks| && |blocks[b]| == BSIZE ==> forall j: nat | j < NINDIRECT :: r[j] == Entry(blocks[b], j)
  {
    if b < |blocks| && |blocks[b]| == BSIZE
    then seq(NINDIRECT, j requires 0 <= j < NINDIRECT => Entry(blocks[b], j))
    else seq(NINDIRECT, _ => 0)
  }

  function Bit(bits: seq<bool>, i: nat): nat { if i < |bits| && bits[i] then 1 else 0 }

  /** The n bits from at on, the first one the lowest. */
  function BitWord(bits: seq<bool>, at: nat, n: nat): nat
    decreases n
  {
    if n == 0 then 0 else Bit(bits, at) + 2 * BitWord(bits, at + 1, n - 1)
  }

  /** The block of the bitmap whose first bit is at. */
  function BitWords(bits: seq<bool>, at: nat): (r: Words)
    ensures |r| == NINDIRECT && forall w: nat | w < NINDIRECT :: r[w] == BitWord(bits, at + w * 32, 32)
  {
    seq(NINDIRECT, w requires 0 <= w < NINDIRECT => BitWord(bits, at + w * 32, 32))
  }

  /** Word f of a struct dinode: the size, the block numbers, and fields that are not modelled. */
  function InodeWord(inodes: seq<Inode>, n: nat, f: nat): nat {
    if n >= |inodes| then 0
    else if f == 4 then inodes[n].size
    else if 5 <= f && f - 5 < |inodes[n].addrs| then inodes[n].addrs[f - 5]
    else 0
  }

  /** Block k of the inodes. */
  function InodeWords(inodes: seq<Inode>, k: nat): (r: Words)
    ensures |r| == NINDIRECT
    ensures forall w: nat | w < NINDIRECT :: r[w] == InodeWord(inodes, k * IPB + w / 16, w % 16)
  {
    seq(NINDIRECT, w requires 0 <= w < NINDIRECT => InodeWord(inodes, k * IPB + w / 16, w % 16))
  }

  /** Block b of the disk that holds s. */
  ghost function BlockOf(fs: FileSystem, s: Fs, b: nat): (r: Words)
    ensures |r| == NINDIRECT
  {
    if fs.bmapStart <= b < fs.g.dataStart then BitWords(s.bitmap, (b - fs.bmapStart) * BPB)
    else if fs.inodeStart <= b < fs.bmapStart then InodeWords(s.inodes, b - fs.inodeStart)
    else DataWords(s.blocks, b)
  }

  ghost function DiskOf(fs: FileSystem, s: Fs): (d: Disk)
    ensures |d| == fs.g.size && forall b | 0 <= b < |d| :: d[b] == BlockOf(fs, s, b) && |d[b]| == NINDIRECT
  {
    seq(fs.g.size, b requires 0 <= b < fs.g.size => BlockOf(fs, s, b))
  }

  lemma {:induction false} SameBits(bits: seq<bool>, bits': seq<bool>, at: nat, n: nat)
    requires forall i: nat | at <= i < at + n :: Bit(bits', i) == Bit(bits, i)
    ensures BitWord(bits', at, n) == BitWord(bits, at, n)
    decreases n
  {
    if n > 0 {
      SameBits(bits, bits', at + 1, n - 1);
    }
  }

  lemma SameBitBlock(bits: seq<bool>, bits': seq<bool>, at: nat)
    requires forall i: nat | at <= i < at + BPB :: Bit(bits', i) == Bit(bits, i)
    ensures BitWords(bits', at) == BitWords(bits, at)
  {
    hide BitWord, Bit;
    forall w: nat | w < NINDIRECT ensures BitWord(bits', at + w * 32, 32) == BitWord(bits, at + w * 32, 32) {
      SameBits(bits, bits', at + w * 32, 32);
    }
  }

  lemma SameInodeBlock(inodes: seq<Inode>, inodes': seq<Inode>, k: nat)
    requires |inodes'| == |inodes|
    requires forall n: nat | n < |inodes| && n / IPB == k :: inodes'[n] == inodes[n]
    ensures InodeWords(inodes', k) == InodeWords(inodes, k)
  {
    var r, r' := InodeWords(inodes, k), InodeWords(inodes', k);
    forall w: nat | w < NINDIRECT ensures r'[w] == r[w] {
      assert (k * IPB + w / 16) / IPB == k;
    }
  }

  /** A block that was not handed to log_write holds what it held. */
  lemma UnloggedSame(fs: FileSystem, s: Fs, t: Fs, w: set<nat>, b: nat)
    requires fs.Journaled(s, t, w) && b !in w
    ensures BlockOf(fs, t, b) == BlockOf(fs, s, b)
  {
    if fs.bmapStart <= b < fs.g.dataStart {
      var k := b - fs.bmapStart;
      forall i: nat | k * BPB <= i < k * BPB + BPB ensures Bit(t.bitmap, i) == Bit(s.bitmap, i) {
        assert i / BPB == k;
        assert fs.BitmapBlock(i) == b;
      }
      SameBitBlock(s.bitmap, t.bitmap, k * BPB);
    } else if fs.inodeStart <= b < fs.bmapStart {
      var k := b - fs.inodeStart;
      forall n: nat | n < |s.inodes| && n / IPB == k ensures t.inodes[n] == s.inodes[n] {
        assert fs.InodeBlock(n) == b;
      }
      SameInodeBlock(s.inodes, t.inodes, k);
    }
  }

  // ------------------------------------------------------------- the history

  /** The two disks agree outside the log. */
  ghost predicate SameHome(lg: Geometry, d: Disk, e: Disk) {
    |d| == |e| == lg.fssize && forall b: nat | lg.Home(b) :: d[b] == e[b]
  }

  /** One operation of thread t, with nothing of any other in between. */
  ghost predicate Transaction(ev: seq<Event>, t: Tid) {
    && |ev| >= 2 && ev[0] == Begin(t) && ev[|ev| - 1] == End(t)
    && forall i | 0 < i < |ev| - 1 :: ev[i].Write? && ev[i].t == t
  }

  /** The operation takes disk d to disk e. */
  ghost predicate Takes(lg: Geometry, ev: seq<Event>, t: Tid, d: Disk, e: Disk) {
    Transaction(ev, t) && GoodTrace(lg, ev) && lg.GoodDisk(d) && SameHome(lg, Replay(lg, d, ev), e)
  }

  ghost function Concat(gs: seq<seq<Event>>): seq<Event> {
    if gs == [] then [] else Concat(gs[..|gs| - 1]) + gs[|gs| - 1]
  }

  lemma {:induction false} ReplayHome(lg: Geometry, d: Disk, d': Disk, ev: seq<Event>)
    requires lg.GoodDisk(d) && lg.GoodDisk(d') && GoodTrace(lg, ev) && SameHome(lg, d, d')
    ensures SameHome(lg, Replay(lg, d, ev), Replay(lg, d', ev))
  {
    if ev != [] {
      ReplayHome(lg, d, d', ev[..|ev| - 1]);
      assert GoodEvent(lg, ev[|ev| - 1]);
    }
  }

  lemma {:induction false} ReplayConcat(lg: Geometry, d: Disk, a: seq<Event>, b: seq<Event>)
    requires lg.GoodDisk(d) && GoodTrace(lg, a) && GoodTrace(lg, b)
    ensures GoodTrace(lg, a + b) && Replay(lg, d, a + b) == Replay(lg, Replay(lg, d, a), b)
    decreases |b|
  {
    hide GoodEvent;
    if b == [] {
      assert a + b == a;
    } else {
      var init, e := b[..|b| - 1], b[|b| - 1];
      assert b == init + [e] && a + b == (a + init) + [e];
      ReplayConcat(lg, d, a, init);
      ReplayMore(lg, d, a, init, e);
    }
  }

  lemma ReplayMore(lg: Geometry, d: Disk, a: seq<Event>, b: seq<Event>, e: Event)
    requires lg.GoodDisk(d) && GoodTrace(lg, a) && GoodTrace(lg, b) && GoodEvent(lg, e)
    requires GoodTrace(lg, a + b) && Replay(lg, d, a + b) == Replay(lg, Replay(lg, d, a), b)
    ensures GoodTrace(lg, a + b + [e]) && GoodTrace(lg, b + [e])
    ensures Replay(lg, d, a + b + [e]) == Replay(lg, Replay(lg, d, a), b + [e])
  {
    hide Replay;
    TraceGrows(lg, d, a + b, e);
    TraceGrows(lg, Replay(lg, d, a), b, e);
  }

  /** Inside an operation its thread is active. */
  lemma {:induction false} ActiveInside(pre: seq<Event>, ev: seq<Event>, t: Tid, i: nat)
    requires Active(pre) == {} && Transaction(ev, t) && 0 < i <= |ev|
    ensures Active(pre + ev[..i]) == if i < |ev| then {t} else {}
    decreases i
  {
    var a, e := pre + ev[..i], ev[i - 1];
    assert a[..|a| - 1] == pre + ev[..i - 1] && a[|a| - 1] == e;
    if i == 1 {
      assert pre + ev[..0] == pre;
    } else {
      ActiveInside(pre, ev, t, i - 1);
    }
  }

  /** A prefix that no operation straddles is made of whole operations. */
  lemma {:induction false} CutIsBoundary(gs: seq<seq<Event>>, t: Tid, cut: nat) returns (j: nat)
    requires (forall k | 0 <= k < |gs| :: Transaction(gs[k], t)) && cut <= |Concat(gs)|
    requires Active(Concat(gs)[..cut]) == {}
    ensures j <= |gs| && Concat(gs)[..cut] == Concat(gs[..j])
  {
    if gs == [] {
      j := 0;
    } else {
      var init, last := gs[..|gs| - 1], gs[|gs| - 1];
      var pre := Concat(init);
      if cut <= |pre| {
        assert Concat(gs)[..cut] == pre[..cut];
        j := CutIsBoundary(init, t, cut);
        assert init[..j] == gs[..j];
      } else {
        WholeActive(init, t);
        assert Concat(gs)[..cut] == pre + last[..cut - |pre|];
        ActiveInside(pre, last, t, cut - |pre|);
        j := |gs|;
        assert gs[..j] == gs;
      }
    }
  }

  lemma {:induction false} WholeActive(gs: seq<seq<Event>>, t: Tid)
    requires forall k | 0 <= k < |gs| :: Transaction(gs[k], t)
    ensures Active(Concat(gs)) == {}
  {
    if gs != [] {
      var last := gs[|gs| - 1];
      WholeActive(gs[..|gs| - 1], t);
      ActiveInside(Concat(gs[..|gs| - 1]), last, t, |last|);
      assert last[..|last|] == last;
    }
  }

  /** After j operations the disk is the one they lead to. */
  lemma {:induction false} ReplayStates(lg: Geometry, t: Tid, gs: seq<seq<Event>>, disks: seq<Disk>, j: nat)
    requires |disks| == |gs| + 1 && j <= |gs| && (forall k | 0 <= k < |disks| :: lg.GoodDisk(disks[k]))
    requires forall k | 0 <= k < |gs| :: Takes(lg, gs[k], t, disks[k], disks[k + 1])
    ensures GoodTrace(lg, Concat(gs[..j])) && SameHome(lg, Replay(lg, disks[0], Concat(gs[..j])), disks[j])
  {
    if j > 0 {
      ReplayStates(lg, t, gs, disks, j - 1);
      var pre := Concat(gs[..j - 1]);
      assert gs[..j][..j - 1] == gs[..j - 1];
      assert Takes(lg, gs[j - 1], t, disks[j - 1], disks[j - 1 + 1]);
      ReplayConcat(lg, disks[0], pre, gs[j - 1]);
      ReplayHome(lg, Replay(lg, disks[0], pre), disks[j - 1], gs[j - 1]);
    }
  }

  lemma OriginStep(lg: Geometry, s: State, a: Step)
    requires Enabled(lg, s, a)
    ensures Apply(lg, s, a).origin == s.origin
  {
    hide Enabled, LogWritePanics, EncodeHead, DecodeHead;
  }

  lemma {:induction false} OriginStays(lg: Geometry, s: State, run: seq<Step>)
    requires Legal(lg, s, run)
    ensures After(lg, s, run).origin == s.origin
  {
    hide Enabled, Apply;
    if run != [] {
      OriginStays(lg, s, run[..|run| - 1]);
      OriginStep(lg, After(lg, s, run[..|run| - 1]), run[|run| - 1]);
    }
  }

  /** What a call that does not finish its last transaction adds: an operation
      that never ends, or one that writes nothing. */
  ghost predicate Unfinished(ev: seq<Event>, t: Tid) {
    || ev == [] || ev == [Begin(t), End(t)]
    || (ev[0] == Begin(t) && forall i | 0 < i < |ev| :: ev[i].Write? && ev[i].t == t)
  }

  lemma {:induction false} ActiveUnfinished(pre: seq<Event>, ev: seq<Event>, t: Tid, i: nat)
    requires Active(pre) == {} && Unfinished(ev, t) && 0 < i <= |ev|
    ensures Active(pre + ev[..i]) == {} ==> ev == [Begin(t), End(t)] && i == 2
    ensures t in Active(pre + ev[..i]) || (ev == [Begin(t), End(t)] && i == 2)
    decreases i
  {
    var a, e := pre + ev[..i], ev[i - 1];
    assert a[..|a| - 1] == pre + ev[..i - 1] && a[|a| - 1] == e;
    if i == 1 {
      assert pre + ev[..0] == pre;
    } else {
      ActiveUnfinished(pre, ev, t, i - 1);
    }
  }

  lemma ReplayNothing(lg: Geometry, d: Disk, ev: seq<Event>, t: Tid)
    requires lg.GoodDisk(d) && GoodTrace(lg, ev)
    ensures GoodTrace(lg, ev + [Begin(t), End(t)]) && Replay(lg, d, ev + [Begin(t), End(t)]) == Replay(lg, d, ev)
  {
    TraceGrows(lg, d, ev, Begin(t));
    TraceGrows(lg, d, ev + [Begin(t)], End(t));
    assert ev + [Begin(t)] + [End(t)] == ev + [Begin(t), End(t)];
  }

  /** Operations of one thread, a crash anywhere, recovery: the disk is the one
      after some number of whole operations. */
  lemma CrashBetween(lg: Geometry, s0: State, before: seq<Step>, c: Tid, recovery: seq<Step>,
                     t: Tid, gs: seq<seq<Event>>, rest: seq<Event>, disks: seq<Disk>) returns (j: nat)
    requires Start(lg, s0) && IsRecovery(recovery) && Legal(lg, s0, before + [CrashStep(c)] + recovery)
    requires |disks| == |gs| + 1 && (forall k | 0 <= k < |disks| :: lg.GoodDisk(disks[k]))
    requires forall k | 0 <= k < |gs| :: Takes(lg, gs[k], t, disks[k], disks[k + 1])
    requires SameHome(lg, s0.origin, disks[0]) && Unfinished(rest, t)
    requires Legal(lg, s0, before) && After(lg, s0, before).trace <= Concat(gs) + rest
    ensures j <= |gs| && SameHome(lg, After(lg, s0, before + [CrashStep(c)] + recovery).disk, disks[j])
  {
    hide Enabled, Apply, Exec, Takes, Start, Unfinished;
    CrashAtomicity(lg, s0, before, c, recovery);
    OriginStays(lg, s0, before);
    var s := After(lg, s0, before);
    forall k | 0 <= k < |gs| ensures Transaction(gs[k], t) {
      TakesOne(lg, gs[k], t, disks[k], disks[k + 1]);
    }
    assert s.trace[..s.cut] == (Concat(gs) + rest)[..s.cut];
    j := DurableReplay(lg, t, gs, rest, disks, s.cut);
    ReplayHome(lg, s0.origin, disks[0], s.trace[..s.cut]);
  }

  /** The durable prefix leads to the disk after some number of operations. */
  lemma DurableReplay(lg: Geometry, t: Tid, gs: seq<seq<Event>>, rest: seq<Event>, disks: seq<Disk>, cut: nat)
    returns (j: nat)
    requires |disks| == |gs| + 1 && (forall k | 0 <= k < |disks| :: lg.GoodDisk(disks[k]))
    requires forall k | 0 <= k < |gs| :: Transaction(gs[k], t) && Takes(lg, gs[k], t, disks[k], disks[k + 1])
    requires Unfinished(rest, t) && cut <= |Concat(gs) + rest| && Active((Concat(gs) + rest)[..cut]) == {}
    requires GoodTrace(lg, (Concat(gs) + rest)[..cut])
    ensures j <= |gs| && SameHome(lg, Replay(lg, disks[0], (Concat(gs) + rest)[..cut]), disks[j])
  {
    hide Takes, Unfinished;
    var whole := Concat(gs);
    if cut <= |whole| {
      assert (whole + rest)[..cut] == whole[..cut];
      j := CutIsBoundary(gs, t, cut);
    } else {
      WholeActive(gs, t);
      assert (whole + rest)[..cut] == whole + rest[..cut - |whole|];
      ActiveUnfinished(whole, rest, t, cut - |whole|);
      j := |gs|;
      assert gs[..j] == gs && rest[..2] == rest;
    }
    ReplayStates(lg, t, gs, disks, j);
    if cut > |whole| {
      ReplayNothing(lg, disks[0], whole, t);
    }
  }

  lemma TakesOne(lg: Geometry, ev: seq<Event>, t: Tid, d: Disk, e: Disk)
    requires Takes(lg, ev, t, d, e)
    ensures Transaction(ev, t)
  {
  }

  // -------------------------------------------------------- filewrite's history

  /** The last log_write of block b is event i. */
  ghost predicate LastWrite(ev: seq<Event>, b: nat, i: nat) {
    && i < |ev| && ev[i].Write? && ev[i].b == b
    && forall k | i < k < |ev| && ev[k].Write? :: ev[k].b != b
  }

  lemma {:induction false} ReplayUntouched(lg: Geometry, d: Disk, ev: seq<Event>, b: nat)
    requires lg.GoodDisk(d) && GoodTrace(lg, ev) && b < lg.fssize
    requires forall i | 0 <= i < |ev| && ev[i].Write? :: ev[i].b != b
    ensures Replay(lg, d, ev)[b] == d[b]
  {
    if ev != [] {
      ReplayUntouched(lg, d, ev[..|ev| - 1], b);
      assert GoodEvent(lg, ev[|ev| - 1]);
    }
  }

  lemma {:induction false} ReplayLast(lg: Geometry, d: Disk, ev: seq<Event>, b: nat, i: nat)
    requires lg.GoodDisk(d) && GoodTrace(lg, ev) && b < lg.fssize && LastWrite(ev, b, i)
    ensures Replay(lg, d, ev)[b] == ev[i].data
  {
    assert GoodEvent(lg, ev[|ev| - 1]);
    if i < |ev| - 1 {
      ReplayLast(lg, d, ev[..|ev| - 1], b, i);
    }
  }

  /** An operation of thread t that hands the blocks of w to log_write, each as
      often as it likes, and leaves in each what disk e holds. */
  ghost predicate Operation(ev: seq<Event>, t: Tid, w: set<nat>, e: Disk) {
    && Transaction(ev, t)
    && (forall i | 0 <= i < |ev| && ev[i].Write? :: ev[i].b in w && |ev[i].data| == NINDIRECT)
    && (forall b | b in w :: b < |e| && exists i: nat :: LastWrite(ev, b, i) && ev[i].data == e[b])
  }

  /** The file system lies on the disk of the log, behind it. */
  ghost predicate SameLayout(fs: FileSystem, lg: Geometry) {
    && lg.Valid() && lg.fssize == fs.g.size && lg.words == NINDIRECT
    && lg.logStart + lg.nlog <= fs.inodeStart <= fs.bmapStart <= fs.g.dataStart
  }

  /** A transaction that logs every block it changes, all of them behind the
      log, takes the disk from one file system to the next. */
  lemma JournaledTakes(fs: FileSystem, lg: Geometry, t: Tid, s: Fs, s': Fs, w: set<nat>, ev: seq<Event>)
    requires SameLayout(fs, lg) && fs.Journaled(s, s', w) && fs.Behind(w) && Operation(ev, t, w, DiskOf(fs, s'))
    ensures Takes(lg, ev, t, DiskOf(fs, s), DiskOf(fs, s'))
  {
    hide BlockOf, fs.Journaled;
    var d, e := DiskOf(fs, s), DiskOf(fs, s');
    assert GoodTrace(lg, ev);
    forall b: nat | lg.Home(b) ensures Replay(lg, d, ev)[b] == e[b] {
      if b in w {
        var i: nat :| LastWrite(ev, b, i) && ev[i].data == e[b];
        ReplayLast(lg, d, ev, b, i);
      } else {
        ReplayUntouched(lg, d, ev, b);
        UnloggedSame(fs, s, s', w, b);
      }
    }
  }

  /** The history of filewrite: one operation for each chunk. */
  ghost predicate ChunkHistory(fs: FileSystem, t: Tid, states: seq<Fs>, logged: seq<set<nat>>, gs: seq<seq<Event>>) {
    && |gs| == |logged| == |states| - 1
    && forall k | 0 <= k < |gs| :: Operation(gs[k], t, logged[k], DiskOf(fs, states[k + 1]))
  }

  /** filewrite, a crash anywhere in it, recovery: the disk is the one after a
      number of whole chunks, in which no block is leaked or shared, the file
      has those chunks and every other file is as before. */
  lemma CrashInFileWrite(fs: FileSystem, lg: Geometry, s: Fs, states: seq<Fs>, logged: seq<set<nat>>,
                         n: nat, start: nat, src: seq<Byte>, logsize: nat, t: Tid, gs: seq<seq<Event>>,
                         rest: seq<Event>, s0: State, before: seq<Step>, c: Tid, recovery: seq<Step>) returns (j: nat)
    requires SameLayout(fs, lg) && fs.Laid(|s.inodes|) && logsize >= 6
    requires fs.Journal(s, states, logged) && WholeChunks(fs.g, s, states, n, start, src, logsize)
    requires ChunkHistory(fs, t, states, logged, gs) && Unfinished(rest, t)
    requires Start(lg, s0) && SameHome(lg, s0.origin, DiskOf(fs, s))
    requires IsRecovery(recovery) && Legal(lg, s0, before + [CrashStep(c)] + recovery)
    requires Legal(lg, s0, before) && After(lg, s0, before).trace <= Concat(gs) + rest
    ensures j < |states| && SameHome(lg, After(lg, s0, before + [CrashStep(c)] + recovery).disk, DiskOf(fs, states[j]))
    ensures Owned(fs.g, states[j]) && FileHas(s, states[j], n, start, src[..Min(|src|, ChunkAt(logsize, j))])
  {
    hide Owned, FileHas, BlockOf, Takes, Operation, fs.Laid, fs.Journaled, fs.Behind, Enabled, Apply, Exec, Start;
    var disks := seq(|states|, k requires 0 <= k < |states| => DiskOf(fs, states[k]));
    forall k | 0 <= k < |gs| ensures Takes(lg, gs[k], t, disks[k], disks[k + 1]) {
      JournaledTakes(fs, lg, t, states[k], states[k + 1], logged[k], gs[k]);
    }
    j := CrashBetween(lg, s0, before, c, recovery, t, gs, rest, disks);
  }

  // ------------------------------------------------- reading the disk back

  lemma {:induction false} BitsTold(bits: seq<bool>, bits': seq<bool>, at: nat, n: nat, i: nat)
    requires BitWord(bits', at, n) == BitWord(bits, at, n) && i < n
    ensures Bit(bits', at + i) == Bit(bits, at + i)
    decreases n
  {
    assert Bit(bits', at) == Bit(bits, at);
    if i > 0 {
      BitsTold(bits, bits', at + 1, n - 1, i - 1);
    }
  }

  lemma DigitTold(low: nat, high: nat, low': nat, high': nat)
    requires low < 0x100 && low' < 0x100 && low + 0x100 * high == low' + 0x100 * high'
    ensures low' == low && high' == high
  {
  }

  lemma BytesTold(b: Bytes, b': Bytes, j: nat)
    requires |b| == |b'| == BSIZE && j < NINDIRECT && Entry(b', j) == Entry(b, j)
    ensures forall i: nat | 4 * j <= i < 4 * j + 4 :: b'[i] == b[i]
  {
    var v := seq(4, i requires 0 <= i < 4 => b[4 * j + i] as nat);
    var v' := seq(4, i requires 0 <= i < 4 => b'[4 * j + i] as nat);
    var h2, h2' := v[2] + 0x100 * v[3], v'[2] + 0x100 * v'[3];
    DigitTold(v[0], v[1] + 0x100 * h2, v'[0], v'[1] + 0x100 * h2');
    DigitTold(v[1], h2, v'[1], h2');
    DigitTold(v[2], v[3], v'[2], v'[3]);
    forall i: nat | 4 * j <= i < 4 * j + 4 ensures b'[i] == b[i] {
      assert v'[i - 4 * j] == v[i - 4 * j];
    }
  }

  lemma BitIndex(b: nat) returns (at: nat, w: nat, i: nat)
    ensures at == b / BPB * BPB && w < NINDIRECT && i < 32 && b == at + w * 32 + i
  {
    var r := b % BPB;
    at, w, i := b / BPB * BPB, r / 32, r % 32;
  }

  lemma BitTold(fs: FileSystem, s: Fs, s': Fs, b: nat)
    requires b < fs.g.size && fs.BitmapBlock(b) < fs.g.dataStart
    requires BlockOf(fs, s', fs.BitmapBlock(b)) == BlockOf(fs, s, fs.BitmapBlock(b))
    ensures Bit(s'.bitmap, b) == Bit(s.bitmap, b)
  {
    hide BitWord, Bit, InodeWords, DataWords;
    var at, w, i := BitIndex(b);
    assert BitWords(s'.bitmap, at)[w] == BitWords(s.bitmap, at)[w];
    BitsTold(s.bitmap, s'.bitmap, at + w * 32, 32, i);
  }

  lemma InodeField(fs: FileSystem, s: Fs, s': Fs, n: nat, f: nat)
    requires f < 16 && fs.InodeBlock(n) < fs.bmapStart
    requires BlockOf(fs, s', fs.InodeBlock(n)) == BlockOf(fs, s, fs.InodeBlock(n))
    ensures InodeWord(s'.inodes, n, f) == InodeWord(s.inodes, n, f)
  {
    hide BitWords, DataWords, InodeWord;
    var k, w := n / IPB, n % IPB * 16 + f;
    assert w < NINDIRECT && w / 16 == n % IPB && w % 16 == f && k * IPB + w / 16 == n;
    assert InodeWords(s'.inodes, k)[w] == InodeWords(s.inodes, k)[w];
  }

  lemma InodeTold(fs: FileSystem, s: Fs, s': Fs, n: nat)
    requires n < |s.inodes| == |s'.inodes| && fs.InodeBlock(n) < fs.bmapStart
    requires |s.inodes[n].addrs| == |s'.inodes[n].addrs| == NDIRECT + 1
    requires BlockOf(fs, s', fs.InodeBlock(n)) == BlockOf(fs, s, fs.InodeBlock(n))
    ensures s'.inodes[n] == s.inodes[n]
  {
    hide BitWords, DataWords;
    InodeField(fs, s, s', n, 4);
    forall i: nat | i < NDIRECT + 1 ensures s'.inodes[n].addrs[i] == s.inodes[n].addrs[i] {
      InodeField(fs, s, s', n, 5 + i);
    }
  }

  /** The disk tells the file system on it apart from every other. */
  lemma DiskTells(fs: FileSystem, lg: Geometry, s: Fs, s': Fs)
    requires SameLayout(fs, lg) && FsModel.Shape(fs.g, s) && FsModel.Shape(fs.g, s') && |s'.inodes| == |s.inodes|
    requires fs.Laid(|s.inodes|)
    requires SameHome(lg, DiskOf(fs, s), DiskOf(fs, s'))
    ensures s'.inodes == s.inodes && s'.bitmap == s.bitmap
    ensures forall b | fs.g.dataStart <= b < fs.g.size :: s'.blocks[b] == s.blocks[b]
  {
    hide BlockOf, fs.Laid;
    forall b: nat | lg.Home(b) ensures BlockOf(fs, s', b) == BlockOf(fs, s, b) {
      assert DiskOf(fs, s')[b] == DiskOf(fs, s)[b];
    }
    forall n: nat | n < |s.inodes| ensures s'.inodes[n] == s.inodes[n] {
      InodePlace(fs, lg, |s.inodes|, n);
      InodeTold(fs, s, s', n);
    }
    forall b: nat | b < fs.g.size ensures s'.bitmap[b] == s.bitmap[b] {
      BitPlace(fs, lg, |s.inodes|, b);
      BitTold(fs, s, s', b);
    }
    forall b | fs.g.dataStart <= b < fs.g.size ensures s'.blocks[b] == s.blocks[b] {
      assert lg.Home(b);
      BlockTold(fs, s, s', b);
    }
  }

  lemma InodePlace(fs: FileSystem, lg: Geometry, count: nat, n: nat)
    requires SameLayout(fs, lg) && fs.Laid(count) && n < count && fs.g.Valid()
    ensures lg.Home(fs.InodeBlock(n)) && fs.InodeBlock(n) < fs.bmapStart
  {
    assert n / IPB <= (count - 1) / IPB;
  }

  lemma BitPlace(fs: FileSystem, lg: Geometry, count: nat, b: nat)
    requires SameLayout(fs, lg) && fs.Laid(count) && b < fs.g.size && fs.g.Valid()
    ensures lg.Home(fs.BitmapBlock(b)) && fs.BitmapBlock(b) < fs.g.dataStart
  {
    assert b / BPB <= (fs.g.size - 1) / BPB;
  }

  lemma BlockTold(fs: FileSystem, s: Fs, s': Fs, b: nat)
    requires FsModel.Shape(fs.g, s) && FsModel.Shape(fs.g, s')
    requires fs.bmapStart <= fs.g.dataStart <= b < fs.g.size
    requires BlockOf(fs, s', b) == BlockOf(fs, s, b)
    ensures s'.blocks[b] == s.blocks[b]
  {
    hide BitWords, InodeWords, Entry;
    forall i: nat | i < BSIZE ensures s'.blocks[b][i] == s.blocks[b][i] {
      assert DataWords(s'.blocks, b)[i / 4] == DataWords(s.blocks, b)[i / 4];
      BytesTold(s.blocks[b], s'.blocks[b], i / 4);
    }
  }

  /** Two file systems that differ in no inode, bit or data block: the same
      owners and the same files. */
  lemma SameFiles(g: Layout, s: Fs, s': Fs)
    requires Owned(g, s) && FsModel.Shape(g, s') && s'.inodes == s.inodes && s'.bitmap == s.bitmap
    requires forall b | g.dataStart <= b < g.size :: s'.blocks[b] == s.blocks[b]
    ensures Owned(g, s') && forall n: nat | n < |s.inodes| :: Content(s', n) == Content(s, n)
  {
    hide Owned, Unshared, NoLeak, Entry, ByteAt;
    forall r: Ref ensures Addr(s', r) == Addr(s, r) {
      SameAddr(g, s, s', r);
    }
    SameOwners(g, s, s');
    forall n: nat | n < |s.inodes| ensures Content(s', n) == Content(s, n) {
      forall i: nat | i < s.inodes[n].size ensures ByteAt(s', n, i) == ByteAt(s, n, i) {
        SameByte(g, s, s', n, i);
      }
    }
  }

  lemma SameAddr(g: Layout, s: Fs, s': Fs, r: Ref)
    requires Owned(g, s) && FsModel.Shape(g, s') && s'.inodes == s.inodes
    requires forall b | g.dataStart <= b < g.size :: s'.blocks[b] == s.blocks[b]
    ensures Addr(s', r) == Addr(s, r)
  {
    hide Entry, Unshared, NoLeak;
    assert Addr(s, Ref(r.inum, IndirectSlot)) != 0 ==> Placed(g, s, Addr(s, Ref(r.inum, IndirectSlot)));
  }

  lemma SameOwners(g: Layout, s: Fs, s': Fs)
    requires Owned(g, s) && FsModel.Shape(g, s') && s'.bitmap == s.bitmap
    requires forall r: Ref :: Addr(s', r) == Addr(s, r)
    ensures Owned(g, s')
  {
    hide Addr;
    forall b | g.dataStart <= b < |s'.bitmap| && s'.bitmap[b] ensures exists r: Ref :: Addr(s', r) == b {
      var r: Ref :| Addr(s, r) == b;
      assert Addr(s', r) == b;
    }
  }

  lemma SameByte(g: Layout, s: Fs, s': Fs, n: nat, i: nat)
    requires Owned(g, s) && FsModel.Shape(g, s') && forall r: Ref :: Addr(s', r) == Addr(s, r)
    requires forall b | g.dataStart <= b < g.size :: s'.blocks[b] == s.blocks[b]
    ensures ByteAt(s', n, i) == ByteAt(s, n, i)
  {
    hide Addr, Unshared, NoLeak;
    assert BlockAddr(s', n, i / BSIZE) == BlockAddr(s, n, i / BSIZE);
  }

  /** Whatever file system is read off the recovered disk: no block is leaked or
      shared, the file has a number of whole chunks and no other file changed. */
  lemma FileAfterCrash(fs: FileSystem, lg: Geometry, s: Fs, states: seq<Fs>, logged: seq<set<nat>>,
                       n: nat, start: nat, src: seq<Byte>, logsize: nat, t: Tid, gs: seq<seq<Event>>, rest: seq<Event>,
                       s0: State, before: seq<Step>, c: Tid, recovery: seq<Step>, u: Fs) returns (j: nat)
    requires SameLayout(fs, lg) && fs.Laid(|s.inodes|) && logsize >= 6
    requires fs.Journal(s, states, logged) && WholeChunks(fs.g, s, states, n, start, src, logsize)
    requires ChunkHistory(fs, t, states, logged, gs) && Unfinished(rest, t)
    requires Start(lg, s0) && SameHome(lg, s0.origin, DiskOf(fs, s))
    requires IsRecovery(recovery) && Legal(lg, s0, before + [CrashStep(c)] + recovery)
    requires Legal(lg, s0, before) && After(lg, s0, before).trace <= Concat(gs) + rest
    requires FsModel.Shape(fs.g, u) && |u.inodes| == |s.inodes|
    requires SameHome(lg, After(lg, s0, before + [CrashStep(c)] + recovery).disk, DiskOf(fs, u))
    ensures j <= |logged| && Owned(fs.g, u) && FileHas(s, u, n, start, src[..Min(|src|, ChunkAt(logsize, j))])
  {
    hide BlockOf, ChunkHistory, WholeChunks, Enabled, Apply, Exec, Start, fs.Laid, fs.Journaled, fs.Behind;
    hide InUse, Unshared, NoLeak, Content, Splice, ChunkAt;
    j := CrashInFileWrite(fs, lg, s, states, logged, n, start, src, logsize, t, gs, rest, s0, before, c, recovery);
    DiskTells(fs, lg, states[j], u);
    SameFiles(fs.g, states[j], u);
  }
}
