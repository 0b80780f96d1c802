// The inode and block layer of fs.c on values: who owns which block, and what
// a file's blocks say its bytes are.

module FsModel {
  import opened Common

  const BSIZE: nat := 512
  const NDIRECT: nat := 10
  const NINDIRECT: nat := 128
  const MAXFILE: nat := NDIRECT + NINDIRECT
  const BPB: nat := BSIZE * 8   // bitmap bits per block
  const IPB: nat := 8           // inodes per block

  type Block = seq<Byte>

  /** addrs holds NDIRECT block numbers and the number of the indirect block; 0 is none. */
  datatype Inode = Inode(size: nat, addrs: seq<nat>)

  /** The size of the file system and the number of its first data block. */
  datatype Layout = Layout(size: nat, dataStart: nat)
  {
    predicate Valid() { 0 < dataStart <= size < WORD }
  }

  datatype Fs = Fs(bitmap: seq<bool>, blocks: seq<Block>, inodes: seq<Inode>)

  function Zero(): (b: Block)
    ensures |b| == BSIZE && forall i | 0 <= i < BSIZE :: b[i] == 0
  {
    seq(BSIZE, _ => 0)
  }

  // ------------------------------------------------------- indirect entries

  /** Entry j of an indirect block: a little-endian uint. */
  function Entry(b: Block, j: nat): (v: nat)
    requires |b| == BSIZE && j < NINDIRECT
    ensures v < WORD
  {
    (b[4 * j] as int) + 0x100 * (b[4 * j + 1] as int)
    + 0x1_0000 * (b[4 * j + 2] as int) + 0x100_0000 * (b[4 * j + 3] as int)
  }

  function SetEntry(b: Block, j: nat, v: nat): (r: Block)
    requires |b| == BSIZE && j < NINDIRECT && v < WORD
    ensures |r| == BSIZE
  {
    var low := b[4 * j := v % 0x100][4 * j + 1 := v / 0x100 % 0x100];
    low[4 * j + 2 := v / 0x1_0000 % 0x100][4 * j + 3 := v / 0x100_0000]
  }

  lemma Digits(v: nat)
    requires v < WORD
    ensures v == v % 0x100 + 0x100 * (v / 0x100 % 0x100)
                 + 0x1_0000 * (v / 0x1_0000 % 0x100) + 0x100_0000 * (v / 0x100_0000)
  {
    var a := v / 0x100;
    var b := a / 0x100;
    assert v / 0x1_0000 == b && v / 0x100_0000 == b / 0x100;
  }

  lemma SetEntryBytes(b: Block, j: nat, v: nat, i: nat)
    requires |b| == BSIZE && j < NINDIRECT && v < WORD && i < BSIZE
    ensures SetEntry(b, j, v)[i] ==
      if i == 4 * j then v % 0x100
      else if i == 4 * j + 1 then v / 0x100 % 0x100
      else if i == 4 * j + 2 then v / 0x1_0000 % 0x100
      else if i == 4 * j + 3 then v / 0x100_0000 else b[i]
  {
  }

  lemma EntrySet(b: Block, j: nat, v: nat, k: nat)
    requires |b| == BSIZE && j < NINDIRECT && k < NINDIRECT && v < WORD
    ensures Entry(SetEntry(b, j, v), k) == if k == j then v else Entry(b, k)
  {
    hide SetEntry;
    SetEntryBytes(b, j, v, 4 * k);
    SetEntryBytes(b, j, v, 4 * k + 1);
    SetEntryBytes(b, j, v, 4 * k + 2);
    SetEntryBytes(b, j, v, 4 * k + 3);
    Digits(v);
  }

  // ---------------------------------------------------------------- owners

  datatype Slot = DirectSlot(i: nat) | IndirectSlot | EntrySlot(j: nat)

  /** A place that can hold a block number: a slot of an inode. */
  datatype Ref = Ref(inum: nat, slot: Slot)

  function Indirect(ino: Inode): nat {
    if |ino.addrs| == NDIRECT + 1 then ino.addrs[NDIRECT] else 0
  }

  /** The block number in a slot; 0 when there is none. */
  function AddrIn(blocks: seq<Block>, ino: Inode, slot: Slot): nat {
    match slot
    case DirectSlot(i) => if i < NDIRECT && |ino.addrs| == NDIRECT + 1 then ino.addrs[i] else 0
    case IndirectSlot => Indirect(ino)
    case EntrySlot(j) =>
      var a := Indirect(ino);
      if a != 0 && j < NINDIRECT && a < |blocks| && |blocks[a]| == BSIZE then Entry(blocks[a], j) else 0
  }

  function Addr(s: Fs, r: Ref): nat {
    if r.inum < |s.inodes| then AddrIn(s.blocks, s.inodes[r.inum], r.slot) else 0
  }

  ghost predicate Shape(g: Layout, s: Fs) {
    && g.Valid() && |s.bitmap| == g.size && |s.blocks| == g.size
    && (forall b | 0 <= b < |s.blocks| :: |s.blocks[b]| == BSIZE)
    && (forall n | 0 <= n < |s.inodes| :: |s.inodes[n].addrs| == NDIRECT + 1)
  }

  predicate Placed(g: Layout, s: Fs, a: nat) {
    g.dataStart <= a < g.size && a < |s.bitmap| && s.bitmap[a]
  }

  /** Every block in use is a data block with its bit set. */
  ghost predicate InUse(g: Layout, s: Fs) {
    forall r: Ref | Addr(s, r) != 0 :: Placed(g, s, Addr(s, r))
  }

  /** No block number is in two places. */
  ghost predicate Unshared(s: Fs) {
    forall r: Ref, q: Ref | r != q && Addr(s, r) != 0 :: Addr(s, q) != Addr(s, r)
  }

  /** A set bit is a meta block's or an owned block's: nothing leaks. */
  ghost predicate NoLeak(g: Layout, s: Fs) {
    && (forall b | 0 <= b < |s.bitmap| && b < g.dataStart :: s.bitmap[b])
    && (forall b | g.dataStart <= b < |s.bitmap| && s.bitmap[b] :: exists r: Ref :: Addr(s, r) == b)
  }

  ghost predicate Owned(g: Layout, s: Fs) {
    Shape(g, s) && InUse(g, s) && Unshared(s) && NoLeak(g, s)
  }

  // ------------------------------------------------- gaining, losing a block

  /** One free block enters one empty slot, and nothing else changes hands. */
  lemma Attach(g: Layout, s: Fs, s': Fs, r: Ref, b: nat)
    requires Owned(g, s) && Shape(g, s') && g.dataStart <= b < g.size && !s.bitmap[b] && Addr(s, r) == 0
    requires s'.bitmap == s.bitmap[b := true]
    requires forall q: Ref :: Addr(s', q) == if q == r then b else Addr(s, q)
    ensures Owned(g, s')
  {
    hide Addr;
    forall q: Ref | Addr(s', q) != 0 ensures Placed(g, s', Addr(s', q)) {
      assert q != r ==> Placed(g, s, Addr(s, q));
    }
    assert Unshared(s') by {
      forall p: Ref, q: Ref | p != q && Addr(s', p) != 0 ensures Addr(s', q) != Addr(s', p) {
        assert p != r ==> Placed(g, s, Addr(s, p));
        assert q != r && Addr(s, q) != 0 ==> Placed(g, s, Addr(s, q));
      }
    }
    forall c | g.dataStart <= c < |s'.bitmap| && s'.bitmap[c] ensures exists q: Ref :: Addr(s', q) == c {
      if c == b {
        assert Addr(s', r) == c;
      } else {
        var q :| Addr(s, q) == c;
        assert Addr(s', q) == c;
      }
    }
  }

  lemma FreeUnowned(g: Layout, s: Fs, b: nat, r: Ref)
    requires Owned(g, s) && g.dataStart <= b < g.size && !s.bitmap[b]
    ensures Addr(s, r) != b
  {
    assert Addr(s, r) != 0 ==> Placed(g, s, Addr(s, r));
  }

  // ------------------------------------------------------------ file blocks

  function SlotOf(bn: nat): Slot {
    if bn < NDIRECT then DirectSlot(bn) else EntrySlot(bn - NDIRECT)
  }

  function BlockAddr(s: Fs, n: nat, bn: nat): nat { Addr(s, Ref(n, SlotOf(bn))) }

  /** The first k blocks of the file are all there. */
  ghost predicate Mapped(s: Fs, n: nat, k: nat) {
    forall bn: nat | bn < k :: BlockAddr(s, n, bn) != 0
  }

  function BlocksFor(size: nat): nat { (size + BSIZE - 1) / BSIZE }

  ghost predicate NoHoles(s: Fs) {
    forall n: nat | n < |s.inodes| :: Mapped(s, n, BlocksFor(s.inodes[n].size))
  }

  function ByteAt(s: Fs, n: nat, off: nat): Byte {
    var a := BlockAddr(s, n, off / BSIZE);
    if a != 0 && a < |s.blocks| && |s.blocks[a]| == BSIZE then s.blocks[a][off % BSIZE] else 0
  }

  /** The bytes of file n. */
  function Content(s: Fs, n: nat): (c: seq<Byte>)
    requires n < |s.inodes|
    ensures |c| == s.inodes[n].size && forall i | 0 <= i < |c| :: c[i] == ByteAt(s, n, i)
  {
    seq(s.inodes[n].size, i requires i >= 0 => ByteAt(s, n, i))
  }

  // ------------------------------------------------------------- block writes

  function AllocBlk(s: Fs, b: nat): Fs
    requires b < |s.bitmap| && b < |s.blocks|
  {
    s.(bitmap := s.bitmap[b := true], blocks := s.blocks[b := Zero()])
  }

  function SetPtr(s: Fs, n: nat, i: nat, b: nat): Fs
    requires n < |s.inodes| && i < |s.inodes[n].addrs|
  {
    s.(inodes := s.inodes[n := s.inodes[n].(addrs := s.inodes[n].addrs[i := b])])
  }

  function PutBlk(s: Fs, a: nat, data: Block): Fs
    requires a < |s.blocks|
  {
    s.(blocks := s.blocks[a := data])
  }

  function SlotAt(i: nat): Slot { if i < NDIRECT then DirectSlot(i) else IndirectSlot }

  /** A block with no owner is zeroed and entered in addrs[i] of inode n. */
  function GainDirect(s: Fs, n: nat, i: nat, b: nat): Fs
    requires b < |s.bitmap| && b < |s.blocks| && n < |s.inodes| && i < |s.inodes[n].addrs|
  {
    SetPtr(AllocBlk(s, b), n, i, b)
  }

  /** A block with no owner is zeroed and entered in entry j of inode n's indirect block. */
  function GainEntry(s: Fs, n: nat, j: nat, b: nat): Fs
    requires b < |s.bitmap| && b < |s.blocks| && n < |s.inodes| && j < NINDIRECT && b < WORD
    requires Indirect(s.inodes[n]) < |s.blocks| && |s.blocks[Indirect(s.inodes[n])]| == BSIZE
    requires Indirect(s.inodes[n]) != b
  {
    var a := AllocBlk(s, b);
    PutBlk(a, Indirect(s.inodes[n]), SetEntry(a.blocks[Indirect(s.inodes[n])], j, b))
  }

  lemma GainDirectAddr(g: Layout, s: Fs, n: nat, i: nat, b: nat, q: Ref)
    requires Owned(g, s) && n < |s.inodes| && i <= NDIRECT && s.inodes[n].addrs[i] == 0
    requires g.dataStart <= b < g.size && !s.bitmap[b]
    ensures Addr(GainDirect(s, n, i, b), q) == if q == Ref(n, SlotAt(i)) then b else Addr(s, q)
  {
    FreeUnowned(g, s, b, Ref(q.inum, IndirectSlot));
    assert forall j: nat | j < NINDIRECT :: Entry(Zero(), j) == 0;
  }

  lemma GainDirectOwned(g: Layout, s: Fs, n: nat, i: nat, b: nat)
    requires Owned(g, s) && n < |s.inodes| && i <= NDIRECT && s.inodes[n].addrs[i] == 0
    requires g.dataStart <= b < g.size && !s.bitmap[b]
    ensures Owned(g, GainDirect(s, n, i, b))
  {
    var s' := GainDirect(s, n, i, b);
    forall q: Ref { GainDirectAddr(g, s, n, i, b, q); }
    assert Shape(g, s');
    hide Addr, GainDirect;
    Attach(g, s, s', Ref(n, SlotAt(i)), b);
  }

  lemma GainEntryAddr(g: Layout, s: Fs, n: nat, j: nat, b: nat, q: Ref)
    requires Owned(g, s) && n < |s.inodes| && j < NINDIRECT && Indirect(s.inodes[n]) != 0
    requires g.dataStart <= b < g.size && !s.bitmap[b]
    ensures Placed(g, s, Indirect(s.inodes[n])) && Indirect(s.inodes[n]) != b
    ensures Addr(GainEntry(s, n, j, b), q) == if q == Ref(n, EntrySlot(j)) then b else Addr(s, q)
  {
    var r := Ref(n, IndirectSlot);
    assert Addr(s, r) == Indirect(s.inodes[n]);
    FreeUnowned(g, s, b, r);
    FreeUnowned(g, s, b, Ref(q.inum, IndirectSlot));
    if q.inum < |s.inodes| && q.slot.EntrySlot? && q.slot.j < NINDIRECT {
      assert Addr(s, Ref(q.inum, IndirectSlot)) == Indirect(s.inodes[q.inum]);
      EntrySet(s.blocks[Indirect(s.inodes[n])], j, b, q.slot.j);
      hide Entry, SetEntry, InUse, NoLeak;
    }
  }

  lemma GainEntryOwned(g: Layout, s: Fs, n: nat, j: nat, b: nat)
    requires Owned(g, s) && n < |s.inodes| && j < NINDIRECT && Indirect(s.inodes[n]) != 0
    requires Addr(s, Ref(n, EntrySlot(j))) == 0
    requires g.dataStart <= b < g.size && !s.bitmap[b]
    ensures Placed(g, s, Indirect(s.inodes[n])) && Indirect(s.inodes[n]) != b && Owned(g, GainEntry(s, n, j, b))
  {
    GainEntryAddr(g, s, n, j, b, Ref(0, IndirectSlot));
    forall q: Ref { GainEntryAddr(g, s, n, j, b, q); }
    assert Shape(g, GainEntry(s, n, j, b));
    hide Addr, GainEntry;
    Attach(g, s, GainEntry(s, n, j, b), Ref(n, EntrySlot(j)), b);
  }

  /** Writing a data block moves no block numbers. */
  lemma PutData(g: Layout, s: Fs, n: nat, bn: nat, data: Block)
    requires Owned(g, s) && BlockAddr(s, n, bn) != 0 && |data| == BSIZE
    ensures BlockAddr(s, n, bn) < |s.blocks|
    ensures Owned(g, PutBlk(s, BlockAddr(s, n, bn), data))
    ensures forall q: Ref :: Addr(PutBlk(s, BlockAddr(s, n, bn), data), q) == Addr(s, q)
  {
    var r := Ref(n, SlotOf(bn));
    assert Placed(g, s, Addr(s, r));
    var s' := PutBlk(s, Addr(s, r), data);
    forall q: Ref ensures Addr(s', q) == Addr(s, q) {
      var i := Ref(q.inum, IndirectSlot);
      assert i != r;
      assert Addr(s, r) != Addr(s, i);
    }
    hide Addr;
    forall b | g.dataStart <= b < |s'.bitmap| && s'.bitmap[b] ensures exists q: Ref :: Addr(s', q) == b {
      var q :| Addr(s, q) == b;
      assert Addr(s', q) == b;
    }
    assert forall q: Ref | Addr(s', q) != 0 :: Placed(g, s', Addr(s', q)) by {
      assert forall q: Ref | Addr(s, q) != 0 :: Placed(g, s, Addr(s, q));
    }
  }

  // -------------------------------------------------------------------- bmap

  /** No byte of any file changes. */
  ghost predicate SameBytes(s: Fs, s': Fs) {
    forall m: nat, off: nat :: ByteAt(s', m, off) == ByteAt(s, m, off)
  }

  /** What bmap(n, bn) may change: block numbers of inode n that were missing. */
  ghost predicate Bmapped(s: Fs, s': Fs, n: nat, bn: nat) {
    && |s'.inodes| == |s.inodes|
    && (forall m: nat | m < |s.inodes| ::
          s'.inodes[m].size == s.inodes[m].size && (m != n ==> s'.inodes[m] == s.inodes[m]))
    && (forall q: Ref | Addr(s, q) != 0 || q.inum != n :: Addr(s', q) == Addr(s, q))
    && (forall k: nat | k != bn :: BlockAddr(s', n, k) == BlockAddr(s, n, k))
    && SameBytes(s, s')
  }

  lemma GainDirectBytes(g: Layout, s: Fs, n: nat, i: nat, b: nat)
    requires Owned(g, s) && n < |s.inodes| && i <= NDIRECT && s.inodes[n].addrs[i] == 0
    requires g.dataStart <= b < g.size && !s.bitmap[b]
    ensures SameBytes(s, GainDirect(s, n, i, b))
  {
    var s' := GainDirect(s, n, i, b);
    forall m: nat, off: nat ensures ByteAt(s', m, off) == ByteAt(s, m, off) {
      var r := Ref(m, SlotOf(off / BSIZE));
      GainDirectAddr(g, s, n, i, b, r);
      FreeUnowned(g, s, b, r);
      hide Addr, Owned;
    }
  }

  lemma GainEntryBytes(g: Layout, s: Fs, n: nat, j: nat, b: nat)
    requires Owned(g, s) && n < |s.inodes| && j < NINDIRECT && Indirect(s.inodes[n]) != 0
    requires Addr(s, Ref(n, EntrySlot(j))) == 0
    requires g.dataStart <= b < g.size && !s.bitmap[b]
    ensures Placed(g, s, Indirect(s.inodes[n])) && Indirect(s.inodes[n]) != b && SameBytes(s, GainEntry(s, n, j, b))
  {
    GainEntryAddr(g, s, n, j, b, Ref(n, IndirectSlot));
    var s' := GainEntry(s, n, j, b);
    forall m: nat, off: nat ensures ByteAt(s', m, off) == ByteAt(s, m, off) {
      var r := Ref(m, SlotOf(off / BSIZE));
      GainEntryAddr(g, s, n, j, b, r);
      FreeUnowned(g, s, b, r);
      assert Addr(s, r) != 0 ==> Addr(s, Ref(n, IndirectSlot)) != Addr(s, r);
      assert Addr(s, Ref(n, IndirectSlot)) == Indirect(s.inodes[n]);
      hide Addr, Owned, SetEntry;
    }
  }

  lemma GainDirectBmapped(g: Layout, s: Fs, n: nat, i: nat, b: nat, bn: nat)
    requires Owned(g, s) && n < |s.inodes| && i <= NDIRECT && s.inodes[n].addrs[i] == 0 && (i < NDIRECT ==> bn == i)
    requires g.dataStart <= b < g.size && !s.bitmap[b]
    ensures Bmapped(s, GainDirect(s, n, i, b), n, bn)
  {
    GainDirectBytes(g, s, n, i, b);
    forall q: Ref { GainDirectAddr(g, s, n, i, b, q); }
    hide Addr, Owned, SameBytes;
  }

  lemma GainEntryBmapped(g: Layout, s: Fs, n: nat, j: nat, b: nat)
    requires Owned(g, s) && n < |s.inodes| && j < NINDIRECT && Indirect(s.inodes[n]) != 0
    requires Addr(s, Ref(n, EntrySlot(j))) == 0
    requires g.dataStart <= b < g.size && !s.bitmap[b]
    ensures Placed(g, s, Indirect(s.inodes[n])) && Indirect(s.inodes[n]) != b
    ensures Bmapped(s, GainEntry(s, n, j, b), n, NDIRECT + j)
  {
    GainEntryBytes(g, s, n, j, b);
    forall q: Ref { GainEntryAddr(g, s, n, j, b, q); }
    hide Addr, Owned, SameBytes;
  }

  lemma BmappedTwice(s: Fs, t: Fs, u: Fs, n: nat, bn: nat)
    requires Bmapped(s, t, n, bn) && Bmapped(t, u, n, bn)
    ensures Bmapped(s, u, n, bn)
  {
    hide Addr, ByteAt;
  }

  /** Blocks may have been added to files, but what the files hold is the same. */
  ghost predicate Refilled(s: Fs, s': Fs) {
    && |s'.inodes| == |s.inodes| && (forall m: nat | m < |s.inodes| :: s'.inodes[m].size == s.inodes[m].size)
    && (forall q: Ref | Addr(s, q) != 0 :: Addr(s', q) == Addr(s, q)) && SameBytes(s, s')
  }

  lemma RefilledMore(s: Fs, t: Fs, u: Fs, n: nat, bn: nat)
    requires Refilled(s, t) && Bmapped(t, u, n, bn)
    ensures Refilled(s, u)
  {
    hide Addr, ByteAt;
  }

  lemma RefilledContent(s: Fs, t: Fs, m: nat)
    requires Refilled(s, t) && m < |s.inodes|
    ensures Content(t, m) == Content(s, m)
  {
    hide Addr, ByteAt;
    assert forall i: nat :: ByteAt(t, m, i) == ByteAt(s, m, i);
  }

  // ------------------------------------------------------------------ writei

  function Overwrite(b: Block, at: nat, part: seq<Byte>): (r: Block)
    requires at + |part| <= |b|
    ensures |r| == |b|
  {
    b[..at] + part + b[at + |part|..]
  }

  /** Overwriting part of one block changes those bytes of that file, and no other byte of any file. */
  lemma PutBytes(g: Layout, s: Fs, n: nat, bn: nat, at: nat, part: seq<Byte>, m: nat, off: nat)
    requires Owned(g, s) && BlockAddr(s, n, bn) != 0 && at + |part| <= BSIZE
    ensures BlockAddr(s, n, bn) < |s.blocks| && |s.blocks[BlockAddr(s, n, bn)]| == BSIZE
    ensures var a := BlockAddr(s, n, bn);
      ByteAt(PutBlk(s, a, Overwrite(s.blocks[a], at, part)), m, off) ==
        if m == n && bn * BSIZE + at <= off < bn * BSIZE + at + |part| then part[off - (bn * BSIZE + at)]
        else ByteAt(s, m, off)
  {
    var a := BlockAddr(s, n, bn);
    assert Placed(g, s, a);
    var data := Overwrite(s.blocks[a], at, part);
    PutData(g, s, n, bn, data);
    var r, q := Ref(n, SlotOf(bn)), Ref(m, SlotOf(off / BSIZE));
    assert r != q ==> Addr(s, q) != Addr(s, r);
    hide Addr, Owned;
  }

  /** Block k of a file holds some of the bytes at .. at + len. */
  predicate Touches(k: nat, at: nat, len: nat) {
    len > 0 && at < (k + 1) * BSIZE && k * BSIZE < at + len
  }

  /** The bytes of part are written to file n at offset at: blocks are added
      where they were missing, and no other byte of any file changes. */
  ghost predicate Wrote(s: Fs, s': Fs, n: nat, at: nat, part: seq<Byte>) {
    && |s'.inodes| == |s.inodes|
    && (forall m: nat | m < |s.inodes| ::
          s'.inodes[m].size == s.inodes[m].size && (m != n ==> s'.inodes[m] == s.inodes[m]))
    && (forall q: Ref | Addr(s, q) != 0 || q.inum != n :: Addr(s', q) == Addr(s, q))
    && (forall k: nat ::
          if Touches(k, at, |part|) then BlockAddr(s', n, k) != 0 else BlockAddr(s', n, k) == BlockAddr(s, n, k))
    && (forall m: nat, off: nat ::
          ByteAt(s', m, off) == if m == n && at <= off < at + |part| then part[off - at] else ByteAt(s, m, off))
  }

  lemma WroteNothing(s: Fs, n: nat, at: nat)
    ensures Wrote(s, s, n, at, [])
  {
  }

  lemma WroteMore(s: Fs, t: Fs, u: Fs, n: nat, at: nat, p: seq<Byte>, q: seq<Byte>)
    requires Wrote(s, t, n, at, p) && Wrote(t, u, n, at + |p|, q)
    ensures Wrote(s, u, n, at, p + q)
  {
    hide Addr, ByteAt;
    forall k: nat
      ensures if Touches(k, at, |p + q|) then BlockAddr(u, n, k) != 0 else BlockAddr(u, n, k) == BlockAddr(s, n, k)
    {
      assert Touches(k, at, |p + q|) <==> Touches(k, at, |p|) || Touches(k, at + |p|, |q|);
    }
  }

  lemma TouchesOne(k: nat, at: nat, len: nat)
    requires 0 < len && at % BSIZE + len <= BSIZE
    ensures Touches(k, at, len) <==> k == at / BSIZE
  {
  }

  lemma WroteIs(s: Fs, t: Fs, u: Fs, n: nat, at: nat, part: seq<Byte>)
    requires Bmapped(s, t, n, at / BSIZE) && BlockAddr(t, n, at / BSIZE) != 0 && part != []
    requires at % BSIZE + |part| <= BSIZE
    requires u.inodes == t.inodes && forall q: Ref :: Addr(u, q) == Addr(t, q)
    requires forall m: nat, off: nat ::
      ByteAt(u, m, off) == if m == n && at <= off < at + |part| then part[off - at] else ByteAt(t, m, off)
    ensures Wrote(s, u, n, at, part)
  {
    hide Addr, ByteAt, Touches;
    forall k: nat { TouchesOne(k, at, |part|); }
  }

  /** bmap, then a copy into the block it returns. */
  lemma WroteBlock(g: Layout, s: Fs, t: Fs, n: nat, at: nat, part: seq<Byte>)
    requires Owned(g, t) && Bmapped(s, t, n, at / BSIZE) && BlockAddr(t, n, at / BSIZE) != 0
    requires part != [] && at % BSIZE + |part| <= BSIZE
    ensures BlockAddr(t, n, at / BSIZE) < |t.blocks| && |t.blocks[BlockAddr(t, n, at / BSIZE)]| == BSIZE
    ensures var a := BlockAddr(t, n, at / BSIZE);
      var u := PutBlk(t, a, Overwrite(t.blocks[a], at % BSIZE, part));
      Owned(g, u) && Wrote(s, u, n, at, part) && BlockAddr(u, n, at / BSIZE) == a
  {
    hide Owned, Addr, ByteAt, Overwrite, Bmapped, Wrote;
    var a := BlockAddr(t, n, at / BSIZE);
    PutBytes(g, t, n, at / BSIZE, at % BSIZE, part, 0, 0);
    var u := PutBlk(t, a, Overwrite(t.blocks[a], at % BSIZE, part));
    PutData(g, t, n, at / BSIZE, Overwrite(t.blocks[a], at % BSIZE, part));
    forall m: nat, off: nat { PutBytes(g, t, n, at / BSIZE, at % BSIZE, part, m, off); }
    WroteIs(s, t, u, n, at, part);
  }

  /** A write that starts within the file and touches no unmapped block below it leaves no hole. */
  lemma WroteMapped(s: Fs, s': Fs, n: nat, at: nat, part: seq<Byte>)
    requires n < |s.inodes| && Wrote(s, s', n, at, part) && at <= s.inodes[n].size
    requires Mapped(s, n, BlocksFor(s.inodes[n].size))
    ensures Mapped(s', n, BlocksFor(s.inodes[n].size)) && Mapped(s', n, BlocksFor(at + |part|))
  {
    hide Addr, ByteAt;
    forall k: nat | k < BlocksFor(s.inodes[n].size) || k < BlocksFor(at + |part|) ensures BlockAddr(s', n, k) != 0 {
      assert k < BlocksFor(s.inodes[n].size) || Touches(k, at, |part|);
    }
  }

  /** c with src in place of the bytes from off on, longer if need be. */
  function Splice(c: seq<Byte>, off: nat, src: seq<Byte>): seq<Byte>
    requires off <= |c|
  {
    c[..off] + src + if off + |src| < |c| then c[off + |src|..] else []
  }

  function SetSize(s: Fs, n: nat, size: nat): Fs
    requires n < |s.inodes|
  {
    s.(inodes := s.inodes[n := s.inodes[n].(size := size)])
  }

  lemma SetSizeSame(g: Layout, s: Fs, n: nat, size: nat)
    requires Owned(g, s) && n < |s.inodes|
    ensures Owned(g, SetSize(s, n, size)) && SameBytes(s, SetSize(s, n, size))
    ensures forall q: Ref :: Addr(SetSize(s, n, size), q) == Addr(s, q)
  {
    var s' := SetSize(s, n, size);
    forall q: Ref ensures Addr(s', q) == Addr(s, q) {
    }
    hide Addr;
    forall b | g.dataStart <= b < |s'.bitmap| && s'.bitmap[b] ensures exists q: Ref :: Addr(s', q) == b {
      var q :| Addr(s, q) == b;
      assert Addr(s', q) == b;
    }
    assert forall q: Ref | Addr(s', q) != 0 :: Placed(g, s', Addr(s', q)) by {
      assert forall q: Ref | Addr(s, q) != 0 :: Placed(g, s, Addr(s, q));
    }
  }

  lemma WroteBytes(g: Layout, s: Fs, t: Fs, n: nat, off: nat, src: seq<Byte>, m: nat, i: nat)
    requires n < |s.inodes| && Wrote(s, t, n, off, src) && Owned(g, t)
    ensures n < |t.inodes| && t.inodes[n].size == s.inodes[n].size
    ensures ByteAt(SetSize(t, n, Max(t.inodes[n].size, off + |src|)), m, i) ==
      if m == n && off <= i < off + |src| then src[i - off] else ByteAt(s, m, i)
  {
    hide Owned, Addr, ByteAt, Touches;
    SetSizeSame(g, t, n, Max(t.inodes[n].size, off + |src|));
  }

  lemma WroteThis(g: Layout, s: Fs, t: Fs, n: nat, off: nat, src: seq<Byte>)
    requires n < |s.inodes| && Wrote(s, t, n, off, src) && off <= s.inodes[n].size && Owned(g, t)
    ensures |t.inodes| == |s.inodes|
    ensures Content(SetSize(t, n, Max(t.inodes[n].size, off + |src|)), n) == Splice(Content(s, n), off, src)
  {
    hide Owned, Addr, ByteAt, Touches;
    WroteBytes(g, s, t, n, off, src, n, 0);
    var c, d := Content(SetSize(t, n, Max(t.inodes[n].size, off + |src|)), n), Splice(Content(s, n), off, src);
    hide Wrote;
    forall i | 0 <= i < |c| ensures c[i] == d[i] {
      WroteBytes(g, s, t, n, off, src, n, i);
    }
  }

  /** The whole write: the file is the splice and every other file is as it was. */
  lemma WroteFile(g: Layout, s: Fs, t: Fs, n: nat, off: nat, src: seq<Byte>, m: nat)
    requires n < |s.inodes| && Wrote(s, t, n, off, src) && off <= s.inodes[n].size && Owned(g, t) && m < |s.inodes|
    ensures |t.inodes| == |s.inodes|
    ensures Content(SetSize(t, n, Max(t.inodes[n].size, off + |src|)), m) ==
      if m == n then Splice(Content(s, n), off, src) else Content(s, m)
  {
    hide Owned, Addr, ByteAt, Touches, Splice;
    WroteThis(g, s, t, n, off, src);
    if m != n {
      var c, d := Content(SetSize(t, n, Max(t.inodes[n].size, off + |src|)), m), Content(s, m);
      assert |c| == |d|;
      forall i | 0 <= i < |c| ensures c[i] == d[i] {
        WroteBytes(g, s, t, n, off, src, m, i);
      }
    }
  }

  /** A file without holes stays without holes. */
  lemma WroteNoHole(g: Layout, s: Fs, t: Fs, n: nat, off: nat, src: seq<Byte>, m: nat)
    requires n < |s.inodes| && Wrote(s, t, n, off, src) && off <= s.inodes[n].size && Owned(g, t) && m < |s.inodes|
    requires Mapped(s, m, BlocksFor(s.inodes[m].size))
    ensures var u := SetSize(t, n, Max(t.inodes[n].size, off + |src|));
      |u.inodes| == |s.inodes| && Mapped(u, m, BlocksFor(u.inodes[m].size))
  {
    var u := SetSize(t, n, Max(t.inodes[n].size, off + |src|));
    SetSizeSame(g, t, n, Max(t.inodes[n].size, off + |src|));
    if m == n {
      WroteMapped(s, t, n, off, src);
    }
    hide Owned, Addr, ByteAt;
    forall k: nat | k < BlocksFor(u.inodes[m].size) ensures BlockAddr(u, m, k) != 0 {
      assert BlockAddr(u, m, k) == BlockAddr(t, m, k);
      assert m != n ==> BlockAddr(t, m, k) == BlockAddr(s, m, k) && BlockAddr(s, m, k) != 0;
    }
  }

  lemma SpliceTwice(c: seq<Byte>, off: nat, p: seq<Byte>, q: seq<Byte>)
    requires off <= |c|
    ensures off + |p| <= |Splice(c, off, p)| && Splice(Splice(c, off, p), off + |p|, q) == Splice(c, off, p + q)
  {
    var a, b := Splice(Splice(c, off, p), off + |p|, q), Splice(c, off, p + q);
    assert |a| == |b|;
    assert forall i | 0 <= i < |a| :: a[i] == b[i];
  }

  // ------------------------------------------------------------------ itrunc

  ghost predicate Owns(s: Fs, n: nat, c: nat) {
    exists slot: Slot :: Addr(s, Ref(n, slot)) == c
  }

  /** The bits in f are clear, the others as they were. */
  ghost predicate Cleared(before: seq<bool>, after: seq<bool>, f: set<nat>) {
    |after| == |before| && forall c | 0 <= c < |before| :: after[c] == (before[c] && c !in f)
  }

  /** Inode n gives up all that it owns through the slots in gone, and those bits are cleared. */
  lemma Detach(g: Layout, s: Fs, s': Fs, n: nat, gone: iset<Slot>, f: set<nat>)
    requires Owned(g, s) && Shape(g, s') && Cleared(s.bitmap, s'.bitmap, f)
    requires forall c :: c in f <==> c != 0 && exists slot: Slot :: slot in gone && Addr(s, Ref(n, slot)) == c
    requires forall q: Ref :: Addr(s', q) == if q.inum == n && q.slot in gone then 0 else Addr(s, q)
    ensures Owned(g, s')
  {
    hide Addr;
    forall q: Ref | Addr(s', q) != 0 ensures Placed(g, s', Addr(s', q)) {
      assert Placed(g, s, Addr(s, q));
      forall slot: Slot | slot in gone ensures Addr(s, Ref(n, slot)) != Addr(s, q) {
        assert Ref(n, slot) != q;
      }
    }
    assert Unshared(s') by {
      forall p: Ref, q: Ref | p != q && Addr(s', p) != 0 ensures Addr(s', q) != Addr(s', p) {
        assert Addr(s, p) != Addr(s, q);
      }
    }
    forall c | g.dataStart <= c < |s'.bitmap| && s'.bitmap[c] ensures exists q: Ref :: Addr(s', q) == c {
      var q :| Addr(s, q) == c;
      assert q == Ref(q.inum, q.slot);
      assert Addr(s', q) == c;
    }
    forall c | 0 <= c < |s'.bitmap| && c < g.dataStart ensures s'.bitmap[c] {
      forall slot: Slot | slot in gone && Addr(s, Ref(n, slot)) == c ensures c == 0 {
        assert c != 0 ==> Placed(g, s, c);
      }
    }
  }

  // ------------------------------------------------------------- free blocks

  function ClearBits(bitmap: seq<bool>): nat {
    if bitmap == [] then 0
    else ClearBits(bitmap[..|bitmap| - 1]) + if bitmap[|bitmap| - 1] then 0 else 1
  }

  lemma {:induction false} ClearBitsSet(bitmap: seq<bool>, b: nat)
    requires b < |bitmap| && !bitmap[b]
    ensures ClearBits(bitmap) == ClearBits(bitmap[b := true]) + 1
  {
    var n := |bitmap| - 1;
    if b < n {
      ClearBitsSet(bitmap[..n], b);
      assert bitmap[b := true][..n] == bitmap[..n][b := true];
    } else {
      assert bitmap[b := true][..n] == bitmap[..n];
    }
  }

  lemma {:induction false} ClearBitsNone(bitmap: seq<bool>)
    requires forall c | 0 <= c < |bitmap| :: bitmap[c]
    ensures ClearBits(bitmap) == 0
  {
    if bitmap != [] {
      ClearBitsNone(bitmap[..|bitmap| - 1]);
    }
  }

  // ------------------------------------------------------------ sets of blocks

  /** Every file has exactly the blocks its size needs. */
  ghost predicate Tight(s: Fs) {
    forall n: nat | n < |s.inodes| :: TightTo(s, n, s.inodes[n].size)
  }

  ghost predicate TightTo(s: Fs, n: nat, size: nat) {
    forall k: nat :: BlockAddr(s, n, k) != 0 <==> k < BlocksFor(size)
  }

  /** Blocks lo .. hi of file n. */
  ghost function DataSet(s: Fs, n: nat, lo: nat, hi: nat): set<nat>
    decreases hi
  {
    if hi <= lo then {} else DataSet(s, n, lo, hi - 1) + {BlockAddr(s, n, hi - 1)}
  }

  lemma {:induction false} DataSetHas(s: Fs, n: nat, lo: nat, hi: nat, x: nat)
    ensures x in DataSet(s, n, lo, hi) <==> exists k: nat | lo <= k < hi :: BlockAddr(s, n, k) == x
    decreases hi
  {
    hide BlockAddr;
    if hi > lo {
      DataSetHas(s, n, lo, hi - 1, x);
      if k: nat :| lo <= k < hi && BlockAddr(s, n, k) == x {
        assert k < hi - 1 || k == hi - 1;
      }
    }
  }

  /** No two blocks of a file are the same, so the set has as many as there are blocks. */
  lemma {:induction false} DataSetSize(g: Layout, s: Fs, n: nat, lo: nat, hi: nat)
    requires Owned(g, s) && lo <= hi && forall k: nat | lo <= k < hi :: BlockAddr(s, n, k) != 0
    ensures |DataSet(s, n, lo, hi)| == hi - lo
    decreases hi
  {
    hide Owned, BlockAddr;
    if hi > lo {
      DataSetSize(g, s, n, lo, hi - 1);
      var a := BlockAddr(s, n, hi - 1);
      DataSetHas(s, n, lo, hi - 1, a);
      forall k: nat | lo <= k < hi - 1 ensures BlockAddr(s, n, k) != a {
        BlocksDiffer(g, s, n, k, hi - 1);
      }
      assert a !in DataSet(s, n, lo, hi - 1);
    }
  }

  lemma BlocksDiffer(g: Layout, s: Fs, n: nat, j: nat, k: nat)
    requires Owned(g, s) && j != k && BlockAddr(s, n, k) != 0
    ensures BlockAddr(s, n, j) != BlockAddr(s, n, k)
  {
    hide Addr;
    assert Ref(n, SlotOf(j)) != Ref(n, SlotOf(k));
  }

  lemma {:induction false} DataSetSame(s: Fs, t: Fs, n: nat, lo: nat, hi: nat)
    requires forall k: nat | lo <= k < hi :: BlockAddr(t, n, k) == BlockAddr(s, n, k)
    ensures DataSet(t, n, lo, hi) == DataSet(s, n, lo, hi)
    decreases hi
  {
    hide BlockAddr;
    if hi > lo {
      DataSetSame(s, t, n, lo, hi - 1);
    }
  }

  /** Data blocks are data blocks, and none of them is the file's indirect block. */
  lemma DataSetPlaced(g: Layout, s: Fs, n: nat, lo: nat, hi: nat, x: nat)
    requires Owned(g, s) && n < |s.inodes| && x in DataSet(s, n, lo, hi) && x != 0
    ensures g.dataStart <= x && x != Indirect(s.inodes[n])
  {
    DataSetHas(s, n, lo, hi, x);
    var k: nat :| lo <= k < hi && BlockAddr(s, n, k) == x;
    assert Placed(g, s, Addr(s, Ref(n, SlotOf(k))));
    assert Addr(s, Ref(n, IndirectSlot)) == Indirect(s.inodes[n]);
  }

  /** A write from within the file leaves every file with exactly its blocks. */
  lemma WroteTight(g: Layout, s: Fs, t: Fs, n: nat, off: nat, src: seq<Byte>)
    requires n < |s.inodes| && Tight(s) && Wrote(s, t, n, off, src) && off <= s.inodes[n].size && Owned(g, t)
    ensures |t.inodes| == |s.inodes| && Tight(SetSize(t, n, Max(s.inodes[n].size, off + |src|)))
  {
    var size := Max(s.inodes[n].size, off + |src|);
    SetSizeSame(g, t, n, size);
    var u := SetSize(t, n, size);
    hide Owned, Addr, ByteAt;
    forall m: nat, k: nat | m < |u.inodes| ensures BlockAddr(u, m, k) != 0 <==> k < BlocksFor(u.inodes[m].size) {
      assert Addr(u, Ref(m, SlotOf(k))) == Addr(t, Ref(m, SlotOf(k)));
      assert TightTo(s, m, s.inodes[m].size);
      assert BlockAddr(u, m, k) == BlockAddr(t, m, k);
      if m == n {
        assert k < BlocksFor(size) <==> k < BlocksFor(s.inodes[n].size) || Touches(k, off, |src|);
        assert if Touches(k, off, |src|) then BlockAddr(t, n, k) != 0 else BlockAddr(t, n, k) == BlockAddr(s, n, k);
      } else {
        assert Addr(t, Ref(m, SlotOf(k))) == Addr(s, Ref(m, SlotOf(k)));
        assert BlockAddr(t, m, k) == BlockAddr(s, m, k);
      }
      assert BlockAddr(s, m, k) != 0 <==> k < BlocksFor(s.inodes[m].size);
    }
  }
}
