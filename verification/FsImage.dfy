// mkfs.c: blocks are handed out in order, files are appended to, and the bitmap
// is written last.

module FsImage {
  import opened Common
  import opened FsModel

  /** The bitmap of balloc(used): the first used blocks are taken. */
  function Bits(size: nat, used: nat): (r: seq<bool>)
    ensures |r| == size && forall b | 0 <= b < size :: r[b] == (b < used)
  {
    seq(size, b => b < used)
  }

  lemma BitsNext(size: nat, used: nat)
    requires used < size
    ensures Bits(size, used + 1) == Bits(size, used)[used := true]
  {
  }

  /** The blocks of a file are exactly those its size needs, and zero past its end. */
  ghost predicate Exact(s: Fs, n: nat) {
    n < |s.inodes| && ExactTo(s, n, s.inodes[n].size)
  }

  ghost predicate ExactTo(s: Fs, n: nat, size: nat) {
    && (forall k: nat :: BlockAddr(s, n, k) != 0 <==> k < BlocksFor(size))
    && (forall i: nat | i >= size :: ByteAt(s, n, i) == 0)
    && (n < |s.inodes| ==> (Indirect(s.inodes[n]) != 0 <==> BlocksFor(size) > NDIRECT))
  }

  /** The blocks of a file of this size, its indirect block included. */
  function Cost(size: nat): nat { BlocksFor(size) + if BlocksFor(size) > NDIRECT then 1 else 0 }

  class Image {
    const g: Layout
    var blocks: seq<Block>
    var inodes: seq<Inode>
    var freeblock: nat

    ghost function Abs(): Fs
      reads this
    {
      Fs(Bits(g.size, freeblock), blocks, inodes)
    }

    ghost predicate Valid()
      reads this
    {
      && Owned(g, Abs()) && g.dataStart <= freeblock <= g.size
      && forall b | freeblock <= b < |blocks| :: blocks[b] == Zero()
    }

    /** An image of zeroes with only the meta blocks taken. */
    constructor (g: Layout)
      requires g.Valid()
      ensures Valid() && this.g == g && |inodes| == 1 && freeblock == g.dataStart && Exact(Abs(), 0)
    {
      this.g := g;
      blocks := seq(g.size, _ => Zero());
      inodes := [Inode(0, seq(NDIRECT + 1, _ => 0))];   // inode 0 is never used
      freeblock := g.dataStart;
      new;
      EmptyOwned(g, Fs(Bits(g.size, freeblock), blocks, []));
      NewInode(g, Fs(Bits(g.size, freeblock), blocks, []));
    }

    /** The next inode, with no bytes. */
    method Ialloc() returns (inum: nat)
      requires Valid()
      modifies `inodes
      ensures Valid() && inum == |old(inodes)| && inodes == old(inodes) + [Inode(0, seq(NDIRECT + 1, _ => 0))]
      ensures Exact(Abs(), inum) && Content(Abs(), inum) == []
      ensures forall m: nat | m < |old(inodes)| :: Content(Abs(), m) == Content(old(Abs()), m)
      ensures forall m: nat | m < |old(inodes)| && Exact(old(Abs()), m) :: Exact(Abs(), m)
    {
      inum := |inodes|;
      NewInode(g, Abs());
      inodes := inodes + [Inode(0, seq(NDIRECT + 1, _ => 0))];
    }

    /** iappend's lookup of block fbn, which takes the next free block where one
        is missing.  0 stands for the exit of rsect, which reads every block
        that is taken and fails past the end of the image. */
    method BlockFor(n: nat, fbn: nat) returns (x: nat)
      requires Valid() && n < |inodes| && fbn < MAXFILE
      modifies `blocks, `inodes, `freeblock
      ensures x == 0 <==> BlockAddr(old(Abs()), n, fbn) == 0 && old(freeblock) + Taken(old(inodes)[n], fbn) > g.size
      ensures x != 0 ==> Valid() && Bmapped(old(Abs()), Abs(), n, fbn) && BlockAddr(Abs(), n, fbn) == x
      ensures x != 0 ==> |inodes| == |old(inodes)| && (fbn >= NDIRECT ==> Indirect(inodes[n]) != 0)
      ensures x != 0 && fbn < NDIRECT ==> Indirect(inodes[n]) == Indirect(old(inodes)[n])
      ensures x != 0 && BlockAddr(old(Abs()), n, fbn) == 0 ==>
        freeblock == old(freeblock) + Taken(old(inodes)[n], fbn)
      ensures BlockAddr(old(Abs()), n, fbn) != 0 ==> unchanged(this)
    {
      hide Owned, Bmapped, SetEntry, Entry;
      ghost var s := Abs();
      AddrsLen(g, s, n);
      if fbn < NDIRECT {
        x := Direct(n, fbn, fbn);
        AddrsLen(g, Abs(), n);
      } else {
        NeedsIndirect(s, n, fbn);
        var ind := Direct(n, NDIRECT, fbn);
        if ind == 0 {
          return 0;
        }
        ghost var t := Abs();
        AddrsLen(g, t, n);
        x := InIndirect(n, fbn - NDIRECT);
        if x != 0 {
          BmappedTwice(s, t, Abs(), n, fbn);
        }
      }
    }

    method Direct(n: nat, i: nat, ghost fbn: nat) returns (x: nat)
      requires Valid() && n < |inodes| && |inodes[n].addrs| == NDIRECT + 1 && i <= NDIRECT && (i < NDIRECT ==> fbn == i)
      modifies `blocks, `inodes, `freeblock
      ensures x == 0 <==> old(inodes)[n].addrs[i] == 0 && old(freeblock) >= g.size
      ensures x == 0 ==> unchanged(this)
      ensures Valid() && Bmapped(old(Abs()), Abs(), n, fbn) && |inodes| == |old(inodes)|
      ensures |inodes[n].addrs| == NDIRECT + 1 && inodes[n].addrs[i] == x
      ensures x != 0 ==> freeblock == old(freeblock) + if old(inodes)[n].addrs[i] == 0 then 1 else 0
      ensures i < NDIRECT ==> inodes[n].addrs[NDIRECT] == old(inodes)[n].addrs[NDIRECT]
      ensures old(inodes)[n].addrs[i] != 0 ==> unchanged(this)
      ensures i == NDIRECT ==> BlockAddr(Abs(), n, fbn) == BlockAddr(old(Abs()), n, fbn)
    {
      hide Owned, Bmapped;
      ghost var s := Abs();
      AddrsLen(g, s, n);
      Same(s, n, fbn);
      if inodes[n].addrs[i] == 0 {
        if freeblock >= g.size {
          return 0;
        }
        GainDirectOwned(g, s, n, i, freeblock);
        GainDirectBmapped(g, s, n, i, freeblock, fbn);
        GainDirectAddr(g, s, n, i, freeblock, Ref(n, SlotOf(fbn)));
        BitsNext(g.size, freeblock);
        assert blocks[freeblock := Zero()] == blocks;
        inodes := inodes[n := inodes[n].(addrs := inodes[n].addrs[i := freeblock])];
        freeblock := freeblock + 1;
        assert Abs() == GainDirect(s, n, i, freeblock - 1);
      }
      x := inodes[n].addrs[i];
    }

    method InIndirect(n: nat, j: nat) returns (x: nat)
      requires Valid() && n < |inodes| && j < NINDIRECT && Indirect(inodes[n]) != 0
      modifies `blocks, `freeblock
      ensures x == 0 <==> Addr(old(Abs()), Ref(n, EntrySlot(j))) == 0 && old(freeblock) >= g.size
      ensures x != 0 ==> Valid() && Bmapped(old(Abs()), Abs(), n, NDIRECT + j)
      ensures x != 0 ==> Addr(Abs(), Ref(n, EntrySlot(j))) == x
      ensures inodes == old(inodes)
      ensures x != 0 ==> freeblock == old(freeblock) + if Addr(old(Abs()), Ref(n, EntrySlot(j))) == 0 then 1 else 0
      ensures Addr(old(Abs()), Ref(n, EntrySlot(j))) != 0 ==> unchanged(this)
    {
      hide Owned, Bmapped, SetEntry, Entry, Placed;
      ghost var s := Abs();
      IndirectIn(g, s, n);
      Same(s, n, NDIRECT + j);
      var ind := inodes[n].addrs[NDIRECT];
      x := Entry(blocks[ind], j);
      if x == 0 {
        if freeblock >= g.size {
          return;
        }
        GainEntryOwned(g, s, n, j, freeblock);
        GainEntryBmapped(g, s, n, j, freeblock);
        GainEntryAddr(g, s, n, j, freeblock, Ref(n, EntrySlot(j)));
        BitsNext(g.size, freeblock);
        assert blocks[freeblock := Zero()] == blocks;
        x := freeblock;
        freeblock := freeblock + 1;
        blocks := blocks[ind := SetEntry(blocks[ind], j, x)];
        assert Abs() == GainEntry(s, n, j, x);
      }
    }

    /** iappend: the file grows by exactly these bytes; false stands for mkfs's
        exit, when the file gets too long or the image too short. */
    method Iappend(n: nat, p: seq<Byte>) returns (ok: bool)
      requires Valid() && n < |inodes| && Exact(Abs(), n)
      modifies `blocks, `inodes, `freeblock
      ensures ok <==>
        && old(inodes)[n].size + |p| <= MAXFILE * BSIZE
        && old(freeblock) + Cost(old(inodes)[n].size + |p|) - Cost(old(inodes)[n].size) <= g.size
      ensures ok ==> Valid() && |inodes| == |old(inodes)| && Exact(Abs(), n)
      ensures ok ==> inodes[n].size == old(inodes)[n].size + |p| && Content(Abs(), n) == Content(old(Abs()), n) + p
      ensures ok ==> freeblock == old(freeblock) + Cost(inodes[n].size) - Cost(old(inodes)[n].size)
      ensures ok ==> forall m: nat | m < |inodes| && m != n ::
        inodes[m] == old(inodes)[m] && Content(Abs(), m) == Content(old(Abs()), m)
      ensures ok ==> forall m: nat | m < |inodes| && m != n && Exact(old(Abs()), m) :: Exact(Abs(), m)
    {
      hide Owned, Wrote, Exact, ExactTo, BlocksFor, Cost, Content, Bmapped;
      ghost var s := Abs();
      var size := inodes[n].size;
      WroteNothing(s, n, size);
      assert p[..0] == [];
      ExactSmall(s, n);
      var tot := 0;
      while tot < |p|
        invariant tot <= |p| && n < |inodes| == |s.inodes| && Valid() && Wrote(s, Abs(), n, size, p[..tot])
        invariant ExactTo(Abs(), n, size + tot) && size + tot <= MAXFILE * BSIZE
        invariant freeblock == old(freeblock) + Cost(size + tot) - Cost(size)
      {
        var off := size + tot;
        var fbn := off / BSIZE;
        if fbn >= MAXFILE {
          return false;
        }
        ghost var t := Abs();
        var n1 := Min(|p| - tot, (fbn + 1) * BSIZE - off);
        var part := p[tot..tot + n1];
        AppendRoom(t, n, off, n1, size + |p|);
        var x := BlockFor(n, fbn);
        if x == 0 {
          return false;
        }
        WroteBlock(g, t, Abs(), n, off, part);
        PlacedBelow(g, Abs(), n, fbn, freeblock);
        blocks := blocks[x := Overwrite(blocks[x], off - fbn * BSIZE, part)];
        WroteMore(s, t, Abs(), n, size, p[..tot], part);
        assert p[..tot] + part == p[..tot + n1];
        ExactNext(t, Abs(), n, off, part);
        tot := tot + n1;
      }
      assert p[..tot] == p;
      ghost var t := Abs();
      AppendedFile(g, s, t, n, p);
      inodes := inodes[n := inodes[n].(size := size + |p|)];
      assert Abs() == SetSize(t, n, size + |p|);
      ok := true;
    }

    /** A file and its entry in the root directory, read and appended a block at a time. */
    method AddFile(root: nat, dirent: seq<Byte>, data: seq<Byte>) returns (ok: bool, inum: nat)
      requires Valid() && root < |inodes| && Exact(Abs(), root)
      modifies `blocks, `inodes, `freeblock
      ensures ok <==>
        && old(inodes)[root].size + |dirent| <= MAXFILE * BSIZE && |data| <= MAXFILE * BSIZE
        && old(freeblock) + Cost(|data|)
           + Cost(old(inodes)[root].size + |dirent|) - Cost(old(inodes)[root].size) <= g.size
      ensures ok ==>
        Valid() && inum == |old(inodes)| && |inodes| == inum + 1 && Exact(Abs(), inum) && Exact(Abs(), root)
      ensures ok ==> Content(Abs(), inum) == data && Content(Abs(), root) == Content(old(Abs()), root) + dirent
      ensures ok ==>
        freeblock == old(freeblock) + Cost(|data|)
                     + Cost(old(inodes)[root].size + |dirent|) - Cost(old(inodes)[root].size)
      ensures ok ==> forall m: nat | m < inum && m != root :: Content(Abs(), m) == Content(old(Abs()), m)
      ensures ok ==> forall m: nat | m < inum && m != root && Exact(old(Abs()), m) :: Exact(Abs(), m)
    {
      hide Owned, Exact, BlocksFor, Cost, Content;
      CostGrows(0, |data|);
      CostGrows(inodes[root].size, |dirent|);
      ghost var s := Abs();
      inum := Ialloc();
      ok := Iappend(root, dirent);
      if !ok {
        return;
      }
      ghost var used := freeblock;
      var i := 0;
      while i < |data|
        invariant i <= |data| && i <= MAXFILE * BSIZE
        invariant |inodes| == inum + 1 && Valid() && Exact(Abs(), inum) && Exact(Abs(), root)
        invariant Content(Abs(), inum) == data[..i] && Content(Abs(), root) == Content(s, root) + dirent
        invariant forall m: nat | m < inum && m != root :: Content(Abs(), m) == Content(s, m)
        invariant forall m: nat | m < inum && m != root && Exact(s, m) :: Exact(Abs(), m)
        invariant freeblock == used + Cost(i)
      {
        var cc := Min(BSIZE, |data| - i);
        CostGrows(i + cc, |data| - i - cc);
        ok := Iappend(inum, data[i..i + cc]);
        if !ok {
          return;
        }
        assert data[..i] + data[i..i + cc] == data[..i + cc];
        i := i + cc;
      }
      assert data[..i] == data;
    }

    /** The last step for the root directory: its size is rounded up to the next block. */
    method RoundUp(n: nat)
      requires Valid() && n < |inodes| && Exact(Abs(), n)
      modifies `inodes
      ensures Valid() && |inodes| == |old(inodes)| && inodes[n].size == (old(inodes)[n].size / BSIZE + 1) * BSIZE
      ensures Mapped(Abs(), n, BlocksFor(inodes[n].size)) <==> old(inodes)[n].size % BSIZE != 0
      ensures Content(Abs(), n) == Content(old(Abs()), n) + seq(inodes[n].size - old(inodes)[n].size, _ => 0)
      ensures forall m: nat | m < |inodes| && m != n ::
        inodes[m] == old(inodes)[m] && Content(Abs(), m) == Content(old(Abs()), m)
      ensures forall m: nat | m < |inodes| && m != n && Exact(old(Abs()), m) :: Exact(Abs(), m)
    {
      hide Owned, Exact;
      ghost var s := Abs();
      var off := (inodes[n].size / BSIZE + 1) * BSIZE;
      Rounded(g, s, n);
      inodes := inodes[n := inodes[n].(size := off)];
      assert Abs() == SetSize(s, n, off);
    }

    /** balloc: the one bitmap block written at the end; false stands for the
        assertion that the blocks in use fit it. */
    method WriteBitmap() returns (ok: bool, block: seq<bool>)
      requires Valid()
      ensures ok <==> freeblock < BSIZE * 8
      ensures ok ==> |block| == BSIZE * 8 && OnDisk(block, g.size) == Bits(g.size, freeblock)
      ensures ok ==> Owned(g, Fs(OnDisk(block, g.size), blocks, inodes))
    {
      hide Owned;
      block := Bits(BSIZE * 8, 0);
      ok := freeblock < BSIZE * 8;
      if ok {
        for i := 0 to freeblock
          invariant block == Bits(BSIZE * 8, i)
        {
          BitsNext(BSIZE * 8, i);
          block := block[i := true];
        }
        assert OnDisk(block, g.size) == Bits(g.size, freeblock);
      }
    }
  }

  /** The bitmap of a file system of this size; only the first block of it is written. */
  function OnDisk(block: seq<bool>, size: nat): (r: seq<bool>)
    ensures |r| == size && forall b | 0 <= b < size :: r[b] == (b < |block| && block[b])
  {
    seq(size, b requires 0 <= b < size => b < |block| && block[b])
  }

  lemma EmptyOwned(g: Layout, s: Fs)
    requires g.Valid() && s == Fs(Bits(g.size, g.dataStart), seq(g.size, _ => Zero()), [])
    ensures Owned(g, s)
  {
  }

  lemma AddrsLen(g: Layout, s: Fs, n: nat)
    requires Owned(g, s) && n < |s.inodes|
    ensures |s.inodes[n].addrs| == NDIRECT + 1 && |s.blocks| == g.size && |s.bitmap| == g.size && g.Valid()
  {
  }

  lemma Same(s: Fs, n: nat, fbn: nat)
    ensures Bmapped(s, s, n, fbn)
  {
  }

  lemma NeedsIndirect(s: Fs, n: nat, fbn: nat)
    requires NDIRECT <= fbn && n < |s.inodes| && |s.inodes[n].addrs| == NDIRECT + 1
    ensures BlockAddr(s, n, fbn) != 0 ==> s.inodes[n].addrs[NDIRECT] != 0
  {
  }

  lemma IndirectIn(g: Layout, s: Fs, n: nat)
    requires Owned(g, s) && n < |s.inodes| && Indirect(s.inodes[n]) != 0
    ensures var a := Indirect(s.inodes[n]);
      && a < |s.blocks| && |s.blocks[a]| == BSIZE
      && |s.inodes[n].addrs| == NDIRECT + 1 && s.inodes[n].addrs[NDIRECT] == a
      && |s.bitmap| == g.size == |s.blocks| && s.bitmap[a] && g.dataStart <= a < g.size < WORD
  {
    assert Addr(s, Ref(n, IndirectSlot)) == Indirect(s.inodes[n]);
    assert Placed(g, s, Indirect(s.inodes[n]));
  }

  /** A fresh inode owns nothing and changes nothing. */
  lemma NewInode(g: Layout, s: Fs)
    requires Owned(g, s)
    ensures var s' := s.(inodes := s.inodes + [Inode(0, seq(NDIRECT + 1, _ => 0))]);
      && Owned(g, s') && Exact(s', |s.inodes|) && Content(s', |s.inodes|) == []
      && (forall m: nat | m < |s.inodes| :: Content(s', m) == Content(s, m))
      && (forall m: nat | m < |s.inodes| && Exact(s, m) :: Exact(s', m))
  {
    var s' := s.(inodes := s.inodes + [Inode(0, seq(NDIRECT + 1, _ => 0))]);
    forall q: Ref ensures Addr(s', q) == Addr(s, q) {
    }
    hide Addr;
    forall b | g.dataStart <= b < |s'.bitmap| && s'.bitmap[b] ensures exists q: Ref :: Addr(s', q) == b {
      var q :| Addr(s, q) == b;
      assert Addr(s', q) == b;
    }
    assert forall q: Ref | Addr(s', q) != 0 :: Placed(g, s', Addr(s', q)) by {
      assert forall q: Ref | Addr(s, q) != 0 :: Placed(g, s, Addr(s, q));
    }
    forall m: nat | m < |s.inodes| ensures Content(s', m) == Content(s, m) {
      assert forall i: nat :: ByteAt(s', m, i) == ByteAt(s, m, i);
    }
    NoAddr(s, |s.inodes|);
    forall m: nat, k: nat ensures BlockAddr(s', m, k) == BlockAddr(s, m, k) {
    }
    assert forall m: nat, i: nat :: ByteAt(s', m, i) == ByteAt(s, m, i);
    forall m: nat | m < |s.inodes| && Exact(s, m) ensures Exact(s', m) {
    }
  }

  lemma NoAddr(s: Fs, n: nat)
    requires n >= |s.inodes|
    ensures forall k: nat :: BlockAddr(s, n, k) == 0
  {
  }

  /** Appending within a block extends the exact range. */
  lemma ExactNext(t: Fs, u: Fs, n: nat, off: nat, part: seq<Byte>)
    requires n < |t.inodes| == |u.inodes| && ExactTo(t, n, off) && Wrote(t, u, n, off, part)
    requires part != [] && off % BSIZE + |part| <= BSIZE
    requires if off / BSIZE >= NDIRECT then Indirect(u.inodes[n]) != 0
             else Indirect(u.inodes[n]) == Indirect(t.inodes[n])
    ensures ExactTo(u, n, off + |part|)
  {
    hide Addr, ByteAt;
    assert BlocksFor(off + |part|) == off / BSIZE + 1;
    forall k: nat ensures BlockAddr(u, n, k) != 0 <==> k < BlocksFor(off + |part|) {
      assert k < BlocksFor(off + |part|) <==> k < BlocksFor(off) || Touches(k, off, |part|);
    }
  }

  /** A file with all its blocks is no longer than a file can be. */
  lemma ExactSmall(s: Fs, n: nat)
    requires Exact(s, n)
    ensures s.inodes[n].size <= MAXFILE * BSIZE && ExactTo(s, n, s.inodes[n].size)
  {
    assert BlockAddr(s, n, MAXFILE) == 0;
  }

  /** Blocks taken to enter block fbn in this inode. */
  function Taken(ino: Inode, fbn: nat): nat { if fbn >= NDIRECT && Indirect(ino) == 0 then 2 else 1 }

  /** The room an append needs covers its next block. */
  lemma AppendRoom(t: Fs, n: nat, off: nat, n1: nat, end: nat)
    requires n < |t.inodes| && ExactTo(t, n, off) && 0 < n1 && off % BSIZE + n1 <= BSIZE && off + n1 <= end
    ensures BlockAddr(t, n, off / BSIZE) == 0 ==> Cost(off + n1) == Cost(off) + Taken(t.inodes[n], off / BSIZE)
    ensures BlockAddr(t, n, off / BSIZE) != 0 ==> Cost(off + n1) == Cost(off)
    ensures Cost(off + n1) <= Cost(end)
    ensures BlockAddr(t, n, off / BSIZE) != 0 && off / BSIZE >= NDIRECT ==> Indirect(t.inodes[n]) != 0
  {
    hide BlockAddr;
  }

  lemma CostGrows(size: nat, len: nat)
    ensures Cost(0) == 0 && Cost(size) <= Cost(size + len)
  {
  }

  lemma PlacedBelow(g: Layout, s: Fs, n: nat, k: nat, used: nat)
    requires Owned(g, s) && s.bitmap == Bits(g.size, used) && BlockAddr(s, n, k) != 0
    ensures BlockAddr(s, n, k) < used
  {
    assert Placed(g, s, Addr(s, Ref(n, SlotOf(k))));
  }

  lemma OtherFile(s: Fs, t: Fs, u: Fs, n: nat, at: nat, p: seq<Byte>, m: nat)
    requires Wrote(s, t, n, at, p) && SameBytes(t, u) && m < |s.inodes| == |u.inodes| && m != n
    requires u.inodes[m] == t.inodes[m]
    requires forall q: Ref :: Addr(u, q) == Addr(t, q)
    ensures u.inodes[m] == s.inodes[m] && Content(u, m) == Content(s, m) && (Exact(s, m) ==> Exact(u, m))
  {
    hide Addr, ByteAt, Touches;
    forall k: nat ensures BlockAddr(u, m, k) == BlockAddr(s, m, k) {
      assert Addr(t, Ref(m, SlotOf(k))) == Addr(s, Ref(m, SlotOf(k)));
    }
    assert forall i: nat :: ByteAt(u, m, i) == ByteAt(t, m, i) && ByteAt(t, m, i) == ByteAt(s, m, i);
  }

  lemma AppendedFile(g: Layout, s: Fs, t: Fs, n: nat, p: seq<Byte>)
    requires n < |s.inodes| && Owned(g, t) && Wrote(s, t, n, s.inodes[n].size, p)
    requires ExactTo(t, n, s.inodes[n].size + |p|)
    ensures |t.inodes| == |s.inodes| && t.inodes[n].size == s.inodes[n].size
    ensures var u := SetSize(t, n, s.inodes[n].size + |p|);
      && Owned(g, u) && Exact(u, n) && Content(u, n) == Content(s, n) + p
      && (forall m: nat | m < |s.inodes| && m != n :: u.inodes[m] == s.inodes[m] && Content(u, m) == Content(s, m))
      && (forall m: nat | m < |s.inodes| && m != n && Exact(s, m) :: Exact(u, m))
  {
    hide Owned, Addr, ByteAt, Touches;
    var size := s.inodes[n].size;
    var u := SetSize(t, n, size + |p|);
    SetSizeSame(g, t, n, size + |p|);
    assert ExactTo(u, n, size + |p|) by {
      forall k: nat ensures BlockAddr(u, n, k) == BlockAddr(t, n, k) {
        assert Addr(u, Ref(n, SlotOf(k))) == Addr(t, Ref(n, SlotOf(k)));
      }
    }
    assert Content(u, n) == Content(s, n) + p by {
      assert forall i: nat :: ByteAt(u, n, i) == ByteAt(t, n, i);
    }
    hide Wrote, Content, Exact, ExactTo, SameBytes;
    forall m: nat | m < |s.inodes| && m != n
      ensures u.inodes[m] == s.inodes[m] && Content(u, m) == Content(s, m) && (Exact(s, m) ==> Exact(u, m))
    {
      OtherFile(s, t, u, n, size, p, m);
    }
  }

  /** Rounding leaves a hole exactly when the entries fill their last block. */
  lemma Rounded(g: Layout, s: Fs, n: nat)
    requires Owned(g, s) && n < |s.inodes| && Exact(s, n)
    ensures var off := (s.inodes[n].size / BSIZE + 1) * BSIZE;
      var u := SetSize(s, n, off);
      && Owned(g, u) && (Mapped(u, n, BlocksFor(off)) <==> s.inodes[n].size % BSIZE != 0)
      && Content(u, n) == Content(s, n) + seq(off - s.inodes[n].size, _ => 0)
      && (forall m: nat | m < |s.inodes| && m != n :: Content(u, m) == Content(s, m))
      && (forall m: nat | m < |s.inodes| && m != n && Exact(s, m) :: Exact(u, m))
  {
    var size := s.inodes[n].size;
    var off := (size / BSIZE + 1) * BSIZE;
    var u := SetSize(s, n, off);
    SetSizeSame(g, s, n, off);
    hide Owned, Addr, ByteAt;
    forall m: nat, k: nat ensures BlockAddr(u, m, k) == BlockAddr(s, m, k) {
    }
    assert BlocksFor(off) == size / BSIZE + 1;
    assert size % BSIZE == 0 ==> BlockAddr(u, n, size / BSIZE) == 0;
    assert forall m: nat, i: nat :: ByteAt(u, m, i) == ByteAt(s, m, i);
  }
}
