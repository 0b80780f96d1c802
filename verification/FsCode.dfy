// fs.c and file.c as they are written: the loops of balloc, bmap, readi, writei,
// itrunc and filewrite over a mutable file system, proved against FsModel.

module FsCode {
  import opened Common
  import opened FsModel

  datatype IoResult = Done(count: nat) | Failed | Panic

  class FileSystem {
    const g: Layout
    const inodeStart: nat
    const bmapStart: nat
    var bitmap: seq<bool>
    var blocks: seq<Block>
    var inodes: seq<Inode>       // in memory, locked by the caller
    var dinodes: seq<Inode>      // on disk
    ghost var dirty: set<nat>    // blocks handed to log_write

    ghost function Abs(): Fs
      reads this
    {
      Fs(bitmap, blocks, inodes)
    }

    ghost predicate Valid()
      reads this
    {
      Owned(g, Abs()) && |dinodes| == |inodes|
    }

    /** The file system s, all of it on disk. */
    constructor (g: Layout, inodeStart: nat, bmapStart: nat, s: Fs)
      requires Owned(g, s)
      ensures this.g == g && this.inodeStart == inodeStart && this.bmapStart == bmapStart
      ensures Valid() && Abs() == s && dinodes == inodes && dirty == {}
    {
      this.g, this.inodeStart, this.bmapStart := g, inodeStart, bmapStart;
      bitmap, blocks, inodes, dinodes := s.bitmap, s.blocks, s.inodes, s.inodes;
      dirty := {};
    }

    /** Inode blocks, bitmap blocks and data blocks follow one another, as mkfs lays them out. */
    predicate Laid(ninodes: nat) {
      && (ninodes > 0 ==> InodeBlock(ninodes - 1) < bmapStart)
      && (g.size > 0 ==> BitmapBlock(g.size - 1) < g.dataStart)
    }

    function BitmapBlock(b: nat): nat { b / BPB + bmapStart }

    function InodeBlock(n: nat): nat { n / IPB + inodeStart }

    /** Blocks behind the log: of inodes, of the bitmap, or of data. */
    ghost predicate Behind(w: set<nat>) {
      forall b | b in w :: inodeStart <= b < g.size
    }

    lemma BehindMore(w: set<nat>, w': set<nat>)
      requires Behind(w) && Behind(w')
      ensures Behind(w + w')
    {
    }

    /** Every bit and every block that differs is in a block of w. */
    ghost predicate Covered(bits: seq<bool>, blks: seq<Block>, bits': seq<bool>, blks': seq<Block>, w: set<nat>) {
      && |bits'| == |bits| && |blks'| == |blks|
      && (forall b | 0 <= b < |bits| && bits'[b] != bits[b] :: BitmapBlock(b) in w)
      && (forall b | 0 <= b < |blks| && blks'[b] != blks[b] :: b in w)
    }

    /** Every inode on disk that differs is in a block of w. */
    ghost predicate InodesCovered(di: seq<Inode>, di': seq<Inode>, w: set<nat>) {
      |di'| == |di| && forall m | 0 <= m < |di| && di'[m] != di[m] :: InodeBlock(m) in w
    }

    lemma CoveredMore(bits: seq<bool>, blks: seq<Block>, bits': seq<bool>, blks': seq<Block>, w: set<nat>,
                      bits'': seq<bool>, blks'': seq<Block>, w': set<nat>)
      requires Covered(bits, blks, bits', blks', w) && Covered(bits', blks', bits'', blks'', w') && w <= w'
      ensures Covered(bits, blks, bits'', blks'', w')
    {
    }

    lemma CoveredSame()
      ensures Covered(bitmap, blocks, bitmap, blocks, dirty)
    {
    }

    /** One more block is written and handed to log_write. */
    lemma CoveredPut(bits: seq<bool>, blks: seq<Block>, bits': seq<bool>, blks': seq<Block>, w: set<nat>, a: nat,
                     x: Block)
      requires Covered(bits, blks, bits', blks', w) && a < |blks'|
      ensures Covered(bits, blks, bits', blks'[a := x], w + {a})
    {
    }

    // ---------------------------------------------------------- balloc, bfree

    /** The first clear bit; 0 stands for the panic when there is none. */
    method Balloc() returns (b: nat)
      requires |bitmap| == g.size == |blocks| && 0 < g.size && bitmap[0]
      modifies `bitmap, `blocks, `dirty
      ensures b == 0 ==> unchanged(this) && forall c | 0 <= c < g.size :: bitmap[c]
      ensures b != 0 ==> b < g.size && !old(bitmap)[b] && forall c | 0 <= c < b :: old(bitmap)[c]
      ensures b != 0 ==> bitmap == old(bitmap)[b := true] && blocks == old(blocks)[b := Zero()]
      ensures b != 0 ==> dirty == old(dirty) + {BitmapBlock(b), b} && ClearBits(old(bitmap)) == ClearBits(bitmap) + 1
      ensures b == 0 <==> ClearBits(old(bitmap)) == 0
      ensures Covered(old(bitmap), old(blocks), bitmap, blocks, dirty)
    {
      var base := 0;
      while base < g.size
        invariant unchanged(this) && forall c | 0 <= c < Min(base, g.size) :: bitmap[c]
        decreases g.size - base
      {
        var bi := 0;
        while bi < BPB && base + bi < g.size
          invariant bi <= BPB && unchanged(this) && forall c | 0 <= c < Min(base + bi, g.size) :: bitmap[c]
        {
          if !bitmap[base + bi] {
            b := base + bi;
            ClearBitsSet(bitmap, b);
            bitmap := bitmap[b := true];
            dirty := dirty + {BitmapBlock(b)};
            blocks := blocks[b := Zero()];
            dirty := dirty + {b};
            return;
          }
          bi := bi + 1;
        }
        base := base + BPB;
      }
      ClearBitsNone(bitmap);
      return 0;
    }

    /** The panic on a clear bit is the caller's obligation. */
    method Bfree(b: nat)
      requires b < |bitmap| && bitmap[b]
      modifies `bitmap, `dirty
      ensures bitmap == old(bitmap)[b := false] && dirty == old(dirty) + {BitmapBlock(b)}
    {
      bitmap := bitmap[b := false];
      dirty := dirty + {BitmapBlock(b)};
    }

    // ------------------------------------------------------------------- bmap

    ghost function IndirectSet(n: nat): set<nat>
      reads this
    {
      if n < |inodes| && Indirect(inodes[n]) != 0
      then {Indirect(inodes[n]), BitmapBlock(Indirect(inodes[n]))} else {}
    }

    /** The bitmap blocks logged for block bn of file n, which s lacks and t has. */
    ghost function NewBits(s: Fs, t: Fs, n: nat, bn: nat): set<nat>
      requires n < |s.inodes| && n < |t.inodes|
    {
      var b := {BitmapBlock(BlockAddr(t, n, bn))};
      if BlockAddr(s, n, bn) != 0 then {}
      else if bn >= NDIRECT && Indirect(s.inodes[n]) == 0 then b + {BitmapBlock(Indirect(t.inodes[n]))}
      else b
    }

    /** The indirect block, when a new entry is logged in it. */
    ghost function NewEntry(s: Fs, t: Fs, n: nat, bn: nat): set<nat>
      requires n < |s.inodes| && n < |t.inodes|
    {
      if BlockAddr(s, n, bn) == 0 && bn >= NDIRECT then {Indirect(t.inodes[n])} else {}
    }

    /** How many free blocks bmap takes for block bn of file n. */
    static ghost function NeedOne(s: Fs, n: nat, bn: nat): nat
      requires n < |s.inodes|
    {
      if BlockAddr(s, n, bn) != 0 then 0
      else if bn >= NDIRECT && Indirect(s.inodes[n]) == 0 then 2
      else 1
    }

    lemma NewWithin(s: Fs, n: nat, bn: nat)
      requires Valid() && n < |s.inodes| == |inodes| && BlockAddr(Abs(), n, bn) != 0
      ensures NewBits(s, Abs(), n, bn) + NewEntry(s, Abs(), n, bn)
        <= {BitmapBlock(BlockAddr(Abs(), n, bn))} + IndirectSet(n)
      ensures BlockAddr(s, n, bn) != 0 ==> NewBits(s, Abs(), n, bn) == {} == NewEntry(s, Abs(), n, bn)
    {
      hide Owned;
      OwnedFacts(g, Abs(), n);
      if bn >= NDIRECT {
        EntryNeedsIndirect(Abs(), n, bn);
      }
    }

    /** addrs[i] of inode n, allocated if missing; 0 stands for the panic when the disk is full. */
    method BmapDirect(n: nat, i: nat, ghost bn: nat) returns (addr: nat)
      requires Valid() && n < |inodes| && i <= NDIRECT && (i < NDIRECT ==> bn == i)
      modifies `bitmap, `blocks, `inodes, `dirty
      ensures addr == 0 ==> Full() && unchanged(this)
      ensures addr != 0 ==> Valid() && Bmapped(old(Abs()), Abs(), n, bn) && |inodes| == |old(inodes)|
      ensures addr != 0 ==> inodes[n].addrs[i] == addr
      ensures old(inodes)[n].addrs[i] != 0 ==> addr != 0 && unchanged(this)
      ensures addr != 0 && old(inodes)[n].addrs[i] == 0 ==> dirty == old(dirty) + {addr, BitmapBlock(addr)}
      ensures addr == 0 <==> old(inodes)[n].addrs[i] == 0 && ClearBits(old(bitmap)) == 0
      ensures addr != 0 ==> ClearBits(old(bitmap)) == ClearBits(bitmap) + if old(inodes)[n].addrs[i] == 0 then 1 else 0
      ensures addr != 0 && i < NDIRECT ==> inodes[n].addrs[NDIRECT] == old(inodes)[n].addrs[NDIRECT]
      ensures Covered(old(bitmap), old(blocks), bitmap, blocks, dirty)
      ensures addr != 0 && i == NDIRECT ==> BlockAddr(Abs(), n, bn) == BlockAddr(old(Abs()), n, bn)
    {
      hide Owned, Bmapped, Covered;
      ghost var s := Abs();
      CoveredSame();
      OwnedFacts(g, s, n);
      BmappedSame(s, n, bn);
      addr := inodes[n].addrs[i];
      if addr == 0 {
        addr := Balloc();
        if addr == 0 {
          return;
        }
        DataBlock(g, s, addr);
        GainDirectOwned(g, s, n, i, addr);
        GainDirectBmapped(g, s, n, i, addr, bn);
        GainDirectAddr(g, s, n, i, addr, Ref(n, SlotOf(bn)));
        inodes := inodes[n := inodes[n].(addrs := inodes[n].addrs[i := addr])];
        assert Abs() == GainDirect(s, n, i, addr);
      }
    }

    /** Entry j of inode n's indirect block, allocated if missing. */
    method BmapEntry(n: nat, j: nat) returns (addr: nat)
      requires Valid() && n < |inodes| && j < NINDIRECT && Indirect(inodes[n]) != 0
      modifies `bitmap, `blocks, `inodes, `dirty
      ensures addr == 0 ==> Full() && unchanged(this)
      ensures addr != 0 ==> Valid() && Bmapped(old(Abs()), Abs(), n, NDIRECT + j)
      ensures addr != 0 ==> Addr(Abs(), Ref(n, EntrySlot(j))) == addr
      ensures Addr(old(Abs()), Ref(n, EntrySlot(j))) != 0 ==> addr != 0 && unchanged(this)
      ensures addr == 0 <==> Addr(old(Abs()), Ref(n, EntrySlot(j))) == 0 && ClearBits(old(bitmap)) == 0
      ensures inodes == old(inodes)
      ensures addr != 0 ==>
        ClearBits(old(bitmap)) == ClearBits(bitmap) + if Addr(old(Abs()), Ref(n, EntrySlot(j))) == 0 then 1 else 0
      ensures Covered(old(bitmap), old(blocks), bitmap, blocks, dirty)
      ensures addr != 0 && Addr(old(Abs()), Ref(n, EntrySlot(j))) == 0 ==>
        dirty == old(dirty) + {addr, BitmapBlock(addr), Indirect(inodes[n])}
    {
      hide Owned, Bmapped, SetEntry, Entry, Placed, Covered;
      ghost var s := Abs();
      CoveredSame();
      OwnedFacts(g, s, n);
      IndirectPlaced(g, s, n);
      BmappedSame(s, n, NDIRECT + j);
      var ind := inodes[n].addrs[NDIRECT];
      addr := Entry(blocks[ind], j);
      if addr == 0 {
        addr := Balloc();
        if addr == 0 {
          return;
        }
        DataBlock(g, s, addr);
        GainEntryOwned(g, s, n, j, addr);
        GainEntryBmapped(g, s, n, j, addr);
        GainEntryAddr(g, s, n, j, addr, Ref(n, EntrySlot(j)));
        CoveredPut(s.bitmap, s.blocks, bitmap, blocks, dirty, ind, SetEntry(blocks[ind], j, addr));
        blocks := blocks[ind := SetEntry(blocks[ind], j, addr)];
        dirty := dirty + {ind};
        assert Abs() == GainEntry(s, n, j, addr);
      }
    }

    /** The number of block bn of file n, allocated if missing; 0 stands for a
        panic: the block number is out of range, or the disk is full. */
    method Bmap(n: nat, bn: nat) returns (addr: nat)
      requires Valid() && n < |inodes|
      modifies `bitmap, `blocks, `inodes, `dirty
      ensures addr == 0 <==> bn >= MAXFILE || ClearBits(old(bitmap)) < NeedOne(old(Abs()), n, bn)
      ensures addr == 0 ==> bn >= MAXFILE || Full()
      ensures addr != 0 ==> Valid() && Bmapped(old(Abs()), Abs(), n, bn) && BlockAddr(Abs(), n, bn) == addr
      ensures BlockAddr(old(Abs()), n, bn) != 0 ==> addr != 0 && unchanged(this)
      ensures addr != 0 ==> |inodes| == |old(inodes)| && InodeHolds(inodes[n], blocks, bn, addr)
      ensures addr != 0 ==>
        dirty == old(dirty) + (if BlockAddr(old(Abs()), n, bn) == 0 then {addr} else {})
                 + NewBits(old(Abs()), Abs(), n, bn) + NewEntry(old(Abs()), Abs(), n, bn)
      ensures addr != 0 ==> ClearBits(old(bitmap)) == ClearBits(bitmap) + NeedOne(old(Abs()), n, bn)
      ensures addr != 0 && bn < NDIRECT ==> Indirect(inodes[n]) == Indirect(old(inodes)[n])
      ensures Covered(old(bitmap), old(blocks), bitmap, blocks, dirty)
    {
      hide Owned, Bmapped, ClearBits, Covered, InodeHolds;
      ghost var s := Abs();
      CoveredSame();
      OwnedFacts(g, s, n);
      if bn < NDIRECT {
        addr := BmapDirect(n, bn, bn);
        if addr != 0 {
          OwnedFacts(g, Abs(), n);
          AddrHolds(Abs(), n, bn);
        }
      } else if bn - NDIRECT < NINDIRECT {
        EntryNeedsIndirect(s, n, bn);
        var ind := BmapDirect(n, NDIRECT, bn);
        if ind == 0 {
          return 0;
        }
        ghost var t, mid := Abs(), dirty;
        OwnedFacts(g, t, n);
        assert Indirect(inodes[n]) == ind;
        addr := BmapEntry(n, bn - NDIRECT);
        CoveredMore(s.bitmap, s.blocks, t.bitmap, t.blocks, mid, bitmap, blocks, dirty);
        if addr != 0 {
          BmappedTwice(s, t, Abs(), n, bn);
          AddrHolds(Abs(), n, bn);
        }
      } else {
        addr := 0;
      }
    }

    ghost predicate Full()
      reads this
    {
      forall c | 0 <= c < |bitmap| :: bitmap[c]
    }

    // ------------------------------------------------------------------ readi

    /** One turn of readi's loop: the part of one block from offset at.  False
        stands for a panic; outside an operation, that of balloc's log_write too. */
    method ReadBlock(n: nat, at: nat, m: nat, inOp: bool) returns (ok: bool, part: seq<Byte>)
      requires Valid() && n < |inodes| && 0 < m && at + m <= inodes[n].size && at % BSIZE + m <= BSIZE
      modifies `bitmap, `blocks, `inodes, `dirty
      ensures !ok ==> at / BSIZE >= MAXFILE || Full() || (!inOp && BlockAddr(old(Abs()), n, at / BSIZE) == 0)
      ensures ok ==> Valid() && Bmapped(old(Abs()), Abs(), n, at / BSIZE) && |inodes| == |old(inodes)|
      ensures ok ==> inodes[n].size == old(inodes)[n].size && part == Content(Abs(), n)[at..at + m]
      ensures BlockAddr(old(Abs()), n, at / BSIZE) != 0 ==> ok && unchanged(this)
      ensures BlockAddr(old(Abs()), n, at / BSIZE) == 0 && !inOp ==> !ok && unchanged(this)
      ensures inOp ==> (!ok <==> at / BSIZE >= MAXFILE || ClearBits(old(bitmap)) < NeedOne(old(Abs()), n, at / BSIZE))
      ensures ok ==> ClearBits(old(bitmap)) == ClearBits(bitmap) + NeedOne(old(Abs()), n, at / BSIZE)
      ensures ok ==> BlockAddr(Abs(), n, at / BSIZE) != 0
      ensures ok && at / BSIZE < NDIRECT ==> Indirect(inodes[n]) == Indirect(old(inodes)[n])
    {
      hide Owned, Content, Bmapped, ClearBits;
      ghost var s := Abs();
      if !inOp && BlockAddr(Fs(bitmap, blocks, inodes), n, at / BSIZE) == 0 {
        return false, [];
      }
      var a := Bmap(n, at / BSIZE);
      if a == 0 {
        return false, [];
      }
      BmappedSizes(s, Abs(), n, at / BSIZE);
      BlockPart(g, Abs(), n, at, m);
      ok, part := true, blocks[a][at % BSIZE..at % BSIZE + m];
    }

    /** The free blocks that reading tot bytes from off on has taken are those it needed. */
    ghost predicate Fetched(s: Fs, n: nat, off: nat, tot: nat)
      reads this
    {
      && n < |s.inodes| && (tot > 0 ==> off + tot <= MAXFILE * BSIZE)
      && MapGrew(s, Abs(), n, off / BSIZE, HiBlock(off, tot))
      && ClearBits(s.bitmap) == ClearBits(bitmap) + Needed(s, n, off / BSIZE, HiBlock(off, tot))
    }

    lemma FetchedNone(n: nat, off: nat)
      requires n < |inodes|
      ensures Fetched(Abs(), n, off, 0)
    {
      hide ClearBits, BlockAddr;
      MapGrewNone(Abs(), n, off / BSIZE);
    }

    /** ReadBlock inside a read of len bytes, counting the blocks it takes. */
    method FetchBlock(n: nat, off: nat, tot: nat, m: nat, len: nat, inOp: bool, ghost s: Fs)
      returns (ok: bool, part: seq<Byte>)
      requires Valid() && n < |inodes| && 0 < m && off + tot + m <= inodes[n].size && (off + tot) % BSIZE + m <= BSIZE
      requires Fetched(s, n, off, tot) && tot + m <= len && (tot == 0 || (off + tot) % BSIZE == 0)
      requires Refilled(s, Abs()) && inodes[n].size == s.inodes[n].size
      modifies `bitmap, `blocks, `inodes, `dirty
      ensures !ok ==>
        (off + tot) / BSIZE >= MAXFILE || Full() || (!inOp && BlockAddr(old(Abs()), n, (off + tot) / BSIZE) == 0)
      ensures ok ==> Valid() && Refilled(s, Abs()) && |inodes| == |old(inodes)|
      ensures ok ==> inodes[n].size == old(inodes)[n].size && part == Content(s, n)[off + tot..off + tot + m]
      ensures BlockAddr(old(Abs()), n, (off + tot) / BSIZE) != 0 ==> ok && unchanged(this)
      ensures BlockAddr(old(Abs()), n, (off + tot) / BSIZE) == 0 && !inOp ==> !ok && unchanged(this)
      ensures ok ==> Fetched(s, n, off, tot + m)
      ensures inOp && !ok ==>
        off + len > MAXFILE * BSIZE || ClearBits(s.bitmap) < Needed(s, n, off / BSIZE, HiBlock(off, len))
    {
      hide Owned, Content, Bmapped, ClearBits, BlockAddr, HiBlock, Needed, MapGrew, NeedOne, Refilled;
      ghost var t, k := Abs(), (off + tot) / BSIZE;
      HiBlockNext(off, tot, m, len);
      NeededNext(s, t, n, off / BSIZE, k);
      NeededGrows(s, n, off / BSIZE, k + 1, HiBlock(off, len));
      ok, part := ReadBlock(n, off + tot, m, inOp);
      if ok {
        MapGrewBmap(s, t, Abs(), n, off / BSIZE, k);
        PlacedBelow(Abs(), n, k);
        RefilledMore(s, t, Abs(), n, k);
        RefilledContent(s, Abs(), n);
      }
    }

    /** Some block of file n is missing that holds some of the len bytes from off on. */
    ghost predicate Hole(s: Fs, n: nat, off: nat, len: nat) {
      exists k: nat :: Touches(k, off, len) && BlockAddr(s, n, k) == 0
    }

    /** readi returns the bytes of the file from off on, holes as zeroes; where
        there are no holes it allocates nothing.  Outside an operation it panics
        exactly at a hole, and inside one exactly when bmap is asked for a block
        past MAXFILE or there are too few free blocks to fill the holes. */
    method Readi(n: nat, off: nat, len: nat, inOp: bool) returns (r: IoResult, data: seq<Byte>)
      requires Valid() && n < |inodes| && off < WORD && len < WORD && inodes[n].size < WORD
      modifies `bitmap, `blocks, `inodes, `dirty
      ensures r.Failed? <==> off > old(inodes)[n].size || off + len >= WORD
      ensures r.Failed? ==> unchanged(this)
      ensures inOp && r.Panic? ==> Full() || old(inodes)[n].size > MAXFILE * BSIZE
      ensures inOp && !r.Failed? ==>
        var want := Wanted(off, len, old(inodes)[n].size);
        r.Panic? <==> want > 0 && (off + want > MAXFILE * BSIZE
                                   || ClearBits(old(bitmap)) < Needed(old(Abs()), n, off / BSIZE, HiBlock(off, want)))
      ensures !inOp ==> unchanged(this)
      ensures !inOp && !r.Failed? ==> (r.Panic? <==> Hole(old(Abs()), n, off, Wanted(off, len, old(inodes)[n].size)))
      ensures r.Done? ==> Valid() && Refilled(old(Abs()), Abs()) && r.count == |data|
      ensures r.Done? ==> data == Content(old(Abs()), n)[off..Min(off + len, old(inodes)[n].size)]
      ensures Mapped(old(Abs()), n, BlocksFor(old(inodes)[n].size)) ==> !r.Panic? && unchanged(this)
    {
      hide Owned, Mapped, BlocksFor, Content, Refilled, Bmapped, BlockAddr, Hole, Touches, Fetched, Needed, HiBlock;
      hide ClearBits;
      data := [];
      if off > inodes[n].size || (off + len) % WORD < off {
        return Failed, data;
      }
      var want := Wanted(off, len, inodes[n].size);
      ghost var s, size := Abs(), inodes[n].size;
      ghost var whole := Mapped(s, n, BlocksFor(size));
      RefilledSame(s);
      NoHoleYet(s, n, off);
      FetchedNone(n, off);
      ghost var c := Content(s, n);
      var tot := 0;
      while tot < want
        invariant tot <= want && data == c[off..off + tot] && Valid() && Refilled(s, Abs())
        invariant |inodes| == |s.inodes| && inodes[n].size == size
        invariant whole || !inOp ==> unchanged(this)
        invariant !inOp ==> !Hole(s, n, off, tot)
        invariant Fetched(s, n, off, tot) && (tot == 0 || tot == want || (off + tot) % BSIZE == 0)
      {
        var at := off + tot;
        var m := Min(want - tot, BSIZE - at % BSIZE);
        PartEnds(at, want - tot);
        if whole {
          MappedAt(s, n, at);
        }
        HoleNext(s, n, off, tot, m, want);
        var ok, part := FetchBlock(n, off, tot, m, want, inOp, s);
        if !ok {
          return Panic, data;
        }
        Slices(c, off, at, at + m);
        data := data + part;
        tot := tot + m;
      }
      FetchedEnough(s, n, off, want);
      r := Done(want);
    }

    lemma FetchedEnough(s: Fs, n: nat, off: nat, len: nat)
      requires Fetched(s, n, off, len)
      ensures len > 0 ==> off + len <= MAXFILE * BSIZE
      ensures n < |s.inodes| && ClearBits(s.bitmap) >= Needed(s, n, off / BSIZE, HiBlock(off, len))
    {
    }

    lemma NoHoleYet(s: Fs, n: nat, off: nat)
      ensures !Hole(s, n, off, 0)
    {
    }

    lemma HoleNext(s: Fs, n: nat, off: nat, tot: nat, m: nat, len: nat)
      requires 0 < m && (off + tot) % BSIZE + m <= BSIZE && tot + m <= len
      ensures Hole(s, n, off, tot + m) <==> Hole(s, n, off, tot) || BlockAddr(s, n, (off + tot) / BSIZE) == 0
      ensures BlockAddr(s, n, (off + tot) / BSIZE) == 0 ==> Hole(s, n, off, len)
      ensures (off + tot) / BSIZE < MAXFILE || off + len > MAXFILE * BSIZE
    {
      hide BlockAddr;
      var k := (off + tot) / BSIZE;
      assert Touches(k, off, tot + m) && Touches(k, off, len);
      forall j: nat ensures Touches(j, off, tot + m) <==> Touches(j, off, tot) || j == k {
      }
    }

    // ----------------------------------------------------------------- writei

    /** One turn of writei's loop: bmap, copy, log_write.  0 stands for a panic. */
    method WriteBlock(n: nat, at: nat, part: seq<Byte>) returns (a: nat)
      requires Valid() && n < |inodes| && part != [] && at % BSIZE + |part| <= BSIZE
      modifies `bitmap, `blocks, `inodes, `dirty
      ensures a == 0 <==> at / BSIZE >= MAXFILE || ClearBits(old(bitmap)) < NeedOne(old(Abs()), n, at / BSIZE)
      ensures a == 0 ==> at / BSIZE >= MAXFILE || Full()
      ensures a != 0 ==> Valid() && Wrote(old(Abs()), Abs(), n, at, part) && BlockAddr(Abs(), n, at / BSIZE) == a
      ensures a != 0 && BlockAddr(old(Abs()), n, at / BSIZE) != 0 ==> inodes == old(inodes)
      ensures a != 0 ==> |inodes| == |old(inodes)|
      ensures a != 0 ==>
        dirty == old(dirty) + {a}
                 + NewBits(old(Abs()), Abs(), n, at / BSIZE) + NewEntry(old(Abs()), Abs(), n, at / BSIZE)
      ensures a != 0 ==> ClearBits(old(bitmap)) == ClearBits(bitmap) + NeedOne(old(Abs()), n, at / BSIZE)
      ensures a != 0 && at / BSIZE < NDIRECT ==> Indirect(inodes[n]) == Indirect(old(inodes)[n])
      ensures Covered(old(bitmap), old(blocks), bitmap, blocks, dirty)
    {
      hide Owned, Bmapped, Wrote, Overwrite, ClearBits, BlockAddr, NeedOne, Covered;
      ghost var s := Abs();
      a := Bmap(n, at / BSIZE);
      if a == 0 {
        return;
      }
      ghost var t := Abs();
      WroteBlock(g, s, t, n, at, part);
      CoveredPut(s.bitmap, s.blocks, bitmap, blocks, dirty, a, Overwrite(blocks[a], at % BSIZE, part));
      blocks := blocks[a := Overwrite(blocks[a], at % BSIZE, part)];
      dirty := dirty + {a};
    }

    method Iupdate(n: nat)
      requires n < |inodes| && |dinodes| == |inodes|
      modifies `dinodes, `dirty
      ensures dinodes == old(dinodes)[n := inodes[n]] && dirty == old(dirty) + {InodeBlock(n)}
    {
      dinodes := dinodes[n := inodes[n]];
      dirty := dirty + {InodeBlock(n)};
    }

    /** How far the loop of writei is: p is written at off, and the blocks
        logged since start are counted from above by d and b, and exactly by e. */
    ghost predicate Progress(s: Fs, start: set<nat>, n: nat, off: nat, p: seq<Byte>, d: set<nat>, b: set<nat>,
                             e: set<nat>)
      reads this
    {
      && Valid() && n < |s.inodes| == |inodes| && off <= s.inodes[n].size && Wrote(s, Abs(), n, off, p)
      && (Mapped(s, n, BlocksFor(s.inodes[n].size)) ==>
          && (inodes == s.inodes || off + |p| > s.inodes[n].size)
          && Tally(start, dirty, d, b, IndirectSet(n), off, |p|, s.inodes[n].size))
      && ClearBits(s.bitmap) == ClearBits(bitmap) + Needed(s, n, off / BSIZE, HiBlock(off, |p|))
      && MapGrew(s, Abs(), n, off / BSIZE, HiBlock(off, |p|)) && Covered(s.bitmap, s.blocks, bitmap, blocks, dirty)
      && (Laid(|s.inodes|) && Behind(start) ==> Behind(dirty))
      && DataSet(Abs(), n, off / BSIZE, HiBlock(off, |p|)) <= dirty
      && (TightTo(s, n, s.inodes[n].size) ==> LoggedBy(start, n, off, |p|, s.inodes[n].size, e))
    }

    lemma ProgressNone(n: nat, off: nat)
      requires Valid() && n < |inodes| && off <= inodes[n].size
      ensures Progress(Abs(), dirty, n, off, [], {}, {}, {})
    {
      hide Owned, Wrote, Mapped, TightTo, Tally;
      WroteNothing(Abs(), n, off);
      TallyNone(dirty, IndirectSet(n), off, inodes[n].size);
      LoggedByNone(n, off, inodes[n].size);
      CoveredSame();
    }

    /** A turn: the next part of the bytes, up to the end of a block. */
    method WriteTurn(n: nat, at: nat, part: seq<Byte>, ghost s: Fs, ghost start: set<nat>, ghost off: nat,
                     ghost p: seq<Byte>,
                     ghost d: set<nat>, ghost b: set<nat>, ghost e: set<nat>, ghost len: nat)
      returns (ok: bool, ghost d': set<nat>, ghost b': set<nat>, ghost e': set<nat>)
      requires Progress(s, start, n, off, p, d, b, e) && n < |inodes| && at == off + |p| && part != []
      requires at % BSIZE + |part| <= BSIZE && (p == [] || at % BSIZE == 0)
      requires |p| + |part| <= len && off + len <= MAXFILE * BSIZE
      modifies `bitmap, `blocks, `inodes, `dirty
      ensures !ok ==> Full() && ClearBits(s.bitmap) < Needed(s, n, off / BSIZE, HiBlock(off, len))
      ensures ok ==> Progress(s, start, n, off, p + part, d', b', e')
    {
      hide Owned, Wrote, Mapped, BlockAddr, DataBlocks, NewBlocks, Tally, BlocksFor, HiBlock, DataSet, ClearBits;
      hide NewBits, NewEntry, Ledger, TightTo, Bits, Covered, MapGrew, Needed, NeedOne, Laid, Behind;
      ghost var t, size := Abs(), s.inodes[n].size;
      ghost var ind, before := IndirectSet(n), dirty;
      HiBlockNext(off, |p|, |part|, len);
      NeededNext(s, t, n, off / BSIZE, at / BSIZE);
      NeededGrows(s, n, off / BSIZE, at / BSIZE + 1, HiBlock(off, len));
      d', b', e' := d, b, e;
      var a := WriteBlock(n, at, part);
      ok := a != 0;
      if ok {
        WroteInodes(t, Abs(), n, at, part);
        WroteMore(s, t, Abs(), n, off, p, part);
        TurnSet(t, Abs(), n, off, |p|, part);
        MapGrewNext(s, t, Abs(), n, off / BSIZE, at, part);
        CoveredMore(s.bitmap, s.blocks, t.bitmap, t.blocks, before, bitmap, blocks, dirty);
        if Laid(|s.inodes|) && Behind(start) {
          TurnBehind(t, Abs(), n, at / BSIZE);
          BehindMore(before, {a} + NewBits(t, Abs(), n, at / BSIZE) + NewEntry(t, Abs(), n, at / BSIZE));
          assert dirty == before + ({a} + NewBits(t, Abs(), n, at / BSIZE) + NewEntry(t, Abs(), n, at / BSIZE));
        }
        if Mapped(s, n, BlocksFor(size)) {
          TurnTally(s, t, n, off, p, part, start, before, d, b, ind);
          d' := d + {a};
          b' := if BlockAddr(t, n, at / BSIZE) == 0 then b + {BitmapBlock(a)} else b;
        }
        if TightTo(s, n, size) {
          Turn(s, t, Abs(), n, off, p, part, start, before, dirty, e);
          e' := e + NewBits(t, Abs(), n, at / BSIZE);
        }
      }
    }

    /** The loop of writei; w bounds the blocks it hands to log_write, and e is
        the bitmap blocks among them when every file has exactly its blocks. */
    method WriteAll(n: nat, src: seq<Byte>, off: nat) returns (ok: bool, ghost w: set<nat>, ghost e: set<nat>)
      requires Valid() && n < |inodes| && off <= inodes[n].size && off + |src| <= MAXFILE * BSIZE
      modifies `bitmap, `blocks, `inodes, `dirty
      ensures !ok ==> Full() && ClearBits(old(bitmap)) < Needed(old(Abs()), n, off / BSIZE, HiBlock(off, |src|))
      ensures ok ==> Valid() && Wrote(old(Abs()), Abs(), n, off, src) && |inodes| == |old(inodes)|
      ensures ok ==>
        && ClearBits(old(bitmap)) == ClearBits(bitmap) + Needed(old(Abs()), n, off / BSIZE, HiBlock(off, |src|))
        && MapGrew(old(Abs()), Abs(), n, off / BSIZE, HiBlock(off, |src|))
      ensures ok ==> Covered(old(bitmap), old(blocks), bitmap, blocks, dirty)
      ensures ok && Laid(|inodes|) && Behind(old(dirty)) ==> Behind(dirty)
      ensures ok && Mapped(old(Abs()), n, BlocksFor(old(inodes)[n].size)) ==>
        && (inodes == old(inodes) || off + |src| > old(inodes)[n].size)
        && dirty <= old(dirty) + w && |w| <= DataBlocks(off, |src|) + NewBlocks(off, |src|, old(inodes)[n].size) + 2
      ensures ok ==> DataSet(Abs(), n, off / BSIZE, HiBlock(off, |src|)) <= dirty
      ensures ok && TightTo(old(Abs()), n, old(inodes)[n].size) ==>
        LoggedBy(old(dirty), n, off, |src|, old(inodes)[n].size, e)
    {
      hide Owned, Wrote, Mapped, DataBlocks, NewBlocks, BlocksFor, HiBlock, DataSet, ClearBits, TightTo, LoggedBy;
      hide Progress, Tally, Covered, MapGrew, Needed, Laid, Behind;
      ghost var s := Abs();
      ghost var d: set<nat>, b: set<nat> := {}, {};
      e := {};
      ProgressNone(n, off);
      var tot := 0;
      assert src[..tot] == [];
      while tot < |src|
        invariant tot <= |src| && |inodes| == |s.inodes| && Progress(s, old(dirty), n, off, src[..tot], d, b, e)
        invariant tot == 0 || tot == |src| || (off + tot) % BSIZE == 0
      {
        var at := off + tot;
        var m := Min(|src| - tot, BSIZE - at % BSIZE);
        var part := src[tot..tot + m];
        ok, d, b, e := WriteTurn(n, at, part, s, old(dirty), off, src[..tot], d, b, e, |src|);
        if !ok {
          return false, {}, {};
        }
        ProgressFacts(s, old(dirty), n, off, src[..tot] + part, d, b, e);
        assert src[..tot] + part == src[..tot + m];
        tot := tot + m;
      }
      assert src[..tot] == src;
      w := d + b + IndirectSet(n);
      ProgressFacts(s, old(dirty), n, off, src, d, b, e);
      ok := true;
    }

    lemma ProgressFacts(s: Fs, start: set<nat>, n: nat, off: nat, p: seq<Byte>, d: set<nat>, b: set<nat>, e: set<nat>)
      requires Progress(s, start, n, off, p, d, b, e)
      ensures Valid() && n < |s.inodes| == |inodes| && Wrote(s, Abs(), n, off, p)
      ensures ClearBits(s.bitmap) == ClearBits(bitmap) + Needed(s, n, off / BSIZE, HiBlock(off, |p|))
      ensures MapGrew(s, Abs(), n, off / BSIZE, HiBlock(off, |p|)) && Covered(s.bitmap, s.blocks, bitmap, blocks, dirty)
      ensures Laid(|s.inodes|) && Behind(start) ==> Behind(dirty)
      ensures DataSet(Abs(), n, off / BSIZE, HiBlock(off, |p|)) <= dirty
      ensures TightTo(s, n, s.inodes[n].size) ==> LoggedBy(start, n, off, |p|, s.inodes[n].size, e)
      ensures Mapped(s, n, BlocksFor(s.inodes[n].size)) ==>
        && (inodes == s.inodes || off + |p| > s.inodes[n].size)
        && var w := d + b + IndirectSet(n);
           dirty <= start + w && |w| <= DataBlocks(off, |p|) + NewBlocks(off, |p|, s.inodes[n].size) + 2
    {
      hide Owned, Wrote, Mapped, DataBlocks, NewBlocks, BlocksFor, HiBlock, DataSet, ClearBits, TightTo, LoggedBy;
      hide Tally, Covered, MapGrew, Needed;
      if Mapped(s, n, BlocksFor(s.inodes[n].size)) {
        TallyTotal(start, dirty, d, b, IndirectSet(n), off, |p|, s.inodes[n].size);
      }
    }

    /** One turn stays within the upper bound. */
    lemma TurnTally(s: Fs, t: Fs, n: nat, off: nat, p: seq<Byte>, q: seq<Byte>,
                    start: set<nat>, before: set<nat>, d: set<nat>, b: set<nat>, ind: set<nat>)
      requires n < |s.inodes| == |t.inodes| == |inodes| && off <= s.inodes[n].size
      requires Mapped(s, n, BlocksFor(s.inodes[n].size))
      requires Valid() && Wrote(s, t, n, off, p) && Wrote(t, Abs(), n, off + |p|, q) && q != []
      requires (off + |p|) % BSIZE + |q| <= BSIZE && (p == [] || (off + |p|) % BSIZE == 0)
      requires var i := Indirect(t.inodes[n]); ind == if i != 0 then {i, BitmapBlock(i)} else {}
      requires Tally(start, before, d, b, ind, off, |p|, s.inodes[n].size)
      requires BlockAddr(Abs(), n, (off + |p|) / BSIZE) != 0
      requires dirty == before + {BlockAddr(Abs(), n, (off + |p|) / BSIZE)}
                        + NewBits(t, Abs(), n, (off + |p|) / BSIZE) + NewEntry(t, Abs(), n, (off + |p|) / BSIZE)
      ensures var a, isNew := BlockAddr(Abs(), n, (off + |p|) / BSIZE), BlockAddr(t, n, (off + |p|) / BSIZE) == 0;
        && Tally(start, dirty, d + {a}, if isNew then b + {BitmapBlock(a)} else b, IndirectSet(n),
                 off, |p| + |q|, s.inodes[n].size)
        && (isNew ==> off + |p| + |q| > s.inodes[n].size)
    {
      hide Owned, Wrote, Mapped, BlockAddr, DataBlocks, NewBlocks, Tally, BlocksFor, NewBits, NewEntry;
      var a, isNew := BlockAddr(Abs(), n, (off + |p|) / BSIZE), BlockAddr(t, n, (off + |p|) / BSIZE) == 0;
      MappedStill(s, t, n, off, p, (off + |p|) / BSIZE);
      IndirectStays(t, Abs(), n, off + |p|, q);
      NewWithin(t, n, (off + |p|) / BSIZE);
      TallyNext(start, before, dirty, d, b, ind, IndirectSet(n), a, BitmapBlock(a), off, |p|, |q|, s.inodes[n].size,
                isNew);
    }

    /** All of e are bitmap blocks. */
    ghost predicate Bits(e: set<nat>) {
      forall x | x in e :: bmapStart <= x && (g.size > 0 ==> x <= BitmapBlock(g.size - 1))
    }

    /** Exactly the blocks handed to log_write by writei's loop. */
    ghost predicate LoggedBy(start: set<nat>, n: nat, off: nat, tot: nat, size: nat, e: set<nat>)
      requires n < |inodes|
      reads this
    {
      && Ledger(start, dirty, DataSet(Abs(), n, off / BSIZE, HiBlock(off, tot)), e, off, tot, size, Indirect(inodes[n]))
      && Bits(e)
    }

    lemma LoggedByNone(n: nat, off: nat, size: nat)
      requires n < |inodes| && off <= size
      ensures LoggedBy(dirty, n, off, 0, size, {}) && HiBlock(off, 0) == off / BSIZE
      ensures DataSet(Abs(), n, off / BSIZE, HiBlock(off, 0)) == {}
    {
      LedgerNone(Abs(), n, dirty, off, size, Indirect(inodes[n]));
    }

    /** One turn of the loop, from state t to state u, logs what the ledger says. */
    lemma Turn(s: Fs, t: Fs, u: Fs, n: nat, off: nat, p: seq<Byte>, q: seq<Byte>,
               start: set<nat>, before: set<nat>, after: set<nat>, e: set<nat>)
      requires n < |s.inodes| == |t.inodes| == |u.inodes| && off <= s.inodes[n].size && TightTo(s, n, s.inodes[n].size)
      requires Owned(g, t) && Owned(g, u) && Wrote(s, t, n, off, p) && Wrote(t, u, n, off + |p|, q) && q != []
      requires (off + |p|) % BSIZE + |q| <= BSIZE && (p == [] || (off + |p|) % BSIZE == 0)
      requires Ledger(start, before, DataSet(t, n, off / BSIZE, HiBlock(off, |p|)), e,
                      off, |p|, s.inodes[n].size, Indirect(t.inodes[n])) && Bits(e)
      requires after == before + {BlockAddr(u, n, (off + |p|) / BSIZE)}
                        + NewBits(t, u, n, (off + |p|) / BSIZE) + NewEntry(t, u, n, (off + |p|) / BSIZE)
      ensures Ledger(start, after, DataSet(u, n, off / BSIZE, HiBlock(off, |p| + |q|)),
                     e + NewBits(t, u, n, (off + |p|) / BSIZE), off, |p| + |q|, s.inodes[n].size, Indirect(u.inodes[n]))
      ensures Bits(e + NewBits(t, u, n, (off + |p|) / BSIZE))
    {
      hide Owned, Wrote, BlockAddr, DataBlocks, NewBlocks, BlocksFor, HiBlock, DataSet, Ledger, TightTo, EntryLog;
      var k := (off + |p|) / BSIZE;
      TurnSet(t, u, n, off, |p|, q);
      TurnNew(s, t, n, off, p);
      TurnEntry(g, s, t, u, n, off, p, q);
      TurnBits(t, u, n, k);
      LedgerNext(start, before, after, DataSet(t, n, off / BSIZE, HiBlock(off, |p|)), e,
                 NewBits(t, u, n, k), NewEntry(t, u, n, k), BlockAddr(u, n, k), off, |p|, |q|, s.inodes[n].size,
                 Indirect(t.inodes[n]), Indirect(u.inodes[n]));
    }

    lemma TurnBehind(t: Fs, u: Fs, n: nat, k: nat)
      requires Owned(g, u) && n < |t.inodes| == |u.inodes| && BlockAddr(u, n, k) != 0 && Laid(|u.inodes|)
      ensures Behind({BlockAddr(u, n, k)} + NewBits(t, u, n, k) + NewEntry(t, u, n, k))
    {
      TurnBits(t, u, n, k);
      assert Placed(g, u, Addr(u, Ref(n, SlotOf(k))));
      assert Addr(u, Ref(n, IndirectSlot)) == Indirect(u.inodes[n]);
      assert k >= NDIRECT ==> Indirect(u.inodes[n]) != 0;
      assert inodeStart <= bmapStart;
      hide Owned, Addr;
    }

    lemma TurnBits(t: Fs, u: Fs, n: nat, k: nat)
      requires Owned(g, u) && n < |t.inodes| == |u.inodes| && BlockAddr(u, n, k) != 0
      ensures Bits(NewBits(t, u, n, k))
    {
      assert Placed(g, u, Addr(u, Ref(n, SlotOf(k))));
      assert Addr(u, Ref(n, IndirectSlot)) == Indirect(u.inodes[n]);
      assert Indirect(u.inodes[n]) < g.size;
      BitmapMonotone(BlockAddr(u, n, k));
      BitmapMonotone(Indirect(u.inodes[n]));
    }

    lemma BitmapMonotone(b: nat)
      requires b < g.size
      ensures BitmapBlock(b) <= BitmapBlock(g.size - 1)
    {
    }

    /** The end of writei: a file that grew gets its size, in memory and on disk. */
    method Extend(n: nat, off: nat, len: nat)
      requires n < |inodes| == |dinodes| && off <= inodes[n].size
      modifies `inodes, `dinodes, `dirty
      ensures Abs() == SetSize(old(Abs()), n, Max(old(inodes)[n].size, off + len))
      ensures off + len <= old(inodes)[n].size ==> unchanged(this)
      ensures off + len > old(inodes)[n].size ==>
        dirty == old(dirty) + {InodeBlock(n)} && dinodes == old(dinodes)[n := inodes[n]]
      ensures InodesCovered(old(dinodes), dinodes, dirty)
    {
      if len > 0 && off + len > inodes[n].size {
        inodes := inodes[n := inodes[n].(size := off + len)];
        Iupdate(n);
      } else {
        assert inodes[n := inodes[n].(size := inodes[n].size)] == inodes;
      }
    }

    /** writei: the file becomes the splice and every other file stays.  Without
        holes, the inode on disk is current again although iupdate is
        conditional, and w bounds the blocks handed to log_write.  Where every
        file has exactly its blocks, LogCost counts them. */
    method Writei(n: nat, src: seq<Byte>, off: nat) returns (r: IoResult, ghost w: set<nat>)
      requires Valid() && n < |inodes| && off < WORD && |src| < WORD
      modifies `bitmap, `blocks, `inodes, `dinodes, `dirty
      ensures r.Failed? <==> off > old(inodes)[n].size || off + |src| > MAXFILE * BSIZE
      ensures r.Failed? ==> unchanged(this)
      ensures r.Panic? <==>
        !r.Failed? && ClearBits(old(bitmap)) < Needed(old(Abs()), n, off / BSIZE, HiBlock(off, |src|))
      ensures r.Done? ==> r.count == |src| && Valid() && |inodes| == |old(inodes)|
      ensures r.Done? ==> inodes[n].size == Max(old(inodes)[n].size, off + |src|)
      ensures r.Done? ==> Content(Abs(), n) == Splice(Content(old(Abs()), n), off, src)
      ensures r.Done? ==> forall m: nat | m < |inodes| && m != n ::
        inodes[m] == old(inodes)[m] && Content(Abs(), m) == Content(old(Abs()), m)
      ensures r.Done? && old(NoHoles(Abs())) ==> NoHoles(Abs()) && (old(dinodes == inodes) ==> dinodes == inodes)
      ensures r.Done? && old(NoHoles(Abs())) ==>
        dirty <= old(dirty) + w && |w| <= DataBlocks(off, |src|) + NewBlocks(off, |src|, old(inodes)[n].size) + 3
      ensures r.Done? && |src| > 0 ==> DataSet(Abs(), n, off / BSIZE, BlocksFor(off + |src|)) <= dirty
      ensures r.Done? && |src| > 0 ==> DataBlocks(off, |src|) <= |dirty|
      ensures r.Done? && |src| > 0 && off + |src| > old(inodes)[n].size ==> InodeBlock(n) in dirty
      ensures r.Done? && old(Tight(Abs())) ==> Tight(Abs())
      ensures r.Done? && |src| > 0 && old(Tight(Abs()) && Laid(|inodes|) && dirty == {}) ==>
        && LogCost(off, |src|, old(inodes)[n].size) <= |dirty|
        && (g.size <= BPB ==> |dirty| == LogCost(off, |src|, old(inodes)[n].size))
      ensures r.Done? ==>
        && ClearBits(old(bitmap)) == ClearBits(bitmap) + Needed(old(Abs()), n, off / BSIZE, HiBlock(off, |src|))
        && MapGrew(old(Abs()), Abs(), n, off / BSIZE, HiBlock(off, |src|))
      ensures r.Done? ==>
        Covered(old(bitmap), old(blocks), bitmap, blocks, dirty) && InodesCovered(old(dinodes), dinodes, dirty)
      ensures r.Done? && Laid(|inodes|) && Behind(old(dirty)) ==> Behind(dirty)
    {
      hide Owned, Wrote, NoHoles, Mapped, Content, Splice, DataBlocks, NewBlocks, BlocksFor;
      hide Tight, TightTo, LogCost, DataSet, HiBlock, ClearBits, LoggedBy, Covered, MapGrew, Needed, InodesCovered;
      hide Laid, Behind;
      w := {};
      if off > inodes[n].size || (off + |src|) % WORD < off {
        return Failed, w;
      }
      if off + |src| > MAXFILE * BSIZE {
        return Failed, w;
      }
      ghost var s, size := Abs(), inodes[n].size;
      if NoHoles(s) {
        HolesAt(s, n);
      }
      var ok;
      ghost var e;
      ok, w, e := WriteAll(n, src, off);
      if !ok {
        return Panic, w;
      }
      ghost var t := Abs();
      WroteInodes(s, t, n, off, src);
      WroteAllFiles(g, s, t, n, off, src);
      SetSizeSame(g, t, n, Max(size, off + |src|));
      UnionSize(w, {InodeBlock(n)});
      WriteiCost(s, n, off, src, old(dirty), e);
      w := w + {InodeBlock(n)};
      MapGrewSized(s, t, n, off / BSIZE, HiBlock(off, |src|), Max(size, off + |src|));
      InodeLogged(s, n);
      Extend(n, off, |src|);
      r := Done(|src|);
    }

    lemma InodeLogged(s: Fs, n: nat)
      requires Valid() && n < |inodes| && Covered(s.bitmap, s.blocks, bitmap, blocks, dirty)
      ensures Covered(s.bitmap, s.blocks, bitmap, blocks, dirty + {InodeBlock(n)})
      ensures Laid(|inodes|) && Behind(dirty) ==> Behind(dirty + {InodeBlock(n)})
    {
      OwnedFacts(g, Abs(), n);
      hide Owned;
      assert InodeBlock(n) <= InodeBlock(|inodes| - 1);
    }

    /** The sizes of the sets that writei's loop has logged, and of the same with the inode block. */
    lemma WriteiCost(s: Fs, n: nat, off: nat, src: seq<Byte>, start: set<nat>, e: set<nat>)
      requires Valid() && n < |s.inodes| == |inodes| && off <= s.inodes[n].size && Wrote(s, Abs(), n, off, src)
      requires DataSet(Abs(), n, off / BSIZE, HiBlock(off, |src|)) <= dirty
      requires TightTo(s, n, s.inodes[n].size) ==> LoggedBy(start, n, off, |src|, s.inodes[n].size, e)
      ensures var size := Max(s.inodes[n].size, off + |src|);
        var grown := if off + |src| > s.inodes[n].size then {InodeBlock(n)} else {};
        && (Tight(s) ==> Tight(SetSize(Abs(), n, size)))
        && (|src| > 0 ==>
            && DataSet(SetSize(Abs(), n, size), n, off / BSIZE, BlocksFor(off + |src|)) <= dirty
            && HiBlock(off, |src|) - off / BSIZE == DataBlocks(off, |src|) <= |dirty| && |dirty| <= |dirty + grown|
            && (Tight(s) && Laid(|inodes|) && start == {} ==>
                && LogCost(off, |src|, s.inodes[n].size) <= |dirty + grown|
                && (g.size <= BPB ==> |dirty + grown| == LogCost(off, |src|, s.inodes[n].size))))
    {
      hide Owned, Wrote, DataBlocks, NewBlocks, BlocksFor, Tight, LogCost, DataSet, HiBlock, Ledger, BlockAddr, Bits;
      var size := Max(s.inodes[n].size, off + |src|);
      OwnedFacts(g, Abs(), n);
      SetSizeSame(g, Abs(), n, size);
      if Tight(s) {
        WroteTight(g, s, Abs(), n, off, src);
        TightAt(s, n);
      }
      if |src| > 0 {
        WroteHas(s, Abs(), n, off, src);
        DataSetSized(Abs(), n, size, off / BSIZE, HiBlock(off, |src|));
        DataSetSize(g, Abs(), n, off / BSIZE, HiBlock(off, |src|));
        SubsetSize(DataSet(Abs(), n, off / BSIZE, HiBlock(off, |src|)), dirty);
        SubsetSize(dirty, dirty + {InodeBlock(n)});
        if Tight(s) && Laid(|inodes|) && start == {} {
          LedgerSize(Abs(), n, off, |src|, s.inodes[n].size, dirty, e, InodeBlock(n));
        }
      }
    }

    /** Data, bitmap, indirect and inode blocks are apart, so their numbers add up. */
    lemma LedgerSize(t: Fs, n: nat, off: nat, len: nat, size: nat, dirty: set<nat>, e: set<nat>, ib: nat)
      requires Owned(g, t) && n < |t.inodes| && off <= size && len > 0 && ib < bmapStart
      requires g.size > 0 && BitmapBlock(g.size - 1) < g.dataStart && Bits(e)
      requires forall k: nat | off / BSIZE <= k < HiBlock(off, len) :: BlockAddr(t, n, k) != 0
      requires Ledger({}, dirty, DataSet(t, n, off / BSIZE, HiBlock(off, len)), e,
                      off, len, size, Indirect(t.inodes[n]))
      ensures var grown := if off + len > size then {ib} else {};
        && LogCost(off, len, size) <= |dirty + grown|
        && (g.size <= BPB ==> |dirty + grown| == LogCost(off, len, size))
    {
      hide Owned, BlockAddr, DataSet, NewBlocks, BlocksFor, HiBlock, DataBlocks, Bits, EntryLog;
      BitsLow(e);
      var d := DataSet(t, n, off / BSIZE, HiBlock(off, len));
      var x := EntryLog(off, len, size, Indirect(t.inodes[n]));
      var grown := if off + len > size then {ib} else {};
      HiBlockIs(off, len);
      DataSetSize(g, t, n, off / BSIZE, HiBlock(off, len));
      LedgerApart(t, n, off, len, size);
      EntryLogSize(off, len, size, Indirect(t.inodes[n]));
      assert dirty + grown == d + e + x + grown;
      assert d !! e && d + e !! x && d + e + x !! grown;
      ApartSizes(d, e, x, grown);
    }

    /** Bitmap blocks lie before the data blocks; a small disk has only one. */
    lemma BitsLow(e: set<nat>)
      requires g.size > 0 && BitmapBlock(g.size - 1) < g.dataStart && Bits(e)
      ensures forall x | x in e :: bmapStart <= x < g.dataStart
      ensures e != {} ==> |e| >= 1 && (g.size <= BPB ==> |e| == 1)
    {
      if e != {} && g.size <= BPB {
        assert e == {bmapStart};
      }
    }

    lemma LedgerApart(t: Fs, n: nat, off: nat, len: nat, size: nat)
      requires Owned(g, t) && n < |t.inodes| && off <= size && len > 0
      requires forall k: nat | off / BSIZE <= k < HiBlock(off, len) :: BlockAddr(t, n, k) != 0
      ensures forall y | y in DataSet(t, n, off / BSIZE, HiBlock(off, len)) ::
        g.dataStart <= y && y !in EntryLog(off, len, size, Indirect(t.inodes[n]))
      ensures forall y | y in EntryLog(off, len, size, Indirect(t.inodes[n])) :: g.dataStart <= y
    {
      hide Owned, BlockAddr, DataSet, NewBlocks, BlocksFor;
      HiBlockIs(off, len);
      forall y | y in DataSet(t, n, off / BSIZE, HiBlock(off, len))
        ensures g.dataStart <= y && y !in EntryLog(off, len, size, Indirect(t.inodes[n]))
      {
        DataSetHas(t, n, off / BSIZE, HiBlock(off, len), y);
        DataSetPlaced(g, t, n, off / BSIZE, HiBlock(off, len), y);
      }
      if EntryLog(off, len, size, Indirect(t.inodes[n])) != {} {
        OwnedFacts(g, t, n);
        EntryNeedsIndirect(t, n, HiBlock(off, len) - 1);
        IndirectHigh(g, t, n);
      }
    }

    // ----------------------------------------------------------------- itrunc

    /** Direct blocks first, each slot cleared as its block is freed. */
    method TruncDirect(n: nat)
      requires Valid() && n < |inodes|
      modifies `bitmap, `inodes, `dirty
      ensures Valid() && |inodes| == |old(inodes)| && blocks == old(blocks)
      ensures forall m: nat | m < |inodes| && m != n :: inodes[m] == old(inodes)[m]
      ensures inodes[n].size == old(inodes)[n].size && inodes[n].addrs[NDIRECT] == old(inodes)[n].addrs[NDIRECT]
      ensures forall i | 0 <= i < NDIRECT :: inodes[n].addrs[i] == 0
      ensures forall c: nat | c < |bitmap| ::
        bitmap[c] <==> old(bitmap)[c] && !(exists i :: 0 <= i < NDIRECT && old(inodes)[n].addrs[i] == c && c != 0)
    {
      hide Owned;
      ghost var s := Abs();
      OwnedFacts(g, s, n);
      var i := 0;
      while i < NDIRECT
        invariant i <= NDIRECT && Valid() && |inodes| == |s.inodes| && blocks == s.blocks && |bitmap| == |s.bitmap|
        invariant forall m: nat | m < |inodes| && m != n :: inodes[m] == s.inodes[m]
        invariant |inodes[n].addrs| == NDIRECT + 1 && inodes[n].size == s.inodes[n].size
        invariant forall k | 0 <= k <= NDIRECT :: inodes[n].addrs[k] == if k < i then 0 else s.inodes[n].addrs[k]
        invariant forall c: nat | c < |bitmap| ::
          bitmap[c] <==> s.bitmap[c] && !(exists k :: 0 <= k < i && s.inodes[n].addrs[k] == c && c != 0)
      {
        if inodes[n].addrs[i] != 0 {
          ghost var t := Abs();
          var b := inodes[n].addrs[i];
          DropDirect(g, t, n, i);
          Bfree(b);
          inodes := inodes[n := inodes[n].(addrs := inodes[n].addrs[i := 0])];
        }
        i := i + 1;
      }
    }

    /** The blocks listed in the indirect block, then the indirect block itself. */
    method TruncIndirect(n: nat)
      requires Valid() && n < |inodes| && Indirect(inodes[n]) != 0
      modifies `bitmap, `inodes, `dirty
      ensures Valid() && blocks == old(blocks) && |inodes| == |old(inodes)|
      ensures inodes == old(inodes)[n := inodes[n].(addrs := old(inodes)[n].addrs[NDIRECT := 0])]
      ensures inodes[n].size == old(inodes)[n].size
      ensures forall c: nat | c < |bitmap| ::
        bitmap[c] <==>
          && old(bitmap)[c]
          && !(c != 0 && (c == Indirect(old(inodes)[n])
                          || exists j: nat :: j < NINDIRECT && Addr(old(Abs()), Ref(n, EntrySlot(j))) == c))
    {
      hide Owned, Entry;
      ghost var s := Abs();
      OwnedFacts(g, s, n);
      IndirectPlaced(g, s, n);
      var ind := inodes[n].addrs[NDIRECT];
      ghost var f: set<nat> := {};
      var j := 0;
      while j < NINDIRECT
        invariant j <= NINDIRECT && blocks == s.blocks && inodes == s.inodes && Cleared(s.bitmap, bitmap, f)
        invariant forall c: nat :: c in f <==> c != 0 && exists k: nat :: k < j && Addr(s, Ref(n, EntrySlot(k))) == c
      {
        var a := Entry(blocks[ind], j);
        assert a == Addr(s, Ref(n, EntrySlot(j)));
        if a != 0 {
          EntryStillSet(g, s, n, j, bitmap, f);
          Bfree(a);
          f := f + {a};
        }
        j := j + 1;
      }
      IndirectStillSet(g, s, n, bitmap, f);
      Bfree(ind);
      f := f + {ind};
      inodes := inodes[n := inodes[n].(addrs := inodes[n].addrs[NDIRECT := 0])];
      DropIndirect(g, s, Abs(), n, f);
    }

    /** itrunc frees exactly the blocks that inode n owns. */
    method Itrunc(n: nat)
      requires Valid() && n < |inodes|
      modifies `bitmap, `inodes, `dinodes, `dirty
      ensures Valid() && blocks == old(blocks) && |inodes| == |old(inodes)| && |bitmap| == |old(bitmap)|
      ensures inodes[n].size == 0 && forall i | 0 <= i < |inodes[n].addrs| :: inodes[n].addrs[i] == 0
      ensures dinodes == old(dinodes)[n := inodes[n]]
      ensures forall m: nat | m < |inodes| && m != n :: inodes[m] == old(inodes)[m]
      ensures forall c: nat | c < |bitmap| :: bitmap[c] <==> old(bitmap)[c] && !(c != 0 && Owns(old(Abs()), n, c))
    {
      hide Owned, Owns;
      ghost var s := Abs();
      OwnedFacts(g, s, n);
      TruncDirect(n);
      ghost var t := Abs();
      OwnedFacts(g, t, n);
      if inodes[n].addrs[NDIRECT] != 0 {
        TruncIndirect(n);
      }
      ghost var u := Abs();
      TruncOwns(s, t, u, n);
      SetSizeSame(g, u, n, 0);
      inodes := inodes[n := inodes[n].(size := 0)];
      assert Abs() == SetSize(u, n, 0);
      OwnedFacts(g, Abs(), n);
      Iupdate(n);
    }

    // -------------------------------------------------------------- filewrite

    /** One chunk, in a transaction of its own: p is written from start on already. */
    method WriteChunk(n: nat, part: seq<Byte>, off: nat, ghost s: Fs, ghost start: nat, ghost p: seq<Byte>,
                      ghost logsize: nat)
      returns (c: IoResult)
      requires Valid() && n < |inodes| && off == start + |p| && off + |part| < WORD && FileHas(s, Abs(), n, start, p)
      requires logsize >= 6 && 0 < |part| <= MaxChunk(logsize)
      modifies `bitmap, `blocks, `inodes, `dinodes, `dirty
      ensures c.Panic? ==> ClearBits(old(bitmap)) < Needed(old(Abs()), n, off / BSIZE, HiBlock(off, |part|))
      ensures !c.Panic? ==> Valid() && |inodes| == |old(inodes)|
      ensures c.Failed? ==> Abs() == old(Abs()) && dinodes == old(dinodes)
      ensures c.Failed? ==> off > old(inodes)[n].size || off + |part| > MAXFILE * BSIZE
      ensures c.Done? ==> off + |part| <= MAXFILE * BSIZE
      ensures c.Done? ==> off <= old(inodes)[n].size && inodes[n].size == Max(old(inodes)[n].size, off + |part|)
      ensures c.Done? ==> FileHas(s, Abs(), n, start, p + part)
      ensures c.Done? && old(NoHoles(Abs())) ==>
        NoHoles(Abs()) && |dirty| <= logsize && (old(dinodes == inodes) ==> dinodes == inodes)
      ensures c.Done? && old(Tight(Abs())) ==> Tight(Abs())
      ensures c.Done? ==> DataBlocks(off, |part|) <= |dirty|
      ensures c.Done? && old(Tight(Abs()) && Laid(|inodes|)) ==>
        && LogCost(off, |part|, old(inodes)[n].size) <= |dirty|
        && (g.size <= BPB ==> |dirty| == LogCost(off, |part|, old(inodes)[n].size))
      ensures c.Done? ==>
        && ClearBits(old(bitmap)) == ClearBits(bitmap) + Needed(old(Abs()), n, off / BSIZE, HiBlock(off, |part|))
        && MapGrew(old(Abs()), Abs(), n, off / BSIZE, HiBlock(off, |part|))
      ensures c.Done? ==> Journaled(old(OnDisk()), OnDisk(), dirty)
      ensures c.Done? && Laid(|inodes|) ==> Behind(dirty)
    {
      hide Owned, NoHoles, Splice, FileHas, DataBlocks, NewBlocks, Tight, LogCost, ClearBits, Laid, DataSet, BlocksFor;
      hide MaxChunk, Needed, MapGrew, Covered, InodesCovered, HiBlock;
      dirty := {};                                // begin_op
      ghost var t := Abs();
      ghost var w;
      c, w := Writei(n, part, off);
      if c.Done? {                                // end_op
        ChunkBound(off, |part|, t.inodes[n].size, logsize);
        FileHasMore(s, t, Abs(), n, start, p, part);
        if NoHoles(t) {
          SubsetSize(dirty, w);
        }
      }
    }

    /** filewrite from file offset start: chunk by chunk, one transaction each.
        logged lists the blocks each transaction hands to log_write, and states
        what the disk holds before, between and after them. */
    method FileWrite(n: nat, start: nat, src: seq<Byte>, logsize: nat)
      returns (r: IoResult, off: nat, ghost logged: seq<set<nat>>, ghost states: seq<Fs>)
      requires Valid() && n < |inodes| && start + |src| < WORD && logsize >= 6
      modifies `bitmap, `blocks, `inodes, `dinodes, `dirty
      ensures old(NoHoles(Abs())) ==> forall k | 0 <= k < |logged| :: |logged[k]| <= logsize
      ensures forall k | 0 <= k < |logged| :: ChunkData(start, |src|, logsize, k) <= |logged[k]|
      ensures old(Tight(Abs()) && Laid(|inodes|)) ==>
        forall k | 0 <= k < |logged| :: ChunkCost(start, |src|, old(inodes)[n].size, logsize, k) <= |logged[k]|
      ensures old(Tight(Abs()) && Laid(|inodes|)) && g.size <= BPB ==>
        forall k | 0 <= k < |logged| :: |logged[k]| == ChunkCost(start, |src|, old(inodes)[n].size, logsize, k)
      ensures r.Panic? <==>
        !r.Failed? && ClearBits(old(bitmap)) < Needed(old(Abs()), n, start / BSIZE, HiBlock(start, |src|))
      ensures !r.Panic? ==> Valid() && start <= off <= start + |src|
      ensures !r.Panic? && old(NoHoles(Abs())) ==> NoHoles(Abs()) && (old(dinodes == inodes) ==> dinodes == inodes)
      ensures !r.Panic? && old(Tight(Abs())) ==> Tight(Abs())
      ensures !r.Panic? ==> FileHas(old(Abs()), Abs(), n, start, src[..off - start])
      ensures r.Done? ==> r.count == |src| && off == start + |src|
      ensures off - start == Min(|src|, ChunkAt(logsize, |logged|))
      ensures logged != [] ==> ChunkAt(logsize, |logged| - 1) < |src|
      ensures r.Failed? ==> off < start + |src| && (start > old(inodes)[n].size || start + |src| > MAXFILE * BSIZE)
      ensures r.Done? && |src| > 0 ==> start <= old(inodes)[n].size && start + |src| <= MAXFILE * BSIZE
      ensures Journal(old(OnDisk()), states, logged)
      ensures old(NoHoles(Abs()) && dinodes == inodes) ==> WholeChunks(g, old(Abs()), states, n, start, src, logsize)
    {
      hide Owned, NoHoles, Content, FileHas, Tight, HiBlock, ClearBits, Laid, ChunkData, ChunkCost, ChunkAt;
      hide Needed, Journal, WholeChunks, Filed;
      ghost var s, d := Abs(), OnDisk();
      logged, states := [], [d];
      FiledNone(n, start, src, logsize);
      off := start;
      var i := 0;
      while i < |src|
        invariant i <= |src| && off == start + i && Filed(s, d, n, start, src, i, logsize, logged, states)
      {
        FiledFacts(s, d, n, start, src, i, logsize, logged, states);
        var c, n1;
        ghost var logged', states';
        c, n1, logged', states' := NextChunk(n, start, src, i, logsize, s, d, logged, states);
        if c.Panic? {
          return Panic, off, logged, states;
        }
        if c.Failed? {
          FiledFacts(s, d, n, start, src, i, logsize, logged, states);
          return Failed, off, logged, states;
        }
        logged, states := logged', states';
        off := off + n1;
        i := i + n1;
      }
      FiledFacts(s, d, n, start, src, i, logsize, logged, states);
      r := Done(|src|);
    }

    /** How far filewrite is: i bytes are written, from the file system s in
        memory and d on disk. */
    ghost predicate Filed(s: Fs, d: Fs, n: nat, start: nat, src: seq<Byte>, i: nat, logsize: nat,
                          logged: seq<set<nat>>, states: seq<Fs>)
      requires logsize >= 6
      reads this
    {
      var tight, whole := Tight(s) && Laid(|s.inodes|), NoHoles(s) && d.inodes == s.inodes;
      && i <= |src| && n < |s.inodes| == |inodes| && Valid() && FileHas(s, Abs(), n, start, src[..i])
      && (NoHoles(s) ==> NoHoles(Abs())) && (whole ==> dinodes == inodes) && (Tight(s) ==> Tight(Abs()))
      && Costed(logged, start, |src|, s.inodes[n].size, logsize, NoHoles(s), tight, tight && g.size <= BPB)
      && i == Min(|src|, ChunkAt(logsize, |logged|)) && (logged != [] ==> ChunkAt(logsize, |logged| - 1) < |src|)
      && (i > 0 ==> start <= s.inodes[n].size && start + i <= MAXFILE * BSIZE)
      && inodes[n].size == (if i == 0 then s.inodes[n].size else Max(s.inodes[n].size, start + i))
      && ClearBits(s.bitmap) == ClearBits(bitmap) + Needed(s, n, start / BSIZE, HiBlock(start, i))
      && MapGrew(s, Abs(), n, start / BSIZE, HiBlock(start, i))
      && |d.inodes| == |s.inodes|
      && |states| == |logged| + 1 && states[|logged|] == OnDisk() && Journal(d, states, logged)
      && (whole ==> WholeChunks(g, s, states, n, start, src, logsize))
    }

    lemma FiledNone(n: nat, start: nat, src: seq<Byte>, logsize: nat)
      requires Valid() && n < |inodes| && logsize >= 6
      ensures Filed(Abs(), OnDisk(), n, start, src, 0, logsize, [], [OnDisk()])
    {
      hide Owned, NoHoles, Content, FileHas, Tight, ClearBits, Laid, ChunkAt, HiBlock, Needed, MapGrew, WholeChunks;
      hide Journal;
      ChunkNone(start, logsize);
      FileHasNothing(Abs(), n, start);
      MapGrewNone(Abs(), n, start / BSIZE);
      assert src[..0] == [];
      JournalNone(OnDisk());
      if dinodes == inodes {
        WholeChunksNone(g, Abs(), OnDisk(), n, start, src, logsize);
      }
    }

    lemma FiledFacts(s: Fs, d: Fs, n: nat, start: nat, src: seq<Byte>, i: nat, logsize: nat,
                     logged: seq<set<nat>>, states: seq<Fs>)
      requires logsize >= 6 && Filed(s, d, n, start, src, i, logsize, logged, states)
      ensures Valid() && n < |s.inodes| == |inodes| && FileHas(s, Abs(), n, start, src[..i])
      ensures NoHoles(s) ==> NoHoles(Abs()) && (d.inodes == s.inodes ==> dinodes == inodes)
      ensures Tight(s) ==> Tight(Abs())
      ensures NoHoles(s) ==> forall k | 0 <= k < |logged| :: |logged[k]| <= logsize
      ensures forall k | 0 <= k < |logged| :: ChunkData(start, |src|, logsize, k) <= |logged[k]|
      ensures Tight(s) && Laid(|s.inodes|) ==> forall k | 0 <= k < |logged| ::
        && ChunkCost(start, |src|, s.inodes[n].size, logsize, k) <= |logged[k]|
        && (g.size <= BPB ==> |logged[k]| == ChunkCost(start, |src|, s.inodes[n].size, logsize, k))
      ensures i == Min(|src|, ChunkAt(logsize, |logged|)) && (logged != [] ==> ChunkAt(logsize, |logged| - 1) < |src|)
      ensures i > 0 ==> start <= s.inodes[n].size && start + i <= MAXFILE * BSIZE
      ensures ClearBits(s.bitmap) >= Needed(s, n, start / BSIZE, HiBlock(start, i))
      ensures Journal(d, states, logged)
      ensures NoHoles(s) && d.inodes == s.inodes ==> WholeChunks(g, s, states, n, start, src, logsize)
    {
      hide Owned, NoHoles, Content, FileHas, Tight, ClearBits, Laid, ChunkAt, HiBlock, Needed, MapGrew, WholeChunks;
      hide Journal, ChunkData, ChunkCost;
    }

    /** The next chunk of filewrite. */
    method NextChunk(n: nat, start: nat, src: seq<Byte>, i: nat, logsize: nat, ghost s: Fs, ghost d: Fs,
                     ghost logged: seq<set<nat>>, ghost states: seq<Fs>)
      returns (c: IoResult, n1: nat, ghost logged': seq<set<nat>>, ghost states': seq<Fs>)
      requires logsize >= 6 && Filed(s, d, n, start, src, i, logsize, logged, states)
      requires i < |src| && start + |src| < WORD
      modifies `bitmap, `blocks, `inodes, `dinodes, `dirty
      ensures 0 < n1 <= |src| - i
      ensures c.Panic? ==> ClearBits(s.bitmap) < Needed(s, n, start / BSIZE, HiBlock(start, |src|))
      ensures c.Failed? ==> Filed(s, d, n, start, src, i, logsize, logged, states)
      ensures c.Failed? ==> start > s.inodes[n].size || start + |src| > MAXFILE * BSIZE
      ensures c.Done? ==> Filed(s, d, n, start, src, i + n1, logsize, logged', states')
    {
      hide Owned, NoHoles, Content, FileHas, DataBlocks, NewBlocks, Tight, LogCost, HiBlock, ClearBits, Laid, Needed;
      hide ChunkData, ChunkCost, ChunkAt, MaxChunk, MapGrew, Covered, InodesCovered, Journal, Journaled, WholeChunks;
      hide Behind;
      JournalLast(d, states, logged);
      n1 := Min(|src| - i, MaxChunk(logsize));
      logged', states' := logged, states;
      ghost var t, whole := Abs(), NoHoles(s) && d.inodes == s.inodes;
      ghost var tight := Tight(s) && Laid(|s.inodes|);
      ChunkNext(start, |src|, s.inodes[n].size, logsize, |logged|, n1);
      ChunkRange(start, i, n1, |src|);
      NeededGrows(s, n, start / BSIZE, HiBlock(start, i + n1), HiBlock(start, |src|));
      NeededOver(s, t, n, start / BSIZE, HiBlock(start, i), (start + i) / BSIZE, HiBlock(start, i + n1));
      c := WriteChunk(n, src[i..i + n1], start + i, s, start, src[..i], logsize);
      if c.Done? {
        assert src[..i] + src[i..i + n1] == src[..i + n1];
        MapGrewMore(s, t, Abs(), n, start / BSIZE, HiBlock(start, i), (start + i) / BSIZE, HiBlock(start, i + n1));
        CostedMore(logged, dirty, start, |src|, s.inodes[n].size, logsize, NoHoles(s), tight, tight && g.size <= BPB);
        JournalMore(d, states, logged, OnDisk(), dirty);
        if whole {
          WholeChunksMore(g, s, states, n, start, src, logsize, OnDisk());
        }
        logged', states' := logged + [dirty], states + [OnDisk()];
      }
    }

    /** What the disk holds: the inodes in memory may be ahead of it. */
    ghost function OnDisk(): Fs
      reads this
    {
      Fs(bitmap, blocks, dinodes)
    }

    /** All that one transaction changes on disk is in blocks handed to log_write. */
    ghost predicate Journaled(s: Fs, t: Fs, w: set<nat>) {
      Covered(s.bitmap, s.blocks, t.bitmap, t.blocks, w) && InodesCovered(s.inodes, t.inodes, w)
    }

    /** The states of the disk from d on, each reached from the one before by the
        transaction that logs the blocks between them. */
    ghost predicate Journal(d: Fs, states: seq<Fs>, logged: seq<set<nat>>) {
      && |states| == |logged| + 1 && states[0] == d
      && forall k | 0 <= k < |logged| ::
           Journaled(states[k], states[k + 1], logged[k]) && (Laid(|d.inodes|) ==> Behind(logged[k]))
    }

    lemma JournalNone(d: Fs)
      ensures Journal(d, [d], [])
    {
    }

    lemma JournalLast(d: Fs, states: seq<Fs>, logged: seq<set<nat>>)
      requires Journal(d, states, logged)
      ensures |states| == |logged| + 1
    {
    }

    lemma JournalMore(d: Fs, states: seq<Fs>, logged: seq<set<nat>>, t: Fs, w: set<nat>)
      requires Journal(d, states, logged) && Journaled(states[|logged|], t, w) && (Laid(|d.inodes|) ==> Behind(w))
      ensures Journal(d, states + [t], logged + [w])
    {
      hide Journaled, Laid, Behind;
      var ss, ls := states + [t], logged + [w];
      forall k | 0 <= k < |ls| ensures Journaled(ss[k], ss[k + 1], ls[k]) {
        assert k < |logged| ==> Journaled(states[k], states[k + 1], logged[k]);
      }
    }
  }

  // ------------------------------------------------------------------ lemmas

  lemma OwnedFacts(g: Layout, s: Fs, n: nat)
    requires Owned(g, s)
    ensures g.Valid() && |s.bitmap| == g.size == |s.blocks| && s.bitmap[0]
    ensures n < |s.inodes| ==> |s.inodes[n].addrs| == NDIRECT + 1
  {
  }

  /** A clear bit belongs to a data block. */
  lemma DataBlock(g: Layout, s: Fs, b: nat)
    requires Owned(g, s) && b < |s.bitmap| && !s.bitmap[b]
    ensures g.dataStart <= b < g.size
  {
  }

  lemma IndirectPlaced(g: Layout, s: Fs, n: nat)
    requires Owned(g, s) && n < |s.inodes| && Indirect(s.inodes[n]) != 0
    ensures Indirect(s.inodes[n]) < |s.blocks| && |s.blocks[Indirect(s.inodes[n])]| == BSIZE
    ensures s.inodes[n].addrs[NDIRECT] == Indirect(s.inodes[n])
    ensures forall b: nat | b < |s.bitmap| && !s.bitmap[b] :: b != Indirect(s.inodes[n])
  {
    assert Addr(s, Ref(n, IndirectSlot)) == Indirect(s.inodes[n]);
    assert Placed(g, s, Indirect(s.inodes[n]));
  }

  lemma BmappedSame(s: Fs, n: nat, bn: nat)
    ensures Bmapped(s, s, n, bn)
  {
  }

  lemma EntryNeedsIndirect(s: Fs, n: nat, bn: nat)
    requires NDIRECT <= bn && n < |s.inodes| && |s.inodes[n].addrs| == NDIRECT + 1
    ensures BlockAddr(s, n, bn) != 0 ==> s.inodes[n].addrs[NDIRECT] != 0
  {
  }

  lemma MappedAt(s: Fs, n: nat, at: nat)
    requires n < |s.inodes| && Mapped(s, n, BlocksFor(s.inodes[n].size)) && at < s.inodes[n].size
    ensures BlockAddr(s, n, at / BSIZE) != 0
  {
  }

  /** The bytes readi looks at: no more than the file has. */
  function Wanted(off: nat, len: nat, size: nat): nat
    requires off <= size
  {
    if off + len > size then size - off else len
  }

  lemma Slices(c: seq<Byte>, i: nat, j: nat, k: nat)
    requires i <= j <= k <= |c|
    ensures c[i..k] == c[i..j] + c[j..k]
  {
  }

  lemma BlockFacts(g: Layout, s: Fs, n: nat, bn: nat)
    requires Owned(g, s) && BlockAddr(s, n, bn) != 0
    ensures BlockAddr(s, n, bn) < |s.blocks| && |s.blocks[BlockAddr(s, n, bn)]| == BSIZE
    ensures s.bitmap[BlockAddr(s, n, bn)]
  {
    assert Placed(g, s, Addr(s, Ref(n, SlotOf(bn))));
  }

  /** The part of a block that lies in the file. */
  lemma BlockPart(g: Layout, s: Fs, n: nat, at: nat, m: nat)
    requires Owned(g, s) && n < |s.inodes| && BlockAddr(s, n, at / BSIZE) != 0
    requires at + m <= s.inodes[n].size && at % BSIZE + m <= BSIZE
    ensures BlockAddr(s, n, at / BSIZE) < |s.blocks| && |s.blocks[BlockAddr(s, n, at / BSIZE)]| == BSIZE
    ensures s.blocks[BlockAddr(s, n, at / BSIZE)][at % BSIZE..at % BSIZE + m] == Content(s, n)[at..at + m]
  {
    BlockFacts(g, s, n, at / BSIZE);
    hide Owned, Addr;
    var part := s.blocks[BlockAddr(s, n, at / BSIZE)][at % BSIZE..at % BSIZE + m];
    var c := Content(s, n)[at..at + m];
    forall i | 0 <= i < m ensures part[i] == c[i] {
      assert (at + i) / BSIZE == at / BSIZE && (at + i) % BSIZE == at % BSIZE + i;
    }
  }

  // ------------------------------------------------------------ write sizes

  /** Blocks that hold some of the bytes off .. off + len. */
  function DataBlocks(off: nat, len: nat): int { BlocksFor(off + len) - off / BSIZE }

  /** Of those, the ones past the blocks of a file of this size. */
  function NewBlocks(off: nat, len: nat, size: nat): nat {
    if BlocksFor(off + len) > BlocksFor(size) then BlocksFor(off + len) - BlocksFor(size) else 0
  }

  lemma Counts(off: nat, tot: nat, m: nat, size: nat)
    requires m > 0 && (off + tot) % BSIZE + m <= BSIZE && (tot == 0 || (off + tot) % BSIZE == 0) && off <= size
    ensures DataBlocks(off, tot + m) >= (if tot == 0 then 0 else DataBlocks(off, tot)) + 1
    ensures DataBlocks(off, tot) >= 0
    ensures (off + tot) / BSIZE >= BlocksFor(size) ==>
      NewBlocks(off, tot + m, size) >= NewBlocks(off, tot, size) + 1 && off + tot + m > size
    ensures NewBlocks(off, tot + m, size) >= NewBlocks(off, tot, size)
  {
  }

  lemma SubsetSize(a: set<nat>, b: set<nat>)
    requires a <= b
    ensures |a| <= |b|
  {
    assert b == a + (b - a) && |a + (b - a)| == |a| + |b - a|;
  }

  lemma UnionSize(a: set<nat>, b: set<nat>)
    ensures |a + b| <= |a| + |b|
  {
    assert |a + b| == |a| + |b - a|;
    assert |b| == |b - a| + |b * a|;
  }

  lemma ApartSizes(a: set<nat>, b: set<nat>, c: set<nat>, d: set<nat>)
    requires a !! b && a + b !! c && a + b + c !! d
    ensures |a + b + c + d| == |a| + |b| + |c| + |d|
  {
  }

  /** The blocks logged so far are data blocks, bitmap blocks of new ones, and the indirect block's two. */
  ghost predicate Tally(start: set<nat>, dirty: set<nat>, d: set<nat>, b: set<nat>, ind: set<nat>, off: nat, tot: nat,
                        size: nat) {
    && dirty <= start + d + b + ind
    && |d| <= (if tot == 0 then 0 else DataBlocks(off, tot)) && |b| <= NewBlocks(off, tot, size)
  }

  lemma TallyNone(start: set<nat>, ind: set<nat>, off: nat, size: nat)
    ensures Tally(start, start, {}, {}, ind, off, 0, size)
  {
  }

  lemma TallyNext(start: set<nat>, dirty: set<nat>, dirty': set<nat>, d: set<nat>, b: set<nat>, ind: set<nat>,
                  ind': set<nat>,
                  a: nat, ba: nat, off: nat, tot: nat, m: nat, size: nat, isNew: bool)
    requires Tally(start, dirty, d, b, ind, off, tot, size) && ind <= ind'
    requires dirty' <= dirty + {a, ba} + ind' && (!isNew ==> dirty' == dirty + {a})
    requires m > 0 && (off + tot) % BSIZE + m <= BSIZE && (tot == 0 || (off + tot) % BSIZE == 0) && off <= size
    requires isNew ==> (off + tot) / BSIZE >= BlocksFor(size)
    ensures Tally(start, dirty', d + {a}, if isNew then b + {ba} else b, ind', off, tot + m, size)
    ensures isNew ==> off + tot + m > size
  {
    Counts(off, tot, m, size);
    hide DataBlocks, NewBlocks;
  }

  lemma TallyTotal(start: set<nat>, dirty: set<nat>, d: set<nat>, b: set<nat>, ind: set<nat>, off: nat, tot: nat,
                   size: nat)
    requires Tally(start, dirty, d, b, ind, off, tot, size)
    ensures dirty <= start + (d + b + ind) && |d + b + ind| <= DataBlocks(off, tot) + NewBlocks(off, tot, size) + |ind|
  {
    UnionSize(d, b);
    UnionSize(d + b, ind);
    assert DataBlocks(off, tot) >= 0;
  }

  // --------------------------------------------------- blocks that are needed

  /** On disk: number bn of the inode, or of the indirect block that its last number names. */
  predicate InodeHolds(ino: Inode, blocks: seq<Block>, bn: nat, addr: nat) {
    && |ino.addrs| == NDIRECT + 1 && addr != 0
    && if bn < NDIRECT then ino.addrs[bn] == addr
       else
         var ind := ino.addrs[NDIRECT];
         && bn < MAXFILE && ind != 0 && ind < |blocks| && |blocks[ind]| == BSIZE
         && Entry(blocks[ind], bn - NDIRECT) == addr
  }

  lemma AddrHolds(s: Fs, n: nat, bn: nat)
    requires n < |s.inodes| && BlockAddr(s, n, bn) != 0
    ensures InodeHolds(s.inodes[n], s.blocks, bn, BlockAddr(s, n, bn))
  {
  }

  /** Blocks lo .. hi of file n that are missing. */
  ghost function Missing(s: Fs, n: nat, lo: nat, hi: nat): nat
    decreases hi
  {
    if hi <= lo then 0 else Missing(s, n, lo, hi - 1) + if BlockAddr(s, n, hi - 1) == 0 then 1 else 0
  }

  /** How many free blocks it takes to have blocks lo .. hi of file n. */
  ghost function Needed(s: Fs, n: nat, lo: nat, hi: nat): nat
    requires n < |s.inodes|
  {
    Missing(s, n, lo, hi) + if lo < hi && hi > NDIRECT && Indirect(s.inodes[n]) == 0 then 1 else 0
  }

  /** The blocks that file n has in t are those it has in s, and blocks lo .. hi. */
  ghost predicate MapGrew(s: Fs, t: Fs, n: nat, lo: nat, hi: nat) {
    && n < |s.inodes| == |t.inodes|
    && (forall k: nat :: BlockAddr(t, n, k) == 0 <==> BlockAddr(s, n, k) == 0 && !(lo <= k < hi))
    && (Indirect(t.inodes[n]) == 0 <==> Indirect(s.inodes[n]) == 0 && !(lo < hi && hi > NDIRECT))
  }

  lemma NeededNext(s: Fs, t: Fs, n: nat, lo: nat, k: nat)
    requires MapGrew(s, t, n, lo, k) && lo <= k
    ensures Needed(s, n, lo, k + 1) == Needed(s, n, lo, k) + FileSystem.NeedOne(t, n, k)
  {
    assert k >= NDIRECT && BlockAddr(s, n, k) != 0 ==> Indirect(s.inodes[n]) != 0;
    hide BlockAddr;
  }

  lemma {:induction false} NeededGrows(s: Fs, n: nat, lo: nat, hi: nat, hi': nat)
    requires n < |s.inodes| && hi <= hi'
    ensures Needed(s, n, lo, hi) <= Needed(s, n, lo, hi')
    decreases hi'
  {
    hide BlockAddr;
    if hi < hi' {
      NeededGrows(s, n, lo, hi, hi' - 1);
    }
  }

  lemma {:induction false} NeededBound(s: Fs, n: nat, lo: nat, hi: nat)
    requires n < |s.inodes| && lo <= hi
    ensures Missing(s, n, lo, hi) <= hi - lo && Needed(s, n, lo, hi) <= hi - lo + 1
    decreases hi
  {
    hide BlockAddr;
    if lo < hi {
      NeededBound(s, n, lo, hi - 1);
    }
  }

  lemma MapGrewNext(s: Fs, t: Fs, u: Fs, n: nat, lo: nat, at: nat, part: seq<Byte>)
    requires MapGrew(s, t, n, lo, at / BSIZE) && lo <= at / BSIZE && Wrote(t, u, n, at, part)
    requires part != [] && at % BSIZE + |part| <= BSIZE
    requires at / BSIZE < NDIRECT ==> n < |u.inodes| && Indirect(u.inodes[n]) == Indirect(t.inodes[n])
    ensures MapGrew(s, u, n, lo, at / BSIZE + 1)
  {
    var b := at / BSIZE;
    forall k: nat { TouchesOne(k, at, |part|); }
    assert BlockAddr(u, n, b) != 0;
    assert b >= NDIRECT ==> Indirect(u.inodes[n]) != 0;
    hide Addr, ByteAt, Touches;
  }

  lemma MapGrewBmap(s: Fs, t: Fs, u: Fs, n: nat, lo: nat, k: nat)
    requires MapGrew(s, t, n, lo, k) && lo <= k && Bmapped(t, u, n, k) && BlockAddr(u, n, k) != 0
    requires k < NDIRECT ==> Indirect(u.inodes[n]) == Indirect(t.inodes[n])
    ensures MapGrew(s, u, n, lo, k + 1)
  {
    assert k >= NDIRECT ==> Indirect(u.inodes[n]) != 0;
    hide Addr, ByteAt;
  }

  /** A file has no block past MAXFILE. */
  lemma PlacedBelow(s: Fs, n: nat, k: nat)
    requires BlockAddr(s, n, k) != 0
    ensures k < MAXFILE
  {
  }

  /** A part goes to the end of a block or of what is left. */
  lemma PartEnds(at: nat, left: nat)
    requires left > 0
    ensures var m := Min(left, BSIZE - at % BSIZE);
      0 < m <= left && at % BSIZE + m <= BSIZE && (m == left || (at + m) % BSIZE == 0)
  {
  }

  lemma MapGrewSized(s: Fs, t: Fs, n: nat, lo: nat, hi: nat, size: nat)
    requires MapGrew(s, t, n, lo, hi)
    requires forall q: Ref :: Addr(SetSize(t, n, size), q) == Addr(t, q)
    ensures MapGrew(s, SetSize(t, n, size), n, lo, hi)
  {
    hide Addr;
    assert Indirect(SetSize(t, n, size).inodes[n]) == Indirect(t.inodes[n]);
  }

  /** Two writes, the second from within or behind the first, grow the file's map as one. */
  lemma MapGrewMore(s: Fs, t: Fs, u: Fs, n: nat, lo: nat, hi: nat, lo': nat, hi': nat)
    requires MapGrew(s, t, n, lo, hi) && MapGrew(t, u, n, lo', hi') && lo <= lo' <= hi && hi <= hi' && lo' < hi'
    ensures MapGrew(s, u, n, lo, hi')
  {
    hide BlockAddr;
  }

  lemma {:induction false} MissingSplit(s: Fs, t: Fs, n: nat, lo: nat, hi: nat, lo': nat, hi': nat)
    requires MapGrew(s, t, n, lo, hi) && lo <= lo' <= hi && hi <= hi'
    ensures Missing(s, n, lo, hi') == Missing(s, n, lo, hi) + Missing(t, n, lo', hi')
    decreases hi'
  {
    hide BlockAddr;
    if hi < hi' {
      MissingSplit(s, t, n, lo, hi, lo', hi' - 1);
    } else {
      NoneMissing(t, n, lo', hi);
    }
  }

  lemma {:induction false} NoneMissing(t: Fs, n: nat, lo: nat, hi: nat)
    requires forall k: nat | lo <= k < hi :: BlockAddr(t, n, k) != 0
    ensures Missing(t, n, lo, hi) == 0
    decreases hi
  {
    hide BlockAddr;
    if lo < hi {
      NoneMissing(t, n, lo, hi - 1);
    }
  }

  // -------------------------------------------------- exactly what is logged

  /** One past the last file block that the bytes off .. off + tot reach. */
  function HiBlock(off: nat, tot: nat): nat { if tot == 0 then off / BSIZE else BlocksFor(off + tot) }

  lemma HiBlockNext(off: nat, tot: nat, m: nat, len: nat)
    requires 0 < m && tot + m <= len && (off + tot) % BSIZE + m <= BSIZE && (tot == 0 || (off + tot) % BSIZE == 0)
    ensures HiBlock(off, tot) == (off + tot) / BSIZE && HiBlock(off, tot + m) == (off + tot) / BSIZE + 1
    ensures off / BSIZE <= HiBlock(off, tot) < HiBlock(off, len)
  {
  }

  /** The indirect block is logged when a new block is entered in it. */
  function EntryLog(off: nat, tot: nat, size: nat, ind: nat): set<nat> {
    if NewBlocks(off, tot, size) > 0 && BlocksFor(off + tot) > NDIRECT then {ind} else {}
  }

  /** The blocks logged are data blocks d, bitmap blocks e and perhaps the indirect block. */
  ghost predicate Ledger(start: set<nat>, dirty: set<nat>, d: set<nat>, e: set<nat>,
                         off: nat, tot: nat, size: nat, ind: nat) {
    && dirty == start + d + e + EntryLog(off, tot, size, ind)
    && (e == {} <==> NewBlocks(off, tot, size) == 0)
  }

  lemma LedgerNone(s: Fs, n: nat, dirty: set<nat>, off: nat, size: nat, ind: nat)
    requires off <= size
    ensures HiBlock(off, 0) == off / BSIZE && DataSet(s, n, off / BSIZE, off / BSIZE) == {}
    ensures Ledger(dirty, dirty, DataSet(s, n, off / BSIZE, HiBlock(off, 0)), {}, off, 0, size, ind)
  {
  }

  lemma LedgerNext(start: set<nat>, before: set<nat>, after: set<nat>, d: set<nat>, e: set<nat>,
                   bits: set<nat>, entry: set<nat>, a: nat, off: nat, tot: nat, m: nat, size: nat, ind: nat, ind': nat)
    requires Ledger(start, before, d, e, off, tot, size, ind) && after == before + {a} + bits + entry
    requires m > 0 && (off + tot) % BSIZE + m <= BSIZE && (tot == 0 || (off + tot) % BSIZE == 0) && off <= size
    requires bits == {} <==> (off + tot) / BSIZE < BlocksFor(size)
    requires entry == if (off + tot) / BSIZE >= Max(NDIRECT, BlocksFor(size)) then {ind'} else {}
    requires EntryLog(off, tot, size, ind) != {} ==> ind' == ind
    ensures Ledger(start, after, d + {a}, e + bits, off, tot + m, size, ind')
  {
    LedgerCounts(off, tot, m, size);
    hide NewBlocks, BlocksFor;
  }

  /** How many blocks writei logs for len bytes at offset off of a file of this size. */
  function LogCost(off: nat, len: nat, size: nat): int {
    DataBlocks(off, len)
    + (if NewBlocks(off, len, size) > 0 then 1 else 0)
    + (if NewBlocks(off, len, size) > 0 && BlocksFor(off + len) > NDIRECT then 1 else 0)
    + (if off + len > size then 1 else 0)
  }

  lemma EntryLogSize(off: nat, len: nat, size: nat, ind: nat)
    ensures |EntryLog(off, len, size, ind)|
      == if NewBlocks(off, len, size) > 0 && BlocksFor(off + len) > NDIRECT then 1 else 0
  {
  }

  lemma HiBlockIs(off: nat, len: nat)
    requires len > 0
    ensures off / BSIZE < HiBlock(off, len) == BlocksFor(off + len)
    ensures DataBlocks(off, len) == HiBlock(off, len) - off / BSIZE
  {
  }

  lemma TightAt(s: Fs, n: nat)
    requires Tight(s) && n < |s.inodes|
    ensures TightTo(s, n, s.inodes[n].size)
  {
  }

  lemma WroteHas(s: Fs, t: Fs, n: nat, off: nat, src: seq<Byte>)
    requires Wrote(s, t, n, off, src) && src != []
    ensures off / BSIZE < HiBlock(off, |src|) == BlocksFor(off + |src|)
    ensures DataBlocks(off, |src|) == HiBlock(off, |src|) - off / BSIZE
    ensures forall k: nat | off / BSIZE <= k < HiBlock(off, |src|) :: BlockAddr(t, n, k) != 0
  {
    hide Addr, ByteAt;
    HiBlockIs(off, |src|);
    forall k: nat | off / BSIZE <= k < HiBlock(off, |src|) ensures BlockAddr(t, n, k) != 0 {
      assert Touches(k, off, |src|);
    }
  }

  lemma DataSetSized(t: Fs, n: nat, size: nat, lo: nat, hi: nat)
    requires n < |t.inodes| && forall q: Ref :: Addr(SetSize(t, n, size), q) == Addr(t, q)
    ensures DataSet(SetSize(t, n, size), n, lo, hi) == DataSet(t, n, lo, hi)
  {
    hide Addr;
    DataSetSame(t, SetSize(t, n, size), n, lo, hi);
  }

  lemma IndirectHigh(g: Layout, s: Fs, n: nat)
    requires Owned(g, s) && n < |s.inodes| && Indirect(s.inodes[n]) != 0
    ensures g.dataStart <= Indirect(s.inodes[n])
  {
    assert Addr(s, Ref(n, IndirectSlot)) == Indirect(s.inodes[n]);
  }

  lemma LedgerCounts(off: nat, tot: nat, m: nat, size: nat)
    requires m > 0 && (off + tot) % BSIZE + m <= BSIZE && (tot == 0 || (off + tot) % BSIZE == 0) && off <= size
    ensures BlocksFor(off + tot + m) == (off + tot) / BSIZE + 1 && BlocksFor(off + tot) <= (off + tot) / BSIZE + 1
    ensures NewBlocks(off, tot + m, size) == 0 <==> (off + tot) / BSIZE < BlocksFor(size)
    ensures NewBlocks(off, tot, size) > 0 ==>
      NewBlocks(off, tot + m, size) > 0 && BlocksFor(off + tot) == (off + tot) / BSIZE
  {
  }

  lemma TurnSet(t: Fs, u: Fs, n: nat, off: nat, tot: nat, q: seq<Byte>)
    requires Wrote(t, u, n, off + tot, q) && q != []
    requires (off + tot) % BSIZE + |q| <= BSIZE && (tot == 0 || (off + tot) % BSIZE == 0)
    ensures DataSet(u, n, off / BSIZE, HiBlock(off, tot + |q|))
      == DataSet(t, n, off / BSIZE, HiBlock(off, tot)) + {BlockAddr(u, n, (off + tot) / BSIZE)}
    ensures BlockAddr(u, n, (off + tot) / BSIZE) != 0
  {
    hide Addr, ByteAt, Touches, HiBlock, BlocksFor, DataBlocks;
    var k := (off + tot) / BSIZE;
    HiBlockNext(off, tot, |q|, tot + |q|);
    forall j: nat { TouchesOne(j, off + tot, |q|); }
    DataSetSame(t, u, n, off / BSIZE, k);
  }

  /** The block of the next turn is missing exactly if it lies past the file's blocks. */
  lemma TurnNew(s: Fs, t: Fs, n: nat, off: nat, p: seq<Byte>)
    requires n < |s.inodes| && TightTo(s, n, s.inodes[n].size) && Wrote(s, t, n, off, p)
    requires p == [] || (off + |p|) % BSIZE == 0
    ensures BlockAddr(t, n, (off + |p|) / BSIZE) == 0 <==> (off + |p|) / BSIZE >= BlocksFor(s.inodes[n].size)
  {
    hide Addr, ByteAt;
    assert !Touches((off + |p|) / BSIZE, off, |p|);
  }

  lemma WroteTouched(s: Fs, t: Fs, n: nat, off: nat, p: seq<Byte>, k: nat)
    requires Wrote(s, t, n, off, p) && Touches(k, off, |p|)
    ensures BlockAddr(t, n, k) != 0
  {
    hide Addr, ByteAt;
  }

  lemma TurnEntry(g: Layout, s: Fs, t: Fs, u: Fs, n: nat, off: nat, p: seq<Byte>, q: seq<Byte>)
    requires n < |s.inodes| == |t.inodes| && Owned(g, t) && Wrote(s, t, n, off, p) && Wrote(t, u, n, off + |p|, q)
    requires p == [] || (off + |p|) % BSIZE == 0
    requires off <= s.inodes[n].size
    ensures |u.inodes| == |t.inodes|
    ensures EntryLog(off, |p|, s.inodes[n].size, Indirect(t.inodes[n])) != {} ==>
      Indirect(u.inodes[n]) == Indirect(t.inodes[n])
  {
    hide Owned, Wrote, BlockAddr;
    WroteInodes(t, u, n, off + |p|, q);
    if EntryLog(off, |p|, s.inodes[n].size, Indirect(t.inodes[n])) != {} {
      var k := (off + |p|) / BSIZE - 1;
      assert p != [] && k >= NDIRECT && Touches(k, off, |p|);
      WroteTouched(s, t, n, off, p, k);
      OwnedFacts(g, t, n);
      EntryNeedsIndirect(t, n, k);
      IndirectStays(t, u, n, off + |p|, q);
    }
  }

  lemma MappedStill(s: Fs, t: Fs, n: nat, off: nat, part: seq<Byte>, k: nat)
    requires n < |s.inodes| && Wrote(s, t, n, off, part) && Mapped(s, n, BlocksFor(s.inodes[n].size))
    ensures BlockAddr(t, n, k) == 0 ==> k >= BlocksFor(s.inodes[n].size)
  {
    hide Addr, ByteAt;
  }

  lemma WroteInodes(s: Fs, t: Fs, n: nat, off: nat, part: seq<Byte>)
    requires Wrote(s, t, n, off, part)
    ensures |t.inodes| == |s.inodes|
    ensures forall m: nat | m < |s.inodes| ::
      t.inodes[m].size == s.inodes[m].size && (m != n ==> t.inodes[m] == s.inodes[m])
  {
  }

  lemma IndirectStays(s: Fs, t: Fs, n: nat, off: nat, part: seq<Byte>)
    requires Wrote(s, t, n, off, part) && n < |s.inodes|
    ensures Indirect(s.inodes[n]) != 0 ==> Indirect(t.inodes[n]) == Indirect(s.inodes[n])
  {
    assert Addr(s, Ref(n, IndirectSlot)) == Indirect(s.inodes[n]);
    assert Addr(t, Ref(n, IndirectSlot)) == Indirect(t.inodes[n]);
  }

  lemma HolesAt(s: Fs, n: nat)
    requires NoHoles(s) && n < |s.inodes|
    ensures Mapped(s, n, BlocksFor(s.inodes[n].size))
  {
  }

  lemma WroteAllFiles(g: Layout, s: Fs, t: Fs, n: nat, off: nat, src: seq<Byte>)
    requires n < |s.inodes| && Wrote(s, t, n, off, src) && off <= s.inodes[n].size && Owned(g, t)
    ensures var u := SetSize(t, n, Max(s.inodes[n].size, off + |src|));
      && |u.inodes| == |s.inodes| && Content(u, n) == Splice(Content(s, n), off, src) && (NoHoles(s) ==> NoHoles(u))
      && forall m: nat | m < |u.inodes| && m != n :: Content(u, m) == Content(s, m)
  {
    hide Owned, Content, Splice, Mapped;
    WroteInodes(s, t, n, off, src);
    WroteFile(g, s, t, n, off, src, n);
    var u := SetSize(t, n, Max(s.inodes[n].size, off + |src|));
    forall m: nat | m < |u.inodes| && m != n ensures Content(u, m) == Content(s, m) {
      WroteFile(g, s, t, n, off, src, m);
    }
    if NoHoles(s) {
      forall m: nat | m < |u.inodes| ensures Mapped(u, m, BlocksFor(u.inodes[m].size)) {
        WroteNoHole(g, s, t, n, off, src, m);
      }
    }
  }

  lemma BmappedSizes(s: Fs, t: Fs, n: nat, bn: nat)
    requires Bmapped(s, t, n, bn)
    ensures |t.inodes| == |s.inodes| && forall m: nat | m < |s.inodes| :: t.inodes[m].size == s.inodes[m].size
  {
  }

  lemma RefilledSame(s: Fs)
    ensures Refilled(s, s)
  {
  }

  lemma DropDirect(g: Layout, s: Fs, n: nat, i: nat)
    requires Owned(g, s) && n < |s.inodes| && i < NDIRECT && |s.inodes[n].addrs| == NDIRECT + 1
    requires s.inodes[n].addrs[i] != 0
    ensures var b := s.inodes[n].addrs[i];
      && b < |s.bitmap| && s.bitmap[b]
      && Owned(g, SetPtr(s.(bitmap := s.bitmap[b := false]), n, i, 0))
  {
    var b := s.inodes[n].addrs[i];
    var r := Ref(n, DirectSlot(i));
    assert Addr(s, r) == b && Placed(g, s, b);
    var s' := SetPtr(s.(bitmap := s.bitmap[b := false]), n, i, 0);
    forall q: Ref ensures Addr(s', q) == if q.inum == n && q.slot == DirectSlot(i) then 0 else Addr(s, q) {
    }
    hide Addr, InUse, Unshared, NoLeak;
    Detach(g, s, s', n, iset{DirectSlot(i)}, {b});
  }

  lemma EntryStillSet(g: Layout, s: Fs, n: nat, j: nat, bitmap: seq<bool>, f: set<nat>)
    requires Owned(g, s) && Cleared(s.bitmap, bitmap, f) && Addr(s, Ref(n, EntrySlot(j))) != 0
    requires forall c: nat :: c in f <==> c != 0 && exists k: nat :: k < j && Addr(s, Ref(n, EntrySlot(k))) == c
    ensures Addr(s, Ref(n, EntrySlot(j))) < |bitmap| && bitmap[Addr(s, Ref(n, EntrySlot(j)))]
  {
    var a := Addr(s, Ref(n, EntrySlot(j)));
    assert Placed(g, s, a);
    hide Addr;
    forall k: nat | k < j ensures Addr(s, Ref(n, EntrySlot(k))) != a {
      assert Ref(n, EntrySlot(k)) != Ref(n, EntrySlot(j));
    }
  }

  lemma IndirectStillSet(g: Layout, s: Fs, n: nat, bitmap: seq<bool>, f: set<nat>)
    requires Owned(g, s) && n < |s.inodes| && Indirect(s.inodes[n]) != 0 && Cleared(s.bitmap, bitmap, f)
    requires forall c: nat :: c in f <==> c != 0 && exists k: nat :: k < NINDIRECT && Addr(s, Ref(n, EntrySlot(k))) == c
    ensures Indirect(s.inodes[n]) < |bitmap| && bitmap[Indirect(s.inodes[n])]
  {
    var r := Ref(n, IndirectSlot);
    var a := Indirect(s.inodes[n]);
    assert Addr(s, r) == a && Placed(g, s, a);
    hide Addr;
    forall k: nat | k < NINDIRECT ensures Addr(s, Ref(n, EntrySlot(k))) != a {
      assert Ref(n, EntrySlot(k)) != r;
    }
  }

  lemma DropIndirect(g: Layout, s: Fs, s': Fs, n: nat, f: set<nat>)
    requires Owned(g, s) && n < |s.inodes| && |s.inodes[n].addrs| == NDIRECT + 1 && Indirect(s.inodes[n]) != 0
    requires Cleared(s.bitmap, s'.bitmap, f) && s'.blocks == s.blocks
    requires s'.inodes == s.inodes[n := s.inodes[n].(addrs := s.inodes[n].addrs[NDIRECT := 0])]
    requires forall c: nat ::
      c in f <==>
        c != 0 && (c == Indirect(s.inodes[n]) || exists k: nat :: k < NINDIRECT && Addr(s, Ref(n, EntrySlot(k))) == c)
    ensures Owned(g, s')
  {
    var gone := iset slot: Slot | slot.IndirectSlot? || slot.EntrySlot?;
    forall q: Ref ensures Addr(s', q) == if q.inum == n && q.slot in gone then 0 else Addr(s, q) {
    }
    assert Addr(s, Ref(n, IndirectSlot)) == Indirect(s.inodes[n]);
    forall c: nat ensures c in f <==> c != 0 && exists slot: Slot :: slot in gone && Addr(s, Ref(n, slot)) == c {
      if c in f && c != Indirect(s.inodes[n]) {
        var k: nat :| k < NINDIRECT && Addr(s, Ref(n, EntrySlot(k))) == c;
        assert EntrySlot(k) in gone;
      }
      if c == Indirect(s.inodes[n]) {
        assert IndirectSlot in gone;
      }
    }
    assert Shape(g, s');
    hide Addr, InUse, Unshared, NoLeak;
    Detach(g, s, s', n, gone, f);
  }

  /** The slots cleared by the two halves of itrunc are all the slots of the inode. */
  lemma TruncOwns(s: Fs, t: Fs, u: Fs, n: nat)
    requires n < |s.inodes| && |s.inodes[n].addrs| == NDIRECT + 1 && |t.inodes| == |s.inodes| && t.blocks == s.blocks
    requires |t.inodes[n].addrs| == NDIRECT + 1 && t.inodes[n].addrs[NDIRECT] == s.inodes[n].addrs[NDIRECT]
    ensures forall c: nat | c != 0 :: Owns(s, n, c) <==>
      || (exists i :: 0 <= i < NDIRECT && s.inodes[n].addrs[i] == c)
      || c == Indirect(t.inodes[n])
      || (exists j: nat :: j < NINDIRECT && Addr(t, Ref(n, EntrySlot(j))) == c)
  {
    forall c: nat | c != 0
      ensures Owns(s, n, c) <==>
        || (exists i :: 0 <= i < NDIRECT && s.inodes[n].addrs[i] == c)
        || c == Indirect(t.inodes[n])
        || (exists j: nat :: j < NINDIRECT && Addr(t, Ref(n, EntrySlot(j))) == c)
    {
      if Owns(s, n, c) {
        var slot: Slot :| Addr(s, Ref(n, slot)) == c;
        if slot.EntrySlot? {
          assert slot.j < NINDIRECT && Addr(t, Ref(n, EntrySlot(slot.j))) == c;
        }
      }
      if i :| 0 <= i < NDIRECT && s.inodes[n].addrs[i] == c {
        assert Addr(s, Ref(n, DirectSlot(i))) == c;
      }
      assert Addr(s, Ref(n, IndirectSlot)) == Indirect(t.inodes[n]);
      if j: nat :| j < NINDIRECT && Addr(t, Ref(n, EntrySlot(j))) == c {
        assert Addr(s, Ref(n, EntrySlot(j))) == c;
      }
    }
  }

  /** A chunk of filewrite, at any offset within the file, logs at most LOGSIZE blocks. */
  lemma ChunkBound(off: nat, len: nat, size: nat, logsize: nat)
    requires logsize >= 6 && 0 < len <= MaxChunk(logsize) && off <= size
    ensures DataBlocks(off, len) + NewBlocks(off, len, size) + 3 <= logsize
  {
    var m := (logsize - 1 - 1 - 2) / 2;
    assert BlocksFor(off + len) <= BlocksFor(off) + m;
    assert BlocksFor(off) <= BlocksFor(size) && BlocksFor(off) <= off / BSIZE + 1;
  }

  // -------------------------------------------------------- filewrite's chunks

  /** The most bytes that filewrite passes to writei at a time. */
  function MaxChunk(logsize: nat): nat
    requires logsize >= 6
  {
    (logsize - 1 - 1 - 2) / 2 * 512
  }

  /** Where chunk k of a write starts within the bytes to write. */
  function ChunkAt(logsize: nat, k: nat): nat
    requires logsize >= 6
  {
    k * MaxChunk(logsize)
  }

  function ChunkLen(len: nat, logsize: nat, k: nat): nat
    requires logsize >= 6
  {
    if ChunkAt(logsize, k) < len then Min(MaxChunk(logsize), len - ChunkAt(logsize, k)) else 0
  }

  /** The number of data blocks that chunk k of a write from offset start reaches. */
  function ChunkData(start: nat, len: nat, logsize: nat, k: nat): int
    requires logsize >= 6
  {
    DataBlocks(start + ChunkAt(logsize, k), ChunkLen(len, logsize, k))
  }

  /** The number of blocks that the transaction for chunk k logs, in a file of this size before the write. */
  function ChunkCost(start: nat, len: nat, size: nat, logsize: nat, k: nat): int
    requires logsize >= 6
  {
    LogCost(start + ChunkAt(logsize, k), ChunkLen(len, logsize, k), Max(size, start + ChunkAt(logsize, k)))
  }

  /** What filewrite's transactions have logged so far, within the bounds that apply. */
  ghost predicate Costed(logged: seq<set<nat>>, start: nat, len: nat, size: nat, logsize: nat, fits: bool, tight: bool,
                         exact: bool)
    requires logsize >= 6
  {
    forall k | 0 <= k < |logged| :: CostOk(logged[k], start, len, size, logsize, k, fits, tight, exact)
  }

  ghost predicate CostOk(dirty: set<nat>, start: nat, len: nat, size: nat, logsize: nat, k: nat,
                         fits: bool, tight: bool, exact: bool)
    requires logsize >= 6
  {
    && ChunkData(start, len, logsize, k) <= |dirty|
    && (fits ==> |dirty| <= logsize)
    && (tight ==> ChunkCost(start, len, size, logsize, k) <= |dirty|)
    && (exact ==> |dirty| == ChunkCost(start, len, size, logsize, k))
  }

  lemma CostedMore(logged: seq<set<nat>>, dirty: set<nat>, start: nat, len: nat, size: nat, logsize: nat,
                   fits: bool, tight: bool, exact: bool)
    requires logsize >= 6 && Costed(logged, start, len, size, logsize, fits, tight, exact)
    requires CostOk(dirty, start, len, size, logsize, |logged|, fits, tight, exact)
    ensures Costed(logged + [dirty], start, len, size, logsize, fits, tight, exact)
  {
  }

  lemma ChunkNext(start: nat, len: nat, size: nat, logsize: nat, k: nat, n1: nat)
    requires logsize >= 6 && ChunkAt(logsize, k) < len && n1 == Min(len - ChunkAt(logsize, k), MaxChunk(logsize))
    ensures n1 > 0 && Min(len, ChunkAt(logsize, k + 1)) == ChunkAt(logsize, k) + n1
    ensures ChunkData(start, len, logsize, k) == DataBlocks(start + ChunkAt(logsize, k), n1)
    ensures ChunkCost(start, len, size, logsize, k)
      == LogCost(start + ChunkAt(logsize, k), n1, Max(size, start + ChunkAt(logsize, k)))
  {
    hide LogCost, DataBlocks;
  }

  lemma ChunkNone(start: nat, logsize: nat)
    requires logsize >= 6
    ensures ChunkAt(logsize, 0) == 0 && HiBlock(start, 0) == start / BSIZE
  {
  }

  /** The blocks of the next chunk begin within or behind those written, and end further on. */
  lemma ChunkRange(start: nat, i: nat, n1: nat, len: nat)
    requires n1 > 0 && i + n1 <= len
    ensures start / BSIZE <= (start + i) / BSIZE <= HiBlock(start, i) <= HiBlock(start, i + n1) <= HiBlock(start, len)
    ensures (start + i) / BSIZE < HiBlock(start, i + n1) == HiBlock(start + i, n1)
  {
  }

  lemma MapGrewNone(s: Fs, n: nat, lo: nat)
    requires n < |s.inodes|
    ensures MapGrew(s, s, n, lo, lo) && Needed(s, n, lo, lo) == 0
  {
  }

  lemma NeededOver(s: Fs, t: Fs, n: nat, lo: nat, hi: nat, lo': nat, hi': nat)
    requires MapGrew(s, t, n, lo, hi) && lo <= lo' <= hi && hi <= hi' && lo' < hi'
    ensures Needed(s, n, lo, hi') == Needed(s, n, lo, hi) + Needed(t, n, lo', hi')
  {
    MissingSplit(s, t, n, lo, hi, lo', hi');
    assert forall k: nat | k >= NDIRECT && Indirect(s.inodes[n]) == 0 :: BlockAddr(s, n, k) == 0;
    hide BlockAddr, Missing;
  }

  /** In each of the states no block is leaked or shared, and the file holds a
      prefix of whole chunks. */
  ghost predicate WholeChunks(g: Layout, s: Fs, states: seq<Fs>, n: nat, start: nat, src: seq<Byte>, logsize: nat)
    requires logsize >= 6
  {
    forall k | 0 <= k < |states| ::
      Owned(g, states[k]) && FileHas(s, states[k], n, start, src[..Min(|src|, ChunkAt(logsize, k))])
  }

  lemma WholeChunksNone(g: Layout, s: Fs, d: Fs, n: nat, start: nat, src: seq<Byte>, logsize: nat)
    requires logsize >= 6 && Owned(g, d) && FileHas(s, d, n, start, [])
    ensures WholeChunks(g, s, [d], n, start, src, logsize)
  {
    hide Owned, FileHas;
    assert src[..Min(|src|, ChunkAt(logsize, 0))] == [];
  }

  lemma WholeChunksMore(g: Layout, s: Fs, states: seq<Fs>, n: nat, start: nat, src: seq<Byte>, logsize: nat, d: Fs)
    requires logsize >= 6 && WholeChunks(g, s, states, n, start, src, logsize) && Owned(g, d)
    requires FileHas(s, d, n, start, src[..Min(|src|, ChunkAt(logsize, |states|))])
    ensures WholeChunks(g, s, states + [d], n, start, src, logsize)
  {
    hide Owned, FileHas, ChunkAt;
  }

  /** A chunk of len bytes stays within maxOp logged blocks at every offset of
      every file if and only if it is this short; filewrite's are longer. */
  lemma WithinBudgetIff(len: nat, maxOp: nat)
    requires 1 <= len <= (NINDIRECT - 1) * BSIZE
    ensures (forall off: nat, size: nat | off <= size && off + len <= MAXFILE * BSIZE ::
               LogCost(off, len, size) <= maxOp)
      <==> len <= (maxOp - 4) * BSIZE + 1
  {
    hide LogCost;
    WorstCost(NDIRECT * BSIZE + if len == 1 then 0 else BSIZE - 1, len);
    forall off: nat, size: nat | off <= size ensures LogCost(off, len, size) <= (len - 2) / BSIZE + 5 {
      CostBound(off, len, size);
    }
    if len <= (maxOp - 4) * BSIZE + 1 {
      assert (len - 2) / BSIZE <= maxOp - 5;
    } else {
      assert (len - 2) / BSIZE > maxOp - 5;
    }
  }

  lemma CostBound(off: nat, len: nat, size: nat)
    requires len >= 1 && off <= size
    ensures LogCost(off, len, size) <= (len - 2) / BSIZE + 5
  {
  }

  /** The worst place: the last byte of the file's last block, past the direct
      blocks; for a single byte, the byte after it. */
  lemma WorstCost(off: nat, len: nat)
    requires len >= 1 && off == NDIRECT * BSIZE + if len == 1 then 0 else BSIZE - 1
    ensures LogCost(off, len, off) == (len - 2) / BSIZE + 5
  {
    assert BlocksFor(off + len) == NDIRECT + 2 + (len - 2) / BSIZE;
  }

  /** filewrite's chunk is sized from LOGSIZE: with LOGSIZE = 3 * MAXOPBLOCKS the
      first full chunk of a new file is over budget, whatever MAXOPBLOCKS is. */
  lemma FullChunkOverBudget(maxOp: nat)
    requires maxOp >= 2
    ensures ChunkCost(0, MaxChunk(3 * maxOp), 0, 3 * maxOp, 0) > maxOp
  {
    var m := (3 * maxOp - 1 - 1 - 2) / 2;
    assert BlocksFor(m * 512) == m;
  }

  /** File n holds part at offset at and is otherwise as before, and no other file has changed. */
  ghost predicate FileHas(s: Fs, t: Fs, n: nat, at: nat, part: seq<Byte>) {
    && n < |s.inodes| && |t.inodes| == |s.inodes|
    && (if part == [] then Content(t, n) == Content(s, n)
        else at <= |Content(s, n)| && Content(t, n) == Splice(Content(s, n), at, part))
    && forall m: nat | m < |s.inodes| && m != n :: Content(t, m) == Content(s, m)
  }

  lemma FileHasNothing(s: Fs, n: nat, at: nat)
    requires n < |s.inodes|
    ensures FileHas(s, s, n, at, [])
  {
  }

  lemma FileHasMore(s: Fs, t: Fs, u: Fs, n: nat, at: nat, p: seq<Byte>, q: seq<Byte>)
    requires FileHas(s, t, n, at, p) && q != [] && |u.inodes| == |t.inodes|
    requires at + |p| <= |Content(t, n)| && Content(u, n) == Splice(Content(t, n), at + |p|, q)
    requires forall m: nat | m < |t.inodes| && m != n :: Content(u, m) == Content(t, m)
    ensures FileHas(s, u, n, at, p + q)
  {
    hide Content;
    if p == [] {
      assert p + q == q;
    } else {
      SpliceTwice(Content(s, n), at, p, q);
    }
  }
}
