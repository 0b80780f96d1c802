// filewrite and mkfs with the shipped sizes: the inputs on which they miss what they promise.

module FsShipped {
  import opened Common
  import opened FsModel
  import opened FsCode
  import FsImage
  import Mkfs

  const FSSIZE: nat := 2000
  const MAXOPBLOCKS: nat := 10
  const LOGSIZE: nat := MAXOPBLOCKS * 3
  const NINODES: nat := 200
  const INODESTART: nat := 2 + LOGSIZE                    // boot block, super block, log
  const NINODEBLOCKS: nat := NINODES / IPB + 1
  const BMAPSTART: nat := INODESTART + NINODEBLOCKS
  const NMETA: nat := BMAPSTART + FSSIZE / BPB + 1

  lemma {:induction false} ClearBitsFrom(size: nat, used: nat)
    requires used <= size
    ensures ClearBits(FsImage.Bits(size, used)) == size - used
  {
    if size == used {
      ClearBitsNone(FsImage.Bits(size, used));
    } else {
      ClearBitsFrom(size - 1, used);
      assert FsImage.Bits(size, used)[..size - 1] == FsImage.Bits(size - 1, used);
    }
  }

  /** Thirteen blocks written to a new file go through filewrite as one
      transaction, and it logs 16 blocks where begin_op has reserved 10. */
  method OverBudget(data: seq<Byte>) returns (r: IoResult, ghost logged: seq<set<nat>>)
    requires |data| == 13 * BSIZE
    ensures r == Done(|data|) && |logged| == 1 && |logged[0]| == 16 > MAXOPBLOCKS
  {
    hide Owned, ClearBits, ChunkCost, ChunkData, ChunkAt, Content, HiBlock, Tight, FsImage.Exact, Needed;
    hide FileHas, NoHoles, WholeChunks, Splice, BlockAddr;
    var img := new FsImage.Image(Layout(FSSIZE, NMETA));
    var n := img.Ialloc();
    TwoTight(img.Abs());
    ClearBitsFrom(FSSIZE, NMETA);
    var fs := new FileSystem(Layout(FSSIZE, NMETA), INODESTART, BMAPSTART,
                             Fs(FsImage.Bits(FSSIZE, NMETA), img.blocks, img.inodes));
    NeededBound(fs.Abs(), n, 0, 13);
    ShippedCost();
    var off;
    ghost var states;
    r, off, logged, states := fs.FileWrite(n, 0, data, LOGSIZE);
  }

  lemma TwoTight(s: Fs)
    requires |s.inodes| == 2 && FsImage.Exact(s, 0) && FsImage.Exact(s, 1)
    ensures Tight(s)
  {
    forall n: nat, k: nat | n < |s.inodes| ensures BlockAddr(s, n, k) != 0 <==> k < BlocksFor(s.inodes[n].size) {
      hide BlockAddr;
      assert n == 0 || n == 1;
    }
  }

  lemma ShippedCost()
    ensures ChunkCost(0, 13 * BSIZE, 0, LOGSIZE, 0) == 16 && HiBlock(0, 13 * BSIZE) == 13
    ensures forall k: nat :: ChunkAt(LOGSIZE, k) == k * (13 * BSIZE)
  {
  }

  /** Thirty empty files: with the two dots, the root's 32 entries fill its one block. */
  function ThirtyFiles(): seq<Mkfs.HostFile> {
    seq(30, k requires 0 <= k < 30 => Mkfs.HostFile([65 + k], []))
  }

  lemma {:induction false} SumIs(files: seq<Mkfs.HostFile>, cost: nat)
    requires forall k | 0 <= k < |files| :: FsImage.Cost(|files[k].data|) == cost
    ensures Mkfs.Sum(files) == |files| * cost
  {
    if files != [] {
      SumIs(files[..|files| - 1], cost);
    }
  }

  /** The shipped mkfs, given thirty files, rounds the root's size up into a
      block that the root does not have. */
  method RootWithHole() returns (s: Fs)
    ensures Owned(Layout(FSSIZE, NMETA), s) && Mkfs.Holds(s, ThirtyFiles())
    ensures |s.inodes| == 32 && s.inodes[Mkfs.ROOTINO].size == 2 * BSIZE
    ensures !Mapped(s, Mkfs.ROOTINO, BlocksFor(s.inodes[Mkfs.ROOTINO].size))
  {
    hide Owned, Mapped, Mkfs.RootBytes;
    var files := ThirtyFiles();
    SumIs(files, 0);
    assert Mkfs.Used(NMETA, files) == NMETA + 1;
    var r := Mkfs.Make(FSSIZE, NMETA, NINODEBLOCKS, files);
    s := r.fs;
  }

  /** A read of that root directory with no operation open reaches log_write's panic. */
  method ReadAtHole() returns (r: IoResult)
    ensures r == Panic
  {
    hide Owned, BlockAddr, Mkfs.Holds, ClearBits;
    var s := RootWithHole();
    var fs := new FileSystem(Layout(FSSIZE, NMETA), INODESTART, BMAPSTART, s);
    var data;
    r, data := fs.Readi(Mkfs.ROOTINO, 0, 2 * BSIZE, false);
    var k: nat :| k < BlocksFor(2 * BSIZE) && BlockAddr(s, Mkfs.ROOTINO, k) == 0;
    assert Touches(k, 0, 2 * BSIZE);
  }

  /** 206 empty files and one of a byte: the last inode is number 208, and its
      block is the bitmap block. */
  function TooManyFiles(): seq<Mkfs.HostFile> {
    seq(206, k requires 0 <= k < 206 => Mkfs.HostFile([65 + k / 16, 65 + k % 16], []))
    + [Mkfs.HostFile([90], [1])]
  }

  lemma SumTooMany()
    ensures Mkfs.Sum(TooManyFiles()) == 1
  {
    var files := TooManyFiles();
    SumIs(files[..206], 0);
  }

  /** The shipped mkfs ends well, and has lost the file and leaked its block. */
  method LostInode() returns (s: Fs)
    ensures |TooManyFiles()| + 1 == 208 && 208 / IPB + INODESTART == BMAPSTART
    ensures !Mkfs.Holds(s, TooManyFiles()) && !Owned(Layout(FSSIZE, NMETA), s)
  {
    hide Owned, Mapped, Mkfs.Holds;
    var files := TooManyFiles();
    SumTooMany();
    assert Mkfs.Used(NMETA, files) == NMETA + 8;
    forall k | 0 <= k < |files| ensures Mkfs.NoSlash(files[k].name) && |files[k].data| <= MAXFILE * BSIZE {
    }
    var r := Mkfs.Make(FSSIZE, NMETA, NINODEBLOCKS, files);
    assert files[206].data == [1];
    s := r.fs;
  }

  /** Twenty files of maximal length. */
  function TooManyBlocks(): seq<Mkfs.HostFile> {
    seq(20, k requires 0 <= k < 20 => Mkfs.HostFile([65 + k], seq(MAXFILE * BSIZE, _ => 0)))
  }

  /** A full image makes mkfs exit: the blocks taken would fit the bitmap, but
      the first one past the end cannot be read. */
  method ImageFull() returns (r: Mkfs.Outcome)
    ensures FSSIZE < Mkfs.Used(NMETA, TooManyBlocks()) < BPB && r.Exited?
  {
    hide Owned, Mapped, Mkfs.Holds;
    var files := TooManyBlocks();
    SumIs(files, MAXFILE + 1);
    assert Mkfs.Used(NMETA, files) == NMETA + 1 + 20 * (MAXFILE + 1);
    r := Mkfs.Make(FSSIZE, NMETA, NINODEBLOCKS, files);
  }
}
