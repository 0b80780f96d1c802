// mkfs's main: the root directory, one file per argument, the rounding of the
// root's size, and the bitmap; and which image that leaves.

module Mkfs {
  import opened Common
  import opened FsModel
  import opened FsImage
  import opened Directory
  import Path

  const ROOTINO: nat := 1
  const DOT: seq<Byte> := [46]
  const DOTS: seq<Byte> := [46, 46]
  const SLASH: Byte := 47
  const UNDERSCORE: Byte := 95

  /** A file named on the command line. */
  datatype HostFile = HostFile(name: seq<Byte>, data: seq<Byte>)

  /** The name in the file system: a leading underscore is left out. */
  function Shown(name: seq<Byte>): seq<Byte> {
    if name != [] && name[0] == UNDERSCORE then name[1..] else name
  }

  /** The entry for a file, whose number is cut to a short. */
  function FileEntry(inum: nat, name: seq<Byte>): (d: Dirent)
    ensures d.inum < 0x1_0000 && |d.name| == DIRSIZ
  {
    Dirent(inum % 0x1_0000, Field(Shown(name)))
  }

  /** The entries of the root directory; files get inode numbers from 2 on. */
  function RootEntries(files: seq<HostFile>): (es: seq<Dirent>)
    ensures |es| == |files| + 2
    ensures es[0] == Dirent(ROOTINO, Field(DOT)) && es[1] == Dirent(ROOTINO, Field(DOTS))
    ensures forall k | 0 <= k < |files| :: es[k + 2] == FileEntry(k + 2, files[k].name)
  {
    [Dirent(ROOTINO, Field(DOT)), Dirent(ROOTINO, Field(DOTS))]
    + seq(|files|, k requires 0 <= k < |files| => FileEntry(k + 2, files[k].name))
  }

  function RootBytes(files: seq<HostFile>): (c: seq<Byte>)
    ensures |c| == (|files| + 2) * ENTRY
  {
    if files == [] then Encode(Dirent(ROOTINO, Field(DOT))) + Encode(Dirent(ROOTINO, Field(DOTS)))
    else RootBytes(files[..|files| - 1]) + Encode(FileEntry(|files| + 1, files[|files| - 1].name))
  }

  lemma EntriesAppend(c: seq<Byte>, d: Dirent)
    requires IsDir(c) && d.inum < 0x1_0000 && |d.name| == DIRSIZ
    ensures IsDir(c + Encode(d)) && Entries(c + Encode(d)) == Entries(c) + [d]
  {
    hide Encode;
    PutEntry(c, |c| / ENTRY, d);
    assert Splice(c, |c| / ENTRY * ENTRY, Encode(d)) == c + Encode(d);
  }

  lemma RootBytesDots()
    ensures IsDir(RootBytes([])) && Entries(RootBytes([])) == RootEntries([])
  {
    hide Encode, Decode, Field, EntryAt;
    var dot, dots := Dirent(ROOTINO, Field(DOT)), Dirent(ROOTINO, Field(DOTS));
    EntriesAppend([], dot);
    EntriesAppend(Encode(dot), dots);
    assert [] + Encode(dot) == Encode(dot);
    assert Entries([]) == [];
    assert RootEntries([]) == [dot, dots];
  }

  lemma RootEntriesNext(files: seq<HostFile>)
    requires files != []
    ensures RootEntries(files)
      == RootEntries(files[..|files| - 1]) + [FileEntry(|files| + 1, files[|files| - 1].name)]
  {
    hide FileEntry, Field;
  }

  lemma {:induction false} RootBytesHold(files: seq<HostFile>)
    ensures IsDir(RootBytes(files)) && Entries(RootBytes(files)) == RootEntries(files)
  {
    hide Encode, Decode, Field, Entries, EntryAt, FileEntry, RootEntries;
    if files == [] {
      RootBytesDots();
    } else {
      RootBytesHold(files[..|files| - 1]);
      RootEntriesNext(files);
      EntriesAppend(RootBytes(files[..|files| - 1]), FileEntry(|files| + 1, files[|files| - 1].name));
    }
  }

  // -------------------------------------------------------------- the blocks

  function Sum(files: seq<HostFile>): nat {
    if files == [] then 0 else Sum(files[..|files| - 1]) + Cost(|files[|files| - 1].data|)
  }

  /** How many blocks mkfs takes. */
  function Used(nmeta: nat, files: seq<HostFile>): nat {
    nmeta + Cost((|files| + 2) * ENTRY) + Sum(files)
  }

  lemma {:induction false} UsedPrefix(nmeta: nat, files: seq<HostFile>, i: nat)
    requires i <= |files|
    ensures Used(nmeta, files[..i]) <= Used(nmeta, files)
    decreases |files|
  {
    hide Cost;
    if i == |files| {
      assert files[..i] == files;
    } else {
      var init := files[..|files| - 1];
      UsedPrefix(nmeta, init, i);
      assert init[..i] == files[..i];
      CostGrows((|init| + 2) * ENTRY, ENTRY);
    }
  }

  lemma UsedNext(nmeta: nat, files: seq<HostFile>, i: nat)
    requires i < |files|
    ensures Used(nmeta, files[..i + 1]) == Used(nmeta, files[..i]) + Cost(|RootBytes(files[..i])| + ENTRY)
      - Cost(|RootBytes(files[..i])|) + Cost(|files[i].data|)
    ensures RootBytes(files[..i + 1]) == RootBytes(files[..i]) + Encode(FileEntry(i + 2, files[i].name))
  {
    hide Cost, Encode;
    assert files[..i + 1][..i] == files[..i];
  }

  predicate NoSlash(name: seq<Byte>) { forall i | 0 <= i < |name| :: name[i] != SLASH }

  /** mkfs runs to its end: names without slashes, no file longer than a file
      can be, and all blocks in use within the image and one bitmap block. */
  predicate Accepted(fssize: nat, nmeta: nat, files: seq<HostFile>) {
    && (forall k | 0 <= k < |files| :: NoSlash(files[k].name) && |files[k].data| <= MAXFILE * BSIZE)
    && (|files| + 2) * ENTRY <= MAXFILE * BSIZE
    && Used(nmeta, files) <= fssize && Used(nmeta, files) < BPB
  }

  // --------------------------------------------------------------- the image

  /** The files are there, and the root directory lists them and nothing else. */
  ghost predicate Holds(s: Fs, files: seq<HostFile>) {
    && |s.inodes| == |files| + 2 && s.inodes[ROOTINO].size >= |RootBytes(files)| && s.inodes[ROOTINO].size % BSIZE == 0
    && Content(s, ROOTINO) == RootBytes(files) + seq(s.inodes[ROOTINO].size - |RootBytes(files)|, _ => 0)
    && (forall m: nat | 2 <= m < |s.inodes| ::
          Content(s, m) == files[m - 2].data && Mapped(s, m, BlocksFor(s.inodes[m].size)))
  }

  /** The inodes that the inode blocks hold.  One that is numbered past them is
      written to the first bitmap block, and balloc writes over it. */
  function Kept(s: Fs, slots: nat): Fs {
    s.(inodes := s.inodes[..Min(|s.inodes|, slots)])
  }

  /** No file whose inode is lost has any bytes. */
  predicate LostEmpty(files: seq<HostFile>, slots: nat) {
    forall k | 0 <= k < |files| && k + 2 >= slots :: files[k].data == []
  }

  lemma KeptAddr(s: Fs, slots: nat)
    ensures forall q: Ref :: Addr(Kept(s, slots), q) == if q.inum < slots then Addr(s, q) else 0
  {
  }

  lemma KeptSame(s: Fs, slots: nat, m: nat)
    requires m < slots && m < |s.inodes|
    ensures Content(Kept(s, slots), m) == Content(s, m) && Kept(s, slots).inodes[m] == s.inodes[m]
    ensures forall k: nat :: BlockAddr(Kept(s, slots), m, k) == BlockAddr(s, m, k)
  {
    KeptAddr(s, slots);
    hide Addr;
    var t := Kept(s, slots);
    forall i: nat ensures ByteAt(t, m, i) == ByteAt(s, m, i) {
      assert BlockAddr(t, m, i / BSIZE) == BlockAddr(s, m, i / BSIZE);
    }
  }

  /** A lost inode that owns a block leaves the block marked and without an owner. */
  lemma KeptLeaks(g: Layout, s: Fs, slots: nat, n: nat)
    requires Owned(g, s) && n >= slots && BlockAddr(s, n, 0) != 0
    ensures !NoLeak(g, Kept(s, slots))
  {
    KeptAddr(s, slots);
    var r, t := Ref(n, SlotOf(0)), Kept(s, slots);
    assert Placed(g, s, Addr(s, r));
    hide Addr;
    forall q: Ref ensures Addr(t, q) != Addr(s, r) {
      assert q.inum < slots ==> q != r;
    }
  }

  lemma KeptOwned(g: Layout, s: Fs, slots: nat)
    requires Owned(g, s) && forall q: Ref | q.inum >= slots :: Addr(s, q) == 0
    ensures Owned(g, Kept(s, slots))
  {
    KeptAddr(s, slots);
    var t := Kept(s, slots);
    assert forall q: Ref :: Addr(t, q) == Addr(s, q);
    hide Addr;
    forall b | g.dataStart <= b < |t.bitmap| && t.bitmap[b] ensures exists q: Ref :: Addr(t, q) == b {
      var q :| Addr(s, q) == b;
      assert Addr(t, q) == b;
    }
    forall q: Ref | Addr(t, q) != 0 ensures Placed(g, t, Addr(t, q)) {
      assert Placed(g, s, Addr(s, q));
    }
    assert Unshared(t);
  }

  /** A file without bytes owns nothing. */
  lemma EmptyOwnsNothing(g: Layout, s: Fs, n: nat, slot: Slot)
    requires Owned(g, s) && Exact(s, n) && s.inodes[n].size == 0
    ensures Addr(s, Ref(n, slot)) == 0
  {
    match slot
    case DirectSlot(i) => assert i < NDIRECT ==> BlockAddr(s, n, i) == 0;
    case IndirectSlot =>
    case EntrySlot(j) => assert BlockAddr(s, n, NDIRECT + j) == 0;
  }

  /** What is left of an image when the inodes past the inode blocks are lost. */
  lemma Finished(s: Fs, g: Layout, slots: nat, files: seq<HostFile>)
    requires Owned(g, s) && |s.inodes| == |files| + 2 && slots >= 2
    requires s.inodes[ROOTINO].size >= |RootBytes(files)| && s.inodes[ROOTINO].size % BSIZE == 0
    requires Content(s, ROOTINO) == RootBytes(files) + seq(s.inodes[ROOTINO].size - |RootBytes(files)|, _ => 0)
    requires forall m: nat | 2 <= m < |s.inodes| :: Exact(s, m) && Content(s, m) == files[m - 2].data
    ensures var t := Kept(s, slots);
      && (Owned(g, t) <==> LostEmpty(files, slots)) && (Holds(t, files) <==> |files| + 2 <= slots)
      && |t.inodes| > ROOTINO && t.inodes[ROOTINO] == s.inodes[ROOTINO]
      && forall k: nat :: BlockAddr(t, ROOTINO, k) == BlockAddr(s, ROOTINO, k)
  {
    KeptSame(s, slots, ROOTINO);
    FinishedOwned(s, g, slots, files);
    hide Owned, Kept, RootBytes, Content, BlockAddr, LostEmpty;
    if |files| + 2 <= slots {
      assert |Kept(s, slots).inodes| == |s.inodes| by { KeptCount(s, slots); }
      forall m: nat | 2 <= m < |s.inodes|
        ensures Content(Kept(s, slots), m) == files[m - 2].data
        ensures Mapped(Kept(s, slots), m, BlocksFor(Kept(s, slots).inodes[m].size))
      {
        KeptSame(s, slots, m);
      }
    } else {
      KeptCount(s, slots);
    }
  }

  lemma KeptCount(s: Fs, slots: nat)
    ensures |Kept(s, slots).inodes| == Min(|s.inodes|, slots)
  {
  }

  lemma FinishedOwned(s: Fs, g: Layout, slots: nat, files: seq<HostFile>)
    requires Owned(g, s) && |s.inodes| == |files| + 2
    requires forall m: nat | 2 <= m < |s.inodes| :: Exact(s, m) && Content(s, m) == files[m - 2].data
    requires slots >= 2
    ensures Owned(g, Kept(s, slots)) <==> LostEmpty(files, slots)
  {
    if LostEmpty(files, slots) {
      forall q: Ref | q.inum >= slots ensures Addr(s, q) == 0 {
        if q.inum < |s.inodes| {
          assert files[q.inum - 2].data == [];
          EmptyOwnsNothing(g, s, q.inum, q.slot);
          assert q == Ref(q.inum, q.slot);
        }
      }
      KeptOwned(g, s, slots);
    } else {
      var k :| 0 <= k < |files| && k + 2 >= slots && files[k].data != [];
      assert Exact(s, k + 2) && Content(s, k + 2) == files[k].data;
      FirstBlock(s, k + 2);
      KeptLeaks(g, s, slots, k + 2);
    }
  }

  lemma FirstBlock(s: Fs, n: nat)
    requires Exact(s, n) && s.inodes[n].size > 0
    ensures BlockAddr(s, n, 0) != 0
  {
  }

  // ----------------------------------------------------------------- mkfs

  /** The root directory with its two entries; false stands for mkfs's exit. */
  method MakeRoot(g: Layout) returns (ok: bool, img: Image)
    requires g.Valid()
    ensures ok <==> Used(g.dataStart, []) <= g.size
    ensures fresh(img) && img.g == g
    ensures ok ==> img.Valid() && |img.inodes| == 2 && img.freeblock == Used(g.dataStart, [])
    ensures ok ==> Exact(img.Abs(), ROOTINO) && Content(img.Abs(), ROOTINO) == RootBytes([])
  {
    hide Owned, Content, Exact, Encode, Field;
    img := new Image(g);
    var root := img.Ialloc();
    ok := img.Iappend(root, Encode(Dirent(ROOTINO, Field(DOT))));
    if ok {
      ok := img.Iappend(root, Encode(Dirent(ROOTINO, Field(DOTS))));
    }
  }

  /** Overrun: an inode has been written past the block that balloc rewrites. */
  datatype Outcome = Exited | Overrun | Made(fs: Fs)

  /** mkfs's main, for an image of fssize blocks with nib inode blocks in front
      of the bitmap. */
  method Make(fssize: nat, nmeta: nat, nib: nat, files: seq<HostFile>) returns (r: Outcome)
    requires 0 < nmeta <= fssize < WORD && nib >= 1
    ensures r.Made? <==> Accepted(fssize, nmeta, files) && |files| + 2 <= (nib + 1) * IPB
    ensures r.Exited? ==> !Accepted(fssize, nmeta, files)
    ensures r.Overrun? ==> |files| + 2 > (nib + 1) * IPB
    ensures r.Made? ==> (Holds(r.fs, files) <==> |files| + 2 <= nib * IPB)
    ensures r.Made? ==> (Owned(Layout(fssize, nmeta), r.fs) <==> LostEmpty(files, nib * IPB))
    ensures r.Made? ==> |r.fs.inodes| > ROOTINO
    ensures r.Made? ==> r.fs.inodes[ROOTINO].size == ((|files| + 2) * ENTRY / BSIZE + 1) * BSIZE
    ensures r.Made? ==>
      (Mapped(r.fs, ROOTINO, BlocksFor(r.fs.inodes[ROOTINO].size)) <==> (|files| + 2) * ENTRY % BSIZE != 0)
  {
    hide Owned, Content, Exact, RootBytes, Used, Cost, Encode, FileEntry, Accepted, BlockAddr, Holds, LostEmpty;
    var g := Layout(fssize, nmeta);
    UsedPrefix(nmeta, files, 0);
    assert files[..0] == [];
    var ok, img := MakeRoot(g);
    if !ok {
      Refused(fssize, nmeta, files, 0);
      return Exited;
    }
    var i := 0;
    while i < |files|
      invariant i <= |files| && img.Valid() && fresh(img) && img.g == g && |img.inodes| == i + 2 <= (nib + 1) * IPB
      invariant forall k | 0 <= k < i :: NoSlash(files[k].name) && |files[k].data| <= MAXFILE * BSIZE
      invariant (i + 2) * ENTRY <= MAXFILE * BSIZE
      invariant Exact(img.Abs(), ROOTINO) && Content(img.Abs(), ROOTINO) == RootBytes(files[..i])
      invariant forall m: nat | 2 <= m < i + 2 :: Exact(img.Abs(), m) && Content(img.Abs(), m) == files[m - 2].data
      invariant img.freeblock == Used(nmeta, files[..i])
    {
      if !NoSlash(files[i].name) {
        Refused(fssize, nmeta, files, i);
        return Exited;
      }
      if |img.inodes| / IPB > nib {
        return Overrun;
      }
      UsedNext(nmeta, files, i);
      UsedPrefix(nmeta, files, i + 1);
      var inum;
      ok, inum := img.AddFile(ROOTINO, Encode(FileEntry(i + 2, files[i].name)), files[i].data);
      if !ok {
        Refused(fssize, nmeta, files, i);
        return Exited;
      }
      i := i + 1;
    }
    assert files[..i] == files;
    img.RoundUp(ROOTINO);
    RoundedSize((|files| + 2) * ENTRY);
    Finished(img.Abs(), g, nib * IPB, files);
    var block;
    ok, block := img.WriteBitmap();
    AcceptedIs(fssize, nmeta, files);
    if !ok {
      return Exited;
    }
    r := Made(Kept(Fs(OnDisk(block, fssize), img.blocks, img.inodes), nib * IPB));
  }

  lemma RoundedSize(size: nat)
    ensures (size / BSIZE + 1) * BSIZE >= size && (size / BSIZE + 1) * BSIZE % BSIZE == 0
  {
  }

  lemma Refused(fssize: nat, nmeta: nat, files: seq<HostFile>, k: nat)
    requires k < |files| || Used(nmeta, files) > fssize
    requires
      || Used(nmeta, files) > fssize
      || !NoSlash(files[k].name) || |files[k].data| > MAXFILE * BSIZE || (k + 3) * ENTRY > MAXFILE * BSIZE
    ensures !Accepted(fssize, nmeta, files)
  {
  }

  lemma AcceptedIs(fssize: nat, nmeta: nat, files: seq<HostFile>)
    requires forall k | 0 <= k < |files| :: NoSlash(files[k].name) && |files[k].data| <= MAXFILE * BSIZE
    requires (|files| + 2) * ENTRY <= MAXFILE * BSIZE && Used(nmeta, files) <= fssize
    ensures Accepted(fssize, nmeta, files) <==> Used(nmeta, files) < BPB
  {
  }

  // ----------------------------------------------------- the root directory

  /** Zeroes behind the entries are dead entries. */
  lemma EntriesPadded(c: seq<Byte>, n: nat)
    requires IsDir(c) && n % ENTRY == 0
    ensures var d := c + seq(n, _ => 0);
      && IsDir(d) && |Entries(d)| >= |Entries(c)| && Entries(d)[..|Entries(c)|] == Entries(c)
      && forall j | |Entries(c)| <= j < |Entries(d)| :: Entries(d)[j].inum == 0
  {
    hide Decode;
    var d := c + seq(n, _ => 0);
    var es, fs := Entries(c), Entries(d);
    forall j | 0 <= j < |fs| ensures if j < |es| then fs[j] == es[j] else fs[j].inum == 0 {
      var b := d[j * ENTRY..(j + 1) * ENTRY];
      if j < |es| {
        assert b == c[j * ENTRY..(j + 1) * ENTRY];
      } else {
        assert b[0] == 0 && b[1] == 0;
        DeadEntry(b);
      }
    }
  }

  lemma DeadEntry(b: seq<Byte>)
    requires |b| == ENTRY && b[0] == 0 && b[1] == 0
    ensures Decode(b).inum == 0
  {
  }

  /** The names of the files differ, from one another and from the dots. */
  ghost predicate Distinct(files: seq<HostFile>) {
    && (forall k | 0 <= k < |files| ::
          IsString(files[k].name) && Cut(Shown(files[k].name)) != DOT && Cut(Shown(files[k].name)) != DOTS)
    && (forall j, k | 0 <= j < k < |files| :: Cut(Shown(files[j].name)) != Cut(Shown(files[k].name)))
  }

  lemma RootLists(s: Fs, files: seq<HostFile>)
    requires Holds(s, files)
    ensures var c := Content(s, ROOTINO);
      var es := Entries(c);
      && IsDir(c) && |es| >= |files| + 2 && es[..|files| + 2] == RootEntries(files)
      && forall j | |files| + 2 <= j < |es| :: es[j].inum == 0
  {
    hide Content, Mapped, Entries, RootBytes, RootEntries;
    RootBytesHold(files);
    EntriesPadded(RootBytes(files), s.inodes[ROOTINO].size - |RootBytes(files)|);
  }

  lemma RootName(files: seq<HostFile>, k: nat)
    requires k < |files| && IsString(files[k].name) && |files| + 2 < 0x1_0000
    ensures RootEntries(files)[k + 2].inum == k + 2
    ensures NameOf(RootEntries(files)[k + 2].name) == Cut(Shown(files[k].name))
  {
    hide NameOf, Field;
    NameOfField(Shown(files[k].name));
  }

  lemma DotNames(files: seq<HostFile>)
    ensures NameOf(RootEntries(files)[0].name) == DOT && NameOf(RootEntries(files)[1].name) == DOTS
  {
    hide NameOf, Field;
    NameOfField(DOT);
    NameOfField(DOTS);
  }

  lemma RootUnique(files: seq<HostFile>, es: seq<Dirent>)
    requires Distinct(files) && |files| + 2 < 0x1_0000 && |es| >= |files| + 2 && es[..|files| + 2] == RootEntries(files)
    requires forall j | |files| + 2 <= j < |es| :: es[j].inum == 0
    ensures Unique(es)
  {
    hide NameOf, RootEntries, Shown, Cut;
    DotNames(files);
    forall k: nat | k < |files| { RootName(files, k); }
    forall i: nat, j: nat | i < j < |es| && es[i].inum != 0 && es[j].inum != 0
      ensures NameOf(es[i].name) != NameOf(es[j].name)
    {
      assert es[i] == RootEntries(files)[i] && es[j] == RootEntries(files)[j];
      assert j >= 2 ==> NameOf(es[j].name) == Cut(Shown(files[j - 2].name));
      assert i >= 2 ==> NameOf(es[i].name) == Cut(Shown(files[i - 2].name));
    }
  }

  /** Path names find the files: a file given to mkfs as "name" or as "_name" is
      at "/name", which resolves to the inode that holds its bytes. */
  lemma FilesAreFound(s: Fs, files: seq<HostFile>, k: nat, name: seq<Byte>, path: seq<Byte>)
    requires Holds(s, files) && Distinct(files) && |files| + 2 < 0x1_0000 && k < |files| && name != []
    requires files[k].name == [UNDERSCORE] + name || (files[k].name == name && name[0] != UNDERSCORE)
    requires path != [] && (forall i | 0 <= i < |path| :: path[i] != SLASH) && Cut(path) == Cut(name)
    ensures Path.GoodDirs(s, {ROOTINO})
    ensures Path.Resolve(Path.TreeOf(s, {ROOTINO}), ROOTINO, Path.Components([SLASH] + path)) == Some(k + 2)
    ensures Content(s, k + 2) == files[k].data
  {
    hide Content, Mapped, Entries, RootBytes, RootEntries, NameOf, Bindings, Unique, Cut, Shown, Distinct;
    hide Path.Components;
    ShownName(files[k].name, name);
    RootBinds(s, files, k);
    OneComponent(path);
    FoundIn(Path.TreeOf(s, {ROOTINO}), ROOTINO, path, k + 2);
  }

  lemma ShownName(arg: seq<Byte>, name: seq<Byte>)
    requires name != [] && (arg == [UNDERSCORE] + name || (arg == name && name[0] != UNDERSCORE))
    ensures Shown(arg) == name
  {
  }

  lemma RootBinds(s: Fs, files: seq<HostFile>, k: nat)
    requires Holds(s, files) && Distinct(files) && |files| + 2 < 0x1_0000 && k < |files|
    ensures var es, name := Entries(Content(s, ROOTINO)), Cut(Shown(files[k].name));
      Unique(es) && IsDir(Content(s, ROOTINO)) && name in Bindings(es) && Bindings(es)[name] == k + 2
  {
    hide Content, Mapped, Entries, RootBytes, RootEntries, NameOf, Bindings, Unique, Cut, Shown, Distinct;
    var es, name := Entries(Content(s, ROOTINO)), Cut(Shown(files[k].name));
    RootLists(s, files);
    RootUnique(files, es);
    DistinctAt(files, k);
    RootName(files, k);
    assert es[k + 2] == RootEntries(files)[k + 2];
    assert Live(es, k + 2, name);
    BindingsAre(es, name);
  }

  lemma FoundIn(t: Path.Tree, ip: nat, name: seq<Byte>, inum: nat)
    requires ip in t && Cut(name) in t[ip] && t[ip][Cut(name)] == inum
    ensures Path.Resolve(t, ip, [name]) == Some(inum)
  {
    assert [name][1..] == [];
  }

  lemma DistinctAt(files: seq<HostFile>, k: nat)
    requires Distinct(files) && k < |files|
    ensures IsString(files[k].name)
  {
  }

  lemma OneComponent(path: seq<Byte>)
    requires path != [] && forall i | 0 <= i < |path| :: path[i] != SLASH
    ensures Path.Components([SLASH] + path) == [path]
  {
    Path.ComponentsSlash([], path);
    Path.ComponentsWord(path);
    assert [] + [SLASH] + path == [SLASH] + path;
  }
}
