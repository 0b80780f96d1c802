// dirlookup, dirlink, isdirempty and unlink as they are written: loops of readi
// over a directory's entries, and one writei, on a mutable file system.

module DirCode {
  import opened Common
  import opened FsModel
  import opened FsCode
  import opened Directory

  /** Inode n is a directory file. */
  ghost predicate DirFile(s: Fs, n: nat) {
    n < |s.inodes| && IsDir(Content(s, n)) && s.inodes[n].size <= MAXFILE * BSIZE
  }

  ghost function EntriesOf(s: Fs, n: nat): seq<Dirent>
    requires n < |s.inodes|
  {
    Entries(Content(s, n))
  }

  ghost predicate Whole(s: Fs, n: nat) {
    n < |s.inodes| && Mapped(s, n, BlocksFor(s.inodes[n].size))
  }

  /** Reading has filled in blocks at most. */
  ghost predicate OnlyRead(s: Fs, fs: FileSystem)
    reads fs
  {
    fs.Valid() && Refilled(s, fs.Abs())
  }

  lemma RefilledTwice(s: Fs, t: Fs, u: Fs)
    requires Refilled(s, t) && Refilled(t, u)
    ensures Refilled(s, u)
  {
    hide Addr, ByteAt;
  }

  lemma RefilledDir(s: Fs, t: Fs, n: nat)
    requires Refilled(s, t) && n < |s.inodes|
    ensures n < |t.inodes| && Content(t, n) == Content(s, n) && (DirFile(s, n) ==> DirFile(t, n))
  {
    RefilledContent(s, t, n);
  }

  lemma BytesOfEntry(c: seq<Byte>, off: nat)
    requires IsDir(c) && off % ENTRY == 0 && off < |c|
    ensures off + ENTRY <= |c| && off / ENTRY < |Entries(c)| && Entries(c)[off / ENTRY] == Decode(c[off..off + ENTRY])
  {
    var k := off / ENTRY;
    assert off == k * ENTRY && EntryAt(c, k) == Decode(c[off..off + ENTRY]);
  }

  /** readi of one entry; anything but 16 bytes is a panic. */
  method ReadEntry(fs: FileSystem, n: nat, off: nat, ghost s: Fs) returns (ok: bool, de: Dirent)
    requires OnlyRead(s, fs) && DirFile(s, n) && off % ENTRY == 0 && off < s.inodes[n].size
    modifies fs`bitmap, fs`blocks, fs`inodes, fs`dirty
    ensures ok ==> OnlyRead(s, fs) && off / ENTRY < |EntriesOf(s, n)| && de == EntriesOf(s, n)[off / ENTRY]
    ensures !ok ==> fs.Full()
    ensures Whole(old(fs.Abs()), n) ==> ok && unchanged(fs)
  {
    hide Owned, Content, Refilled, Mapped, BlocksFor, Decode, Entries, EntryAt;
    ghost var t := fs.Abs();
    Sizes(s, t, n);
    RefilledDir(s, t, n);
    BytesOfEntry(Content(s, n), off);
    var r, data := fs.Readi(n, off, ENTRY, true);
    if !r.Done? || r.count != ENTRY {
      return false, Dirent(0, []);
    }
    RefilledTwice(s, t, fs.Abs());
    ok, de := true, Decode(data);
  }

  lemma Sizes(s: Fs, t: Fs, n: nat)
    requires Refilled(s, t) && n < |s.inodes|
    ensures |t.inodes| == |s.inodes| && t.inodes[n].size == s.inodes[n].size == |Content(s, n)|
  {
  }

  lemma ReadNothing(s: Fs)
    ensures Refilled(s, s)
  {
  }

  /** dirlookup through readi: what Directory says of the bytes of the file. */
  method Dirlookup(fs: FileSystem, dp: nat, name: seq<Byte>) returns (ok: bool, r: Option<nat>, off: nat)
    requires fs.Valid() && DirFile(fs.Abs(), dp) && IsString(name)
    modifies fs`bitmap, fs`blocks, fs`inodes, fs`dirty
    ensures ok ==> OnlyRead(old(fs.Abs()), fs) && Found(EntriesOf(old(fs.Abs()), dp), Cut(name), r, off)
    ensures !ok ==> fs.Full()
    ensures Whole(old(fs.Abs()), dp) ==> ok && unchanged(fs)
  {
    hide Owned, Content, Refilled, Mapped, BlocksFor, Entries, NameOf, Decode;
    ghost var s := fs.Abs();
    ghost var es := EntriesOf(s, dp);
    ReadNothing(s);
    Sizes(s, s, dp);
    off := 0;
    while off < fs.inodes[dp].size
      invariant dp < |fs.inodes| && fs.inodes[dp].size == |Content(s, dp)| && OnlyRead(s, fs)
      invariant off % ENTRY == 0 && off <= |Content(s, dp)| && (Whole(s, dp) ==> unchanged(fs))
      invariant forall k: nat | k < off / ENTRY :: !Live(es, k, Cut(name))
    {
      ghost var k := off / ENTRY;
      var de;
      ok, de := ReadEntry(fs, dp, off, s);
      if !ok {
        return false, None, off;
      }
      Sizes(s, fs.Abs(), dp);
      if de.inum != 0 {
        var d := Namecmp(name, de.name);
        if d == 0 {
          assert Live(es, k, Cut(name));
          return true, Some(de.inum), off;
        }
      }
      assert !Live(es, k, Cut(name));
      off := off + ENTRY;
      assert off / ENTRY == k + 1;
    }
    assert forall k: nat :: !Live(es, k, Cut(name));
    ok, r := true, None;
  }

  datatype Link = Linked | Bound | Panics

  /** The scan of dirlink: the first free entry, or the end of the directory. */
  ghost predicate FreeSlot(es: seq<Dirent>, off: nat) {
    && off % ENTRY == 0 && off / ENTRY <= |es| && (forall k | 0 <= k < off / ENTRY :: es[k].inum != 0)
    && (off / ENTRY < |es| ==> es[off / ENTRY].inum == 0)
  }

  method FindFree(fs: FileSystem, dp: nat, ghost s: Fs) returns (ok: bool, off: nat)
    requires OnlyRead(s, fs) && DirFile(s, dp)
    modifies fs`bitmap, fs`blocks, fs`inodes, fs`dirty
    ensures ok ==> OnlyRead(s, fs) && FreeSlot(EntriesOf(s, dp), off)
    ensures !ok ==> fs.Full()
    ensures Whole(old(fs.Abs()), dp) ==> ok && unchanged(fs)
  {
    hide Owned, Content, Refilled, Mapped, BlocksFor, NameOf, Decode, EntryAt;
    ghost var t := fs.Abs();
    Sizes(s, t, dp);
    off := 0;
    while off < fs.inodes[dp].size
      invariant dp < |fs.inodes| && fs.inodes[dp].size == |Content(s, dp)| && OnlyRead(s, fs)
      invariant off % ENTRY == 0 && off <= |Content(s, dp)| && (Whole(t, dp) ==> unchanged(fs))
      invariant forall k | 0 <= k < off / ENTRY :: EntriesOf(s, dp)[k].inum != 0
    {
      var de;
      ok, de := ReadEntry(fs, dp, off, s);
      if !ok {
        return;
      }
      Sizes(s, fs.Abs(), dp);
      if de.inum == 0 {
        return;
      }
      off := off + ENTRY;
    }
    ok := true;
  }

  /** Nothing but file dp has changed. */
  ghost predicate OthersKept(s: Fs, t: Fs, dp: nat) {
    |t.inodes| == |s.inodes| && forall m: nat | m < |s.inodes| && m != dp :: Content(t, m) == Content(s, m)
  }

  lemma RefilledOthers(s: Fs, t: Fs, dp: nat)
    requires Refilled(s, t)
    ensures OthersKept(s, t, dp)
  {
    hide Content, Refilled;
    ReadSame(s, t);
    forall m: nat | m < |s.inodes| ensures Content(t, m) == Content(s, m) {
      RefilledContent(s, t, m);
    }
  }

  lemma ReadSame(s: Fs, t: Fs)
    requires Refilled(s, t)
    ensures |t.inodes| == |s.inodes|
  {
  }

  /** writei of one entry at off. */
  method WriteEntry(fs: FileSystem, dp: nat, off: nat, de: Dirent, ghost s: Fs) returns (ok: bool)
    requires OnlyRead(s, fs) && DirFile(s, dp) && de.inum < 0x1_0000 && |de.name| == DIRSIZ
    requires off % ENTRY == 0 && off <= s.inodes[dp].size
    modifies fs`bitmap, fs`blocks, fs`inodes, fs`dinodes, fs`dirty
    ensures ok ==> fs.Valid() && OthersKept(s, fs.Abs(), dp) && DirFile(fs.Abs(), dp)
    ensures ok ==> off / ENTRY <= |EntriesOf(s, dp)|
    ensures ok ==> EntriesOf(fs.Abs(), dp) == Put(EntriesOf(s, dp), off / ENTRY, de)
    ensures ok ==> (old(NoHoles(fs.Abs())) ==> NoHoles(fs.Abs()))
    ensures !ok <==>
      || off == MAXFILE * BSIZE
      || ClearBits(old(fs.bitmap)) < Needed(old(fs.Abs()), dp, off / BSIZE, off / BSIZE + 1)
  {
    hide Owned, Content, Refilled, Mapped, BlocksFor, Encode, Entries, Needed, ClearBits, NoHoles, MapGrew;
    ghost var t := fs.Abs();
    Sizes(s, t, dp);
    RefilledDir(s, t, dp);
    RefilledOthers(s, t, dp);
    OneBlock(off);
    PutEntry(Content(s, dp), off / ENTRY, de);
    ghost var w;
    var r;
    r, w := fs.Writei(dp, Encode(de), off);
    ok := r.Done? && r.count == ENTRY;
  }

  lemma OneBlock(off: nat)
    requires off % ENTRY == 0
    ensures HiBlock(off, ENTRY) == off / BSIZE + 1
  {
  }

  /** Directory dp holds the map m, each name once. */
  ghost predicate Holds(s: Fs, dp: nat, m: map<seq<Byte>, nat>) {
    DirFile(s, dp) && Unique(EntriesOf(s, dp)) && Bindings(EntriesOf(s, dp)) == m
  }

  ghost predicate AllLive(es: seq<Dirent>) {
    forall k | 0 <= k < |es| :: es[k].inum != 0
  }

  /** No free entry, and no block for one more. */
  ghost predicate NoRoom(s: Fs, dp: nat)
    requires dp < |s.inodes|
  {
    var size := s.inodes[dp].size;
    && AllLive(EntriesOf(s, dp))
    && (size == MAXFILE * BSIZE || ClearBits(s.bitmap) < Needed(s, dp, size / BSIZE, size / BSIZE + 1))
  }

  lemma NothingNeeded(s: Fs, n: nat, off: nat)
    requires Whole(s, n) && off < s.inodes[n].size
    ensures Needed(s, n, off / BSIZE, off / BSIZE + 1) == 0
  {
    var bn := off / BSIZE;
    assert bn < BlocksFor(s.inodes[n].size);
    assert Missing(s, n, bn, bn) == 0;
  }

  /** Where the directory has its blocks, an entry at the free slot fails to be
      written exactly when there is no room. */
  lemma FullIff(s: Fs, dp: nat, off: nat)
    requires DirFile(s, dp) && Whole(s, dp) && FreeSlot(EntriesOf(s, dp), off)
    ensures off <= s.inodes[dp].size
    ensures off == MAXFILE * BSIZE || ClearBits(s.bitmap) < Needed(s, dp, off / BSIZE, off / BSIZE + 1) <==>
      NoRoom(s, dp)
  {
    hide Content, Entries, Mapped, BlocksFor, Needed, ClearBits;
    if off < s.inodes[dp].size {
      NothingNeeded(s, dp, off);
    }
  }

  lemma WholeAt(s: Fs, n: nat)
    requires n < |s.inodes|
    ensures NoHoles(s) ==> Whole(s, n)
  {
  }

  lemma SlotInside(s: Fs, dp: nat, off: nat)
    requires DirFile(s, dp) && FreeSlot(EntriesOf(s, dp), off)
    ensures off <= s.inodes[dp].size
  {
    hide Content, EntryAt;
  }

  /** dirlink adds exactly the new binding, keeps names unique and every other
      file as it was.  In a directory with all its blocks it fails exactly when
      the name is bound and panics exactly when there is no room. */
  method Dirlink(fs: FileSystem, dp: nat, name: seq<Byte>, inum: nat, ghost m: map<seq<Byte>, nat>) returns (r: Link)
    requires fs.Valid() && Holds(fs.Abs(), dp, m) && IsString(name) && 0 < inum < 0x1_0000
    modifies fs`bitmap, fs`blocks, fs`inodes, fs`dinodes, fs`dirty
    ensures r.Bound? ==> Cut(name) in m && OnlyRead(old(fs.Abs()), fs)
    ensures r.Linked? ==> Cut(name) !in m && fs.Valid() && Holds(fs.Abs(), dp, m[Cut(name) := inum])
    ensures r.Linked? ==> OthersKept(old(fs.Abs()), fs.Abs(), dp)
    ensures old(NoHoles(fs.Abs())) && !r.Panics? ==> NoHoles(fs.Abs())
    ensures Whole(old(fs.Abs()), dp) ==>
      && (r.Bound? <==> Cut(name) in m)
      && (r.Panics? <==> Cut(name) !in m && NoRoom(old(fs.Abs()), dp))
  {
    hide Owned, Content, Refilled, Mapped, BlocksFor, Entries, NoHoles, Needed, ClearBits, Unique, Bindings, NoRoom;
    hide Field, NameOf;
    ghost var s := fs.Abs();
    WholeAt(s, dp);
    var ok, ip, at := Dirlookup(fs, dp, name);
    if !ok {
      return Panics;
    }
    FoundBinding(EntriesOf(s, dp), Cut(name), ip, at);
    if ip.Some? {
      return Bound;
    }
    var off;
    ok, off := FindFree(fs, dp, s);
    if !ok {
      return Panics;
    }
    SlotInside(s, dp, off);
    if Whole(s, dp) {
      FullIff(s, dp, off);
    }
    var de := Dirent(inum, Field(name));
    NameOfField(name);
    LinkBinds(EntriesOf(s, dp), off / ENTRY, de);
    ok := WriteEntry(fs, dp, off, de, s);
    r := if ok then Linked else Panics;
  }

  /** isdirempty looks past the first two entries, "." and "..". */
  method IsDirEmpty(fs: FileSystem, dp: nat, ghost s: Fs) returns (ok: bool, r: bool)
    requires OnlyRead(s, fs) && DirFile(s, dp) && HasDots(Content(s, dp))
    modifies fs`bitmap, fs`blocks, fs`inodes, fs`dirty
    ensures ok ==> OnlyRead(s, fs) && (r <==> OnlyTwo(Content(s, dp)))
    ensures Whole(old(fs.Abs()), dp) ==> ok && unchanged(fs)
  {
    hide Owned, Content, Refilled, Mapped, BlocksFor, NameOf, Decode, Unique, Bindings;
    ghost var t, es := fs.Abs(), EntriesOf(s, dp);
    OnlyDots(es);
    Sizes(s, t, dp);
    var off := 2 * ENTRY;
    while off < fs.inodes[dp].size
      invariant dp < |fs.inodes| && fs.inodes[dp].size == |Content(s, dp)| && OnlyRead(s, fs)
      invariant off % ENTRY == 0 && 2 * ENTRY <= off <= |Content(s, dp)| && (Whole(t, dp) ==> unchanged(fs))
      invariant forall k: nat | 2 <= k < off / ENTRY :: es[k].inum == 0
    {
      var de;
      ok, de := ReadEntry(fs, dp, off, s);
      if !ok {
        return ok, false;
      }
      Sizes(s, fs.Abs(), dp);
      if de.inum != 0 {
        return true, false;
      }
      off := off + ENTRY;
    }
    ok, r := true, true;
  }

  datatype Removal = Removed | Refused | Stopped

  /** The directories among the inodes, each as sys_mkdir leaves it. */
  ghost predicate Dirs(s: Fs, dirs: set<nat>) {
    forall n | n in dirs :: DirFile(s, n) && HasDots(Content(s, n))
  }

  /** unlink leaves "." and ".." alone, and a directory that is not empty. */
  ghost predicate Keeps(s: Fs, dirs: set<nat>, m: map<seq<Byte>, nat>, name: seq<Byte>)
    requires Dirs(s, dirs)
  {
    IsDot(name) || name !in m || (m[name] in dirs && !OnlyTwo(Content(s, m[name])))
  }

  method IsDots(name: seq<Byte>) returns (r: bool)
    requires IsString(name)
    ensures r <==> IsDot(Cut(name))
  {
    hide NameOf, Field;
    NameOfField([46]);
    NameOfField([46, 46]);
    var dot := Namecmp(name, Field([46]));
    var dots := Namecmp(name, Field([46, 46]));
    r := dot == 0 || dots == 0;
  }

  /** The checks of unlink; off is the entry to be zeroed. */
  method MayUnlink(fs: FileSystem, dp: nat, name: seq<Byte>, dirs: set<nat>, ghost m: map<seq<Byte>, nat>)
    returns (r: Removal, off: nat)
    requires fs.Valid() && Holds(fs.Abs(), dp, m) && IsString(name) && Dirs(fs.Abs(), dirs)
    modifies fs`bitmap, fs`blocks, fs`inodes, fs`dirty
    ensures !r.Stopped? ==> OnlyRead(old(fs.Abs()), fs)
    ensures r.Refused? ==> Keeps(old(fs.Abs()), dirs, m, Cut(name))
    ensures r.Removed? ==> !Keeps(old(fs.Abs()), dirs, m, Cut(name))
    ensures r.Removed? ==> off % ENTRY == 0 && Live(EntriesOf(old(fs.Abs()), dp), off / ENTRY, Cut(name))
    ensures old(NoHoles(fs.Abs())) ==> !r.Stopped? && unchanged(fs)
  {
    hide Owned, Content, Refilled, Mapped, BlocksFor, Entries, NoHoles, Unique, Bindings, OnlyTwo, HasDots;
    hide NameOf, Live;
    ghost var s := fs.Abs();
    ReadNothing(s);
    off := 0;
    var dot := IsDots(name);
    if dot {
      return Refused, off;
    }
    WholeAt(s, dp);
    var ok, ip;
    ok, ip, off := Dirlookup(fs, dp, name);
    if !ok {
      return Stopped, off;
    }
    FoundBinding(EntriesOf(s, dp), Cut(name), ip, off);
    if ip.None? {
      return Refused, off;
    }
    if ip.value in dirs {
      WholeAt(s, ip.value);
      var empty;
      ok, empty := IsDirEmpty(fs, ip.value, s);
      if !ok {
        return Stopped, off;
      }
      if !empty {
        return Refused, off;
      }
    }
    r := Removed;
  }

  /** unlink removes exactly the binding of the name and keeps every other file
      as it was, or changes nothing; without holes it never panics. */
  method Unlink(fs: FileSystem, dp: nat, name: seq<Byte>, dirs: set<nat>, ghost m: map<seq<Byte>, nat>)
    returns (r: Removal)
    requires fs.Valid() && Holds(fs.Abs(), dp, m) && IsString(name) && Dirs(fs.Abs(), dirs)
    modifies fs`bitmap, fs`blocks, fs`inodes, fs`dinodes, fs`dirty
    ensures r.Refused? ==> Keeps(old(fs.Abs()), dirs, m, Cut(name)) && OnlyRead(old(fs.Abs()), fs)
    ensures r.Removed? ==> !Keeps(old(fs.Abs()), dirs, m, Cut(name)) && fs.Valid()
    ensures r.Removed? ==> Holds(fs.Abs(), dp, m - {Cut(name)}) && OthersKept(old(fs.Abs()), fs.Abs(), dp)
    ensures old(NoHoles(fs.Abs())) ==> !r.Stopped? && NoHoles(fs.Abs())
  {
    hide Owned, Content, Refilled, Mapped, BlocksFor, Entries, NoHoles, Needed, ClearBits, Unique, Bindings, NameOf;
    hide Dirs, Keeps, OthersKept;
    ghost var s := fs.Abs();
    WholeAt(s, dp);
    var off;
    r, off := MayUnlink(fs, dp, name, dirs, m);
    if !r.Removed? {
      return;
    }
    var de := Dirent(0, seq(DIRSIZ, _ => 0));
    EntryInside(s, dp, off, Cut(name));
    UnlinkBinds(EntriesOf(s, dp), off / ENTRY, de);
    if Whole(s, dp) {
      NothingNeeded(s, dp, off);
    }
    var ok := WriteEntry(fs, dp, off, de, s);
    r := if ok then Removed else Stopped;
  }

  lemma EntryInside(s: Fs, dp: nat, off: nat, name: seq<Byte>)
    requires DirFile(s, dp) && off % ENTRY == 0 && Live(EntriesOf(s, dp), off / ENTRY, name)
    ensures off < s.inodes[dp].size
  {
    hide Content, EntryAt, NameOf;
  }

  // ------------------------------------------------------------- any sequence

  datatype DirOp = LinkOp(name: seq<Byte>, inum: nat) | UnlinkOp(name: seq<Byte>)

  ghost predicate GoodOp(op: DirOp) {
    IsString(op.name) && (op.LinkOp? ==> 0 < op.inum < 0x1_0000)
  }

  /** What an operation makes of the map; full holds the directories that are not empty. */
  function Effect(m: map<seq<Byte>, nat>, op: DirOp, full: set<nat>): map<seq<Byte>, nat> {
    var name := Cut(op.name);
    match op
    case LinkOp(_, inum) => if name in m then m else m[name := inum]
    case UnlinkOp(_) => if IsDot(name) || name !in m || m[name] in full then m else m - {name}
  }

  function Effects(m: map<seq<Byte>, nat>, ops: seq<DirOp>, full: set<nat>): map<seq<Byte>, nat> {
    if ops == [] then m else Effect(Effects(m, ops[..|ops| - 1], full), ops[|ops| - 1], full)
  }

  ghost function NotEmpty(s: Fs, dirs: set<nat>): set<nat>
    requires Dirs(s, dirs)
  {
    set n | n in dirs && !OnlyTwo(Content(s, n))
  }

  lemma DirsKept(s: Fs, t: Fs, dp: nat, dirs: set<nat>)
    requires OthersKept(s, t, dp) && Dirs(s, dirs) && dp !in dirs
    ensures Dirs(t, dirs) && NotEmpty(t, dirs) == NotEmpty(s, dirs)
  {
    hide OnlyTwo, HasDots, IsDir, ByteAt;
    forall n | n in dirs ensures DirFile(t, n) && Content(t, n) == Content(s, n) {
      assert |Content(t, n)| == t.inodes[n].size && |Content(s, n)| == s.inodes[n].size;
    }
  }

  lemma HoldsStill(s: Fs, t: Fs, dp: nat, m: map<seq<Byte>, nat>)
    requires Holds(s, dp, m) && Refilled(s, t)
    ensures Holds(t, dp, m) && OthersKept(s, t, dp)
  {
    RefilledDir(s, t, dp);
    RefilledOthers(s, t, dp);
  }

  /** One call of dirlink or unlink on the directory that holds m. */
  method Perform(fs: FileSystem, dp: nat, op: DirOp, dirs: set<nat>, ghost m: map<seq<Byte>, nat>) returns (ok: bool)
    requires fs.Valid() && Holds(fs.Abs(), dp, m) && GoodOp(op) && Dirs(fs.Abs(), dirs) && dp !in dirs
    modifies fs`bitmap, fs`blocks, fs`inodes, fs`dinodes, fs`dirty
    ensures ok ==> fs.Valid() && OthersKept(old(fs.Abs()), fs.Abs(), dp)
    ensures ok ==> Holds(fs.Abs(), dp, Effect(m, op, NotEmpty(old(fs.Abs()), dirs)))
    ensures ok && old(NoHoles(fs.Abs())) ==> NoHoles(fs.Abs())
    ensures !ok && old(NoHoles(fs.Abs())) ==> op.LinkOp? && Cut(op.name) !in m && NoRoom(old(fs.Abs()), dp)
  {
    hide Owned, Content, Refilled, NoHoles, Holds, OthersKept, NoRoom, Mapped, BlocksFor, OnlyTwo, HasDots;
    ghost var s := fs.Abs();
    HoldsDir(s, dp, m);
    WholeAt(s, dp);
    match op
    case LinkOp(name, inum) =>
      var r := Dirlink(fs, dp, name, inum, m);
      if r.Bound? {
        HoldsStill(s, fs.Abs(), dp, m);
      }
      ok := !r.Panics?;
    case UnlinkOp(name) =>
      var r := Unlink(fs, dp, name, dirs, m);
      if r.Refused? {
        HoldsStill(s, fs.Abs(), dp, m);
      }
      ok := !r.Stopped?;
  }

  lemma HoldsDir(s: Fs, dp: nat, m: map<seq<Byte>, nat>)
    requires Holds(s, dp, m)
    ensures dp < |s.inodes|
  {
  }

  lemma KeptTwice(s: Fs, t: Fs, u: Fs, dp: nat)
    requires OthersKept(s, t, dp) && OthersKept(t, u, dp)
    ensures OthersKept(s, u, dp)
  {
  }

  lemma KeptSame(s: Fs, dp: nat)
    ensures OthersKept(s, s, dp)
  {
  }

  /** Any sequence of dirlink and unlink on a directory: names stay unique, the
      directory holds what the operations make of the map one after another,
      and every other file stays.  Without holes only a dirlink with no room
      for its entry stops it. */
  method PerformAll(fs: FileSystem, dp: nat, ops: seq<DirOp>, dirs: set<nat>, ghost m: map<seq<Byte>, nat>)
    returns (done: nat)
    requires fs.Valid() && Holds(fs.Abs(), dp, m) && Dirs(fs.Abs(), dirs) && dp !in dirs
    requires forall i | 0 <= i < |ops| :: GoodOp(ops[i])
    modifies fs`bitmap, fs`blocks, fs`inodes, fs`dinodes, fs`dirty
    ensures done <= |ops|
    ensures done == |ops| ==> fs.Valid() && OthersKept(old(fs.Abs()), fs.Abs(), dp)
    ensures done == |ops| ==> Holds(fs.Abs(), dp, Effects(m, ops, NotEmpty(old(fs.Abs()), dirs)))
    ensures done == |ops| && old(NoHoles(fs.Abs())) ==> NoHoles(fs.Abs())
    ensures done < |ops| && old(NoHoles(fs.Abs())) ==>
      ops[done].LinkOp? && Cut(ops[done].name) !in Effects(m, ops[..done], NotEmpty(old(fs.Abs()), dirs))
  {
    hide Owned, Content, NoHoles, Holds, OthersKept, NoRoom, OnlyTwo, HasDots, Dirs, Effect;
    ghost var s, full := fs.Abs(), NotEmpty(fs.Abs(), dirs);
    KeptSame(s, dp);
    done := 0;
    while done < |ops|
      invariant done <= |ops| && fs.Valid() && OthersKept(s, fs.Abs(), dp)
      invariant Holds(fs.Abs(), dp, Effects(m, ops[..done], full))
      invariant Dirs(fs.Abs(), dirs) && NotEmpty(fs.Abs(), dirs) == full
      invariant NoHoles(s) ==> NoHoles(fs.Abs())
    {
      ghost var t := fs.Abs();
      var ok := Perform(fs, dp, ops[done], dirs, Effects(m, ops[..done], full));
      if !ok {
        return;
      }
      KeptTwice(s, t, fs.Abs(), dp);
      DirsKept(t, fs.Abs(), dp, dirs);
      assert ops[..done + 1][..done] == ops[..done];
      done := done + 1;
    }
    assert ops[..done] == ops;
  }
}
