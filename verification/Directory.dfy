// Directories of fs.c and sysfile.c: 16-byte entries in a file's bytes, seen as
// a finite map from names cut to DIRSIZ bytes to inode numbers.

module Directory {
  import opened Common
  import opened FsModel

  const DIRSIZ: nat := 14
  const ENTRY: nat := 16        // sizeof(struct dirent)

  // ------------------------------------------------------------------- names

  /** A C string without its NUL. */
  ghost predicate IsString(s: seq<Byte>) {
    forall i | 0 <= i < |s| :: s[i] != 0
  }

  function Cut(name: seq<Byte>): seq<Byte> {
    if |name| <= DIRSIZ then name else name[..DIRSIZ]
  }

  /** strncpy into a name field: cut, or padded with NULs. */
  function Field(name: seq<Byte>): (f: seq<Byte>)
    ensures |f| == DIRSIZ
  {
    Cut(name) + seq(DIRSIZ - |Cut(name)|, _ => 0)
  }

  /** The string in a name field: up to the first NUL, or all of it. */
  function NameOf(f: seq<Byte>): (s: seq<Byte>)
    ensures IsString(s) && |s| <= |f| && s == f[..|s|] && (|s| < |f| ==> f[|s|] == 0)
  {
    if f == [] || f[0] == 0 then []
    else
      var rest := NameOf(f[1..]);
      assert f[..|rest| + 1] == [f[0]] + f[1..][..|rest|];
      [f[0]] + rest
  }

  lemma NameOfUnique(f: seq<Byte>, s: seq<Byte>)
    requires IsString(s) && |s| <= |f| && s == f[..|s|] && (|s| < |f| ==> f[|s|] == 0)
    ensures NameOf(f) == s
  {
    var t := NameOf(f);
    assert forall i | 0 <= i < |s| :: f[i] == s[i];
    assert forall i | 0 <= i < |t| :: f[i] == t[i];
  }

  lemma NameOfField(name: seq<Byte>)
    requires IsString(name)
    ensures NameOf(Field(name)) == Cut(name) && IsString(Cut(name))
  {
    NameOfUnique(Field(name), Cut(name));
  }

  function CharAt(s: seq<Byte>, i: nat): Byte { if i < |s| then s[i] else 0 }

  /** namecmp is 0 exactly when the strings agree in their first DIRSIZ bytes. */
  method Namecmp(name: seq<Byte>, f: seq<Byte>) returns (d: int)
    requires IsString(name) && |f| == DIRSIZ
    ensures d == 0 <==> Cut(name) == NameOf(f)
  {
    var i := 0;
    ghost var s := NameOf(f);
    while DIRSIZ - i > 0 && CharAt(name, i) != 0 && CharAt(name, i) == f[i]
      invariant i <= DIRSIZ && i <= |name| && i <= |s| && name[..i] == s[..i]
    {
      assert i < |s|;
      assert name[..i + 1] == name[..i] + [name[i]] && s[..i + 1] == s[..i] + [s[i]];
      i := i + 1;
    }
    if i == DIRSIZ {
      assert Cut(name) == name[..i] && s == s[..i];
      return 0;
    }
    if i == |name| && f[i] == 0 {
      assert Cut(name) == name[..i];
      assert s == s[..i];
    } else {
      assert i < |name| ==> Cut(name)[i] == name[i];
      assert i < |s| ==> s[i] == f[i];
    }
    d := (CharAt(name, i) as int) - (f[i] as int);
  }

  // ----------------------------------------------------------------- entries

  datatype Dirent = Dirent(inum: nat, name: seq<Byte>)

  /** A live entry has a non-zero inode number, which is a ushort on disk. */
  function Decode(b: seq<Byte>): (d: Dirent)
    requires |b| == ENTRY
    ensures d.inum < 0x1_0000 && |d.name| == DIRSIZ
  {
    Dirent((b[0] as int) + 0x100 * (b[1] as int), b[2..])
  }

  function Encode(d: Dirent): (b: seq<Byte>)
    requires d.inum < 0x1_0000 && |d.name| == DIRSIZ
    ensures |b| == ENTRY
  {
    [d.inum % 0x100, d.inum / 0x100] + d.name
  }

  lemma RoundTrip(d: Dirent)
    requires d.inum < 0x1_0000 && |d.name| == DIRSIZ
    ensures Decode(Encode(d)) == d
  {
    assert Encode(d)[2..] == d.name;
  }

  /** The inode number of an entry is the low half of the word it starts with. */
  lemma DirentWord(b: Block, j: nat)
    requires |b| == BSIZE && j % 4 == 0 && j < NINDIRECT
    ensures Decode(b[4 * j..4 * j + ENTRY]).inum == Entry(b, j) % 0x1_0000
  {
    var e := b[4 * j..4 * j + ENTRY];
    assert e[0] == b[4 * j] && e[1] == b[4 * j + 1];
    var low, high: nat := (b[4 * j] as int) + 0x100 * (b[4 * j + 1] as int),
                          (b[4 * j + 2] as int) + 0x100 * (b[4 * j + 3] as int);
    assert Entry(b, j) == low + 0x1_0000 * high && low < 0x1_0000;
  }

  ghost predicate IsDir(c: seq<Byte>) { |c| % ENTRY == 0 }

  function EntryAt(c: seq<Byte>, k: nat): (d: Dirent)
    requires (k + 1) * ENTRY <= |c|
    ensures d.inum < 0x1_0000 && |d.name| == DIRSIZ
  {
    Decode(c[k * ENTRY..(k + 1) * ENTRY])
  }

  /** The entries of a directory file. */
  function Entries(c: seq<Byte>): (es: seq<Dirent>)
    ensures |es| == |c| / ENTRY
    ensures forall k | 0 <= k < |es| :: es[k] == EntryAt(c, k)
  {
    seq(|c| / ENTRY, k requires 0 <= k < |c| / ENTRY => EntryAt(c, k))
  }

  function Put(es: seq<Dirent>, k: nat, d: Dirent): seq<Dirent>
    requires k <= |es|
  {
    if k < |es| then es[k := d] else es + [d]
  }

  /** Writing one entry changes that entry and no other. */
  lemma PutEntry(c: seq<Byte>, k: nat, d: Dirent)
    requires IsDir(c) && k <= |c| / ENTRY && d.inum < 0x1_0000 && |d.name| == DIRSIZ
    ensures k * ENTRY <= |c| && IsDir(Splice(c, k * ENTRY, Encode(d)))
    ensures Entries(Splice(c, k * ENTRY, Encode(d))) == Put(Entries(c), k, d)
  {
    RoundTrip(d);
    var c', off := Splice(c, k * ENTRY, Encode(d)), k * ENTRY;
    hide Encode, Decode;
    var es, es' := Entries(c), Entries(c');
    assert |c'| == if k < |es| then |c| else |c| + ENTRY;
    forall j | 0 <= j < |es'| ensures es'[j] == Put(es, k, d)[j] {
      if j == k {
        assert c'[off..off + ENTRY] == Encode(d);
      } else {
        assert c'[j * ENTRY..(j + 1) * ENTRY] == c[j * ENTRY..(j + 1) * ENTRY];
      }
    }
  }

  // --------------------------------------------------------------------- map

  ghost predicate Live(es: seq<Dirent>, k: nat, name: seq<Byte>) {
    k < |es| && es[k].inum != 0 && NameOf(es[k].name) == name
  }

  /** At most one live entry per name. */
  ghost predicate Unique(es: seq<Dirent>) {
    forall j: nat, k: nat | j < k < |es| && es[j].inum != 0 && es[k].inum != 0 ::
      NameOf(es[j].name) != NameOf(es[k].name)
  }

  function Bindings(es: seq<Dirent>): map<seq<Byte>, nat> {
    if es == [] then map[]
    else
      var m := Bindings(es[..|es| - 1]);
      var d := es[|es| - 1];
      if d.inum != 0 then m[NameOf(d.name) := d.inum] else m
  }

  /** The map holds exactly the live entries. */
  lemma {:induction false} BindingsAre(es: seq<Dirent>, name: seq<Byte>)
    requires Unique(es)
    ensures name in Bindings(es) <==> exists k: nat :: Live(es, k, name)
    ensures forall k: nat | Live(es, k, name) :: Bindings(es)[name] == es[k].inum
  {
    if es != [] {
      var init, n := es[..|es| - 1], |es| - 1;
      BindingsAre(init, name);
      assert forall k: nat | k < n :: Live(es, k, name) <==> Live(init, k, name);
      if Live(es, n, name) {
        assert forall k: nat | k < n :: !Live(es, k, name);
      }
      if k: nat :| Live(es, k, name) {
        assert k < n ==> Live(init, k, name);
      }
      if k: nat :| Live(init, k, name) {
        assert Live(es, k, name);
      }
    }
  }

  lemma LinkUnique(es: seq<Dirent>, k: nat, d: Dirent)
    requires Unique(es) && k <= |es| && d.inum != 0 && forall j: nat :: !Live(es, j, NameOf(d.name))
    ensures Unique(Put(es, k, d))
  {
    hide NameOf;
    var es', name := Put(es, k, d), NameOf(d.name);
    forall i: nat, j: nat | i < j < |es'| && es'[i].inum != 0 && es'[j].inum != 0
      ensures NameOf(es'[i].name) != NameOf(es'[j].name)
    {
      assert i != k ==> es'[i] == es[i] && !Live(es, i, name);
      assert j != k ==> es'[j] == es[j] && !Live(es, j, name);
    }
  }

  /** A new entry in a dead slot, or at the end, adds one binding. */
  lemma LinkBinds(es: seq<Dirent>, k: nat, d: Dirent)
    requires Unique(es) && k <= |es| && (k < |es| ==> es[k].inum == 0) && d.inum != 0 && NameOf(d.name) !in Bindings(es)
    ensures Unique(Put(es, k, d)) && Bindings(Put(es, k, d)) == Bindings(es)[NameOf(d.name) := d.inum]
  {
    hide Unique, Bindings, NameOf;
    var es', name := Put(es, k, d), NameOf(d.name);
    BindingsAre(es, name);
    LinkUnique(es, k, d);
    var m, m' := Bindings(es)[name := d.inum], Bindings(es');
    forall x: seq<Byte> ensures (x in m <==> x in m') && (x in m ==> m[x] == m'[x]) {
      LinkOne(es, k, d, x);
    }
    assert m == m';
  }

  lemma LinkOne(es: seq<Dirent>, k: nat, d: Dirent, x: seq<Byte>)
    requires k <= |es| && Unique(es) && Unique(Put(es, k, d)) && (k < |es| ==> es[k].inum == 0) && d.inum != 0
    requires NameOf(d.name) !in Bindings(es)
    ensures var m, m' := Bindings(es)[NameOf(d.name) := d.inum], Bindings(Put(es, k, d));
      (x in m <==> x in m') && (x in m ==> m[x] == m'[x])
  {
    hide Unique, Bindings, NameOf;
    var es' := Put(es, k, d);
    BindingsAre(es, x);
    BindingsAre(es', x);
    SameElsewhere(es, es', k, x);
    if x == NameOf(d.name) {
      assert Live(es', k, x);
    } else if j: nat :| Live(es, j, x) {
      assert Live(es', j, x);
    }
  }

  lemma SameElsewhere(es: seq<Dirent>, es': seq<Dirent>, k: nat, x: seq<Byte>)
    requires k <= |es| && k < |es'| && (if k < |es| then es' == es[k := es'[k]] else es' == es + [es'[k]])
    ensures forall j: nat | j != k :: Live(es', j, x) <==> Live(es, j, x)
    ensures forall j: nat | j != k && Live(es', j, x) :: es'[j] == es[j]
  {
    assert forall j: nat | j < |es| && j != k :: es'[j] == es[j];
  }

  /** A zeroed entry removes its binding and no other. */
  lemma UnlinkBinds(es: seq<Dirent>, k: nat, d: Dirent)
    requires Unique(es) && k < |es| && es[k].inum != 0 && d.inum == 0
    ensures Unique(es[k := d]) && Bindings(es[k := d]) == Bindings(es) - {NameOf(es[k].name)}
  {
    var es', name := es[k := d], NameOf(es[k].name);
    assert forall j: nat | j != k :: !Live(es, j, name);
    assert Live(es, k, name);
    assert Unique(es');
    hide Unique, Bindings;
    var m, m' := Bindings(es) - {name}, Bindings(es');
    forall x: seq<Byte> ensures (x in m <==> x in m') && (x in m ==> m[x] == m'[x]) {
      BindingsAre(es, x);
      BindingsAre(es', x);
      SameElsewhere(es, es', k, x);
    }
    assert m == m';
  }

  // -------------------------------------------------------------- operations

  /** r and off are the first live entry with this name, None when there is none. */
  ghost predicate Found(es: seq<Dirent>, name: seq<Byte>, r: Option<nat>, off: nat) {
    && (r.None? ==> forall k: nat :: !Live(es, k, name))
    && (r.Some? ==> off % ENTRY == 0 && Live(es, off / ENTRY, name) && r.value == es[off / ENTRY].inum)
    && (r.Some? ==> forall k: nat | k < off / ENTRY :: !Live(es, k, name))
  }

  /** With unique names the first live entry is the binding of the name. */
  lemma FoundBinding(es: seq<Dirent>, name: seq<Byte>, r: Option<nat>, off: nat)
    requires Unique(es) && Found(es, name, r, off)
    ensures r == if name in Bindings(es) then Some(Bindings(es)[name]) else None
  {
    hide Unique, Bindings, NameOf;
    BindingsAre(es, name);
  }

  /** dirlookup: the first live entry with this name, which is the binding of
      the name when names are unique. */
  method Dirlookup(c: seq<Byte>, name: seq<Byte>) returns (r: Option<nat>, off: nat)
    requires IsDir(c) && IsString(name)
    ensures Found(Entries(c), Cut(name), r, off)
    ensures Unique(Entries(c)) ==>
      r == if Cut(name) in Bindings(Entries(c)) then Some(Bindings(Entries(c))[Cut(name)]) else None
  {
    hide Unique, Bindings, Decode, NameOf, EntryAt, Entries;
    ghost var es := Entries(c);
    if Unique(es) {
      BindingsAre(es, Cut(name));
    }
    off := 0;
    while off < |c|
      invariant off % ENTRY == 0 && off <= |c|
      invariant forall k: nat | k < off / ENTRY :: !Live(es, k, Cut(name))
    {
      ghost var k := off / ENTRY;
      var de := EntryAt(c, off / ENTRY);
      assert de == es[k];
      if de.inum != 0 {
        var d := Namecmp(name, de.name);
        if d == 0 {
          assert Live(es, k, Cut(name));
          return Some(de.inum), off;
        }
      }
      assert !Live(es, k, Cut(name));
      off := off + ENTRY;
      assert off / ENTRY == k + 1;
    }
    assert forall k: nat :: !Live(es, k, Cut(name));
    r := None;
  }

  predicate IsDot(name: seq<Byte>) { name == [46] || name == [46, 46] }

  /** A directory as sys_mkdir leaves it: two live entries first. */
  ghost predicate HasDots(c: seq<Byte>) {
    IsDir(c) && Unique(Entries(c)) && |c| >= 2 * ENTRY && EntryAt(c, 0).inum != 0 && EntryAt(c, 1).inum != 0
  }

  ghost predicate OnlyTwo(c: seq<Byte>)
    requires HasDots(c)
  {
    Bindings(Entries(c)).Keys == {NameOf(EntryAt(c, 0).name), NameOf(EntryAt(c, 1).name)}
  }

  lemma OnlyDots(es: seq<Dirent>)
    requires Unique(es) && |es| >= 2 && es[0].inum != 0 && es[1].inum != 0
    ensures Bindings(es).Keys == {NameOf(es[0].name), NameOf(es[1].name)} <==>
      forall k: nat | 2 <= k < |es| :: es[k].inum == 0
  {
    hide Unique, Bindings, NameOf, Live;
    if k: nat :| 2 <= k < |es| && es[k].inum != 0 {
      ThirdName(es, k);
      LiveBound(es, k);
    } else {
      var a, b := NameOf(es[0].name), NameOf(es[1].name);
      forall name: seq<Byte> ensures name in Bindings(es) <==> name == a || name == b {
        OneOfTwo(es, name);
      }
    }
  }

  lemma LiveBound(es: seq<Dirent>, k: nat)
    requires Unique(es) && k < |es| && es[k].inum != 0
    ensures NameOf(es[k].name) in Bindings(es)
  {
    hide Unique, Bindings, NameOf;
    BindingsAre(es, NameOf(es[k].name));
    assert Live(es, k, NameOf(es[k].name));
  }

  lemma OneOfTwo(es: seq<Dirent>, name: seq<Byte>)
    requires Unique(es) && |es| >= 2 && es[0].inum != 0 && es[1].inum != 0
    requires forall k: nat | 2 <= k < |es| :: es[k].inum == 0
    ensures name in Bindings(es) <==> name == NameOf(es[0].name) || name == NameOf(es[1].name)
  {
    hide Unique, Bindings, NameOf;
    BindingsAre(es, name);
    LiveBound(es, 0);
    LiveBound(es, 1);
    assert forall k: nat | Live(es, k, name) :: k < 2;
  }

  lemma ThirdName(es: seq<Dirent>, k: nat)
    requires Unique(es) && 2 <= k < |es| && es[0].inum != 0 && es[1].inum != 0 && es[k].inum != 0
    ensures NameOf(es[k].name) != NameOf(es[0].name) && NameOf(es[k].name) != NameOf(es[1].name)
  {
  }
}
