// Path names of fs.c: skipelem and namex, against a fold of directory lookup
// over the slash-separated components.

module Path {
  import opened Common
  import opened FsModel
  import opened Directory

  const SLASH: Byte := 47

  // -------------------------------------------------------------- components

  /** The length of the leading run of bytes other than '/'. */
  function Run(path: seq<Byte>): (n: nat)
    ensures n <= |path| && (forall i | 0 <= i < n :: path[i] != SLASH) && (n < |path| ==> path[n] == SLASH)
  {
    if path == [] || path[0] == SLASH then 0 else 1 + Run(path[1..])
  }

  /** The non-empty strings between slashes, in order. */
  function Components(path: seq<Byte>): seq<seq<Byte>>
    decreases |path|
  {
    if path == [] then []
    else if path[0] == SLASH then Components(path[1..])
    else [path[..Run(path)]] + Components(path[Run(path)..])
  }

  lemma RunOf(w: seq<Byte>, rest: seq<Byte>)
    requires (forall i | 0 <= i < |w| :: w[i] != SLASH) && (rest != [] ==> rest[0] == SLASH)
    ensures Run(w + rest) == |w|
  {
    var p := w + rest;
    assert forall i | 0 <= i < |w| :: p[i] == w[i];
    assert rest != [] ==> p[|w|] == rest[0];
  }

  /** A slash separates: the components on both sides, one after the other. */
  lemma {:induction false} ComponentsSlash(a: seq<Byte>, b: seq<Byte>)
    ensures Components(a + [SLASH] + b) == Components(a) + Components(b)
    decreases |a|
  {
    var p := a + [SLASH] + b;
    if a == [] {
      assert p[1..] == b;
    } else if a[0] == SLASH {
      assert p[1..] == a[1..] + [SLASH] + b;
      ComponentsSlash(a[1..], b);
    } else {
      var n := Run(a);
      RunOf(a[..n], a[n..] + [SLASH] + b);
      assert a[..n] + (a[n..] + [SLASH] + b) == p;
      assert p[..n] == a[..n] && p[n..] == a[n..] + [SLASH] + b;
      ComponentsSlash(a[n..], b);
    }
  }

  /** A string without slashes is one component, unless it is empty. */
  lemma ComponentsWord(w: seq<Byte>)
    requires forall i | 0 <= i < |w| :: w[i] != SLASH
    ensures Components(w) == if w == [] then [] else [w]
  {
    if w != [] {
      RunOf(w, []);
      assert w + [] == w && w[|w|..] == [];
    }
  }

  lemma {:induction false} Slashes(path: seq<Byte>, k: nat)
    requires k <= |path| && forall i | 0 <= i < k :: path[i] == SLASH
    ensures Components(path) == Components(path[k..])
  {
    if k > 0 {
      Slashes(path[1..], k - 1);
      assert path[1..][k - 1..] == path[k..];
    } else {
      assert path[0..] == path;
    }
  }

  // ---------------------------------------------------------------- skipelem

  method SkipSlashes(path: seq<Byte>, i: nat) returns (j: nat)
    requires i <= |path|
    ensures i <= j <= |path| && (j < |path| ==> path[j] != SLASH)
    ensures Components(path[j..]) == Components(path[i..])
  {
    hide Components;
    j := i;
    while j < |path| && path[j] == SLASH
      invariant i <= j <= |path| && forall k | i <= k < j :: path[k] == SLASH
    {
      j := j + 1;
    }
    Slashes(path[i..], j - i);
    assert path[i..][j - i..] == path[j..];
  }

  method SkipWord(path: seq<Byte>, s: nat) returns (j: nat)
    requires s < |path| && path[s] != SLASH
    ensures s < j <= |path| && Components(path[s..]) == [path[s..j]] + Components(path[j..])
  {
    hide Components;
    j := s;
    while j < |path| && path[j] != SLASH
      invariant s <= j <= |path| && forall k | s <= k < j :: path[k] != SLASH
    {
      j := j + 1;
    }
    FirstWord(path[s..], j - s);
    assert path[s..][..j - s] == path[s..j] && path[s..][j - s..] == path[j..];
  }

  lemma FirstWord(path: seq<Byte>, n: nat)
    requires 0 < n <= |path| && (forall i | 0 <= i < n :: path[i] != SLASH) && (n < |path| ==> path[n] == SLASH)
    ensures Components(path) == [path[..n]] + Components(path[n..])
  {
    RunOf(path[..n], path[n..]);
    assert path[..n] + path[n..] == path;
  }

  /** The next element from offset i, cut to DIRSIZ bytes, and the offset behind
      it and its slashes; None when only slashes are left. */
  method Skipelem(path: seq<Byte>, i: nat) returns (r: Option<seq<Byte>>, j: nat)
    requires i <= |path|
    ensures i <= j <= |path|
    ensures r.None? <==> Components(path[i..]) == []
    ensures r.Some? ==>
      i < j && Components(path[j..]) == Components(path[i..])[1..] && r.value == Cut(Components(path[i..])[0])
    ensures r.Some? && j < |path| ==> path[j] != SLASH
    ensures r.Some? && IsString(path) ==> IsString(r.value)
  {
    hide Components;
    var s := SkipSlashes(path, i);
    NoMore(path, s);
    if s == |path| {
      return None, s;
    }
    var e := SkipWord(path, s);
    var name := if e - s >= DIRSIZ then path[s..s + DIRSIZ] else path[s..e];
    assert name == Cut(path[s..e]);
    j := SkipSlashes(path, e);
    r := Some(name);
  }

  // ------------------------------------------------------------------- namex

  /** The directories, by what they bind. */
  type Tree = map<nat, map<seq<Byte>, nat>>

  /** The directories among the inodes of a file system, read as finite maps. */
  function TreeOf(s: Fs, dirs: set<nat>): Tree {
    map n | n in dirs && n < |s.inodes| :: Bindings(Entries(Content(s, n)))
  }

  /** Every directory is a whole number of entries with unique names. */
  ghost predicate GoodDirs(s: Fs, dirs: set<nat>) {
    forall n | n in dirs :: n < |s.inodes| && IsDir(Content(s, n)) && Unique(Entries(Content(s, n)))
  }

  function Lookup(t: Tree, ip: nat, name: seq<Byte>): Option<nat> {
    if ip in t && Cut(name) in t[ip] then Some(t[ip][Cut(name)]) else None
  }

  /** Lookup folded over the components. */
  function Resolve(t: Tree, ip: nat, parts: seq<seq<Byte>>): Option<nat>
    decreases parts
  {
    if parts == [] then Some(ip)
    else
      match Lookup(t, ip, parts[0])
      case None => None
      case Some(next) => Resolve(t, next, parts[1..])
  }

  /** The directory that holds the last component. */
  function ResolveParent(t: Tree, ip: nat, parts: seq<seq<Byte>>): Option<nat> {
    if parts == [] then None
    else
      match Resolve(t, ip, parts[..|parts| - 1])
      case None => None
      case Some(d) => if d in t then Some(d) else None
  }

  lemma {:induction false} ResolveLast(t: Tree, ip: nat, parts: seq<seq<Byte>>)
    requires |parts| > 1
    ensures ResolveParent(t, ip, parts) ==
      if Lookup(t, ip, parts[0]).None? then None else ResolveParent(t, Lookup(t, ip, parts[0]).value, parts[1..])
  {
    assert parts[..|parts| - 1][1..] == parts[1..][..|parts| - 2];
  }

  /** dirlookup in directory ip is lookup in the tree. */
  method LookupIn(s: Fs, dirs: set<nat>, ip: nat, name: seq<Byte>) returns (r: Option<nat>)
    requires GoodDirs(s, dirs) && ip in dirs && IsString(name)
    ensures r == Lookup(TreeOf(s, dirs), ip, name)
  {
    hide Content, Entries, Unique, Bindings;
    var off;
    r, off := Dirlookup(Content(s, ip), name);
  }

  /** namex: the whole path, or all but its last component, from directory to
      directory of the file system. */
  method Namex(s: Fs, dirs: set<nat>, root: nat, cwd: nat, path: seq<Byte>, parent: bool)
    returns (r: Option<nat>, name: seq<Byte>)
    requires GoodDirs(s, dirs) && IsString(path)
    ensures var start := if path != [] && path[0] == SLASH then root else cwd;
      var t := TreeOf(s, dirs);
      r == if parent then ResolveParent(t, start, Components(path)) else Resolve(t, start, Components(path))
    ensures parent && r.Some? ==> Components(path) != [] && name == Cut(Components(path)[|Components(path)| - 1])
  {
    hide Content, Entries, Unique, Bindings, Components, Resolve, ResolveParent, TreeOf;
    var ip: nat := if path != [] && path[0] == SLASH then root else cwd;
    ghost var t, start, all := TreeOf(s, dirs), ip, Components(path);
    var at := 0;
    name := [];
    assert path[0..] == path;
    while true
      invariant at <= |path|
      invariant if parent then ResolveParent(t, start, all) == ResolveParent(t, ip, Components(path[at..]))
                else Resolve(t, start, all) == Resolve(t, ip, Components(path[at..]))
      invariant |Components(path[at..])| <= |all| && all[|all| - |Components(path[at..])|..] == Components(path[at..])
      decreases |path| - at
    {
      ghost var parts := Components(path[at..]);
      var elem, next := Skipelem(path, at);
      if elem.None? {
        break;
      }
      name := elem.value;
      InTree(s, dirs, ip);
      if ip !in dirs {
        NotADir(t, ip, parts);
        return None, name;
      }
      NoMore(path, next);
      if parent && next == |path| {
        LastPart(t, ip, parts);
        return Some(ip), name;
      }
      var found := LookupIn(s, dirs, ip, name);
      OneStep(t, ip, parts);
      if found.None? {
        return None, name;
      }
      ip := found.value;
      at := next;
    }
    AtEnd(t, ip);
    if parent {
      return None, name;
    }
    r := Some(ip);
  }

  lemma InTree(s: Fs, dirs: set<nat>, ip: nat)
    requires GoodDirs(s, dirs)
    ensures ip in TreeOf(s, dirs) <==> ip in dirs
  {
    hide Content, Entries, Unique, Bindings;
  }

  lemma AtEnd(t: Tree, ip: nat)
    ensures Resolve(t, ip, []) == Some(ip) && ResolveParent(t, ip, []) == None
  {
  }

  lemma LastPart(t: Tree, ip: nat, parts: seq<seq<Byte>>)
    requires |parts| == 1 && ip in t
    ensures ResolveParent(t, ip, parts) == Some(ip)
  {
    assert parts[..0] == [];
  }

  /** One turn of namex: a component that is cut to DIRSIZ looks up the same. */
  lemma OneStep(t: Tree, ip: nat, parts: seq<seq<Byte>>)
    requires parts != []
    ensures Lookup(t, ip, Cut(parts[0])) == Lookup(t, ip, parts[0])
    ensures Resolve(t, ip, parts) ==
      if Lookup(t, ip, parts[0]).None? then None else Resolve(t, Lookup(t, ip, parts[0]).value, parts[1..])
    ensures |parts| > 1 ==>
      ResolveParent(t, ip, parts)
      == if Lookup(t, ip, parts[0]).None? then None else ResolveParent(t, Lookup(t, ip, parts[0]).value, parts[1..])
  {
    if |parts| > 1 {
      ResolveLast(t, ip, parts);
    }
  }

  lemma NotADir(t: Tree, ip: nat, parts: seq<seq<Byte>>)
    requires parts != [] && ip !in t
    ensures Resolve(t, ip, parts) == None && ResolveParent(t, ip, parts) == None
  {
  }

  /** Past the slashes, no components are left exactly at the end of the path. */
  lemma NoMore(path: seq<Byte>, j: nat)
    requires j <= |path| && (j < |path| ==> path[j] != SLASH)
    ensures Components(path[j..]) == [] <==> j == |path|
  {
  }
}
