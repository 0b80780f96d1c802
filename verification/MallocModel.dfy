// The free list of umalloc.c on values.  Addresses count header-sized units.

module MallocModel {
  import opened Common

  /** A block: its header's address and its size, header included. */
  datatype Blk = Blk(start: nat, size: nat)
  {
    function End(): nat { start + size }

    predicate Has(u: nat) { start <= u < start + size }

    /** No unit in common, and no unit of one is the header of the other. */
    predicate Clear(b: Blk) { End() <= b.start || b.End() <= start }
  }

  // ------------------------------------------------------------ free list

  /** Ascending addresses, and a gap between any two blocks. */
  ghost predicate Ordered(fs: seq<Blk>) {
    forall i, j | 0 <= i < j < |fs| :: fs[i].End() < fs[j].start
  }

  /** base, of size 0, comes first; every other block is not empty. */
  ghost predicate Based(fs: seq<Blk>, base: nat) {
    && fs != [] && fs[0] == Blk(base, 0)
    && forall i | 0 < i < |fs| :: fs[i].size >= 1
  }

  function Next(fs: seq<Blk>, i: nat): nat
    requires i < |fs|
  {
    if i + 1 < |fs| then fs[i + 1].start else fs[0].start
  }

  /** The headers in memory form one circle through the blocks, in order. */
  ghost predicate Linked(ptr: map<nat, nat>, size: map<nat, nat>, fs: seq<Blk>) {
    forall i | 0 <= i < |fs| ::
      && fs[i].start in ptr && ptr[fs[i].start] == Next(fs, i)
      && fs[i].start in size && size[fs[i].start] == fs[i].size
  }

  ghost predicate InFree(fs: seq<Blk>, u: nat) {
    exists i | 0 <= i < |fs| :: fs[i].Has(u)
  }

  // ------------------------------------------------------------ live blocks

  ghost predicate InLive(live: map<nat, nat>, u: nat) {
    exists a | a in live :: Blk(a, live[a]).Has(u)
  }

  ghost predicate LiveOk(size: map<nat, nat>, live: map<nat, nat>, base: nat) {
    && (forall a | a in live :: a in size && size[a] == live[a] && live[a] >= 1 && a > base)
    && (forall a, b | a in live && b in live && a != b :: Blk(a, live[a]).Clear(Blk(b, live[b])))
  }

  /** A block that is clear of every free block. */
  ghost predicate Apart(fs: seq<Blk>, b: Blk) {
    forall i | 0 <= i < |fs| :: fs[i].Clear(b)
  }

  ghost predicate Disjoint(fs: seq<Blk>, live: map<nat, nat>) {
    forall a | a in live :: Apart(fs, Blk(a, live[a]))
  }

  /** Every unit obtained from the kernel is in a free or a live block, and no other unit is. */
  ghost predicate Cover(fs: seq<Blk>, live: map<nat, nat>, owned: set<nat>) {
    forall u: nat :: u in owned <==> InFree(fs, u) || InLive(live, u)
  }

  // ------------------------------------------------------------------- free

  /** Where a block goes: behind the last free block below it. */
  ghost predicate Goes(fs: seq<Blk>, k: nat, b: Blk) {
    k < |fs| && fs[k].start < b.start && (k + 1 < |fs| ==> b.start < fs[k + 1].start)
  }

  ghost function Spot(fs: seq<Blk>, b: Blk, base: nat): (k: nat)
    requires Ordered(fs) && Based(fs, base) && base < b.start && Apart(fs, b) && b.size >= 1
    ensures Goes(fs, k, b)
  {
    var n := |fs| - 1;
    if fs[n].start < b.start then n
    else
      assert fs[n].Clear(b);
      Spot(fs[..n], b, base)
  }

  // fs[lo..hi] gives way to one block.
  function Replace(fs: seq<Blk>, lo: nat, c: Blk, hi: nat): seq<Blk>
    requires lo <= hi <= |fs|
  {
    fs[..lo] + [c] + fs[hi..]
  }

  lemma ReplaceOrdered(fs: seq<Blk>, lo: nat, c: Blk, hi: nat)
    requires Ordered(fs) && lo <= hi <= |fs|
    requires forall i | 0 <= i < lo :: fs[i].End() < c.start
    requires forall i | hi <= i < |fs| :: c.End() < fs[i].start
    ensures Ordered(Replace(fs, lo, c, hi))
  {
    var gs := Replace(fs, lo, c, hi);
    forall i, j | 0 <= i < j < |gs| ensures gs[i].End() < gs[j].start {
      assert i < lo ==> gs[i] == fs[i];
      assert i > lo ==> gs[i] == fs[hi + i - lo - 1];
      assert j < lo ==> gs[j] == fs[j];
      assert j > lo ==> gs[j] == fs[hi + j - lo - 1];
    }
  }

  lemma InFreeSplit(fs: seq<Blk>, k: nat, u: nat)
    requires k <= |fs|
    ensures InFree(fs, u) <==> InFree(fs[..k], u) || InFree(fs[k..], u)
  {
    if InFree(fs, u) {
      var i :| 0 <= i < |fs| && fs[i].Has(u);
      assert if i < k then fs[..k][i].Has(u) else fs[k..][i - k].Has(u);
    }
  }

  lemma ReplaceUnits(fs: seq<Blk>, lo: nat, c: Blk, hi: nat, u: nat)
    requires lo <= hi <= |fs|
    ensures InFree(fs, u) <==> InFree(fs[..lo], u) || InFree(fs[lo..hi], u) || InFree(fs[hi..], u)
    ensures InFree(Replace(fs, lo, c, hi), u) <==> InFree(fs[..lo], u) || c.Has(u) || InFree(fs[hi..], u)
  {
    InFreeSplit(fs, lo, u);
    InFreeSplit(fs[lo..], hi - lo, u);
    assert fs[lo..][..hi - lo] == fs[lo..hi] && fs[lo..][hi - lo..] == fs[hi..];
    var gs := Replace(fs, lo, c, hi);
    InFreeSplit(gs, lo, u);
    InFreeSplit(gs[lo..], 1, u);
    assert gs[..lo] == fs[..lo] && gs[lo..][..1] == [c] && gs[lo..][1..] == fs[hi..];
    assert [c][0].Has(u) <==> InFree([c], u);
  }

  /** What the block given back behind block k becomes: joined with the free
      blocks it touches, fs[lo..hi]. */
  datatype Cut = Cut(lo: nat, blk: Blk, hi: nat)

  function JoinUp(fs: seq<Blk>, k: nat, b: Blk): Cut
    requires k < |fs|
  {
    if k + 1 < |fs| && b.End() == fs[k + 1].start then Cut(k + 1, Blk(b.start, b.size + fs[k + 1].size), k + 2)
    else Cut(k + 1, b, k + 1)
  }

  function Join(fs: seq<Blk>, k: nat, b: Blk): Cut
    requires k < |fs|
  {
    var c := JoinUp(fs, k, b);
    if fs[k].End() == b.start then Cut(k, Blk(fs[k].start, fs[k].size + c.blk.size), c.hi) else c
  }

  /** The free list with b given back. */
  function GiveBack(fs: seq<Blk>, k: nat, b: Blk): seq<Blk>
    requires k < |fs|
  {
    var c := Join(fs, k, b);
    Replace(fs, c.lo, c.blk, c.hi)
  }

  /** The joined block is exactly b and the free blocks it replaces, and is clear of the others. */
  lemma JoinFacts(fs: seq<Blk>, k: nat, b: Blk)
    requires Ordered(fs) && Goes(fs, k, b) && Apart(fs, b) && b.size >= 1
    ensures var c := Join(fs, k, b);
      && c.lo <= c.hi <= |fs| && c.blk.size >= b.size && c.blk.start <= b.start
      && (forall i | 0 <= i < c.lo :: fs[i].End() < c.blk.start)
      && (forall i | c.hi <= i < |fs| :: c.blk.End() < fs[i].start)
  {
    assert fs[k].Clear(b);
    assert forall i | 0 <= i < k :: fs[i].End() < fs[k].start;
    if k + 1 < |fs| {
      assert fs[k + 1].Clear(b);
      assert forall i | k + 1 < i < |fs| :: fs[k + 1].End() < fs[i].start;
    }
  }

  lemma JoinUnits(fs: seq<Blk>, k: nat, b: Blk, u: nat)
    requires Ordered(fs) && Goes(fs, k, b) && Apart(fs, b) && b.size >= 1
    ensures var c := Join(fs, k, b);
      c.lo <= c.hi <= |fs| && (c.blk.Has(u) <==> b.Has(u) || InFree(fs[c.lo..c.hi], u))
  {
    var c := Join(fs, k, b);
    var mid := fs[c.lo..c.hi];
    assert c.lo <= k < c.hi ==> mid[k - c.lo] == fs[k];
    assert c.hi == k + 2 ==> mid[k + 1 - c.lo] == fs[k + 1];
    assert forall i | 0 <= i < |mid| :: mid[i] == fs[c.lo + i] && k <= c.lo + i <= k + 1;
    assert c.hi == k + 2 ==> (mid[k + 1 - c.lo].Has(u) <==> b.End() <= u < b.End() + fs[k + 1].size);
    assert c.lo == k ==> (mid[0].Has(u) <==> fs[k].start <= u < b.start);
  }

  lemma GiveBackOrdered(fs: seq<Blk>, k: nat, b: Blk)
    requires Ordered(fs) && Goes(fs, k, b) && Apart(fs, b) && b.size >= 1
    ensures Ordered(GiveBack(fs, k, b))
  {
    JoinFacts(fs, k, b);
    var c := Join(fs, k, b);
    hide Join, Ordered;
    ReplaceOrdered(fs, c.lo, c.blk, c.hi);
  }

  lemma GiveBackBased(fs: seq<Blk>, k: nat, b: Blk, base: nat)
    requires Ordered(fs) && Based(fs, base) && Goes(fs, k, b) && Apart(fs, b) && b.size >= 1 && base < b.start
    ensures Based(GiveBack(fs, k, b), base)
  {
    hide Ordered;
    JoinFacts(fs, k, b);
    var c := Join(fs, k, b);
    var gs := GiveBack(fs, k, b);
    assert k == 0 ==> fs[k].End() == base;
    forall i | 0 < i < |gs| ensures gs[i].size >= 1 {
      assert i < c.lo ==> gs[i] == fs[i];
      assert i > c.lo ==> gs[i] == fs[c.hi + i - c.lo - 1];
    }
  }

  /** Giving a block back adds exactly its units to the free ones. */
  lemma GiveBackUnits(fs: seq<Blk>, k: nat, b: Blk, u: nat)
    requires Ordered(fs) && Goes(fs, k, b) && Apart(fs, b) && b.size >= 1
    ensures InFree(GiveBack(fs, k, b), u) <==> InFree(fs, u) || b.Has(u)
  {
    hide Join, Ordered, InFree, Replace;
    JoinUnits(fs, k, b, u);
    var c := Join(fs, k, b);
    ReplaceUnits(fs, c.lo, c.blk, c.hi, u);
  }

  /** The next pointer of a block in front of fs[hi]. */
  function After(fs: seq<Blk>, hi: nat): nat
    requires fs != []
  {
    if hi < |fs| then fs[hi].start else fs[0].start
  }

  /** Headers that agree with the old list outside fs[lo..hi], and lead into and out of c. */
  lemma LinkedReplace(ptr: map<nat, nat>, size: map<nat, nat>, ptr': map<nat, nat>, size': map<nat, nat>,
                      fs: seq<Blk>, lo: nat, c: Blk, hi: nat)
    requires Linked(ptr, size, fs) && 0 < lo <= hi <= |fs|
    requires ptr.Keys <= ptr'.Keys && size.Keys <= size'.Keys && c.start in ptr' && c.start in size'
    requires forall i | 0 <= i < |fs| && !(lo <= i < hi) :: size'[fs[i].start] == fs[i].size
    requires forall i | 0 <= i < |fs| && !(lo - 1 <= i < hi) :: ptr'[fs[i].start] == Next(fs, i)
    requires ptr'[fs[lo - 1].start] == c.start && ptr'[c.start] == After(fs, hi) && size'[c.start] == c.size
    ensures Linked(ptr', size', Replace(fs, lo, c, hi))
  {
    var gs := Replace(fs, lo, c, hi);
    assert gs[0] == fs[0] && |gs| == lo + 1 + |fs| - hi;
    forall i | 0 <= i < |gs|
      ensures gs[i].start in ptr' && ptr'[gs[i].start] == Next(gs, i) && gs[i].start in size'
      ensures size'[gs[i].start] == gs[i].size
    {
      var o := if i < lo then i else hi + i - lo - 1;
      assert i != lo ==> gs[i] == fs[o];
      assert i + 1 < |gs| && i + 1 != lo ==> gs[i + 1] == fs[if i + 1 < lo then i + 1 else hi + i - lo];
    }
  }

  function FreedPtr(ptr: map<nat, nat>, fs: seq<Blk>, k: nat, b: Blk): map<nat, nat>
    requires k < |fs|
  {
    var next := After(fs, JoinUp(fs, k, b).hi);
    ptr[b.start := next][fs[k].start := if fs[k].End() == b.start then next else b.start]
  }

  function FreedSize(size: map<nat, nat>, fs: seq<Blk>, k: nat, b: Blk): map<nat, nat>
    requires k < |fs|
  {
    var c := JoinUp(fs, k, b);
    size[b.start := c.blk.size][fs[k].start := if fs[k].End() == b.start then fs[k].size + c.blk.size else fs[k].size]
  }

  ghost predicate Fits(fs: seq<Blk>, k: nat, b: Blk, base: nat) {
    Ordered(fs) && Based(fs, base) && Goes(fs, k, b) && Apart(fs, b) && b.size >= 1 && base < b.start
  }

  lemma Starts(fs: seq<Blk>, k: nat, b: Blk, base: nat)
    requires Fits(fs, k, b, base)
    ensures forall i | 0 <= i < |fs| :: fs[i].start != b.start && (i != k ==> fs[i].start != fs[k].start)
    ensures fs[k].End() == b.start ==> k > 0
  {
    forall i | 0 <= i < |fs| ensures fs[i].start != b.start && (i != k ==> fs[i].start != fs[k].start) {
      assert i < k ==> fs[i].End() < fs[k].start;
      assert k < i ==> fs[k].End() < fs[i].start;
      assert k + 1 < i ==> fs[k + 1].End() < fs[i].start;
    }
  }

  /** Only the headers of b and of the block in front of it change. */
  lemma FreedElsewhere(ptr: map<nat, nat>, size: map<nat, nat>, fs: seq<Blk>, k: nat, b: Blk, base: nat, i: nat)
    requires Linked(ptr, size, fs) && Fits(fs, k, b, base) && i < |fs| && i != k
    ensures fs[i].start in FreedPtr(ptr, fs, k, b) && FreedPtr(ptr, fs, k, b)[fs[i].start] == Next(fs, i)
    ensures fs[i].start in FreedSize(size, fs, k, b) && FreedSize(size, fs, k, b)[fs[i].start] == fs[i].size
  {
    hide Ordered, Based, Apart;
    Starts(fs, k, b, base);
  }

  lemma FreedLinked(ptr: map<nat, nat>, size: map<nat, nat>, fs: seq<Blk>, k: nat, b: Blk, base: nat)
    requires Linked(ptr, size, fs) && Fits(fs, k, b, base)
    ensures Linked(FreedPtr(ptr, fs, k, b), FreedSize(size, fs, k, b), GiveBack(fs, k, b))
  {
    hide Ordered, Based, Apart, Linked, Replace;
    Starts(fs, k, b, base);
    var c := Join(fs, k, b);
    var ptr', size' := FreedPtr(ptr, fs, k, b), FreedSize(size, fs, k, b);
    forall i: nat | i < |fs| && i != k
      ensures fs[i].start in ptr' && ptr'[fs[i].start] == Next(fs, i) && fs[i].start in size'
      ensures size'[fs[i].start] == fs[i].size
    {
      FreedElsewhere(ptr, size, fs, k, b, base, i);
    }
    assert c.lo == k || c.lo == k + 1;
    LinkedReplace(ptr, size, ptr', size', fs, c.lo, c.blk, c.hi);
  }

  lemma ClearLive(fs: seq<Blk>, k: nat, b: Blk, base: nat, a: Blk)
    requires Fits(fs, k, b, base) && Apart(fs, a) && a.Clear(b) && a.size >= 1
    ensures Apart(GiveBack(fs, k, b), a)
  {
    hide Ordered, Based;
    var c := Join(fs, k, b);
    assert fs[k].Clear(a);
    assert k + 1 < |fs| ==> fs[k + 1].Clear(a);
    var gs := GiveBack(fs, k, b);
    forall i | 0 <= i < |gs| ensures gs[i].Clear(a) {
      assert i < c.lo ==> gs[i] == fs[i];
      assert i > c.lo ==> gs[i] == fs[c.hi + i - c.lo - 1];
    }
  }

  /** What every call keeps. */
  ghost predicate Shaped(base: nat, ptr: map<nat, nat>, size: map<nat, nat>, fs: seq<Blk>, live: map<nat, nat>,
                         owned: set<nat>) {
    && Based(fs, base) && Ordered(fs) && Linked(ptr, size, fs)
    && LiveOk(size, live, base) && Disjoint(fs, live) && Cover(fs, live, owned)
  }

  lemma LiveFits(base: nat, ptr: map<nat, nat>, size: map<nat, nat>, fs: seq<Blk>, live: map<nat, nat>,
                 owned: set<nat>, a: nat)
    requires Shaped(base, ptr, size, fs, live, owned) && a in live
    ensures a in size && size[a] == live[a] && base < a
    ensures var b := Blk(a, live[a]); var k := Spot(fs, b, base); Fits(fs, k, b, base)
  {
  }

  /** The other live blocks keep their headers and stay clear. */
  lemma FreedLive(size: map<nat, nat>, fs: seq<Blk>, live: map<nat, nat>, k: nat, b: Blk, base: nat)
    requires Fits(fs, k, b, base) && LiveOk(size, live, base) && Disjoint(fs, live) && b.start in live
    requires live[b.start] == b.size
    ensures LiveOk(FreedSize(size, fs, k, b), live - {b.start}, base) && Disjoint(GiveBack(fs, k, b), live - {b.start})
  {
    hide Ordered, GiveBack;
    forall a | a in live && a != b.start ensures a != fs[k].start && Apart(GiveBack(fs, k, b), Blk(a, live[a])) {
      assert Apart(fs, Blk(a, live[a])) && Blk(a, live[a]).Clear(b);
      assert fs[k].Clear(Blk(a, live[a]));
      ClearLive(fs, k, b, base, Blk(a, live[a]));
    }
  }

  lemma FreedCover(fs: seq<Blk>, live: map<nat, nat>, owned: set<nat>, k: nat, b: Blk, base: nat)
    requires Fits(fs, k, b, base) && Cover(fs, live, owned) && b.start in live && live[b.start] == b.size
    ensures Cover(GiveBack(fs, k, b), live - {b.start}, owned)
  {
    hide Ordered, Based, Apart, InFree, GiveBack;
    forall u: nat ensures u in owned <==> InFree(GiveBack(fs, k, b), u) || InLive(live - {b.start}, u) {
      GiveBackUnits(fs, k, b, u);
      LiveWithout(live, b, u);
    }
  }

  lemma LiveWithout(live: map<nat, nat>, b: Blk, u: nat)
    requires b.start in live && live[b.start] == b.size
    ensures InLive(live, u) <==> InLive(live - {b.start}, u) || b.Has(u)
  {
    var rest := live - {b.start};
    if InLive(live, u) {
      var a :| a in live && Blk(a, live[a]).Has(u);
      assert a != b.start ==> a in rest && Blk(a, rest[a]).Has(u);
    }
    if InLive(rest, u) {
      var a :| a in rest && Blk(a, rest[a]).Has(u);
      assert a in live && Blk(a, live[a]).Has(u);
    }
    assert b == Blk(b.start, live[b.start]);
  }

  /** free keeps the heap in shape. */
  lemma FreedShaped(base: nat, ptr: map<nat, nat>, size: map<nat, nat>, fs: seq<Blk>, live: map<nat, nat>,
                    owned: set<nat>, k: nat, b: Blk)
    requires Shaped(base, ptr, size, fs, live, owned) && Fits(fs, k, b, base) && b.start in live
    requires live[b.start] == b.size
    ensures Shaped(base, FreedPtr(ptr, fs, k, b), FreedSize(size, fs, k, b), GiveBack(fs, k, b),
                   live - {b.start}, owned)
  {
    GiveBackOrdered(fs, k, b);
    GiveBackBased(fs, k, b, base);
    hide Ordered, Based, Apart, Linked, LiveOk, Disjoint, Cover, GiveBack;
    FreedLinked(ptr, size, fs, k, b, base);
    FreedLive(size, fs, live, k, b, base);
    FreedCover(fs, live, owned, k, b, base);
  }

  lemma GiveBackBig(fs: seq<Blk>, k: nat, b: Blk, base: nat)
    requires Fits(fs, k, b, base)
    ensures exists j | 0 <= j < |GiveBack(fs, k, b)| :: GiveBack(fs, k, b)[j].size >= b.size
    ensures exists j | 0 <= j < |GiveBack(fs, k, b)| :: GiveBack(fs, k, b)[j].start == fs[k].start
  {
    JoinFacts(fs, k, b);
    var c := Join(fs, k, b);
    assert GiveBack(fs, k, b)[c.lo] == c.blk;
    assert GiveBack(fs, k, b)[k].start == fs[k].start;
  }

  // ----------------------------------------------------------------- malloc

  /** The part of block i that malloc hands out: its last n units. */
  function TakenBlk(fs: seq<Blk>, i: nat, n: nat): Blk
    requires i < |fs| && 1 <= n <= fs[i].size
  {
    Blk(fs[i].End() - n, n)
  }

  function Taken(fs: seq<Blk>, i: nat, n: nat): seq<Blk>
    requires i < |fs| && 1 <= n <= fs[i].size
  {
    if fs[i].size == n then fs[..i] + fs[i + 1..] else fs[i := Blk(fs[i].start, fs[i].size - n)]
  }

  lemma TakenOrdered(fs: seq<Blk>, i: nat, n: nat, base: nat)
    requires Ordered(fs) && Based(fs, base) && 0 < i < |fs| && 1 <= n <= fs[i].size
    ensures Ordered(Taken(fs, i, n)) && Based(Taken(fs, i, n), base)
  {
  }

  /** Taking units out removes exactly those from the free ones. */
  lemma TakenUnits(fs: seq<Blk>, i: nat, n: nat, u: nat)
    requires i < |fs| && 1 <= n <= fs[i].size
    ensures InFree(fs, u) <==> InFree(Taken(fs, i, n), u) || TakenBlk(fs, i, n).Has(u)
  {
    var gs := Taken(fs, i, n);
    InFreeSplit(fs, i, u);
    InFreeSplit(fs[i..], 1, u);
    assert fs[i..][..1] == [fs[i]] && fs[i..][1..] == fs[i + 1..];
    assert [fs[i]][0].Has(u) <==> InFree([fs[i]], u);
    InFreeSplit(gs, i, u);
    assert gs[..i] == fs[..i];
    if fs[i].size == n {
      assert gs[i..] == fs[i + 1..];
    } else {
      InFreeSplit(gs[i..], 1, u);
      assert gs[i..][..1] == [gs[i]] && gs[i..][1..] == fs[i + 1..];
      assert [gs[i]][0].Has(u) <==> InFree([gs[i]], u);
    }
  }

  function TakenPtr(ptr: map<nat, nat>, fs: seq<Blk>, i: nat, n: nat): map<nat, nat>
    requires 0 < i < |fs| && 1 <= n <= fs[i].size
  {
    if fs[i].size == n then ptr[fs[i - 1].start := Next(fs, i)] else ptr
  }

  function TakenSize(size: map<nat, nat>, fs: seq<Blk>, i: nat, n: nat): map<nat, nat>
    requires i < |fs| && 1 <= n <= fs[i].size
  {
    if fs[i].size == n then size else size[fs[i].start := fs[i].size - n][fs[i].End() - n := n]
  }

  lemma StartsDiffer(fs: seq<Blk>, i: nat, j: nat)
    requires Ordered(fs) && i < |fs| && j < |fs| && i != j
    ensures fs[i].start != fs[j].start && !fs[i].Has(fs[j].start)
  {
    assert i < j ==> fs[i].End() < fs[j].start;
    assert j < i ==> fs[j].End() < fs[i].start;
  }

  lemma TakenLinked(ptr: map<nat, nat>, size: map<nat, nat>, fs: seq<Blk>, i: nat, n: nat)
    requires Linked(ptr, size, fs) && Ordered(fs) && 0 < i < |fs| && 1 <= n <= fs[i].size
    ensures Linked(TakenPtr(ptr, fs, i, n), TakenSize(size, fs, i, n), Taken(fs, i, n))
  {
    hide Ordered;
    var gs := Taken(fs, i, n);
    var ptr', size' := TakenPtr(ptr, fs, i, n), TakenSize(size, fs, i, n);
    forall j | 0 <= j < |gs|
      ensures gs[j].start in ptr' && ptr'[gs[j].start] == Next(gs, j) && gs[j].start in size'
      ensures size'[gs[j].start] == gs[j].size
    {
      var o := if fs[i].size != n || j < i then j else j + 1;
      assert gs[j].start == fs[o].start;
      if o != i { StartsDiffer(fs, i, o); }
      if o != i - 1 { StartsDiffer(fs, i - 1, o); }
    }
  }

  /** Live blocks are clear of the block taken and of what remains free. */
  lemma TakenClear(fs: seq<Blk>, i: nat, n: nat, a: Blk)
    requires Apart(fs, a) && i < |fs| && 1 <= n <= fs[i].size && a.size >= 1
    ensures Apart(Taken(fs, i, n), a) && a.Clear(TakenBlk(fs, i, n)) && a.start != TakenBlk(fs, i, n).start
    ensures a.start != fs[i].start
  {
    assert fs[i].Clear(a);
  }

  lemma TakenApart(fs: seq<Blk>, i: nat, n: nat)
    requires Ordered(fs) && i < |fs| && 1 <= n <= fs[i].size
    ensures Apart(Taken(fs, i, n), TakenBlk(fs, i, n))
  {
    var gs := Taken(fs, i, n);
    forall j | 0 <= j < |gs| ensures gs[j].Clear(TakenBlk(fs, i, n)) {
      var o := if fs[i].size != n || j < i then j else j + 1;
      assert o < i ==> fs[o].End() < fs[i].start;
      assert o > i ==> fs[i].End() < fs[o].start;
    }
  }

  lemma TakenLive(size: map<nat, nat>, fs: seq<Blk>, live: map<nat, nat>, i: nat, n: nat, base: nat)
    requires LiveOk(size, live, base) && Disjoint(fs, live) && Based(fs, base) && Ordered(fs)
    requires 0 < i < |fs| && 1 <= n <= fs[i].size && fs[i].start in size && size[fs[i].start] == fs[i].size
    ensures var b := TakenBlk(fs, i, n);
      && b.start !in live && LiveOk(TakenSize(size, fs, i, n), live[b.start := n], base)
      && Disjoint(Taken(fs, i, n), live[b.start := n])
  {
    assert fs[0].End() < fs[i].start;
    hide Ordered, Apart, Taken;
    var b := TakenBlk(fs, i, n);
    forall a | a in live
      ensures Apart(Taken(fs, i, n), Blk(a, live[a])) && Blk(a, live[a]).Clear(b) && a != b.start && a != fs[i].start
    {
      TakenClear(fs, i, n, Blk(a, live[a]));
    }
    TakenApart(fs, i, n);
  }

  lemma LiveWith(live: map<nat, nat>, b: Blk, u: nat)
    requires b.start !in live
    ensures InLive(live[b.start := b.size], u) <==> InLive(live, u) || b.Has(u)
  {
    var live' := live[b.start := b.size];
    assert live' - {b.start} == live;
    LiveWithout(live', b, u);
  }

  lemma TakenCover(fs: seq<Blk>, live: map<nat, nat>, owned: set<nat>, i: nat, n: nat)
    requires Cover(fs, live, owned) && i < |fs| && 1 <= n <= fs[i].size && TakenBlk(fs, i, n).start !in live
    ensures Cover(Taken(fs, i, n), live[TakenBlk(fs, i, n).start := n], owned)
  {
    hide InFree, InLive, Taken;
    forall u: nat ensures u in owned <==> InFree(Taken(fs, i, n), u) || InLive(live[TakenBlk(fs, i, n).start := n], u) {
      TakenUnits(fs, i, n, u);
      LiveWith(live, TakenBlk(fs, i, n), u);
    }
  }

  /** malloc keeps the heap in shape. */
  lemma TakenShaped(base: nat, ptr: map<nat, nat>, size: map<nat, nat>, fs: seq<Blk>, live: map<nat, nat>,
                    owned: set<nat>, i: nat, n: nat)
    requires Shaped(base, ptr, size, fs, live, owned) && 0 < i < |fs| && 1 <= n <= fs[i].size
    ensures var b := TakenBlk(fs, i, n);
      && b.start !in live
      && Shaped(base, TakenPtr(ptr, fs, i, n), TakenSize(size, fs, i, n), Taken(fs, i, n), live[b.start := n], owned)
  {
    LinkAt(ptr, size, fs, i);
    hide Ordered, Based, Apart, Linked, LiveOk, Disjoint, Cover, Taken, TakenSize, TakenPtr;
    TakenOrdered(fs, i, n, base);
    TakenLinked(ptr, size, fs, i, n);
    TakenLive(size, fs, live, i, n, base);
    TakenCover(fs, live, owned, i, n);
  }

  lemma LinkAt(ptr: map<nat, nat>, size: map<nat, nat>, fs: seq<Blk>, i: nat)
    requires Linked(ptr, size, fs) && i < |fs|
    ensures fs[i].start in ptr && ptr[fs[i].start] == Next(fs, i)
    ensures fs[i].start in size && size[fs[i].start] == fs[i].size
  {
  }

  // --------------------------------------------------------------- morecore

  ghost function Extent(b: Blk): set<nat> {
    set u: nat | u < b.End() && b.Has(u)
  }

  lemma GrownLive(size: map<nat, nat>, fs: seq<Blk>, live: map<nat, nat>, owned: set<nat>, b: Blk, base: nat)
    requires Cover(fs, live, owned) && LiveOk(size, live, base) && Disjoint(fs, live) && Based(fs, base) && Ordered(fs)
    requires b.size >= 1 && base < b.start && Extent(b) !! owned
    ensures b.start !in live && LiveOk(size[b.start := b.size], live[b.start := b.size], base)
    ensures Disjoint(fs, live[b.start := b.size])
  {
    hide Cover, Ordered, Based, Extent, Apart;
    FreshApart(fs, live, owned, b, base);
    FreshClear(size, fs, live, owned, b, base);
  }

  lemma GrownCover(fs: seq<Blk>, live: map<nat, nat>, owned: set<nat>, b: Blk)
    requires Cover(fs, live, owned) && b.start !in live
    ensures Cover(fs, live[b.start := b.size], owned + Extent(b))
  {
    hide InFree, InLive;
    forall u: nat ensures u in owned + Extent(b) <==> InFree(fs, u) || InLive(live[b.start := b.size], u) {
      LiveWith(live, b, u);
    }
  }

  /** Fresh memory from sbrk enters as a live block, which free then gives back. */
  lemma GrownShaped(base: nat, ptr: map<nat, nat>, size: map<nat, nat>, fs: seq<Blk>, live: map<nat, nat>,
                    owned: set<nat>, b: Blk)
    requires Shaped(base, ptr, size, fs, live, owned) && b.size >= 1 && base < b.start && Extent(b) !! owned
    ensures b.start !in live
    ensures Shaped(base, ptr, size[b.start := b.size], fs, live[b.start := b.size], owned + Extent(b))
  {
    hide Ordered, Based, LiveOk, Disjoint, Cover, Extent, Apart;
    FreshApart(fs, live, owned, b, base);
    GrownLive(size, fs, live, owned, b, base);
    GrownCover(fs, live, owned, b);
    assert Linked(ptr, size[b.start := b.size], fs);
  }

  lemma ClearIf(a: Blk, b: Blk)
    requires a.size >= 1 && b.size >= 1 && forall u: nat | a.Has(u) :: !b.Has(u)
    ensures a.Clear(b) && a.start != b.start
  {
    var u := if a.start < b.start then b.start else a.start;
    assert a.Has(u) ==> !b.Has(u);
    assert a.Has(a.start) && b.Has(b.start);
  }

  lemma FreshApart(fs: seq<Blk>, live: map<nat, nat>, owned: set<nat>, b: Blk, base: nat)
    requires Cover(fs, live, owned) && Based(fs, base) && Extent(b) !! owned && b.size >= 1 && base < b.start
    ensures Apart(fs, b) && forall i | 0 <= i < |fs| :: fs[i].start != b.start
  {
    forall i | 0 <= i < |fs| ensures fs[i].Clear(b) && fs[i].start != b.start {
      forall u: nat | fs[i].Has(u) ensures !b.Has(u) {
        assert InFree(fs, u) && u !in Extent(b);
      }
      if i > 0 {
        ClearIf(fs[i], b);
      }
    }
  }

  lemma FreshClear(size: map<nat, nat>, fs: seq<Blk>, live: map<nat, nat>, owned: set<nat>, b: Blk, base: nat)
    requires Cover(fs, live, owned) && LiveOk(size, live, base) && Extent(b) !! owned && b.size >= 1
    ensures forall a | a in live :: Blk(a, live[a]).Clear(b) && a != b.start
  {
    forall a | a in live ensures Blk(a, live[a]).Clear(b) && a != b.start {
      forall u: nat | Blk(a, live[a]).Has(u) ensures !b.Has(u) {
        assert InLive(live, u) && u !in Extent(b);
      }
      ClearIf(Blk(a, live[a]), b);
    }
  }

  // ------------------------------------------------------------ search loops

  /** How far block i is in front of block f, going round the circle. */
  function Dist(n: nat, i: nat, f: nat): (d: nat)
    requires i < n && f < n
    ensures d < n && (d == 0 <==> i == f)
  {
    if i <= f then f - i else f + n - i
  }

  lemma DistSucc(n: nat, i: nat, f: nat)
    requires i < n && f < n
    ensures Dist(n, Succ(n, i), f) == if i == f then n - 1 else Dist(n, i, f) - 1
    ensures forall j: nat | j < n && Dist(n, j, f) == Dist(n, i, f) :: j == i
  {
  }

  /** free's loop test holds at block i exactly when i is the block that b goes behind. */
  lemma SearchStops(fs: seq<Blk>, base: nat, b: Blk, k: nat, i: nat)
    requires Ordered(fs) && Based(fs, base) && Goes(fs, k, b) && base < b.start && i < |fs|
    ensures var p, q := fs[i].start, Next(fs, i);
      (b.start > p && b.start < q) || (p >= q && (b.start > p || b.start < q)) <==> i == k
  {
    assert i < k ==> fs[i].End() < fs[k].start;
    assert k < i ==> fs[k].End() < fs[i].start;
    assert i + 1 < |fs| ==> fs[i].End() < fs[i + 1].start;
    assert i + 1 < k ==> fs[i + 1].End() < fs[k].start;
    assert k + 1 < i ==> fs[k + 1].End() < fs[i].start;
    assert i > 0 ==> fs[0].End() < fs[i].start;
  }
}
