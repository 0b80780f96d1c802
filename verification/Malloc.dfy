// umalloc.c as it is written: a heap of headers, the roving pointer freep and
// the loops of free and malloc, proved against MallocModel.

module Malloc {
  import opened Common
  import opened MallocModel

  const HEADER: nat := 8             // sizeof(Header)
  const MIN_CORE: nat := 4096        // units asked of sbrk at least

  // ------------------------------------------------------------ request size

  /** malloc's nunits, in 32-bit arithmetic. */
  function Units(nbytes: nat): (n: nat)
    requires nbytes < WORD
    ensures 1 <= n <= WORD / HEADER
  {
    (nbytes + HEADER - 1) % WORD / HEADER + 1
  }

  /** The block returned has room for the bytes asked for exactly when the
      rounding does not wrap. */
  lemma RoomIff(nbytes: nat)
    requires nbytes < WORD
    ensures (Units(nbytes) - 1) * HEADER >= nbytes <==> nbytes <= WORD - HEADER
  {
  }

  /** The wrap: a request for the last few byte counts yields a block with no room at all. */
  lemma WrappedRequest()
    ensures Units(WORD - 1) == 1
  {
  }

  function Core(nu: nat): nat {
    if nu < MIN_CORE then MIN_CORE else nu
  }

  /** sbrk takes a signed int: the number it is handed. */
  function AskedBytes(nu: nat): int {
    var b := Core(nu) * HEADER % WORD;
    if b < WORD / 2 then b else b - WORD
  }

  /** sbrk is asked for the bytes malloc then uses exactly when, with the header
      and rounded up, they fit a signed int; a request that wraps asks for the minimum. */
  lemma AskIff(nbytes: nat)
    requires nbytes < WORD
    ensures AskedBytes(Units(nbytes)) == Core(Units(nbytes)) * HEADER <==>
      nbytes <= WORD / 2 - 2 * HEADER || nbytes > WORD - HEADER
  {
  }

  /** The units that sbrk grants for this request. */
  function Granted(nu: nat): nat {
    if AskedBytes(nu) <= 0 then 0 else AskedBytes(nu) / HEADER
  }

  lemma GrantedAll(nu: nat)
    ensures AskedBytes(nu) == Core(nu) * HEADER ==> Granted(nu) == Core(nu)
  {
    hide AskedBytes;
  }

  /** Half of the address space: sbrk is handed a negative number. */
  lemma NegativeRequest()
    ensures AskedBytes(Units(WORD / 2)) < 0
  {
  }

  class Heap {
    const base: nat
    var ptr: map<nat, nat>
    var size: map<nat, nat>
    var freep: nat                    // 0 is the null pointer
    ghost var fs: seq<Blk>
    ghost var live: map<nat, nat>
    ghost var owned: set<nat>

    ghost predicate Valid()
      reads this
    {
      && base > 0
      && if freep == 0 then fs == [] && live == map[] && owned == {} else Built()
    }

    ghost predicate Built()
      reads this
    {
      && freep != 0 && Shaped(base, ptr, size, fs, live, owned)
      && exists i :: 0 <= i < |fs| && fs[i].start == freep
    }

    constructor (base: nat)
      requires base > 0
      ensures Valid() && this.base == base && live == map[] && owned == {}
    {
      this.base := base;
      ptr, size, freep := map[], map[], 0;
      fs, live, owned := [], map[], {};
    }

    // ------------------------------------------------------------------ free

    /** The search loop of free stops at the block that bp goes behind. */
    method Search(bp: nat, ghost b: Blk, ghost k: nat) returns (p: nat)
      requires Built() && b.start == bp && Goes(fs, k, b) && base < bp
      ensures p == fs[k].start
    {
      ghost var i :| 0 <= i < |fs| && fs[i].start == freep;
      hide Ordered, Based, LiveOk, Disjoint, Cover, Linked;
      p := freep;
      LinkAt(ptr, size, fs, i);
      while !(bp > p && bp < ptr[p])
        invariant 0 <= i < |fs| && p == fs[i].start && p in ptr && ptr[p] == Next(fs, i)
        decreases Dist(|fs|, i, k)
      {
        SearchStops(fs, base, b, k, i);
        if p >= ptr[p] && (bp > p || bp < ptr[p]) {
          break;
        }
        DistSucc(|fs|, i, k);
        i := Succ(|fs|, i);
        p := ptr[p];
        LinkAt(ptr, size, fs, i);
      }
      SearchStops(fs, base, b, k, i);
    }

    /** Join bp with the block behind it and the block in front of it, where they touch. */
    method Coalesce(bp: nat, p: nat, ghost b: Blk, ghost k: nat)
      requires Linked(ptr, size, fs) && Fits(fs, k, b, base) && b.start == bp && fs[k].start == p
      requires bp in size && size[bp] == b.size
      modifies `ptr, `size
      ensures ptr == FreedPtr(old(ptr), fs, k, b) && size == FreedSize(old(size), fs, k, b)
    {
      hide Ordered, Based, Apart, Linked;
      Starts(fs, k, b, base);
      LinkAt(ptr, size, fs, k);
      UpperMatch(fs, k, b, base);
      if bp + size[bp] == ptr[p] {
        LinkAt(ptr, size, fs, k + 1);
        size := size[bp := size[bp] + size[ptr[p]]];
        ptr := ptr[bp := ptr[ptr[p]]];
      } else {
        ptr := ptr[bp := ptr[p]];
      }
      if p + size[p] == bp {
        size := size[p := size[p] + size[bp]];
        ptr := ptr[p := ptr[bp]];
      } else {
        ptr := ptr[p := bp];
      }
      assert ptr == FreedPtr(old(ptr), fs, k, b);
      assert size == FreedSize(old(size), fs, k, b);
    }

    /** free(ap) for a live block; the header is one unit below ap. */
    method Free(ap: nat)
      requires base > 0 && Built() && ap > 0 && ap - 1 in live
      modifies this
      ensures Built()
      ensures live == old(live) - {ap - 1} && owned == old(owned)
      ensures forall u: nat :: InFree(fs, u) <==> InFree(old(fs), u) || Blk(ap - 1, old(live)[ap - 1]).Has(u)
      ensures exists j :: 0 <= j < |fs| && fs[j].size >= old(live)[ap - 1]
    {
      hide Ordered, Based, LiveOk, Disjoint, Cover, Linked, GiveBack, InFree;
      var bp := ap - 1;
      ghost var b := Blk(bp, live[bp]);
      LiveFits(base, ptr, size, fs, live, owned, bp);
      ghost var k := Spot(fs, b, base);
      FreedShaped(base, ptr, size, fs, live, owned, k, b);
      GiveBackBig(fs, k, b, base);
      forall u: nat { GiveBackUnits(fs, k, b, u); }
      StartPositive(fs, base, k);
      var p := Search(bp, b, k);
      Coalesce(bp, p, b, k);
      freep := p;
      fs := GiveBack(fs, k, b);
      live := live - {bp};
    }

    // -------------------------------------------------------------- morecore

    /** sbrk's answer is grant: where the memory asked for begins, fresh and
        above base, or nothing.  bad: sbrk has been asked for another number of
        bytes than morecore then uses. */
    method Morecore(nu: nat, grant: Option<nat>) returns (p: nat, bad: bool)
      requires base > 0 && Built() && nu >= 1
      requires grant.Some? ==> base < grant.value && Extent(Blk(grant.value, Granted(nu))) !! owned
      modifies this
      ensures bad <==> grant.Some? && AskedBytes(nu) != Core(nu) * HEADER
      ensures !bad ==> Built() && live == old(live) && p == if grant.Some? then freep else 0
      ensures grant.None? ==> fs == old(fs) && ptr == old(ptr) && size == old(size) && freep == old(freep)
      ensures !bad ==> owned == old(owned) + if grant.Some? then Extent(Blk(grant.value, Core(nu))) else {}
      ensures !bad && grant.Some? ==> exists j :: 0 <= j < |fs| && fs[j].size >= nu
      ensures !bad ==> forall u: nat ::
        InFree(fs, u) <==> InFree(old(fs), u) || (grant.Some? && Blk(grant.value, Core(nu)).Has(u))
    {
      hide Shaped, InFree, Extent, AskedBytes;
      bad := false;
      var n := if nu < MIN_CORE then MIN_CORE else nu;
      if grant.None? {
        return 0, false;
      }
      GrantedAll(nu);
      if AskedBytes(nu) != n * HEADER {
        return 0, true;
      }
      var hp := grant.value;
      ghost var b := Blk(hp, n);
      GrownShaped(base, ptr, size, fs, live, owned, b);
      size := size[hp := n];
      ghost var before := live;
      live, owned := live[hp := n], owned + Extent(b);
      Free(hp + 1);
      assert live == before;
      p := freep;
    }

    // ---------------------------------------------------------------- malloc

    /** malloc(nbytes); 0 is the null pointer.  grant is what sbrk would answer.
        bad: nothing fits, and the memory sbrk grants is not what is then used. */
    method Malloc(nbytes: nat, grant: Option<nat>) returns (r: nat, bad: bool)
      requires Valid() && nbytes < WORD
      requires grant.Some? ==> base < grant.value && Extent(Blk(grant.value, Granted(Units(nbytes)))) !! owned
      modifies this
      ensures bad <==>
        grant.Some? && WORD / 2 - 2 * HEADER < nbytes <= WORD - HEADER && TooSmall(old(fs), Units(nbytes))
      ensures !bad ==> Valid() && Built()
      ensures !bad && r == 0 ==> grant.None? && live == old(live) && owned == old(owned)
      ensures !bad && r == 0 ==> TooSmall(old(fs), Units(nbytes))
      ensures !bad && r != 0 ==> r - 1 !in old(live) && live == old(live)[r - 1 := Units(nbytes)]
      ensures !bad ==>
        || owned == old(owned)
        || (grant.Some? && owned == old(owned) + Extent(Blk(grant.value, Core(Units(nbytes)))))
      ensures !bad && owned != old(owned) ==> TooSmall(old(fs), Units(nbytes))
      ensures old(freep) != 0 && !TooSmall(old(fs), Units(nbytes)) ==>
        && r != 0
        && exists f ::
             && 0 <= f < |old(fs)| && old(fs)[f].start == old(freep)
             && NextFit(old(fs), f, Units(nbytes), r - 1, fs, freep)
    {
      hide Shaped, InFree, Extent, AskedBytes;
      AskIff(nbytes);
      var nunits := (nbytes + HEADER - 1) % WORD / HEADER + 1;
      if freep == 0 {
        ptr, freep := ptr[base := base], base;
        size := size[base := 0];
        fs := [Blk(base, 0)];
        FirstShaped(base, ptr, size);
        assert fs[0].start == freep;
      }
      ghost var f :| 0 <= f < |fs| && fs[f].start == freep;
      r, bad := Fit(nunits, grant, f);
    }

    method Fit(nunits: nat, grant: Option<nat>, ghost f0: nat) returns (r: nat, bad: bool)
      requires base > 0 && Built() && f0 < |fs| && fs[f0].start == freep && nunits >= 1
      requires grant.Some? ==> base < grant.value && Extent(Blk(grant.value, Granted(nunits))) !! owned
      modifies this
      ensures bad <==> grant.Some? && AskedBytes(nunits) != Core(nunits) * HEADER && TooSmall(old(fs), nunits)
      ensures !bad ==> Built()
      ensures !bad && r == 0 ==> grant.None? && live == old(live) && owned == old(owned)
      ensures !bad && r == 0 ==> TooSmall(old(fs), nunits)
      ensures !bad && r != 0 ==> r - 1 !in old(live) && live == old(live)[r - 1 := nunits]
      ensures !bad ==>
        owned == old(owned) || (grant.Some? && owned == old(owned) + Extent(Blk(grant.value, Core(nunits))))
      ensures !bad && owned != old(owned) ==> TooSmall(old(fs), nunits)
      ensures !bad && r != 0 && owned == old(owned) && !TooSmall(old(fs), nunits) ==>
        NextFit(old(fs), f0, nunits, r - 1, fs, freep)
    {
      hide Shaped, InFree, Extent, NextFit, Seen, Ahead, TooSmall, Dist, AskedBytes;
      bad := false;
      var prevp := freep;
      ghost var f, q, asked := f0, f0, false;
      HeaderAt(base, ptr, size, fs, live, owned, f);
      var p := ptr[prevp];
      ghost var i := Succ(|fs|, q);
      SeenNone(fs, f, nunits);
      while true
        invariant !bad && base > 0 && Built() && live == old(live)
        invariant 0 <= q < |fs| && 0 <= f < |fs| && prevp == fs[q].start && i == Succ(|fs|, q) && p == fs[i].start
        invariant freep == fs[f].start
        invariant !asked ==> fs == old(fs) && owned == old(owned) && Seen(fs, f, i, nunits)
        invariant !asked ==> f == f0
        invariant asked ==> AskedBytes(nunits) == Core(nunits) * HEADER
        invariant asked ==> grant.Some? && owned == old(owned) + Extent(Blk(grant.value, Core(nunits)))
        invariant asked ==> TooSmall(old(fs), nunits) && Ahead(fs, f, i, nunits)
        decreases if asked then 0 else 1, Dist(|fs|, i, f)
      {
        HeaderAt(base, ptr, size, fs, live, owned, i);
        if size[p] >= nunits {
          FoundAt(base, ptr, size, fs, live, owned, i, nunits);
          if !asked {
            IsNextFit(fs, f, nunits, i);
            NotTooSmall(fs, i, nunits);
          }
          r := Take(nunits, prevp, p, q);
          return;
        }
        Passed(fs, f, i, nunits);
        if p == freep {
          SameStart(base, ptr, size, fs, live, owned, i, f);
          p, bad := Morecore(nunits, grant);
          if bad || p == 0 {
            return 0, bad;
          }
          asked := true;
          f :| 0 <= f < |fs| && fs[f].start == freep;
          i := f;
          AheadAll(fs, f, nunits);
          HeaderAt(base, ptr, size, fs, live, owned, i);
        }
        prevp := p;
        q := i;
        p := ptr[p];
        i := Succ(|fs|, i);
      }
    }

    /** A block that is big enough is unlinked, or its tail is cut off. */
    method Take(nunits: nat, prevp: nat, p0: nat, ghost q: nat) returns (r: nat)
      requires base > 0 && Built() && nunits >= 1
      requires q < |fs| && fs[q].start == prevp && fs[Succ(|fs|, q)].start == p0 && p0 in size && size[p0] >= nunits
      modifies this
      ensures Built() && owned == old(owned)
      ensures r > 0 && r - 1 !in old(live) && live == old(live)[r - 1 := nunits]
      ensures var i := Succ(|old(fs)|, q);
        && 0 < i && nunits <= old(fs)[i].size && r - 1 == TakenBlk(old(fs), i, nunits).start
        && fs == Taken(old(fs), i, nunits) && freep == old(fs)[i - 1].start
    {
      hide Ordered, Based, LiveOk, Disjoint, Cover, Linked, Taken;
      ghost var i := Succ(|fs|, q);
      FoundAt(base, ptr, size, fs, live, owned, i, nunits);
      TakenShaped(base, ptr, size, fs, live, owned, i, nunits);
      TakenHas(fs, i, nunits);
      StartPositive(fs, base, q);
      var p := p0;
      if size[p] == nunits {
        ptr := ptr[prevp := ptr[p]];
      } else {
        size := size[p := size[p] - nunits];
        p := p + size[p];
        size := size[p := nunits];
      }
      freep := prevp;
      r := p + 1;
      fs := Taken(fs, i, nunits);
      live := live[p := nunits];
    }
  }

  lemma FirstShaped(base: nat, ptr: map<nat, nat>, size: map<nat, nat>)
    requires base in ptr && ptr[base] == base && base in size && size[base] == 0
    ensures Shaped(base, ptr, size, [Blk(base, 0)], map[], {})
  {
    var fs := [Blk(base, 0)];
    assert forall u: nat :: !fs[0].Has(u);
  }

  lemma UpperMatch(fs: seq<Blk>, k: nat, b: Blk, base: nat)
    requires Based(fs, base) && base < b.start && k < |fs|
    ensures b.End() == Next(fs, k) ==> k + 1 < |fs|
  {
  }

  lemma HeaderAt(base: nat, ptr: map<nat, nat>, size: map<nat, nat>, fs: seq<Blk>, live: map<nat, nat>,
                 owned: set<nat>, i: nat)
    requires Shaped(base, ptr, size, fs, live, owned) && i < |fs|
    ensures fs[i].start in ptr && ptr[fs[i].start] == fs[Succ(|fs|, i)].start
    ensures fs[i].start in size && size[fs[i].start] == fs[i].size
  {
    LinkAt(ptr, size, fs, i);
  }

  // ------------------------------------------------------- malloc's search

  ghost predicate TooSmall(fs: seq<Blk>, n: nat) {
    forall j | 0 <= j < |fs| :: fs[j].size < n
  }

  /** No block from the one after f up to but not including i is big enough. */
  ghost predicate Seen(fs: seq<Blk>, f: nat, i: nat, n: nat)
    requires i < |fs| && f < |fs|
  {
    forall j: nat | j < |fs| && Dist(|fs|, j, f) > Dist(|fs|, i, f) :: fs[j].size < n
  }

  /** Some block from i up to and including f is big enough. */
  ghost predicate Ahead(fs: seq<Blk>, f: nat, i: nat, n: nat)
    requires i < |fs| && f < |fs|
  {
    exists j: nat :: j < |fs| && Dist(|fs|, j, f) <= Dist(|fs|, i, f) && fs[j].size >= n
  }

  /** The block taken is the first one behind f, going round, that is big enough;
      the next search starts at the block in front of it. */
  ghost predicate NextFit(fs: seq<Blk>, f: nat, n: nat, a: nat, fs': seq<Blk>, freep: nat)
    requires f < |fs|
  {
    exists i :: 0 < i < |fs| && 1 <= n <= fs[i].size && Seen(fs, f, i, n)
      && a == TakenBlk(fs, i, n).start && fs' == Taken(fs, i, n) && freep == fs[i - 1].start
  }

  lemma IsNextFit(fs: seq<Blk>, f: nat, n: nat, i: nat)
    requires f < |fs| && 0 < i < |fs| && 1 <= n <= fs[i].size && Seen(fs, f, i, n)
    ensures NextFit(fs, f, n, TakenBlk(fs, i, n).start, Taken(fs, i, n), fs[i - 1].start)
  {
  }

  lemma SeenNone(fs: seq<Blk>, f: nat, n: nat)
    requires f < |fs|
    ensures Seen(fs, f, Succ(|fs|, f), n)
  {
    DistSucc(|fs|, f, f);
  }

  lemma NotTooSmall(fs: seq<Blk>, i: nat, n: nat)
    requires i < |fs| && fs[i].size >= n
    ensures !TooSmall(fs, n)
  {
  }

  lemma AheadAll(fs: seq<Blk>, f: nat, n: nat)
    requires f < |fs| && exists j :: 0 <= j < |fs| && fs[j].size >= n
    ensures Ahead(fs, f, Succ(|fs|, f), n)
  {
    DistSucc(|fs|, f, f);
    var j :| 0 <= j < |fs| && fs[j].size >= n;
    assert Dist(|fs|, j, f) <= Dist(|fs|, Succ(|fs|, f), f);
  }

  /** Going past a block that is too small. */
  lemma Passed(fs: seq<Blk>, f: nat, i: nat, n: nat)
    requires i < |fs| && f < |fs| && fs[i].size < n
    ensures i != f ==> Dist(|fs|, Succ(|fs|, i), f) < Dist(|fs|, i, f)
    ensures i != f && Seen(fs, f, i, n) ==> Seen(fs, f, Succ(|fs|, i), n)
    ensures i == f && Seen(fs, f, i, n) ==> TooSmall(fs, n)
    ensures Ahead(fs, f, i, n) ==> i != f && Ahead(fs, f, Succ(|fs|, i), n)
  {
    DistSucc(|fs|, i, f);
    if Ahead(fs, f, i, n) {
      var j: nat :| j < |fs| && Dist(|fs|, j, f) <= Dist(|fs|, i, f) && fs[j].size >= n;
      assert i != f ==> Dist(|fs|, j, f) <= Dist(|fs|, Succ(|fs|, i), f);
    }
  }

  lemma StartPositive(fs: seq<Blk>, base: nat, i: nat)
    requires Ordered(fs) && Based(fs, base) && base > 0 && i < |fs|
    ensures fs[i].start > 0
  {
    assert i > 0 ==> fs[0].End() < fs[i].start;
  }

  lemma SameStart(base: nat, ptr: map<nat, nat>, size: map<nat, nat>, fs: seq<Blk>, live: map<nat, nat>,
                  owned: set<nat>, i: nat, f: nat)
    requires Shaped(base, ptr, size, fs, live, owned) && i < |fs| && f < |fs| && fs[i].start == fs[f].start
    ensures i == f
  {
    if i != f {
      StartsDiffer(fs, i, f);
    }
  }

  /** A block with room for a header is not base, so the block in front of it is the one before. */
  lemma FoundAt(base: nat, ptr: map<nat, nat>, size: map<nat, nat>, fs: seq<Blk>, live: map<nat, nat>, owned: set<nat>,
                i: nat, n: nat)
    requires Shaped(base, ptr, size, fs, live, owned) && i < |fs| && fs[i].start in size && size[fs[i].start] >= n >= 1
    ensures 0 < i && n <= fs[i].size && fs[i].start in ptr && ptr[fs[i].start] == Next(fs, i)
    ensures size[fs[i].start] == fs[i].size
  {
    LinkAt(ptr, size, fs, i);
  }

  lemma TakenHas(fs: seq<Blk>, i: nat, n: nat)
    requires 0 < i < |fs| && 1 <= n <= fs[i].size
    ensures i - 1 < |Taken(fs, i, n)| && Taken(fs, i, n)[i - 1] == fs[i - 1]
  {
  }
}
