// bio.c and the request queue of ide.c as they are written: buffers in a ring,
// scanned by bget, spliced by brelse, and queued for the disk by iderw.

module BufferCache {
  import opened Common
  import opened BufferRing
  import LogMachine

  type Block = seq<nat>

  const DEV: int := 1      // ROOTDEV

  /** dev is -1 until the buffer is first used. */
  datatype Buffer = Buffer(dev: int, blockno: nat, valid: bool, dirty: bool, busy: bool, data: Block)

  predicate Holds(b: Buffer, dev: int, blockno: nat) { b.dev == dev && b.blockno == blockno }

  predicate Cached(bufs: seq<Buffer>, dev: int, blockno: nat) {
    exists i | 0 <= i < |bufs| :: Holds(bufs[i], dev, blockno)
  }

  /** A buffer bget may recycle. */
  predicate Spare(b: Buffer) { !b.busy && !b.dirty }

  /** At most one buffer per block. */
  ghost predicate Unique(bufs: seq<Buffer>) {
    forall i, j | 0 <= i < j < |bufs| && bufs[i].dev >= 0 :: !Holds(bufs[j], bufs[i].dev, bufs[i].blockno)
  }

  /** Only a busy buffer can be waiting for its contents, and a clean one that
      is not busy is what the disk holds. */
  predicate BufferOk(disk: seq<Block>, b: Buffer) {
    && (b.dirty ==> b.valid) && (b.valid ==> b.dev == DEV && b.blockno < |disk|)
    && (!b.valid && !b.busy ==> b.dev == -1)
    && (b.valid && Spare(b) ==> disk[b.blockno] == b.data)
  }

  ghost predicate BuffersOk(disk: seq<Block>, bufs: seq<Buffer>) {
    forall i | 0 <= i < |bufs| :: BufferOk(disk, bufs[i])
  }

  /** A buffer that iderw has work for. */
  predicate Waiting(disk: seq<Block>, b: Buffer) {
    b.busy && (b.dirty || !b.valid) && b.dev == DEV && b.blockno < |disk|
  }

  /** The queue: distinct buffers, each with work for the disk. */
  ghost predicate QueueOk(disk: seq<Block>, bufs: seq<Buffer>, q: seq<nat>) {
    NoDup(q) && forall i | 0 <= i < |q| :: q[i] < |bufs| && Waiting(disk, bufs[q[i]])
  }

  function QueueAt(q: seq<nat>, i: nat): int { if i < |q| then q[i] else -1 }

  /** idequeue and qnext, with -1 for the null pointer. */
  ghost predicate Queued(qnext: seq<int>, head: int, q: seq<nat>) {
    head == QueueAt(q, 0) && forall i | 0 <= i < |q| :: q[i] < |qnext| && qnext[q[i]] == QueueAt(q, i + 1)
  }

  /** The ring is a permutation of all the buffers. */
  ghost predicate RingOk(n: nat, next: seq<nat>, prev: seq<nat>, ring: seq<nat>) {
    && |next| == n + 1 && Linked(next, prev, [n] + ring) && |ring| == n
    && (forall i | 0 <= i < n :: ring[i] < n) && (forall b: nat | b < n :: b in ring)
  }

  /** b was moved to the front and the others keep their order. */
  ghost predicate Fronted(was: seq<nat>, ring: seq<nat>, b: nat) {
    exists i | 0 <= i < |was| :: was[i] == b && ring == [b] + (was[..i] + was[i + 1..])
  }

  /** No buffer used longer ago than b can be recycled. */
  ghost predicate LastSpare(bufs: seq<Buffer>, ring: seq<nat>, b: nat)
    requires forall i | 0 <= i < |ring| :: ring[i] < |bufs|
  {
    exists j | 0 <= j < |ring| :: ring[j] == b && NoneAfter(bufs, ring, j)
  }

  ghost predicate NoneAfter(bufs: seq<Buffer>, ring: seq<nat>, j: int)
    requires forall i | 0 <= i < |ring| :: ring[i] < |bufs|
  {
    forall i | 0 <= i < |ring| && j < i :: !Spare(bufs[ring[i]])
  }

  datatype Get = Got(b: nat) | Sleeps(b: nat) | NoBuffers

  class BCache {
    const n: nat                  // NBUF; the head node is number n
    var bufs: seq<Buffer>
    var next: seq<nat>
    var prev: seq<nat>
    var qnext: seq<int>
    var idequeue: int
    var disk: seq<Block>
    ghost var ring: seq<nat>      // most recently used first
    ghost var queue: seq<nat>

    ghost predicate Valid()
      reads this
    {
      && |bufs| == n && |qnext| == n && RingOk(n, next, prev, ring) && Unique(bufs) && BuffersOk(disk, bufs)
      && QueueOk(disk, bufs, queue) && Queued(qnext, idequeue, queue)
    }

    /** binit: every buffer is put in at the front. */
    constructor (n: nat, disk: seq<Block>)
      ensures Valid() && this.n == n && this.disk == disk && queue == []
      ensures forall i | 0 <= i < n :: !bufs[i].busy && !bufs[i].valid
    {
      this.n := n;
      bufs := seq(n, _ => Buffer(-1, 0, false, false, false, []));
      next := seq(n + 1, _ => n);
      prev := seq(n + 1, _ => n);
      qnext := seq(n, _ => -1);
      idequeue := -1;
      this.disk := disk;
      ring, queue := [], [];
      new;
      assert LinkedAt(next, prev, [n] + ring, 0);
      var b := 0;
      while b < n
        invariant b <= n && |next| == n + 1 && Linked(next, prev, [n] + ring) && |ring| == b
        invariant forall i: nat :: i in ring <==> i < b
        invariant bufs == seq(n, _ => Buffer(-1, 0, false, false, false, [])) && this.disk == disk
        invariant qnext == seq(n, _ => -1) && idequeue == -1 && queue == []
      {
        PushFront(b);
        b := b + 1;
      }
      assert forall i | 0 <= i < n :: ring[i] in ring;
    }

    /** b->next = head.next; b->prev = head; head.next->prev = b; head.next = b. */
    method PushFront(b: nat)
      requires |next| == n + 1 && Linked(next, prev, [n] + ring) && b !in [n] + ring && b < n
      modifies `next, `prev, `ring
      ensures |next| == n + 1 && Linked(next, prev, [n] + ring) && ring == [b] + old(ring)
    {
      hide Linked;
      ghost var c := [n] + ring;
      Splice(next, prev, c, b);
      assert Front(c, b) == [n] + ([b] + ring);
      var f := next[n];
      next := next[b := f];
      prev := prev[b := n];
      prev := prev[f := b];
      next := next[n := b];
      ring := [b] + ring;
    }

    /** Take b out of the ring and put it in at the front. */
    method MoveFront(b: nat)
      requires RingOk(n, next, prev, ring) && b < n
      modifies `next, `prev, `ring
      ensures RingOk(n, next, prev, ring) && Fronted(old(ring), ring, b)
    {
      ghost var i := Position(ring, b);
      ghost var c, was := [n] + ring, ring;
      hide Linked, Drop;
      Unlink(next, prev, c, i + 1);
      Neighbours(next, prev, c, i + 1);
      Gone(next, prev, ring, i, n);
      DropRing(n, ring, i);
      var p, q := prev[b], next[b];
      prev := prev[q := p];
      next := next[p := q];
      ring := ring[..i] + ring[i + 1..];
      PushFront(b);
      MovedFront(was, ring, i, n);
    }

    /** brelse: to the front of the ring, and no longer busy.  A caller that
        changed the data has marked the buffer dirty or written it. */
    method Brelse(b: nat)
      requires Valid() && b < n && bufs[b].busy && b !in queue && bufs[b].valid
      requires bufs[b].dirty ||
        (bufs[b].dev == DEV && bufs[b].blockno < |disk| && disk[bufs[b].blockno] == bufs[b].data)
      modifies `bufs, `next, `prev, `ring
      ensures Valid() && bufs == old(bufs)[b := old(bufs)[b].(busy := false)]
      ensures Fronted(old(ring), ring, b)
    {
      hide Linked, Unique, BuffersOk, QueueOk, Queued;
      MoveFront(b);
      ReleaseOk(disk, bufs, queue, b);
      bufs := bufs[b := bufs[b].(busy := false)];
    }

    // ------------------------------------------------------------------- bget

    /** The forward scan: the buffer of this block, or the head node. */
    method FindBlock(dev: int, blockno: nat) returns (b: nat)
      requires RingOk(n, next, prev, ring) && |bufs| == n
      ensures b <= n && (b < n ==> Holds(bufs[b], dev, blockno)) && (b == n ==> !Cached(bufs, dev, blockno))
    {
      hide Linked;
      ghost var c, k := [n] + ring, 1;
      FirstNode(next, prev, c);
      b := next[n];
      while b != n
        invariant 1 <= k <= n + 1 && b == (if k <= n then c[k] else n)
        invariant forall i | 0 <= i < k - 1 :: !Holds(bufs[ring[i]], dev, blockno)
        decreases n + 1 - k
      {
        assert c[k] == ring[k - 1];
        if bufs[b].dev == dev && bufs[b].blockno == blockno {
          return;
        }
        Neighbours(next, prev, c, k);
        b := next[b];
        k := k + 1;
      }
      forall i | 0 <= i < n ensures !Holds(bufs[i], dev, blockno) {
        assert ring[Position(ring, i)] == i;
      }
    }

    /** The backward scan: the least recently used spare buffer, or the head node. */
    method FindSpare() returns (b: nat)
      requires RingOk(n, next, prev, ring) && |bufs| == n
      ensures b <= n && (b == n ==> forall i | 0 <= i < n :: !Spare(bufs[i]))
      ensures b < n ==> Spare(bufs[b]) && LastSpare(bufs, ring, b)
    {
      hide Linked;
      ghost var c, k := [n] + ring, n;
      LastNode(next, prev, c);
      b := prev[n];
      while b != n
        invariant 0 <= k <= n && b == c[k]
        invariant NoneAfter(bufs, ring, k - 1)
        decreases k
      {
        assert c[k] == if k == 0 then n else ring[k - 1];
        if !bufs[b].busy && !bufs[b].dirty {
          return;
        }
        Neighbours(next, prev, c, k);
        b := prev[b];
        k := k - 1;
      }
      assert forall i | 0 <= i < n :: c[i + 1] == ring[i];
      forall i | 0 <= i < n ensures !Spare(bufs[i]) {
        assert ring[Position(ring, i)] == i;
      }
    }

    /** bget: the block's own buffer, or the least recently used spare one; the
        panic "no buffers" exactly when the block is not cached and every buffer
        is busy or dirty.  A dirty buffer is never recycled. */
    method Bget(dev: int, blockno: nat) returns (r: Get)
      requires Valid() && dev == DEV && blockno < |disk|
      modifies `bufs
      ensures Valid() && forall i | 0 <= i < n :: ring[i] < n
      ensures r.NoBuffers? <==> !Cached(old(bufs), dev, blockno) && forall i | 0 <= i < n :: !Spare(old(bufs)[i])
      ensures !r.Got? ==> bufs == old(bufs)
      ensures r.Sleeps? ==> r.b < n && Holds(bufs[r.b], dev, blockno) && bufs[r.b].busy
      ensures r.Got? ==> r.b < n && !old(bufs)[r.b].busy && r.b !in queue
      ensures r.Got? && Cached(old(bufs), dev, blockno) ==>
        Holds(old(bufs)[r.b], dev, blockno) && bufs == old(bufs)[r.b := old(bufs)[r.b].(busy := true)]
      ensures r.Got? && !Cached(old(bufs), dev, blockno) ==>
        && Spare(old(bufs)[r.b])
        && bufs == old(bufs)[r.b := Buffer(dev, blockno, false, false, true, old(bufs)[r.b].data)]
        && LastSpare(old(bufs), ring, r.b)
    {
      hide Linked, Unique, BuffersOk, QueueOk, Queued;
      var b := FindBlock(dev, blockno);
      if b < n {
        if bufs[b].busy {
          return Sleeps(b);
        }
        ClaimOk(disk, bufs, queue, b);
        bufs := bufs[b := bufs[b].(busy := true)];
        return Got(b);
      }
      b := FindSpare();
      if b == n {
        return NoBuffers;
      }
      RecycleOk(disk, bufs, queue, b, dev, blockno);
      bufs := bufs[b := Buffer(dev, blockno, false, false, true, bufs[b].data)];
      r := Got(b);
    }

    /** What the holder of a buffer may do to it: change its data, and mark it
        dirty as log_write and bwrite do. */
    method Change(b: nat, data: Block, dirty: bool)
      requires Valid() && b < n && bufs[b].busy && bufs[b].valid && b !in queue
      modifies `bufs
      ensures Valid() && bufs == old(bufs)[b := old(bufs)[b].(data := data, dirty := old(bufs)[b].dirty || dirty)]
    {
      hide RingOk, Unique, BuffersOk, QueueOk, Queued;
      ChangeOk(disk, bufs, queue, b, data, bufs[b].dirty || dirty);
      bufs := bufs[b := bufs[b].(data := data, dirty := bufs[b].dirty || dirty)];
    }

    /** bwrite: mark dirty and queue for the disk. */
    method Bwrite(b: nat)
      requires Valid() && b < n && bufs[b].busy && bufs[b].valid && b !in queue
      modifies `bufs, `qnext, `idequeue, `queue
      ensures Valid() && bufs == old(bufs)[b := old(bufs)[b].(dirty := true)] && queue == old(queue) + [b]
    {
      assert BufferOk(disk, bufs[b]);
      hide RingOk, Unique, BuffersOk, QueueOk, Queued;
      Change(b, bufs[b].data, true);
      Iderw(b);
    }

    // -------------------------------------------------------------------- ide

    /** iderw up to its wait: b goes to the end of the queue. */
    method Iderw(b: nat)
      requires Valid() && b < n && Waiting(disk, bufs[b]) && b !in queue
      modifies `qnext, `idequeue, `queue
      ensures Valid() && queue == old(queue) + [b]
    {
      hide RingOk, Unique, BuffersOk, QueueOk, Queued, Waiting;
      QueueMore(disk, bufs, queue, b);
      QueuedAppend(qnext, idequeue, queue, b);
      qnext := qnext[b := -1];
      if idequeue == -1 {
        idequeue := b;
      } else {
        var p := QueueEnd();
        qnext := qnext[p := b];
      }
      queue := queue + [b];
    }

    /** The loop of iderw: the last request. */
    method QueueEnd() returns (p: nat)
      requires Queued(qnext, idequeue, queue) && queue != []
      ensures p == queue[|queue| - 1]
    {
      p := idequeue;
      ghost var i := 0;
      while qnext[p] != -1
        invariant 0 <= i < |queue| && p == queue[i]
        decreases |queue| - i
      {
        p := qnext[p];
        i := i + 1;
      }
    }

    /** ideintr: the request at the head is carried out, in either direction. */
    method Ideintr()
      requires Valid()
      modifies `bufs, `qnext, `idequeue, `queue, `disk
      ensures Valid() && (old(queue) == [] ==> unchanged(this))
      ensures old(queue) != [] ==> queue == old(queue)[1..]
      ensures old(queue) != [] ==>
        var b := old(queue)[0];
        var u := old(bufs)[b];
        if u.dirty
        then disk == old(disk)[u.blockno := u.data] && bufs == old(bufs)[b := u.(valid := true, dirty := false)]
        else disk == old(disk) && bufs == old(bufs)[b := u.(valid := true, data := disk[u.blockno])]
    {
      hide RingOk, Unique, BuffersOk, QueueOk, Queued;
      QueuedPop(qnext, idequeue, queue);
      if idequeue == -1 {
        return;
      }
      var b := idequeue;
      QueueTail(disk, bufs, queue);
      DoneOk(disk, bufs, queue, b);
      idequeue := qnext[b];
      if bufs[b].dirty {
        disk := disk[bufs[b].blockno := bufs[b].data];
      } else {
        bufs := bufs[b := bufs[b].(data := disk[bufs[b].blockno])];
      }
      bufs := bufs[b := bufs[b].(valid := true, dirty := false)];
      assert bufs == old(bufs)[b := Carried(disk, old(bufs)[b])];
      queue := queue[1..];
    }
  }

  ghost function Position(s: seq<nat>, b: nat): (i: nat)
    requires b in s
    ensures i < |s| && s[i] == b
  {
    if s[0] == b then 0 else 1 + Position(s[1..], b)
  }

  lemma Neighbours(next: seq<nat>, prev: seq<nat>, c: seq<nat>, i: nat)
    requires Linked(next, prev, c) && 0 < i < |c|
    ensures c[i] < |next| && next[c[i]] == c[Succ(|c|, i)] && prev[c[i]] == c[i - 1]
  {
    assert LinkedAt(next, prev, c, i) && LinkedAt(next, prev, c, i - 1);
  }

  lemma DropRing(n: nat, ring: seq<nat>, i: nat)
    requires i < |ring|
    ensures Drop([n] + ring, i + 1) == [n] + (ring[..i] + ring[i + 1..]) && ([n] + ring)[i + 1] == ring[i]
  {
  }

  lemma Gone(next: seq<nat>, prev: seq<nat>, ring: seq<nat>, i: nat, n: nat)
    requires i < |ring| && Linked(next, prev, [n] + ring)
    ensures ring[i] !in [n] + (ring[..i] + ring[i + 1..])
  {
    var c := [n] + ring;
    DropNoDup(c, i + 1);
    assert Drop(c, i + 1) == [n] + (ring[..i] + ring[i + 1..]) && c[i + 1] == ring[i];
  }

  /** Moving one buffer to the front keeps the ring a permutation. */
  lemma MovedFront(was: seq<nat>, ring: seq<nat>, i: nat, n: nat)
    requires i < |was| == n && ring == [was[i]] + (was[..i] + was[i + 1..])
    requires (forall k | 0 <= k < n :: was[k] < n) && forall b: nat | b < n :: b in was
    ensures |ring| == n && (forall k | 0 <= k < n :: ring[k] < n) && forall b: nat | b < n :: b in ring
    ensures Fronted(was, ring, was[i])
  {
    forall b: nat | b < n ensures b in ring {
      var k := Position(was, b);
      assert k < i ==> ring[k + 1] == b;
      assert k > i ==> ring[k] == b;
      assert k == i ==> ring[0] == b;
    }
    forall k | 0 <= k < n ensures ring[k] < n {
      assert ring[k] == if k == 0 then was[i] else if k <= i then was[k - 1] else was[k];
    }
  }

  lemma ReleaseOk(disk: seq<Block>, bufs: seq<Buffer>, q: seq<nat>, b: nat)
    requires Unique(bufs) && BuffersOk(disk, bufs) && QueueOk(disk, bufs, q) && b < |bufs| && b !in q && bufs[b].valid
    requires bufs[b].dirty || (bufs[b].blockno < |disk| && disk[bufs[b].blockno] == bufs[b].data)
    ensures var bufs' := bufs[b := bufs[b].(busy := false)];
      Unique(bufs') && BuffersOk(disk, bufs') && QueueOk(disk, bufs', q)
  {
  }

  lemma FirstNode(next: seq<nat>, prev: seq<nat>, c: seq<nat>)
    requires Linked(next, prev, c)
    ensures c[0] < |next| && next[c[0]] == c[Succ(|c|, 0)]
  {
    assert LinkedAt(next, prev, c, 0);
  }

  lemma LastNode(next: seq<nat>, prev: seq<nat>, c: seq<nat>)
    requires Linked(next, prev, c)
    ensures c[0] < |prev| && prev[c[0]] == c[|c| - 1]
  {
    assert LinkedAt(next, prev, c, |c| - 1);
  }

  lemma ChangeOk(disk: seq<Block>, bufs: seq<Buffer>, q: seq<nat>, b: nat, data: Block, dirty: bool)
    requires Unique(bufs) && BuffersOk(disk, bufs) && QueueOk(disk, bufs, q) && b < |bufs| && bufs[b].busy
    requires bufs[b].valid && b !in q
    ensures var bufs' := bufs[b := bufs[b].(data := data, dirty := dirty)];
      Unique(bufs') && BuffersOk(disk, bufs') && QueueOk(disk, bufs', q)
  {
    assert BufferOk(disk, bufs[b]);
  }

  lemma ClaimOk(disk: seq<Block>, bufs: seq<Buffer>, q: seq<nat>, b: nat)
    requires Unique(bufs) && BuffersOk(disk, bufs) && QueueOk(disk, bufs, q) && b < |bufs| && !bufs[b].busy
    ensures var bufs' := bufs[b := bufs[b].(busy := true)];
      Unique(bufs') && BuffersOk(disk, bufs') && QueueOk(disk, bufs', q) && b !in q
  {
  }

  lemma RecycleOk(disk: seq<Block>, bufs: seq<Buffer>, q: seq<nat>, b: nat, dev: int, blockno: nat)
    requires Unique(bufs) && BuffersOk(disk, bufs) && QueueOk(disk, bufs, q) && b < |bufs| && Spare(bufs[b])
    requires dev == DEV
    requires !Cached(bufs, dev, blockno)
    ensures var bufs' := bufs[b := Buffer(dev, blockno, false, false, true, bufs[b].data)];
      Unique(bufs') && BuffersOk(disk, bufs') && QueueOk(disk, bufs', q) && b !in q
  {
    assert forall i | 0 <= i < |bufs| :: !Holds(bufs[i], dev, blockno);
  }

  /** A buffer when its request has been carried out. */
  function Carried(disk: seq<Block>, u: Buffer): Buffer
    requires u.dirty || u.blockno < |disk|
  {
    if u.dirty then u.(valid := true, dirty := false)
    else u.(valid := true, dirty := false, data := disk[u.blockno])
  }

  lemma QueueTail(disk: seq<Block>, bufs: seq<Buffer>, q: seq<nat>)
    requires QueueOk(disk, bufs, q) && q != []
    ensures q[0] < |bufs| && Waiting(disk, bufs[q[0]]) && q[0] !in q[1..]
  {
  }

  /** Carrying out a request keeps every other buffer equal to its disk block. */
  lemma DoneOk(disk: seq<Block>, bufs: seq<Buffer>, q: seq<nat>, b: nat)
    requires Unique(bufs) && BuffersOk(disk, bufs) && QueueOk(disk, bufs, q) && q != [] && b == q[0] && b < |bufs|
    requires Waiting(disk, bufs[b])
    ensures var u := bufs[b];
      var disk' := if u.dirty then disk[u.blockno := u.data] else disk;
      var bufs' := bufs[b := Carried(disk, u)];
      Unique(bufs') && BuffersOk(disk', bufs') && QueueOk(disk', bufs', q[1..])
  {
    forall i | 0 <= i < |bufs| && i != b
      ensures bufs[i].dev >= 0 ==> bufs[i].dev != DEV || bufs[i].blockno != bufs[b].blockno
    {
      assert i < b ==> bufs[i].dev >= 0 ==> !Holds(bufs[b], bufs[i].dev, bufs[i].blockno);
      assert b < i ==> !Holds(bufs[i], bufs[b].dev, bufs[b].blockno);
    }
    assert q[0] !in q[1..];
  }

  lemma QueuedAppend(qnext: seq<int>, head: int, q: seq<nat>, b: nat)
    requires Queued(qnext, head, q) && b !in q && b < |qnext| && NoDup(q)
    ensures Queued(qnext[b := -1], head, q) && (head == -1 <==> q == [])
    ensures q == [] ==> Queued(qnext[b := -1], b, q + [b])
    ensures q != [] ==> q[|q| - 1] < |qnext| && Queued(qnext[b := -1][q[|q| - 1] := b], head, q + [b])
  {
    if q != [] {
      var l := q[|q| - 1];
      var q', qnext' := q + [b], qnext[b := -1][l := b];
      forall i | 0 <= i < |q'| ensures q'[i] < |qnext'| && qnext'[q'[i]] == QueueAt(q', i + 1) {
        assert i < |q| ==> q[i] in q;
      }
    }
  }

  lemma QueueMore(disk: seq<Block>, bufs: seq<Buffer>, q: seq<nat>, b: nat)
    requires QueueOk(disk, bufs, q) && b !in q && b < |bufs| && Waiting(disk, bufs[b])
    ensures NoDup(q) && QueueOk(disk, bufs, q + [b])
  {
  }

  lemma QueuedPop(qnext: seq<int>, head: int, q: seq<nat>)
    requires Queued(qnext, head, q)
    ensures head == -1 <==> q == []
    ensures q != [] ==> head == q[0] && q[0] < |qnext| && Queued(qnext, qnext[q[0]], q[1..])
  {
    if q != [] {
      var r := q[1..];
      assert qnext[q[0]] == QueueAt(r, 0);
      forall i | 0 <= i < |r| ensures r[i] < |qnext| && qnext[r[i]] == QueueAt(r, i + 1) {
        assert r[i] == q[i + 1];
      }
    }
  }

  // ----------------------------------------------------- the logical cache

  /** The valid buffers are the cache of the log's model.  The buffers in f are
      on their way to the disk: their holders have filled them and not yet
      seen the write done, so their contents are not those of the model. */
  ghost predicate Matches(bufs: seq<Buffer>, cache: map<nat, LogMachine.Buf>, f: set<nat>) {
    && (forall i | 0 <= i < |bufs| && bufs[i].valid ::
          && bufs[i].blockno in cache
          && if i in f then Held(bufs[i], cache[bufs[i].blockno]) else Same(bufs[i], cache[bufs[i].blockno]))
    && (forall b | b in cache :: exists i | 0 <= i < |bufs| :: bufs[i].valid && bufs[i].blockno == b)
  }

  ghost predicate Same(u: Buffer, v: LogMachine.Buf) {
    u.data == v.data && u.dirty == v.dirty && (u.busy <==> v.owner.Some?)
  }

  ghost predicate Held(u: Buffer, v: LogMachine.Buf) { u.busy && v.owner.Some? }

  /** One buffer and the model's buffer of the same block change together. */
  lemma OneChanges(disk: seq<Block>, bufs: seq<Buffer>, cache: map<nat, LogMachine.Buf>, f: set<nat>, b: nat,
                   u: Buffer, v: LogMachine.Buf, f': set<nat>)
    requires Unique(bufs) && BuffersOk(disk, bufs) && Matches(bufs, cache, f) && b < |bufs| && bufs[b].valid
    requires u.valid && u.blockno == bufs[b].blockno && f' - {b} == f - {b}
    requires if b in f' then Held(u, v) else Same(u, v)
    ensures Matches(bufs[b := u], cache[u.blockno := v], f')
  {
    hide Unique, BuffersOk, Held, Same;
    var bufs', cache' := bufs[b := u], cache[u.blockno := v];
    OthersDiffer(disk, bufs, b);
    forall i | i in f' && i != b ensures i in f {
      assert i in f' - {b};
    }
    forall i | i in f && i != b ensures i in f' {
      assert i in f - {b};
    }
    forall y | y in cache' ensures exists i | 0 <= i < |bufs'| :: bufs'[i].valid && bufs'[i].blockno == y {
      if y == u.blockno {
        assert bufs'[b].valid && bufs'[b].blockno == y;
      } else {
        var i :| 0 <= i < |bufs| && bufs[i].valid && bufs[i].blockno == y;
        assert bufs'[i].valid && bufs'[i].blockno == y;
      }
    }
  }

  /** Recycling a buffer is the model's eviction, which is allowed. */
  lemma RecycleIsEvict(disk: seq<Block>, bufs: seq<Buffer>, s: LogMachine.State, f: set<nat>, b: nat, blockno: nat)
    requires Unique(bufs) && BuffersOk(disk, bufs) && Matches(bufs, s.cache, f)
    requires b < |bufs| && Spare(bufs[b]) && bufs[b].valid
    ensures LogMachine.CanEvict(s, bufs[b].blockno)
    ensures Matches(bufs[b := Buffer(DEV, blockno, false, false, true, bufs[b].data)],
                    LogMachine.Evict(s, bufs[b].blockno).cache, f)
  {
    hide Unique, BuffersOk;
    var x := bufs[b].blockno;
    var bufs', cache' := bufs[b := Buffer(DEV, blockno, false, false, true, bufs[b].data)], s.cache - {x};
    OthersDiffer(disk, bufs, b);
    forall y | y in cache' ensures exists i | 0 <= i < |bufs'| :: bufs'[i].valid && bufs'[i].blockno == y {
      var i :| 0 <= i < |bufs| && bufs[i].valid && bufs[i].blockno == y;
      assert bufs'[i].valid && bufs'[i].blockno == y;
    }
  }

  lemma OthersDiffer(disk: seq<Block>, bufs: seq<Buffer>, b: nat)
    requires Unique(bufs) && BuffersOk(disk, bufs) && b < |bufs| && bufs[b].valid
    ensures forall i | 0 <= i < |bufs| && i != b && bufs[i].valid :: bufs[i].blockno != bufs[b].blockno
  {
    forall i | 0 <= i < |bufs| && i != b && bufs[i].valid ensures bufs[i].blockno != bufs[b].blockno {
      OneEach(disk, bufs, b, i);
    }
  }

  lemma OneEach(disk: seq<Block>, bufs: seq<Buffer>, i: nat, j: nat)
    requires Unique(bufs) && BuffersOk(disk, bufs) && i < |bufs| && j < |bufs| && i != j
    requires (bufs[i].dev == DEV || bufs[i].valid) && bufs[j].valid
    ensures bufs[i].blockno != bufs[j].blockno
  {
    assert BufferOk(disk, bufs[i]) && BufferOk(disk, bufs[j]);
    assert i < j ==> !Holds(bufs[j], bufs[i].dev, bufs[i].blockno);
    assert j < i ==> !Holds(bufs[i], bufs[j].dev, bufs[j].blockno);
  }

  /** The disk read that fills a recycled buffer is the model's bread of an uncached block. */
  lemma FillIsBread(bufs: seq<Buffer>, s: LogMachine.State, f: set<nat>, t: nat, b: nat)
    requires Unique(bufs) && BuffersOk(s.disk, bufs) && Matches(bufs, s.cache, f) && b < |bufs| && b !in f
    requires Waiting(s.disk, bufs[b]) && !bufs[b].valid && (s.booting ==> t == s.committer)
    ensures LogMachine.CanBread(s, t, bufs[b].blockno) && bufs[b].blockno !in s.cache
    ensures Matches(bufs[b := bufs[b].(valid := true, data := s.disk[bufs[b].blockno])],
                    LogMachine.Bread(s, t, bufs[b].blockno).cache, f)
  {
    hide Unique, BuffersOk, Same, Held;
    var x := bufs[b].blockno;
    if x in s.cache {
      var i :| 0 <= i < |bufs| && bufs[i].valid && bufs[i].blockno == x;
      OneEach(s.disk, bufs, b, i);
    }
    CleanRead(s.disk, bufs, b, t);
    var bufs', cache' := bufs[b := bufs[b].(valid := true, data := s.disk[x])], LogMachine.Bread(s, t, x).cache;
    forall y | y in cache' ensures exists i | 0 <= i < |bufs'| :: bufs'[i].valid && bufs'[i].blockno == y {
      if y == x {
        assert bufs'[b].valid && bufs'[b].blockno == y;
      } else {
        var i :| 0 <= i < |bufs| && bufs[i].valid && bufs[i].blockno == y;
        assert bufs'[i].valid && bufs'[i].blockno == y;
      }
    }
  }

  lemma CleanRead(disk: seq<Block>, bufs: seq<Buffer>, b: nat, t: nat)
    requires BuffersOk(disk, bufs) && b < |bufs| && Waiting(disk, bufs[b]) && !bufs[b].valid
    ensures var data := disk[bufs[b].blockno];
      Same(bufs[b].(valid := true, data := data), LogMachine.Buf(data, false, Some(t), false))
  {
    assert BufferOk(disk, bufs[b]);
  }

  /** Claiming a cached buffer is the model's bread. */
  lemma ClaimIsBread(disk: seq<Block>, bufs: seq<Buffer>, s: LogMachine.State, f: set<nat>, t: nat, b: nat)
    requires Unique(bufs) && BuffersOk(disk, bufs) && Matches(bufs, s.cache, f) && b < |bufs| && bufs[b].valid
    requires !bufs[b].busy && bufs[b].blockno < |s.disk| && (s.booting ==> t == s.committer)
    ensures LogMachine.CanBread(s, t, bufs[b].blockno)
    ensures Matches(bufs[b := bufs[b].(busy := true)], LogMachine.Bread(s, t, bufs[b].blockno).cache, f)
  {
    hide Unique, BuffersOk;
    var v := s.cache[bufs[b].blockno];
    assert b !in f && Same(bufs[b], v);
    OneChanges(disk, bufs, s.cache, f, b, bufs[b].(busy := true), v.(owner := Some(t)), f);
  }

  /** Releasing a buffer is the model's brelse. */
  lemma ReleaseIsBrelse(disk: seq<Block>, bufs: seq<Buffer>, s: LogMachine.State, f: set<nat>, t: nat, b: nat)
    requires Unique(bufs) && BuffersOk(disk, bufs) && Matches(bufs, s.cache, f) && b < |bufs| && bufs[b].valid
    requires b !in f
    requires LogMachine.CanBrelse(s, t, bufs[b].blockno)
    ensures Matches(bufs[b := bufs[b].(busy := false)], LogMachine.Brelse(s, t, bufs[b].blockno).cache, f)
  {
    hide Unique, BuffersOk;
    var v := s.cache[bufs[b].blockno];
    assert Same(bufs[b], v);
    OneChanges(disk, bufs, s.cache, f, b, bufs[b].(busy := false), v.(owner := None), f);
  }

  /** The file system's change to a buffer it holds is the model's. */
  lemma ChangeIsModify(disk: seq<Block>, bufs: seq<Buffer>, s: LogMachine.State, f: set<nat>, t: nat, b: nat,
                       data: Block)
    requires Unique(bufs) && BuffersOk(disk, bufs) && Matches(bufs, s.cache, f) && b < |bufs| && bufs[b].valid
    requires b !in f
    requires LogMachine.Owns(s, t, bufs[b].blockno)
    ensures Matches(bufs[b := bufs[b].(data := data)], LogMachine.Modify(s, t, bufs[b].blockno, data).cache, f)
  {
    hide Unique, BuffersOk;
    var v := s.cache[bufs[b].blockno];
    assert Same(bufs[b], v);
    OneChanges(disk, bufs, s.cache, f, b, bufs[b].(data := data), v.(data := data, touched := true), f);
  }

  /** The dirty mark that log_write puts on a buffer is the model's, and pins the buffer. */
  lemma MarkIsLogWrite(disk: seq<Block>, bufs: seq<Buffer>, s: LogMachine.State, f: set<nat>, t: nat, b: nat)
    requires Unique(bufs) && BuffersOk(disk, bufs) && Matches(bufs, s.cache, f) && b < |bufs| && bufs[b].valid
    requires b !in f
    requires LogMachine.Owns(s, t, bufs[b].blockno) && t in s.ops
    ensures Matches(bufs[b := bufs[b].(dirty := true)], LogMachine.LogWrite(s, t, bufs[b].blockno).cache, f)
  {
    hide Unique, BuffersOk;
    var v := s.cache[bufs[b].blockno];
    assert Same(bufs[b], v);
    OneChanges(disk, bufs, s.cache, f, b, bufs[b].(dirty := true), v.(dirty := true, touched := false), f);
  }

  /** A commit fills a buffer it holds and hands it to the disk: from then on
      the buffer is in flight, and the model does not move. */
  lemma FillIsSilent(disk: seq<Block>, bufs: seq<Buffer>, s: LogMachine.State, f: set<nat>, t: nat, b: nat,
                     data: Block, dirty: bool)
    requires Unique(bufs) && BuffersOk(disk, bufs) && Matches(bufs, s.cache, f) && b < |bufs| && bufs[b].valid
    requires bufs[b].busy
    requires LogMachine.Owns(s, t, bufs[b].blockno)
    ensures Matches(bufs[b := bufs[b].(data := data, dirty := dirty)], s.cache, f + {b})
  {
    hide Unique, BuffersOk;
    var x := bufs[b].blockno;
    assert s.cache[x := s.cache[x]] == s.cache;
    OneChanges(disk, bufs, s.cache, f, b, bufs[b].(data := data, dirty := dirty), s.cache[x], f + {b});
  }

  /** The interrupt that ends the write is the model's bwrite, of buffer and disk at once. */
  lemma WriteIsBwrite(bufs: seq<Buffer>, s: LogMachine.State, f: set<nat>, t: nat, b: nat)
    requires Unique(bufs) && BuffersOk(s.disk, bufs) && Matches(bufs, s.cache, f) && b < |bufs| && bufs[b].valid
    requires Waiting(s.disk, bufs[b]) && bufs[b].dirty && LogMachine.Owns(s, t, bufs[b].blockno)
    ensures var u := bufs[b];
      var s' := LogMachine.Bwrite(s, u.blockno, u.data);
      && s'.disk == s.disk[u.blockno := u.data]
      && Matches(bufs[b := u.(valid := true, dirty := false)], s'.cache, f - {b})
  {
    hide Unique, BuffersOk;
    var u, v := bufs[b], s.cache[bufs[b].blockno];
    OneChanges(s.disk, bufs, s.cache, f, b, u.(dirty := false), v.(data := u.data, dirty := false), f - {b});
  }

  // -------------------------------------------------- buffers for a commit

  function Below(n: nat): (r: set<nat>)
    ensures |r| == n && forall i: nat :: i in r <==> i < n
  {
    if n == 0 then {} else Below(n - 1) + {n - 1}
  }

  function DirtyOnes(bufs: seq<Buffer>): set<nat> { set i | i in Below(|bufs|) && bufs[i].dirty }

  /** Buffers that are held but not dirty. */
  function CleanHeld(bufs: seq<Buffer>): set<nat> { set i | i in Below(|bufs|) && bufs[i].busy && !bufs[i].dirty }

  function BlocksOf(bufs: seq<Buffer>, d: set<nat>): set<nat>
    requires forall i | i in d :: i < |bufs|
  {
    set i | i in d :: bufs[i].blockno
  }

  lemma {:induction false} BlocksOfSize(bufs: seq<Buffer>, d: set<nat>)
    requires forall i | i in d :: i < |bufs|
    requires forall i, j | i in d && j in d && i != j :: bufs[i].blockno != bufs[j].blockno
    ensures |BlocksOf(bufs, d)| == |d|
    decreases |d|
  {
    if d != {} {
      var i :| i in d;
      BlocksOfSize(bufs, d - {i});
      assert BlocksOf(bufs, d) == BlocksOf(bufs, d - {i}) + {bufs[i].blockno};
    }
  }

  function SetOf(h: seq<nat>): set<nat> { set b | b in h }

  lemma {:induction false} HeaderSize(h: seq<nat>)
    requires forall i, j | 0 <= i < j < |h| :: h[i] != h[j]
    ensures |SetOf(h)| == |h|
  {
    if h != [] {
      var init, b := h[..|h| - 1], h[|h| - 1];
      HeaderSize(init);
      assert b !in init;
      assert SetOf(h) == SetOf(init) + {b};
    }
  }

  /** While blocks are logged and not yet written home, the dirty buffers are those of the header's blocks. */
  lemma DirtyAreLogged(g: LogMachine.Geometry, s: LogMachine.State, bufs: seq<Buffer>)
    requires LogMachine.Inv(g, s) && Unique(bufs) && BuffersOk(s.disk, bufs) && Matches(bufs, s.cache, {})
    requires s.phase == LogMachine.Open || s.phase.WriteLog? || s.phase == LogMachine.WriteHead
    ensures |DirtyOnes(bufs)| == |s.header|
    ensures forall i | i in DirtyOnes(bufs) :: g.Home(bufs[i].blockno)
  {
    var d := DirtyOnes(bufs);
    forall i | i in d ensures bufs[i].valid && bufs[i].blockno in s.header && g.Home(bufs[i].blockno) {
      DirtyLogged(g, s, bufs, i);
    }
    forall b | b in s.header ensures exists i :: i in d && bufs[i].blockno == b {
      LoggedDirty(g, s, bufs, b);
    }
    hide Unique, BuffersOk, Matches, LogMachine.DiskOk, LogMachine.CacheOk, LogMachine.Replay;
    assert BlocksOf(bufs, d) == SetOf(s.header);
    forall i, j | i in d && j in d && i != j ensures bufs[i].blockno != bufs[j].blockno {
      OneEach(s.disk, bufs, i, j);
    }
    BlocksOfSize(bufs, d);
    HeaderSize(s.header);
  }

  lemma DirtyLogged(g: LogMachine.Geometry, s: LogMachine.State, bufs: seq<Buffer>, i: nat)
    requires LogMachine.Inv(g, s) && BuffersOk(s.disk, bufs) && Matches(bufs, s.cache, {}) && i < |bufs|
    requires bufs[i].dirty
    requires s.phase == LogMachine.Open || s.phase.WriteLog? || s.phase == LogMachine.WriteHead
    ensures bufs[i].valid && bufs[i].blockno in s.header && g.Home(bufs[i].blockno)
  {
    hide LogMachine.DiskOk, LogMachine.Replay, LogMachine.Active;
    assert BufferOk(s.disk, bufs[i]);
    assert Same(bufs[i], s.cache[bufs[i].blockno]);
  }

  lemma LoggedDirty(g: LogMachine.Geometry, s: LogMachine.State, bufs: seq<Buffer>, b: nat)
    requires LogMachine.Inv(g, s) && Matches(bufs, s.cache, {}) && b in s.header
    requires s.phase == LogMachine.Open || s.phase.WriteLog? || s.phase == LogMachine.WriteHead
    ensures exists i :: i in DirtyOnes(bufs) && bufs[i].blockno == b
  {
    hide LogMachine.DiskOk, LogMachine.Replay, LogMachine.Active;
    assert b in s.cache && s.cache[b].dirty;
    var i :| 0 <= i < |bufs| && bufs[i].valid && bufs[i].blockno == b;
    assert Same(bufs[i], s.cache[b]);
    assert i in DirtyOnes(bufs);
  }

  /** No buffer is left to recycle if and only if the logged blocks and the
      clean buffers in use are as many as there are buffers. */
  lemma NoSpareIff(g: LogMachine.Geometry, s: LogMachine.State, bufs: seq<Buffer>)
    requires LogMachine.Inv(g, s) && Unique(bufs) && BuffersOk(s.disk, bufs) && Matches(bufs, s.cache, {})
    requires s.phase == LogMachine.Open || s.phase.WriteLog? || s.phase == LogMachine.WriteHead
    ensures (forall i | 0 <= i < |bufs| :: !Spare(bufs[i])) <==> |s.header| + |CleanHeld(bufs)| == |bufs|
    ensures |s.header| + |CleanHeld(bufs)| <= |bufs|
  {
    hide LogMachine.Inv, Unique, BuffersOk, Matches;
    DirtyAreLogged(g, s, bufs);
    SpareCount(bufs);
  }

  lemma SpareCount(bufs: seq<Buffer>)
    ensures (forall i | 0 <= i < |bufs| :: !Spare(bufs[i])) <==> |DirtyOnes(bufs)| + |CleanHeld(bufs)| == |bufs|
    ensures |DirtyOnes(bufs)| + |CleanHeld(bufs)| <= |bufs|
  {
    var d, c, all := DirtyOnes(bufs), CleanHeld(bufs), Below(|bufs|);
    var rest := all - d - c;
    assert all == d + c + rest && d !! c && d + c !! rest;
    assert |d + c| == |d| + |c| && |d + c + rest| == |d + c| + |rest|;
    forall i | i in all ensures i in rest <==> Spare(bufs[i]) {
    }
    if forall i | 0 <= i < |bufs| :: !Spare(bufs[i]) {
      assert rest == {};
    } else {
      var i :| 0 <= i < |bufs| && Spare(bufs[i]);
      assert i in rest;
    }
  }

  /** A commit finds a buffer to recycle if and only if the logged blocks and
      the clean buffers that others hold are fewer than the buffers.  While no
      clean buffer is held, that decides whether its next log block has one. */
  lemma CommitServedIff(g: LogMachine.Geometry, s: LogMachine.State, bufs: seq<Buffer>)
    requires LogMachine.Inv(g, s) && Unique(bufs) && BuffersOk(s.disk, bufs) && Matches(bufs, s.cache, {})
    requires s.phase.WriteLog?
    ensures (exists i | 0 <= i < |bufs| :: Spare(bufs[i])) <==> |s.header| + |CleanHeld(bufs)| < |bufs|
    ensures CleanHeld(bufs) == {} ==>
      (Cached(bufs, DEV, g.LogBlk(s.phase.tail)) || (exists i | 0 <= i < |bufs| :: Spare(bufs[i]))
       <==> |s.header| < |bufs|)
  {
    hide LogMachine.Inv, Unique, BuffersOk, Matches;
    NoSpareIff(g, s, bufs);
    DirtyAreLogged(g, s, bufs);
    TailInLog(g, s);
    if CleanHeld(bufs) == {} {
      forall i | 0 <= i < |bufs| && !Spare(bufs[i]) ensures !Holds(bufs[i], DEV, g.LogBlk(s.phase.tail)) {
        assert i !in CleanHeld(bufs);
        assert i in DirtyOnes(bufs);
      }
    }
  }

  lemma TailInLog(g: LogMachine.Geometry, s: LogMachine.State)
    requires LogMachine.Inv(g, s) && s.phase.WriteLog?
    ensures !g.Home(g.LogBlk(s.phase.tail)) && |s.header| < g.nlog && |s.header| <= g.capacity
  {
    hide LogMachine.CacheOk, LogMachine.Replay, LogMachine.Active, LogMachine.UpToDate, LogMachine.Logged;
  }

  // ------------------------------------------------------- least recently used

  /** The rings before, between and after the releases of these buffers. */
  ghost predicate Rings(rings: seq<seq<nat>>, released: seq<nat>) {
    && |rings| == |released| + 1
    && forall k | 0 <= k < |released| :: Fronted(rings[k], rings[k + 1], released[k])
  }

  /** When b was last released; 0 is never. */
  function LastUse(released: seq<nat>, b: nat): nat {
    if released == [] then 0
    else if released[|released| - 1] == b then |released|
    else LastUse(released[..|released| - 1], b)
  }

  ghost predicate StandsBefore(ring: seq<nat>, x: nat, y: nat) {
    exists i, j | 0 <= i < j < |ring| :: ring[i] == x && ring[j] == y
  }

  /** Where element k goes when element i is moved to the front. */
  lemma FrontIndex(was: seq<nat>, ring: seq<nat>, i: nat, k: nat)
    requires i < |was| && k < |was| && ring == [was[i]] + (was[..i] + was[i + 1..])
    ensures |ring| == |was| && ring[if k < i then k + 1 else if k == i then 0 else k] == was[k]
  {
  }

  lemma FrontedOrder(was: seq<nat>, ring: seq<nat>, b: nat, x: nat, y: nat)
    requires Fronted(was, ring, b) && y != b && x != b && StandsBefore(was, x, y)
    ensures StandsBefore(ring, x, y)
  {
    var i :| 0 <= i < |was| && was[i] == b && ring == [b] + (was[..i] + was[i + 1..]);
    var j, k :| 0 <= j < k < |was| && was[j] == x && was[k] == y;
    FrontIndex(was, ring, i, j);
    FrontIndex(was, ring, i, k);
  }

  lemma FrontedFirst(was: seq<nat>, ring: seq<nat>, b: nat, y: nat)
    requires Fronted(was, ring, b) && y in ring && y != b
    ensures StandsBefore(ring, b, y) && y in was
  {
    var j :| 0 <= j < |ring| && ring[j] == y;
    assert ring[0] == b;
  }

  lemma {:induction false} LastUseBound(released: seq<nat>, b: nat)
    ensures LastUse(released, b) <= |released|
  {
    if released != [] {
      LastUseBound(released[..|released| - 1], b);
    }
  }

  /** A buffer released later stands nearer to the front. */
  lemma {:induction false} RecentFirst(rings: seq<seq<nat>>, released: seq<nat>, x: nat, y: nat)
    requires Rings(rings, released) && y in rings[|released|] && LastUse(released, y) < LastUse(released, x)
    ensures StandsBefore(rings[|released|], x, y)
    decreases |released|
  {
    hide Fronted, StandsBefore;
    var n := |released| - 1;
    var init, b := released[..n], released[n];
    LastUseBound(init, x);
    LastUseBound(init, y);
    assert Fronted(rings[n], rings[n + 1], b);
    FrontedFirst(rings[n], rings[n + 1], b, y);
    if x != b {
      assert Rings(rings[..n + 1], init) && rings[..n + 1][n] == rings[n];
      RecentFirst(rings[..n + 1], init, x, y);
      FrontedOrder(rings[n], rings[n + 1], b, x, y);
    }
  }

  lemma NoneBehind(bufs: seq<Buffer>, ring: seq<nat>, b: nat, c: nat)
    requires NoDup(ring) && (forall i | 0 <= i < |ring| :: ring[i] < |bufs|) && LastSpare(bufs, ring, b)
    requires c < |bufs| && Spare(bufs[c])
    ensures !StandsBefore(ring, b, c)
  {
    var k :| 0 <= k < |ring| && ring[k] == b && NoneAfter(bufs, ring, k);
    forall i, j | 0 <= i < j < |ring| && ring[i] == b ensures ring[j] != c {
      assert i == k;
    }
  }

  /** The buffer that bget recycles was released longest ago of all that can be. */
  lemma LongestAgo(rings: seq<seq<nat>>, released: seq<nat>, bufs: seq<Buffer>, b: nat, c: nat)
    requires Rings(rings, released)
    requires var ring := rings[|released|];
      && NoDup(ring) && (forall i | 0 <= i < |ring| :: ring[i] < |bufs|) && LastSpare(bufs, ring, b)
      && c in ring && c < |bufs| && Spare(bufs[c])
    ensures LastUse(released, b) <= LastUse(released, c)
  {
    hide LastUse, Fronted, StandsBefore, LastSpare;
    NoneBehind(bufs, rings[|released|], b, c);
    if LastUse(released, c) < LastUse(released, b) {
      RecentFirst(rings, released, b, c);
    }
  }
}
