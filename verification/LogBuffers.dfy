// The log against a cache of NBUF buffers: a commit that finds none.

module LogBuffers {
  import opened Common
  import opened LogMachine
  import opened LogTheorems
  import opened LogReservation
  import BufferCache

  /** One idle, dirty buffer for each logged block. */
  ghost function PinnedBuffers(s: State): (bufs: seq<BufferCache.Buffer>)
    requires forall b | b in s.header :: b in s.cache
    ensures |bufs| == |s.header|
    ensures forall i | 0 <= i < |bufs| ::
      bufs[i] == BufferCache.Buffer(BufferCache.DEV, s.header[i], true, true, false, s.cache[s.header[i]].data)
  {
    seq(|s.header|, i requires 0 <= i < |s.header| =>
      BufferCache.Buffer(BufferCache.DEV, s.header[i], true, true, false, s.cache[s.header[i]].data))
  }

  lemma PinnedOnce(g: Geometry, s: State, k: nat)
    requires Cached(g, s, k) && HomeAt(g, k) <= g.fssize
    ensures BufferCache.Unique(PinnedBuffers(s)) && BufferCache.BuffersOk(s.disk, PinnedBuffers(s))
  {
    hide Pinned, PinnedBuffers;
    var bufs := PinnedBuffers(s);
    assert forall i | 0 <= i < |bufs| :: bufs[i].blockno == HomeAt(g, i);
  }

  lemma PinnedMatch(g: Geometry, s: State, k: nat)
    requires Cached(g, s, k)
    ensures BufferCache.Matches(PinnedBuffers(s), s.cache, {}) && BufferCache.CleanHeld(PinnedBuffers(s)) == {}
  {
    hide PinnedBuffers, HomeAt;
    var bufs := PinnedBuffers(s);
    forall b | b in s.cache ensures exists i | 0 <= i < |bufs| :: bufs[i].valid && bufs[i].blockno == b {
      var i :| 0 <= i < |s.header| && s.header[i] == b;
      assert bufs[i].valid && bufs[i].blockno == b;
    }
    forall i | 0 <= i < |bufs|
      ensures bufs[i].blockno in s.cache && BufferCache.Same(bufs[i], s.cache[bufs[i].blockno])
    {
      assert s.header[i] in s.header;
    }
  }

  /** With LOGSIZE + 1 log blocks and NBUF = LOGSIZE buffers, operations within
      their budgets reach a commit that finds no buffer for its first log
      block: none holds it and none can be recycled. */
  lemma CommitWithoutBuffer(g: Geometry) returns (run: seq<Step>, bufs: seq<BufferCache.Buffer>)
    requires SourceSizes(g) && g.capacity + 1 <= g.nlog
    ensures Start(g, Fresh(g)) && Budgeted(g, Fresh(g), run) && Legal(g, Fresh(g), run) && |bufs| == g.capacity
    ensures var s := After(g, Fresh(g), run);
      && s.phase == WriteLog(0) && BufferCache.Unique(bufs) && BufferCache.BuffersOk(s.disk, bufs)
      && BufferCache.Matches(bufs, s.cache, {}) && (forall i | 0 <= i < |bufs| :: !bufs[i].busy)
      && !BufferCache.Cached(bufs, BufferCache.DEV, g.LogBlk(0))
      && forall i | 0 <= i < |bufs| :: !BufferCache.Spare(bufs[i])
  {
    hide Enabled, Apply, Exec, Budgeted, Start, Inv, BufferCache.Matches, BufferCache.Unique, BufferCache.BuffersOk;
    run := FullCommitReachable(g);
    var s := After(g, Fresh(g), run);
    StartInv(g, Fresh(g));
    RunKeeps(g, Fresh(g), run);
    PinnedOnce(g, s, g.capacity);
    PinnedMatch(g, s, g.capacity);
    bufs := PinnedBuffers(s);
    BufferCache.CommitServedIff(g, s, bufs);
  }
}
