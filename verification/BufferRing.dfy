// The ring of bio.c: a doubly linked circle through a head node, kept in order
// of use.

module BufferRing {
  import opened Common

  predicate LinkedAt(next: seq<nat>, prev: seq<nat>, c: seq<nat>, i: nat)
    requires i < |c|
  {
    var d := c[Succ(|c|, i)];
    c[i] < |next| && d < |prev| && next[c[i]] == d && prev[d] == c[i]
  }

  /** next and prev go round the circle c, forwards and backwards. */
  ghost predicate Linked(next: seq<nat>, prev: seq<nat>, c: seq<nat>) {
    && c != [] && |next| == |prev| && NoDup(c)
    && forall i | 0 <= i < |c| :: LinkedAt(next, prev, c, i)
  }

  function Drop(c: seq<nat>, i: nat): seq<nat>
    requires i < |c|
  {
    c[..i] + c[i + 1..]
  }

  function Front(c: seq<nat>, b: nat): seq<nat>
    requires c != []
  {
    [c[0], b] + c[1..]
  }

  lemma Differ(c: seq<nat>, i: nat, j: nat)
    requires NoDup(c) && i < |c| && j < |c| && i != j
    ensures c[i] != c[j]
  {
    if i < j { assert c[i] != c[j]; } else { assert c[j] != c[i]; }
  }

  lemma DropNoDup(c: seq<nat>, i: nat)
    requires NoDup(c) && i < |c|
    ensures NoDup(Drop(c, i)) && c[i] !in Drop(c, i)
  {
    var d := Drop(c, i);
    forall j, k | 0 <= j < k < |d| ensures d[j] != d[k] {
      Differ(c, if j < i then j else j + 1, if k < i then k else k + 1);
    }
    forall j | 0 <= j < |d| ensures d[j] != c[i] {
      Differ(c, i, if j < i then j else j + 1);
    }
  }

  /** b->next->prev = b->prev; b->prev->next = b->next. */
  lemma Unlink(next: seq<nat>, prev: seq<nat>, c: seq<nat>, i: nat)
    requires Linked(next, prev, c) && 0 < i < |c|
    ensures c[i - 1] < |next| && c[Succ(|c|, i)] < |prev|
    ensures Linked(next[c[i - 1] := c[Succ(|c|, i)]], prev[c[Succ(|c|, i)] := c[i - 1]], Drop(c, i))
  {
    assert LinkedAt(next, prev, c, i) && LinkedAt(next, prev, c, i - 1);
    var a, b := c[i - 1], c[Succ(|c|, i)];
    var next', prev', d := next[a := b], prev[b := a], Drop(c, i);
    DropNoDup(c, i);
    hide NoDup;
    forall j | 0 <= j < |d| ensures LinkedAt(next', prev', d, j) {
      var o := if j < i then j else j + 1;
      assert LinkedAt(next, prev, c, o);
      UnlinkAt(next, prev, c, i, j);
    }
  }

  lemma UnlinkAt(next: seq<nat>, prev: seq<nat>, c: seq<nat>, i: nat, j: nat)
    requires Linked(next, prev, c) && 0 < i < |c| && j < |c| - 1
    requires c[i - 1] < |next| && c[Succ(|c|, i)] < |prev|
    ensures LinkedAt(next[c[i - 1] := c[Succ(|c|, i)]], prev[c[Succ(|c|, i)] := c[i - 1]], Drop(c, i), j)
  {
    var n := |c|;
    var o := if j < i then j else j + 1;
    assert LinkedAt(next, prev, c, o) && LinkedAt(next, prev, c, i) && LinkedAt(next, prev, c, i - 1);
    if o != i - 1 { Differ(c, o, i - 1); }
    if Succ(n, o) != Succ(n, i) { Differ(c, Succ(n, o), Succ(n, i)); }
    hide NoDup;
  }

  /** Splice b in behind the head. */
  lemma Splice(next: seq<nat>, prev: seq<nat>, c: seq<nat>, b: nat)
    requires Linked(next, prev, c) && b !in c && b < |next|
    ensures |next| == |prev| && c[0] < |next| && next[c[0]] < |prev|
    ensures var h := c[0]; var f := next[h];
      Linked(next[b := f][h := b], prev[b := h][f := b], Front(c, b))
  {
    assert LinkedAt(next, prev, c, 0);
    var h, f := c[0], next[c[0]];
    var next', prev', d := next[b := f][h := b], prev[b := h][f := b], Front(c, b);
    assert NoDup(d) by {
      forall i, j | 0 <= i < j < |d| ensures d[i] != d[j] {
        assert i == 1 ==> d[j] == c[j - 1] && d[j] in c;
        assert j == 1 ==> d[i] == c[0] && d[i] in c;
        if i != 1 && j != 1 {
          Differ(c, if i == 0 then 0 else i - 1, j - 1);
        }
      }
    }
    hide NoDup;
    forall j | 0 <= j < |d| ensures LinkedAt(next', prev', d, j) {
      SpliceAt(next, prev, c, b, j);
    }
  }

  lemma SpliceAt(next: seq<nat>, prev: seq<nat>, c: seq<nat>, b: nat, j: nat)
    requires Linked(next, prev, c) && b !in c && b < |next| && j <= |c|
    requires c[0] < |next| && next[c[0]] < |prev|
    ensures LinkedAt(next[b := next[c[0]]][c[0] := b], prev[b := c[0]][next[c[0]] := b], Front(c, b), j)
  {
    var o := if j <= 1 then 0 else j - 1;
    assert LinkedAt(next, prev, c, o) && LinkedAt(next, prev, c, 0);
    assert c[o] in c && c[Succ(|c|, o)] in c && c[Succ(|c|, 0)] in c;
    if o != 0 {
      Differ(c, o, 0);
      if Succ(|c|, o) != Succ(|c|, 0) { Differ(c, Succ(|c|, o), Succ(|c|, 0)); }
    }
    hide NoDup;
  }
}
