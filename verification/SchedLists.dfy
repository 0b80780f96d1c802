// The state lists of proc.c: singly linked through proc.next, one head pointer
// per list.  A pointer is a slot number; -1 is the null pointer.

module SchedLists {
  import opened Common
  import opened SchedModel

  function At(s: seq<nat>, j: nat): int {
    if j < |s| then s[j] else -1
  }

  /** Following next from h meets exactly the slots of s, in order, then null. */
  ghost predicate Chain(next: seq<int>, h: int, s: seq<nat>) {
    && h == At(s, 0)
    && forall j | 0 <= j < |s| :: s[j] < |next| && next[s[j]] == At(s, j + 1)
  }

  ghost predicate Linked(next: seq<int>, heads: map<ListId, int>, lists: Lists) {
    && heads.Keys == lists.Keys
    && forall id | id in lists :: Chain(next, heads[id], lists[id])
  }

  /** No slot is on two lists, or twice on one. */
  ghost predicate Apart(lists: Lists) {
    && (forall id | id in lists :: NoDup(lists[id]))
    && (forall a, b, x | a in lists && b in lists && a != b && x in lists[a] :: x !in lists[b])
  }

  ghost predicate OffLists(lists: Lists, x: nat) {
    forall id | id in lists :: x !in lists[id]
  }

  lemma ListedApart(m: Limits, procs: seq<Proc>, lists: Lists, gone: set<nat>)
    requires Listed(m, procs, lists, gone)
    ensures Apart(lists) && forall x | x in gone :: OffLists(lists, x)
  {
    forall id | id in lists
      ensures NoDup(lists[id]) && forall x | x in lists[id] :: x < |procs| && x !in gone && ListOf(procs[x]) == id
    {
      assert GoodList(procs, lists[id], id, gone);
    }
  }

  /** The slots in front of x. */
  ghost function Count(s: seq<nat>, x: nat): (j: nat)
    requires x in s
    ensures j < |s| && s[j] == x && x !in s[..j]
  {
    if s[0] == x then 0
    else
      var r := Count(s[1..], x);
      assert s[..r + 1] == [s[0]] + s[1..][..r];
      r + 1
  }

  lemma CountAt(s: seq<nat>, x: nat, j: nat)
    requires j < |s| && s[j] == x && x !in s[..j]
    ensures x in s && Count(s, x) == j
  {
    var c := Count(s, x);
    assert forall i | 0 <= i < j :: s[i] in s[..j];
    assert forall i | 0 <= i < c :: s[i] in s[..c];
  }

  // --------------------------------------------------- one list, new pointers

  lemma ChainOther(next: seq<int>, h: int, s: seq<nat>, x: nat, v: int)
    requires Chain(next, h, s) && x < |next| && x !in s
    ensures Chain(next[x := v], h, s)
  {
  }

  lemma ChainPush(next: seq<int>, h: int, s: seq<nat>, x: nat)
    requires Chain(next, h, s) && x < |next| && x !in s
    ensures Chain(next[x := h], x, [x] + s)
  {
    var next', s' := next[x := h], [x] + s;
    forall j | 0 <= j < |s'| ensures s'[j] < |next'| && next'[s'[j]] == At(s', j + 1) {
      if j > 0 {
        assert s'[j] == s[j - 1] && s[j - 1] in s;
      }
    }
  }

  lemma ChainAppend(next: seq<int>, h: int, s: seq<nat>, x: nat)
    requires Chain(next, h, s) && NoDup(s) && s != [] && x < |next| && x !in s
    ensures s[|s| - 1] < |next| && Chain(next[s[|s| - 1] := x][x := -1], h, s + [x])
  {
    var next', s' := next[s[|s| - 1] := x][x := -1], s + [x];
    forall j | 0 <= j < |s'| ensures s'[j] < |next'| && next'[s'[j]] == At(s', j + 1) {
      if j < |s| {
        assert s[j] in s;
      }
    }
  }

  lemma ChainPop(next: seq<int>, h: int, s: seq<nat>)
    requires Chain(next, h, s) && NoDup(s) && s != []
    ensures h == s[0] && Chain(next[h := -1], next[h], s[1..])
  {
    assert s[0] !in s[1..];
    ChainOther(next, next[h], s[1..], s[0], -1);
  }

  function Cut(next: seq<int>, s: seq<nat>, j: nat): seq<int>
    requires 0 < j < |s| && s[j] < |next| && s[j - 1] < |next|
  {
    next[s[j - 1] := next[s[j]]][s[j] := -1]
  }

  lemma CutAt(next: seq<int>, h: int, s: seq<nat>, j: nat, k: nat)
    requires Chain(next, h, s) && NoDup(s) && 0 < j < |s| && k < |s| && k != j
    ensures s[j] < |next| && s[j - 1] < |next| && s[k] < |next|
    ensures Cut(next, s, j)[s[k]] == if k == j - 1 then At(s, j + 1) else At(s, k + 1)
  {
    assert s[k] != s[j] && (k != j - 1 ==> s[k] != s[j - 1]);
    hide NoDup;
  }

  lemma ChainCut(next: seq<int>, h: int, s: seq<nat>, j: nat)
    requires Chain(next, h, s) && NoDup(s) && 0 < j < |s|
    ensures s[j] < |next| && s[j - 1] < |next|
    ensures Chain(Cut(next, s, j), h, s[..j] + s[j + 1..])
  {
    hide NoDup;
    var s' := s[..j] + s[j + 1..];
    assert s[j] < |next| && s[j - 1] < |next|;
    var next' := Cut(next, s, j);
    forall i | 0 <= i < |s'| ensures s'[i] < |next'| && next'[s'[i]] == At(s', i + 1) {
      CutAt(next, h, s, j, if i < j then i else i + 1);
    }
  }

  // ---------------------------------------------------------------- all lists

  /** Changing the pointers of slots that are on list id, or on none, leaves the other lists alone. */
  lemma LinkedOthers(next: seq<int>, next': seq<int>, heads: map<ListId, int>, lists: Lists, id: ListId, h': int,
                     s': seq<nat>)
    requires Linked(next, heads, lists) && id in lists && |next'| == |next|
    requires Chain(next', h', s')
    requires forall o, x | o in lists && o != id && x in lists[o] && x < |next| :: next'[x] == next[x]
    ensures Linked(next', heads[id := h'], lists[id := s'])
  {
    var heads', lists' := heads[id := h'], lists[id := s'];
    forall o | o in lists' ensures Chain(next', heads'[o], lists'[o]) {
      if o != id {
        assert Chain(next, heads[o], lists[o]);
        assert forall j | 0 <= j < |lists[o]| :: lists[o][j] in lists[o];
      }
    }
  }

  lemma WalkStart(next: seq<int>, heads: map<ListId, int>, lists: Lists, id: ListId)
    requires Linked(next, heads, lists) && id in lists
    ensures id in heads && heads[id] == At(lists[id], 0)
  {
    assert Chain(next, heads[id], lists[id]);
  }

  /** A walk along a list meets its slots in order. */
  lemma WalkNext(next: seq<int>, heads: map<ListId, int>, lists: Lists, id: ListId, j: nat)
    requires Linked(next, heads, lists) && id in lists && j < |lists[id]|
    ensures lists[id][j] < |next| && next[lists[id][j]] == At(lists[id], j + 1)
  {
    assert Chain(next, heads[id], lists[id]);
  }

  lemma ListFacts(next: seq<int>, heads: map<ListId, int>, lists: Lists, id: ListId)
    requires Linked(next, heads, lists) && Apart(lists) && id in lists
    ensures id in heads && Chain(next, heads[id], lists[id]) && NoDup(lists[id])
  {
  }

  lemma LinkedAppend(next: seq<int>, heads: map<ListId, int>, lists: Lists, id: ListId, x: nat)
    requires Linked(next, heads, lists) && Apart(lists) && id in lists && x < |next| && OffLists(lists, x)
    requires lists[id] != []
    ensures var s := lists[id];
      s[|s| - 1] < |next| && Linked(next[s[|s| - 1] := x][x := -1], heads, lists[id := s + [x]])
  {
    hide NoDup, Chain, Linked;
    ListFacts(next, heads, lists, id);
    var s := lists[id];
    ChainAppend(next, heads[id], s, x);
    assert s[|s| - 1] in s && heads[id := heads[id]] == heads;
    LinkedOthers(next, next[s[|s| - 1] := x][x := -1], heads, lists, id, heads[id], s + [x]);
  }

  lemma LinkedFirst(next: seq<int>, heads: map<ListId, int>, lists: Lists, id: ListId, x: nat)
    requires Linked(next, heads, lists) && id in lists && x < |next| && OffLists(lists, x)
    requires lists[id] == []
    ensures Linked(next[x := -1], heads[id := x], lists[id := [x]])
  {
    LinkedOthers(next, next[x := -1], heads, lists, id, x, [x]);
  }

  lemma LinkedTail(next: seq<int>, heads: map<ListId, int>, lists: Lists, id: ListId, x: nat)
    requires Linked(next, heads, lists) && Apart(lists) && id in lists && x < |next| && OffLists(lists, x)
    ensures var s := lists[id];
      if s == [] then Linked(next[x := -1], heads[id := x], lists[id := s + [x]])
      else s[|s| - 1] < |next| && Linked(next[s[|s| - 1] := x][x := -1], heads, lists[id := s + [x]])
  {
    hide Linked, Apart, OffLists;
    if lists[id] == [] {
      LinkedFirst(next, heads, lists, id, x);
      assert lists[id] + [x] == [x];
    } else {
      LinkedAppend(next, heads, lists, id, x);
    }
  }

  lemma LinkedPop(next: seq<int>, heads: map<ListId, int>, lists: Lists, id: ListId, x: nat)
    requires Linked(next, heads, lists) && Apart(lists) && id in lists && heads[id] == x
    ensures x < |next| && Linked(next[x := -1], heads[id := next[x]], lists[id := Without(lists[id], x)])
  {
    var s := lists[id];
    assert Chain(next, heads[id], s) && NoDup(s);
    WithoutAt(s, 0);
    ChainPop(next, x, s);
    assert s[0] in s;
    hide NoDup, Chain, Without;
    LinkedOthers(next, next[x := -1], heads, lists, id, next[x], Without(s, x));
  }

  lemma LinkedCut(next: seq<int>, heads: map<ListId, int>, lists: Lists, id: ListId, j: nat)
    requires Linked(next, heads, lists) && Apart(lists) && id in lists && 0 < j < |lists[id]|
    ensures var s := lists[id];
      s[j] < |next| && s[j - 1] < |next| && Linked(Cut(next, s, j), heads, lists[id := Without(s, s[j])])
  {
    var s := lists[id];
    assert Chain(next, heads[id], s) && NoDup(s);
    WithoutAt(s, j);
    ChainCut(next, heads[id], s, j);
    assert s[j] in s && s[j - 1] in s && heads[id := heads[id]] == heads;
    hide NoDup, Chain, Without;
    LinkedOthers(next, Cut(next, s, j), heads, lists, id, heads[id], Without(s, s[j]));
  }

  lemma ApartAdd(lists: Lists, id: ListId, x: nat, e: End)
    requires Apart(lists) && id in lists && OffLists(lists, x)
    ensures Apart(lists[id := if e.Head? then [x] + lists[id] else lists[id] + [x]])
  {
    var s' := if e.Head? then [x] + lists[id] else lists[id] + [x];
    assert forall y :: y in s' <==> y == x || y in lists[id];
    assert NoDup(s') by {
      assert NoDup(lists[id]) && x !in lists[id];
    }
    hide NoDup;
  }

  lemma ApartRemove(lists: Lists, id: ListId, x: nat)
    requires Apart(lists) && id in lists
    ensures Apart(lists[id := Without(lists[id], x)])
    ensures x in lists[id] ==> OffLists(lists[id := Without(lists[id], x)], x)
  {
    WithoutGone(lists[id], x);
    hide NoDup;
  }
}
