/** `fileset_find_entry` and the scan of `fileset_pick`, on the AVL tree itself. */
module FilesetFind {
  import opened AvlShape
  import opened AvlHeap
  import opened AvlLocate
  import opened AvlInsert
  import opened AvlWalk
  import opened AvlOrder
  import opened FilesetOrder

  /** The tree holds its entries in index order. */
  ghost predicate Indexed(tree: Tree, key: Keys<nat>)
    reads tree, Nodes(tree.shape)
  {
    tree.Valid() && Keyed(key, InOrder(tree.shape)) && Ordered(CompareIndex, key, InOrder(tree.shape))
  }

  /** The indices of some entries. */
  ghost function Indices(key: Keys<nat>, s: seq<Node>): (r: set<nat>)
    requires Keyed(key, s)
  {
    set i | 0 <= i < |s| :: key[s[i]]
  }

  /** The indices of the entries of `s` that are not busy. */
  ghost function IdleIndices(key: Keys<nat>, s: seq<Node>, busy: set<Node>): (r: set<nat>)
    requires Keyed(key, s)
  {
    set i | 0 <= i < |s| && s[i] !in busy :: key[s[i]]
  }

  /** The indices of `s` are below `i` before place `p` and not below it from there on. */
  ghost predicate SplitBy(key: Keys<nat>, s: seq<Node>, i: nat, p: nat)
    requires Keyed(key, s)
  {
    p <= |s| && (forall j :: 0 <= j < p ==> key[s[j]] < i) && forall j :: p <= j < |s| ==> i <= key[s[j]]
  }

  /** The cyclic successor in an ordered sequence split where `i` would go. */
  lemma CyclicAtSplit(key: Keys<nat>, s: seq<Node>, i: nat, p: nat)
    requires Keyed(key, s) && Ordered(CompareIndex, key, s) && s != [] && SplitBy(key, s, i, p)
    ensures Indices(key, s) != {} && CyclicFrom(Indices(key, s), i) == key[s[if p < |s| then p else 0]]
  {
    var q := if p < |s| then p else 0;
    assert key[s[q]] in Indices(key, s);
    forall y | y in Indices(key, s)
      ensures if p < |s| then i <= y ==> key[s[q]] <= y else y < i && key[s[q]] <= y
    {
      var j :| 0 <= j < |s| && key[s[j]] == y;
      assert q < j ==> CompareIndex(key[s[q]], key[s[j]]) < 0;
    }
    CyclicIs(Indices(key, s), i, key[s[q]]);
  }

  /** Splitting an ordered sequence at one of its members. */
  lemma SplitAtMember(key: Keys<nat>, s: seq<Node>, p: nat)
    requires Keyed(key, s) && Ordered(CompareIndex, key, s) && p < |s|
    ensures SplitBy(key, s, key[s[p]], p)
  {
    forall j | 0 <= j < |s| ensures (j < p ==> key[s[j]] < key[s[p]]) && (p <= j ==> key[s[p]] <= key[s[j]]) {
      if j < p {
        assert CompareIndex(key[s[j]], key[s[p]]) < 0;
      } else if p < j {
        assert CompareIndex(key[s[p]], key[s[j]]) < 0;
      }
    }
  }

  /** Where a search for `index` ends, in terms of plain indices. */
  lemma SearchSplit(key: Keys<nat>, s: seq<Node>, i: nat, index: nat)
    requires i <= |s| && Keyed(key, s)
    requires Keyed(key, s[..i]) && Below(CompareIndex, key, s[..i], index)
    requires Keyed(key, s[i..]) && Above(CompareIndex, key, s[i..], index)
    ensures SplitBy(key, s, index, i)
  {
    forall j | 0 <= j < |s| ensures (j < i ==> key[s[j]] < index) && (i <= j ==> index <= key[s[j]]) {
      if j < i {
        assert s[..i][j] == s[j];
      } else {
        assert s[i..][j - i] == s[j];
      }
    }
  }

  /** The index search of `avl_find` on entries. */
  method FindIndex(tree: Tree, key: Keys<nat>, index: nat) returns (r: Node?, w: Where)
    requires Indexed(tree, key)
    ensures r != null ==> r in InOrder(tree.shape) && r in key && key[r] == index
    ensures r == null ==>
              EmptySlot(tree, w) && SplitBy(key, InOrder(tree.shape), index, SlotIndex(InOrder(tree.shape), w))
  {
    CompareIsTotal();
    ghost var steps;
    r, w, steps := Find(tree, CompareIndex, key, index);
    if r == null {
      SearchSplit(key, InOrder(tree.shape), SlotIndex(InOrder(tree.shape), w), index);
    }
  }

  /** `fileset_find_entry`: the entry with the given index, else the next higher, else the lowest. */
  method FindEntry(tree: Tree, key: Keys<nat>, index: nat) returns (r: Node?)
    requires Indexed(tree, key)
    ensures r == null <==> InOrder(tree.shape) == []
    ensures r != null ==>
              && r in InOrder(tree.shape) && r in key && Indices(key, InOrder(tree.shape)) != {}
              && key[r] == CyclicFrom(Indices(key, InOrder(tree.shape)), index)
  {
    ghost var order := InOrder(tree.shape);
    var w;
    r, w := FindIndex(tree, key, index);
    if r != null {
      ghost var p := IndexOf<Node>(order, r);
      SplitAtMember(key, order, p);
      CyclicAtSplit(key, order, index, p);
      return;
    }
    if order != [] { CyclicAtSplit(key, order, index, SlotIndex(order, w)); }
    assert Snap(Nodes(tree.shape)) == old(Snap(Nodes(tree.shape)));
    r := Nearest(tree, w, 1);
    if r != null {
      return;
    }
    assert Snap(Nodes(tree.shape)) == old(Snap(Nodes(tree.shape)));
    r := First(tree);
  }

  /** The scan has gone from place `p0` to place `p`, wrapping or not, over busy entries only. */
  ghost predicate Scanned(s: seq<Node>, busy: set<Node>, p0: nat, p: nat, wrapped: bool) {
    && p0 < |s| && p < |s|
    && if wrapped then
         p < p0 && (forall j :: p0 <= j < |s| ==> s[j] in busy) && forall j :: 0 <= j < p ==> s[j] in busy
       else
         p0 <= p && forall j :: p0 <= j < p ==> s[j] in busy
  }

  /** The first idle entry the scan meets is the cyclic successor among the idle ones. */
  lemma ScanFinds(key: Keys<nat>, s: seq<Node>, busy: set<Node>, p0: nat, p: nat, wrapped: bool)
    requires Keyed(key, s) && Ordered(CompareIndex, key, s)
    requires Scanned(s, busy, p0, p, wrapped) && s[p] !in busy
    ensures IdleIndices(key, s, busy) != {} && CyclicFrom(IdleIndices(key, s, busy), key[s[p0]]) == key[s[p]]
  {
    var r := IdleIndices(key, s, busy);
    assert key[s[p]] in r;
    SplitAtMember(key, s, p0);
    SplitAtMember(key, s, p);
    forall y | y in r
      ensures if wrapped then y < key[s[p0]] && key[s[p]] <= y else key[s[p0]] <= y ==> key[s[p]] <= y
    {
      var j :| 0 <= j < |s| && s[j] !in busy && key[s[j]] == y;
    }
    CyclicIs(r, key[s[p0]], key[s[p]]);
  }

  /** `r` is null when every entry is busy, and else the idle entry that comes first from `start`, cyclically. */
  ghost predicate FirstIdle(key: Keys<nat>, s: seq<Node>, busy: set<Node>, start: Node, r: Node?)
    requires Keyed(key, s)
  {
    && (r == null <==> forall i :: 0 <= i < |s| ==> s[i] in busy)
    && (r != null ==>
          && r in s && r !in busy && r in key && start in key && IdleIndices(key, s, busy) != {}
          && key[r] == CyclicFrom(IdleIndices(key, s, busy), key[start]))
  }

  /** Going on from a busy entry: either the scan is back where it began and all are busy, or it has gone one further. */
  lemma ScanOn(s: seq<Node>, busy: set<Node>, p0: nat, p: nat, wrapped: bool)
    requires NoDup(s) && Scanned(s, busy, p0, p, wrapped) && s[p] in busy
    ensures var q := if p + 1 < |s| then p + 1 else 0;
            if s[q] == s[p0] then forall i :: 0 <= i < |s| ==> s[i] in busy
            else Scanned(s, busy, p0, q, wrapped || q == 0) && (q == 0 ==> !wrapped)
  {
  }

  lemma ScanStops(key: Keys<nat>, s: seq<Node>, busy: set<Node>, p0: nat, p: nat, wrapped: bool)
    requires Keyed(key, s) && Ordered(CompareIndex, key, s)
    requires Scanned(s, busy, p0, p, wrapped) && s[p] !in busy
    ensures FirstIdle(key, s, busy, s[p0], s[p])
  {
    ScanFinds(key, s, busy, p0, p, wrapped);
  }

  /** From `start`, the first entry that is not busy, going up and round; null when every entry is busy. */
  method ScanIdle(tree: Tree, key: Keys<nat>, busy: set<Node>, start: Node) returns (r: Node?)
    requires Indexed(tree, key) && start in InOrder(tree.shape)
    ensures FirstIdle(key, InOrder(tree.shape), busy, start, r)
  {
    ghost var s := InOrder(tree.shape);
    ghost var p0 := IndexOf(s, start);
    ghost var p: nat, wrapped := p0, false;
    InOrderNoDup(tree.shape);
    var entry := start;
    while entry in busy
      invariant Scanned(s, busy, p0, p, wrapped) && entry == s[p]
      invariant Snap(Nodes(tree.shape)) == old(Snap(Nodes(tree.shape)))
      decreases !wrapped, |s| - p
    {
      var next := StepRound(tree, entry, p);
      ScanOn(s, busy, p0, p, wrapped);
      if next == start {
        return null;
      }
      p := if p + 1 < |s| then p + 1 else 0;
      wrapped := wrapped || p == 0;
      entry := next;
    }
    ScanStops(key, s, busy, p0, p, wrapped);
    r := entry;
  }

  /** The next entry up, or the lowest after the highest. */
  method StepRound(tree: Tree, entry: Node, ghost p: nat) returns (r: Node)
    requires tree.Valid() && p < |InOrder(tree.shape)| && entry == InOrder(tree.shape)[p]
    ensures var s := InOrder(tree.shape); r == s[if p + 1 < |s| then p + 1 else 0]
    ensures Snap(Nodes(tree.shape)) == old(Snap(Nodes(tree.shape)))
  {
    ghost var s := InOrder(tree.shape);
    InOrderNoDup(tree.shape);
    NodesInOrder(tree.shape, entry);
    assert IndexOf(s, entry) == p;
    var next := Walk(tree, entry, 1);
    assert next == Neighbour(s, p, 1);
    if next == null {
      assert p + 1 == |s|;
      assert Snap(Nodes(tree.shape)) == old(Snap(Nodes(tree.shape)));
      next := First(tree);
      assert next == s[0];
    }
    assert Snap(Nodes(tree.shape)) == old(Snap(Nodes(tree.shape)));
    r := next;
  }
}
