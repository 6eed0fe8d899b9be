/** The critical sections of one kind of entry over the three AVL trees themselves. */
module FilesetPool {
  import opened AvlShape
  import opened AvlHeap
  import opened AvlLocate
  import opened AvlOrder
  import opened FilesetOrder
  import opened FilesetFind
  import opened FilesetMove
  import opened FilesetState

  /** Indices read off the order of a tree are those of its nodes. */
  lemma IndicesAreIndexSet(key: Keys<nat>, t: Shape, busy: set<Node>)
    requires Keyed(key, InOrder(t))
    ensures Nodes(t) <= key.Keys
    ensures Indices(key, InOrder(t)) == IndexSet(key, Nodes(t))
    ensures IdleIndices(key, InOrder(t), busy) == IndexSet(key, Nodes(t) - busy)
  {
    InOrderNodes(t);
    var s := InOrder(t);
    assert forall i :: 0 <= i < |s| ==> s[i] in Elems(s);
    forall n | n in Nodes(t) ensures n in key {
      assert n in Elems(s);
    }
    forall n | n in Nodes(t) ensures key[n] in Indices(key, s) && (n !in busy ==> key[n] in IdleIndices(key, s, busy)) {
      assert n in Elems(s);
      var i :| 0 <= i < |s| && s[i] == n;
    }
  }

  /** Where a pick starts, in terms of the entries of the tree. */
  method FindStart(tree: Tree, key: Keys<nat>, i: nat) returns (start: Node)
    requires Indexed(tree, key) && Nodes(tree.shape) != {}
    ensures start in Nodes(tree.shape) && Nodes(tree.shape) <= key.Keys && IndexSet(key, Nodes(tree.shape)) != {}
    ensures key[start] == CyclicFrom(IndexSet(key, Nodes(tree.shape)), i)
    ensures Snap(Nodes(tree.shape)) == old(Snap(Nodes(tree.shape)))
  {
    IndicesAreIndexSet(key, tree.shape, {});
    InOrderNodes(tree.shape);
    var r := FindEntry(tree, key, i);
    start := r;
    NodesInOrder(tree.shape, start);
  }

  /** Distinct indices: leaving out the busy entries leaves out just their indices. */
  lemma IdleImage(key: Keys<nat>, t: set<Node>, busy: set<Node>)
    requires Injective(key) && t <= key.Keys
    ensures IndexSet(key, t - busy) == IndexSet(key, t) - IndexSet(key, t * busy)
  {
  }

  /** Scanning on from the start for an idle entry is looking for one from the request itself. */
  lemma ScanMeans(key: Keys<nat>, t: set<Node>, busy: set<Node>, start: Node, i: nat, e: Node)
    requires Injective(key) && t <= key.Keys && start in t && e in t && e !in busy && IndexSet(key, t) != {}
    requires key[start] == CyclicFrom(IndexSet(key, t), i)
    requires IndexSet(key, t - busy) != {} && key[e] == CyclicFrom(IndexSet(key, t - busy), key[start])
    ensures IsCyclic(key, t - busy, i, e)
  {
    IdleImage(key, t, busy);
    CyclicSkips(IndexSet(key, t), IndexSet(key, t * busy), i);
  }

  function OrNone(e: Node?): (r: Option<Node>) {
    if e == null then None else Option<Node>.Some(e)
  }

  /** What a pick ends with: nothing if all are busy, else the cyclic successor of the request among the idle. */
  ghost predicate Ends(key: Keys<nat>, t: set<Node>, busy: set<Node>, i: nat, r: Option<Node>) {
    match r
    case None => t <= busy
    case Some(e) => IsCyclic(key, t - busy, i, e)
  }

  lemma ScanEnds(key: Keys<nat>, w: Shape, busy: set<Node>, start: Node, i: nat, e: Node?)
    requires Keyed(key, InOrder(w)) && Nodes(w) <= key.Keys && Injective(key) && start in Nodes(w)
    requires IndexSet(key, Nodes(w)) != {} && key[start] == CyclicFrom(IndexSet(key, Nodes(w)), i)
    requires FirstIdle(key, InOrder(w), busy, start, e)
    ensures Ends(key, Nodes(w), busy, i, OrNone(e))
  {
    IndicesAreIndexSet(key, w, busy);
    InOrderNodes(w);
    if e != null {
      NodesInOrder(w, e);
      ScanMeans(key, Nodes(w), busy, start, i, e);
    }
  }

  method ScanFrom(tree: Tree, key: Keys<nat>, busy: set<Node>, start: Node, ghost i: nat) returns (r: Option<Node>)
    requires Indexed(tree, key) && start in Nodes(tree.shape) && Nodes(tree.shape) <= key.Keys
    requires IndexSet(key, Nodes(tree.shape)) != {} && key[start] == CyclicFrom(IndexSet(key, Nodes(tree.shape)), i)
    requires Injective(key)
    ensures Ends(key, Nodes(tree.shape), busy, i, r)
  {
    NodesInOrder(tree.shape, start);
    var e := ScanIdle(tree, key, busy, start);
    ScanEnds(key, tree.shape, busy, start, i, e);
    r := OrNone(e);
  }

  function Committed(s: State<Node>, p: Pool, st: Start, found: nat, r: Option<Node>): (t: State<Node>)
    requires |s.exRotor| == MAX_TID && (st.Rotor? ==> st.tid < MAX_TID)
  {
    var turned := TurnRotor(s, p, st, found);
    if r.Some? then Take(turned, r.value) else turned
  }

  /** Finding the start and the end of the scan settles the whole pick. */
  lemma SeekPicks(s: State<Node>, p: Pool, st: Start, found: nat, r: Option<Node>)
    requires Sound(s) && (st.Rotor? ==> st.tid < MAX_TID) && FilesetState.Tree(s, p) != {}
    requires var t := FilesetState.Tree(s, p); var i := StartIndex(s, p, st);
             && IndexSet(s.index, t) != {} && found == CyclicFrom(IndexSet(s.index, t), i)
             && Ends(s.index, t, s.busy, i, r)
    ensures Picks(s, p, st, Committed(s, p, st, found, r), r)
  {
  }

  lemma CountTells(tree: Tree)
    requires tree.Valid()
    ensures tree.numNodes == 0 <==> Nodes(tree.shape) == {}
  {
    InOrderNodes(tree.shape);
  }

  /** Three trees, each in index order. */
  ghost predicate Trees(key: Keys<nat>, free: Tree, exist: Tree, noex: Tree)
    reads free, exist, noex, Nodes(free.shape), Nodes(exist.shape), Nodes(noex.shape)
  {
    && free != exist && free != noex && exist != noex
    && Indexed(free, key) && Indexed(exist, key) && Indexed(noex, key)
    && Nodes(free.shape) !! Nodes(exist.shape) && Nodes(noex.shape) !! Nodes(free.shape) + Nodes(exist.shape)
  }

  ghost predicate Empty(tree: Tree)
    reads tree
  {
    tree.shape == Leaf && tree.root == null && tree.numNodes == 0
  }

  lemma NoEntries(free: Tree, exist: Tree, noex: Tree)
    requires free != exist && free != noex && exist != noex && Empty(free) && Empty(exist) && Empty(noex)
    ensures Trees(map[], free, exist, noex)
  {
  }

  /** Which tree is which does not matter. */
  lemma TreesReversed(key: Keys<nat>, a: Tree, b: Tree, c: Tree)
    requires Trees(key, a, b, c)
    ensures Trees(key, c, b, a)
  {
  }

  lemma TreesTurned(key: Keys<nat>, a: Tree, b: Tree, c: Tree)
    requires Trees(key, a, b, c)
    ensures Trees(key, b, c, a)
  {
  }

  lemma TreesSwapped(key: Keys<nat>, a: Tree, b: Tree, c: Tree)
    requires Trees(key, a, b, c)
    ensures Trees(key, a, c, b)
  {
  }

  /** A move between two of the trees leaves the third alone. */
  method MoveAmong(src: Tree, dst: Tree, ghost other: Tree, key: Keys<nat>, entry: Node)
    requires Trees(key, src, dst, other) && Injective(key) && entry in Nodes(src.shape) && entry in key
    modifies src, dst, Nodes(src.shape), Nodes(dst.shape)
    ensures Trees(key, src, dst, other)
    ensures Nodes(src.shape) == old(Nodes(src.shape)) - {entry}
    ensures Nodes(dst.shape) == old(Nodes(dst.shape)) + {entry}
    ensures Nodes(other.shape) == old(Nodes(other.shape))
  {
    MoveEntry(src, dst, key, entry);
    assert Snap(Nodes(other.shape)) == old(Snap(Nodes(other.shape)));
  }

  /** The move, then the release. */
  lemma UnbusyParts(s: State<Node>, e: Node, q: Release)
    requires Sound(s) && e in s.index
    ensures var u := if q.updateExist then SetExists(s, e, q.newExist) else s;
            && Sound(u) && u.index == s.index && u.open == s.open
            && FilesetState.Unbusy(u, e, FilesetState.Release(false, false, q.openIncr)) == FilesetState.Unbusy(s, e, q)
            && Sound(FilesetState.Unbusy(s, e, q))
  {
    SetExistsSound(s, e, q.newExist);
    UnbusySound(s, e, q);
  }

  class EntryPool {
    var key: map<Node, nat>
    const free: Tree
    const exist: Tree
    const noex: Tree
    var isFree: set<Node>
    var extant: set<Node>
    var busy: set<Node>
    var waiting: set<Node>
    var openCnt: map<Node, int>
    var idle: int
    var neRotor: nat
    var exRotor: seq<nat>

    /** The pool as a value. */
    ghost function View(): (s: State<Node>)
      reads this, free, exist, noex
    {
      State(key, isFree, extant, busy, waiting, Nodes(free.shape), Nodes(exist.shape), Nodes(noex.shape),
            openCnt, idle, neRotor, exRotor)
    }

    ghost function Links(): (s: set<Node>)
      reads free, exist, noex
    {
      Nodes(free.shape) + Nodes(exist.shape) + Nodes(noex.shape)
    }

    ghost predicate Valid()
      reads this, free, exist, noex, Links()
    {
      Trees(key, free, exist, noex) && Sound(View())
    }

    /** No entries yet, over three trees just created. */
    constructor (f: Tree, e: Tree, n: Tree)
      requires f != e && f != n && e != n && Empty(f) && Empty(e) && Empty(n)
      ensures free == f && exist == e && noex == n && Valid()
      ensures View() == State(map[], {}, {}, {}, {}, {}, {}, {}, map[], 0, 0, seq(MAX_TID, _ => 0))
    {
      free, exist, noex := f, e, n;
      key, openCnt, idle := map[], map[], 0;
      isFree, extant, busy, waiting := {}, {}, {}, {};
      neRotor, exRotor := 0, seq(MAX_TID, _ => 0);
      new;
      NoEntries(f, e, n);
    }

    function Choose(p: Pool): (t: Tree) {
      match p
      case Unique => free
      case NotExisting => noex
      case Existing => exist
    }

    /** The rotor a pick uses moves just past where it started. */
    method Turn(p: Pool, st: Start, found: nat)
      requires |exRotor| == MAX_TID && (st.Rotor? ==> st.tid < MAX_TID)
      modifies this`neRotor, this`exRotor
      ensures View() == TurnRotor(old(View()), p, st, found)
    {
      if st.Rotor? {
        if p == NotExisting {
          neRotor := found + 1;
        } else {
          exRotor := exRotor[st.tid := found + 1];
        }
      }
    }

    /** Marks `e` busy and takes it off the idle count. */
    method Occupy(e: Node)
      modifies this`idle, this`busy
      ensures View() == Take(old(View()), e)
    {
      idle := idle - 1;
      busy := busy + {e};
    }

    /** Where a pick starts, and what it ends with. */
    method Seek(p: Pool, st: Start) returns (start: Node, r: Option<Node>)
      requires Valid() && (st.Rotor? ==> st.tid < MAX_TID) && FilesetState.Tree(View(), p) != {}
      ensures var t := FilesetState.Tree(View(), p); var i := StartIndex(View(), p, st);
              && t <= key.Keys && IndexSet(key, t) != {} && start in key && key[start] == CyclicFrom(IndexSet(key, t), i)
              && Ends(key, t, busy, i, r)
      ensures Trees(key, free, exist, noex) == old(Trees(key, free, exist, noex))
    {
      var atp := Choose(p);
      var i := match st case AtIndex(x) => x case Rotor(tid) => (if p == NotExisting then neRotor else exRotor[tid]);
      start := FindStart(atp, key, i);
      r := ScanFrom(atp, key, busy, start, i);
    }

    /** What a pick writes, once it knows where it started and what it found. */
    method Commit(p: Pool, st: Start, start: Node, r: Option<Node>)
      requires Sound(View()) && (st.Rotor? ==> st.tid < MAX_TID) && start in key
      requires r.Some? ==> r.value in key
      modifies this`neRotor, this`exRotor, this`idle, this`busy
      ensures View() == Committed(old(View()), p, st, key[start], r)
      ensures Trees(key, free, exist, noex) == old(Trees(key, free, exist, noex)) && Sound(View())
    {
      Turn(p, st, key[start]);
      if r.Some? {
        Occupy(r.value);
      }
    }

    /** `fileset_pick`, once past its wait. */
    method Pick(p: Pool, st: Start) returns (r: Option<Node>)
      requires Valid() && (st.Rotor? ==> st.tid < MAX_TID)
      modifies this`neRotor, this`exRotor, this`idle, this`busy
      ensures Picks(old(View()), p, st, View(), r)
      ensures Valid()
    {
      CountTells(Choose(p));
      if Choose(p).numNodes == 0 {
        return None;
      }
      var start;
      start, r := Seek(p, st);
      SeekPicks(View(), p, st, key[start], r);
      Commit(p, st, start, r);
    }

    /** The flags `fileset_unbusy` leaves on the entry when it is to exist, or not to. */
    method Mark(e: Node, newExist: bool, ghost a: Tree, ghost b: Tree, ghost c: Tree)
      modifies this`isFree, this`extant
      ensures isFree == old(isFree) - {e} && extant == if newExist then old(extant) + {e} else old(extant) - {e}
      ensures Trees(key, a, b, c) == old(Trees(key, a, b, c))
    {
      isFree := isFree - {e};
      extant := if newExist then extant + {e} else extant - {e};
    }

    /** New flags, and to the tree they name. */
    method Transfer(src: Tree, dst: Tree, ghost other: Tree, e: Node, newExist: bool)
      requires Trees(key, src, dst, other) && Injective(key) && e in key && e in Nodes(src.shape)
      modifies this`isFree, this`extant, src, dst, Nodes(src.shape), Nodes(dst.shape)
      ensures isFree == old(isFree) - {e} && extant == if newExist then old(extant) + {e} else old(extant) - {e}
      ensures Trees(key, src, dst, other)
      ensures Nodes(src.shape) == old(Nodes(src.shape)) - {e}
      ensures Nodes(dst.shape) == old(Nodes(dst.shape)) + {e}
      ensures Nodes(other.shape) == old(Nodes(other.shape))
    {
      Mark(e, newExist, src, dst, other);
      MoveAmong(src, dst, other, key, e);
    }

    /** A free entry leaves the free tree for good. */
    method Unfree(e: Node, newExist: bool)
      requires Valid() && e in key && e in isFree
      modifies this`isFree, this`extant, free, exist, noex, Links()
      ensures View() == SetExists(old(View()), e, newExist)
      ensures Trees(key, free, exist, noex)
    {
      if newExist {
        Transfer(free, exist, noex, e, true);
      } else {
        TreesSwapped(key, free, exist, noex);
        Transfer(free, noex, exist, e, false);
        TreesSwapped(key, free, noex, exist);
      }
    }

    method Appear(e: Node)
      requires Valid() && e in key && e !in isFree && e !in extant
      modifies this`isFree, this`extant, exist, noex, Links()
      ensures View() == SetExists(old(View()), e, true)
      ensures Trees(key, free, exist, noex)
    {
      assert isFree - {e} == isFree;
      TreesReversed(key, free, exist, noex);
      Transfer(noex, exist, free, e, true);
      TreesReversed(key, noex, exist, free);
    }

    method Vanish(e: Node)
      requires Valid() && e in key && e !in isFree && e in extant
      modifies this`isFree, this`extant, exist, noex, Links()
      ensures View() == SetExists(old(View()), e, false)
      ensures Trees(key, free, exist, noex)
    {
      assert isFree - {e} == isFree;
      TreesTurned(key, free, exist, noex);
      Transfer(exist, noex, free, e, false);
      TreesTurned(key, exist, noex, free);
      TreesTurned(key, noex, free, exist);
    }

    /** The flags and the tree moves of `fileset_unbusy`. */
    method Relocate(e: Node, newExist: bool)
      requires Valid() && e in key
      modifies this`isFree, this`extant, free, exist, noex, Links()
      ensures View() == SetExists(old(View()), e, newExist)
      ensures Trees(key, free, exist, noex) == old(Trees(key, free, exist, noex))
    {
      if e in isFree {
        Unfree(e, newExist);
      } else if newExist && e !in extant {
        Appear(e);
      } else if !newExist && e in extant {
        Vanish(e);
      }
    }

    /** All of `fileset_unbusy` but the move. */
    method Release(e: Node, openIncr: int)
      requires Sound(View()) && e in openCnt
      modifies this`openCnt, this`busy, this`waiting, this`idle
      ensures View() == FilesetState.Unbusy(old(View()), e, FilesetState.Release(false, false, openIncr))
      ensures Trees(key, free, exist, noex) == old(Trees(key, free, exist, noex))
    {
      openCnt := openCnt[e := openCnt[e] + openIncr];
      if e in busy {
        busy := busy - {e};
        waiting := waiting - {e};
        idle := idle + 1;
      }
    }

    /** The move `fileset_unbusy` makes, if asked. */
    method Move(e: Node, q: Release)
      requires Valid() && e in key
      modifies this`isFree, this`extant, free, exist, noex, Links()
      ensures View() == if q.updateExist then SetExists(old(View()), e, q.newExist) else old(View())
      ensures Trees(key, free, exist, noex) == old(Trees(key, free, exist, noex))
    {
      if q.updateExist {
        Relocate(e, q.newExist);
      }
    }

    /** `fileset_unbusy`. */
    method Unbusy(e: Node, q: Release)
      requires Valid() && e in key
      modifies this, free, exist, noex, Links()
      ensures View() == FilesetState.Unbusy(old(View()), e, q)
      ensures Valid()
    {
      UnbusyParts(View(), e, q);
      Move(e, q);
      Release(e, q.openIncr);
    }
  }
}
