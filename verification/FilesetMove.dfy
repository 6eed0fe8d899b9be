/** `fileset_move_entry`: from one tree to another. */
module FilesetMove {
  import opened AvlShape
  import opened AvlHeap
  import opened AvlLocate
  import opened AvlRemove
  import opened AvlOrder
  import opened FilesetOrder
  import opened FilesetFind
  import opened FilesetState

  /** Taking one entry out leaves the rest in order. */
  lemma RemoveKeepsOrder(key: Keys<nat>, s: seq<Node>, i: nat)
    requires Keyed(key, s) && Ordered(CompareIndex, key, s) && i < |s|
    ensures Keyed(key, RemoveAt(s, i)) && Ordered(CompareIndex, key, RemoveAt(s, i))
  {
    var r := RemoveAt(s, i);
    forall j | 0 <= j < |r| ensures r[j] == s[if j < i then j else j + 1] {
    }
    forall j, k | 0 <= j < k < |r| ensures CompareIndex(key[r[j]], key[r[k]]) < 0 {
      var j', k' := if j < i then j else j + 1, if k < i then k else k + 1;
      assert r[j] == s[j'] && r[k] == s[k'];
    }
  }

  /** An entry's index is not in a tree the entry is not in. */
  lemma IndexAbsent(key: Keys<nat>, s: seq<Node>, x: Node)
    requires Injective(key) && Keyed(key, s) && x in key && x !in s
    ensures Absent(CompareIndex, key, s, key[x])
  {
    forall i | 0 <= i < |s| ensures CompareIndex(key[x], key[s[i]]) != 0 {
      assert s[i] != x;
    }
  }

  /** `avl_remove` on an indexed tree; another one keeps clear of it. */
  method TakeOut(tree: Tree, key: Keys<nat>, entry: Node, ghost other: Tree)
    requires Indexed(tree, key) && entry in Nodes(tree.shape)
    requires other != tree && Indexed(other, key) && Nodes(other.shape) !! Nodes(tree.shape)
    modifies tree, Nodes(tree.shape)
    ensures Indexed(tree, key) && Nodes(tree.shape) == old(Nodes(tree.shape)) - {entry}
    ensures Indexed(other, key)
  {
    NodesInOrder(tree.shape, entry);
    RemoveKeepsOrder(key, InOrder(tree.shape), IndexOf(InOrder(tree.shape), entry));
    Remove(tree, entry);
    assert Snap(Nodes(other.shape)) == old(Snap(Nodes(other.shape)));
  }

  /** `avl_add` on an indexed tree: an entry with its own index always goes in. */
  method PutIn(tree: Tree, key: Keys<nat>, entry: Node, ghost other: Tree)
    requires Indexed(tree, key) && Injective(key) && entry in key && entry !in Nodes(tree.shape)
    requires other != tree && Indexed(other, key) && Nodes(other.shape) !! Nodes(tree.shape) + {entry}
    modifies tree, Nodes(tree.shape), entry
    ensures Indexed(tree, key) && Nodes(tree.shape) == old(Nodes(tree.shape)) + {entry}
    ensures Indexed(other, key)
  {
    CompareIsTotal();
    NodesInOrder(tree.shape, entry);
    IndexAbsent(key, InOrder(tree.shape), entry);
    ghost var i := Add(tree, CompareIndex, key, entry);
    assert Snap(Nodes(other.shape)) == old(Snap(Nodes(other.shape)));
  }

  method MoveEntry(src: Tree, dst: Tree, key: Keys<nat>, entry: Node)
    requires src != dst && Indexed(src, key) && Indexed(dst, key) && Nodes(src.shape) !! Nodes(dst.shape)
    requires Injective(key) && entry in Nodes(src.shape) && entry in key
    modifies src, dst, Nodes(src.shape), Nodes(dst.shape)
    ensures Indexed(src, key) && Nodes(src.shape) == old(Nodes(src.shape)) - {entry}
    ensures Indexed(dst, key) && Nodes(dst.shape) == old(Nodes(dst.shape)) + {entry}
  {
    TakeOut(src, key, entry, dst);
    PutIn(dst, key, entry, src);
  }
}
