/** Laying out a fileset: `fileset_populate_subdir` and the two routines that make files and leaf directories. */
module FilesetPopulate {
  import opened FilesetState
  import opened FilesetLayout
  import opened FilesetLoops
  import opened FilesetComplete

  /**
   The entries in the order of their creation stand for the three lists and the trees they are put on at birth.
   `draws` gives the depth and width drawn for the directory with a given index, and `memory` says which
   allocations succeed.
   */
  class Fileset {
    const wanted: Tally
    const draws: Draws
    const memory: nat -> bool
    const deepest: nat

    var entries: seq<Entry>
    var idle: Tally
    var idleDirs: nat
    var made: Tally
    var allocations: nat

    constructor (wanted: Tally, draws: Draws, memory: nat -> bool, deepest: nat)
      requires 2 <= deepest && forall k :: draws.depth(k) <= deepest && draws.width(k) >= 0.0
      ensures this.wanted == wanted && this.draws == draws && this.memory == memory && entries == [] && Exact()
    {
      this.wanted, this.draws, this.memory, this.deepest := wanted, draws, memory, deepest;
      entries, idle, idleDirs, made, allocations := [], Tally(0, 0), 0, Tally(0, 0), 0;
    }

    ghost predicate Drawn() {
      2 <= deepest && forall k :: draws.depth(k) <= deepest && draws.width(k) >= 0.0
    }

    /** Indices count the entries of each kind, no more are made than are wanted, and the layout is as drawn. */
    ghost predicate Valid()
      reads this
    {
      && Drawn() && Laid(entries) && Obeys(draws, entries) && Orderly(wanted, entries)
      && made.AtMost(wanted) && made.AtMost(idle) && idle == Tallied(entries)
    }

    /** Valid, with every counter the number of entries, as it is until an allocation fails. */
    ghost predicate Exact()
      reads this
    {
      Valid() && made == idle && idleDirs == Count(entries, Dir)
    }

    ghost predicate Plenty() {
      forall n :: memory(n)
    }

    method Allocate() returns (ok: bool)
      modifies this`allocations
      ensures Plenty() ==> ok
    {
      ok := memory(allocations);
      allocations := allocations + 1;
    }

    /** `fileset_insfilelist`, `fileset_insdirlist` and `fileset_insleafdirlist`. */
    method Append(e: Entry)
      requires Laid(entries) && Obeys(draws, entries) && Orderly(wanted, entries)
      requires e.index == Count(entries, e.kind) && MayFollow(wanted, entries, e)
      requires match e.parent
               case None => entries == []
               case Some(p) => p < |entries| && entries[p].kind == Dir && Allowed(draws, entries, p, e.kind, e.serial)
      modifies this`entries
      ensures entries == old(entries) + [e] && Laid(entries) && Obeys(draws, entries) && Orderly(wanted, entries)
      ensures Sprouted(old(entries), entries, e.kind, e.parent, e.serial)
      ensures Tallied(entries) == if e.kind == Dir then Tallied(old(entries)) else Tallied(old(entries)).Plus(e.kind)
      ensures Count(entries, Dir) == Count(old(entries), Dir) + if e.kind == Dir then 1 else 0
    {
      LaidSnoc(entries, e);
      ObeysSnoc(draws, entries, e);
      OrderlySnoc(wanted, entries, e);
      TalliedSnoc(entries, e);
      SproutOne(entries, e);
      entries := entries + [e];
    }

    /** `fileset_populate_file` and `fileset_populate_leafdir`. */
    method PopulateEntry(kind: Kind, parent: nat, serial: nat) returns (ok: bool)
      requires Exact() && parent < |entries| && entries[parent].kind == Dir && Allowed(draws, entries, parent, kind, serial)
      requires kind != Dir && made.Of(kind) < wanted.Of(kind)
      requires MayFollow(wanted, entries, Entry(kind, idle.Of(kind), Some(parent), serial))
      modifies this
      ensures Plenty() ==> ok
      ensures Valid() && Sprouted(old(entries), entries, kind, Some(parent), serial) && |entries| <= |old(entries)| + 1
      ensures ok ==> Exact() && |entries| == |old(entries)| + 1 && made == old(made).Plus(kind)
    {
      ok := Allocate();
      if !ok {
        return;
      }
      var e := Entry(kind, idle.Of(kind), Some(parent), serial);
      ghost var s := entries;
      idle := idle.Plus(kind);
      assert entries == s && MayFollow(wanted, s, e);
      Append(e);
      ok := Allocate();
      if ok {
        made := made.Plus(kind);
      }
    }

    /** One turn of such a loop: an entry in a leaf, a directory elsewhere. */
    method FillOne(kind: Kind, h: Spot, serial: nat) returns (ok: bool)
      requires Exact() && kind != Dir && made.Of(kind) < wanted.Of(kind) && Stands(draws, entries, h)
      requires h.root || serial as real < h.width + 1.0
      requires serial == 1 || Taken(entries, h.me, serial - 1)
      requires kind == File ==> NoLeafDir(entries, h.me)
      requires h.depth <= deepest && (h.root || !h.leaf ==> h.depth < deepest)
      modifies this
      ensures Plenty() ==> ok
      ensures Valid() && Sprouted(old(entries), entries, h.Makes(kind), Some(h.me), serial)
      ensures ok ==> Exact() && |entries| > |old(entries)| && old(made).AtMost(made) && made.Of(kind) > old(made).Of(kind)
      ensures ok ==> AllWalked(wanted, draws, entries, |old(entries)|)
      decreases deepest - h.depth, 1, 1
    {
      if !h.root && h.leaf {
        ghost var s := entries;
        ok := PopulateEntry(kind, h.me, serial);
        if ok { LeafWalked(wanted, draws, s, entries); }
      } else {
        ok := PopulateSubdir(Some(h.me), serial, h.depth);
      }
    }

    /** One of the two loops of `fileset_populate_subdir`. */
    method Fill(kind: Kind, h: Spot) returns (ok: bool)
      requires Exact() && kind != Dir && Stands(draws, entries, h) && h.width > 0.0
      requires kind == File ==> NoLeafDir(entries, h.me)
      requires h.depth <= deepest && (h.root || !h.leaf ==> h.depth < deepest)
      modifies this
      ensures Plenty() ==> ok
      ensures Valid() && Filled(old(entries), entries, h.me)
      ensures ok ==> Exact() && old(made).AtMost(made) && (h.root ==> made.Of(kind) == wanted.Of(kind))
      ensures ok && old(made).Of(kind) < wanted.Of(kind) ==> made.Of(kind) > old(made).Of(kind)
      ensures ok ==> AllWalked(wanted, draws, entries, |old(entries)|)
      ensures ok ==> LoopRan(wanted, draws, entries, h.me, |old(entries)|, |entries|, kind)
      ensures old(made).Of(kind) == wanted.Of(kind) ==> ok && entries == old(entries)
      decreases deepest - h.depth, 2, 0
    {
      ghost var s := entries;
      var i := 1;
      ok := true;
      LoopBegins(wanted, draws, s, h, kind);
      while (h.root || i as real < h.width + 1.0) && made.Of(kind) < wanted.Of(kind)
        invariant ok && Exact() && old(made).AtMost(made) && Looping(wanted, draws, s, entries, h, kind, i)
        invariant if i == 1 then entries == s && made == old(made) else made.Of(kind) > old(made).Of(kind)
        decreases wanted.Of(kind) - made.Of(kind)
      {
        ghost var t := entries;
        ok := FillOne(kind, h, i);
        if !ok {
          FilledStep(s, t, entries, h.Makes(kind), h.me, i);
          return;
        }
        LoopStep(wanted, draws, s, t, entries, h, kind, i);
        i := i + 1;
      }
      LoopEnds(wanted, draws, s, entries, h, kind, i);
    }

    /** Both loops. */
    method FillBoth(h: Spot) returns (ok: bool)
      requires Exact() && Stands(draws, entries, h) && h.width > 0.0 && NoLeafDir(entries, h.me) && |entries| == h.me + 1
      requires h.depth <= deepest && (h.root || !h.leaf ==> h.depth < deepest)
      modifies this
      ensures Plenty() ==> ok
      ensures Valid() && Filled(old(entries), entries, h.me)
      ensures ok ==> Exact() && old(made).AtMost(made) && (h.root ==> made == wanted)
      ensures ok ==> forall k :: k != Dir && old(made).Of(k) < wanted.Of(k) ==> made.Of(k) > old(made).Of(k)
      ensures ok ==> AllWalked(wanted, draws, entries, h.me)
      decreases deepest - h.depth, 2, 1
    {
      ghost var s := entries;
      ok := Fill(File, h);
      if !ok {
        return;
      }
      ghost var t := entries;
      StandsKept(draws, s, t, h);
      ok := Fill(LeafDir, h);
      FilledAgain(s, t, entries, h.me);
      if ok { BothLoops(wanted, draws, s, t, entries, h.me); }
    }

    /** What `fileset_populate_subdir` asks of the place for a new directory. */
    ghost predicate Ready(parent: Option<nat>, serial: nat, depth: nat)
      requires Laid(entries)
      reads this
    {
      && MayFollow(wanted, entries, Entry(Dir, idleDirs, parent, serial))
      && match parent
         case None => entries == [] && depth == 0
         case Some(p) =>
           && p < |entries| && entries[p].kind == Dir && Depth(entries, p) == depth
           && Allowed(draws, entries, p, Dir, serial)
    }

    /** Makes the directory itself. */
    method MakeDir(parent: Option<nat>, serial: nat, ghost depth: nat) returns (ok: bool, index: nat)
      requires Exact() && Ready(parent, serial, depth)
      modifies this
      ensures Plenty() ==> ok
      ensures Valid() && made == old(made) && (!ok ==> entries == old(entries))
      ensures ok ==> Exact() && entries == old(entries) + [Entry(Dir, index, parent, serial)]
    {
      index := 0;
      ok := Allocate();
      if !ok {
        return;
      }
      index := idleDirs;
      ghost var s, e := entries, Entry(Dir, index, parent, serial);
      idleDirs := idleDirs + 1;
      ok := Allocate();
      assert entries == s && MayFollow(wanted, s, e);
      if !ok {
        return;
      }
      Append(Entry(Dir, index, parent, serial));
    }

    /** `fileset_populate_subdir`. */
    method PopulateSubdir(parent: Option<nat>, serial: nat, depth: nat) returns (ok: bool)
      requires Exact() && depth < deepest && Ready(parent, serial, depth)
      modifies this
      ensures Plenty() ==> ok
      ensures Valid() && Sprouted(old(entries), entries, Dir, parent, serial)
      ensures ok ==> Exact() && |entries| > |old(entries)| && old(made).AtMost(made)
      ensures ok ==> forall k :: k != Dir && old(made).Of(k) < wanted.Of(k) ==> made.Of(k) > old(made).Of(k)
      ensures ok && parent.None? ==> made == wanted
      ensures ok ==> AllWalked(wanted, draws, entries, |old(entries)|)
      decreases deepest - depth, 1, 0
    {
      var index;
      ghost var s := entries;
      var me := |entries|;
      ok, index := MakeDir(parent, serial, depth);
      if !ok {
        return;
      }
      ghost var e := Entry(Dir, index, parent, serial);
      NewDir(s, e, depth);
      var randDepth, ranWidth := draws.depth(index), draws.width(index);
      if randDepth == 0 {
        randDepth := 1;
      }
      if ranWidth == 0.0 {
        ranWidth := 1.0;
      }
      ok := FillBoth(Spot(me, parent.None?, depth + 1 >= randDepth, ranWidth, depth + 1));
      SproutFilled(s, e, entries);
    }

    /**
     `fileset_populate`: success means exactly the files and leaf directories asked for, in the one layout the draws
     leave. Their paths are then all different just when only one of the two kinds was asked for: both loops number
     from 1.
     */
    method Populate() returns (ok: bool)
      requires Exact() && entries == []
      modifies this
      ensures Valid() && (Plenty() ==> ok)
      ensures ok ==> Complete(draws, wanted, entries) && idle == wanted && AllUseful(wanted, entries, 0)
      ensures ok ==> (PathsDiffer(entries) <==> wanted.files == 0 || wanted.leafDirs == 0)
    {
      ok := PopulateSubdir(None, 1, 0);
      if ok {
        RootFirst(entries);
        PathsDifferIff(entries);
        ClashIff(draws, wanted, entries);
        NoneInVain(draws, wanted, entries);
      }
    }
  }

  /** A run that ends in two entries with one path. */
  method PopulateOneOfEach() returns (fs: Fileset)
    ensures fresh(fs) && fs.entries == OneOfEachLayout()
    ensures Laid(fs.entries) && Path(fs.entries, 2) == Path(fs.entries, 3)
  {
    fs := new Fileset(ONE_EACH, ShallowDraws(), _ => true, 2);
    var ok := fs.Populate();
    OneOfEachComplete(ShallowDraws(), ONE_EACH, OneOfEachLayout());
    OneLayout(ShallowDraws(), ONE_EACH, fs.entries, OneOfEachLayout());
    OneOfEach(fs.entries);
  }
}
