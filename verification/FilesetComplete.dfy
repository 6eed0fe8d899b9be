/** What a complete layout is like: it is the only one, no directory is in vain, and when two paths are the same. */
module FilesetComplete {
  import opened FilesetState
  import opened FilesetLayout
  import opened FilesetLoops

  /** What a success says of a layout. */
  ghost predicate Complete(d: Draws, w: Tally, s: seq<Entry>) {
    && Laid(s) && Obeys(d, s) && Tallied(s) == w && AllWalked(w, d, s, 0) && s != [] && s[0] == Entry(Dir, 0, None, 1)
    && forall k :: d.width(k) >= 0.0
  }

  lemma RootFirst(s: seq<Entry>)
    requires Laid(s) && Sprouted([], s, Dir, None, 1) && s != []
    ensures s[0] == Entry(Dir, 0, None, 1)
  {
    assert Fits(s, 0) && s[..0] == [];
  }

  // ---------- counting ----------

  lemma {:induction false} ChildrenSplit(s: seq<Entry>, p: nat, lo: nat, mid: nat, hi: nat)
    requires lo <= mid <= hi <= |s|
    ensures Children(s, p, lo, hi) == Children(s, p, lo, mid) + Children(s, p, mid, hi)
  {
    if hi > mid { ChildrenSplit(s, p, lo, mid, hi - 1); }
  }

  /** The first of the entries counted. */
  lemma {:induction false} FirstChild(s: seq<Entry>, p: nat, lo: nat, hi: nat) returns (q: nat)
    requires hi <= |s| && Children(s, p, lo, hi) > 0
    ensures lo <= q < hi && s[q].parent == Some(p) && Children(s, p, lo, q) == 0
  {
    if Children(s, p, lo, hi - 1) > 0 { q := FirstChild(s, p, lo, hi - 1); } else { q := hi - 1; }
  }

  /** A loop that found some of its kind missing added some of that kind, or at least an entry to its directory. */
  lemma LoopAdds(w: Tally, d: Draws, s: seq<Entry>, p: nat, lo: nat, hi: nat, k: Kind) returns (i: nat)
    requires p < |s| && k != Dir && LoopRan(w, d, s, p, lo, hi, k) && Count(s[..lo], k) < w.Of(k)
    requires forall k :: d.width(k) >= 0.0
    ensures lo <= i < hi && (s[i].kind == k || (s[i].parent == Some(p) && Children(s, p, lo, i) == 0))
  {
    if Children(s, p, lo, hi) > 0 {
      i := FirstChild(s, p, lo, hi);
    } else {
      i := CountGrew(s, lo, hi, k);
    }
  }

  lemma {:induction false} CountGrew(s: seq<Entry>, lo: nat, hi: nat, k: Kind) returns (i: nat)
    requires lo <= hi <= |s| && Count(s[..lo], k) < Count(s[..hi], k)
    ensures lo <= i < hi && s[i].kind == k
  {
    i := hi - 1;
    assert s[..hi] == s[..i] + [s[i]];
    CountSnoc(s[..i], s[i], k);
    if s[i].kind != k { i := CountGrew(s, lo, i, k); }
  }

  // ---------- there is just one ----------

  /** The two layouts agree on the first `n` entries. */
  ghost predicate AgreeUpTo(s: seq<Entry>, t: seq<Entry>, n: nat) {
    n <= |s| && n <= |t| && forall i :: 0 <= i < n ==> s[i] == t[i]
  }

  lemma {:induction false} ChildrenAgree(s: seq<Entry>, t: seq<Entry>, n: nat, p: nat, lo: nat, hi: nat)
    requires AgreeUpTo(s, t, n) && hi <= n
    ensures Children(s, p, lo, hi) == Children(t, p, lo, hi)
  {
    if hi > lo { ChildrenAgree(s, t, n, p, lo, hi - 1); }
  }

  lemma CountAgree(s: seq<Entry>, t: seq<Entry>, n: nat, hi: nat, k: Kind)
    requires AgreeUpTo(s, t, n) && hi <= n
    ensures Count(s[..hi], k) == Count(t[..hi], k)
  {
    assert s[..hi] == t[..hi];
  }

  /** The name is within the width drawn for the directory it is in. */
  ghost predicate NameFits(d: Draws, s: seq<Entry>, p: nat, q: nat)
    requires p < |s| && q < |s|
  {
    p > 0 ==> s[q].serial as real < d.WidthAt(s[p].index) + 1.0
  }

  /** Once a loop of `p` is over in one layout, that loop adds nothing more to `p` in the other. */
  lemma OverStops(d: Draws, w: Tally, s: seq<Entry>, t: seq<Entry>, n: nat, p: nat, lo: nat, hi: nat, k: Kind)
    requires AgreeUpTo(s, t, n) && p < n < |s| && lo <= hi <= n && k != Dir && LoopOver(w, d, t, p, lo, hi, k)
    ensures !(ByLoop(w, s, p, lo, k, n) && NameFits(d, s, p, n))
  {
    CountAgree(s, t, n, hi, k);
    CountMonotone(s, hi, n, k);
    ChildrenAgree(s, t, n, p, lo, hi);
    ChildrenSplit(s, p, lo, hi, n);
  }

  /** If the loop for files of `p` is over earlier in `t` than in `s`, no entry of `p` lies between the two ends. */
  lemma NoneBetween(d: Draws, w: Tally, s: seq<Entry>, t: seq<Entry>, n: nat, p: nat, mid: nat, mid': nat, end: nat, end': nat, q: nat)
    requires AgreeUpTo(s, t, n) && p < n && FilledBy(w, d, s, p, mid, end) && FilledBy(w, d, t, p, mid', end')
    requires mid' <= q < mid && q < n && q < end' && (forall k :: d.width(k) >= 0.0)
    ensures s[q].parent != Some(p)
  {
    if s[q].parent == Some(p) {
      assert ByLoop(w, s, p, p + 1, File, q) && ByLoop(w, t, p, mid', LeafDir, q);
      ChildrenAgree(s, t, n, p, mid', q);
      ChildrenAgree(s, t, n, p, p + 1, mid');
      ChildrenSplit(s, p, p + 1, mid', q);
      CountAgree(s, t, n, mid', File);
      CountMonotone(s, mid', q, File);
    }
  }

  /** So the entries of `p` from either end on are as many. */
  lemma SameFromEither(d: Draws, w: Tally, s: seq<Entry>, t: seq<Entry>, n: nat, p: nat, mid: nat, mid': nat, end: nat, end': nat, hi: nat)
    requires AgreeUpTo(s, t, n) && p < n && FilledBy(w, d, s, p, mid, end) && FilledBy(w, d, t, p, mid', end')
    requires mid' <= mid <= hi <= n && hi <= end' && (forall k :: d.width(k) >= 0.0)
    ensures Children(s, p, mid, hi) == Children(s, p, mid', hi) == Children(t, p, mid', hi)
  {
    forall q | mid' <= q < mid ensures s[q].parent != Some(p) {
      NoneBetween(d, w, s, t, n, p, mid, mid', end, end', q);
    }
    ChildrenSplit(s, p, mid', mid, hi);
    ChildrenNone(s, p, mid', mid', mid);
    ChildrenAgree(s, t, n, p, mid', hi);
  }

  /** The loop for leaf directories of `p` is over in `t` by `n`; then it adds nothing there in `s`, wherever it began. */
  lemma LeafOverStops(d: Draws, w: Tally, s: seq<Entry>, t: seq<Entry>, n: nat, p: nat, mid: nat, mid': nat, end: nat, end': nat)
    requires AgreeUpTo(s, t, n) && p < n < |s| && FilledBy(w, d, s, p, mid, end) && FilledBy(w, d, t, p, mid', end')
    requires end' <= n && mid <= n && (forall k :: d.width(k) >= 0.0)
    ensures !(ByLoop(w, s, p, mid, LeafDir, n) && NameFits(d, s, p, n))
  {
    CountAgree(s, t, n, end', LeafDir);
    CountMonotone(s, end', n, LeafDir);
    ChildrenAgree(s, t, n, p, mid', end');
    if mid <= mid' {
      ChildrenSplit(s, p, mid, mid', n);
      ChildrenSplit(s, p, mid', end', n);
    } else if mid <= end' {
      SameFromEither(d, w, s, t, n, p, mid, mid', end, end', end');
      ChildrenSplit(s, p, mid, end', n);
    } else {
      forall q | mid' <= q < end' ensures s[q].parent != Some(p) {
        NoneBetween(d, w, s, t, n, p, mid, mid', end, end', q);
      }
      ChildrenNone(s, p, mid', mid', end');
    }
  }

  /** A directory filled by `n` in `t` gets nothing more from there on in `s`. */
  lemma ClosedStays(d: Draws, w: Tally, s: seq<Entry>, t: seq<Entry>, n: nat, p: nat, end': nat, mid': nat)
    requires Complete(d, w, s) && Complete(d, w, t) && AgreeUpTo(s, t, n) && p < n < |s| && s[p].kind == Dir
    requires FilledBy(w, d, t, p, mid', end') && end' <= n
    ensures s[n].parent != Some(p)
  {
    if s[n].parent == Some(p) {
      assert Walked(w, d, s, p) && AsDrawn(d, s, n) && NameFits(d, s, p, n);
      var mid: nat, end: nat :| FilledBy(w, d, s, p, mid, end);
      if n < mid {
        assert ByLoop(w, s, p, p + 1, File, n);
        OverStops(d, w, s, t, n, p, p + 1, mid', File);
      } else {
        assert ByLoop(w, s, p, mid, LeafDir, n);
        LeafOverStops(d, w, s, t, n, p, mid, mid', end, end');
      }
    }
  }

  /** The next entry is in the same directory in both. */
  lemma SameParent(d: Draws, w: Tally, s: seq<Entry>, t: seq<Entry>, n: nat)
    requires Complete(d, w, s) && Complete(d, w, t) && AgreeUpTo(s, t, n) && 0 < n < |s|
    ensures s[n].parent.Some? && n < |t| && (t[n].parent.Some? ==> t[n].parent.value <= s[n].parent.value)
  {
    assert Fits(s, n);
    var p := s[n].parent.value;
    assert Walked(w, d, t, p);
    var mid': nat, end': nat :| FilledBy(w, d, t, p, mid', end');
    if end' <= n { ClosedStays(d, w, s, t, n, p, end', mid'); }
    if t[n].parent.Some? && t[n].parent.value > p {
      var p' := t[n].parent.value;
      assert Fits(t, n) && Walked(w, d, s, p');
      var mid: nat, end: nat :| FilledBy(w, d, s, p', mid, end);
      ClosedStays(d, w, t, s, n, p', end, mid);
    }
  }

  lemma {:induction false} DepthAgree(s: seq<Entry>, t: seq<Entry>, n: nat, p: nat)
    requires Laid(s) && Laid(t) && AgreeUpTo(s, t, n) && p < n
    ensures Depth(s, p) == Depth(t, p)
    decreases p
  {
    assert Fits(s, p) && Fits(t, p);
    if s[p].parent.Some? { DepthAgree(s, t, n, s[p].parent.value); }
  }

  /** Made by the same loop, it has the same name. */
  lemma SameLoop(d: Draws, w: Tally, s: seq<Entry>, t: seq<Entry>, n: nat, p: nat, mid: nat, mid': nat, end: nat, end': nat)
    requires AgreeUpTo(s, t, n) && p < n < |s| && n < |t| && (forall k :: d.width(k) >= 0.0)
    requires FilledBy(w, d, s, p, mid, end) && FilledBy(w, d, t, p, mid', end')
    requires s[n].parent == t[n].parent == Some(p) && NameFits(d, s, p, n) && NameFits(d, t, p, n)
    ensures s[n].serial == t[n].serial && (s[n].kind == Dir || t[n].kind == Dir || s[n].kind == t[n].kind)
  {
    if n < mid && n < mid' {
      assert ByLoop(w, s, p, p + 1, File, n) && ByLoop(w, t, p, p + 1, File, n);
      ChildrenAgree(s, t, n, p, p + 1, n);
    } else if n < mid {
      assert ByLoop(w, s, p, p + 1, File, n);
      OverStops(d, w, s, t, n, p, p + 1, mid', File);
    } else if n < mid' {
      assert ByLoop(w, t, p, p + 1, File, n);
      OverStops(d, w, t, s, n, p, p + 1, mid, File);
    } else {
      assert ByLoop(w, s, p, mid, LeafDir, n) && ByLoop(w, t, p, mid', LeafDir, n);
      if mid' <= mid {
        SameFromEither(d, w, s, t, n, p, mid, mid', end, end', n);
      } else {
        SameFromEither(d, w, t, s, n, p, mid', mid, end', end, n);
      }
    }
  }

  /** And it is the same entry. */
  lemma SameNext(d: Draws, w: Tally, s: seq<Entry>, t: seq<Entry>, n: nat)
    requires Complete(d, w, s) && Complete(d, w, t) && AgreeUpTo(s, t, n) && 0 < n < |s|
    ensures n < |t| && s[n] == t[n]
  {
    SameParent(d, w, s, t, n);
    SameParent(d, w, t, s, n);
    var p := s[n].parent.value;
    assert Fits(s, n) && Fits(t, n) && AsDrawn(d, s, n) && AsDrawn(d, t, n) && Walked(w, d, s, p) && Walked(w, d, t, p);
    var mid: nat, end: nat :| FilledBy(w, d, s, p, mid, end);
    var mid': nat, end': nat :| FilledBy(w, d, t, p, mid', end');
    SameLoop(d, w, s, t, n, p, mid, mid', end, end');
    DepthAgree(s, t, n, p);
    CountAgree(s, t, n, n, s[n].kind);
  }

  lemma {:induction false} AgreeAll(d: Draws, w: Tally, s: seq<Entry>, t: seq<Entry>, n: nat)
    requires Complete(d, w, s) && Complete(d, w, t) && 0 < n <= |s|
    ensures AgreeUpTo(s, t, n)
  {
    if n > 1 {
      AgreeAll(d, w, s, t, n - 1);
      SameNext(d, w, s, t, n - 1);
    }
  }

  /** The draws and the numbers wanted leave just one complete layout. */
  lemma OneLayout(d: Draws, w: Tally, s: seq<Entry>, t: seq<Entry>)
    requires Complete(d, w, s) && Complete(d, w, t)
    ensures s == t
  {
    AgreeAll(d, w, s, t, |s|);
    AgreeAll(d, w, t, s, |t|);
  }

  // ---------- no directory in vain ----------

  /** If `q` is below `p` and `i` below `q`, `i` is below `p`. */
  lemma BelowBelow(s: seq<Entry>, p: nat, q: nat, i: nat)
    requires p < q < i < |s| && Below(s, p, q) && Below(s, q, i)
    ensures Below(s, p, i)
  {
  }

  /** A loop of `p` that finds its kind missing leads to one of that kind below `p`. */
  lemma {:induction false} LoopProvides(d: Draws, w: Tally, s: seq<Entry>, p: nat, lo: nat, hi: nat, k: Kind)
    requires Complete(d, w, s) && p < lo && p < |s| && k != Dir && LoopRan(w, d, s, p, lo, hi, k) && Count(s[..lo], k) < w.Of(k)
    requires forall j :: p < j < hi ==> s[j].parent.Some? && s[j].parent.value >= p
    ensures exists i :: p < i < |s| && s[i].kind == k && Below(s, p, i)
    decreases |s| - p, 0
  {
    var q := LoopAdds(w, d, s, p, lo, hi, k);
    assert Below(s, p, q);
    if s[q].kind != k {
      assert ByLoop(w, s, p, lo, k, q);
      DirProvides(d, w, s, q, k);
      var i :| q < i < |s| && s[i].kind == k && Below(s, q, i);
      BelowBelow(s, p, q, i);
    }
  }

  lemma {:induction false} DirProvides(d: Draws, w: Tally, s: seq<Entry>, p: nat, k: Kind)
    requires Complete(d, w, s) && p < |s| && s[p].kind == Dir && k != Dir
    ensures Provides(w, s, p, k)
    decreases |s| - p, 1
  {
    if Count(s[..p], k) < w.Of(k) {
      assert Walked(w, d, s, p);
      var mid: nat, end: nat :| FilledBy(w, d, s, p, mid, end);
      assert s[..p + 1] == s[..p] + [s[p]];
      CountSnoc(s[..p], s[p], k);
      if k == File {
        LoopProvides(d, w, s, p, p + 1, mid, File);
      } else if Count(s[..mid], LeafDir) < w.leafDirs {
        LoopProvides(d, w, s, p, mid, end, LeafDir);
      } else {
        var i := CountGrew(s, p + 1, mid, LeafDir);
        assert Below(s, p, i);
      }
    }
  }

  /** In a complete layout every directory made while a kind was missing has one of that kind below it. */
  lemma NoneInVain(d: Draws, w: Tally, s: seq<Entry>)
    requires Complete(d, w, s)
    ensures AllUseful(w, s, 0)
  {
    forall p | 0 <= p < |s| ensures Useful(w, s, p) {
      if s[p].kind == Dir {
        DirProvides(d, w, s, p, File);
        DirProvides(d, w, s, p, LeafDir);
      }
    }
  }

  // ---------- paths ----------

  /** If one kind is not wanted its loops add nothing, and the other kind's loops give every name once. */
  lemma OneKindDiffers(d: Draws, w: Tally, s: seq<Entry>)
    requires Complete(d, w, s) && (w.files == 0 || w.leafDirs == 0)
    ensures NoClash(s)
  {
    forall i, j | 0 <= i < j < |s| ensures !SameName(s[i], s[j]) {
      assert Fits(s, i) && Fits(s, j);
      if s[i].parent == s[j].parent && s[j].parent.Some? {
        var p := s[i].parent.value;
        assert Walked(w, d, s, p);
        var mid: nat, end: nat :| FilledBy(w, d, s, p, mid, end);
        var lo, k := if i < mid then p + 1 else mid, if i < mid then File else LeafDir;
        assert ByLoop(w, s, p, lo, k, i);
        assert ByLoop(w, s, p, if j < mid then p + 1 else mid, if j < mid then File else LeafDir, j);
        ChildrenSplit(s, p, lo, i, j);
        ChildrenSplit(s, p, i, i + 1, j);
      }
    }
  }

  /** All that is below a directory which is a leaf is in it. */
  lemma {:induction false} LeafHolds(d: Draws, s: seq<Entry>, p: nat, end: nat, j: nat)
    requires Laid(s) && Obeys(d, s) && 0 < p < j < end <= |s| && Depth(s, p) >= d.DepthAt(s[p].index)
    requires forall j :: p < j < end ==> s[j].parent.Some? && s[j].parent.value >= p
    ensures s[j].parent == Some(p) && s[j].kind != Dir
  {
    assert Fits(s, j) && AsDrawn(d, s, j);
    if s[j].parent.value > p { LeafHolds(d, s, p, end, s[j].parent.value); }
  }

  /** A leaf filled from scratch with both kinds missing gets the name 1 from either loop. */
  lemma LeafClashes(d: Draws, w: Tally, s: seq<Entry>, p: nat)
    requires Complete(d, w, s) && 0 < p < |s| && s[p].kind == Dir && Depth(s, p) >= d.DepthAt(s[p].index)
    requires Count(s[..p + 1], File) == Count(s[..p + 1], LeafDir) == 0 && w.files > 0 && w.leafDirs > 0
    ensures !NoClash(s)
  {
    assert Walked(w, d, s, p);
    var mid: nat, end: nat :| FilledBy(w, d, s, p, mid, end);
    var i := LoopAdds(w, d, s, p, p + 1, mid, File);
    LeafHolds(d, s, p, end, p + 1);
    assert ByLoop(w, s, p, p + 1, File, p + 1);
    forall j | p < j < mid ensures s[j].kind == File {
      LeafHolds(d, s, p, end, j);
      assert ByLoop(w, s, p, p + 1, File, j);
    }
    if Count(s[..mid], LeafDir) > 0 { var j := CountGrew(s, p + 1, mid, LeafDir); }
    i := LoopAdds(w, d, s, p, mid, end, LeafDir);
    LeafHolds(d, s, p, end, mid);
    assert ByLoop(w, s, p, mid, LeafDir, mid);
    assert SameName(s[p + 1], s[mid]);
  }

  /** From the root down the first directories lead to such a leaf. */
  lemma {:induction false} BothKindsClash(d: Draws, w: Tally, s: seq<Entry>, p: nat)
    requires Complete(d, w, s) && p < |s| && s[p].kind == Dir
    requires Count(s[..p + 1], File) == Count(s[..p + 1], LeafDir) == 0 && w.files > 0 && w.leafDirs > 0
    ensures !NoClash(s)
    decreases |s| - p
  {
    if p > 0 && Depth(s, p) >= d.DepthAt(s[p].index) {
      LeafClashes(d, w, s, p);
    } else {
      assert Walked(w, d, s, p);
      var mid: nat, end: nat :| FilledBy(w, d, s, p, mid, end);
      var i := LoopAdds(w, d, s, p, p + 1, mid, File);
      assert Fits(s, p + 1) && AsDrawn(d, s, p + 1);
      assert s[..p + 2] == s[..p + 1] + [s[p + 1]];
      CountSnoc(s[..p + 1], s[p + 1], File);
      CountSnoc(s[..p + 1], s[p + 1], LeafDir);
      BothKindsClash(d, w, s, p + 1);
    }
  }

  /** In a complete layout names differ within each directory just when only one of the two kinds was wanted. */
  lemma ClashIff(d: Draws, w: Tally, s: seq<Entry>)
    requires Complete(d, w, s)
    ensures NoClash(s) <==> w.files == 0 || w.leafDirs == 0
  {
    if w.files == 0 || w.leafDirs == 0 {
      OneKindDiffers(d, w, s);
    } else {
      assert s[..1] == [] + [s[0]];
      CountSnoc([], s[0], File);
      CountSnoc([], s[0], LeafDir);
      BothKindsClash(d, w, s, 0);
    }
  }

  // ---------- one file and one leaf directory ----------

  lemma OneOfEachCounts(s: seq<Entry>)
    requires s == OneOfEachLayout()
    ensures Tallied(s[..1]) == Tallied(s[..2]) == Tally(0, 0) && Tallied(s[..3]) == Tally(1, 0)
    ensures Tallied(s[..4]) == Tally(1, 1) && s[..4] == s
  {
    assert s[..1] == [] + [s[0]] && s[..2] == s[..1] + [s[1]] && s[..3] == s[..2] + [s[2]] && s[..4] == s[..3] + [s[3]];
    TalliedSnoc([], s[0]);
    TalliedSnoc(s[..1], s[1]);
    TalliedSnoc(s[..2], s[2]);
    TalliedSnoc(s[..3], s[3]);
  }

  /** A loop that took one turn and so reached the number wanted. */
  lemma OneTurn(w: Tally, d: Draws, s: seq<Entry>, p: nat, lo: nat, hi: nat, k: Kind)
    requires p < lo < hi <= |s| && k != Dir && Count(s[..lo], k) < w.Of(k) == Count(s[..hi], k)
    requires s[lo].serial == 1 && (s[lo].kind == Dir || s[lo].kind == k)
    requires forall q :: lo < q < hi ==> s[q].parent != Some(p)
    ensures LoopRan(w, d, s, p, lo, hi, k)
  {
    assert ByLoop(w, s, p, lo, k, lo);
  }

  /** A root with one directory in it, and there a file and a leaf directory. */
  lemma FourWalked(d: Draws, w: Tally, s: seq<Entry>, n: nat)
    requires n == |s| == 4 && w == ONE_EACH && s[1].kind == Dir && s[2].kind == File && s[3].kind == LeafDir
    requires s[1].parent == Some(0) && s[2].parent == s[3].parent == Some(1) && s[1].serial == s[2].serial == s[3].serial == 1
    requires Tallied(s[..1]) == Tallied(s[..2]) == Tally(0, 0) && Tallied(s[..3]) == Tally(1, 0) && Tallied(s[..n]) == w
    ensures AllWalked(w, d, s, 0)
  {
    OneTurn(w, d, s, 0, 1, n, File);
    assert FilledBy(w, d, s, 0, n, n);
    OneTurn(w, d, s, 1, 2, 3, File);
    OneTurn(w, d, s, 1, 3, n, LeafDir);
    assert FilledBy(w, d, s, 1, 3, n);
    forall p | 0 <= p < |s| ensures Walked(w, d, s, p) {
      assert p == 0 || p == 1 || p == 2 || p == 3;
    }
  }

  lemma OneOfEachComplete(d: Draws, w: Tally, s: seq<Entry>)
    requires s == OneOfEachLayout() && w == ONE_EACH && d == ShallowDraws()
    ensures Complete(d, w, s)
  {
    OneOfEach(s);
    OneOfEachCounts(s);
    FourWalked(d, w, s, 4);
    assert Depth(s, 0) == 1 && Depth(s, 1) == 2;
    assert AsDrawn(d, s, 0) && AsDrawn(d, s, 1) && AsDrawn(d, s, 2) && AsDrawn(d, s, 3);
  }
}
