/**
 The two loops that fill each directory of a fileset, as they show in the layout: how far each of them ran, and that
 this leaves just one layout for given draws and numbers wanted.
 */
module FilesetLoops {
  import opened FilesetState
  import opened FilesetLayout

  /** How many of the entries from `lo` up to `hi` are in directory `p`. */
  ghost function Children(s: seq<Entry>, p: nat, lo: nat, hi: nat): (n: nat)
    requires hi <= |s|
  {
    if hi <= lo then 0 else Children(s, p, lo, hi - 1) + if s[hi - 1].parent == Some(p) then 1 else 0
  }

  /** Entry `q` was made by the loop for kind `k` of directory `p` that began at `lo`: next in turn, and with some of `k` missing. */
  ghost predicate ByLoop(w: Tally, s: seq<Entry>, p: nat, lo: nat, k: Kind, q: nat)
    requires q < |s| && k != Dir
  {
    s[q].serial == 1 + Children(s, p, lo, q) && (s[q].kind == Dir || s[q].kind == k) && Count(s[..q], k) < w.Of(k)
  }

  /** All entries of `p` from `lo` up to `hi` were made by that loop. */
  ghost predicate LoopMade(w: Tally, s: seq<Entry>, p: nat, lo: nat, hi: nat, k: Kind)
    requires hi <= |s| && k != Dir
  {
    forall q :: lo <= q < hi && s[q].parent == Some(p) ==> ByLoop(w, s, p, lo, k, q)
  }

  /** The loop is over: as many as wanted are there, or, but in the root, as many names as the width drawn. */
  ghost predicate LoopOver(w: Tally, d: Draws, s: seq<Entry>, p: nat, lo: nat, hi: nat, k: Kind)
    requires p < |s| && hi <= |s| && k != Dir
  {
    Count(s[..hi], k) == w.Of(k) || (p > 0 && Children(s, p, lo, hi) as real >= d.WidthAt(s[p].index))
  }

  ghost predicate LoopRan(w: Tally, d: Draws, s: seq<Entry>, p: nat, lo: nat, hi: nat, k: Kind)
    requires p < |s| && k != Dir
  {
    lo <= hi <= |s| && LoopMade(w, s, p, lo, hi, k) && LoopOver(w, d, s, p, lo, hi, k)
  }

  /** Directory `p` was filled from right after it up to `end`, by the loop for files up to `mid` and then by the other. */
  ghost predicate FilledBy(w: Tally, d: Draws, s: seq<Entry>, p: nat, mid: nat, end: nat)
    requires p < |s|
  {
    && LoopRan(w, d, s, p, p + 1, mid, File) && LoopRan(w, d, s, p, mid, end, LeafDir)
    && (forall j :: p < j < end ==> s[j].parent.Some? && s[j].parent.value >= p)
    && forall j :: end <= j < |s| ==> s[j].parent != Some(p)
  }

  ghost predicate Walked(w: Tally, d: Draws, s: seq<Entry>, p: nat)
    requires p < |s|
  {
    s[p].kind == Dir ==> exists mid, end :: FilledBy(w, d, s, p, mid, end)
  }

  ghost predicate AllWalked(w: Tally, d: Draws, s: seq<Entry>, from: nat) {
    forall p :: from <= p < |s| ==> Walked(w, d, s, p)
  }

  // ---------- later entries elsewhere change none of this ----------

  ghost predicate Extends(s: seq<Entry>, t: seq<Entry>) {
    |s| <= |t| && forall i :: 0 <= i < |s| ==> t[i] == s[i]
  }

  lemma {:induction false} ChildrenKept(s: seq<Entry>, t: seq<Entry>, p: nat, lo: nat, hi: nat)
    requires Extends(s, t) && hi <= |s|
    ensures Children(t, p, lo, hi) == Children(s, p, lo, hi)
  {
    if hi > lo { ChildrenKept(s, t, p, lo, hi - 1); }
  }

  lemma PrefixKept(s: seq<Entry>, t: seq<Entry>, hi: nat)
    requires Extends(s, t) && hi <= |s|
    ensures t[..hi] == s[..hi]
  {
  }

  lemma LoopMadeKept(w: Tally, s: seq<Entry>, t: seq<Entry>, p: nat, lo: nat, hi: nat, k: Kind)
    requires Extends(s, t) && hi <= |s| && k != Dir && LoopMade(w, s, p, lo, hi, k)
    ensures LoopMade(w, t, p, lo, hi, k)
  {
    forall q | lo <= q < hi && t[q].parent == Some(p) ensures ByLoop(w, t, p, lo, k, q) {
      assert ByLoop(w, s, p, lo, k, q);
      ChildrenKept(s, t, p, lo, q);
      PrefixKept(s, t, q);
    }
  }

  lemma LoopRanKept(w: Tally, d: Draws, s: seq<Entry>, t: seq<Entry>, p: nat, lo: nat, hi: nat, k: Kind)
    requires Extends(s, t) && p < |s| && k != Dir && LoopRan(w, d, s, p, lo, hi, k)
    ensures LoopRan(w, d, t, p, lo, hi, k)
  {
    LoopMadeKept(w, s, t, p, lo, hi, k);
    ChildrenKept(s, t, p, lo, hi);
    PrefixKept(s, t, hi);
  }

  lemma WalkedKept(w: Tally, d: Draws, s: seq<Entry>, t: seq<Entry>, p: nat)
    requires Extends(s, t) && p < |s| && Walked(w, d, s, p) && forall j :: |s| <= j < |t| ==> t[j].parent != Some(p)
    ensures Walked(w, d, t, p)
  {
    if s[p].kind == Dir {
      var mid, end :| FilledBy(w, d, s, p, mid, end);
      LoopRanKept(w, d, s, t, p, p + 1, mid, File);
      LoopRanKept(w, d, s, t, p, mid, end, LeafDir);
      assert FilledBy(w, d, t, p, mid, end);
    }
  }

  /** What was made later lies in `me` or in what was made later still. */
  lemma AllWalkedThen(w: Tally, d: Draws, s: seq<Entry>, t: seq<Entry>, from: nat, me: nat)
    requires Filled(s, t, me) && me < from <= |s| && AllWalked(w, d, s, from) && AllWalked(w, d, t, |s|)
    ensures AllWalked(w, d, t, from)
  {
    assert forall i :: 0 <= i < |s| ==> t[i] == t[..|s|][i];
    forall p | from <= p < |t| ensures Walked(w, d, t, p) {
      if p < |s| {
        assert Walked(w, d, s, p);
        WalkedKept(w, d, s, t, p);
      }
    }
  }

  // ---------- running a loop ----------

  /** The loop for kind `k` at spot `h` began at `s`, is at name `i`, and has got to `t`. */
  ghost predicate Looping(w: Tally, d: Draws, s: seq<Entry>, t: seq<Entry>, h: Spot, k: Kind, i: nat)
    requires Laid(t) && k != Dir
  {
    && Filled(s, t, h.me) && h.me < |s| && Stands(d, t, h) && AllWalked(w, d, t, |s|)
    && 1 <= i && (i == 1 || Taken(t, h.me, i - 1)) && (k == File ==> NoLeafDir(t, h.me))
    && LoopMade(w, t, h.me, |s|, |t|, k) && i == 1 + Children(t, h.me, |s|, |t|)
  }

  lemma LoopBegins(w: Tally, d: Draws, s: seq<Entry>, h: Spot, k: Kind)
    requires Laid(s) && Stands(d, s, h) && k != Dir && (k == File ==> NoLeafDir(s, h.me))
    ensures Looping(w, d, s, s, h, k, 1)
  {
  }

  lemma {:induction false} ChildrenNone(s: seq<Entry>, p: nat, lo: nat, mid: nat, hi: nat)
    requires mid <= hi <= |s| && forall j :: mid <= j < hi ==> s[j].parent != Some(p)
    ensures Children(s, p, lo, hi) == Children(s, p, lo, mid)
  {
    if hi > mid { ChildrenNone(s, p, lo, mid, hi - 1); }
  }

  lemma SproutFills(t: seq<Entry>, u: seq<Entry>, kind: Kind, me: nat, serial: nat)
    requires Sprouted(t, u, kind, Some(me), serial)
    ensures Filled(t, u, me) && Extends(t, u)
  {
    assert forall i :: 0 <= i < |t| <= |u| ==> u[i] == u[..|t|][i];
  }

  /** After `t`, one entry was made in `me`, and then others elsewhere. */
  ghost predicate OneMoreIn(t: seq<Entry>, u: seq<Entry>, me: nat) {
    Extends(t, u) && |t| < |u| && u[|t|].parent == Some(me) && forall j :: |t| < j < |u| ==> u[j].parent != Some(me)
  }

  lemma ChildrenMore(lo: nat, t: seq<Entry>, u: seq<Entry>, me: nat)
    requires lo <= |t| && OneMoreIn(t, u, me)
    ensures Children(u, me, lo, |u|) == Children(t, me, lo, |t|) + 1
  {
    ChildrenKept(t, u, me, lo, |t|);
    ChildrenNone(u, me, lo, |t| + 1, |u|);
  }

  lemma NewByLoop(w: Tally, lo: nat, t: seq<Entry>, u: seq<Entry>, me: nat, k: Kind)
    requires lo <= |t| && k != Dir && OneMoreIn(t, u, me) && (u[|t|].kind == Dir || u[|t|].kind == k)
    requires u[|t|].serial == 1 + Children(t, me, lo, |t|) && Count(t, k) < w.Of(k)
    ensures ByLoop(w, u, me, lo, k, |t|)
  {
    ChildrenKept(t, u, me, lo, |t|);
    assert u[..|t|] == t;
  }

  /** One more name, and all that was made below it. */
  lemma LoopMadeMore(w: Tally, lo: nat, t: seq<Entry>, u: seq<Entry>, me: nat, k: Kind)
    requires lo <= |t| && k != Dir && OneMoreIn(t, u, me) && LoopMade(w, t, me, lo, |t|, k) && ByLoop(w, u, me, lo, k, |t|)
    ensures LoopMade(w, u, me, lo, |u|, k)
  {
    LoopMadeKept(w, t, u, me, lo, |t|, k);
    forall q | lo <= q < |u| && u[q].parent == Some(me) ensures ByLoop(w, u, me, lo, k, q) {
      assert q <= |t|;
    }
  }

  lemma LoopStep(w: Tally, d: Draws, s: seq<Entry>, t: seq<Entry>, u: seq<Entry>, h: Spot, k: Kind, i: nat)
    requires Laid(t) && Laid(u) && k != Dir && Looping(w, d, s, t, h, k, i)
    requires Sprouted(t, u, h.Makes(k), Some(h.me), i) && |t| < |u| && AllWalked(w, d, u, |t|) && Count(t, k) < w.Of(k)
    ensures Looping(w, d, s, u, h, k, i + 1)
  {
    var made := h.Makes(k);
    StandsKept(d, t, u, h);
    SproutFills(t, u, made, h.me, i);
    FilledStep(s, t, u, made, h.me, i);
    AllWalkedThen(w, d, t, u, |s|, h.me);
    SproutTaken(t, u, made, h.me, i);
    if k == File { SproutNoLeafDir(t, u, made, h.me, i); }
    assert OneMoreIn(t, u, h.me);
    NewByLoop(w, |s|, t, u, h.me, k);
    LoopMadeMore(w, |s|, t, u, h.me, k);
    ChildrenMore(|s|, t, u, h.me);
  }

  lemma LoopEnds(w: Tally, d: Draws, s: seq<Entry>, t: seq<Entry>, h: Spot, k: Kind, i: nat)
    requires Laid(t) && k != Dir && Looping(w, d, s, t, h, k, i)
    requires !((h.root || i as real < h.width + 1.0) && Count(t, k) < w.Of(k)) && Count(t, k) <= w.Of(k)
    ensures LoopRan(w, d, t, h.me, |s|, |t|, k)
  {
    assert t[..|t|] == t;
  }

  /** A directory filled by both loops, right after it was made. */
  lemma BothLoops(w: Tally, d: Draws, s: seq<Entry>, t: seq<Entry>, u: seq<Entry>, me: nat)
    requires |s| == me + 1 && Filled(s, t, me) && Filled(t, u, me)
    requires LoopRan(w, d, t, me, |s|, |t|, File) && LoopRan(w, d, u, me, |t|, |u|, LeafDir)
    requires AllWalked(w, d, t, |s|) && AllWalked(w, d, u, |t|)
    ensures AllWalked(w, d, u, me)
  {
    AllWalkedThen(w, d, t, u, |s|, me);
    FilledByBoth(w, d, s, t, u, me);
    forall p | me <= p < |u| ensures Walked(w, d, u, p) {
    }
  }

  lemma FilledByBoth(w: Tally, d: Draws, s: seq<Entry>, t: seq<Entry>, u: seq<Entry>, me: nat)
    requires |s| == me + 1 && Filled(s, t, me) && Filled(t, u, me)
    requires LoopRan(w, d, t, me, |s|, |t|, File) && LoopRan(w, d, u, me, |t|, |u|, LeafDir)
    ensures FilledBy(w, d, u, me, |t|, |u|)
  {
    assert forall i :: 0 <= i < |t| ==> u[i] == u[..|t|][i];
    LoopRanKept(w, d, t, u, me, |s|, |t|, File);
    FilledAgain(s, t, u, me);
  }

  /** Entries that are not directories have nothing to fill. */
  lemma LeafWalked(w: Tally, d: Draws, s: seq<Entry>, t: seq<Entry>)
    requires |t| == |s| + 1 && t[|s|].kind != Dir
    ensures AllWalked(w, d, t, |s|)
  {
  }
}
