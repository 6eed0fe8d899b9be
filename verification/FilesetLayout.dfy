/** The layout of a fileset: what its entries are, how they are named, and what a call that makes some may add. */
module FilesetLayout {
  import opened FilesetState
  import opened FilesetProtocol

  datatype Kind = Dir | File | LeafDir

  /** `parent` is the position of the parent directory in the order of creation; `serial` is the name. */
  datatype Entry = Entry(kind: Kind, index: nat, parent: Option<nat>, serial: nat)

  function Count(s: seq<Entry>, k: Kind): (n: nat) {
    if s == [] then 0
    else Count(s[..|s| - 1], k) + if s[|s| - 1].kind == k then 1 else 0
  }

  lemma CountSnoc(s: seq<Entry>, e: Entry, k: Kind)
    ensures Count(s + [e], k) == Count(s, k) + if e.kind == k then 1 else 0
  {
    assert (s + [e])[..|s|] == s;
  }

  /** Only the first entry has no parent, a parent is an earlier directory, and the index counts the kind. */
  ghost predicate Fits(s: seq<Entry>, i: nat)
    requires i < |s|
  {
    && s[i].index == Count(s[..i], s[i].kind)
    && (s[i].parent.None? ==> i == 0)
    && (s[i].parent.Some? ==> s[i].parent.value < i && s[s[i].parent.value].kind == Dir)
  }

  ghost predicate Laid(s: seq<Entry>) {
    forall i :: 0 <= i < |s| ==> Fits(s, i)
  }

  lemma LaidSnoc(s: seq<Entry>, e: Entry)
    requires Laid(s) && e.index == Count(s, e.kind)
    requires match e.parent case None => s == [] case Some(p) => p < |s| && s[p].kind == Dir
    ensures Laid(s + [e])
  {
    var t := s + [e];
    forall i | 0 <= i < |t| ensures Fits(t, i) {
      assert t[..i] == s[..i];
      assert s[..|s|] == s;
      if i < |s| { assert Fits(s, i); }
    }
  }

  // ---------- indices ----------

  lemma {:induction false} CountMonotone(s: seq<Entry>, i: nat, j: nat, k: Kind)
    requires i <= j <= |s|
    ensures Count(s[..i], k) <= Count(s[..j], k)
  {
    if i < j {
      CountMonotone(s, i, j - 1, k);
      assert s[..j] == s[..j - 1] + [s[j - 1]];
      CountSnoc(s[..j - 1], s[j - 1], k);
    }
  }

  /** No two entries of a kind have the same index. */
  lemma IndexUnique(s: seq<Entry>, i: nat, j: nat)
    requires Laid(s) && i < j < |s| && s[i].kind == s[j].kind
    ensures s[i].index < s[j].index
  {
    assert Fits(s, i) && Fits(s, j);
    assert s[..i + 1] == s[..i] + [s[i]];
    CountSnoc(s[..i], s[i], s[i].kind);
    CountMonotone(s, i + 1, j, s[i].kind);
  }

  /** Every number below the count of a kind is the index of an entry of that kind. */
  lemma {:induction false} IndexFound(s: seq<Entry>, k: Kind, n: nat) returns (i: nat)
    requires Laid(s) && n < Count(s, k)
    ensures i < |s| && s[i].kind == k && s[i].index == n
  {
    var last := |s| - 1;
    assert Fits(s, last);
    if s[last].kind == k && s[last].index == n { return last; }
    var t := s[..last];
    forall j | 0 <= j < |t| ensures Fits(t, j) {
      assert Fits(s, j) && t[..j] == s[..j];
    }
    i := IndexFound(t, k, n);
  }

  // ---------- names ----------

  /** `fileset_resolvepath`: the names from below the root down to the entry. */
  ghost function Path(s: seq<Entry>, i: nat): (r: seq<nat>)
    requires Laid(s) && i < |s|
  {
    assert Fits(s, i);
    match s[i].parent
    case None => []
    case Some(p) => Path(s, p) + [s[i].serial]
  }

  ghost predicate SameName(a: Entry, b: Entry) {
    a.parent == b.parent && a.serial == b.serial
  }

  /** No two entries of one directory have the same name. */
  ghost predicate NoClash(s: seq<Entry>) {
    forall i, j :: 0 <= i < j < |s| ==> !SameName(s[i], s[j])
  }

  ghost predicate PathsDiffer(s: seq<Entry>)
    requires Laid(s)
  {
    forall i, j :: 0 <= i < j < |s| ==> Path(s, i) != Path(s, j)
  }

  lemma {:induction false} SamePath(s: seq<Entry>, i: nat, j: nat)
    requires Laid(s) && NoClash(s) && i < |s| && j < |s| && Path(s, i) == Path(s, j)
    ensures i == j
    decreases i
  {
    assert Fits(s, i) && Fits(s, j);
    match s[i].parent
    case None =>
    case Some(p) =>
      var q := s[j].parent.value;
      var a, b := Path(s, p), Path(s, q);
      assert a == (a + [s[i].serial])[..|a|] && b == (b + [s[j].serial])[..|b|];
      assert |Path(s, i)| == |a| + 1 && |Path(s, j)| == |b| + 1;
      assert Path(s, i)[|a|] == s[i].serial && Path(s, j)[|b|] == s[j].serial;
      SamePath(s, p, q);
      assert SameName(s[i], s[j]) && SameName(s[j], s[i]);
  }

  /** Full paths are distinct exactly when names are distinct within each directory. */
  lemma PathsDifferIff(s: seq<Entry>)
    requires Laid(s)
    ensures PathsDiffer(s) <==> NoClash(s)
  {
    if NoClash(s) {
      forall i, j | 0 <= i < j < |s| ensures Path(s, i) != Path(s, j) {
        if Path(s, i) == Path(s, j) { SamePath(s, i, j); }
      }
    } else {
      var i, j :| 0 <= i < j < |s| && SameName(s[i], s[j]);
      assert Path(s, i) == Path(s, j);
    }
  }

  /** One file and one leaf directory: both are 00000001 in the one subdirectory. */
  lemma OneOfEach(s: seq<Entry>)
    requires s == OneOfEachLayout()
    ensures Laid(s) && Path(s, 2) == Path(s, 3) == [1, 1]
  {
    var a := Entry(Dir, 0, None, 1);
    var b := Entry(Dir, 1, Some(0), 1);
    var c := Entry(File, 0, Some(1), 1);
    var d := Entry(LeafDir, 0, Some(1), 1);
    assert [a, b] == [a] + [b] && [a, b, c] == [a, b] + [c] && s == [a, b, c] + [d];
    CountSnoc([a], b, File);
    CountSnoc([a], b, LeafDir);
    CountSnoc([a, b], c, LeafDir);
    assert Laid([a]);
    LaidSnoc([a], b);
    LaidSnoc([a, b], c);
    LaidSnoc([a, b, c], d);
    assert Path(s, 0) == [] && Path(s, 1) == [1];
  }

  // ---------- where the protocol starts ----------

  ghost function OfKind(s: seq<Entry>, k: Kind): (r: set<nat>) {
    set i | 0 <= i < |s| && s[i].kind == k
  }

  lemma {:induction false} OfKindSize(s: seq<Entry>, k: Kind)
    ensures |OfKind(s, k)| == Count(s, k)
  {
    if s != [] {
      var last := |s| - 1;
      OfKindSize(s[..last], k);
      assert OfKind(s, k) == OfKind(s[..last], k) + if s[last].kind == k then {last} else {};
    }
  }

  /** All the entries of a kind, free and idle. */
  ghost function Populated(s: seq<Entry>, k: Kind): (r: State<nat>) {
    var all := OfKind(s, k);
    State(map i | i in all :: s[i].index, all, {}, {}, {}, all, {}, {}, map i | i in all :: 0, |all|, 0, seq(MAX_TID, _ => 0))
  }

  lemma PopulatedInjective(s: seq<Entry>, k: Kind)
    requires Laid(s)
    ensures Injective(Populated(s, k).index) && Populated(s, k).index.Keys == OfKind(s, k)
  {
    var index := Populated(s, k).index;
    forall a, b | a in index && b in index && index[a] == index[b] ensures a == b {
      if a < b { IndexUnique(s, a, b); }
      if b < a { IndexUnique(s, b, a); }
    }
  }

  lemma PopulatedSound(s: seq<Entry>, k: Kind)
    requires Laid(s)
    ensures Sound(Populated(s, k)) && Populated(s, k).idle == |Populated(s, k).index| == Count(s, k)
  {
    OfKindSize(s, k);
    PopulatedInjective(s, k);
  }

  /** A populated fileset is a state the pick protocol can start from. */
  lemma PopulatedIsInit(s: seq<Entry>, k: Kind, threads: set<Thread>)
    requires Laid(s)
    ensures Populated(s, k).idle == Count(s, k)
    ensures Init(World(Populated(s, k), map t | t in threads :: Ready, 0, 0))
  {
    PopulatedSound(s, k);
  }

  // ---------- what a call adds ----------

  /** What filling directory `me` adds lies in `me`, or in directories made on the way. */
  ghost predicate Filled(s: seq<Entry>, t: seq<Entry>, me: nat) {
    && |s| <= |t| && t[..|s|] == s
    && forall i :: |s| <= i < |t| ==> t[i].parent.Some? && (t[i].parent.value == me || t[i].parent.value >= |s|)
  }

  /** Making an entry adds it, and then only entries below it; nothing at all if there was no memory for it. */
  ghost predicate Sprouted(s: seq<Entry>, t: seq<Entry>, kind: Kind, parent: Option<nat>, serial: nat) {
    || t == s
    || (&& |s| < |t| && t[..|s|] == s && t[|s|].kind == kind && SameName(t[|s|], Entry(Dir, 0, parent, serial))
        && forall i :: |s| < i < |t| ==> t[i].parent.Some? && t[i].parent.value >= |s|)
  }

  lemma SproutOne(s: seq<Entry>, e: Entry)
    ensures Sprouted(s, s + [e], e.kind, e.parent, e.serial)
  {
    assert (s + [e])[..|s|] == s;
  }

  lemma FilledStep(s: seq<Entry>, t: seq<Entry>, u: seq<Entry>, kind: Kind, me: nat, serial: nat)
    requires Filled(s, t, me) && Sprouted(t, u, kind, Some(me), serial)
    ensures Filled(s, u, me)
  {
    assert u[..|s|] == u[..|t|][..|s|];
    forall i | |s| <= i < |u| ensures u[i].parent.Some? && (u[i].parent.value == me || u[i].parent.value >= |s|) {
      if i < |t| { assert u[i] == u[..|t|][i] == t[i]; }
    }
  }

  lemma FilledAgain(s: seq<Entry>, t: seq<Entry>, u: seq<Entry>, me: nat)
    requires Filled(s, t, me) && Filled(t, u, me)
    ensures Filled(s, u, me)
  {
    assert u[..|s|] == u[..|t|][..|s|];
    forall i | |s| <= i < |u| ensures u[i].parent.Some? && (u[i].parent.value == me || u[i].parent.value >= |s|) {
      if i < |t| { assert u[i] == u[..|t|][i] == t[i]; }
    }
  }

  /** A directory and all that filling it adds. */
  lemma SproutFilled(s: seq<Entry>, e: Entry, u: seq<Entry>)
    requires Filled(s + [e], u, |s|)
    ensures Sprouted(s, u, e.kind, e.parent, e.serial) && |s| < |u|
  {
    assert u[..|s|] == u[..|s| + 1][..|s|] == s;
    assert u[|s|] == u[..|s| + 1][|s|] == e;
  }

  // ---------- draws ----------

  /** What is drawn for the directory with a given index. */
  datatype Draws = Draws(depth: nat -> int, width: nat -> real) {
    function DepthAt(k: nat): (d: int) {
      if depth(k) == 0 then 1 else depth(k)
    }

    function WidthAt(k: nat): (w: real) {
      if width(k) == 0.0 then 1.0 else width(k)
    }
  }

  /** The depth a directory is made at; the root has depth 1. */
  ghost function Depth(s: seq<Entry>, i: nat): (d: nat)
    requires Laid(s) && i < |s|
  {
    assert Fits(s, i);
    match s[i].parent
    case None => 1
    case Some(p) => Depth(s, p) + 1
  }

  lemma {:induction false} DepthKept(s: seq<Entry>, t: seq<Entry>, i: nat)
    requires Laid(s) && Laid(t) && |s| <= |t| && t[..|s|] == s && i < |s|
    ensures Depth(t, i) == Depth(s, i) && t[i] == s[i]
    decreases i
  {
    assert t[i] == t[..|s|][i];
    assert Fits(s, i) && Fits(t, i);
    if s[i].parent.Some? { DepthKept(s, t, s[i].parent.value); }
  }

  /**
   What may be put into directory `p`: only directories into the root. Elsewhere names up to the width drawn, and
   directories exactly when the depth drawn has not been reached.
   */
  ghost predicate Allowed(d: Draws, s: seq<Entry>, p: nat, kind: Kind, serial: nat)
    requires Laid(s) && p < |s|
  {
    if p == 0 then kind == Dir
    else serial as real < d.WidthAt(s[p].index) + 1.0 && (kind == Dir <==> Depth(s, p) < d.DepthAt(s[p].index))
  }

  ghost predicate AsDrawn(d: Draws, s: seq<Entry>, i: nat)
    requires Laid(s) && i < |s|
  {
    s[i].parent.Some? ==> s[i].parent.value < |s| && Allowed(d, s, s[i].parent.value, s[i].kind, s[i].serial)
  }

  ghost predicate Obeys(d: Draws, s: seq<Entry>)
    requires Laid(s)
  {
    forall i :: 0 <= i < |s| ==> AsDrawn(d, s, i)
  }

  lemma AllowedKept(d: Draws, s: seq<Entry>, t: seq<Entry>, p: nat, kind: Kind, serial: nat)
    requires Laid(s) && Laid(t) && |s| <= |t| && t[..|s|] == s && p < |s| && Allowed(d, s, p, kind, serial)
    ensures Allowed(d, t, p, kind, serial)
  {
    DepthKept(s, t, p);
  }

  lemma ObeysSnoc(d: Draws, s: seq<Entry>, e: Entry)
    requires Laid(s) && Obeys(d, s) && Laid(s + [e])
    requires e.parent.Some? ==> e.parent.value < |s| && Allowed(d, s, e.parent.value, e.kind, e.serial)
    ensures Obeys(d, s + [e])
  {
    var t := s + [e];
    assert t[..|s|] == s;
    forall i | 0 <= i < |t| ensures AsDrawn(d, t, i) {
      assert Fits(t, i);
      if t[i].parent.Some? {
        assert i < |s| ==> AsDrawn(d, s, i) && t[i] == s[i] && Fits(s, i);
        AllowedKept(d, s, t, t[i].parent.value, t[i].kind, t[i].serial);
      }
    }
  }

  lemma {:induction false} DepthIsPath(s: seq<Entry>, i: nat)
    requires Laid(s) && i < |s|
    ensures Depth(s, i) == |Path(s, i)| + 1
    decreases i
  {
    assert Fits(s, i);
    if s[i].parent.Some? { DepthIsPath(s, s[i].parent.value); }
  }

  /**
   The same by the path of an entry and the draws for the directory it is in: a path of one name is a directory's; a
   longer one is a directory's exactly if it is shorter than the depth drawn, and ends in a name within the width drawn.
   A draw of zero counts as one.
   */
  lemma PathAsDrawn(d: Draws, s: seq<Entry>, i: nat)
    requires Laid(s) && Obeys(d, s) && 0 < i < |s|
    ensures s[i].parent.Some? && s[i].parent.value < i && Path(s, i) != []
    ensures var path, k := Path(s, i), s[s[i].parent.value].index;
            if |path| == 1 then s[i].kind == Dir
            else
              && (s[i].kind == Dir <==> |path| < if d.depth(k) == 0 then 1 else d.depth(k))
              && path[|path| - 1] as real < 1.0 + if d.width(k) == 0.0 then 1.0 else d.width(k)
  {
    assert Fits(s, i) && AsDrawn(d, s, i);
    var p := s[i].parent.value;
    DepthIsPath(s, p);
    assert Fits(s, p);
  }

  lemma NewDepth(s: seq<Entry>, e: Entry, depth: nat)
    requires Laid(s) && Laid(s + [e])
    requires match e.parent case None => depth == 0 case Some(p) => p < |s| && Depth(s, p) == depth
    ensures Depth(s + [e], |s|) == depth + 1
  {
    var t := s + [e];
    assert t[..|s|] == s && Fits(t, |s|);
    if e.parent.Some? { DepthKept(s, t, e.parent.value); }
  }

  /** A directory just made: its depth, and no leaf directory in it. */
  lemma NewDir(s: seq<Entry>, e: Entry, depth: nat)
    requires Laid(s) && Laid(s + [e])
    requires match e.parent case None => depth == 0 case Some(p) => p < |s| && Depth(s, p) == depth
    ensures Depth(s + [e], |s|) == depth + 1 && NoLeafDir(s + [e], |s|)
  {
    NewDepth(s, e, depth);
    var t := s + [e];
    forall i | 0 <= i < |t| ensures t[i].parent != Some(|s|) {
      assert Fits(t, i);
    }
  }

  /** What `fileset_populate_subdir` knows of its directory when it starts to fill it. */
  datatype Spot = Spot(me: nat, root: bool, leaf: bool, width: real, depth: nat) {
    /** What one turn of the loop for kind `k` makes there. */
    function Makes(k: Kind): (made: Kind) {
      if root || !leaf then Dir else k
    }
  }

  ghost predicate Stands(d: Draws, s: seq<Entry>, h: Spot)
    requires Laid(s)
  {
    && h.me < |s| && s[h.me].kind == Dir && (h.root <==> h.me == 0) && Depth(s, h.me) == h.depth
    && (h.leaf <==> h.depth >= d.DepthAt(s[h.me].index)) && h.width == d.WidthAt(s[h.me].index)
  }

  lemma StandsKept(d: Draws, s: seq<Entry>, t: seq<Entry>, h: Spot)
    requires Laid(s) && Laid(t) && |s| <= |t| && t[..|s|] == s && Stands(d, s, h)
    ensures Stands(d, t, h)
  {
    DepthKept(s, t, h.me);
  }

  // ---------- counters ----------

  /** A number of files and a number of leaf directories. */
  datatype Tally = Tally(files: nat, leafDirs: nat) {
    function Of(k: Kind): (n: nat)
      requires k != Dir
    {
      if k == File then files else leafDirs
    }

    function Plus(k: Kind): (t: Tally)
      requires k != Dir
    {
      if k == File then this.(files := files + 1) else this.(leafDirs := leafDirs + 1)
    }

    predicate AtMost(t: Tally) {
      files <= t.files && leafDirs <= t.leafDirs
    }
  }

  function Tallied(s: seq<Entry>): (t: Tally) {
    Tally(Count(s, File), Count(s, LeafDir))
  }

  lemma TalliedSnoc(s: seq<Entry>, e: Entry)
    ensures Tallied(s + [e]) == if e.kind == Dir then Tallied(s) else Tallied(s).Plus(e.kind)
    ensures Count(s + [e], Dir) == Count(s, Dir) + if e.kind == Dir then 1 else 0
  {
    CountSnoc(s, e, Dir);
    CountSnoc(s, e, File);
    CountSnoc(s, e, LeafDir);
  }

  // ---------- the order things are made in ----------

  /** A name in use in directory `p`. */
  ghost predicate Taken(s: seq<Entry>, p: nat, n: int) {
    exists j :: 0 <= j < |s| && s[j].parent == Some(p) && s[j].serial == n
  }

  ghost predicate NoLeafDir(s: seq<Entry>, p: nat) {
    forall j :: 0 <= j < |s| && s[j].parent == Some(p) ==> s[j].kind != LeafDir
  }

  /**
   What may be made next: the root first, named 1. After that names without gaps from 1, no file after a leaf
   directory of the same directory, and a directory only while something of what is wanted is missing.
   */
  ghost predicate MayFollow(w: Tally, s: seq<Entry>, e: Entry) {
    match e.parent
    case None => e.kind == Dir && e.serial == 1
    case Some(p) =>
      && (e.serial == 1 || Taken(s, p, e.serial - 1))
      && (e.kind == File ==> NoLeafDir(s, p))
      && (e.kind == Dir ==> Tallied(s) != w)
  }

  ghost predicate InTurn(w: Tally, s: seq<Entry>, i: nat)
    requires i < |s|
  {
    MayFollow(w, s[..i], s[i])
  }

  ghost predicate Orderly(w: Tally, s: seq<Entry>) {
    forall i :: 0 <= i < |s| ==> InTurn(w, s, i)
  }

  lemma OrderlySnoc(w: Tally, s: seq<Entry>, e: Entry)
    requires Orderly(w, s) && MayFollow(w, s, e)
    ensures Orderly(w, s + [e])
  {
    var t := s + [e];
    forall i | 0 <= i < |t| ensures InTurn(w, t, i) {
      if i < |s| {
        assert t[..i] == s[..i] && InTurn(w, s, i);
      } else {
        assert t[..i] == s;
      }
    }
  }

  lemma SproutTaken(s: seq<Entry>, t: seq<Entry>, kind: Kind, me: nat, serial: nat)
    requires Sprouted(s, t, kind, Some(me), serial) && |s| < |t|
    ensures Taken(t, me, serial)
  {
    assert t[|s|].parent == Some(me) && t[|s|].serial == serial;
  }

  lemma SproutNoLeafDir(s: seq<Entry>, t: seq<Entry>, kind: Kind, me: nat, serial: nat)
    requires Sprouted(s, t, kind, Some(me), serial) && me < |s| && NoLeafDir(s, me) && kind != LeafDir
    ensures NoLeafDir(t, me)
  {
    forall j | 0 <= j < |t| && t[j].parent == Some(me) ensures t[j].kind != LeafDir {
      if j < |s| { assert t[j] == t[..|s|][j] == s[j]; }
    }
  }

  // ---------- no directory in vain ----------

  /** Everything after `p` up to `i` is in `p` or in directories made after it: `i` is below `p`. */
  ghost predicate Below(s: seq<Entry>, p: nat, i: nat)
    requires i < |s|
  {
    forall j :: p < j <= i ==> s[j].parent.Some? && s[j].parent.value >= p
  }

  /** If the kind was still missing when directory `p` was made, one of that kind is below it. */
  ghost predicate Provides(w: Tally, s: seq<Entry>, p: nat, k: Kind)
    requires p < |s| && k != Dir
  {
    Count(s[..p], k) < w.Of(k) ==> exists i :: p < i < |s| && s[i].kind == k && Below(s, p, i)
  }

  ghost predicate Useful(w: Tally, s: seq<Entry>, p: nat)
    requires p < |s|
  {
    s[p].kind == Dir && s[p].parent.Some? ==> Provides(w, s, p, File) && Provides(w, s, p, LeafDir)
  }

  ghost predicate AllUseful(w: Tally, s: seq<Entry>, from: nat) {
    forall p :: from <= p < |s| ==> Useful(w, s, p)
  }

  // ---------- one file and one leaf directory ----------

  const ONE_EACH := Tally(1, 1)

  function ShallowDraws(): (d: Draws) {
    Draws(_ => 1, _ => 1.0)
  }

  function OneOfEachLayout(): (s: seq<Entry>) {
    [Entry(Dir, 0, None, 1), Entry(Dir, 1, Some(0), 1), Entry(File, 0, Some(1), 1), Entry(LeafDir, 0, Some(1), 1)]
  }
}
