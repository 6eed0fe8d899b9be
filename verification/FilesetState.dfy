/**
 One kind of fileset entry (files, or leaf directories) as a value: the flags of the entries, the three trees
 they are kept in, and what each critical section under `fs_pick_lock` does to them.
 */
module FilesetState {
  import opened FilesetOrder

  /** FSE_MAXTID. */
  const MAX_TID := 16384

  datatype Option<T> = None | Some(value: T)

  /**
   `index` gives every entry its `fse_index`. `isFree`, `extant`, `busy` and `waiting` are the entries with
   the FSE_FREE, FSE_EXISTS, FSE_BUSY and FSE_THRD_WAITNG flags; `free`, `exist` and `noex` are the trees.
   */
  datatype State<E> = State(
    index: map<E, nat>,
    isFree: set<E>, extant: set<E>, busy: set<E>, waiting: set<E>,
    free: set<E>, exist: set<E>, noex: set<E>,
    open: map<E, int>, idle: int,
    neRotor: nat, exRotor: seq<nat>)

  /** No two entries have the same index. */
  ghost predicate Injective<E>(index: map<E, nat>) {
    forall a, b :: a in index && b in index && index[a] == index[b] ==> a == b
  }

  /** Every entry is in exactly one tree, the one its flags name. */
  ghost predicate Placed<E>(s: State<E>) {
    && s.free == s.isFree && s.exist == s.extant && s.noex == s.index.Keys - s.isFree - s.extant
    && s.isFree !! s.extant && s.isFree <= s.index.Keys && s.extant <= s.index.Keys
  }

  ghost predicate Sound<E>(s: State<E>) {
    && Placed(s) && Injective(s.index)
    && s.busy <= s.index.Keys && s.waiting <= s.busy
    && s.open.Keys == s.index.Keys && |s.exRotor| == MAX_TID
  }

  // ---------- fileset_pick ----------

  /** Which tree a pick draws from. */
  datatype Pool = Unique | NotExisting | Existing

  /** How the pick chooses where to start: an index (given or drawn), or the rotor. */
  datatype Start = AtIndex(i: nat) | Rotor(tid: nat)

  function Tree<E>(s: State<E>, p: Pool): (t: set<E>) {
    match p
    case Unique => s.free
    case NotExisting => s.noex
    case Existing => s.exist
  }

  ghost function IndexSet<E>(index: map<E, nat>, t: set<E>): (r: set<nat>)
    requires t <= index.Keys
  {
    set e | e in t :: index[e]
  }

  /** Where the rotor or the request points. */
  function StartIndex<E>(s: State<E>, p: Pool, st: Start): (i: nat)
    requires |s.exRotor| == MAX_TID && (st.Rotor? ==> st.tid < MAX_TID)
  {
    match st
    case AtIndex(i) => i
    case Rotor(tid) => if p == NotExisting then s.neRotor else s.exRotor[tid]
  }

  /** The entry of `t` with the cyclic successor of `i` as its index. */
  ghost predicate IsCyclic<E>(index: map<E, nat>, t: set<E>, i: nat, e: E) {
    && t <= index.Keys && e in t && IndexSet(index, t) != {} && index[e] == CyclicFrom(IndexSet(index, t), i)
  }

  /** A rotor pick leaves the rotor just past the entry it started from, whether or not that one was busy. */
  function TurnRotor<E>(s: State<E>, p: Pool, st: Start, found: nat): (r: State<E>)
    requires |s.exRotor| == MAX_TID && (st.Rotor? ==> st.tid < MAX_TID)
  {
    match st
    case AtIndex(_) => s
    case Rotor(tid) => if p == NotExisting then s.(neRotor := found + 1) else s.(exRotor := s.exRotor[tid := found + 1])
  }

  function Take<E>(s: State<E>, e: E): (r: State<E>) {
    s.(busy := s.busy + {e}, idle := s.idle - 1)
  }

  /**
   What `fileset_pick` does once past its wait: nothing if the tree is empty; else the rotor turns, and the
   first idle entry at or after the start, cyclically, is taken if there is one.
   */
  ghost predicate Picks<E>(s: State<E>, p: Pool, st: Start, s': State<E>, r: Option<E>)
    requires Sound(s) && (st.Rotor? ==> st.tid < MAX_TID)
  {
    var t := Tree(s, p);
    if t == {} then s' == s && r == None
    else
      var i := StartIndex(s, p, st);
      IndexSet(s.index, t) != {} &&
      var turned := TurnRotor(s, p, st, CyclicFrom(IndexSet(s.index, t), i));
      match r
      case None => t <= s.busy && s' == turned
      case Some(e) => IsCyclic(s.index, t - s.busy, i, e) && s' == Take(turned, e)
  }

  // ---------- fileset_unbusy ----------

  /** The flags and the tree moves when asked to set, or clear, existence. */
  function SetExists<E>(s: State<E>, e: E, exist: bool): (r: State<E>) {
    if exist then
      if e in s.isFree then
        s.(isFree := s.isFree - {e}, extant := s.extant + {e}, free := s.free - {e}, exist := s.exist + {e})
      else if e !in s.extant then
        s.(extant := s.extant + {e}, noex := s.noex - {e}, exist := s.exist + {e})
      else s
    else
      if e in s.isFree then
        s.(isFree := s.isFree - {e}, extant := s.extant - {e}, free := s.free - {e}, noex := s.noex + {e})
      else if e in s.extant then
        s.(extant := s.extant - {e}, exist := s.exist - {e}, noex := s.noex + {e})
      else s
  }

  /** What a holder asks of `fileset_unbusy`. */
  datatype Release = Release(updateExist: bool, newExist: bool, openIncr: int)

  function Unbusy<E>(s: State<E>, e: E, q: Release): (r: State<E>)
    requires e in s.open
  {
    var u := if q.updateExist then SetExists(s, e, q.newExist) else s;
    var v := u.(open := u.open[e := u.open[e] + q.openIncr]);
    if e in v.busy then v.(busy := v.busy - {e}, waiting := v.waiting - {e}, idle := v.idle + 1) else v
  }

  // ---------- the grabs of flowoplib_deletefile and flowoplib_closefile ----------

  function GrabToDelete<E>(s: State<E>, e: E): (r: State<E>) {
    Take(s, e)
  }

  function GrabToClose<E>(s: State<E>, e: E): (r: State<E>)
    requires e in s.open
  {
    s.(busy := s.busy + {e}, idle := if s.open[e] == 1 then s.idle - 1 else s.idle)
  }

  function Wait<E>(s: State<E>, e: E): (r: State<E>) {
    s.(waiting := s.waiting + {e})
  }

  // ---------- what every critical section keeps ----------

  lemma SetExistsSound<E>(s: State<E>, e: E, exist: bool)
    requires Sound(s) && e in s.index
    ensures Sound(SetExists(s, e, exist))
    ensures var r := SetExists(s, e, exist);
            && (e in r.extant <==> exist) && e !in r.isFree
            && forall x :: x in s.index && x != e ==> (x in r.isFree <==> x in s.isFree) && (x in r.extant <==> x in s.extant)
  {
  }

  lemma UnbusySound<E>(s: State<E>, e: E, q: Release)
    requires Sound(s) && e in s.index
    ensures Sound(Unbusy(s, e, q))
  {
    if q.updateExist { SetExistsSound(s, e, q.newExist); }
  }

  /** What a release leaves: the entry's flags as asked, its count moved, the entry idle again; all others as they were. */
  lemma ReleaseSets<E>(s: State<E>, e: E, q: Release)
    requires Sound(s) && e in s.busy
    ensures var r := Unbusy(s, e, q);
            && r.busy == s.busy - {e} && r.waiting == s.waiting - {e} && r.idle == s.idle + 1
            && r.open == s.open[e := s.open[e] + q.openIncr]
            && (if q.updateExist then (e in r.extant <==> q.newExist) && e !in r.isFree
                else (e in r.extant <==> e in s.extant) && (e in r.isFree <==> e in s.isFree))
            && (forall x :: x in s.index && x != e ==> (x in r.isFree <==> x in s.isFree) && (x in r.extant <==> x in s.extant))
            && r.index == s.index && r.neRotor == s.neRotor && r.exRotor == s.exRotor
  {
  }

  lemma PicksSound<E>(s: State<E>, p: Pool, st: Start, s': State<E>, r: Option<E>)
    requires Sound(s) && (st.Rotor? ==> st.tid < MAX_TID) && Picks(s, p, st, s', r)
    ensures Sound(s')
  {
  }

  /** A pick comes back empty exactly when the selected tree has no idle entry; otherwise it takes one from it. */
  lemma PickOutcome<E>(s: State<E>, p: Pool, st: Start, s': State<E>, r: Option<E>)
    requires Sound(s) && (st.Rotor? ==> st.tid < MAX_TID) && Picks(s, p, st, s', r)
    ensures r == None <==> Tree(s, p) <= s.busy
    ensures r.Some? ==> r.value in Tree(s, p) && r.value !in s.busy && r.value in s'.busy && s'.idle == s.idle - 1
  {
  }

  /** The entry has the flags a pick asks for. */
  ghost predicate Asked<E>(s: State<E>, p: Pool, e: E) {
    && e in s.index
    && match p
       case Unique => e in s.isFree
       case NotExisting => e !in s.isFree && e !in s.extant
       case Existing => e !in s.isFree && e in s.extant
  }

  /** The entry of `t` with the least index not below `i`, or with the least index if all are below. */
  ghost predicate Nearest<E>(s: State<E>, t: set<E>, i: nat, e: E) {
    && t <= s.index.Keys && e in t
    && if i <= s.index[e] then forall x :: x in t && i <= s.index[x] ==> s.index[e] <= s.index[x]
       else forall x :: x in t ==> s.index[e] <= s.index[x] < i
  }

  /** In an ordered set, the cyclic successor is the nearest. */
  lemma CyclicIsNearest<E>(s: State<E>, t: set<E>, i: nat, e: E)
    requires IsCyclic(s.index, t, i, e)
    ensures Nearest(s, t, i, e)
  {
    var r := IndexSet(s.index, t);
    forall x | x in t ensures s.index[x] in r && (i <= s.index[x] ==> s.index[x] in From(r, i)) {
    }
  }

  /**
   What a pick gives, by the flags of the entries alone: nothing if and only if no idle entry has the flags asked
   for, and else the one of those nearest to where it starts; that entry is then busy and no longer counted idle.
   */
  lemma PickByFlags<E>(s: State<E>, p: Pool, st: Start, s': State<E>, r: Option<E>)
    requires Sound(s) && (st.Rotor? ==> st.tid < MAX_TID) && Picks(s, p, st, s', r)
    ensures var t := set e | e in s.index && Asked(s, p, e) && e !in s.busy;
            var i := match st case AtIndex(i) => i case Rotor(tid) => if p == NotExisting then s.neRotor else s.exRotor[tid];
            match r
            case None => t == {} && s'.busy == s.busy && s'.idle == s.idle
            case Some(e) => Nearest(s, t, i, e) && s'.busy == s.busy + {e} && s'.idle == s.idle - 1
    ensures s'.(busy := s.busy, idle := s.idle, neRotor := s.neRotor, exRotor := s.exRotor) == s
  {
    var t := set e | e in s.index && Asked(s, p, e) && e !in s.busy;
    assert t == Tree(s, p) - s.busy;
    if r.Some? { CyclicIsNearest(s, t, StartIndex(s, p, st), r.value); }
  }

  /**
   The rotors, by the flags alone: a pick in rotation leaves the one it used just past the nearest entry with the flags
   asked for, busy or not. No other rotor moves, and none at all when there is no such entry or the pick is by index.
   */
  lemma PickTurns<E>(s: State<E>, p: Pool, st: Start, s': State<E>, r: Option<E>)
    requires Sound(s) && (st.Rotor? ==> st.tid < MAX_TID) && Picks(s, p, st, s', r)
    ensures var t := set e | e in s.index && Asked(s, p, e);
            if st.AtIndex? || t == {} then s'.neRotor == s.neRotor && s'.exRotor == s.exRotor
            else if p == NotExisting then
              s'.exRotor == s.exRotor && exists e :: Nearest(s, t, s.neRotor, e) && s'.neRotor == s.index[e] + 1
            else
              && s'.neRotor == s.neRotor && |s'.exRotor| == MAX_TID
              && (forall j :: 0 <= j < MAX_TID && j != st.tid ==> s'.exRotor[j] == s.exRotor[j])
              && exists e :: Nearest(s, t, s.exRotor[st.tid], e) && s'.exRotor[st.tid] == s.index[e] + 1
  {
    var t := set e | e in s.index && Asked(s, p, e);
    assert t == Tree(s, p);
    if st.Rotor? && t != {} {
      var i := StartIndex(s, p, st);
      var found := CyclicFrom(IndexSet(s.index, t), i);
      var e :| e in t && s.index[e] == found;
      CyclicIsNearest(s, t, i, e);
    }
  }

  /** The outcome is determined. */
  lemma PickDetermined<E>(s: State<E>, p: Pool, st: Start, s1: State<E>, r1: Option<E>, s2: State<E>, r2: Option<E>)
    requires Sound(s) && (st.Rotor? ==> st.tid < MAX_TID) && Picks(s, p, st, s1, r1) && Picks(s, p, st, s2, r2)
    ensures s1 == s2 && r1 == r2
  {
  }
}
