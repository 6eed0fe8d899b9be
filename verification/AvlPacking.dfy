/**
 The 64-bit node layout: parent pointer, child index and balance packed in one word, and the insertion point
 packed in another. Each packed setter changes just the field the unpacked struct would.
 */
module AvlPacking {
  type Word = bv64

  /** A pointer to an 8-byte aligned node. */
  predicate Aligned(p: Word) {
    p & 7 == 0
  }

  type Balance = b: int | -1 <= b <= 1

  /** The fields of the unpacked struct that share the word. */
  datatype Fields = Fields(parent: Word, child: bool, balance: Balance)

  /** `balance + 1` as the two low bits. */
  function BalanceBits(b: Balance): Word {
    if b == -1 then 0 else if b == 0 then 1 else 2
  }

  function ChildBit(c: bool): Word {
    if c then 1 else 0
  }

  // AVL_XPARENT, AVL_XCHILD, AVL_XBALANCE

  function Parent(w: Word): Word {
    w & !7
  }

  function Child(w: Word): bool {
    (w >> 2) & 1 == 1
  }

  /** A word whose balance bits are not 3. */
  predicate Sound(w: Word) {
    w & 3 != 3
  }

  function BalanceOf(w: Word): Balance
    requires Sound(w)
  {
    if w & 3 == 0 then -1 else if w & 3 == 1 then 0 else 1
  }

  function Unpack(w: Word): (f: Fields)
    requires Sound(w)
  {
    Fields(Parent(w), Child(w), BalanceOf(w))
  }

  // AVL_SETPARENT, AVL_SETCHILD, AVL_SETBALANCE

  function SetParent(w: Word, p: Word): (v: Word) {
    (w & 7) | p
  }

  function SetChild(w: Word, c: bool): (v: Word) {
    (w & !4) | (ChildBit(c) << 2)
  }

  function SetBalance(w: Word, b: Balance): (v: Word) {
    PutLow(w, BalanceBits(b))
  }

  /** The two low bits set to `k`. */
  function PutLow(w: Word, k: Word): (v: Word) {
    (w & !3) | k
  }

  // The bits each setter keeps and sets.

  lemma ParentBits(w: Word, p: Word)
    requires p & 7 == 0
    ensures ((w & 7) | p) & !7 == p && (((w & 7) | p) >> 2) & 1 == (w >> 2) & 1 && ((w & 7) | p) & 3 == w & 3
  {
  }

  lemma SetRightKeeps(w: Word)
    ensures Parent(SetChild(w, true)) == Parent(w)
  {
  }

  lemma SetChildKeeps(w: Word, c: bool)
    ensures Parent(SetChild(w, c)) == Parent(w)
  {
    if c { SetRightKeeps(w); }
  }

  lemma SetChildSets(w: Word, c: bool)
    ensures Child(SetChild(w, c)) == c && SetChild(w, c) & 3 == w & 3
  {
  }

  lemma LowBits(w: Word, k: Word, v: Word)
    requires k & !3 == 0 && v == (w & !3) | k
    ensures v & !7 == w & !7
  {
  }

  lemma LowBitsKeep(w: Word, k: Word, v: Word)
    requires k & !3 == 0 && v == PutLow(w, k)
    ensures Parent(v) == Parent(w)
  {
    LowBits(w, k, v);
  }

  lemma SetBalanceKeeps(w: Word, b: Balance)
    ensures Parent(SetBalance(w, b)) == Parent(w)
  {
    LowBitsKeep(w, BalanceBits(b), SetBalance(w, b));
  }

  lemma SetBalanceSets(w: Word, b: Balance)
    ensures Child(SetBalance(w, b)) == Child(w) && SetBalance(w, b) & 3 == BalanceBits(b)
  {
  }

  /** Each setter acts on the word as assigning that one field acts on the struct. */
  lemma SetParentRefines(w: Word, p: Word)
    requires Sound(w) && Aligned(p)
    ensures Sound(SetParent(w, p)) && Unpack(SetParent(w, p)) == Unpack(w).(parent := p)
  {
    ParentBits(w, p);
  }

  lemma SetChildRefines(w: Word, c: bool)
    requires Sound(w)
    ensures Sound(SetChild(w, c)) && Unpack(SetChild(w, c)) == Unpack(w).(child := c)
  {
    SetChildKeeps(w, c);
    SetChildSets(w, c);
  }

  lemma SetBalanceRefines(w: Word, b: Balance)
    ensures Sound(SetBalance(w, b)) && (Sound(w) ==> Unpack(SetBalance(w, b)) == Unpack(w).(balance := b))
  {
    SetBalanceKeeps(w, b);
    SetBalanceSets(w, b);
  }

  /** Setting all three fields of any word, whatever it held, gives the packed form of those fields. */
  lemma SetAll(w: Word, f: Fields)
    requires Aligned(f.parent)
    ensures var v := SetParent(SetBalance(SetChild(w, f.child), f.balance), f.parent); Sound(v) && Unpack(v) == f
  {
  }

  /** The word keeps its other fields whatever it holds exactly when the parent pointer is aligned. */
  lemma AlignmentNeeded(p: Word)
    ensures (forall w :: Sound(w) ==> Sound(SetParent(w, p)) && Unpack(SetParent(w, p)) == Unpack(w).(parent := p)) <==> Aligned(p)
  {
    var zero: Word := 0;
    if !Aligned(p) {
      assert SetParent(zero, p) == p && Parent(p) != p;
      assert Sound(zero) && !(Sound(SetParent(zero, p)) && Unpack(SetParent(zero, p)) == Unpack(zero).(parent := p));
    }
  }

  // AVL_MKINDEX, AVL_INDEX2NODE, AVL_INDEX2CHILD

  function MakeIndex(n: Word, c: bool): (x: Word) {
    n | ChildBit(c)
  }

  function IndexNode(x: Word): Word {
    x & !1
  }

  function IndexChild(x: Word): bool {
    x & 1 == 1
  }

  lemma LastBitSet(n: Word)
    requires n & 1 == 0
    ensures (n | 1) & !1 == n && (n | 1) & 1 == 1
  {
  }

  lemma LastBitClear(n: Word)
    requires n & 1 == 0
    ensures (n | 0) & !1 == n && (n | 0) & 1 == 0
  {
  }

  /** An insertion point packed into a word gives back its node, which is aligned, and its side. */
  lemma IndexRoundTrip(n: Word, c: bool)
    requires n & 1 == 0
    ensures IndexNode(MakeIndex(n, c)) == n && IndexChild(MakeIndex(n, c)) == c
  {
    if c { LastBitSet(n); } else { LastBitClear(n); }
  }
}
