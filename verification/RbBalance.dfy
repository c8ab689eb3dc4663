/** The red-black rules on shapes, for a tree and for a tree with a hole. */
module RbBalance {
  import opened Prelude
  import opened RbNodes

  predicate Black(t: Tree) { t.Leaf? || t.black }

  /** No red node has a red child. */
  ghost predicate NoRedRed(t: Tree) {
    match t
    case Leaf => true
    case Branch(l, x, b, r) => (b || (Black(l) && Black(r))) && NoRedRed(l) && NoRedRed(r)
  }

  /** The number of black nodes on the way to the leftmost leaf. */
  ghost function Height(t: Tree): nat {
    match t
    case Leaf => 0
    case Branch(l, x, b, r) => Height(l) + One(b)
  }

  /** Every way to a leaf passes the same number of black nodes. */
  ghost predicate Even(t: Tree) {
    match t
    case Leaf => true
    case Branch(l, x, b, r) => Height(l) == Height(r) && Even(l) && Even(r)
  }

  ghost predicate Fair(t: Tree) { NoRedRed(t) && Even(t) }

  ghost predicate RedBlack(t: Tree) { Fair(t) && Black(t) }

  /** The rules for a path, whose hole takes a tree of height h.  A red node on
      it has a black parent, so it is not the root. */
  ghost predicate FairPath(c: Path, h: int) {
    match c
    case Top => true
    case GoLeft(up, x, b, s) =>
      Fair(s) && Height(s) == h && (b || (Black(s) && BlackBottom(up))) && FairPath(up, h + One(b))
    case GoRight(up, s, x, b) =>
      Fair(s) && Height(s) == h && (b || (Black(s) && BlackBottom(up))) && FairPath(up, h + One(b))
  }

  predicate BlackBottom(c: Path) { !c.Top? && c.black }

  /** A red-black tree seen from one of its subtrees. */
  lemma {:induction false} PlugRedBlack(c: Path, t: Tree)
    ensures RedBlack(Plug(c, t)) <==>
              Fair(t) && FairPath(c, Height(t)) && (Black(t) || BlackBottom(c))
  {
    match c
    case Top =>
    case GoLeft(up, x, b, s) => PlugRedBlack(up, Branch(t, x, b, s));
    case GoRight(up, s, x, b) => PlugRedBlack(up, Branch(s, x, b, t));
  }

  // ---- how deep a red-black tree can be ----------------------------------------------

  ghost function Depth(t: Tree): nat {
    match t
    case Leaf => 0
    case Branch(l, x, b, r) => 1 + if Depth(l) > Depth(r) then Depth(l) else Depth(r)
  }

  function Pow2(n: nat): nat { if n == 0 then 1 else 2 * Pow2(n - 1) }

  lemma {:induction false} DepthBound(t: Tree)
    requires Fair(t)
    ensures Depth(t) <= 2 * Height(t) + One(!Black(t))
  {
    if t.Branch? {
      DepthBound(t.l);
      DepthBound(t.r);
    }
  }

  lemma {:induction false} SizeBound(t: Tree)
    requires Even(t)
    ensures Pow2(Height(t)) <= |Walk(t)| + 1
  {
    if t.Branch? {
      SizeBound(t.l);
      SizeBound(t.r);
    }
  }

  lemma {:induction false} Pow2Grows(m: nat, n: nat)
    requires m <= n
    ensures Pow2(m) <= Pow2(n)
    decreases n
  {
    if m < n {
      Pow2Grows(m, n - 1);
    }
  }

  /** The depth of a red-black tree of n nodes is at most 2 log2(n + 1). */
  lemma Logarithmic(t: Tree)
    requires RedBlack(t)
    ensures Pow2((Depth(t) + 1) / 2) <= |Walk(t)| + 1
  {
    DepthBound(t);
    SizeBound(t);
    Pow2Grows((Depth(t) + 1) / 2, Height(t));
  }
}
