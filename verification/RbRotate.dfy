/** The two rotations (src/kernel/lib/rbtree.c). */
module RbRotate {
  import opened RbNodes

  /** rb_set_parent, where there is a node. */
  method SetParent(n: Task?, q: Task?, ghost p: Task?, ghost t: Tree)
    requires At(t, n, p) && Distinct(t)
    modifies Nodes(t)`parent
    ensures At(t, n, q)
  {
    if n != null {
      ghost var l, r := t.l, t.r;
      assert At(l, n.left, n) && At(r, n.right, n);
      n.parent := q;
      assert At(l, n.left, n) && At(r, n.right, n);
    }
  }

  /** The link that holds node, in its parent or in the root, now holds n. */
  method Relink(parent: Task?, node: Task, n: Task?, root: Root, ghost c: Path)
    requires Around(c, node, root) && PathDistinct(c) && node !in PathNodes(c) && parent == Bottom(c)
    modifies PathNodes(c)`left, PathNodes(c)`right, root`node
    ensures Around(c, n, root)
  {
    if parent != null {
      if node == parent.left {
        parent.left := n;
      } else {
        parent.right := n;
      }
    } else {
      root.node := n;
    }
  }

  /** The pointer surgery of __rb_rotate_left, on the three subtrees involved. */
  method SwingLeft(node: Task, right: Task, root: Root, ghost c: Path, ghost a: Tree, ghost b: Tree, ghost d: Tree)
    requires node.right == right && node != right && node.parent == Bottom(c)
    requires At(a, node.left, node) && At(b, right.left, right) && At(d, right.right, right) && Distinct(b)
    requires Nodes(a) !! Nodes(b) && Nodes(a) !! Nodes(d) && Nodes(b) !! Nodes(d)
    requires node !in Nodes(a) && node !in Nodes(b) && node !in Nodes(d)
    requires right !in Nodes(a) && right !in Nodes(b) && right !in Nodes(d)
    requires Around(c, node, root) && PathDistinct(c) && node !in PathNodes(c) && right !in PathNodes(c)
    requires Nodes(a) !! PathNodes(c) && Nodes(b) !! PathNodes(c) && Nodes(d) !! PathNodes(c)
    modifies {node, right}`left, {node, right}`right, {node, right}`parent, Nodes(b)`parent,
             PathNodes(c)`left, PathNodes(c)`right, root`node
    ensures right.left == node && node.parent == right && right.parent == Bottom(c)
    ensures At(a, node.left, node) && At(b, node.right, node) && At(d, right.right, right)
    ensures Around(c, right, root)
  {
    hide At, Around, Distinct, PathDistinct, Nodes, PathNodes;
    assert allocated(Nodes(a)) && allocated(Nodes(b)) && allocated(Nodes(d)) && allocated(PathNodes(c));
    var parent := node.parent;
    node.right := right.left;
    SetParent(right.left, node, right, b);
    right.left := node;
    right.parent := parent;
    Relink(parent, node, right, root, c);
    node.parent := right;
  }

  /** The pointer surgery of __rb_rotate_right. */
  method SwingRight(node: Task, left: Task, root: Root, ghost c: Path, ghost a: Tree, ghost b: Tree, ghost d: Tree)
    requires node.left == left && node != left && node.parent == Bottom(c)
    requires At(d, node.right, node) && At(b, left.right, left) && At(a, left.left, left) && Distinct(b)
    requires Nodes(a) !! Nodes(b) && Nodes(a) !! Nodes(d) && Nodes(b) !! Nodes(d)
    requires node !in Nodes(a) && node !in Nodes(b) && node !in Nodes(d)
    requires left !in Nodes(a) && left !in Nodes(b) && left !in Nodes(d)
    requires Around(c, node, root) && PathDistinct(c) && node !in PathNodes(c) && left !in PathNodes(c)
    requires Nodes(a) !! PathNodes(c) && Nodes(b) !! PathNodes(c) && Nodes(d) !! PathNodes(c)
    modifies {node, left}`left, {node, left}`right, {node, left}`parent, Nodes(b)`parent,
             PathNodes(c)`left, PathNodes(c)`right, root`node
    ensures left.right == node && node.parent == left && left.parent == Bottom(c)
    ensures At(a, left.left, left) && At(b, node.left, node) && At(d, node.right, node)
    ensures Around(c, left, root)
  {
    hide At, Around, Distinct, PathDistinct, Nodes, PathNodes;
    assert allocated(Nodes(a)) && allocated(Nodes(b)) && allocated(Nodes(d)) && allocated(PathNodes(c));
    var parent := node.parent;
    node.left := left.right;
    SetParent(left.right, node, left, b);
    left.right := node;
    left.parent := parent;
    Relink(parent, node, left, root, c);
    node.parent := left;
  }

  /** A tree and a path around it are in the heap, at pointer n. */
  ghost predicate Placed(c: Path, t: Tree, n: Task?, root: Root)
    reads Nodes(t), PathNodes(c), root
  {
    At(t, n, Bottom(c)) && Around(c, n, root) && Distinct(t) && PathDistinct(c) && PathNodes(c) !! Nodes(t)
  }

  /** __rb_rotate_left: node's right child takes node's place. */
  method RotateLeft(node: Task, root: Root, ghost c: Path, ghost t: Tree)
    requires t.Branch? && t.r.Branch? && Placed(c, t, node, root)
    modifies Nodes(t)`left, Nodes(t)`right, Nodes(t)`parent, PathNodes(c)`left, PathNodes(c)`right, root`node
    ensures Placed(c, Branch(Branch(t.l, t.x, t.black, t.r.l), t.r.x, t.r.black, t.r.r), t.r.x, root)
  {
    var right := node.right;
    assert At(t.r, right, node) && Distinct(t.r);
    SwingLeft(node, right, root, c, t.l, t.r.l, t.r.r);
  }

  /** __rb_rotate_right: node's left child takes node's place. */
  method RotateRight(node: Task, root: Root, ghost c: Path, ghost t: Tree)
    requires t.Branch? && t.l.Branch? && Placed(c, t, node, root)
    modifies Nodes(t)`left, Nodes(t)`right, Nodes(t)`parent, PathNodes(c)`left, PathNodes(c)`right, root`node
    ensures Placed(c, Branch(t.l.l, t.l.x, t.l.black, Branch(t.l.r, t.x, t.black, t.r)), t.l.x, root)
  {
    var left := node.left;
    assert At(t.l, left, node) && Distinct(t.l);
    SwingRight(node, left, root, c, t.l.l, t.l.r, t.r);
  }

  // ---- moving the focus ------------------------------------------------------------

  ghost function Up(c: Path, t: Tree): Tree
    requires !c.Top?
  {
    if c.GoLeft? then Branch(t, c.x, c.black, c.sib) else Branch(c.sib, c.x, c.black, t)
  }

  ghost function LeftOf(c: Path, t: Tree): Path
    requires t.Branch?
  {
    GoLeft(c, t.x, t.black, t.r)
  }

  ghost function RightOf(c: Path, t: Tree): Path
    requires t.Branch?
  {
    GoRight(c, t.l, t.x, t.black)
  }

  lemma FocusUp(c: Path, t: Tree, n: Task?, root: Root)
    requires Placed(c, t, n, root) && !c.Top?
    ensures Placed(c.up, Up(c, t), c.x, root)
  {
  }

  lemma FocusLeft(c: Path, t: Tree, n: Task?, root: Root)
    requires Placed(c, t, n, root) && t.Branch?
    ensures n != null && Placed(LeftOf(c, t), t.l, n.left, root)
  {
  }

  lemma FocusRight(c: Path, t: Tree, n: Task?, root: Root)
    requires Placed(c, t, n, root) && t.Branch?
    ensures n != null && Placed(RightOf(c, t), t.r, n.right, root)
  {
  }

  /** rb_set_black, rb_set_red and rb_set_color. */
  method SetColor(n: Task, black: bool, root: Root, ghost c: Path, ghost t: Tree)
    requires t.Branch? && Placed(c, t, n, root)
    modifies n`black
    ensures Placed(c, Branch(t.l, n, black, t.r), n, root)
  {
    assert At(t.l, n.left, n) && At(t.r, n.right, n);
    assert n !in PathNodes(c) && n !in Nodes(t.l) && n !in Nodes(t.r);
    assert allocated(Nodes(t.l)) && allocated(Nodes(t.r)) && allocated(PathNodes(c));
    {
      hide At, Around;
      n.black := black;
      assert At(t.l, n.left, n) && At(t.r, n.right, n) && Around(c, n, root);
    }
  }
}
