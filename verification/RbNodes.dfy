/**
 The nodes of the ready queue's red-black tree (src/include/xjos/rbtree.h) and
 the trees they form.

 A task embeds its tree node, so one object carries the links, the colour and
 the scheduler's fields.  `Tree` is the shape that the links spell out, and
 `Path` is a tree with a hole: the way from the hole up to the root.
 */
module RbNodes {

  class Task {
    var left: Task?
    var right: Task?
    var parent: Task?
    var black: bool
    var vruntime: nat
    var weight: nat
    var slice: nat       // sched_slice, in ms
    var ticks: int

    constructor (vruntime: nat, weight: nat)
      ensures this.vruntime == vruntime && this.weight == weight
    {
      this.vruntime, this.weight := vruntime, weight;
      left, right, parent, black, slice, ticks := null, null, null, false, 0, 0;
    }
  }

  class Root {
    var node: Task?

    constructor ()
      ensures node == null
    {
      node := null;
    }
  }

  datatype Tree = Leaf | Branch(l: Tree, x: Task, black: bool, r: Tree)

  datatype Path =
    | Top
    | GoLeft(up: Path, x: Task, black: bool, sib: Tree)
    | GoRight(up: Path, sib: Tree, x: Task, black: bool)

  // ---- what a shape contains -----------------------------------------------------

  ghost function Nodes(t: Tree): set<Task> {
    match t
    case Leaf => {}
    case Branch(l, x, b, r) => Nodes(l) + {x} + Nodes(r)
  }

  ghost function PathNodes(c: Path): set<Task> {
    match c
    case Top => {}
    case GoLeft(up, x, b, s) => PathNodes(up) + {x} + Nodes(s)
    case GoRight(up, s, x, b) => PathNodes(up) + {x} + Nodes(s)
  }

  ghost predicate Distinct(t: Tree) {
    match t
    case Leaf => true
    case Branch(l, x, b, r) =>
      Distinct(l) && Distinct(r) && x !in Nodes(l) && x !in Nodes(r) && Nodes(l) !! Nodes(r)
  }

  ghost predicate PathDistinct(c: Path) {
    match c
    case Top => true
    case GoLeft(up, x, b, s) =>
      PathDistinct(up) && Distinct(s) && x !in PathNodes(up) && x !in Nodes(s) && PathNodes(up) !! Nodes(s)
    case GoRight(up, s, x, b) =>
      PathDistinct(up) && Distinct(s) && x !in PathNodes(up) && x !in Nodes(s) && PathNodes(up) !! Nodes(s)
  }

  // ---- the links spell out a shape -------------------------------------------------

  function Ptr(t: Tree): Task? { if t.Leaf? then null else t.x }
  function Bottom(c: Path): Task? { if c.Top? then null else c.x }

  /** The tree below pointer n, whose parent is p, has shape t. */
  ghost predicate At(t: Tree, n: Task?, p: Task?)
    reads Nodes(t)
  {
    match t
    case Leaf => n == null
    case Branch(l, x, b, r) =>
      n == x && x.parent == p && x.black == b && At(l, x.left, x) && At(r, x.right, x)
  }

  /** The hole of path c, up to the root, holds pointer n. */
  ghost predicate Around(c: Path, n: Task?, root: Root)
    reads PathNodes(c), root
  {
    match c
    case Top => root.node == n
    case GoLeft(up, x, b, s) =>
      x.left == n && x.parent == Bottom(up) && x.black == b && At(s, x.right, x) && Around(up, x, root)
    case GoRight(up, s, x, b) =>
      x.right == n && x.parent == Bottom(up) && x.black == b && At(s, x.left, x) && Around(up, x, root)
  }

  // ---- order -----------------------------------------------------------------------

  ghost function Walk(t: Tree): seq<Task> {
    match t
    case Leaf => []
    case Branch(l, x, b, r) => Walk(l) + [x] + Walk(r)
  }

  ghost function Before(c: Path): seq<Task> {
    match c
    case Top => []
    case GoLeft(up, x, b, s) => Before(up)
    case GoRight(up, s, x, b) => Before(up) + Walk(s) + [x]
  }

  ghost function After(c: Path): seq<Task> {
    match c
    case Top => []
    case GoLeft(up, x, b, s) => [x] + Walk(s) + After(up)
    case GoRight(up, s, x, b) => After(up)
  }

  ghost function Plug(c: Path, t: Tree): Tree {
    match c
    case Top => t
    case GoLeft(up, x, b, s) => Plug(up, Branch(t, x, b, s))
    case GoRight(up, s, x, b) => Plug(up, Branch(s, x, b, t))
  }

  lemma {:induction false} PlugWalk(c: Path, t: Tree)
    ensures Walk(Plug(c, t)) == Before(c) + Walk(t) + After(c)
  {
    match c
    case Top =>
    case GoLeft(up, x, b, s) =>
      PlugWalk(up, Branch(t, x, b, s));
      RegroupRight(Before(up), Walk(t), x, Walk(s), After(up));
    case GoRight(up, s, x, b) =>
      PlugWalk(up, Branch(s, x, b, t));
      RegroupLeft(Before(up), Walk(s), x, Walk(t), After(up));
  }

  lemma RegroupRight(a: seq<Task>, l: seq<Task>, x: Task, r: seq<Task>, z: seq<Task>)
    ensures a + (l + [x] + r) + z == a + l + ([x] + r + z)
  {
  }

  lemma RegroupLeft(a: seq<Task>, l: seq<Task>, x: Task, r: seq<Task>, z: seq<Task>)
    ensures a + (l + [x] + r) + z == (a + l + [x]) + r + z
  {
  }

  lemma {:induction false} PlugNodes(c: Path, t: Tree)
    ensures Nodes(Plug(c, t)) == PathNodes(c) + Nodes(t)
  {
    match c
    case Top =>
    case GoLeft(up, x, b, s) => PlugNodes(up, Branch(t, x, b, s));
    case GoRight(up, s, x, b) => PlugNodes(up, Branch(s, x, b, t));
  }

  lemma {:induction false} PlugDistinct(c: Path, t: Tree)
    ensures Distinct(Plug(c, t)) <==> Distinct(t) && PathDistinct(c) && PathNodes(c) !! Nodes(t)
  {
    match c
    case Top =>
    case GoLeft(up, x, b, s) => PlugDistinct(up, Branch(t, x, b, s));
    case GoRight(up, s, x, b) => PlugDistinct(up, Branch(s, x, b, t));
  }

  /** A whole tree is a path around a subtree. */
  lemma {:induction false} PlugAt(c: Path, t: Tree, root: Root)
    ensures At(Plug(c, t), root.node, null) <==> Around(c, Ptr(t), root) && At(t, Ptr(t), Bottom(c))
  {
    match c
    case Top =>
    case GoLeft(up, x, b, s) => PlugAt(up, Branch(t, x, b, s), root);
    case GoRight(up, s, x, b) => PlugAt(up, Branch(s, x, b, t), root);
  }
}
