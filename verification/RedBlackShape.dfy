/** The link structure of base/RedBlackTree.h as a value, and what rotations do to it.

    A `View` is a snapshot of a tree: the cell of every node, the root, and three
    witnesses that make each property local to a node and its neighbours:
      - `order`  the nodes from left to right,
      - `span`   for each node, which stretch of `order` its subtree occupies,
      - `black`  for each node, the number of black nodes on every way down from it. */
module RedBlackShape {
  datatype Color = Red | Black

  class Node {
    const key: int
    var left: Node?
    var right: Node?
    var parent: Node?
    var color: Color

    constructor (k: int)
      ensures key == k && Snapshot() == Cell(null, null, null, Red)
    {
      key, left, right, parent, color := k, null, null, null, Red;
    }

    ghost function Snapshot(): Cell
      reads this
    {
      Cell(left, right, parent, color)
    }
  }

  datatype Cell = Cell(left: Node?, right: Node?, parent: Node?, color: Color)
  type Heap = map<Node, Cell>

  /** The subtree of a node is `order[lo..hi]` and the node itself is `order[at]`. */
  datatype Span = Span(lo: int, at: int, hi: int)

  datatype View = View(heap: Heap, root: Node?, order: seq<Node>, span: map<Node, Span>, black: map<Node, nat>)

  // ---------------------------------------------------------------- links

  ghost predicate ChildLinked(h: Heap, n: Node, c: Node?) {
    c != null ==> c in h && h[c].parent == n
  }

  ghost predicate ParentLinked(h: Heap, root: Node?, n: Node, p: Node?) {
    if p == null then n == root else p in h && (h[p].left == n || h[p].right == n)
  }

  ghost predicate NodeLinked(h: Heap, root: Node?, n: Node)
    requires n in h
  {
    ChildLinked(h, n, h[n].left) && ChildLinked(h, n, h[n].right) && ParentLinked(h, root, n, h[n].parent)
  }

  /** Every child points back at its parent, every parent down at its child, and only the root has no parent. */
  ghost predicate Linked(v: View) {
    && (v.root != null ==> v.root in v.heap && v.heap[v.root].parent == null)
    && forall n {:trigger NodeLinked(v.heap, v.root, n)} :: n in v.heap ==> NodeLinked(v.heap, v.root, n)
  }

  ghost predicate StandsAt(order: seq<Node>, s: Span, n: Node) {
    0 <= s.lo <= s.at < s.hi <= |order| && order[s.at] == n
  }

  ghost predicate LeftOf(span: map<Node, Span>, c: Node?, s: Span) {
    if c == null then s.lo == s.at else c in span && span[c].lo == s.lo && span[c].hi == s.at
  }

  ghost predicate RightOf(span: map<Node, Span>, c: Node?, s: Span) {
    if c == null then s.hi == s.at + 1 else c in span && span[c].lo == s.at + 1 && span[c].hi == s.hi
  }

  ghost predicate NodeOrdered(v: View, n: Node)
    requires n in v.heap && n in v.span
  {
    && StandsAt(v.order, v.span[n], n)
    && LeftOf(v.span, v.heap[n].left, v.span[n])
    && RightOf(v.span, v.heap[n].right, v.span[n])
  }

  /** `order` lists the nodes of the tree, each once, in symmetric order. */
  ghost predicate Ordered(v: View) {
    && v.span.Keys == v.heap.Keys
    && (forall n {:trigger NodeOrdered(v, n)} :: n in v.heap ==> NodeOrdered(v, n))
    && (forall i :: 0 <= i < |v.order| ==> v.order[i] in v.span && v.span[v.order[i]].at == i)
    && (v.root == null <==> v.order == [])
    && (v.root != null ==> v.root in v.span && v.span[v.root].lo == 0 && v.span[v.root].hi == |v.order|)
  }

  ghost predicate Shaped(v: View) {
    Linked(v) && Ordered(v)
  }

  /** What `Shaped` says about one node: its neighbours are distinct from it and from each other. */
  ghost predicate Placed(v: View, n: Node) {
    && n in v.heap && n in v.span && NodeLinked(v.heap, v.root, n) && NodeOrdered(v, n)
    && var c := v.heap[n];
    && c.left != n && c.right != n && c.parent != n
    && (c.left != null ==> c.left != c.right && c.left != c.parent)
    && (c.right != null ==> c.right != c.parent)
  }

  lemma Around(v: View, n: Node)
    requires Shaped(v) && n in v.heap
    ensures Placed(v, n)
  {
    var c := v.heap[n];
    assert NodeLinked(v.heap, v.root, n);
    assert NodeOrdered(v, n);
    if c.left != null { assert NodeOrdered(v, c.left); }
    if c.right != null { assert NodeOrdered(v, c.right); }
    if c.parent != null { assert NodeOrdered(v, c.parent); }
  }

  // ---------------------------------------------------------------- rotation

  ghost predicate HasRight(v: View, x: Node) {
    x in v.heap && x in v.span && v.heap[x].right != null && v.heap[x].right in v.heap && v.heap[x].right in v.span
  }

  ghost function Redirected(c: Cell, x: Node, y: Node?): Cell {
    if c.left == x then c.(left := y) else c.(right := y)
  }

  /** The cell of `n` once `x` has been rotated to the left around its right child. */
  ghost function RotatedCell(h: Heap, x: Node, n: Node): Cell
    requires x in h && h[x].right != null && h[x].right in h && n in h
  {
    var y, p, c := h[x].right, h[x].parent, h[n];
    if n == x then Cell(c.left, h[y].left, y, c.color)
    else if n == y then Cell(x, c.right, p, c.color)
    else if n == h[y].left then c.(parent := x)
    else if n == p then Redirected(c, x, y)
    else c
  }

  ghost function RotatedHeap(h: Heap, x: Node): Heap
    requires x in h && h[x].right != null && h[x].right in h
  {
    map n | n in h :: RotatedCell(h, x, n)
  }

  ghost function RotatedSpan(span: map<Node, Span>, x: Node, y: Node): map<Node, Span>
    requires x in span && y in span
  {
    span[x := Span(span[x].lo, span[x].at, span[y].at)][y := Span(span[x].lo, span[y].at, span[x].hi)]
  }

  ghost function RotatedRoot(h: Heap, root: Node?, x: Node): Node?
    requires x in h
  {
    if h[x].parent == null then h[x].right else root
  }

  ghost function RotateLeft(v: View, x: Node): View
    requires HasRight(v, x)
  {
    View(RotatedHeap(v.heap, x), RotatedRoot(v.heap, v.root, x), v.order,
         RotatedSpan(v.span, x, v.heap[x].right), v.black)
  }

  /** The nodes a left rotation of `x` writes to are nodes of the tree and all different. */
  ghost predicate Turnable(h: Heap, x: Node) {
    && x in h && h[x].right != null && h[x].right in h
    && var y, p := h[x].right, h[x].parent;
    var b := h[y].left;
    && x != y && (b != null ==> b in h && b != x && b != y)
    && (p != null ==> p in h && p != x && p != y && p != b)
    && (p != null ==> h[p].left == x || h[p].right == x)
  }

  lemma ShapedTurnable(v: View, x: Node)
    requires Shaped(v) && HasRight(v, x)
    ensures Turnable(v.heap, x)
  {
    Around(v, x);
    Around(v, v.heap[x].right);
    if v.heap[x].parent != null { Around(v, v.heap[x].parent); }
  }

  /** A heap that differs from `h` only in the cells a rotation writes, and there as it should, is the rotated heap. */
  lemma IsRotatedHeap(h: Heap, h': Heap, x: Node)
    requires Turnable(h, x) && h'.Keys == h.Keys
    requires var y, p := h[x].right, h[x].parent; var b := h[y].left;
      && h'[x] == h[x].(right := b, parent := y)
      && h'[y] == h[y].(left := x, parent := p)
      && (b != null ==> h'[b] == h[b].(parent := x))
      && (p != null ==> h'[p] == Redirected(h[p], x, y))
      && forall n :: n in h && n != x && n != y && n != b && n != p ==> h'[n] == h[n]
    ensures h' == RotatedHeap(h, x)
  {
  }

  lemma RotatedChildren(v: View, x: Node, n: Node)
    requires HasRight(v, x) && Placed(v, x) && Placed(v, v.heap[x].right) && Placed(v, n)
    ensures var h := RotatedHeap(v.heap, x); ChildLinked(h, n, h[n].left) && ChildLinked(h, n, h[n].right)
  {
  }

  lemma RotatedParent(v: View, x: Node, n: Node)
    requires HasRight(v, x) && Placed(v, x) && Placed(v, v.heap[x].right) && Placed(v, n)
    requires v.heap[x].parent != null ==> Placed(v, v.heap[x].parent)
    ensures var h := RotatedHeap(v.heap, x); ParentLinked(h, RotatedRoot(v.heap, v.root, x), n, h[n].parent)
  {
  }

  lemma RotatedOrder(v: View, x: Node, n: Node)
    requires HasRight(v, x) && Placed(v, x) && Placed(v, v.heap[x].right) && Placed(v, n)
    ensures NodeOrdered(RotateLeft(v, x), n)
  {
  }

  /** A left rotation keeps the links intact and the symmetric order as it was. */
  lemma RotateLeftShaped(v: View, x: Node)
    requires Shaped(v) && HasRight(v, x)
    ensures Shaped(RotateLeft(v, x))
  {
    Around(v, x);
    Around(v, v.heap[x].right);
    if v.heap[x].parent != null { Around(v, v.heap[x].parent); }
    var v' := RotateLeft(v, x);
    assert Linked(v') by {
      forall n | n in v'.heap ensures NodeLinked(v'.heap, v'.root, n) {
        Around(v, n);
        RotatedChildren(v, x, n);
        RotatedParent(v, x, n);
      }
    }
    assert Ordered(v') by {
      forall n | n in v'.heap ensures NodeOrdered(v', n) {
        Around(v, n);
        RotatedOrder(v, x, n);
      }
    }
  }

  ghost function Instead(c: Node?, x: Node, y: Node?): Node? {
    if c == x then y else c
  }

  /** A rotation seen from above: only `x`, its right child `y` and the link down to `x` change. */
  ghost predicate Turned(h: Heap, x: Node, n: Node) {
    && x in h && h[x].right != null && h[x].right in h && n in h
    && var y, c := h[x].right, RotatedCell(h, x, n);
    && y != x && h[y].left != x && h[y].right != x && h[y].left != y && h[y].right != y
    && c.color == h[n].color && h[n].left != y
    && c.left == (if n == y then x else Instead(h[n].left, x, y))
    && c.right == (if n == x then h[y].left else Instead(h[n].right, x, y))
    && (n != x ==> h[n].right != y)
    && (h[n].left == x || h[n].right == x ==> h[x].parent == n)
  }

  lemma RotatedSides(v: View, x: Node, n: Node)
    requires Shaped(v) && HasRight(v, x) && n in v.heap
    ensures Turned(v.heap, x, n)
  {
    Around(v, x);
    Around(v, v.heap[x].right);
    Around(v, n);
  }

  // ---------------------------------------------------------------- mirror image

  ghost function MirrorHeap(h: Heap): Heap {
    map n | n in h :: Cell(h[n].right, h[n].left, h[n].parent, h[n].color)
  }

  ghost function Reversed(s: seq<Node>): seq<Node> {
    seq(|s|, i requires 0 <= i < |s| => s[|s| - 1 - i])
  }

  ghost function MirrorSpan(span: map<Node, Span>, k: nat): map<Node, Span> {
    map n | n in span :: Span(k - span[n].hi, k - 1 - span[n].at, k - span[n].lo)
  }

  ghost function Mirror(v: View): View {
    View(MirrorHeap(v.heap), v.root, Reversed(v.order), MirrorSpan(v.span, |v.order|), v.black)
  }

  lemma MirrorTwice(v: View)
    ensures Mirror(Mirror(v)) == v
  {
    var w := Mirror(Mirror(v));
    assert w.heap == v.heap;
    assert w.order == v.order;
    assert w.span == v.span;
  }

  lemma MirrorNode(v: View, n: Node)
    requires Placed(v, n)
    ensures NodeLinked(MirrorHeap(v.heap), v.root, n) && NodeOrdered(Mirror(v), n)
  {
  }

  lemma MirrorShaped(v: View)
    requires Shaped(v)
    ensures Shaped(Mirror(v))
  {
    var w := Mirror(v);
    forall n | n in w.heap ensures NodeLinked(w.heap, w.root, n) && NodeOrdered(w, n) {
      Around(v, n);
      MirrorNode(v, n);
    }
  }

  // ---------------------------------------------------------------- right rotation

  ghost predicate HasLeft(v: View, x: Node) {
    x in v.heap && x in v.span && v.heap[x].left != null && v.heap[x].left in v.heap && v.heap[x].left in v.span
  }

  ghost function RotatedRightCell(h: Heap, x: Node, n: Node): Cell
    requires x in h && h[x].left != null && h[x].left in h && n in h
  {
    var y, p, c := h[x].left, h[x].parent, h[n];
    if n == x then Cell(h[y].right, c.right, y, c.color)
    else if n == y then Cell(c.left, x, p, c.color)
    else if n == h[y].right then c.(parent := x)
    else if n == p then Redirected(c, x, y)
    else c
  }

  ghost function RotatedRightHeap(h: Heap, x: Node): Heap
    requires x in h && h[x].left != null && h[x].left in h
  {
    map n | n in h :: RotatedRightCell(h, x, n)
  }

  ghost function RotatedRightSpan(span: map<Node, Span>, x: Node, y: Node): map<Node, Span>
    requires x in span && y in span
  {
    span[x := Span(span[y].at + 1, span[x].at, span[x].hi)][y := Span(span[x].lo, span[y].at, span[x].hi)]
  }

  ghost function RotatedRightRoot(h: Heap, root: Node?, x: Node): Node?
    requires x in h
  {
    if h[x].parent == null then h[x].left else root
  }

  ghost function RotateRight(v: View, x: Node): View
    requires HasLeft(v, x)
  {
    View(RotatedRightHeap(v.heap, x), RotatedRightRoot(v.heap, v.root, x), v.order,
         RotatedRightSpan(v.span, x, v.heap[x].left), v.black)
  }

  /** `Turnable` for a right rotation. */
  ghost predicate TurnableRight(h: Heap, x: Node) {
    && x in h && h[x].left != null && h[x].left in h
    && var y, p := h[x].left, h[x].parent;
    var b := h[y].right;
    && x != y && (b != null ==> b in h && b != x && b != y)
    && (p != null ==> p in h && p != x && p != y && p != b)
    && (p != null ==> (h[p].left == x) != (h[p].right == x))
  }

  lemma ShapedTurnableRight(v: View, x: Node)
    requires Shaped(v) && HasLeft(v, x)
    ensures TurnableRight(v.heap, x)
  {
    Around(v, x);
    Around(v, v.heap[x].left);
    if v.heap[x].parent != null { Around(v, v.heap[x].parent); }
  }

  lemma IsRotatedRightHeap(h: Heap, h': Heap, x: Node)
    requires TurnableRight(h, x) && h'.Keys == h.Keys
    requires var y, p := h[x].left, h[x].parent; var b := h[y].right;
      && h'[x] == h[x].(left := b, parent := y)
      && h'[y] == h[y].(right := x, parent := p)
      && (b != null ==> h'[b] == h[b].(parent := x))
      && (p != null ==> h'[p] == Redirected(h[p], x, y))
      && forall n :: n in h && n != x && n != y && n != b && n != p ==> h'[n] == h[n]
    ensures h' == RotatedRightHeap(h, x)
  {
  }

  lemma MirrorRotatedCell(h: Heap, x: Node, n: Node)
    requires TurnableRight(h, x) && n in h
    ensures var c := RotatedCell(MirrorHeap(h), x, n);
      RotatedRightCell(h, x, n) == Cell(c.right, c.left, c.parent, c.color)
  {
  }

  lemma MirrorRotatedHeap(h: Heap, x: Node)
    requires TurnableRight(h, x)
    ensures MirrorHeap(RotatedRightHeap(h, x)) == RotatedHeap(MirrorHeap(h), x)
  {
    forall n | n in h ensures MirrorHeap(RotatedRightHeap(h, x))[n] == RotatedHeap(MirrorHeap(h), x)[n] {
      MirrorRotatedCell(h, x, n);
    }
  }

  lemma MirrorRotatedSpan(span: map<Node, Span>, k: nat, x: Node, y: Node)
    requires x in span && y in span && x != y
    ensures MirrorSpan(RotatedRightSpan(span, x, y), k) == RotatedSpan(MirrorSpan(span, k), x, y)
  {
  }

  /** A right rotation is the mirror image of a left one. */
  lemma RotateRightMirrors(v: View, x: Node)
    requires TurnableRight(v.heap, x) && HasLeft(v, x)
    ensures HasRight(Mirror(v), x) && Mirror(RotateRight(v, x)) == RotateLeft(Mirror(v), x)
  {
    MirrorRotatedHeap(v.heap, x);
    MirrorRotatedSpan(v.span, |v.order|, x, v.heap[x].left);
  }

  lemma RotateRightShaped(v: View, x: Node)
    requires Shaped(v) && HasLeft(v, x)
    ensures Shaped(RotateRight(v, x))
  {
    MirrorShaped(v);
    ShapedTurnableRight(v, x);
    RotateRightMirrors(v, x);
    RotateLeftShaped(Mirror(v), x);
    MirrorShaped(RotateLeft(Mirror(v), x));
    MirrorTwice(RotateRight(v, x));
  }
}
