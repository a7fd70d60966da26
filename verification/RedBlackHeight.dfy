/** What the rules are for: the order really is the symmetric traversal, and no way down is long. */
module RedBlackHeight {
  import opened Arithmetic
  import opened RedBlackShape
  import opened RedBlackColors

  ghost function Size(v: View, n: Node?): int {
    if n != null && n in v.span then v.span[n].hi - v.span[n].lo else 0
  }

  /** Left subtree, node, right subtree. */
  ghost function Walk(v: View, n: Node?): seq<Node>
    requires Shaped(v) && (n != null ==> n in v.heap)
    decreases Size(v, n)
  {
    if n == null then [] else
      Around(v, n);
      AroundChildren(v, n);
      Walk(v, v.heap[n].left) + [n] + Walk(v, v.heap[n].right)
  }

  lemma AroundChildren(v: View, n: Node)
    requires Shaped(v) && n in v.heap
    ensures Size(v, n) > 0 && Size(v, n) == Size(v, v.heap[n].left) + 1 + Size(v, v.heap[n].right)
    ensures 0 <= Size(v, v.heap[n].left) < Size(v, n) && 0 <= Size(v, v.heap[n].right) < Size(v, n)
  {
    Around(v, n);
    var c := v.heap[n];
    if c.left != null { Around(v, c.left); }
    if c.right != null { Around(v, c.right); }
  }

  lemma {:induction false} WalkIsSpan(v: View, n: Node)
    requires Shaped(v) && n in v.heap
    ensures n in v.span && 0 <= v.span[n].lo <= v.span[n].hi <= |v.order|
    ensures Walk(v, n) == v.order[v.span[n].lo..v.span[n].hi]
    decreases Size(v, n)
  {
    Around(v, n);
    AroundChildren(v, n);
    var c, s := v.heap[n], v.span[n];
    if c.left != null { WalkIsSpan(v, c.left); }
    if c.right != null { WalkIsSpan(v, c.right); }
    assert Walk(v, c.left) == v.order[s.lo..s.at];
    assert Walk(v, c.right) == v.order[s.at + 1..s.hi];
    assert v.order[s.lo..s.hi] == v.order[s.lo..s.at] + [v.order[s.at]] + v.order[s.at + 1..s.hi];
  }

  /** `order` is what walking the whole tree from left to right meets. */
  lemma WalkIsOrder(v: View)
    requires Shaped(v)
    ensures Walk(v, v.root) == v.order
  {
    if v.root != null { WalkIsSpan(v, v.root); }
  }

  /** A subtree with `b` black nodes on every way down has at least 2^b - 1 nodes. */
  lemma {:induction false} BlackFillsTree(v: View, n: Node)
    requires Shaped(v) && Balanced(v, Level) && n in v.heap
    ensures Pow2(v.black[n]) <= Size(v, n) + 1
    decreases Size(v, n)
  {
    AroundChildren(v, n);
    Around(v, n);
    assert NodeBalanced(v, Level, n);
    var c := v.heap[n];
    if c.left != null { BlackFillsTree(v, c.left); }
    if c.right != null { BlackFillsTree(v, c.right); }
  }

  /** The number of nodes on the way from the root down to `n`. */
  ghost function Depth(v: View, n: Node): nat
    requires Shaped(v) && n in v.heap
    decreases |v.order| - Size(v, n)
  {
    Around(v, n);
    if v.heap[n].parent == null then 1 else
      Around(v, v.heap[n].parent);
      AroundChildren(v, v.heap[n].parent);
      1 + Depth(v, v.heap[n].parent)
  }

  lemma {:induction false} DepthBound(v: View, n: Node)
    requires Sound(v, Level, null) && n in v.heap && v.root != null
    ensures v.root in v.black && n in v.black
    ensures Depth(v, n) + 2 * v.black[n] <= 2 * v.black[v.root] + if v.heap[n].color == Black then 1 else 0
    decreases |v.order| - Size(v, n)
  {
    Around(v, n);
    var p := v.heap[n].parent;
    if p != null {
      Around(v, p);
      AroundChildren(v, p);
      DepthBound(v, p);
      assert NodeBalanced(v, Level, p) && NodeRedOk(v.heap, null, p);
    }
  }

  lemma SquareMonotone(a: nat, b: nat)
    requires a <= b
    ensures a * a <= b * b
  {
    assert a * a <= a * b <= b * b;
  }

  /** Every way down has at most 2 log2(n + 1) nodes: 2^depth <= (n + 1)^2. */
  lemma HeightBound(v: View, n: Node)
    requires Sound(v, Level, null) && n in v.heap
    ensures Pow2(Depth(v, n)) <= (|v.order| + 1) * (|v.order| + 1)
  {
    Around(v, n);
    var root := v.root;
    var h := v.black[root];
    DepthBound(v, n);
    assert NodeBalanced(v, Level, n);
    BlackFillsTree(v, root);
    Pow2Monotone(Depth(v, n), 2 * h);
    Pow2Add(h, h);
    SquareMonotone(Pow2(h), |v.order| + 1);
  }
}
