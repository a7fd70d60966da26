/** The three ways insert and remove change which node stands where: hanging a new leaf
    below a node, letting two nodes trade places, and cutting out a node with at most one child. */
module RedBlackEdits {
  import opened RedBlackShape
  import opened RedBlackColors

  // ---------------------------------------------------------------- a new leaf

  ghost predicate HasRoom(v: View, x: Node, p: Node, onLeft: bool) {
    && x !in v.heap && p in v.heap && v.span.Keys == v.heap.Keys
    && (if onLeft then v.heap[p].left else v.heap[p].right) == null
    && 0 <= v.span[p].at < |v.order|
  }

  /** The side of `p` is free and a leaf hung there comes to stand at `k` in the order. */
  ghost predicate RoomAt(v: View, p: Node, onLeft: bool, k: int) {
    && p in v.heap && p in v.span
    && (if onLeft then v.heap[p].left == null && v.span[p].at == k
        else v.heap[p].right == null && v.span[p].at + 1 == k)
  }

  lemma EmptyHeap(v: View)
    requires Shaped(v) && v.order == []
    ensures v.heap.Keys == {}
  {
    if n :| n in v.heap { Around(v, n); }
  }

  lemma SingleSound(v: View, x: Node)
    requires v == View(map[x := Cell(null, null, null, Black)], x, [x], map[x := Span(0, 0, 1)], map[x := 1])
    ensures Shaped(v) && Balanced(v, Level) && RedOk(v, null)
  {
  }

  /** Where a leaf below `p` comes to stand in the order. */
  ghost function LeafPlace(v: View, p: Node, onLeft: bool): int
    requires p in v.span
  {
    if onLeft then v.span[p].at else v.span[p].at + 1
  }

  /** The span of a node once a leaf stands at `k` below the node at position `at`. */
  ghost function Widened(s: Span, at: int, k: int): Span {
    Span(if at < s.lo then s.lo + 1 else s.lo,
         if k <= s.at then s.at + 1 else s.at,
         if at < s.hi then s.hi + 1 else s.hi)
  }

  ghost function AttachHeap(h: Heap, x: Node, p: Node, onLeft: bool): Heap
    requires p in h
  {
    h[p := if onLeft then h[p].(left := x) else h[p].(right := x)][x := Cell(null, null, p, Red)]
  }

  lemma IsAttachedHeap(h: Heap, h': Heap, x: Node, p: Node, onLeft: bool)
    requires p in h && x !in h && h'.Keys == h.Keys + {x} && h'[x] == Cell(null, null, p, Red)
    requires h'[p] == if onLeft then h[p].(left := x) else h[p].(right := x)
    requires forall n :: n in h && n != p ==> h'[n] == h[n]
    ensures h' == AttachHeap(h, x, p, onLeft)
  {
  }

  ghost function With(order: seq<Node>, x: Node, k: int): seq<Node>
    requires 0 <= k <= |order|
  {
    order[..k] + [x] + order[k..]
  }

  ghost function AttachSpans(span: map<Node, Span>, x: Node, at: int, k: int): map<Node, Span> {
    map n | n in span.Keys + {x} :: if n == x then Span(k, k, k + 1) else Widened(span[n], at, k)
  }

  ghost function Attach(v: View, x: Node, p: Node, onLeft: bool): View
    requires HasRoom(v, x, p, onLeft)
  {
    var k := LeafPlace(v, p, onLeft);
    View(AttachHeap(v.heap, x, p, onLeft),
         v.root,
         With(v.order, x, k),
         AttachSpans(v.span, x, v.span[p].at, k),
         v.black[x := 0])
  }

  lemma AttachLinked(v: View, x: Node, p: Node, onLeft: bool, n: Node)
    requires HasRoom(v, x, p, onLeft) && Placed(v, p) && (n == x || Placed(v, n))
    ensures var w := Attach(v, x, p, onLeft); NodeLinked(w.heap, w.root, n)
  {
  }

  lemma AttachStands(v: View, x: Node, p: Node, onLeft: bool, n: Node)
    requires HasRoom(v, x, p, onLeft) && Placed(v, p) && (n == x || Placed(v, n))
    ensures var w := Attach(v, x, p, onLeft); StandsAt(w.order, w.span[n], n)
  {
  }

  lemma AttachSides(v: View, x: Node, p: Node, onLeft: bool, n: Node)
    requires HasRoom(v, x, p, onLeft) && Placed(v, p) && (n == x || Placed(v, n))
    ensures var w := Attach(v, x, p, onLeft);
      LeftOf(w.span, w.heap[n].left, w.span[n]) && RightOf(w.span, w.heap[n].right, w.span[n])
  {
  }

  lemma AttachOrdered(v: View, x: Node, p: Node, onLeft: bool, n: Node)
    requires HasRoom(v, x, p, onLeft) && Placed(v, p) && (n == x || Placed(v, n))
    ensures NodeOrdered(Attach(v, x, p, onLeft), n)
  {
    AttachStands(v, x, p, onLeft, n);
    AttachSides(v, x, p, onLeft, n);
  }

  lemma AttachPlace(v: View, x: Node, p: Node, onLeft: bool, i: nat)
    requires Shaped(v) && HasRoom(v, x, p, onLeft) && i <= |v.order|
    ensures var w := Attach(v, x, p, onLeft); w.order[i] in w.span && w.span[w.order[i]].at == i
  {
    var k := LeafPlace(v, p, onLeft);
    var w := Attach(v, x, p, onLeft);
    if i < k {
      assert w.order[i] == v.order[i];
    } else if i > k {
      assert w.order[i] == v.order[i - 1];
    }
  }

  lemma AttachShaped(v: View, x: Node, p: Node, onLeft: bool)
    requires Shaped(v) && HasRoom(v, x, p, onLeft)
    ensures Shaped(Attach(v, x, p, onLeft))
  {
    var w := Attach(v, x, p, onLeft);
    Around(v, p);
    assert Linked(w) by {
      forall n | n in w.heap ensures NodeLinked(w.heap, w.root, n) {
        if n != x { Around(v, n); }
        AttachLinked(v, x, p, onLeft, n);
      }
    }
    assert Ordered(w) by {
      forall n | n in w.heap ensures NodeOrdered(w, n) {
        if n != x { Around(v, n); }
        AttachOrdered(v, x, p, onLeft, n);
      }
      forall i | 0 <= i < |w.order| ensures w.order[i] in w.span && w.span[w.order[i]].at == i {
        AttachPlace(v, x, p, onLeft, i);
      }
    }
  }

  /** A red leaf weighs nothing, so only a red parent can object to it. */
  lemma AttachColors(v: View, x: Node, p: Node, onLeft: bool)
    requires Shaped(v) && Balanced(v, Level) && RedOk(v, null) && HasRoom(v, x, p, onLeft)
    ensures var w := Attach(v, x, p, onLeft); Balanced(w, Level) && RedOk(w, x) && NodeRedOk(w.heap, null, x)
  {
    var w := Attach(v, x, p, onLeft);
    forall n | n in w.heap ensures NodeBalanced(w, Level, n) && NodeRedOk(w.heap, x, n) {
      if n != x {
        Around(v, n);
        assert NodeBalanced(v, Level, n) && NodeRedOk(v.heap, null, n);
      }
    }
  }

  // ---------------------------------------------------------------- trading places

  ghost function Trade(n: Node?, x: Node, y: Node): Node? {
    if n == x then y else if n == y then x else n
  }

  ghost function TradeCell(c: Cell, x: Node, y: Node): Cell {
    Cell(Trade(c.left, x, y), Trade(c.right, x, y), Trade(c.parent, x, y), c.color)
  }

  ghost function ExchangeHeap(h: Heap, x: Node, y: Node): Heap
    requires x in h && y in h
  {
    map n | n in h :: TradeCell(h[Trade(n, x, y)], x, y)
  }

  ghost function ExchangeOrder(order: seq<Node>, x: Node, y: Node): seq<Node> {
    seq(|order|, i requires 0 <= i < |order| => Trade(order[i], x, y))
  }

  ghost function ExchangeMap<T>(m: map<Node, T>, x: Node, y: Node): map<Node, T>
    requires x in m && y in m
  {
    map n | n in m :: m[Trade(n, x, y)]
  }

  /** The same tree with the nodes `x` and `y` standing in each other's place. */
  ghost function Exchange(v: View, x: Node, y: Node): View
    requires x in v.heap && y in v.heap && x in v.span && y in v.span && x in v.black && y in v.black
  {
    View(ExchangeHeap(v.heap, x, y),
         Trade(v.root, x, y),
         ExchangeOrder(v.order, x, y),
         ExchangeMap(v.span, x, y),
         ExchangeMap(v.black, x, y))
  }

  // -------- what remove writes when it lets a node and its successor trade places

  ghost predicate PointsAt(c: Cell, x: Node) {
    c.left == x || c.right == x || c.parent == x
  }

  /** `x` has two children, `y` has no left one, and the nodes around them are all different. */
  ghost predicate RelinkApart(h: Heap, x: Node, y: Node) {
    && x in h && y in h && x != y && h[y].left == null
    && h[x].left != null && h[x].left in h && h[x].right != null && h[x].right in h && h[y].parent != null
      && h[y].parent in h
    && var a, r, p, c, q := h[x].left, h[x].right, h[x].parent, h[y].right, h[y].parent;
    && (p != null ==> p in h) && (c != null ==> c in h)
    && a != x && a != y && a != r && a != c && a != q && a != p && r != x && r != p && r != c
    && p != x && p != y && p != q && (p != null ==> p != c) && c != x && c != y && q != y && (c != null ==> c != q)
    && (q == x <==> r == y) && (q != x ==> h[q].left == y && h[q].right != y) && h[r].right != y
  }

  /** ... and no others point at them. */
  ghost predicate RelinkPoints(h: Heap, x: Node, y: Node)
    requires RelinkApart(h, x, y)
  {
    && var a, r, p, c, q := h[x].left, h[x].right, h[x].parent, h[y].right, h[y].parent;
    && h[a].parent == x && h[a].left != x && h[a].right != x && !PointsAt(h[a], y)
    && h[r].parent == x && h[r].left != x && h[r].right != x
    && (c != null ==> h[c].parent == y && h[c].left != y && h[c].right != y && !PointsAt(h[c], x))
    && (p != null ==> (h[p].left == x) != (h[p].right == x) && h[p].parent != x && !PointsAt(h[p], y))
    && (q != x && q != r ==> !PointsAt(h[q], x))
    && (q != x ==> h[q].parent != y)
    && (q != r && q != x ==> h[r].left != y)
    && forall n ::
      n in h && n != x && n != y && n != a && n != r && n != p && n != c && n != q ==>
        !PointsAt(h[n], x) && !PointsAt(h[n], y)
  }

  ghost predicate Relinkable(h: Heap, x: Node, y: Node) {
    RelinkApart(h, x, y) && RelinkPoints(h, x, y)
  }

  /** `y` follows `x` in the order and stands at the left end of the subtree to its right. */
  ghost predicate Follows(v: View, x: Node, y: Node) {
    && x in v.heap && y in v.heap && x in v.span && y in v.span && v.heap[x].left != null && v.heap[x].right != null
    && v.span[y].lo == v.span[y].at == v.span[x].at + 1 && v.span[y].hi <= v.span[x].hi
  }

  lemma SuccessorApart(v: View, x: Node, y: Node)
    requires Shaped(v) && Follows(v, x, y)
    ensures RelinkApart(v.heap, x, y)
  {
    Around(v, x);
    Around(v, y);
    var h := v.heap;
    var a, r, p, c := h[x].left, h[x].right, h[x].parent, h[y].right;
    if h[y].left != null { Around(v, h[y].left); }
    Around(v, a);
    Around(v, r);
    if p != null {
      Around(v, p);
      assert v.span[p].lo <= v.span[x].lo && v.span[x].hi <= v.span[p].hi;
    }
    if c != null { Around(v, c); }
    if h[y].parent != null { Around(v, h[y].parent); }
  }

  lemma SuccessorPoints(v: View, x: Node, y: Node)
    requires Shaped(v) && Follows(v, x, y) && RelinkApart(v.heap, x, y)
    ensures RelinkPoints(v.heap, x, y)
  {
    Around(v, x);
    Around(v, y);
    var h := v.heap;
    var a, r, p, c, q := h[x].left, h[x].right, h[x].parent, h[y].right, h[y].parent;
    Around(v, a);
    Around(v, r);
    Around(v, q);
    if p != null { Around(v, p); }
    if c != null { Around(v, c); }
    forall n | n in h && n != x && n != y && n != a && n != r && n != p && n != c && n != q
      ensures !PointsAt(h[n], x) && !PointsAt(h[n], y)
    {
      Around(v, n);
    }
  }

  /** The heap after the relinking of remove when the successor is the right child. */
  lemma IsExchangedNear(h: Heap, h': Heap, x: Node, y: Node)
    requires Relinkable(h, x, y) && h[x].right == y && h'.Keys == h.Keys
    requires var a, p, c := h[x].left, h[x].parent, h[y].right;
      && h'[x] == Cell(null, c, y, h[y].color) && h'[y] == Cell(a, x, p, h[x].color)
      && h'[a] == h[a].(parent := y)
      && (p != null ==> h'[p] == Redirected(h[p], x, y))
      && (c != null ==> h'[c] == h[c].(parent := x))
      && forall n :: n in h && n != x && n != y && n != a && n != p && n != c ==> h'[n] == h[n]
    ensures h' == ExchangeHeap(h, x, y)
  {
  }

  /** The heap after the relinking of remove when the successor lies deeper. */
  lemma IsExchangedFar(h: Heap, h': Heap, x: Node, y: Node)
    requires Relinkable(h, x, y) && h[x].right != y && h'.Keys == h.Keys
    requires var a, r, p, c, q := h[x].left, h[x].right, h[x].parent, h[y].right, h[y].parent;
      && h'[x] == Cell(null, c, q, h[y].color) && h'[y] == Cell(a, r, p, h[x].color)
      && h'[a] == h[a].(parent := y)
      && h'[r] == (if r == q then h[r].(parent := y, left := x) else h[r].(parent := y))
      && (r != q ==> h'[q] == h[q].(left := x))
      && (p != null ==> h'[p] == Redirected(h[p], x, y))
      && (c != null ==> h'[c] == h[c].(parent := x))
      && forall n :: n in h && n != x && n != y && n != a && n != r && n != p && n != c && n != q ==> h'[n] == h[n]
    ensures h' == ExchangeHeap(h, x, y)
  {
  }

  lemma ExchangeNode(v: View, x: Node, y: Node, n: Node)
    requires x in v.heap && y in v.heap && v.span.Keys == v.heap.Keys && v.black.Keys == v.heap.Keys
    requires n in v.heap && Placed(v, Trade(n, x, y))
    ensures var w := Exchange(v, x, y); NodeLinked(w.heap, w.root, n) && NodeOrdered(w, n)
  {
  }

  lemma ExchangePlaces(v: View, x: Node, y: Node)
    requires Shaped(v) && x in v.heap && y in v.heap
    ensures forall i :: 0 <= i < |v.order| ==>
      var w := ExchangeMap(v.span, x, y); var n := ExchangeOrder(v.order, x, y)[i]; n in w && w[n].at == i
  {
    forall i | 0 <= i < |v.order|
      ensures var w := ExchangeMap(v.span, x, y); var n := ExchangeOrder(v.order, x, y)[i]; n in w && w[n].at == i
    {
      assert v.order[i] in v.span && v.span[v.order[i]].at == i;
    }
  }

  lemma ExchangeShaped(v: View, x: Node, y: Node)
    requires Shaped(v) && x in v.heap && y in v.heap && v.black.Keys == v.heap.Keys
    ensures Shaped(Exchange(v, x, y))
  {
    var w := Exchange(v, x, y);
    ExchangePlaces(v, x, y);
    forall n | n in w.heap ensures NodeLinked(w.heap, w.root, n) && NodeOrdered(w, n) {
      Around(v, Trade(n, x, y));
      ExchangeNode(v, x, y, n);
    }
  }

  lemma ExchangeColors(v: View, x: Node, y: Node)
    requires Shaped(v) && Balanced(v, Level) && RedOk(v, null) && x in v.heap && y in v.heap
    ensures Balanced(Exchange(v, x, y), Level) && RedOk(Exchange(v, x, y), null)
  {
    var w := Exchange(v, x, y);
    forall n | n in w.heap ensures NodeBalanced(w, Level, n) && NodeRedOk(w.heap, null, n) {
      var m := Trade(n, x, y);
      Around(v, m);
      assert NodeBalanced(v, Level, m) && NodeRedOk(v.heap, null, m);
    }
  }

  // ---------------------------------------------------------------- cutting out a node

  ghost predicate AlmostLeaf(v: View, x: Node) {
    && x in v.heap && (v.heap[x].left == null || v.heap[x].right == null)
    && v.span.Keys == v.heap.Keys && v.black.Keys == v.heap.Keys
    && 0 <= v.span[x].at < |v.order|
  }

  ghost function OnlyChild(h: Heap, x: Node): Node?
    requires x in h
  {
    if h[x].left != null then h[x].left else h[x].right
  }

  ghost function CutCell(h: Heap, x: Node, n: Node): Cell
    requires x in h && n in h
  {
    var c, child := h[n], OnlyChild(h, x);
    if n == child then c.(parent := h[x].parent)
    else if n == h[x].parent then Redirected(c, x, child)
    else c
  }

  ghost function CutHeap(h: Heap, x: Node): Heap
    requires x in h
  {
    map n | n in h.Keys - {x} :: CutCell(h, x, n)
  }

  ghost function CutRoot(h: Heap, root: Node?, x: Node): Node?
    requires x in h
  {
    if h[x].parent == null then OnlyChild(h, x) else root
  }

  ghost function Closed(i: int, k: int): int {
    if i > k then i - 1 else i
  }

  ghost function CutSpan(s: Span, k: int): Span {
    Span(Closed(s.lo, k), Closed(s.at, k), Closed(s.hi, k))
  }

  ghost function Without(order: seq<Node>, k: int): seq<Node>
    requires 0 <= k < |order|
  {
    order[..k] + order[k + 1..]
  }

  ghost function CutSpans(span: map<Node, Span>, x: Node): map<Node, Span>
    requires x in span
  {
    map n | n in span.Keys - {x} :: CutSpan(span[n], span[x].at)
  }

  /** The tree without `x`, whose only child moves up into its place. */
  ghost function Cut(v: View, x: Node): View
    requires AlmostLeaf(v, x)
  {
    View(CutHeap(v.heap, x), CutRoot(v.heap, v.root, x), Without(v.order, v.span[x].at), CutSpans(v.span, x),
      v.black - {x})
  }

  /** The child and the parent of `x` are in the heap and differ from it and each other. */
  ghost predicate Cuttable(h: Heap, x: Node) {
    && x in h
    && var c, p := OnlyChild(h, x), h[x].parent;
    && (c != null ==> c in h && c != x && c != p) && (p != null ==> p in h && p != x)
  }

  lemma IsCutHeap(h: Heap, h': Heap, x: Node)
    requires Cuttable(h, x) && h'.Keys == h.Keys - {x}
    requires var c, p := OnlyChild(h, x), h[x].parent;
      && (c != null ==> h'[c] == h[c].(parent := p)) && (p != null ==> h'[p] == Redirected(h[p], x, c))
      && forall n :: n in h && n != x && n != c && n != p ==> h'[n] == h[n]
    ensures h' == CutHeap(h, x)
  {
  }

  lemma ShapedCuttable(v: View, x: Node)
    requires Shaped(v) && x in v.heap
    ensures Cuttable(v.heap, x)
  {
    Around(v, x);
  }

  lemma CutChildren(v: View, x: Node, n: Node)
    requires AlmostLeaf(v, x) && Placed(v, x) && Placed(v, n) && n != x
    ensures var h := CutHeap(v.heap, x); ChildLinked(h, n, h[n].left) && ChildLinked(h, n, h[n].right)
  {
  }

  lemma CutParent(v: View, x: Node, n: Node)
    requires AlmostLeaf(v, x) && Placed(v, x) && Placed(v, n) && n != x
    requires v.heap[x].parent != null ==> Placed(v, v.heap[x].parent)
    ensures var h := CutHeap(v.heap, x); ParentLinked(h, CutRoot(v.heap, v.root, x), n, h[n].parent)
  {
    if n == OnlyChild(v.heap, x) {
    } else {
      assert v.heap[n].parent != x;
    }
  }

  lemma CutStandsAt(v: View, x: Node, n: Node)
    requires AlmostLeaf(v, x) && Placed(v, x) && Placed(v, n) && n != x
    ensures var w := Cut(v, x); StandsAt(w.order, w.span[n], n)
  {
    assert v.span[n].at != v.span[x].at;
  }

  lemma CutLeftOf(v: View, x: Node, n: Node)
    requires AlmostLeaf(v, x) && Placed(v, x) && Placed(v, n) && n != x
    ensures var w := Cut(v, x); LeftOf(w.span, w.heap[n].left, w.span[n])
  {
    assert v.span[n].at != v.span[x].at;
    if v.heap[n].left == x {
    } else {
      assert Cut(v, x).heap[n].left == v.heap[n].left;
    }
  }

  lemma CutRightOf(v: View, x: Node, n: Node)
    requires AlmostLeaf(v, x) && Placed(v, x) && Placed(v, n) && n != x
    ensures var w := Cut(v, x); RightOf(w.span, w.heap[n].right, w.span[n])
  {
    assert v.span[n].at != v.span[x].at;
    if v.heap[n].right == x {
    } else {
      assert Cut(v, x).heap[n].right == v.heap[n].right;
    }
  }

  lemma CutPlace(v: View, x: Node, i: nat)
    requires Shaped(v) && AlmostLeaf(v, x) && i < |v.order| - 1
    ensures var w := Cut(v, x); w.order[i] in w.span && w.span[w.order[i]].at == i
  {
    var k := v.span[x].at;
    var w := Cut(v, x);
    if i < k {
      assert w.order[i] == v.order[i];
    } else {
      assert w.order[i] == v.order[i + 1];
    }
    Around(v, x);
  }

  lemma CutShaped(v: View, x: Node)
    requires Shaped(v) && AlmostLeaf(v, x)
    ensures Shaped(Cut(v, x))
  {
    var w := Cut(v, x);
    Around(v, x);
    if v.heap[x].parent != null { Around(v, v.heap[x].parent); }
    assert Linked(w) by {
      forall n | n in w.heap ensures NodeLinked(w.heap, w.root, n) {
        Around(v, n);
        CutChildren(v, x, n);
        CutParent(v, x, n);
      }
    }
    assert Ordered(w) by {
      forall n | n in w.heap ensures NodeOrdered(w, n) {
        Around(v, n);
        CutStandsAt(v, x, n);
        CutLeftOf(v, x, n);
        CutRightOf(v, x, n);
      }
      forall i | 0 <= i < |w.order| ensures w.order[i] in w.span && w.span[w.order[i]].at == i {
        CutPlace(v, x, i);
      }
    }
  }

  /** Cutting out a black node leaves its place one black node short; a red one leaves no trace. */
  ghost function CutDeficit(h: Heap, x: Node): Deficit
    requires x in h
  {
    if h[x].color == Black then DeficitAt(h, x, h[x].parent) else Level
  }

  lemma CutBalanced(v: View, x: Node, n: Node)
    requires AlmostLeaf(v, x) && Placed(v, x) && Placed(v, n) && n != x
    requires NodeBalanced(v, Level, x) && NodeBalanced(v, Level, n)
    ensures NodeBalanced(Cut(v, x), CutDeficit(v.heap, x), n)
  {
    var w, child := Cut(v, x), OnlyChild(v.heap, x);
    assert forall c: Node? :: c != x ==> Bh(w.black, c) == Bh(v.black, c);
    if n != v.heap[x].parent {
      assert v.heap[n].left != x && v.heap[n].right != x;
    }
  }

  lemma CutRedOk(v: View, x: Node, n: Node)
    requires AlmostLeaf(v, x) && Placed(v, x) && Placed(v, n) && n != x
    requires NodeRedOk(v.heap, null, x) && NodeRedOk(v.heap, null, n)
    ensures NodeRedOk(CutHeap(v.heap, x), if v.heap[x].color == Black then OnlyChild(v.heap, x) else null, n)
  {
    if n != v.heap[x].parent {
      assert v.heap[n].left != x && v.heap[n].right != x;
    }
  }

  lemma CutColors(v: View, x: Node)
    requires Shaped(v) && Balanced(v, Level) && RedOk(v, null) && AlmostLeaf(v, x)
    ensures Balanced(Cut(v, x), CutDeficit(v.heap, x))
    ensures RedOk(Cut(v, x), if v.heap[x].color == Black then OnlyChild(v.heap, x) else null)
  {
    var w, d := Cut(v, x), CutDeficit(v.heap, x);
    var z := if v.heap[x].color == Black then OnlyChild(v.heap, x) else null;
    Around(v, x);
    assert NodeBalanced(v, Level, x) && NodeRedOk(v.heap, null, x);
    forall n | n in w.heap ensures NodeBalanced(w, d, n) && NodeRedOk(w.heap, z, n) {
      Around(v, n);
      assert NodeBalanced(v, Level, n) && NodeRedOk(v.heap, null, n);
      CutBalanced(v, x, n);
      CutRedOk(v, x, n);
    }
  }

  /** Cutting out a node after it traded places with its successor takes just that node out of the order. */
  lemma ExchangeCutOrder(v: View, x: Node, y: Node)
    requires Shaped(v) && x in v.heap && y in v.heap && v.black.Keys == v.heap.Keys && v.span[y].at == v.span[x].at + 1
    requires AlmostLeaf(Exchange(v, x, y), x)
    ensures var k := v.span[x].at; 0 <= k < |v.order| && Cut(Exchange(v, x, y), x).order == Without(v.order, k)
  {
    Around(v, x);
    Around(v, y);
    var k := v.span[x].at;
    var w := Exchange(v, x, y);
    forall i | 0 <= i < |v.order| ensures w.order[i] == if i == k then y else if i == k + 1 then x else v.order[i] {
      assert v.span[v.order[i]].at == i;
    }
  }
}
