/** The red-black rules on a `View`, and how each recolour-and-rotate step of
    insert_fixups and remove_fixups moves the one place where they are broken. */
module RedBlackColors {
  import opened RedBlackShape

  /** Where one way down is a black node short: below `at`, on its left or right side. */
  datatype Deficit = Level | Short(at: Node, onLeft: bool)

  ghost function Bh(b: map<Node, nat>, c: Node?): nat {
    if c != null && c in b then b[c] else 0
  }

  ghost function LeftBh(v: View, d: Deficit, n: Node): nat
    requires n in v.heap
  {
    Bh(v.black, v.heap[n].left) + if d == Short(n, true) then 1 else 0
  }

  ghost function RightBh(v: View, d: Deficit, n: Node): nat
    requires n in v.heap
  {
    Bh(v.black, v.heap[n].right) + if d == Short(n, false) then 1 else 0
  }

  ghost predicate NodeBalanced(v: View, d: Deficit, n: Node) {
    && n in v.heap && n in v.black
    && LeftBh(v, d, n) == RightBh(v, d, n)
    && v.black[n] == LeftBh(v, d, n) + if v.heap[n].color == Black then 1 else 0
  }

  /** Below every node all ways down meet the same number of black nodes, once the deficit is counted in. */
  ghost predicate Balanced(v: View, d: Deficit) {
    && v.black.Keys == v.heap.Keys
    && forall n {:trigger NodeBalanced(v, d, n)} :: n in v.heap ==> NodeBalanced(v, d, n)
  }

  ghost predicate IsRed(h: Heap, n: Node?) {
    n != null && n in h && h[n].color == Red
  }

  ghost predicate NodeRedOk(h: Heap, x: Node?, n: Node)
    requires n in h
  {
    h[n].color == Red && n != x ==>
      && (IsRed(h, h[n].left) ==> h[n].left == x)
      && (IsRed(h, h[n].right) ==> h[n].right == x)
  }

  /** No red node has a red child, and the root is not red, except where the node `x` is involved. */
  ghost predicate RedOk(v: View, x: Node?) {
    && (IsRed(v.heap, v.root) ==> v.root == x)
    && forall n {:trigger NodeRedOk(v.heap, x, n)} :: n in v.heap ==> NodeRedOk(v.heap, x, n)
  }

  /** All rules, with one place short of a black node and one node that may be red under a red one. */
  ghost predicate Sound(v: View, d: Deficit, x: Node?) {
    Shaped(v) && Balanced(v, d) && RedOk(v, x)
  }

  ghost function PaintCell(h: Heap, n: Node, c: Color): Heap
    requires n in h
  {
    h[n := h[n].(color := c)]
  }

  ghost function Paint(v: View, n: Node, c: Color): View
    requires n in v.heap
  {
    v.(heap := PaintCell(v.heap, n, c))
  }

  /** Colours and black counts are no part of the link structure. */
  lemma SameLinks(v: View, w: View)
    requires Shaped(v) && w.root == v.root && w.order == v.order && w.span == v.span && w.heap.Keys == v.heap.Keys
    requires forall n :: n in v.heap ==> w.heap[n] == v.heap[n].(color := w.heap[n].color)
    ensures Shaped(w)
  {
    forall n | n in w.heap ensures NodeLinked(w.heap, w.root, n) && NodeOrdered(w, n) {
      Around(v, n);
    }
  }

  ghost function MirrorDeficit(d: Deficit): Deficit {
    match d
    case Level => Level
    case Short(n, onLeft) => Short(n, !onLeft)
  }

  lemma MirrorColors(v: View, d: Deficit, x: Node?)
    ensures Balanced(v, d) ==> Balanced(Mirror(v), MirrorDeficit(d))
    ensures RedOk(v, x) ==> RedOk(Mirror(v), x)
  {
    var w := Mirror(v);
    if Balanced(v, d) {
      forall n | n in w.heap ensures NodeBalanced(w, MirrorDeficit(d), n) {
        assert NodeBalanced(v, d, n);
      }
    }
    if RedOk(v, x) {
      forall n | n in w.heap ensures NodeRedOk(w.heap, x, n) {
        assert NodeRedOk(v.heap, x, n);
      }
    }
  }

  // ---------------------------------------------------------------- insert_fixups

  ghost function PushPaint(h: Heap, g: Node, p: Node, u: Node): Heap
    requires g in h && p in h && u in h
  {
    PaintCell(PaintCell(PaintCell(h, p, Black), u, Black), g, Red)
  }

  /** Red uncle: parent and uncle turn black, the grandparent red, and the trouble moves up to it. */
  ghost function PushUp(v: View, g: Node, p: Node, u: Node): View
    requires g in v.heap && p in v.heap && u in v.heap && p in v.black && u in v.black
  {
    View(PushPaint(v.heap, g, p, u), v.root, v.order, v.span, v.black[p := v.black[p] + 1][u := v.black[u] + 1])
  }

  ghost predicate RedFamily(v: View, g: Node, p: Node, u: Node) {
    && g in v.heap && p != u && IsRed(v.heap, p) && IsRed(v.heap, u)
    && ((v.heap[g].left == p && v.heap[g].right == u) || (v.heap[g].left == u && v.heap[g].right == p))
  }

  lemma PushUpBalanced(v: View, g: Node, p: Node, u: Node, n: Node)
    requires RedFamily(v, g, p, u) && v.heap[g].color == Black && Placed(v, g) && Placed(v, n)
    requires v.black.Keys == v.heap.Keys && NodeBalanced(v, Level, n)
    ensures NodeBalanced(PushUp(v, g, p, u), Level, n)
  {
    var w := PushUp(v, g, p, u);
    if n == g {
      assert w.black[g] == v.black[g];
    } else {
      assert forall c: Node? :: c != p && c != u ==> Bh(w.black, c) == Bh(v.black, c);
    }
  }

  lemma PushUpRedOk(v: View, g: Node, p: Node, u: Node, x: Node, n: Node)
    requires RedFamily(v, g, p, u) && Placed(v, g) && Placed(v, n) && v.black.Keys == v.heap.Keys
    requires x in v.heap && v.heap[x].parent == p && NodeRedOk(v.heap, null, x) && NodeRedOk(v.heap, x, n)
    ensures NodeRedOk(PushUp(v, g, p, u).heap, g, n) && NodeRedOk(PushUp(v, g, p, u).heap, null, g)
  {
  }

  lemma PushUpNode(v: View, g: Node, p: Node, u: Node, x: Node, n: Node)
    requires Shaped(v) && Balanced(v, Level) && RedOk(v, x) && RedFamily(v, g, p, u) && v.heap[g].color == Black
    requires x in v.heap && v.heap[x].parent == p && NodeRedOk(v.heap, null, x) && n in v.heap
    ensures NodeBalanced(PushUp(v, g, p, u), Level, n)
    ensures NodeRedOk(PushUp(v, g, p, u).heap, g, n) && NodeRedOk(PushUp(v, g, p, u).heap, null, g)
  {
    Around(v, g);
    Around(v, n);
    assert NodeBalanced(v, Level, n) && NodeRedOk(v.heap, x, n);
    PushUpBalanced(v, g, p, u, n);
    PushUpRedOk(v, g, p, u, x, n);
  }

  lemma PushUpShaped(v: View, g: Node, p: Node, u: Node)
    requires Shaped(v) && RedFamily(v, g, p, u) && v.black.Keys == v.heap.Keys
    ensures Shaped(PushUp(v, g, p, u))
  {
    SameLinks(v, PushUp(v, g, p, u));
  }

  lemma PushUpStep(v: View, g: Node, p: Node, u: Node, x: Node)
    requires Shaped(v) && Balanced(v, Level) && RedOk(v, x) && RedFamily(v, g, p, u) && v.heap[g].color == Black
    requires x in v.heap && v.heap[x].parent == p && NodeRedOk(v.heap, null, x)
    ensures var w := PushUp(v, g, p, u);
      Shaped(w) && Balanced(w, Level) && RedOk(w, g) && NodeRedOk(w.heap, null, g)
  {
    var w := PushUp(v, g, p, u);
    PushUpShaped(v, g, p, u);
    forall n | n in w.heap
      ensures NodeBalanced(w, Level, n) && NodeRedOk(w.heap, g, n) && (n == g ==> NodeRedOk(w.heap, null, g)) {
      PushUpNode(v, g, p, u, x, n);
    }
  }

  // ---------------------------------------------------------------- black node above a red right child

  ghost predicate BlackOverRed(v: View, x: Node) {
    && HasRight(v, x) && x in v.black && v.heap[x].right in v.black
    && v.heap[x].color == Black && v.heap[v.heap[x].right].color == Red && v.black[x] > 0
  }

  ghost function RaisePaint(h: Heap, x: Node, y: Node): Heap
    requires x in h && y in h
  {
    PaintCell(PaintCell(h, y, Black), x, Red)
  }

  ghost function RaisedBlack(b: map<Node, nat>, x: Node, y: Node): map<Node, nat>
    requires x in b && b[x] > 0
  {
    b[y := b[x]][x := b[x] - 1]
  }

  /** The red child turns black and is rotated above its parent, which turns red. */
  ghost function Raise(v: View, x: Node): View
    requires BlackOverRed(v, x)
  {
    var y := v.heap[x].right;
    View(RotatedHeap(RaisePaint(v.heap, x, y), x), RotatedRoot(v.heap, v.root, x), v.order,
         RotatedSpan(v.span, x, y), RaisedBlack(v.black, x, y))
  }

  lemma RaiseTurnable(h: Heap, x: Node, y: Node)
    requires x in h && y in h
    ensures Turnable(h, x) ==> Turnable(RaisePaint(h, x, y), x)
    ensures TurnableRight(h, x) ==> TurnableRight(RaisePaint(h, x, y), x)
    ensures RaisePaint(h, x, y)[x].right == h[x].right && RaisePaint(h, x, y)[x].left == h[x].left
    ensures RaisePaint(h, x, y)[x].parent == h[x].parent
  {
  }

  lemma RaiseBalanced(v: View, x: Node, d: Deficit, n: Node)
    requires BlackOverRed(v, x) && Turned(RaisePaint(v.heap, x, v.heap[x].right), x, n)
    requires NodeBalanced(v, d, n) && NodeBalanced(v, d, x) && NodeBalanced(v, d, v.heap[x].right)
    requires d != Short(x, false) && (d.Short? ==> d.at != v.heap[x].right)
    ensures NodeBalanced(Raise(v, x), d, n)
  {
  }

  lemma RaiseRedOk(v: View, x: Node, z: Node?, n: Node)
    requires BlackOverRed(v, x) && Turned(RaisePaint(v.heap, x, v.heap[x].right), x, n)
    requires NodeRedOk(v.heap, z, n) && NodeRedOk(v.heap, z, v.heap[x].right) && !IsRed(v.heap, v.heap[x].left)
    requires z != null ==> v.heap[n].left != z && (n != v.heap[x].right ==> v.heap[n].right != z)
    requires z != null ==>
      z in v.heap && v.heap[v.heap[x].right].left != z == v.heap[v.heap[x].right].right && NodeRedOk(v.heap, null, z)
    ensures NodeRedOk(Raise(v, x).heap, null, n)
  {
  }

  ghost predicate Raisable(v: View, x: Node, d: Deficit, z: Node?) {
    && BlackOverRed(v, x) && !IsRed(v.heap, v.heap[x].left)
    && d != Short(x, false) && (d.Short? ==> d.at != v.heap[x].right)
    && (z != null ==> z in v.heap && z == v.heap[v.heap[x].right].right && NodeRedOk(v.heap, null, z))
  }

  lemma RaiseShaped(v: View, x: Node)
    requires Shaped(v) && BlackOverRed(v, x)
    ensures var painted := v.(heap := RaisePaint(v.heap, x, v.heap[x].right)); Shaped(painted) && Shaped(Raise(v, x))
  {
    var painted := v.(heap := RaisePaint(v.heap, x, v.heap[x].right));
    SameLinks(v, painted);
    RotateLeftShaped(painted, x);
    SameLinks(RotateLeft(painted, x), Raise(v, x));
  }

  lemma RaiseNode(v: View, x: Node, d: Deficit, z: Node?, n: Node)
    requires Shaped(v) && Balanced(v, d) && RedOk(v, z) && Raisable(v, x, d, z)
    requires Shaped(v.(heap := RaisePaint(v.heap, x, v.heap[x].right)))
    requires n in v.heap
    ensures NodeBalanced(Raise(v, x), d, n) && NodeRedOk(Raise(v, x).heap, null, n)
  {
    var y := v.heap[x].right;
    Around(v, y);
    Around(v, n);
    RotatedSides(v.(heap := RaisePaint(v.heap, x, y)), x, n);
    assert NodeBalanced(v, d, x) && NodeBalanced(v, d, y) && NodeBalanced(v, d, n);
    assert NodeRedOk(v.heap, z, y) && NodeRedOk(v.heap, z, n);
    RaiseBalanced(v, x, d, n);
    RaiseRedOk(v, x, z, n);
  }

  lemma RaiseStep(v: View, x: Node, d: Deficit, z: Node?)
    requires Shaped(v) && Balanced(v, d) && RedOk(v, z) && Raisable(v, x, d, z)
    ensures var w := Raise(v, x); Shaped(w) && Balanced(w, d) && RedOk(w, null)
  {
    var w := Raise(v, x);
    RaiseShaped(v, x);
    forall n | n in w.heap ensures NodeBalanced(w, d, n) && NodeRedOk(w.heap, null, n) {
      RaiseNode(v, x, d, z, n);
    }
    RaiseRoot(v, x, z);
  }

  lemma RaiseRoot(v: View, x: Node, z: Node?)
    requires Shaped(v) && BlackOverRed(v, x) && RedOk(v, z)
    requires z != null ==> z == v.heap[v.heap[x].right].right
    ensures !IsRed(Raise(v, x).heap, Raise(v, x).root)
  {
    Around(v, x);
    Around(v, v.heap[x].right);
  }

  // ---------------------------------------------------------------- two red nodes in a row

  ghost predicate RedOverRed(v: View, x: Node) {
    && HasRight(v, x) && x in v.black && v.heap[x].right in v.black
    && v.heap[x].color == Red && v.heap[v.heap[x].right].color == Red
    && NodeRedOk(v.heap, null, v.heap[x].right)
  }

  lemma TwistBalanced(v: View, x: Node, n: Node)
    requires RedOverRed(v, x) && Turned(v.heap, x, n)
    requires NodeBalanced(v, Level, n) && NodeBalanced(v, Level, x) && NodeBalanced(v, Level, v.heap[x].right)
    ensures NodeBalanced(RotateLeft(v, x), Level, n)
  {
  }

  lemma TwistRedOk(v: View, x: Node, n: Node)
    requires RedOverRed(v, x) && Turned(v.heap, x, n)
    requires NodeRedOk(v.heap, v.heap[x].right, n) && NodeRedOk(v.heap, v.heap[x].right, x)
    ensures NodeRedOk(RotatedHeap(v.heap, x), x, n)
    ensures n == x ==> NodeRedOk(RotatedHeap(v.heap, x), null, x)
  {
  }

  lemma TwistNode(v: View, x: Node, n: Node)
    requires Shaped(v) && Balanced(v, Level) && RedOverRed(v, x) && RedOk(v, v.heap[x].right) && n in v.heap
    ensures NodeBalanced(RotateLeft(v, x), Level, n) && NodeRedOk(RotatedHeap(v.heap, x), x, n)
    ensures n == x ==> NodeRedOk(RotatedHeap(v.heap, x), null, x)
  {
    var y := v.heap[x].right;
    RotatedSides(v, x, n);
    assert NodeBalanced(v, Level, x) && NodeBalanced(v, Level, y) && NodeBalanced(v, Level, n);
    assert NodeRedOk(v.heap, y, x) && NodeRedOk(v.heap, y, n);
    TwistBalanced(v, x, n);
    TwistRedOk(v, x, n);
  }

  /** Rotating a red parent below its red right child moves the trouble from the child to the parent. */
  lemma TwistStep(v: View, x: Node)
    requires Shaped(v) && Balanced(v, Level) && RedOverRed(v, x) && RedOk(v, v.heap[x].right)
    requires v.heap[x].parent != null
    ensures var w := RotateLeft(v, x); Shaped(w) && Balanced(w, Level) && RedOk(w, x) && NodeRedOk(w.heap, null, x)
  {
    var w := RotateLeft(v, x);
    RotateLeftShaped(v, x);
    assert Balanced(w, Level) by {
      forall n | n in w.heap ensures NodeBalanced(w, Level, n) { TwistNode(v, x, n); }
    }
    assert RedOk(w, x) by {
      Around(v, x);
      forall n | n in w.heap ensures NodeRedOk(w.heap, x, n) { TwistNode(v, x, n); }
    }
    TwistNode(v, x, x);
  }

  // ---------------------------------------------------------------- remove_fixups

  /** `p` is short on the left, and its right child is black with two black children. */
  ghost predicate BlackNephews(v: View, p: Node) {
    && HasRight(v, p) && p in v.black && v.heap[p].right in v.black
    && var s := v.heap[p].right;
    && v.heap[s].color == Black && !IsRed(v.heap, v.heap[s].left) && !IsRed(v.heap, v.heap[s].right)
    && v.black[p] > 0 && v.black[s] > 0
  }

  /** The sibling turns red, so the whole subtree of `p` is now one black node short. */
  ghost function Sink(v: View, p: Node): View
    requires BlackNephews(v, p)
  {
    var s := v.heap[p].right;
    Paint(v, s, Red).(black := v.black[s := v.black[s] - 1][p := v.black[p] - 1])
  }

  /** The ways down through `node`, a child of `p`, are one black node short. */
  ghost function DeficitAt(h: Heap, node: Node?, p: Node?): Deficit {
    if p != null && p in h then Short(p, h[p].left == node) else Level
  }

  lemma SinkBalanced(v: View, p: Node, n: Node)
    requires BlackNephews(v, p) && Placed(v, p) && Placed(v, n)
    requires NodeBalanced(v, Short(p, true), n) && NodeBalanced(v, Short(p, true), v.heap[p].right)
    ensures NodeBalanced(Sink(v, p), DeficitAt(v.heap, p, v.heap[p].parent), n)
  {
  }

  lemma SinkRedOk(v: View, p: Node, n: Node)
    requires BlackNephews(v, p) && Placed(v, p) && Placed(v, n) && NodeRedOk(v.heap, null, n)
    ensures NodeRedOk(Sink(v, p).heap, p, n)
  {
  }

  lemma SinkStep(v: View, p: Node)
    requires Shaped(v) && Balanced(v, Short(p, true)) && RedOk(v, null) && BlackNephews(v, p)
    ensures var w := Sink(v, p); Shaped(w) && Balanced(w, DeficitAt(v.heap, p, v.heap[p].parent)) && RedOk(w, p)
  {
    var s := v.heap[p].right;
    var w := Sink(v, p);
    Around(v, p);
    assert NodeBalanced(v, Short(p, true), s);
    forall n | n in w.heap
      ensures NodeBalanced(w, DeficitAt(v.heap, p, v.heap[p].parent), n) && NodeRedOk(w.heap, p, n) {
      Around(v, n);
      assert NodeBalanced(v, Short(p, true), n) && NodeRedOk(v.heap, null, n);
      SinkBalanced(v, p, n);
      SinkRedOk(v, p, n);
    }
    SameLinks(v, w);
  }

  ghost predicate RedNephew(v: View, p: Node) {
    && HasRight(v, p) && p in v.black && v.heap[p].right in v.black
    && var s := v.heap[p].right;
    && v.heap[s].color == Black && v.heap[s].right != null && IsRed(v.heap, v.heap[s].right)
      && v.heap[s].right in v.black
  }

  ghost function SettlePaint(h: Heap, p: Node, s: Node, r: Node): Heap
    requires p in h && s in h && r in h
  {
    PaintCell(PaintCell(PaintCell(h, s, h[p].color), p, Black), r, Black)
  }

  ghost function SettledBlack(b: map<Node, nat>, p: Node, s: Node, r: Node): map<Node, nat>
    requires p in b && s in b && r in b
  {
    b[r := b[r] + 1][p := b[s]][s := b[p]]
  }

  ghost function SettlePainted(v: View, p: Node): View
    requires RedNephew(v, p)
  {
    v.(heap := SettlePaint(v.heap, p, v.heap[p].right, v.heap[v.heap[p].right].right))
  }

  /** The sibling takes over the parent's colour and place; parent and far nephew turn black. */
  ghost function Settle(v: View, p: Node): View
    requires RedNephew(v, p)
  {
    var s := v.heap[p].right;
    var r := v.heap[s].right;
    View(RotatedHeap(SettlePaint(v.heap, p, s, r), p), RotatedRoot(v.heap, v.root, p), v.order,
         RotatedSpan(v.span, p, s), SettledBlack(v.black, p, s, r))
  }

  /** Colours do not matter to a rotation. */
  lemma SettleTurnable(h: Heap, p: Node, s: Node, r: Node)
    requires p in h && s in h && r in h
    ensures Turnable(h, p) ==> Turnable(SettlePaint(h, p, s, r), p)
    ensures TurnableRight(h, p) ==> TurnableRight(SettlePaint(h, p, s, r), p)
    ensures SettlePaint(h, p, s, r)[p].right == h[p].right && SettlePaint(h, p, s, r)[p].left == h[p].left
    ensures SettlePaint(h, p, s, r)[p].parent == h[p].parent
  {
  }

  lemma SettleBalancedNear(v: View, p: Node, n: Node)
    requires RedNephew(v, p) && Turned(SettlePainted(v, p).heap, p, n) && Placed(v, p) && Placed(v, v.heap[p].right)
    requires n == p || n == v.heap[p].right
    requires NodeBalanced(v, Short(p, true), p) && NodeBalanced(v, Short(p, true), v.heap[p].right)
    requires NodeBalanced(v, Short(p, true), v.heap[v.heap[p].right].right)
    ensures NodeBalanced(Settle(v, p), Level, n)
  {
  }

  lemma SettleBalancedFar(v: View, p: Node, n: Node)
    requires RedNephew(v, p) && Turned(SettlePainted(v, p).heap, p, n) && Placed(v, n) && Placed(v, v.heap[p].right)
    requires n != p && n != v.heap[p].right && NodeBalanced(v, Short(p, true), n)
    ensures NodeBalanced(Settle(v, p), Level, n)
  {
    var s := v.heap[p].right;
    var r := v.heap[s].right;
    var w := Settle(v, p);
    assert v.heap[n].left != r && v.heap[n].right != r;
    assert forall c: Node? :: c != s && c != r ==> Bh(w.black, Instead(c, p, s)) == Bh(v.black, c);
  }

  lemma SettleRedOk(v: View, p: Node, n: Node)
    requires RedNephew(v, p) && Turned(SettlePainted(v, p).heap, p, n) && NodeRedOk(v.heap, null, n)
    requires v.heap[p].color == Red ==> !IsRed(v.heap, v.heap[p].parent)
    ensures NodeRedOk(Settle(v, p).heap, null, n)
  {
  }

  lemma SettleShaped(v: View, p: Node)
    requires Shaped(v) && RedNephew(v, p)
    ensures Shaped(SettlePainted(v, p)) && Shaped(Settle(v, p))
  {
    var painted := SettlePainted(v, p);
    SameLinks(v, painted);
    RotateLeftShaped(painted, p);
    SameLinks(RotateLeft(painted, p), Settle(v, p));
  }

  lemma SettleNode(v: View, p: Node, n: Node)
    requires Shaped(v) && Balanced(v, Short(p, true)) && RedNephew(v, p) && RedOk(v, null) && n in v.heap
    requires Shaped(SettlePainted(v, p))
    ensures NodeBalanced(Settle(v, p), Level, n) && NodeRedOk(Settle(v, p).heap, null, n)
  {
    var d := Short(p, true);
    var s := v.heap[p].right;
    Around(v, p);
    Around(v, s);
    Around(v, n);
    RotatedSides(SettlePainted(v, p), p, n);
    assert NodeBalanced(v, d, p) && NodeBalanced(v, d, s) && NodeBalanced(v, d, v.heap[s].right)
      && NodeBalanced(v, d, n);
    assert NodeRedOk(v.heap, null, n);
    if v.heap[p].parent != null { assert NodeRedOk(v.heap, null, v.heap[p].parent); }
    if n == p || n == s { SettleBalancedNear(v, p, n); } else { SettleBalancedFar(v, p, n); }
    SettleRedOk(v, p, n);
  }

  lemma SettleStep(v: View, p: Node)
    requires Shaped(v) && Balanced(v, Short(p, true)) && RedNephew(v, p) && RedOk(v, null)
    ensures var w := Settle(v, p); Shaped(w) && Balanced(w, Level) && RedOk(w, null)
  {
    var w := Settle(v, p);
    SettleShaped(v, p);
    forall n | n in w.heap ensures NodeBalanced(w, Level, n) && NodeRedOk(w.heap, null, n) {
      SettleNode(v, p, n);
    }
    SettleRoot(v, p);
  }

  lemma SettleRoot(v: View, p: Node)
    requires Shaped(v) && RedNephew(v, p) && RedOk(v, null)
    ensures !IsRed(Settle(v, p).heap, Settle(v, p).root)
  {
    Around(v, p);
    Around(v, v.heap[p].right);
  }
}
