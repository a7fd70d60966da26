/** What holds when a loop of the fixups starts another round, and why it stops. */
module RedBlackCases {
  import opened RedBlackShape
  import opened RedBlackColors
  import opened RedBlackMirror

  ghost predicate OnlyOneSide(h: Heap, p: Node, c: Node) {
    p in h && (h[p].left == c) != (h[p].right == c)
  }

  /** A red parent has a parent of its own, and that one is black. */
  lemma GrandParent(v: View, x: Node)
    requires Sound(v, Level, x) && x in v.heap && IsRed(v.heap, v.heap[x].parent)
    ensures var p := v.heap[x].parent; var g := v.heap[p].parent;
      && g != null && g in v.heap && v.heap[g].color == Black && g in v.black && v.black[g] > 0
      && OnlyOneSide(v.heap, g, p) && OnlyOneSide(v.heap, p, x)
  {
    var p := v.heap[x].parent;
    Around(v, x);
    Around(v, p);
    assert v.root != p;
    var g := v.heap[p].parent;
    Around(v, g);
    assert NodeRedOk(v.heap, x, g) && NodeBalanced(v, Level, g);
    assert v.span[g].hi - v.span[g].lo > v.span[p].hi - v.span[p].lo > v.span[x].hi - v.span[x].lo by {
      assert NodeOrdered(v, g) && NodeOrdered(v, p) && NodeOrdered(v, x);
    }
  }

  lemma RaiseReady(v: View, x: Node, p: Node, g: Node)
    requires Sound(v, Level, x) && x in v.heap && NodeRedOk(v.heap, null, x)
    requires IsRed(v.heap, p) && g in v.heap && v.heap[g].color == Black && v.heap[g].right == p && v.heap[p].right == x
    requires !IsRed(v.heap, v.heap[g].left)
    ensures Raisable(v, g, Level, x) && Turnable(v.heap, g)
  {
    Around(v, g);
    assert NodeBalanced(v, Level, g);
    ShapedTurnable(v, g);
  }

  lemma RaiseReadyLeft(v: View, x: Node, p: Node, g: Node)
    requires Sound(v, Level, x) && x in v.heap && NodeRedOk(v.heap, null, x)
    requires IsRed(v.heap, p) && g in v.heap && v.heap[g].color == Black && v.heap[g].left == p && v.heap[p].left == x
    requires !IsRed(v.heap, v.heap[g].right)
    ensures RaisableRight(v, g, Level, x) && TurnableRight(v.heap, g)
  {
    Around(v, g);
    assert NodeBalanced(v, Level, g);
    ShapedTurnableRight(v, g);
  }

  /** An inner grandchild becomes an outer one. */
  lemma TwistRightAt(v: View, x: Node, p: Node, g: Node)
    requires Sound(v, Level, x) && x in v.heap && NodeRedOk(v.heap, null, x) && v.heap[x].color == Red
    requires IsRed(v.heap, p) && g in v.heap && v.heap[g].right == p && v.heap[p].left == x
    ensures HasLeft(v, p) && TurnableRight(v.heap, p)
    ensures var w := RotateRight(v, p);
      && Sound(w, Level, p) && NodeRedOk(w.heap, null, p)
      && w.heap[g] == v.heap[g].(right := x) && w.heap[x].right == p && w.heap[p].parent == x
      && w.heap[x].color == Red && w.heap[p].color == Red
      && forall n :: n in v.heap ==> w.heap[n].color == v.heap[n].color
  {
    Around(v, g);
    Around(v, p);
    ShapedTurnableRight(v, p);
    TwistRightStep(v, p);
  }

  lemma TwistLeftAt(v: View, x: Node, p: Node, g: Node)
    requires Sound(v, Level, x) && x in v.heap && NodeRedOk(v.heap, null, x) && v.heap[x].color == Red
    requires IsRed(v.heap, p) && g in v.heap && v.heap[g].left == p && v.heap[p].right == x
    ensures HasRight(v, p) && Turnable(v.heap, p)
    ensures var w := RotateLeft(v, p);
      && Sound(w, Level, p) && NodeRedOk(w.heap, null, p)
      && w.heap[g] == v.heap[g].(left := x) && w.heap[x].left == p && w.heap[p].parent == x
      && w.heap[x].color == Red && w.heap[p].color == Red
      && forall n :: n in v.heap ==> w.heap[n].color == v.heap[n].color
  {
    Around(v, g);
    Around(v, p);
    ShapedTurnable(v, p);
    TwistStep(v, p);
  }

  lemma RedOkWeaken(v: View, x: Node)
    requires RedOk(v, null) && x in v.heap
    ensures RedOk(v, x) && NodeRedOk(v.heap, null, x)
  {
    assert NodeRedOk(v.heap, null, x);
    forall n | n in v.heap ensures NodeRedOk(v.heap, x, n) {
      assert NodeRedOk(v.heap, null, n);
    }
  }

  /** Bounds the rounds insert_fixups still has to do for `x`. */
  ghost function Rounds(v: View, x: Node): int
    requires x in v.heap && x in v.span
  {
    if IsRed(v.heap, v.heap[x].parent) then 1 + |v.order| - (v.span[x].hi - v.span[x].lo) else 0
  }

  lemma RoundsDone(v: View, x: Node)
    requires RedOk(v, null) && Linked(v) && x in v.heap && x in v.span && v.heap[x].color == Red
    ensures Rounds(v, x) == 0
  {
    assert NodeLinked(v.heap, v.root, x);
    if v.heap[x].parent != null { assert NodeRedOk(v.heap, null, v.heap[x].parent); }
  }

  lemma RoundsUp(v: View, w: View, x: Node, p: Node, g: Node)
    requires Shaped(v) && Shaped(w) && w.span == v.span && w.order == v.order && w.heap.Keys == v.heap.Keys
    requires x in v.heap && v.heap[x].parent == p && p in v.heap && v.heap[p].parent == g && g in v.heap
      && IsRed(v.heap, p)
    ensures 0 <= Rounds(w, g) < Rounds(v, x)
  {
    Around(w, g);
    Around(v, x);
    Around(v, p);
    Around(v, g);
  }

  /** The node turns black, so that the ways down through it get one black node more if it was red. */
  ghost function Paid(v: View, node: Node): View
    requires node in v.heap && node in v.black
  {
    Paint(v, node, Black).(black := if v.heap[node].color == Red then v.black[node := v.black[node] + 1] else v.black)
  }

  lemma BlackenedNode(v: View, x: Node, n: Node)
    requires v.root != null && v.root in v.heap && v.root in v.black && v.heap[v.root].parent == null
    requires Placed(v, n) && NodeBalanced(v, Level, n) && NodeRedOk(v.heap, x, n)
    requires Placed(v, x) && NodeRedOk(v.heap, null, x) && !IsRed(v.heap, v.heap[x].parent)
    ensures NodeBalanced(Paid(v, v.root), Level, n) && NodeRedOk(Paid(v, v.root).heap, null, n)
  {
  }

  /** With the trouble at the root, or gone, painting the root black restores every rule. */
  lemma BlackenedSound(v: View, x: Node)
    requires Sound(v, Level, x) && x in v.heap && NodeRedOk(v.heap, null, x) && !IsRed(v.heap, v.heap[x].parent)
    ensures v.root != null && v.root in v.heap && v.root in v.black && Sound(Paid(v, v.root), Level, null)
  {
    Around(v, x);
    assert v.order[v.span[x].at] == x;
    var w := Paid(v, v.root);
    SameLinks(v, w);
    forall n | n in w.heap ensures NodeBalanced(w, Level, n) && NodeRedOk(w.heap, null, n) {
      Around(v, n);
      assert NodeBalanced(v, Level, n) && NodeRedOk(v.heap, x, n);
      BlackenedNode(v, x, n);
    }
  }

  // ---------------------------------------------------------------- one round of insert_fixups

  /** Everything one round of insert_fixups for `x` reads is there, and what it writes is distinct. */
  ghost predicate RoundReady(v: View, x: Node) {
    && x in v.heap && v.heap[x].parent != null && v.heap[x].parent in v.heap && v.heap[x].parent in v.black
    && var p := v.heap[x].parent;
    && v.heap[p].parent != null && v.heap[p].parent in v.heap
    && var g := v.heap[p].parent;
    && (v.heap[g].left != null ==> v.heap[g].left in v.heap) && (v.heap[g].right != null ==> v.heap[g].right in v.heap)
    && if v.heap[g].right == p then
      (if IsRed(v.heap, v.heap[g].left) then v.heap[g].left in v.black
       else if v.heap[p].left == x then
         && HasLeft(v, p) && TurnableRight(v.heap, p)
         && var w := RotateRight(v, p); BlackOverRed(w, g) && Turnable(w.heap, g)
       else BlackOverRed(v, g) && Turnable(v.heap, g))
    else
      (if IsRed(v.heap, v.heap[g].right) then v.heap[g].right in v.black
       else if v.heap[p].right == x then
         && HasRight(v, p) && Turnable(v.heap, p)
         && var w := RotateLeft(v, p); BlackOverRedLeft(w, g) && TurnableRight(w.heap, g)
       else BlackOverRedLeft(v, g) && TurnableRight(v.heap, g))
  }

  /** The tree and the node insert_fixups looks at after one round for `x`. */
  ghost function InsertRound(v: View, x: Node): (View, Node)
    requires RoundReady(v, x)
  {
    var p := v.heap[x].parent;
    var g := v.heap[p].parent;
    if v.heap[g].right == p then
      (if IsRed(v.heap, v.heap[g].left) then (PushUp(v, g, p, v.heap[g].left), g)
       else if v.heap[p].left == x then (Raise(RotateRight(v, p), g), p)
       else (Raise(v, g), x))
    else
      (if IsRed(v.heap, v.heap[g].right) then (PushUp(v, g, p, v.heap[g].right), g)
       else if v.heap[p].right == x then (RaiseRight(RotateLeft(v, p), g), p)
       else (RaiseRight(v, g), x))
  }

  /** The uncle of `x` is red, so that its round only paints. */
  ghost predicate RedUncle(v: View, x: Node)
    requires RoundReady(v, x)
  {
    var p := v.heap[x].parent;
    var g := v.heap[p].parent;
    IsRed(v.heap, if v.heap[g].right == p then v.heap[g].left else v.heap[g].right)
  }

  ghost predicate Troubled(v: View, x: Node) {
    Sound(v, Level, x) && x in v.heap && NodeRedOk(v.heap, null, x) && v.heap[x].color == Red
  }

  ghost predicate RoundDone(v: View, x: Node) {
    && RoundReady(v, x)
    && var (w, y) := InsertRound(v, x);
    && Troubled(w, y) && 0 <= Rounds(w, y) < Rounds(v, x)
    && (!RedUncle(v, x) ==> Rounds(w, y) == 0)
  }

  lemma RaisedDone(w: View, y: Node)
    requires Sound(w, Level, null) && y in w.heap && w.heap[y].color == Red
    ensures Troubled(w, y) && Rounds(w, y) == 0
  {
    RedOkWeaken(w, y);
    RoundsDone(w, y);
  }

  lemma RoundPositive(v: View, x: Node)
    requires Shaped(v) && x in v.heap && IsRed(v.heap, v.heap[x].parent)
    ensures Rounds(v, x) > 0
  {
    Around(v, x);
  }

  lemma InsertRoundPush(v: View, x: Node, p: Node, g: Node, u: Node)
    requires Troubled(v, x) && v.heap[x].parent == p && RedFamily(v, g, p, u) && v.heap[g].color == Black
      && v.heap[p].parent == g
    ensures RoundDone(v, x)
  {
    Around(v, g);
    PushUpStep(v, g, p, u, x);
    RoundsUp(v, PushUp(v, g, p, u), x, p, g);
  }

  lemma InsertRoundRight(v: View, x: Node, p: Node, g: Node)
    requires Troubled(v, x) && v.heap[x].parent == p && IsRed(v.heap, p) && v.heap[p].parent == g && g in v.heap
    requires v.heap[g].color == Black && v.heap[g].right == p && !IsRed(v.heap, v.heap[g].left)
      && OnlyOneSide(v.heap, p, x)
    ensures RoundDone(v, x)
  {
    RoundPositive(v, x);
    Around(v, g);
    if v.heap[p].left == x {
      TwistRightAt(v, x, p, g);
      var w := RotateRight(v, p);
      RaiseReady(w, p, x, g);
      RaiseStep(w, g, Level, p);
      RaisedDone(Raise(w, g), p);
    } else {
      RaiseReady(v, x, p, g);
      RaiseStep(v, g, Level, x);
      RaisedDone(Raise(v, g), x);
    }
  }

  lemma InsertRoundLeft(v: View, x: Node, p: Node, g: Node)
    requires Troubled(v, x) && v.heap[x].parent == p && IsRed(v.heap, p) && v.heap[p].parent == g && g in v.heap
    requires v.heap[g].color == Black && v.heap[g].left == p && v.heap[g].right != p && !IsRed(v.heap, v.heap[g].right)
    requires OnlyOneSide(v.heap, p, x)
    ensures RoundDone(v, x)
  {
    RoundPositive(v, x);
    Around(v, g);
    if v.heap[p].right == x {
      TwistLeftAt(v, x, p, g);
      var w := RotateLeft(v, p);
      RaiseReadyLeft(w, p, x, g);
      RaiseRightStep(w, g, Level, p);
      RaisedDone(RaiseRight(w, g), p);
    } else {
      RaiseReadyLeft(v, x, p, g);
      RaiseRightStep(v, g, Level, x);
      RaisedDone(RaiseRight(v, g), x);
    }
  }

  /** While the parent is red a round can run, keeps every rule but the one at its node, and gets closer to the end. */
  lemma InsertRoundSound(v: View, x: Node)
    requires Troubled(v, x) && IsRed(v.heap, v.heap[x].parent)
    ensures RoundDone(v, x)
  {
    GrandParent(v, x);
    var p := v.heap[x].parent;
    var g := v.heap[p].parent;
    Around(v, g);
    if v.heap[g].right == p {
      if IsRed(v.heap, v.heap[g].left) { InsertRoundPush(v, x, p, g, v.heap[g].left); }
        else { InsertRoundRight(v, x, p, g); }
    } else {
      if IsRed(v.heap, v.heap[g].right) { InsertRoundPush(v, x, p, g, v.heap[g].right); }
        else { InsertRoundLeft(v, x, p, g); }
    }
  }

  /** Below a black parent there is no trouble. */
  lemma NoTrouble(v: View, x: Node)
    requires Troubled(v, x) && v.heap[x].parent != null && !IsRed(v.heap, v.heap[x].parent)
    ensures Sound(v, Level, null)
  {
    Around(v, x);
    forall n | n in v.heap ensures NodeRedOk(v.heap, null, n) {
      Around(v, n);
      assert NodeRedOk(v.heap, x, n);
    }
  }

  // ---------------------------------------------------------------- a new minimum stays a leaf below the old one

  ghost predicate LeafBelow(h: Heap, m: Node, x: Node) {
    m in h && x in h && h[m].left == x && h[x].left == null && h[x].right == null
  }

  /** The first node in order is a leaf and the left child of the second. */
  ghost predicate AtFront(v: View) {
    |v.order| >= 2 && LeafBelow(v.heap, v.order[1], v.order[0])
  }

  /** A node is the left child of the first one only if it has come to stand before it. */
  lemma FrontOrNot(v: View, x: Node, k: nat)
    requires Shaped(v) && |v.order| >= 2 && k < |v.order| && v.order[k] == x && (k == 0 ==> AtFront(v))
    ensures v.order[0] in v.heap && v.order[1] in v.heap
    ensures k == 0 ==> v.heap[v.order[1]].left == x
    ensures k > 0 ==> v.heap[v.order[0]].left != x
  {
    var m := v.order[0];
    Around(v, m);
    assert v.order[1] in v.span;
    if v.heap[m].left != null { Around(v, v.heap[m].left); }
  }

  lemma FrontPlaces(v: View)
    requires Shaped(v) && AtFront(v)
    ensures Placed(v, v.order[0]) && v.span[v.order[0]] == Span(0, 0, 1)
    ensures Placed(v, v.order[1]) && v.span[v.order[1]].lo == 0 && v.span[v.order[1]].at == 1
  {
    Around(v, v.order[0]);
    Around(v, v.order[1]);
  }

  lemma TurnLeftAtFront(v: View, h: Heap, z: Node)
    requires Shaped(v) && AtFront(v) && HasRight(v, z) && h.Keys == v.heap.Keys
    requires forall n :: n in h ==> h[n] == v.heap[n].(color := h[n].color)
    ensures LeafBelow(RotatedHeap(h, z), v.order[1], v.order[0])
  {
    FrontPlaces(v);
    Around(v, z);
    Around(v, v.heap[z].right);
  }

  lemma TurnRightAtFront(v: View, h: Heap, z: Node)
    requires Shaped(v) && AtFront(v) && HasLeft(v, z) && h.Keys == v.heap.Keys && z != v.order[1]
    requires forall n :: n in h ==> h[n] == v.heap[n].(color := h[n].color)
    ensures LeafBelow(RotatedRightHeap(h, z), v.order[1], v.order[0])
  {
    FrontPlaces(v);
    Around(v, z);
    Around(v, v.heap[z].left);
  }

  /** The rotations of a round never turn around the old minimum. */
  lemma FrontNotTurned(v: View, x: Node)
    requires Shaped(v) && AtFront(v) && RoundReady(v, x)
    ensures var p := v.heap[x].parent; var g := v.heap[p].parent;
      if v.heap[g].right == p then p != v.order[1] else g != v.order[1]
  {
    FrontPlaces(v);
    var p := v.heap[x].parent;
    var g := v.heap[p].parent;
    Around(v, x);
    Around(v, p);
    Around(v, g);
  }

  lemma RoundRightAtFront(v: View, x: Node, p: Node, g: Node)
    requires Shaped(v) && AtFront(v) && RoundReady(v, x) && v.heap[x].parent == p && v.heap[p].parent == g
    requires v.heap[g].right == p && !IsRed(v.heap, v.heap[g].left)
    ensures AtFront(InsertRound(v, x).0)
  {
    FrontNotTurned(v, x);
    if v.heap[p].left == x {
      TurnRightAtFront(v, v.heap, p);
      var w := RotateRight(v, p);
      RotateRightShaped(v, p);
      TurnLeftAtFront(w, RaisePaint(w.heap, g, w.heap[g].right), g);
    } else {
      TurnLeftAtFront(v, RaisePaint(v.heap, g, p), g);
    }
  }

  lemma RoundLeftAtFront(v: View, x: Node, p: Node, g: Node)
    requires Shaped(v) && AtFront(v) && RoundReady(v, x) && v.heap[x].parent == p && v.heap[p].parent == g
    requires v.heap[g].right != p && !IsRed(v.heap, v.heap[g].right)
    requires v.heap[g].left == p
    ensures AtFront(InsertRound(v, x).0)
  {
    FrontNotTurned(v, x);
    if v.heap[p].right == x {
      TurnLeftAtFront(v, v.heap, p);
      var w := RotateLeft(v, p);
      RotateLeftShaped(v, p);
      TurnRightAtFront(w, RaisePaint(w.heap, g, w.heap[g].left), g);
    } else {
      TurnRightAtFront(v, RaisePaint(v.heap, g, p), g);
    }
  }

  lemma InsertRoundAtFront(v: View, x: Node)
    requires Shaped(v) && RoundReady(v, x) && AtFront(v)
    ensures AtFront(InsertRound(v, x).0)
  {
    var p := v.heap[x].parent;
    var g := v.heap[p].parent;
    Around(v, p);
    if v.heap[g].right == p {
      if !IsRed(v.heap, v.heap[g].left) { RoundRightAtFront(v, x, p, g); }
    } else {
      if !IsRed(v.heap, v.heap[g].right) { RoundLeftAtFront(v, x, p, g); }
    }
  }
}
