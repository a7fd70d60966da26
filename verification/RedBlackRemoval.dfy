/** One round of remove_fixups, as a function of the view, and why it never meets a null sibling or nephew. */
module RedBlackRemoval {
  import opened RedBlackShape
  import opened RedBlackColors
  import opened RedBlackMirror
  import opened RedBlackCases
  import opened RedBlackEdits

  // ---------------------------------------------------------------- `node` is a left child

  /** First branch: a red sibling is raised, so that the sibling is black. */
  ghost predicate SiblingReady(v: View, p: Node) {
    && p in v.heap && v.heap[p].right != null && v.heap[p].right in v.heap
    && (IsRed(v.heap, v.heap[p].right) ==> BlackOverRed(v, p) && Turnable(v.heap, p))
  }

  ghost function WithBlackSibling(v: View, p: Node): View
    requires SiblingReady(v, p)
  {
    if IsRed(v.heap, v.heap[p].right) then Raise(v, p) else v
  }

  lemma BlackSibling(v: View, p: Node)
    requires Sound(v, Short(p, true), null) && p in v.heap && !IsRed(v.heap, v.heap[p].left)
    ensures SiblingReady(v, p)
    ensures var w := WithBlackSibling(v, p);
      && Sound(w, Short(p, true), null) && w.heap[p].left == v.heap[p].left && w.heap.Keys == v.heap.Keys
      && HasRight(w, p) && p in w.black && w.heap[p].right in w.black && w.heap[w.heap[p].right].color == Black
      && w.black[w.heap[p].right] > 0 && w.black[p] > 0
      && (w != v ==> w.heap[p].color == Red)
  {
    var d := Short(p, true);
    Around(v, p);
    assert NodeBalanced(v, d, p) && NodeRedOk(v.heap, null, p);
    var s := v.heap[p].right;
    assert NodeBalanced(v, d, s);
    if IsRed(v.heap, s) {
      ShapedTurnable(v, p);
      Around(v, s);
      RaiseStep(v, p, d, null);
      var w := Raise(v, p);
      assert NodeBalanced(w, d, p) && NodeRedOk(v.heap, null, s);
      Around(w, p);
      assert NodeBalanced(w, d, w.heap[p].right);
    }
  }

  /** Second branch: the near nephew, if it is the only red one, is raised to be the far one. */
  ghost predicate NephewReady(v: View, p: Node) {
    && p in v.heap && v.heap[p].right != null && v.heap[p].right in v.heap
    && var s := v.heap[p].right;
    && (!IsRed(v.heap, v.heap[s].right) ==> BlackOverRedLeft(v, s) && TurnableRight(v.heap, s))
  }

  ghost function WithFarNephew(v: View, p: Node): View
    requires NephewReady(v, p)
  {
    var s := v.heap[p].right;
    if IsRed(v.heap, v.heap[s].right) then v else RaiseRight(v, s)
  }

  lemma FarNephew(v: View, p: Node)
    requires Sound(v, Short(p, true), null) && HasRight(v, p) && v.heap[v.heap[p].right].color == Black
    requires var s := v.heap[p].right; IsRed(v.heap, v.heap[s].left) || IsRed(v.heap, v.heap[s].right)
    ensures NephewReady(v, p)
    ensures var w := WithFarNephew(v, p); Sound(w, Short(p, true), null) && RedNephew(w, p) && Turnable(w.heap, p)
  {
    var d := Short(p, true);
    var s := v.heap[p].right;
    Around(v, p);
    Around(v, s);
    assert NodeBalanced(v, d, s);
    if IsRed(v.heap, v.heap[s].right) {
      ShapedTurnable(v, p);
    } else {
      ShapedTurnableRight(v, s);
      RaiseRightStep(v, s, d, null);
      var w := RaiseRight(v, s);
      Around(w, p);
      ShapedTurnable(w, p);
    }
  }

  ghost predicate ChildrenThere(h: Heap, s: Node) {
    s in h && (h[s].left != null ==> h[s].left in h) && (h[s].right != null ==> h[s].right in h)
  }

  ghost predicate FinishReadyLeft(v: View, p: Node) {
    && HasRight(v, p)
    && var s := v.heap[p].right;
    && ChildrenThere(v.heap, s)
    && if !IsRed(v.heap, v.heap[s].left) && !IsRed(v.heap, v.heap[s].right) then BlackNephews(v, p)
       else NephewReady(v, p) && var w := WithFarNephew(v, p); RedNephew(w, p) && Turnable(w.heap, p)
  }

  /** With a black sibling: the debt moves up to `p`, or is paid. */
  ghost function FinishLeft(v: View, p: Node): (View, Node?)
    requires FinishReadyLeft(v, p)
  {
    var s := v.heap[p].right;
    if !IsRed(v.heap, v.heap[s].left) && !IsRed(v.heap, v.heap[s].right) then (Sink(v, p), p)
    else var w := Settle(WithFarNephew(v, p), p); (w, w.root)
  }

  ghost predicate RoundReadyLeft(v: View, p: Node) {
    SiblingReady(v, p) && FinishReadyLeft(WithBlackSibling(v, p), p)
  }

  /** The tree and the node remove_fixups looks at after one round for the left child of `p`. */
  ghost function RemoveRoundLeft(v: View, p: Node): (View, Node?)
    requires RoundReadyLeft(v, p)
  {
    FinishLeft(WithBlackSibling(v, p), p)
  }

  // ---------------------------------------------------------------- `node` is a right child

  ghost predicate SiblingReadyRight(v: View, p: Node) {
    && p in v.heap && v.heap[p].left != null && v.heap[p].left in v.heap
    && (IsRed(v.heap, v.heap[p].left) ==> BlackOverRedLeft(v, p) && TurnableRight(v.heap, p))
  }

  ghost function WithBlackSiblingRight(v: View, p: Node): View
    requires SiblingReadyRight(v, p)
  {
    if IsRed(v.heap, v.heap[p].left) then RaiseRight(v, p) else v
  }

  lemma BlackSiblingRight(v: View, p: Node)
    requires Sound(v, Short(p, false), null) && p in v.heap && !IsRed(v.heap, v.heap[p].right)
    ensures SiblingReadyRight(v, p)
    ensures var w := WithBlackSiblingRight(v, p);
      && Sound(w, Short(p, false), null) && w.heap[p].right == v.heap[p].right && w.heap.Keys == v.heap.Keys
      && HasLeft(w, p) && p in w.black && w.heap[p].left in w.black && w.heap[w.heap[p].left].color == Black
      && w.black[w.heap[p].left] > 0 && w.black[p] > 0
      && (w != v ==> w.heap[p].color == Red)
  {
    var d := Short(p, false);
    Around(v, p);
    assert NodeBalanced(v, d, p) && NodeRedOk(v.heap, null, p);
    var s := v.heap[p].left;
    assert NodeBalanced(v, d, s);
    if IsRed(v.heap, s) {
      ShapedTurnableRight(v, p);
      Around(v, s);
      RaiseRightStep(v, p, d, null);
      var w := RaiseRight(v, p);
      assert NodeBalanced(w, d, p) && NodeRedOk(v.heap, null, s);
      Around(w, p);
      assert NodeBalanced(w, d, w.heap[p].left);
    }
  }

  ghost predicate NephewReadyRight(v: View, p: Node) {
    && p in v.heap && v.heap[p].left != null && v.heap[p].left in v.heap
    && var s := v.heap[p].left;
    && (!IsRed(v.heap, v.heap[s].left) ==> BlackOverRed(v, s) && Turnable(v.heap, s))
  }

  ghost function WithFarNephewRight(v: View, p: Node): View
    requires NephewReadyRight(v, p)
  {
    var s := v.heap[p].left;
    if IsRed(v.heap, v.heap[s].left) then v else Raise(v, s)
  }

  lemma FarNephewRight(v: View, p: Node)
    requires Sound(v, Short(p, false), null) && HasLeft(v, p) && v.heap[v.heap[p].left].color == Black
    requires var s := v.heap[p].left; IsRed(v.heap, v.heap[s].left) || IsRed(v.heap, v.heap[s].right)
    ensures NephewReadyRight(v, p)
    ensures var w := WithFarNephewRight(v, p);
      Sound(w, Short(p, false), null) && RedNephewLeft(w, p) && TurnableRight(w.heap, p)
  {
    var d := Short(p, false);
    var s := v.heap[p].left;
    Around(v, p);
    Around(v, s);
    assert NodeBalanced(v, d, s);
    if IsRed(v.heap, v.heap[s].left) {
      ShapedTurnableRight(v, p);
    } else {
      ShapedTurnable(v, s);
      RaiseStep(v, s, d, null);
      var w := Raise(v, s);
      Around(w, p);
      ShapedTurnableRight(w, p);
    }
  }

  ghost predicate FinishReadyRight(v: View, p: Node) {
    && HasLeft(v, p)
    && var s := v.heap[p].left;
    && ChildrenThere(v.heap, s)
    && if !IsRed(v.heap, v.heap[s].left) && !IsRed(v.heap, v.heap[s].right) then BlackNephewsLeft(v, p)
       else NephewReadyRight(v, p) && var w := WithFarNephewRight(v, p); RedNephewLeft(w, p) && TurnableRight(w.heap, p)
  }

  ghost function FinishRight(v: View, p: Node): (View, Node?)
    requires FinishReadyRight(v, p)
  {
    var s := v.heap[p].left;
    if !IsRed(v.heap, v.heap[s].left) && !IsRed(v.heap, v.heap[s].right) then (SinkRight(v, p), p)
    else var w := SettleRight(WithFarNephewRight(v, p), p); (w, w.root)
  }

  ghost predicate RoundReadyRight(v: View, p: Node) {
    SiblingReadyRight(v, p) && FinishReadyRight(WithBlackSiblingRight(v, p), p)
  }

  ghost function RemoveRoundRight(v: View, p: Node): (View, Node?)
    requires RoundReadyRight(v, p)
  {
    FinishRight(WithBlackSiblingRight(v, p), p)
  }

  // ---------------------------------------------------------------- the loop

  /** What remove_fixups keeps: the ways down through `node`, a child of `p`, are one black node short. */
  ghost predicate Owing(v: View, node: Node?, p: Node?) {
    && v.root != null && Sound(v, DeficitAt(v.heap, node, p), node)
    && (node != null ==> node in v.heap && v.heap[node].parent == p)
    && (if p == null then node == v.root else p in v.heap && (v.heap[p].left == node || v.heap[p].right == node))
  }

  /** The loop's guard. */
  ghost predicate StillOwing(v: View, node: Node?) {
    node != v.root && !IsRed(v.heap, node)
  }

  ghost function RoundsLeft(v: View, node: Node?, p: Node?): int {
    if StillOwing(v, node) && p != null && p in v.span then 1 + |v.order| - (v.span[p].hi - v.span[p].lo) else 0
  }

  lemma NotRedAtAll(v: View, x: Node?)
    requires RedOk(v, x) && !IsRed(v.heap, x)
    ensures RedOk(v, null)
  {
    forall n | n in v.heap ensures NodeRedOk(v.heap, null, n) {
      assert NodeRedOk(v.heap, x, n);
    }
  }

  ghost predicate Advanced(v: View, node: Node?, p: Node, w: View, node': Node?) {
    && node' != null && node' in w.heap && Owing(w, node', w.heap[node'].parent) && w.order == v.order
      && w.heap.Keys == v.heap.Keys
    && 0 <= RoundsLeft(w, node', w.heap[node'].parent) < RoundsLeft(v, node, p)
  }

  lemma SinkAdvances(v: View, node: Node?, p: Node, v1: View, w: View)
    requires Shaped(v) && p in v.heap && StillOwing(v, node) && Shaped(v1) && p in v1.heap && v1.order == v.order
    requires v1 == v || v1.heap[p].color == Red
    requires Sound(w, DeficitAt(v1.heap, p, v1.heap[p].parent), p) && w.root == v1.root && w.order == v.order
      && w.span == v1.span && w.heap.Keys == v.heap.Keys
    requires forall n ::
      n in v1.heap ==> n in w.heap && w.heap[n] == v1.heap[n].(color := w.heap[n].color)
    requires w.heap[p].color == v1.heap[p].color
    ensures Advanced(v, node, p, w, p)
  {
    Around(v, p);
    Around(w, p);
    Around(v1, p);
    assert v.order[v.span[p].at] == p;
    if w.heap[p].parent != null {
      Around(w, w.heap[p].parent);
      Around(v1, v1.heap[p].parent);
    }
  }

  lemma SettleAdvances(v: View, node: Node?, p: Node, w: View)
    requires Shaped(v) && p in v.heap && StillOwing(v, node) && Sound(w, Level, null) && w.order == v.order
      && w.heap.Keys == v.heap.Keys
    ensures w.root != null && Advanced(v, node, p, w, w.root)
  {
    Around(v, p);
    assert v.order[v.span[p].at] == p;
    RedOkWeaken(w, w.root);
  }

  lemma SinkLeftAdvances(v: View, node: Node?, p: Node, v1: View)
    requires Shaped(v) && p in v.heap && StillOwing(v, node) && v1.order == v.order && v1.heap.Keys == v.heap.Keys
    requires v1 == v || v1.heap[p].color == Red
    requires Sound(v1, Short(p, true), null) && BlackNephews(v1, p)
    ensures Advanced(v, node, p, Sink(v1, p), p)
  {
    Around(v1, p);
    SinkStep(v1, p);
    SinkAdvances(v, node, p, v1, Sink(v1, p));
  }

  lemma SettleLeftAdvances(v: View, node: Node?, p: Node, v2: View)
    requires Shaped(v) && p in v.heap && StillOwing(v, node) && v2.order == v.order && v2.heap.Keys == v.heap.Keys
    requires Sound(v2, Short(p, true), null) && RedNephew(v2, p)
    ensures Advanced(v, node, p, Settle(v2, p), Settle(v2, p).root)
  {
    SettleStep(v2, p);
    SettleAdvances(v, node, p, Settle(v2, p));
  }

  /** While ways down are short, a round for a left child can run, keeps the debt, and gets closer to paying it. */
  lemma RemoveRoundLeftSound(v: View, node: Node?, p: Node)
    requires Owing(v, node, p) && StillOwing(v, node) && v.heap[p].left == node
    ensures RoundReadyLeft(v, p) && var (w, node') := RemoveRoundLeft(v, p); Advanced(v, node, p, w, node')
  {
    NotRedAtAll(v, node);
    BlackSibling(v, p);
    var v1 := WithBlackSibling(v, p);
    var s := v1.heap[p].right;
    Around(v1, s);
    if !IsRed(v1.heap, v1.heap[s].left) && !IsRed(v1.heap, v1.heap[s].right) {
      SinkLeftAdvances(v, node, p, v1);
    } else {
      FarNephew(v1, p);
      SettleLeftAdvances(v, node, p, WithFarNephew(v1, p));
    }
  }

  lemma SinkRightAdvances(v: View, node: Node?, p: Node, v1: View)
    requires Shaped(v) && p in v.heap && StillOwing(v, node) && v1.order == v.order && v1.heap.Keys == v.heap.Keys
    requires v1 == v || v1.heap[p].color == Red
    requires Sound(v1, Short(p, false), null) && BlackNephewsLeft(v1, p)
    ensures Advanced(v, node, p, SinkRight(v1, p), p)
  {
    Around(v1, p);
    SinkRightStep(v1, p);
    SinkAdvances(v, node, p, v1, SinkRight(v1, p));
  }

  lemma SettleRightAdvances(v: View, node: Node?, p: Node, v2: View)
    requires Shaped(v) && p in v.heap && StillOwing(v, node) && v2.order == v.order && v2.heap.Keys == v.heap.Keys
    requires Sound(v2, Short(p, false), null) && RedNephewLeft(v2, p)
    ensures Advanced(v, node, p, SettleRight(v2, p), SettleRight(v2, p).root)
  {
    SettleRightStep(v2, p);
    SettleAdvances(v, node, p, SettleRight(v2, p));
  }

  lemma RemoveRoundRightSound(v: View, node: Node?, p: Node)
    requires Owing(v, node, p) && StillOwing(v, node) && v.heap[p].left != node
    ensures RoundReadyRight(v, p) && var (w, node') := RemoveRoundRight(v, p); Advanced(v, node, p, w, node')
  {
    NotRedAtAll(v, node);
    BlackSiblingRight(v, p);
    var v1 := WithBlackSiblingRight(v, p);
    var s := v1.heap[p].left;
    Around(v1, s);
    if !IsRed(v1.heap, v1.heap[s].left) && !IsRed(v1.heap, v1.heap[s].right) {
      SinkRightAdvances(v, node, p, v1);
    } else {
      FarNephewRight(v1, p);
      SettleRightAdvances(v, node, p, WithFarNephewRight(v1, p));
    }
  }

  // ---------------------------------------------------------------- the end of the loop

  lemma PaidNode(v: View, node: Node, n: Node)
    requires node in v.heap && node in v.black && Placed(v, node) && Placed(v, n)
    requires v.heap[node].color == Red || v.heap[node].parent == null
    requires v.heap[node].parent == null ==> v.root == node
    requires var d := DeficitAt(v.heap, node, v.heap[node].parent); NodeBalanced(v, d, n) && NodeBalanced(v, d, node)
    requires NodeRedOk(v.heap, node, n)
    ensures NodeBalanced(Paid(v, node), Level, n) && NodeRedOk(Paid(v, node).heap, null, n)
  {
  }

  /** When the loop stops the node is not null, and painting it black pays the debt. */
  lemma PaidSound(v: View, node: Node?, p: Node?)
    requires Owing(v, node, p) && !StillOwing(v, node)
    ensures node != null && node in v.heap && node in v.black && Sound(Paid(v, node), Level, null)
  {
    var d := DeficitAt(v.heap, node, p);
    var w := Paid(v, node);
    Around(v, node);
    SameLinks(v, w);
    assert NodeBalanced(v, d, node);
    forall n | n in w.heap ensures NodeBalanced(w, Level, n) && NodeRedOk(w.heap, null, n) {
      Around(v, n);
      assert NodeBalanced(v, d, n) && NodeRedOk(v.heap, node, n);
      PaidNode(v, node, n);
    }
  }

  /** A black node cut out of the tree leaves the debt remove_fixups starts with. */
  lemma CutOwing(v: View, x: Node)
    requires Sound(v, Level, null) && AlmostLeaf(v, x) && v.heap[x].color == Black && |v.order| >= 2
    ensures Owing(Cut(v, x), OnlyChild(v.heap, x), v.heap[x].parent)
  {
    var c, p := OnlyChild(v.heap, x), v.heap[x].parent;
    CutShaped(v, x);
    CutColors(v, x);
    Around(v, x);
    if p != null {
      Around(v, p);
      assert NodeBalanced(v, Level, x) && NodeBalanced(v, Level, p);
    }
  }

  /** A red node cut out of the tree leaves no debt. */
  lemma CutRed(v: View, x: Node)
    requires Sound(v, Level, null) && AlmostLeaf(v, x) && v.heap[x].color == Red
    ensures Sound(Cut(v, x), Level, null)
  {
    CutShaped(v, x);
    CutColors(v, x);
  }
}
