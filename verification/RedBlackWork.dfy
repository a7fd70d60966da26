/** How much the tree has to do: no way down is long, and few rotations mend it. */
module RedBlackWork {
  import opened Arithmetic
  import opened RedBlackShape
  import opened RedBlackColors
  import opened RedBlackCases
  import opened RedBlackEdits
  import opened RedBlackRemoval
  import opened RedBlackHeight

  /** What an operation did: nodes visited on the way down, rounds of the fixup loop, and rotations. */
  datatype Work = Work(visited: nat, rounds: nat, rotations: nat)

  /** At most 2 log2(n + 1). */
  ghost predicate Logarithmic(n: nat, steps: nat) {
    Pow2(steps) <= (n + 1) * (n + 1)
  }

  lemma NoDeeper(v: View, n: Node, steps: nat)
    requires Sound(v, Level, null) && n in v.heap && steps <= Depth(v, n)
    ensures Logarithmic(|v.order|, steps)
  {
    HeightBound(v, n);
    Pow2Monotone(steps, Depth(v, n));
  }

  ghost function DepthOf(v: View, n: Node?): nat
    requires Shaped(v) && (n != null ==> n in v.heap)
  {
    if n == null then 0 else Depth(v, n)
  }

  lemma DepthBelow(v: View, n: Node)
    requires Shaped(v) && n in v.heap
    ensures v.heap[n].parent != null ==> v.heap[n].parent in v.heap
    ensures Depth(v, n) == DepthOf(v, v.heap[n].parent) + 1
  {
    Around(v, n);
  }

  /** A tree in which all old nodes keep their parents keeps their depths. */
  lemma {:induction false} DepthKept(v: View, w: View, n: Node)
    requires Shaped(v) && Shaped(w) && n in v.heap
    requires forall m :: m in v.heap ==> m in w.heap && w.heap[m].parent == v.heap[m].parent
    ensures Depth(w, n) == Depth(v, n)
    decreases Depth(v, n)
  {
    DepthBelow(v, n);
    DepthBelow(w, n);
    if v.heap[n].parent != null { DepthKept(v, w, v.heap[n].parent); }
  }

  /** Cutting a node out makes no way longer. */
  lemma {:induction false} CutDepth(v: View, x: Node, n: Node)
    requires Shaped(v) && AlmostLeaf(v, x) && Shaped(Cut(v, x)) && n in v.heap && n != x
    ensures n in Cut(v, x).heap && Depth(Cut(v, x), n) <= Depth(v, n)
    decreases Depth(v, n)
  {
    var w := Cut(v, x);
    Around(v, n);
    Around(v, x);
    DepthBelow(v, n);
    DepthBelow(w, n);
    var p := v.heap[n].parent;
    if p == x {
      DepthBelow(v, x);
      if v.heap[x].parent != null { CutDepth(v, x, v.heap[x].parent); }
    } else if p != null {
      CutDepth(v, x, p);
    }
  }

  lemma CutParentDepth(v: View, x: Node)
    requires Shaped(v) && AlmostLeaf(v, x)
    ensures var w, p := Cut(v, x), v.heap[x].parent;
      Shaped(w) && (p != null ==> p in v.heap && p in w.heap) && DepthOf(w, p) <= DepthOf(v, p)
  {
    CutShaped(v, x);
    Around(v, x);
    if v.heap[x].parent != null { CutDepth(v, x, v.heap[x].parent); }
  }

  lemma FewRounds(v: View, p: Node?, rounds: nat)
    requires Sound(v, Level, null) && (p != null ==> p in v.heap) && rounds <= DepthOf(v, p)
    ensures Logarithmic(|v.order|, rounds)
  {
    if p != null { NoDeeper(v, p, rounds); }
  }

  // ---------------------------------------------------------------- insertion

  /** The rotations of one round of insert_fixups. */
  ghost function InsertRotations(v: View, x: Node): nat
    requires RoundReady(v, x)
  {
    var p := v.heap[x].parent;
    var g := v.heap[p].parent;
    if RedUncle(v, x) then 0 else if x == (if v.heap[g].right == p then v.heap[p].left else v.heap[p].right) then 2
      else 1
  }

  lemma GrandParentDepth(v: View, x: Node)
    requires Troubled(v, x) && IsRed(v.heap, v.heap[x].parent)
    ensures var g := v.heap[v.heap[x].parent].parent; g != null && g in v.heap && Depth(v, x) == Depth(v, g) + 2
  {
    GrandParent(v, x);
    DepthBelow(v, x);
    DepthBelow(v, v.heap[x].parent);
  }

  /** A round with a red uncle only paints. */
  lemma PaintingRound(v: View, x: Node)
    requires RoundReady(v, x) && RedUncle(v, x)
    ensures var (w, y) := InsertRound(v, x);
      && y == v.heap[v.heap[x].parent].parent
      && forall m :: m in v.heap ==> m in w.heap && w.heap[m].parent == v.heap[m].parent
  {
  }

  /** A round that rotates is the last one; any other goes on two nodes further up. */
  lemma InsertRoundWork(v: View, x: Node)
    requires Troubled(v, x) && IsRed(v.heap, v.heap[x].parent)
    ensures RoundReady(v, x) && Depth(v, x) >= 3
    ensures var (w, y) := InsertRound(v, x);
      && Shaped(w) && y in w.heap
      && if InsertRotations(v, x) == 0 then Depth(w, y) + 2 == Depth(v, x) else !IsRed(w.heap, w.heap[y].parent)
  {
    InsertRoundSound(v, x);
    GrandParentDepth(v, x);
    var (w, y) := InsertRound(v, x);
    if RedUncle(v, x) {
      PaintingRound(v, x);
      DepthKept(v, w, y);
    } else if IsRed(w.heap, w.heap[y].parent) {
      RoundPositive(w, y);
    }
  }

  lemma AttachDepth(v: View, x: Node, p: Node, onLeft: bool)
    requires Shaped(v) && HasRoom(v, x, p, onLeft)
    ensures var w := Attach(v, x, p, onLeft); Shaped(w) && x in w.heap && Depth(w, x) == Depth(v, p) + 1
  {
    AttachShaped(v, x, p, onLeft);
    var w := Attach(v, x, p, onLeft);
    DepthBelow(w, x);
    DepthKept(v, w, p);
  }

  // ---------------------------------------------------------------- removal

  ghost function FinishLeftRotations(v: View, p: Node): nat
    requires FinishReadyLeft(v, p)
  {
    var s := v.heap[p].right;
    if IsRed(v.heap, v.heap[s].right) then 1 else if IsRed(v.heap, v.heap[s].left) then 2 else 0
  }

  /** The rotations of one round of remove_fixups for a left child of `p`. */
  ghost function LeftRotations(v: View, p: Node): nat
    requires RoundReadyLeft(v, p)
  {
    (if IsRed(v.heap, v.heap[p].right) then 1 else 0) + FinishLeftRotations(WithBlackSibling(v, p), p)
  }

  ghost function FinishRightRotations(v: View, p: Node): nat
    requires FinishReadyRight(v, p)
  {
    var s := v.heap[p].left;
    if IsRed(v.heap, v.heap[s].left) then 1 else if IsRed(v.heap, v.heap[s].right) then 2 else 0
  }

  ghost function RightRotations(v: View, p: Node): nat
    requires RoundReadyRight(v, p)
  {
    (if IsRed(v.heap, v.heap[p].left) then 1 else 0) + FinishRightRotations(WithBlackSiblingRight(v, p), p)
  }

  /** A round of remove_fixups that rotates is the last one; any other goes on one node further up. */
  ghost predicate FewRotations(v: View, p: Node, w: View, next: Node?, rotations: nat)
    requires Shaped(v) && p in v.heap
  {
    && rotations <= 3 && (rotations > 0 ==> !StillOwing(w, next))
    && (rotations == 0 ==> next == p && Shaped(w) && p in w.heap && Depth(w, p) == Depth(v, p))
  }

  lemma LeftRoundWork(v: View, node: Node?, p: Node)
    requires Owing(v, node, p) && StillOwing(v, node) && v.heap[p].left == node
    ensures RoundReadyLeft(v, p)
    ensures var (w, next) := RemoveRoundLeft(v, p); FewRotations(v, p, w, next, LeftRotations(v, p))
  {
    RemoveRoundLeftSound(v, node, p);
    NotRedAtAll(v, node);
    BlackSibling(v, p);
    var (w, next) := RemoveRoundLeft(v, p);
    if LeftRotations(v, p) == 0 { DepthKept(v, w, p); }
  }

  lemma RightRoundWork(v: View, node: Node?, p: Node)
    requires Owing(v, node, p) && StillOwing(v, node) && v.heap[p].left != node
    ensures RoundReadyRight(v, p)
    ensures var (w, next) := RemoveRoundRight(v, p); FewRotations(v, p, w, next, RightRotations(v, p))
  {
    RemoveRoundRightSound(v, node, p);
    NotRedAtAll(v, node);
    BlackSiblingRight(v, p);
    var (w, next) := RemoveRoundRight(v, p);
    if RightRotations(v, p) == 0 { DepthKept(v, w, p); }
  }
}
