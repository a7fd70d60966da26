/** base/RedBlackTree.h as it runs: nodes with parent pointers, relinked and recoloured in place.

    The ghost fields and the cells of the nodes make up the `View` of the tree, `V()`; every method says what it
    does to that view. */
module RedBlackTree {
  import opened RedBlackShape
  import opened RedBlackColors
  import opened RedBlackMirror
  import opened RedBlackCases
  import opened RedBlackRemoval
  import opened RedBlackEdits
  import opened RedBlackHeight
  import opened RedBlackWork

  ghost function Cells(nodes: set<Node>): Heap
    reads nodes
  {
    map n | n in nodes :: n.Snapshot()
  }

  ghost predicate Sorted(order: seq<Node>) {
    forall i, j :: 0 <= i < j < |order| ==> order[i].key <= order[j].key
  }

  /** A leaf hung into a sound tree can only trouble its parent. */
  lemma AttachTroubled(v: View, x: Node, p: Node, onLeft: bool, k: nat)
    requires Sound(v, Level, null) && x !in v.heap && p in v.heap && RoomAt(v, p, onLeft, k)
    ensures HasRoom(v, x, p, onLeft) && k <= |v.order|
    ensures var w := Attach(v, x, p, onLeft);
      && Troubled(w, x) && w.heap[x].parent == p && w.order == With(v.order, x, k) && (k == 0 ==> AtFront(w))
      && Depth(w, x) == Depth(v, p) + 1
  {
    Around(v, p);
    AttachDepth(v, x, p, onLeft);
    AttachShaped(v, x, p, onLeft);
    AttachColors(v, x, p, onLeft);
  }

  lemma SortedWith(order: seq<Node>, x: Node, k: nat)
    requires Sorted(order) && k <= |order|
    requires forall i :: 0 <= i < k ==> order[i].key <= x.key
    requires forall i :: k <= i < |order| ==> x.key < order[i].key
    ensures Sorted(With(order, x, k)) && With(order, x, k)[k] == x
    ensures order != [] ==> With(order, x, k)[if k == 0 then 1 else 0] == order[0]
  {
  }

  lemma SortedWithout(order: seq<Node>, k: nat)
    requires Sorted(order) && k < |order|
    ensures Sorted(Without(order, k)) && |Without(order, k)| == |order| - 1
    ensures |order| >= 2 ==> Without(order, k)[0] == if k == 0 then order[1] else order[0]
  {
  }

  class BaseRedBlackTree {
    var root: Node?
    var size: nat
    var minimum: Node?
    ghost var nodes: set<Node>
    ghost var order: seq<Node>
    ghost var span: map<Node, Span>
    ghost var black: map<Node, nat>

    ghost function V(): View
      reads this, nodes
    {
      View(Cells(nodes), root, order, span, black)
    }

    /** The red-black rules, the search order, and the two fields kept beside the root.
        The minimum is only kept for a tree that is not empty. */
    ghost predicate Valid()
      reads this, nodes
    {
      && Sound(V(), Level, null) && Sorted(order)
      && size == |order| && (order != [] ==> minimum == order[0])
    }

    constructor ()
      ensures Valid() && order == [] && nodes == {}
    {
      root, size, minimum := null, 0, null;
      nodes, order, span, black := {}, [], map[], map[];
    }

    /** `order` is the symmetric walk of the tree, and no way down is long. */
    lemma Height(n: Node)
      requires Valid() && n in nodes
      ensures Walk(V(), root) == order && Logarithmic(size, Depth(V(), n))
    {
      WalkIsOrder(V());
      NoDeeper(V(), n, Depth(V(), n));
    }

    // ---------------------------------------------------------------- lookups

    /** A way down has come by so many nodes, the last of them above `node`. */
    ghost predicate OnTheWay(last: Node?, node: Node?, visited: nat)
      requires Shaped(V()) && (node != null ==> node in nodes)
      reads this, nodes
    {
      && (last != null ==> last in nodes) && visited == DepthOf(V(), last)
      && (node != null ==> node.parent == last)
    }

    lemma StepDown(last: Node?, node: Node, visited: nat)
      requires Shaped(V()) && node in nodes && OnTheWay(last, node, visited)
      ensures Depth(V(), node) == visited + 1
      ensures node.left != null ==> node.left in nodes && OnTheWay(node, node.left, visited + 1)
      ensures node.right != null ==> node.right in nodes && OnTheWay(node, node.right, visited + 1)
    {
      Around(V(), node);
      DepthBelow(V(), node);
    }

    lemma FewVisited(last: Node?, node: Node?, visited: nat)
      requires Sound(V(), Level, null) && (node != null ==> node in nodes) && OnTheWay(last, node, visited)
      ensures Logarithmic(|order|, visited)
    {
      if last != null { NoDeeper(V(), last, visited); }
    }

    method Find(key: int) returns (node: Node?, ghost visited: nat)
      requires Valid()
      ensures node != null ==> node in nodes && node.key == key
      ensures node == null ==> forall n :: n in order ==> n.key != key
      ensures Logarithmic(size, visited)
    {
      node, visited := root, 0;
      ghost var lo, hi := 0, |order|;
      ghost var last: Node? := null;
      while node != null && node.key != key
        invariant 0 <= lo <= hi <= |order|
        invariant node != null ==> node in nodes && node in span && span[node].lo == lo && span[node].hi == hi
        invariant OnTheWay(last, node, visited)
        invariant node == null ==> lo == hi
        invariant forall i :: 0 <= i < lo ==> order[i].key < key
        invariant forall i :: hi <= i < |order| ==> order[i].key > key
        decreases hi - lo
      {
        Around(V(), node);
        StepDown(last, node, visited);
        last, visited := node, visited + 1;
        if key < node.key {
          hi := span[node].at;
          node := node.left;
        } else {
          lo := span[node].at + 1;
          node := node.right;
        }
      }
      FewVisited(last, node, visited);
      if node != null {
        StepDown(last, node, visited);
        visited := visited + 1;
        NoDeeper(V(), node, visited);
      }
    }

    method FindLargestNotAbove(key: int) returns (found: Node?, ghost visited: nat)
      requires Valid()
      ensures found != null ==> found in nodes && found.key <= key
      ensures found != null ==> forall n :: n in order && n.key <= key ==> n.key <= found.key
      ensures found == null ==> forall n :: n in order ==> n.key > key
      ensures Logarithmic(size, visited)
    {
      var candidate: Node? := null;
      var node := root;
      visited := 0;
      ghost var lo, hi := 0, |order|;
      ghost var last: Node? := null;
      while node != null
        invariant 0 <= lo <= hi <= |order|
        invariant node != null ==> node in nodes && node in span && span[node].lo == lo && span[node].hi == hi
        invariant OnTheWay(last, node, visited)
        invariant node == null ==> lo == hi
        invariant candidate == null ==> lo == 0
        invariant candidate != null ==>
          lo > 0 && candidate in nodes && candidate == order[lo - 1] && candidate.key < key
        invariant forall i :: hi <= i < |order| ==> order[i].key > key
        decreases hi - lo
      {
        Around(V(), node);
        StepDown(last, node, visited);
        last, visited := node, visited + 1;
        if key == node.key {
          NoDeeper(V(), node, visited);
          return node, visited;
        }
        if key < node.key {
          hi := span[node].at;
          node := node.left;
        } else {
          lo := span[node].at + 1;
          candidate := node;
          node := node.right;
        }
      }
      FewVisited(last, node, visited);
      return candidate, visited;
    }

    method Leftmost(top: Node) returns (node: Node)
      requires Shaped(V()) && top in nodes
      ensures node in nodes && node in span && top in span
      ensures span[node].lo == span[node].at == span[top].lo && span[node].hi <= span[top].hi
    {
      node := top;
      Around(V(), node);
      while node.left != null
        invariant node in nodes && node in span && span[node].lo == span[top].lo && span[node].hi <= span[top].hi
        invariant Placed(V(), node)
        decreases span[node].hi - span[node].lo
      {
        node := node.left;
        Around(V(), node);
      }
    }

    /** The next node in the order, or null for the last one. */
    method Successor(start: Node) returns (next: Node?)
      requires Shaped(V()) && start in nodes
      ensures start in span && 0 <= span[start].at < |order|
      ensures next == if span[start].at + 1 < |order| then order[span[start].at + 1] else null
      ensures start.right != null ==>
        next != null && next in span && span[next].lo == span[start].at + 1 && span[next].hi <= span[start].hi
    {
      Around(V(), start);
      if start.right != null {
        next := Leftmost(start.right);
        Around(V(), next);
      } else {
        var node := start;
        next := node.parent;
        while next != null && node == next.right
          invariant node in nodes && Placed(V(), node) && next == node.parent && span[node].hi == span[start].at + 1
          decreases |order| - (span[node].hi - span[node].lo)
        {
          node := next;
          Around(V(), node);
          next := node.parent;
        }
        if next != null { Around(V(), next); }
      }
    }

    method Rightmost(top: Node) returns (node: Node)
      requires Shaped(V()) && top in nodes
      ensures node in nodes && node in span && top in span && span[node].hi == span[node].at + 1 == span[top].hi
    {
      node := top;
      Around(V(), node);
      while node.right != null
        invariant node in nodes && node in span && span[node].hi == span[top].hi
        invariant Placed(V(), node)
        decreases span[node].hi - span[node].lo
      {
        node := node.right;
        Around(V(), node);
      }
    }

    /** The previous node in the order, or null for the first one. */
    method Predecessor(start: Node) returns (previous: Node?)
      requires Shaped(V()) && start in nodes
      ensures start in span && 0 <= span[start].at < |order|
      ensures previous == if span[start].at > 0 then order[span[start].at - 1] else null
    {
      Around(V(), start);
      if start.left != null {
        previous := Rightmost(start.left);
        Around(V(), previous);
      } else {
        var node := start;
        previous := node.parent;
        while previous != null && node == previous.left
          invariant node in nodes && Placed(V(), node) && previous == node.parent && span[node].lo == span[start].at
          decreases |order| - (span[node].hi - span[node].lo)
        {
          node := previous;
          Around(V(), node);
          previous := node.parent;
        }
        if previous != null { Around(V(), previous); }
      }
    }

    // ---------------------------------------------------------------- links and colours

    method SetColor(n: Node, c: Color)
      requires n in nodes
      modifies n`color
      ensures Cells(nodes) == PaintCell(old(Cells(nodes)), n, c)
    {
      n.color := c;
    }

    /** Makes `p`, or the root if `p` is null, point at `y` where it pointed at `x`. */
    method Redirect(p: Node?, x: Node, y: Node?)
      modifies p, `root
      ensures p == null ==> root == y
      ensures p != null ==> root == old(root) && p.Snapshot() == Redirected(old(p.Snapshot()), x, y)
    {
      if p == null {
        root := y;
      } else if p.left == x {
        p.left := y;
      } else {
        p.right := y;
      }
    }

    method Adopt(c: Node?, p: Node?)
      modifies c
      ensures c != null ==> c.Snapshot() == old(c.Snapshot()).(parent := p)
    {
      if c != null {
        c.parent := p;
      }
    }

    method RotateLeft(x: Node)
      requires Turnable(Cells(nodes), x) && x in span && x.right in span
      modifies nodes, `root, `span
      ensures Cells(nodes) == RotatedHeap(old(Cells(nodes)), x)
      ensures root == RotatedRoot(old(Cells(nodes)), old(root), x) && span == RotatedSpan(old(span), x, old(x.right))
    {
      ghost var h := Cells(nodes);
      var pivot: Node := x.right;
      var parent := x.parent;
      assert x in nodes && pivot in nodes && (pivot.left != null ==> pivot.left in nodes)
        && (parent != null ==> parent in nodes);
      x.right := pivot.left;
      Adopt(x.right, x);
      pivot.left := x;
      x.parent := pivot;
      pivot.parent := parent;
      Redirect(parent, x, pivot);
      span := RotatedSpan(span, x, pivot);
      IsRotatedHeap(h, Cells(nodes), x);
    }

    method RotateRight(x: Node)
      requires TurnableRight(Cells(nodes), x) && x in span && x.left in span
      modifies nodes, `root, `span
      ensures Cells(nodes) == RotatedRightHeap(old(Cells(nodes)), x)
      ensures root == RotatedRightRoot(old(Cells(nodes)), old(root), x)
        && span == RotatedRightSpan(old(span), x, old(x.left))
    {
      ghost var h := Cells(nodes);
      var pivot: Node := x.left;
      var parent := x.parent;
      assert x in nodes && pivot in nodes && (pivot.right != null ==> pivot.right in nodes)
        && (parent != null ==> parent in nodes);
      x.left := pivot.right;
      Adopt(x.left, x);
      pivot.right := x;
      x.parent := pivot;
      pivot.parent := parent;
      Redirect(parent, x, pivot);
      span := RotatedRightSpan(span, x, pivot);
      IsRotatedRightHeap(h, Cells(nodes), x);
    }

    // ---------------------------------------------------------------- fixup steps

    method PaintPushed(g: Node, p: Node, u: Node)
      requires g in nodes && p in nodes && u in nodes
      modifies nodes`color
      ensures Cells(nodes) == PushPaint(old(Cells(nodes)), g, p, u)
    {
      SetColor(p, Black);
      SetColor(u, Black);
      SetColor(g, Red);
    }

    /** Red uncle: parent and uncle turn black, the grandparent red. */
    method PushUpRed(g: Node, p: Node, u: Node)
      requires g in nodes && p in nodes && u in nodes && p in black && u in black
      modifies nodes`color, `black
      ensures V() == PushUp(old(V()), g, p, u)
    {
      black := black[p := black[p] + 1][u := black[u] + 1];
      PaintPushed(g, p, u);
    }

    method PaintRaised(x: Node, y: Node)
      requires x in nodes && y in nodes
      modifies nodes`color
      ensures Cells(nodes) == RaisePaint(old(Cells(nodes)), x, y)
    {
      SetColor(y, Black);
      SetColor(x, Red);
    }

    /** The red right child of `x` turns black, `x` red, and the child is rotated above `x`. */
    method RaiseRightChild(x: Node)
      requires Turnable(Cells(nodes), x) && BlackOverRed(V(), x)
      modifies nodes, `root, `span, `black
      ensures V() == Raise(old(V()), x)
    {
      var y: Node := x.right;
      RaiseTurnable(Cells(nodes), x, y);
      black := RaisedBlack(black, x, y);
      PaintRaised(x, y);
      RotateLeft(x);
    }

    method RaiseLeftChild(x: Node)
      requires TurnableRight(Cells(nodes), x) && BlackOverRedLeft(V(), x)
      modifies nodes, `root, `span, `black
      ensures V() == RaiseRight(old(V()), x)
    {
      var y: Node := x.left;
      RaiseTurnable(Cells(nodes), x, y);
      black := RaisedBlack(black, x, y);
      PaintRaised(x, y);
      RotateRight(x);
    }

    /** One round of the loop in insert_fixups. */
    method FixRound(x: Node) returns (node: Node, ghost rotations: nat)
      requires RoundReady(V(), x)
      modifies nodes, `root, `span, `black
      ensures (V(), node) == InsertRound(old(V()), x) && rotations == InsertRotations(old(V()), x)
    {
      node, rotations := x, 0;
      var grandParent := node.parent.parent;
      if grandParent.right == node.parent {
        var uncle := grandParent.left;
        if uncle != null && uncle.color == Red {
          PushUpRed(grandParent, node.parent, uncle);
          node := grandParent;
        } else {
          if node.parent.left == node {
            node := node.parent;
            RotateRight(node);
            rotations := 1;
          }
          RaiseRightChild(grandParent);
          rotations := rotations + 1;
        }
      } else {
        var uncle := grandParent.right;
        if uncle != null && uncle.color == Red {
          PushUpRed(grandParent, node.parent, uncle);
          node := grandParent;
        } else {
          if node.parent.right == node {
            node := node.parent;
            RotateLeft(node);
            rotations := 1;
          }
          RaiseLeftChild(grandParent);
          rotations := rotations + 1;
        }
      }
    }

    method FixInsertRound(x: Node) returns (node: Node, ghost rotations: nat)
      requires Troubled(V(), x) && x in nodes && x.parent != null && x.parent.color == Red
      modifies nodes, `root, `span, `black
      ensures Troubled(V(), node) && node in nodes && 0 <= Rounds(V(), node) < old(Rounds(V(), x))
      ensures old(AtFront(V())) ==> AtFront(V())
      ensures rotations <= 2 && old(Depth(V(), x)) >= 3
      ensures if rotations == 0 then Depth(V(), node) + 2 == old(Depth(V(), x)) else !IsRed(V().heap, node.parent)
    {
      Around(V(), x);
      InsertRoundSound(V(), x);
      InsertRoundWork(V(), x);
      if AtFront(V()) { InsertRoundAtFront(V(), x); }
      node, rotations := FixRound(x);
    }

    method PaintPaid(node: Node)
      requires node in nodes && node in black
      modifies nodes`color, `black
      ensures V() == Paid(old(V()), node)
    {
      black := Paid(V(), node).black;
      SetColor(node, Black);
    }

    /** The loop of insert_fixups. */
    method PushTroubleUp(inserted: Node) returns (node: Node, ghost rounds: nat, ghost rotations: nat)
      requires Troubled(V(), inserted)
      modifies nodes, `root, `span, `black
      ensures Troubled(V(), node) && !IsRed(V().heap, node.parent)
      ensures old(AtFront(V())) ==> AtFront(V())
      ensures 2 * rounds < old(Depth(V(), inserted)) && rotations <= 2
    {
      node, rounds, rotations := inserted, 0, 0;
      while node.parent != null && node.parent.color == Red
        invariant Troubled(V(), node) && node in nodes
        invariant old(AtFront(V())) ==> AtFront(V())
        invariant if rotations == 0 then 2 * rounds + Depth(V(), node) == old(Depth(V(), inserted))
          else rotations <= 2 && 2 * rounds < old(Depth(V(), inserted)) && !IsRed(V().heap, node.parent)
        decreases Rounds(V(), node)
      {
        node, rotations := FixInsertRound(node);
        rounds := rounds + 1;
      }
    }

    method InsertFixups(inserted: Node) returns (ghost rounds: nat, ghost rotations: nat)
      requires Troubled(V(), inserted)
      modifies nodes, `root, `span, `black
      ensures Sound(V(), Level, null)
      ensures old(AtFront(V())) ==> AtFront(V())
      ensures 2 * rounds < old(Depth(V(), inserted)) && rotations <= 2
    {
      var node;
      node, rounds, rotations := PushTroubleUp(inserted);
      Around(V(), node);
      BlackenedSound(V(), node);
      PaintPaid(root);
    }

    method SinkSibling(p: Node, s: Node)
      requires p in nodes && s in nodes && p in black && s in black && black[p] > 0 && black[s] > 0
      modifies nodes`color, `black
      ensures V() == Paint(old(V()), s, Red).(black := old(black)[s := old(black)[s] - 1][p := old(black)[p] - 1])
    {
      SetColor(s, Red);
      black := black[s := black[s] - 1][p := black[p] - 1];
    }

    method PaintSettled(p: Node, s: Node, r: Node)
      requires p in nodes && s in nodes && r in nodes
      modifies nodes`color
      ensures Cells(nodes) == SettlePaint(old(Cells(nodes)), p, s, r)
    {
      SetColor(s, p.color);
      SetColor(p, Black);
      SetColor(r, Black);
    }

    method SettleRightSibling(p: Node)
      requires RedNephew(V(), p) && Turnable(Cells(nodes), p)
      modifies nodes, `root, `span, `black
      ensures V() == Settle(old(V()), p)
    {
      var s: Node := p.right;
      var r: Node := s.right;
      SettleTurnable(Cells(nodes), p, s, r);
      black := SettledBlack(black, p, s, r);
      PaintSettled(p, s, r);
      RotateLeft(p);
    }

    method SettleLeftSibling(p: Node)
      requires RedNephewLeft(V(), p) && TurnableRight(Cells(nodes), p)
      modifies nodes, `root, `span, `black
      ensures V() == SettleRight(old(V()), p)
    {
      var s: Node := p.left;
      var r: Node := s.left;
      SettleTurnable(Cells(nodes), p, s, r);
      black := SettledBlack(black, p, s, r);
      PaintSettled(p, s, r);
      RotateRight(p);
    }

    method FinishLeftRound(p: Node) returns (node: Node?, ghost rotations: nat)
      requires FinishReadyLeft(V(), p)
      modifies nodes, `root, `span, `black
      ensures (V(), node) == FinishLeft(old(V()), p) && rotations == FinishLeftRotations(old(V()), p)
    {
      rotations := 0;
      var sibling: Node := p.right;
      if (sibling.left == null || sibling.left.color == Black)
        && (sibling.right == null || sibling.right.color == Black) {
        SinkSibling(p, sibling);
        node := p;
      } else {
        if sibling.right == null || sibling.right.color == Black {
          RaiseLeftChild(sibling);
          rotations := 1;
        }
        SettleRightSibling(p);
        rotations := rotations + 1;
        node := root;
      }
    }

    /** One round of the loop in remove_fixups, for a left child of `p`. */
    method FixLeftRound(p: Node) returns (node: Node?, ghost rotations: nat)
      requires RoundReadyLeft(V(), p)
      modifies nodes, `root, `span, `black
      ensures (V(), node) == RemoveRoundLeft(old(V()), p) && rotations == LeftRotations(old(V()), p)
    {
      ghost var first := 0;
      if p.right.color == Red {
        RaiseRightChild(p);
        first := 1;
      }
      node, rotations := FinishLeftRound(p);
      rotations := first + rotations;
    }

    method FinishRightRound(p: Node) returns (node: Node?, ghost rotations: nat)
      requires FinishReadyRight(V(), p)
      modifies nodes, `root, `span, `black
      ensures (V(), node) == FinishRight(old(V()), p) && rotations == FinishRightRotations(old(V()), p)
    {
      rotations := 0;
      var sibling: Node := p.left;
      if (sibling.left == null || sibling.left.color == Black)
        && (sibling.right == null || sibling.right.color == Black) {
        SinkSibling(p, sibling);
        node := p;
      } else {
        if sibling.left == null || sibling.left.color == Black {
          RaiseRightChild(sibling);
          rotations := 1;
        }
        SettleLeftSibling(p);
        rotations := rotations + 1;
        node := root;
      }
    }

    /** One round of the loop in remove_fixups, for a right child of `p`. */
    method FixRightRound(p: Node) returns (node: Node?, ghost rotations: nat)
      requires RoundReadyRight(V(), p)
      modifies nodes, `root, `span, `black
      ensures (V(), node) == RemoveRoundRight(old(V()), p) && rotations == RightRotations(old(V()), p)
    {
      ghost var first := 0;
      if p.left.color == Red {
        RaiseLeftChild(p);
        first := 1;
      }
      node, rotations := FinishRightRound(p);
      rotations := first + rotations;
    }

    method FixRemovalRound(node: Node?, parent: Node) returns (next: Node?, ghost rotations: nat)
      requires Owing(V(), node, parent) && StillOwing(V(), node)
      modifies nodes, `root, `span, `black
      ensures Advanced(old(V()), node, parent, V(), next) && FewRotations(old(V()), parent, V(), next, rotations)
    {
      if parent.left == node {
        RemoveRoundLeftSound(V(), node, parent);
        LeftRoundWork(V(), node, parent);
        next, rotations := FixLeftRound(parent);
      } else {
        RemoveRoundRightSound(V(), node, parent);
        RightRoundWork(V(), node, parent);
        next, rotations := FixRightRound(parent);
      }
    }

    method RemoveFixups(start: Node?, startParent: Node?) returns (ghost rounds: nat, ghost rotations: nat)
      requires Owing(V(), start, startParent)
      modifies nodes, `root, `span, `black
      ensures Sound(V(), Level, null)
      ensures rounds <= old(DepthOf(V(), startParent)) && rotations <= 3
    {
      var node, parent := start, startParent;
      rounds, rotations := 0, 0;
      while node != root && (node == null || node.color == Black)
        invariant Owing(V(), node, parent)
        invariant if rotations == 0 then rounds + DepthOf(V(), parent) == old(DepthOf(V(), startParent))
          else rotations <= 3 && rounds <= old(DepthOf(V(), startParent)) && !StillOwing(V(), node)
        decreases RoundsLeft(V(), node, parent)
      {
        DepthBelow(V(), parent);
        node, rotations := FixRemovalRound(node, parent);
        parent := node.parent;
        DepthBelow(V(), node);
        rounds := rounds + 1;
      }
      PaidSound(V(), node, parent);
      PaintPaid(node);
    }

    // ---------------------------------------------------------------- remove's relinking

    /** The node `x` and its successor `y`, its right child, trade places. */
    method RelinkNear(x: Node, y: Node)
      requires Relinkable(Cells(nodes), x, y) && x.right == y
      modifies nodes, `root
      ensures Cells(nodes) == ExchangeHeap(old(Cells(nodes)), x, y)
      ensures root == if old(x.parent) == null then y else old(root)
    {
      ghost var h := Cells(nodes);
      assert x in nodes && y in nodes && x.left in nodes && (x.parent != null ==> x.parent in nodes)
        && (y.right != null ==> y.right in nodes);
      Adopt(x.left, y);
      Redirect(x.parent, x, y);
      Adopt(y.right, x);
      y.parent := x.parent;
      x.parent := y;
      x.left, y.left := y.left, x.left;
      x.right := y.right;
      y.right := x;
      x.color, y.color := y.color, x.color;
      IsExchangedNear(h, Cells(nodes), x, y);
    }

    method SwapCells(x: Node, y: Node)
      modifies x, y
      ensures x.Snapshot() == old(y.Snapshot()) && y.Snapshot() == old(x.Snapshot())
    {
      x.parent, y.parent := y.parent, x.parent;
      x.left, y.left := y.left, x.left;
      x.right, y.right := y.right, x.right;
      x.color, y.color := y.color, x.color;
    }

    method RelinkFar(x: Node, y: Node)
      requires Relinkable(Cells(nodes), x, y) && x.right != y
      modifies nodes, `root
      ensures Cells(nodes) == ExchangeHeap(old(Cells(nodes)), x, y)
      ensures root == if old(x.parent) == null then y else old(root)
    {
      ghost var h := Cells(nodes);
      assert x in nodes && y in nodes && x.left in nodes && x.right in nodes && y.parent in nodes
        && (x.parent != null ==> x.parent in nodes) && (y.right != null ==> y.right in nodes);
      Adopt(x.left, y);
      Adopt(x.right, y);
      Redirect(x.parent, x, y);
      Adopt(y.right, x);
      Redirect(y.parent, y, x);
      SwapCells(x, y);
      IsExchangedFar(h, Cells(nodes), x, y);
    }

    // ---------------------------------------------------------------- insert

    /** The place for a new key: after everything not above it. */
    method FindPlace(key: int) returns (parent: Node?, ghost k: nat, ghost visited: nat)
      requires Valid()
      ensures k <= |order| && (forall i :: 0 <= i < k ==> order[i].key <= key)
      ensures forall i :: k <= i < |order| ==> key < order[i].key
      ensures parent == null <==> order == []
      ensures parent != null ==> parent in nodes && RoomAt(V(), parent, key < parent.key, k)
      ensures Logarithmic(size, visited)
    {
      parent, visited := null, 0;
      var temp := root;
      ghost var lo, hi := 0, |order|;
      while temp != null
        invariant 0 <= lo <= hi <= |order|
        invariant temp != null ==> temp in nodes && temp in span && span[temp].lo == lo && span[temp].hi == hi
        invariant temp == null ==> lo == hi
        invariant OnTheWay(parent, temp, visited)
        invariant parent == null ==> temp == root
        invariant parent != null ==> parent in nodes && parent in span && order != []
        invariant parent != null ==>
          if key < parent.key then parent.left == temp && span[parent].at == hi
          else parent.right == temp && span[parent].at + 1 == lo
        invariant forall i :: 0 <= i < lo ==> order[i].key <= key
        invariant forall i :: hi <= i < |order| ==> key < order[i].key
        decreases hi - lo
      {
        Around(V(), temp);
        StepDown(parent, temp, visited);
        parent, visited := temp, visited + 1;
        if key < temp.key {
          hi := span[temp].at;
          temp := temp.left;
        } else {
          lo := span[temp].at + 1;
          temp := temp.right;
        }
      }
      k := lo;
      FewVisited(parent, temp, visited);
    }

    method SetChild(p: Node, onLeft: bool, c: Node)
      modifies p
      ensures p.Snapshot() == if onLeft then old(p.Snapshot()).(left := c) else old(p.Snapshot()).(right := c)
    {
      if onLeft {
        p.left := c;
      } else {
        p.right := c;
      }
    }

    method LinkLeaf(node: Node, parent: Node)
      requires node !in nodes && parent in nodes && node.Snapshot() == Cell(null, null, null, Red)
      modifies parent, node
      ensures Cells(nodes + {node}) == AttachHeap(old(Cells(nodes)), node, parent, node.key < parent.key)
    {
      ghost var h := Cells(nodes);
      SetChild(parent, node.key < parent.key, node);
      node.parent := parent;
      IsAttachedHeap(h, Cells(nodes + {node}), node, parent, node.key < parent.key);
    }

    method HangLeaf(node: Node, parent: Node)
      requires HasRoom(V(), node, parent, node.key < parent.key) && node.Snapshot() == Cell(null, null, null, Red)
      modifies this, nodes, node
      ensures V() == Attach(old(V()), node, parent, node.key < parent.key) && nodes == old(nodes) + {node}
      ensures size == old(size) && minimum == old(minimum)
    {
      ghost var k := LeafPlace(V(), parent, node.key < parent.key);
      LinkLeaf(node, parent);
      span := AttachSpans(span, node, span[parent].at, k);
      nodes, order, black := nodes + {node}, With(order, node, k), black[node := 0];
    }

    method HangTroubled(node: Node, parent: Node, ghost k: nat)
      requires Sound(V(), Level, null) && node !in nodes && node.Snapshot() == Cell(null, null, null, Red)
      requires parent in nodes && RoomAt(V(), parent, node.key < parent.key, k) && k <= |order|
      modifies this, nodes, node
      ensures Troubled(V(), node) && node.parent == parent && (k == 0 ==> AtFront(V()))
      ensures Depth(V(), node) == old(Depth(V(), parent)) + 1
      ensures nodes == old(nodes) + {node} && size == old(size) && minimum == old(minimum)
      ensures order == With(old(order), node, k)
    {
      AttachTroubled(V(), node, parent, node.key < parent.key, k);
      HangLeaf(node, parent);
      assert node.Snapshot() == V().heap[node];
    }

    method InsertRoot(node: Node)
      requires order == [] && Shaped(V()) && node.Snapshot() == Cell(null, null, null, Red)
      modifies this, node
      ensures Valid() && nodes == old(nodes) + {node} && order == [node]
    {
      EmptyHeap(V());
      node.color := Black;
      root := node;
      size := 1;
      minimum := node;
      nodes, order, span, black := nodes + {node}, [node], map[node := Span(0, 0, 1)], map[node := 1];
      SingleSound(V(), node);
    }

    method InsertBelow(node: Node, parent: Node, ghost k: nat) returns (ghost rounds: nat, ghost rotations: nat)
      requires Sound(V(), Level, null) && node !in nodes && node.Snapshot() == Cell(null, null, null, Red)
      requires parent in nodes && RoomAt(V(), parent, node.key < parent.key, k) && k <= |order|
      modifies this, nodes, node
      ensures Sound(V(), Level, null) && nodes == old(nodes) + {node} && size == old(size) && minimum == old(minimum)
      ensures order == With(old(order), node, k)
      ensures k == 0 ==> AtFront(V())
      ensures 2 * rounds <= old(Depth(V(), parent)) && rotations <= 2
    {
      HangTroubled(node, parent, k);
      rounds, rotations := RepairInserted(node);
    }

    method RepairInserted(node: Node) returns (ghost rounds: nat, ghost rotations: nat)
      requires Troubled(V(), node) && node in nodes && node.parent != null && node.parent in nodes
      modifies nodes, `root, `span, `black
      ensures Sound(V(), Level, null)
      ensures old(AtFront(V())) ==> AtFront(V())
      ensures 2 * rounds < old(Depth(V(), node)) && rotations <= 2
    {
      if node.parent.parent != null {
        rounds, rotations := InsertFixups(node);
      } else {
        rounds, rotations := 0, 0;
        Around(V(), node);
        Around(V(), node.parent);
        NoTrouble(V(), node);
      }
    }

    method Insert(node: Node) returns (ghost k: nat, ghost work: Work)
      requires Valid() && node !in nodes && node.Snapshot() == Cell(null, null, null, Red)
      modifies this, nodes, node
      ensures Valid() && nodes == old(nodes) + {node}
      ensures k <= |old(order)| && order == With(old(order), node, k)
      ensures forall i :: 0 <= i < k ==> old(order)[i].key <= node.key
      ensures forall i :: k <= i < |old(order)| ==> node.key < old(order)[i].key
      ensures Logarithmic(|old(order)|, work.visited) && Logarithmic(|old(order)|, 2 * work.rounds)
        && work.rotations <= 2
    {
      var parent;
      ghost var visited;
      parent, k, visited := FindPlace(node.key);
      if parent == null {
        InsertRoot(node);
        return k, Work(visited, 0, 0);
      }
      ghost var rounds, rotations := InsertUnder(node, parent, k);
      work := Work(visited, rounds, rotations);
    }

    method InsertUnder(node: Node, parent: Node, ghost k: nat) returns (ghost rounds: nat, ghost rotations: nat)
      requires Valid() && node !in nodes && node.Snapshot() == Cell(null, null, null, Red)
      requires parent in nodes && RoomAt(V(), parent, node.key < parent.key, k) && k <= |order|
      requires forall i :: 0 <= i < k ==> order[i].key <= node.key
      requires forall i :: k <= i < |order| ==> node.key < order[i].key
      modifies this, nodes, node
      ensures Valid() && nodes == old(nodes) + {node} && order == With(old(order), node, k)
      ensures Logarithmic(|old(order)|, 2 * rounds) && rotations <= 2
    {
      ghost var v := V();
      SortedWith(order, node, k);
      rounds, rotations := InsertBelow(node, parent, k);
      CountInserted(node, k);
      NoDeeper(v, parent, 2 * rounds);
    }

    method CountInserted(node: Node, ghost k: nat)
      requires Sound(V(), Level, null) && Sorted(order) && size + 1 == |order| >= 2 && k < |order| && order[k] == node
      requires minimum == (if k == 0 then order[1] else order[0]) && (k == 0 ==> AtFront(V()))
      modifies `size, `minimum
      ensures Valid()
    {
      size := size + 1;
      FrontOrNot(V(), node, k);
      if minimum.left == node {
        minimum := node;
      }
    }

    // ---------------------------------------------------------------- remove

    method Relink(node: Node, successor: Node)
      requires Relinkable(Cells(nodes), node, successor)
      modifies nodes, `root
      ensures Cells(nodes) == ExchangeHeap(old(Cells(nodes)), node, successor)
      ensures root == if old(node.parent) == null then successor else old(root)
    {
      if successor.parent == node {
        RelinkNear(node, successor);
      } else {
        RelinkFar(node, successor);
      }
    }

    /** The node trades places with its successor, which has no left child. */
    method TradePlaces(node: Node, successor: Node)
      requires Relinkable(Cells(nodes), node, successor) && node in span && successor in span && node in black
        && successor in black
      requires root == node <==> node.parent == null
      requires root != successor
      modifies nodes, `root, `order, `span, `black
      ensures V() == Exchange(old(V()), node, successor)
    {
      Relink(node, successor);
      order := ExchangeOrder(order, node, successor);
      span := ExchangeMap(span, node, successor);
      black := ExchangeMap(black, node, successor);
    }

    method UnlinkLeaf(node: Node, child: Node?)
      requires Cuttable(Cells(nodes), node) && child == OnlyChild(Cells(nodes), node)
      modifies nodes, `root
      ensures Cells(nodes - {node}) == CutHeap(old(Cells(nodes)), node) && node.Snapshot() == old(node.Snapshot())
      ensures root == CutRoot(old(Cells(nodes)), old(root), node)
    {
      ghost var h := Cells(nodes);
      Adopt(child, node.parent);
      Redirect(node.parent, node, child);
      IsCutHeap(h, Cells(nodes - {node}), node);
    }

    method Unlink(node: Node, child: Node?, ghost w: View)
      requires Cuttable(Cells(nodes), node) && child == OnlyChild(Cells(nodes), node)
      requires w.heap == CutHeap(Cells(nodes), node) && w.root == CutRoot(Cells(nodes), root, node)
      modifies nodes, `root, `nodes, `order, `span, `black
      ensures V() == w && nodes == old(nodes) - {node} && node.Snapshot() == old(node.Snapshot())
    {
      UnlinkLeaf(node, child);
      nodes, order, span, black := nodes - {node}, w.order, w.span, w.black;
    }

    method RemoveLast(node: Node)
      requires Shaped(V()) && order == [node]
      modifies `root, `size, `nodes, `order, `span, `black
      ensures Valid() && order == [] && nodes == old(nodes) - {node} && minimum == old(minimum)
    {
      forall n | n in nodes ensures n == node { Around(V(), n); }
      root := null;
      size := 0;
      nodes, order, span, black := nodes - {node}, [], map[], map[];
    }

    /** Makes sure the node to remove has at most one child. */
    method PrepareRemoval(node: Node)
      requires Sound(V(), Level, null) && node in nodes
      modifies nodes, `root, `order, `span, `black
      ensures Sound(V(), Level, null) && AlmostLeaf(V(), node) && |order| == |old(order)|
      ensures node in old(span) && 0 <= old(span)[node].at < |old(order)|
      ensures Cut(V(), node).order == Without(old(order), old(span)[node].at)
    {
      ghost var v := V();
      Around(v, node);
      if node.left != null && node.right != null {
        var successor := Successor(node);
        Around(v, successor);
        SuccessorApart(v, node, successor);
        SuccessorPoints(v, node, successor);
        ExchangeShaped(v, node, successor);
        ExchangeColors(v, node, successor);
        TradePlaces(node, successor);
        Around(V(), node);
        ExchangeCutOrder(v, node, successor);
      }
    }

    /** Takes the node, which has at most one child, out of the tree and repairs the colours. */
    method CutOut(node: Node) returns (ghost rounds: nat, ghost rotations: nat)
      requires Sound(V(), Level, null) && AlmostLeaf(V(), node) && |order| >= 2
      modifies nodes, `root, `nodes, `order, `span, `black
      ensures Logarithmic(|old(order)|, rounds) && rotations <= 3
      ensures Sound(V(), Level, null) && order == Cut(old(V()), node).order && nodes == old(nodes) - {node}
    {
      ghost var v := V();
      var child := if node.left != null then node.left else node.right;
      if node.color == Black { CutOwing(v, node); } else { CutRed(v, node); }
      ShapedCuttable(v, node);
      CutParentDepth(v, node);
      Unlink(node, child, Cut(v, node));
      rounds, rotations := 0, 0;
      if node.color != Red {
        rounds, rotations := RemoveFixups(child, node.parent);
      }
      FewRounds(v, node.parent, rounds);
    }

    method TakeOut(node: Node) returns (ghost rounds: nat, ghost rotations: nat)
      requires Sound(V(), Level, null) && node in nodes && |order| >= 2
      modifies nodes, `root, `nodes, `order, `span, `black
      ensures Sound(V(), Level, null) && nodes == old(nodes) - {node}
      ensures node in old(span) && 0 <= old(span)[node].at < |old(order)|
      ensures order == Without(old(order), old(span)[node].at)
      ensures Logarithmic(|old(order)|, rounds) && rotations <= 3
    {
      PrepareRemoval(node);
      rounds, rotations := CutOut(node);
    }

    method Remove(node: Node) returns (ghost rounds: nat, ghost rotations: nat)
      requires Valid() && node in nodes
      modifies this, nodes
      ensures Valid() && nodes == old(nodes) - {node}
      ensures node in old(span) && 0 <= old(span)[node].at < |old(order)| && old(order)[old(span)[node].at] == node
      ensures order == Without(old(order), old(span)[node].at)
      ensures Logarithmic(|old(order)|, rounds) && rotations <= 3
    {
      Around(V(), node);
      if size == 1 {
        RemoveLast(node);
        return 0, 0;
      }
      SortedWithout(order, span[node].at);
      MoveMinimum(node);
      rounds, rotations := TakeOut(node);
      CountRemoved();
    }

    method CountRemoved()
      requires Sound(V(), Level, null) && Sorted(order) && size == |order| + 1 && (order != [] ==> minimum == order[0])
      modifies `size
      ensures Valid()
    {
      size := size - 1;
    }

    method MoveMinimum(node: Node)
      requires Shaped(V()) && node in nodes && |order| >= 2 && minimum == order[0]
      modifies `minimum
      ensures minimum == if node == order[0] then order[1] else order[0]
    {
      Around(V(), node);
      if minimum == node {
        minimum := Successor(node);
      }
    }

    // ---------------------------------------------------------------- by key

    method InsertKey(key: int) returns (node: Node, ghost k: nat, ghost work: Work)
      requires Valid()
      modifies this, nodes
      ensures Valid() && fresh(node) && node.key == key && nodes == old(nodes) + {node}
      ensures k <= |old(order)| && order == With(old(order), node, k)
      ensures forall i :: 0 <= i < k ==> old(order)[i].key <= key
      ensures forall i :: k <= i < |old(order)| ==> key < old(order)[i].key
    {
      node := new Node(key);
      k, work := Insert(node);
    }

    method RemoveKey(key: int) returns (removed: bool, ghost k: nat)
      requires Valid()
      modifies this, nodes
      ensures Valid()
      ensures removed <==> exists n :: n in old(order) && n.key == key
      ensures if removed then k < |old(order)| && old(order)[k].key == key && order == Without(old(order), k)
              else order == old(order) && nodes == old(nodes)
    {
      var node;
      ghost var visited;
      node, visited := Find(key);
      if node == null {
        return false, 0;
      }
      Around(V(), node);
      k := span[node].at;
      assert order[k] == node;
      ghost var rounds, rotations := Remove(node);
      return true, k;
    }
  }
}
