/** The fixup steps for the other hand: each is the mirror image of one in RedBlackColors. */
module RedBlackMirror {
  import opened RedBlackShape
  import opened RedBlackColors

  lemma MirrorSound(v: View, d: Deficit, x: Node?)
    requires Sound(v, d, x)
    ensures Sound(Mirror(v), MirrorDeficit(d), x)
  {
    MirrorShaped(v);
    MirrorColors(v, d, x);
  }

  lemma SoundFromMirror(v: View, d: Deficit, x: Node?)
    requires Sound(Mirror(v), MirrorDeficit(d), x)
    ensures Sound(v, d, x)
  {
    MirrorSound(Mirror(v), MirrorDeficit(d), x);
    MirrorTwice(v);
  }

  lemma PaintMirrors(h: Heap, n: Node, c: Color)
    requires n in h
    ensures MirrorHeap(PaintCell(h, n, c)) == PaintCell(MirrorHeap(h), n, c)
  {
  }

  // ---------------------------------------------------------------- insert_fixups

  ghost predicate RedOverRedLeft(v: View, x: Node) {
    && HasLeft(v, x) && x in v.black && v.heap[x].left in v.black
    && v.heap[x].color == Red && v.heap[v.heap[x].left].color == Red
    && NodeRedOk(v.heap, null, v.heap[x].left)
  }

  lemma TwistRightStep(v: View, x: Node)
    requires RedOverRedLeft(v, x) && Sound(v, Level, v.heap[x].left) && v.heap[x].parent != null
    ensures var w := RotateRight(v, x); Sound(w, Level, x) && NodeRedOk(w.heap, null, x)
  {
    var w := RotateRight(v, x);
    MirrorSound(v, Level, v.heap[x].left);
    ShapedTurnableRight(v, x);
    RotateRightMirrors(v, x);
    TwistStep(Mirror(v), x);
    SoundFromMirror(w, Level, x);
    assert NodeRedOk(Mirror(w).heap, null, x);
  }

  ghost predicate BlackOverRedLeft(v: View, x: Node) {
    && HasLeft(v, x) && x in v.black && v.heap[x].left in v.black
    && v.heap[x].color == Black && v.heap[v.heap[x].left].color == Red && v.black[x] > 0
  }

  ghost function RaiseRight(v: View, x: Node): View
    requires BlackOverRedLeft(v, x)
  {
    var y := v.heap[x].left;
    View(RotatedRightHeap(RaisePaint(v.heap, x, y), x), RotatedRightRoot(v.heap, v.root, x), v.order,
         RotatedRightSpan(v.span, x, y), RaisedBlack(v.black, x, y))
  }

  lemma RaiseHeapMirrors(h: Heap, x: Node)
    requires TurnableRight(h, x)
    ensures MirrorHeap(RotatedRightHeap(RaisePaint(h, x, h[x].left), x))
      == RotatedHeap(RaisePaint(MirrorHeap(h), x, h[x].left), x)
  {
    var y := h[x].left;
    PaintMirrors(h, y, Black);
    PaintMirrors(PaintCell(h, y, Black), x, Red);
    MirrorRotatedHeap(RaisePaint(h, x, y), x);
  }

  lemma RaiseRightMirrors(v: View, x: Node)
    requires BlackOverRedLeft(v, x) && TurnableRight(v.heap, x)
    ensures BlackOverRed(Mirror(v), x) && Mirror(RaiseRight(v, x)) == Raise(Mirror(v), x)
  {
    RaiseHeapMirrors(v.heap, x);
    MirrorRotatedSpan(v.span, |v.order|, x, v.heap[x].left);
  }

  ghost predicate RaisableRight(v: View, x: Node, d: Deficit, z: Node?) {
    && BlackOverRedLeft(v, x) && !IsRed(v.heap, v.heap[x].right)
    && d != Short(x, true) && (d.Short? ==> d.at != v.heap[x].left)
    && (z != null ==> z in v.heap && z == v.heap[v.heap[x].left].left && NodeRedOk(v.heap, null, z))
  }

  lemma RaiseRightStep(v: View, x: Node, d: Deficit, z: Node?)
    requires Sound(v, d, z) && RaisableRight(v, x, d, z)
    ensures Sound(RaiseRight(v, x), d, null)
  {
    MirrorSound(v, d, z);
    ShapedTurnableRight(v, x);
    RaiseRightMirrors(v, x);
    assert z != null ==> NodeRedOk(Mirror(v).heap, null, z);
    RaiseStep(Mirror(v), x, MirrorDeficit(d), z);
    SoundFromMirror(RaiseRight(v, x), d, null);
  }

  // ---------------------------------------------------------------- remove_fixups

  ghost predicate BlackNephewsLeft(v: View, p: Node) {
    && HasLeft(v, p) && p in v.black && v.heap[p].left in v.black
    && var s := v.heap[p].left;
    && v.heap[s].color == Black && !IsRed(v.heap, v.heap[s].left) && !IsRed(v.heap, v.heap[s].right)
    && v.black[p] > 0 && v.black[s] > 0
  }

  ghost function SinkRight(v: View, p: Node): View
    requires BlackNephewsLeft(v, p)
  {
    var s := v.heap[p].left;
    Paint(v, s, Red).(black := v.black[s := v.black[s] - 1][p := v.black[p] - 1])
  }

  lemma SinkRightMirrors(v: View, p: Node)
    requires Shaped(v) && BlackNephewsLeft(v, p)
    ensures Mirror(SinkRight(v, p)) == Sink(Mirror(v), p)
    ensures DeficitAt(Mirror(v).heap, p, Mirror(v).heap[p].parent)
      == MirrorDeficit(DeficitAt(v.heap, p, v.heap[p].parent))
  {
    PaintMirrors(v.heap, v.heap[p].left, Red);
    Around(v, p);
    if v.heap[p].parent != null { Around(v, v.heap[p].parent); }
  }

  lemma SinkRightStep(v: View, p: Node)
    requires Sound(v, Short(p, false), null) && BlackNephewsLeft(v, p)
    ensures Sound(SinkRight(v, p), DeficitAt(v.heap, p, v.heap[p].parent), p)
  {
    MirrorSound(v, Short(p, false), null);
    SinkRightMirrors(v, p);
    SinkStep(Mirror(v), p);
    SoundFromMirror(SinkRight(v, p), DeficitAt(v.heap, p, v.heap[p].parent), p);
  }

  ghost predicate RedNephewLeft(v: View, p: Node) {
    && HasLeft(v, p) && p in v.black && v.heap[p].left in v.black
    && var s := v.heap[p].left;
    && v.heap[s].color == Black && v.heap[s].left != null && IsRed(v.heap, v.heap[s].left) && v.heap[s].left in v.black
  }

  ghost function SettleRight(v: View, p: Node): View
    requires RedNephewLeft(v, p)
  {
    var s := v.heap[p].left;
    var r := v.heap[s].left;
    View(RotatedRightHeap(SettlePaint(v.heap, p, s, r), p), RotatedRightRoot(v.heap, v.root, p), v.order,
         RotatedRightSpan(v.span, p, s), SettledBlack(v.black, p, s, r))
  }

  lemma SettleHeapMirrors(h: Heap, p: Node, s: Node, r: Node)
    requires TurnableRight(h, p) && s in h && r in h
    ensures MirrorHeap(RotatedRightHeap(SettlePaint(h, p, s, r), p))
      == RotatedHeap(SettlePaint(MirrorHeap(h), p, s, r), p)
  {
    var h1 := PaintCell(h, s, h[p].color);
    var h2 := PaintCell(h1, p, Black);
    PaintMirrors(h, s, h[p].color);
    PaintMirrors(h1, p, Black);
    PaintMirrors(h2, r, Black);
    MirrorRotatedHeap(SettlePaint(h, p, s, r), p);
  }

  lemma SettleRightMirrors(v: View, p: Node)
    requires RedNephewLeft(v, p) && TurnableRight(v.heap, p)
    ensures RedNephew(Mirror(v), p) && Mirror(SettleRight(v, p)) == Settle(Mirror(v), p)
  {
    SettleHeapMirrors(v.heap, p, v.heap[p].left, v.heap[v.heap[p].left].left);
    MirrorRotatedSpan(v.span, |v.order|, p, v.heap[p].left);
  }

  lemma SettleRightStep(v: View, p: Node)
    requires Sound(v, Short(p, false), null) && RedNephewLeft(v, p)
    ensures Sound(SettleRight(v, p), Level, null)
  {
    MirrorSound(v, Short(p, false), null);
    ShapedTurnableRight(v, p);
    SettleRightMirrors(v, p);
    SettleStep(Mirror(v), p);
    SoundFromMirror(SettleRight(v, p), Level, null);
  }
}
