/** Pointer hit testing: the reversed scan over a placed plan is the innermost-wins descent of the scene tree. */
module HitTesting {
  import opened Optional
  import opened Pixels
  import opened SceneMeasure
  import opened WidthConstraint
  import opened Placement
  import opened PlacementProperties
  import opened Containment

  /** The target can act and the point is on it and not clipped away. */
  predicate Hits(target: Target, px: int, py: int) {
    && target.enabled && target.clip.width > 0 && target.clip.height > 0
    && Covers(target.bounds, px, py) && Covers(target.clip, px, py)
  }

  /** The last target hit, which was placed last and so lies innermost. */
  function LastHit(targets: seq<Target>, px: int, py: int): Option<Target> {
    if targets == [] then None
    else if Hits(targets[|targets| - 1], px, py) then Some(targets[|targets| - 1])
    else LastHit(targets[..|targets| - 1], px, py)
  }

  function Over(inner: Option<Target>, outer: Option<Target>): Option<Target> {
    if inner.Some? then inner else outer
  }

  /** A target of its own that a button or a region offers once nothing inside it is hit. */
  function OwnHit(target: Target, px: int, py: int): Option<Target> {
    if target.enabled && Covers(target.bounds, px, py) then Some(target) else None
  }

  /** The hit test by descent. The point is already known to lie in the clip; no clip is consulted again, except
      for the links of a rich text, which may overlap each other. */
  function HitTest(uniform: bool, node: Node, box: Rect, clip: Rect, px: int, py: int): Option<Target>
    decreases node, 1, 0
  {
    if node.scene.Row? || node.scene.Column? then
      var sizes := MainSizes(uniform, node, Available(box, AxisOf(node)), AxisOf(node));
      var inner := Intersect(clip, box, node.path);
      if sizes.Err? || inner.Err? then None
      else HitChild(uniform, node, sizes.value, 0, MainStart(box, AxisOf(node)), box, inner.value, px, py)
    else if node.scene.Button? then
      if |node.children| != 1 || FrameButton(uniform, node, box, clip).Err? then None
      else
        var frame := FrameButton(uniform, node, box, clip).value;
        var content := if Covers(frame.content, px, py) then
          HitTest(uniform, node.children[0], frame.content, frame.clip, px, py) else None;
        Over(content, OwnHit(ButtonOwn(node, frame).targets[0], px, py))
    else if node.scene.ActionRegion? then
      if |node.children| != 1 || FrameRegion(node, box, clip).Err? then None
      else
        var clipped := FrameRegion(node, box, clip).value;
        Over(HitTest(uniform, node.children[0], box, clipped, px, py),
          OwnHit(RegionOwn(node, box, clipped).targets[0], px, py))
    else HitLeaf(node, box, clip, px, py)
  }

  function HitLeaf(node: Node, box: Rect, clip: Rect, px: int, py: int): Option<Target> {
    if node.scene.TextInput? && PlaceInput(node, box, clip).Ok? then
      OwnHit(PlaceInput(node, box, clip).value.targets[0], px, py)
    else if node.scene.Rich? && PlaceRich(node, node.scene.rich, box, clip).Ok? then
      LastHit(PlaceRich(node, node.scene.rich, box, clip).value.targets, px, py)
    else None
  }

  /** Descends into the child whose rectangle the point is in. */
  function HitChild(uniform: bool, node: Node, sizes: seq<int>, index: nat, cursor: int, box: Rect, clip: Rect,
      px: int, py: int): Option<Target>
    requires |sizes| == |node.children| && index <= |sizes|
    decreases node, 0, |sizes| - index
  {
    if index == |sizes| then None
    else
      var area := ChildRect(uniform, node, node.children[index], sizes[index], cursor, box, AxisOf(node));
      if area.Ok? && Covers(area.value, px, py) then HitTest(uniform, node.children[index], area.value, clip, px, py)
      else HitChild(uniform, node, sizes, index + 1, NextCursor(node, sizes, index, cursor), box, clip, px, py)
  }

  /** The pointer_target scan. */
  method PointerTarget(targets: seq<Target>, px: int, py: int) returns (found: Option<Target>)
    ensures found == LastHit(targets, px, py)
  {
    var i := |targets|;
    assert targets[..i] == targets;
    while i > 0
      invariant 0 <= i <= |targets|
      invariant LastHit(targets, px, py) == LastHit(targets[..i], px, py)
      decreases i
    {
      assert targets[..i][..i - 1] == targets[..i - 1];
      i := i - 1;
      if Hits(targets[i], px, py) { return Some(targets[i]); }
    }
    return None;
  }

  /** What the scan returns: a hit target after which no other is hit, or none when nothing is hit. */
  lemma {:induction false} LastHitIsLast(targets: seq<Target>, px: int, py: int)
    ensures LastHit(targets, px, py).None? <==> forall i :: 0 <= i < |targets| ==> !Hits(targets[i], px, py)
    ensures LastHit(targets, px, py).Some? ==>
      exists i :: 0 <= i < |targets| && targets[i] == LastHit(targets, px, py).value && Hits(targets[i], px, py)
                  && forall j :: i < j < |targets| ==> !Hits(targets[j], px, py)
  {
    if targets != [] && !Hits(targets[|targets| - 1], px, py) {
      var front := targets[..|targets| - 1];
      LastHitIsLast(front, px, py);
      if LastHit(front, px, py).Some? {
        var i :| 0 <= i < |front| && front[i] == LastHit(front, px, py).value && Hits(front[i], px, py)
          && forall j :: i < j < |front| ==> !Hits(front[j], px, py);
        assert targets[i] == front[i];
        forall j | i < j < |targets| ensures !Hits(targets[j], px, py) {
          if j < |front| { assert targets[j] == front[j]; }
        }
      } else {
        forall i | 0 <= i < |targets| ensures !Hits(targets[i], px, py) {
          if i < |front| { assert targets[i] == front[i]; }
        }
      }
    }
  }

  lemma {:induction false} LastHitJoins(first: seq<Target>, second: seq<Target>, px: int, py: int)
    ensures LastHit(first + second, px, py) == Over(LastHit(second, px, py), LastHit(first, px, py))
  {
    if second == [] {
      assert first + second == first;
    } else {
      var last := |second| - 1;
      assert (first + second)[..|first| + last] == first + second[..last];
      LastHitJoins(first, second[..last], px, py);
    }
  }

  /** Nothing contained in a box is hit from outside the box or the clip. */
  lemma MissesOutside(placed: Placed, box: Rect, clip: Rect, px: int, py: int)
    requires Contained(placed, box, clip, px, py)
    requires !Covers(box, px, py) || !Covers(clip, px, py)
    ensures LastHit(placed.targets, px, py).None?
  {
    LastHitIsLast(placed.targets, px, py);
    forall i | 0 <= i < |placed.targets| ensures !Hits(placed.targets[i], px, py) {
      assert TargetContained(placed.targets[i], box, clip, px, py);
    }
  }

  function MainCoordinate(axis: Axis, px: int, py: int): int {
    if axis.Horizontal? then px else py
  }

  /** The walk along the axis: what is needed of the sizes that remain. */
  predicate Walks(node: Node, sizes: seq<int>, index: nat, cursor: int, box: Rect) {
    && |sizes| == |node.children| && index <= |sizes| && NonNegative(sizes)
    && MainStart(box, AxisOf(node)) <= cursor
    && cursor + Extent(sizes[index..], node.gap) <= MainStart(box, AxisOf(node)) + Available(box, AxisOf(node))
  }

  lemma WalkStarts(uniform: bool, node: Node, box: Rect)
    requires Framed(node) && (node.scene.Row? || node.scene.Column?)
    requires MainSizes(uniform, node, Available(box, AxisOf(node)), AxisOf(node)).Ok?
    ensures Walks(node, MainSizes(uniform, node, Available(box, AxisOf(node)), AxisOf(node)).value, 0,
      MainStart(box, AxisOf(node)), box)
  {
    var sizes := MainSizes(uniform, node, Available(box, AxisOf(node)), AxisOf(node)).value;
    MainSizesFit(uniform, node, Available(box, AxisOf(node)), AxisOf(node));
    assert sizes[0..] == sizes;
  }

  lemma WalkSteps(uniform: bool, node: Node, sizes: seq<int>, index: nat, cursor: int, box: Rect)
    requires Framed(node) && (node.scene.Row? || node.scene.Column?)
    requires Walks(node, sizes, index, cursor, box) && index < |sizes|
    ensures Walks(node, sizes, index + 1, NextCursor(node, sizes, index, cursor), box)
    ensures cursor + sizes[index] <= NextCursor(node, sizes, index, cursor)
    ensures ChildRect(uniform, node, node.children[index], sizes[index], cursor, box, AxisOf(node)).Ok? ==>
      var area := ChildRect(uniform, node, node.children[index], sizes[index], cursor, box, AxisOf(node)).value;
      Inside(area, box) && MainStart(area, AxisOf(node)) == cursor && Available(area, AxisOf(node)) == sizes[index]
  {
    assert PixelSizes(node);
    CursorStep(sizes, node.gap, index, cursor, MainStart(box, AxisOf(node)) + Available(box, AxisOf(node)));
    if ChildRect(uniform, node, node.children[index], sizes[index], cursor, box, AxisOf(node)).Ok? {
      ChildRectInside(uniform, node, node.children[index], sizes[index], cursor, box, AxisOf(node));
    }
  }

  /** Nothing among the remaining children is hit before the place where they start. */
  lemma {:induction false} NothingBefore(m: Metrics, uniform: bool, node: Node, sizes: seq<int>, index: nat,
      cursor: int,
                                         box: Rect, clip: Rect, px: int, py: int)
    requires Framed(node) && (node.scene.Row? || node.scene.Column?)
    requires Walks(node, sizes, index, cursor, box)
    requires PlaceChildren(m, uniform, node, sizes, index, cursor, box, clip, AxisOf(node)).Ok?
    requires MainCoordinate(AxisOf(node), px, py) < cursor
    ensures LastHit(PlaceChildren(m, uniform, node, sizes, index, cursor, box, clip, AxisOf(node)).value.targets, px,
      py).None?
    decreases |sizes| - index
  {
    if index < |sizes| {
      PlaceChildrenStep(m, uniform, node, sizes, index, cursor, box, clip, AxisOf(node));
      WalkSteps(uniform, node, sizes, index, cursor, box);
      var area := ChildRect(uniform, node, node.children[index], sizes[index], cursor, box, AxisOf(node)).value;
      var next := NextCursor(node, sizes, index, cursor);
      var placed := Place(m, uniform, node.children[index], area, clip).value;
      PlaceIsContained(m, uniform, node.children[index], area, clip, px, py);
      MissesOutside(placed, area, clip, px, py);
      NothingBefore(m, uniform, node, sizes, index + 1, next, box, clip, px, py);
      LastHitJoins(placed.targets,
        PlaceChildren(m, uniform, node, sizes, index + 1, next, box, clip, AxisOf(node)).value.targets, px, py);
    }
  }

  lemma OwnIsHit(target: Target, px: int, py: int)
    requires Covers(target.bounds, px, py) ==> Covers(target.clip, px, py)
    ensures LastHit([target], px, py) == OwnHit(target, px, py)
  {
    assert LastHit([target][..0], px, py) == None;
  }

  lemma LeafHit(m: Metrics, node: Node, box: Rect, clip: Rect, px: int, py: int)
    requires !IsContainer(node.scene) && Covers(clip, px, py) && PlaceLeaf(m, node, box, clip).Ok?
    ensures LastHit(PlaceLeaf(m, node, box, clip).value.targets, px, py) == HitLeaf(node, box, clip, px, py)
  {
    if node.scene.TextInput? {
      var target := PlaceInput(node, box, clip).value.targets[0];
      IntersectIsExact(clip, target.bounds, node.path, px, py);
      OwnIsHit(target, px, py);
    }
  }

  /** The hit-testing theorem: for a point in the clip and the box, the scan finds what the descent finds. */
  lemma {:induction false} ScanIsDescent(m: Metrics, uniform: bool, node: Node, box: Rect, clip: Rect, px: int, py: int)
    requires Framed(node) && Place(m, uniform, node, box, clip).Ok?
    requires Covers(box, px, py) && Covers(clip, px, py)
    ensures LastHit(Place(m, uniform, node, box, clip).value.targets, px, py) ==
      HitTest(uniform, node, box, clip, px, py)
    decreases node, 1, 0
  {
    if node.scene.Row? || node.scene.Column? {
      PlaceContainerStep(m, uniform, node, box, clip);
      WalkStarts(uniform, node, box);
      IntersectIsExact(clip, box, node.path, px, py);
      var sizes := MainSizes(uniform, node, Available(box, AxisOf(node)), AxisOf(node)).value;
      ScanIsDescentAmong(m, uniform, node, sizes, 0, MainStart(box, AxisOf(node)), box,
        Intersect(clip, box, node.path).value, px, py);
    } else if node.scene.Button? {
      PlaceButtonStep(m, uniform, node, box, clip);
      var frame := FrameButton(uniform, node, box, clip).value;
      var content := Place(m, uniform, node.children[0], frame.content, frame.clip).value;
      ButtonFrameInside(uniform, node, box, clip, px, py);
      if Covers(frame.content, px, py) {
        ScanIsDescent(m, uniform, node.children[0], frame.content, frame.clip, px, py);
      } else {
        PlaceIsContained(m, uniform, node.children[0], frame.content, frame.clip, px, py);
        MissesOutside(content, frame.content, frame.clip, px, py);
      }
      OwnIsHit(ButtonOwn(node, frame).targets[0], px, py);
      LastHitJoins(ButtonOwn(node, frame).targets, content.targets, px, py);
    } else if node.scene.ActionRegion? {
      PlaceRegionStep(m, uniform, node, box, clip);
      var clipped := FrameRegion(node, box, clip).value;
      IntersectIsExact(clip, box, node.path, px, py);
      ScanIsDescent(m, uniform, node.children[0], box, clipped, px, py);
      OwnIsHit(RegionOwn(node, box, clipped).targets[0], px, py);
      LastHitJoins(RegionOwn(node, box, clipped).targets,
        Place(m, uniform, node.children[0], box, clipped).value.targets, px, py);
    } else {
      LeafHit(m, node, box, clip, px, py);
    }
  }

  lemma {:induction false} ScanIsDescentAmong(m: Metrics, uniform: bool, node: Node, sizes: seq<int>, index: nat,
      cursor: int,
                                              box: Rect, clip: Rect, px: int, py: int)
    requires Framed(node) && (node.scene.Row? || node.scene.Column?)
    requires Walks(node, sizes, index, cursor, box) && Covers(clip, px, py)
    requires PlaceChildren(m, uniform, node, sizes, index, cursor, box, clip, AxisOf(node)).Ok?
    ensures LastHit(PlaceChildren(m, uniform, node, sizes, index, cursor, box, clip, AxisOf(node)).value.targets, px,
      py)
      == HitChild(uniform, node, sizes, index, cursor, box, clip, px, py)
    decreases node, 0, |sizes| - index
  {
    if index < |sizes| {
      PlaceChildrenStep(m, uniform, node, sizes, index, cursor, box, clip, AxisOf(node));
      WalkSteps(uniform, node, sizes, index, cursor, box);
      var child := node.children[index];
      var area := ChildRect(uniform, node, child, sizes[index], cursor, box, AxisOf(node)).value;
      var next := NextCursor(node, sizes, index, cursor);
      var placed := Place(m, uniform, child, area, clip).value;
      var rest := PlaceChildren(m, uniform, node, sizes, index + 1, next, box, clip, AxisOf(node)).value;
      LastHitJoins(placed.targets, rest.targets, px, py);
      if Covers(area, px, py) {
        ScanIsDescent(m, uniform, child, area, clip, px, py);
        NothingBefore(m, uniform, node, sizes, index + 1, next, box, clip, px, py);
      } else {
        PlaceIsContained(m, uniform, child, area, clip, px, py);
        MissesOutside(placed, area, clip, px, py);
        ScanIsDescentAmong(m, uniform, node, sizes, index + 1, next, box, clip, px, py);
      }
    }
  }

  /** Off the box or the clip nothing is hit at all. */
  lemma NothingHitOutside(m: Metrics, uniform: bool, node: Node, box: Rect, clip: Rect, px: int, py: int)
    requires Framed(node) && Place(m, uniform, node, box, clip).Ok?
    requires !Covers(box, px, py) || !Covers(clip, px, py)
    ensures LastHit(Place(m, uniform, node, box, clip).value.targets, px, py).None?
  {
    PlaceIsContained(m, uniform, node, box, clip, px, py);
    MissesOutside(Place(m, uniform, node, box, clip).value, box, clip, px, py);
  }

  /** The descent passes over a child the point is not in. */
  lemma HitChildStep(uniform: bool, node: Node, sizes: seq<int>, index: nat, box: Rect, clip: Rect, px: int, py: int)
    requires |sizes| == |node.children| && index + 1 < |sizes|
    requires var area := AreaOf(uniform, node, sizes, box, AxisOf(node), index);
      area.Ok? ==> !Covers(area.value, px, py)
    ensures var start := MainStart(box, AxisOf(node));
      HitChild(uniform, node, sizes, index, Cursor(start, sizes, node.gap, index), box, clip, px, py)
        == HitChild(uniform, node, sizes, index + 1, Cursor(start, sizes, node.gap, index + 1), box, clip, px, py)
  {
  }

  /** Sibling order does not matter: whichever child the point is in decides, wherever it stands in the row. */
  lemma {:induction false} AnyChildDecides(uniform: bool, node: Node, sizes: seq<int>, index: nat, box: Rect,
      clip: Rect, px: int, py: int, i: nat)
    requires Framed(node) && |sizes| == |node.children| && NonNegative(sizes) && index <= i < |sizes|
    requires AreaOf(uniform, node, sizes, box, AxisOf(node), i).Ok?
    requires Covers(AreaOf(uniform, node, sizes, box, AxisOf(node), i).value, px, py)
    ensures var cursor := Cursor(MainStart(box, AxisOf(node)), sizes, node.gap, index);
      HitChild(uniform, node, sizes, index, cursor, box, clip, px, py)
        == HitTest(uniform, node.children[i], AreaOf(uniform, node, sizes, box, AxisOf(node), i).value, clip, px, py)
    decreases i - index
  {
    if index < i {
      if AreaOf(uniform, node, sizes, box, AxisOf(node), index).Ok? {
        SiblingsAreApart(uniform, node, sizes, box, AxisOf(node), index, i);
      }
      HitChildStep(uniform, node, sizes, index, box, clip, px, py);
      AnyChildDecides(uniform, node, sizes, index + 1, box, clip, px, py, i);
    }
  }
}
