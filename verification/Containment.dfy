/** Containment: on every successful placement, what is drawn lies inside the rectangle the node was assigned, and
    every clip lies inside both that rectangle and the clip handed down. */
module Containment {
  import opened Pixels
  import opened FlexDistribution
  import opened SceneMeasure
  import opened WidthConstraint
  import opened Placement
  import opened PlacementProperties

  predicate DrawnInside(draw: Draw, box: Rect) {
    && Inside(draw.bounds, box)
    && (draw.ProgressDraw? ==> Inside(draw.track, box) && Inside(draw.fill, draw.track))
  }

  /** The pixel is clipped away unless both the box and the outer clip cover it. */
  predicate Clipped(inner: Rect, box: Rect, clip: Rect, px: int, py: int) {
    Covers(inner, px, py) ==> Covers(box, px, py) && Covers(clip, px, py)
  }

  predicate DrawContained(draw: Draw, box: Rect, clip: Rect, px: int, py: int) {
    DrawnInside(draw, box) && Clipped(draw.clip, box, clip, px, py)
  }

  /** A link's own bounds come from the text composition and may stick out; its clip may not. */
  predicate TargetContained(target: Target, box: Rect, clip: Rect, px: int, py: int) {
    (target.kind.LinkTarget? || Inside(target.bounds, box)) && Clipped(target.clip, box, clip, px, py)
  }

  predicate Contained(placed: Placed, box: Rect, clip: Rect, px: int, py: int) {
    && (forall i :: 0 <= i < |placed.draws| ==> DrawContained(placed.draws[i], box, clip, px, py))
    && (forall i :: 0 <= i < |placed.targets| ==> TargetContained(placed.targets[i], box, clip, px, py))
  }

  lemma JoinContained(first: Placed, second: Placed, box: Rect, clip: Rect, px: int, py: int)
    requires Contained(first, box, clip, px, py) && Contained(second, box, clip, px, py)
    ensures Contained(Join(first, second), box, clip, px, py)
  {
  }

  /** Containment passes from an inner rectangle and clip to outer ones. */
  lemma ContainedWider(placed: Placed, inner: Rect, innerClip: Rect, box: Rect, clip: Rect, px: int, py: int)
    requires Contained(placed, inner, innerClip, px, py)
    requires Inside(inner, box)
    requires Covers(innerClip, px, py) ==> Covers(clip, px, py)
    ensures Contained(placed, box, clip, px, py)
  {
    forall i | 0 <= i < |placed.draws| ensures DrawContained(placed.draws[i], box, clip, px, py) {
      assert DrawContained(placed.draws[i], inner, innerClip, px, py);
    }
    forall i | 0 <= i < |placed.targets| ensures TargetContained(placed.targets[i], box, clip, px, py) {
      assert TargetContained(placed.targets[i], inner, innerClip, px, py);
    }
  }

  lemma FillInside(track: Rect, fraction: real)
    requires 0 <= track.width && 0 <= track.height && 0.0 <= fraction <= 1.0
    ensures Inside(FillOf(track, fraction), track)
  {
    assert 0.0 <= track.width as real * fraction <= track.width as real;
  }

  lemma CenteredContained(node: Node, box: Rect, clip: Rect, width: int, px: int, py: int)
    requires 0 <= width <= box.width && 0 <= node.height <= box.height
    requires Intersect(clip, Rect(box.x, box.y + Half(box.height - node.height), width, node.height), node.path).Ok?
    ensures var bounds := Rect(box.x, box.y + Half(box.height - node.height), width, node.height);
      Inside(bounds, box) && Clipped(Intersect(clip, bounds, node.path).value, box, clip, px, py)
  {
    IntersectIsExact(clip, Rect(box.x, box.y + Half(box.height - node.height), width, node.height), node.path, px, py);
  }

  /** The geometry of a linear bar: its bounds and its track lie in the box. */
  lemma BarInside(node: Node, box: Rect, labelled: bool, y: int)
    requires Framed(node) && node.scene.Progress? && !node.scene.ring
    requires node.minimumWidth <= box.width && node.minimumHeight <= box.height
    requires y == box.y + Half(box.height - node.height)
    ensures Inside(Rect(box.x, y, if labelled then node.width else box.width, node.height), box)
    ensures Inside(Rect(box.x, y, node.labelWidth, node.labelHeight), box)
    ensures Inside(Rect(box.x, y + node.labelHeight + node.gap, if labelled then node.trackWidth
      else box.width, node.trackHeight), box)
  {
    assert LeafShape(node) && PixelSizes(node);
    HalfBounds(box.height - node.height);
  }

  lemma BarContained(node: Node, box: Rect, clip: Rect, px: int, py: int)
    requires Framed(node) && node.scene.Progress? && !node.scene.ring
    requires PlaceBar(node, box, clip).Ok?
    ensures Contained(PlaceBar(node, box, clip).value, box, clip, px, py)
  {
    var labelled := node.scene.caption != "";
    var y := box.y + Half(box.height - node.height);
    BarInside(node, box, labelled, y);
    var bounds := Rect(box.x, y, if labelled then node.width else box.width, node.height);
    IntersectIsExact(clip, bounds, node.path, px, py);
    var track :=
      Rect(box.x, y + node.labelHeight + node.gap, if labelled then node.trackWidth else box.width, node.trackHeight);
    assert LeafShape(node);
    FillInside(track, node.scene.fraction);
    var clipped := Intersect(clip, bounds, node.path).value;
    assert Clipped(clipped, box, clip, px, py);
    assert DrawContained(ProgressDraw(bounds, clipped, track, FillOf(track, node.scene.fraction)), box, clip, px, py);
  }

  lemma InputContained(node: Node, box: Rect, clip: Rect, px: int, py: int)
    requires Framed(node) && node.scene.TextInput?
    requires PlaceInput(node, box, clip).Ok?
    ensures Contained(PlaceInput(node, box, clip).value, box, clip, px, py)
  {
    assert LeafShape(node) && PixelSizes(node);
    CenteredContained(node, box, clip, box.width, px, py);
  }

  lemma RingContained(node: Node, box: Rect, clip: Rect, px: int, py: int)
    requires Framed(node) && node.scene.Progress?
    requires PlaceRing(node, box, clip).Ok?
    ensures Contained(PlaceRing(node, box, clip).value, box, clip, px, py)
  {
    assert LeafShape(node) && PixelSizes(node);
    CenteredContained(node, box, clip, node.width, px, py);
  }

  lemma {:induction false} LinksContained(links: seq<Link>, bounds: Rect, area: Rect, path: seq<PathStep>, box: Rect,
      clip: Rect, px: int, py: int)
    requires Covers(area, px, py) ==> Covers(box, px, py) && Covers(clip, px, py)
    requires PlaceLinks(links, bounds, area, path).Ok?
    ensures Contained(Placed([], PlaceLinks(links, bounds, area, path).value), box, clip, px, py)
  {
    if links != [] {
      LinksContained(links[1..], bounds, area, path, box, clip, px, py);
      var link := links[0].bounds;
      IntersectIsExact(area, Rect(bounds.x + link.x, bounds.y + link.y, link.width, link.height), path, px, py);
      var rest := Placed([], PlaceLinks(links[1..], bounds, area, path).value);
      var all := PlaceLinks(links, bounds, area, path).value;
      if all != rest.targets {
        JoinContained(Placed([], [all[0]]), rest, box, clip, px, py);
        assert [all[0]] + rest.targets == all;
      }
    }
  }

  lemma RichContained(node: Node, box: Rect, clip: Rect, px: int, py: int)
    requires Framed(node) && node.scene.Rich?
    requires PlaceRich(node, node.scene.rich, box, clip).Ok?
    ensures Contained(PlaceRich(node, node.scene.rich, box, clip).value, box, clip, px, py)
  {
    var bounds := Rect(box.x, box.y + Half(box.height - node.height), box.width, node.height);
    IntersectIsExact(clip, bounds, node.path, px, py);
    var clipped := Intersect(clip, bounds, node.path).value;
    assert Inside(bounds, box);
    LinksContained(node.composition.value.links, bounds, clipped, node.path, box, clip, px, py);
    JoinContained(Placed([RichDraw(bounds, clipped, node.scene.rich, node.composition.value)], []),
      Placed([], PlaceLinks(node.composition.value.links, bounds, clipped, node.path).value), box, clip, px, py);
  }

  lemma TextContained(node: Node, box: Rect, clip: Rect, px: int, py: int)
    requires Framed(node) && node.scene.Text?
    requires PlaceText(node, box, clip).Ok?
    ensures Contained(PlaceText(node, box, clip).value, box, clip, px, py)
  {
    assert LeafShape(node) && PixelSizes(node);
    IntersectIsExact(clip, box, node.path, px, py);
  }

  lemma GlyphContained(node: Node, box: Rect, clip: Rect, px: int, py: int)
    requires Framed(node)
    ensures PlaceIcon(node, "", box, clip).Ok? ==>
      forall name :: Contained(PlaceIcon(node, name, box, clip).value, box, clip, px, py)
    ensures PlaceImage(node, "", box, clip).Ok? ==>
      forall role :: Contained(PlaceImage(node, role, box, clip).value, box, clip, px, py)
  {
    assert PixelSizes(node);
    if Intersect(clip, box, node.path).Ok? { IntersectIsExact(clip, box, node.path, px, py); }
  }

  lemma IndicatorContained(m: Metrics, node: Node, box: Rect, clip: Rect, px: int, py: int)
    requires Framed(node) && node.scene.Indicator?
    requires PlaceIndicator(m, node, box, clip).Ok?
    ensures Contained(PlaceIndicator(m, node, box, clip).value, box, clip, px, py)
  {
    assert LeafShape(node) && PixelSizes(node);
    HalfBounds(box.height - node.height);
    CenteredContained(node, box, clip, node.width, px, py);
  }

  lemma LeafContained(m: Metrics, node: Node, box: Rect, clip: Rect, px: int, py: int)
    requires Framed(node) && !IsContainer(node.scene)
    requires PlaceLeaf(m, node, box, clip).Ok?
    ensures Contained(PlaceLeaf(m, node, box, clip).value, box, clip, px, py)
  {
    match node.scene
    case Text(_, _, _) => TextContained(node, box, clip, px, py);
    case TextInput(_, _, _, _) => InputContained(node, box, clip, px, py);
    case Rich(_) => RichContained(node, box, clip, px, py);
    case Icon(_, _) => GlyphContained(node, box, clip, px, py);
    case Image(_) => GlyphContained(node, box, clip, px, py);
    case Progress(_, _, ring) =>
      if ring { RingContained(node, box, clip, px, py); } else { BarContained(node, box, clip, px, py); }
    case Indicator(_) => IndicatorContained(m, node, box, clip, px, py);
    case Spacer(_, _) =>
  }

  lemma ButtonFrameInside(uniform: bool, node: Node, box: Rect, clip: Rect, px: int, py: int)
    requires Framed(node) && node.scene.Button?
    requires FrameButton(uniform, node, box, clip).Ok?
    ensures var frame := FrameButton(uniform, node, box, clip).value;
      && Inside(frame.bounds, box) && Inside(frame.content, frame.bounds)
      && (Covers(frame.clip, px, py) <==> Covers(clip, px, py) && Covers(frame.bounds, px, py))
  {
    assert PixelSizes(node) && ContainerShape(node) && PixelSizes(node.children[0]);
    var frame := FrameButton(uniform, node, box, clip).value;
    IntersectIsExact(clip, frame.bounds, node.path, px, py);
  }

  /** The containment theorem, one pixel at a time. */
  lemma {:induction false} PlaceIsContained(m: Metrics, uniform: bool, node: Node, box: Rect, clip: Rect, px: int,
      py: int)
    requires Framed(node)
    requires Place(m, uniform, node, box, clip).Ok?
    ensures Contained(Place(m, uniform, node, box, clip).value, box, clip, px, py)
    decreases node, 1, 0
  {
    if node.scene.Row? || node.scene.Column? {
      PlaceContainerStep(m, uniform, node, box, clip);
      var axis := AxisOf(node);
      var sizes := MainSizes(uniform, node, Available(box, axis), axis).value;
      MainSizesFit(uniform, node, Available(box, axis), axis);
      assert sizes[0..] == sizes;
      PlaceChildrenContained(m, uniform, node, sizes, 0, MainStart(box, axis), box, clip, px, py);
    } else if node.scene.Button? {
      PlaceButtonStep(m, uniform, node, box, clip);
      var frame := FrameButton(uniform, node, box, clip).value;
      ButtonFrameInside(uniform, node, box, clip, px, py);
      var content := Place(m, uniform, node.children[0], frame.content, frame.clip).value;
      PlaceIsContained(m, uniform, node.children[0], frame.content, frame.clip, px, py);
      InsideTransitive(frame.content, frame.bounds, box);
      ContainedWider(content, frame.content, frame.clip, box, clip, px, py);
      JoinContained(ButtonOwn(node, frame), content, box, clip, px, py);
    } else if node.scene.ActionRegion? {
      PlaceRegionStep(m, uniform, node, box, clip);
      var clipped := FrameRegion(node, box, clip).value;
      IntersectIsExact(clip, box, node.path, px, py);
      var content := Place(m, uniform, node.children[0], box, clipped).value;
      PlaceIsContained(m, uniform, node.children[0], box, clipped, px, py);
      assert PixelSizes(node);
      ContainedWider(content, box, clipped, box, clip, px, py);
      JoinContained(RegionOwn(node, box, clipped), content, box, clip, px, py);
    } else {
      LeafContained(m, node, box, clip, px, py);
    }
  }

  lemma {:induction false} PlaceChildrenContained(m: Metrics, uniform: bool, node: Node, sizes: seq<int>, index: nat,
      cursor: int,
                                                  box: Rect, clip: Rect, px: int, py: int)
    requires Framed(node) && (node.scene.Row? || node.scene.Column?)
    requires |sizes| == |node.children| && index <= |sizes| && NonNegative(sizes)
    requires MainStart(box, AxisOf(node)) <= cursor
    requires cursor + Extent(sizes[index..], node.gap) <= MainStart(box, AxisOf(node)) + Available(box, AxisOf(node))
    requires Intersect(clip, box, node.path).Ok?
    requires PlaceChildren(m, uniform, node, sizes, index, cursor, box, Intersect(clip, box, node.path).value,
      AxisOf(node)).Ok?
    ensures Contained(PlaceChildren(m, uniform, node, sizes, index, cursor, box, Intersect(clip, box, node.path).value,
      AxisOf(node)).value,
      box, clip, px, py)
    decreases node, 0, |sizes| - index
  {
    if index < |sizes| {
      var inner := Intersect(clip, box, node.path).value;
      PlaceChildrenStep(m, uniform, node, sizes, index, cursor, box, inner, AxisOf(node));
      var child := node.children[index];
      var area := ChildRect(uniform, node, child, sizes[index], cursor, box, AxisOf(node)).value;
      var next := NextCursor(node, sizes, index, cursor);
      assert PixelSizes(node);
      CursorStep(sizes, node.gap, index, cursor, MainStart(box, AxisOf(node)) + Available(box, AxisOf(node)));
      ChildRectInside(uniform, node, child, sizes[index], cursor, box, AxisOf(node));
      PlaceIsContained(m, uniform, child, area, inner, px, py);
      IntersectIsExact(clip, box, node.path, px, py);
      ContainedWider(Place(m, uniform, child, area, inner).value, area, inner, box, clip, px, py);
      PlaceChildrenContained(m, uniform, node, sizes, index + 1, next, box, clip, px, py);
      JoinContained(Place(m, uniform, child, area, inner).value,
        PlaceChildren(m, uniform, node, sizes, index + 1, next, box, inner, AxisOf(node)).value, box, clip, px, py);
    }
  }
}
