/** When placing succeeds: what each kind of node needs of the rectangle it is given. */
module PlacementConditions {
  import opened Optional
  import opened Pixels
  import opened FlexDistribution
  import opened SceneMeasure
  import opened WidthConstraint
  import opened Placement
  import opened PlacementProperties
  import opened PlacementGeometry

  // ---- Leaves ----

  /** The box holds what the leaf needs. Icons, images and indicators do not shrink, a text only in width. */
  predicate LeafFits(node: Node, box: Rect) {
    match node.scene
    case Icon(_, _) => node.width <= box.width && node.height <= box.height
    case Image(_) => node.width <= box.width && node.height <= box.height
    case Indicator(_) => node.width <= box.width && node.height <= box.height
    case Spacer(_, _) => true
    case _ => node.minimumWidth <= box.width && node.minimumHeight <= box.height
  }

  lemma IntersectReaches(clip: Rect, box: Rect, path: seq<PathStep>)
    requires Reachable(clip) && Reachable(box)
    ensures Intersect(clip, box, path).Ok? && Reachable(Intersect(clip, box, path).value)
  {
  }

  lemma CentredReaches(node: Node, box: Rect, clip: Rect, width: int)
    requires Reachable(box) && Reachable(clip) && 0 <= node.height <= box.height && 0 <= width <= box.width
    ensures CenteredY(node, box).Ok? && box.y <= CenteredY(node, box).value
    ensures CenteredY(node, box).value + node.height <= box.y + box.height
    ensures Intersect(clip, Rect(box.x, CenteredY(node, box).value, width, node.height), node.path).Ok?
  {
  }

  /** Within reach, a leaf other than a rich text is placed exactly if the box holds what it needs. */
  lemma LeafIsPlacedIff(m: Metrics, node: Node, box: Rect, clip: Rect)
    requires Framed(node) && !IsContainer(node.scene) && !node.scene.Rich? && Reachable(box) && Reachable(clip)
    ensures PlaceLeaf(m, node, box, clip).Ok? <==> LeafFits(node, box)
  {
    assert PixelSizes(node) && LeafShape(node);
    if LeafFits(node, box) && !node.scene.Spacer? {
      IntersectReaches(clip, box, node.path);
      CentredReaches(node, box, clip, box.width);
      if node.width <= box.width { CentredReaches(node, box, clip, node.width); }
    }
  }

  // ---- Rich texts ----

  /** Wherever in the box the text stands, its links are within reach. */
  predicate LinksReach(links: seq<Link>, box: Rect) {
    forall i :: 0 <= i < |links| ==>
      && Reachable(Shifted(links[i].bounds, box.x, box.y + box.height))
      && 0 <= links[i].bounds.x && 0 <= links[i].bounds.y
  }

  lemma {:induction false} LinksArePlaced(links: seq<Link>, bounds: Rect, clip: Rect, path: seq<PathStep>, box: Rect)
    requires LinksReach(links, box) && Reachable(clip) && Reachable(box)
    requires bounds.x == box.x && 0 <= bounds.y <= box.y + box.height
    ensures PlaceLinks(links, bounds, clip, path).Ok?
    decreases links
  {
    if links != [] {
      assert Reachable(Shifted(links[0].bounds, box.x, box.y + box.height));
      IntersectReaches(clip, Shifted(links[0].bounds, bounds.x, bounds.y), path);
      LinksArePlaced(links[1..], bounds, clip, path, box);
    }
  }

  /** A rich text is placed exactly if the box has its least width and the height it was composed to. */
  lemma RichIsPlacedIff(m: Metrics, node: Node, box: Rect, clip: Rect)
    requires Framed(node) && node.scene.Rich? && Reachable(box) && Reachable(clip)
    requires node.composition.Some? ==> LinksReach(node.composition.value.links, box)
    ensures PlaceLeaf(m, node, box, clip).Ok? <==> node.minimumWidth <= box.width && node.height <= box.height
  {
    assert PixelSizes(node) && LeafShape(node);
    if node.minimumWidth <= box.width && node.height <= box.height {
      CentredReaches(node, box, clip, box.width);
      var bounds := Rect(box.x, CenteredY(node, box).value, box.width, node.height);
      IntersectReaches(clip, bounds, node.path);
      LinksArePlaced(node.composition.value.links, bounds, Intersect(clip, bounds, node.path).value, node.path, box);
    }
  }

  // ---- Buttons and regions ----

  predicate ButtonFits(uniform: bool, node: Node, box: Rect) {
    && node.minimumWidth <= node.width && node.minimumWidth <= box.width && node.minimumHeight <= box.height
    && (uniform || node.minimumHeight <= node.height)
  }

  lemma MiddleReaches(from: int, space: int, size: int, path: seq<PathStep>)
    requires 0 <= from && 0 <= size <= space && from + space <= INT_MAX
    ensures CheckedAdd(from, Half(space - size), path).Ok?
    ensures from <= from + Half(space - size) && from + Half(space - size) + size <= from + space
  {
  }

  /** Within a button that fits, its content is within reach. */
  lemma ContentReaches(node: Node, bounds: Rect)
    requires |node.children| == 1 && Reachable(bounds) && PixelSizes(node) && PixelSizes(node.children[0])
    requires 2 * node.padding <= bounds.width && 2 * node.padding <= bounds.height
    ensures FrameContent(node, bounds).Ok?
  {
    var child := node.children[0];
    var width, height := bounds.width - 2 * node.padding, bounds.height - 2 * node.padding;
    MiddleReaches(bounds.x + node.padding, width, Min(child.width, width), child.path);
    MiddleReaches(bounds.y + node.padding, height, Min(child.height, height), child.path);
  }

  /** The rectangle of a button: its size cut to the box, or the box's height in an action menu. */
  predicate ButtonBounds(uniform: bool, node: Node, box: Rect, bounds: Rect) {
    var height := if uniform then box.height else Min(node.height, box.height);
    && bounds.x == box.x && bounds.width == Min(node.width, box.width) && bounds.height == height
    && CheckedAdd(box.y, Half(box.height - height), node.path) == Ok(bounds.y)
  }

  lemma ButtonHasBounds(uniform: bool, node: Node, box: Rect) returns (bounds: Rect)
    requires Framed(node) && node.scene.Button? && Reachable(box) && ButtonFits(uniform, node, box)
    ensures ButtonBounds(uniform, node, box, bounds) && Reachable(bounds)
    ensures node.minimumWidth <= bounds.width && node.minimumHeight <= bounds.height
    ensures 2 * node.padding <= bounds.width && 2 * node.padding <= bounds.height
  {
    assert PixelSizes(node) && ContainerShape(node);
    var height := if uniform then box.height else Min(node.height, box.height);
    MiddleReaches(box.y, box.height, height, node.path);
    bounds := Rect(box.x, box.y + Half(box.height - height), Min(node.width, box.width), height);
  }

  lemma FramedWithin(uniform: bool, node: Node, box: Rect, clip: Rect, bounds: Rect)
    requires |node.children| == 1 && ButtonBounds(uniform, node, box, bounds)
    requires node.minimumWidth <= bounds.width && node.minimumHeight <= bounds.height
    requires Intersect(clip, bounds, node.path).Ok? && FrameContent(node, bounds).Ok?
    ensures FrameButton(uniform, node, box, clip).Ok?
  {
  }

  /** A button has a frame exactly if the box holds its least size. */
  lemma ButtonIsFramedIff(uniform: bool, node: Node, box: Rect, clip: Rect)
    requires Framed(node) && node.scene.Button? && Reachable(box) && Reachable(clip)
    ensures FrameButton(uniform, node, box, clip).Ok? <==> ButtonFits(uniform, node, box)
  {
    if ButtonFits(uniform, node, box) {
      var bounds := ButtonHasBounds(uniform, node, box);
      assert PixelSizes(node) && ContainerShape(node) && PixelSizes(node.children[0]);
      IntersectReaches(clip, bounds, node.path);
      ContentReaches(node, bounds);
      FramedWithin(uniform, node, box, clip, bounds);
    }
  }

  /** And is placed exactly if, besides, its content is placed in the middle of what the padding leaves. */
  lemma ButtonIsPlacedIff(m: Metrics, uniform: bool, node: Node, box: Rect, clip: Rect)
    requires Framed(node) && node.scene.Button? && Reachable(box) && Reachable(clip)
    ensures Place(m, uniform, node, box, clip).Ok? <==>
      && ButtonFits(uniform, node, box) && FrameButton(uniform, node, box, clip).Ok?
      && var frame := FrameButton(uniform, node, box, clip).value;
         Place(m, uniform, node.children[0], frame.content, frame.clip).Ok?
  {
    ButtonIsFramedIff(uniform, node, box, clip);
    assert ContainerShape(node);
  }

  /** A region is placed exactly if the box holds its least size and its content is placed in the same box. */
  lemma RegionIsPlacedIff(m: Metrics, uniform: bool, node: Node, box: Rect, clip: Rect)
    requires Framed(node) && node.scene.ActionRegion? && Reachable(box) && Reachable(clip)
    ensures Intersect(clip, box, node.path).Ok?
    ensures Place(m, uniform, node, box, clip).Ok? <==>
      && node.minimumWidth <= box.width && node.minimumHeight <= box.height
      && Place(m, uniform, node.children[0], box, Intersect(clip, box, node.path).value).Ok?
  {
    assert ContainerShape(node);
    IntersectReaches(clip, box, node.path);
  }

  // ---- Rows and columns ----

  /** What a child gets across the axis holds its minimum: all there is if it fills the axis, its own size otherwise. */
  predicate FitsAcross(uniform: bool, node: Node, child: Node, box: Rect, axis: Axis) {
    var space := if axis.Horizontal? then box.height else box.width;
    var least := if axis.Horizontal? then child.minimumHeight else child.minimumWidth;
    var natural := if axis.Horizontal? then child.height else child.width;
    var fills := SplitsEqually(uniform, node)
                 || (if axis.Horizontal? then child.expandsHeight else child.expandsWidth);
    child.scene.Spacer? || (least <= space && (fills || least <= natural))
  }

  /** Within reach a child gets a rectangle exactly if it fits across the axis. */
  lemma ChildHasPlaceIff(uniform: bool, node: Node, child: Node, size: int, cursor: int, box: Rect, axis: Axis)
    requires Framed(child) && (node.scene.Row? || node.scene.Column?) && Reachable(box)
    ensures ChildRect(uniform, node, child, size, cursor, box, axis).Ok? <==>
      FitsAcross(uniform, node, child, box, axis)
  {
    assert PixelSizes(child);
  }

  /** Every child from `index` on fits across the axis and is placed where it stands. */
  ghost predicate AllPlaced(m: Metrics, uniform: bool, node: Node, sizes: seq<int>, box: Rect, clip: Rect, axis: Axis,
      index: nat)
    requires (node.scene.Row? || node.scene.Column?) && |sizes| == |node.children|
  {
    forall i :: index <= i < |sizes| ==> OnePlaced(m, uniform, node, sizes, box, clip, axis, i)
  }

  ghost predicate OnePlaced(m: Metrics, uniform: bool, node: Node, sizes: seq<int>, box: Rect, clip: Rect, axis: Axis,
      i: nat)
    requires (node.scene.Row? || node.scene.Column?) && i < |sizes| == |node.children|
  {
    && FitsAcross(uniform, node, node.children[i], box, axis)
    && forall area :: ChildStands(uniform, node, sizes, box, axis, i, area) ==>
         Place(m, uniform, node.children[i], area, clip).Ok?
  }

  lemma OnePlacedIff(m: Metrics, uniform: bool, node: Node, sizes: seq<int>, box: Rect, clip: Rect, axis: Axis, i: nat)
    requires Framed(node) && (node.scene.Row? || node.scene.Column?) && i < |sizes| == |node.children|
    requires Reachable(box)
    ensures OnePlaced(m, uniform, node, sizes, box, clip, axis, i) <==>
      && AreaOf(uniform, node, sizes, box, axis, i).Ok?
      && Place(m, uniform, node.children[i], AreaOf(uniform, node, sizes, box, axis, i).value, clip).Ok?
  {
    ChildHasPlaceIff(uniform, node, node.children[i], sizes[i], Cursor(MainStart(box, axis), sizes, node.gap, i), box,
      axis);
    if AreaOf(uniform, node, sizes, box, axis, i).Ok? {
      AreaStands(uniform, node, sizes, box, axis, i, AreaOf(uniform, node, sizes, box, axis, i).value);
    }
  }

  lemma {:induction false} ChildrenArePlacedIff(m: Metrics, uniform: bool, node: Node, sizes: seq<int>, box: Rect,
      clip: Rect, axis: Axis, index: nat, cursor: int)
    requires Framed(node) && (node.scene.Row? || node.scene.Column?) && index <= |sizes| == |node.children|
    requires Reachable(box) && NonNegative(sizes)
    requires index < |sizes| ==> cursor == Cursor(MainStart(box, axis), sizes, node.gap, index)
    requires MainStart(box, axis) <= cursor
    requires cursor + Extent(sizes[index..], node.gap) <= MainStart(box, axis) + Available(box, axis)
    ensures PlaceChildren(m, uniform, node, sizes, index, cursor, box, clip, axis).Ok? <==>
      AllPlaced(m, uniform, node, sizes, box, clip, axis, index)
    decreases |sizes| - index
  {
    if index < |sizes| {
      var next := NextCursor(node, sizes, index, cursor);
      OnePlacedIff(m, uniform, node, sizes, box, clip, axis, index);
      AdvanceReaches(node, sizes, box, axis, index, cursor);
      ChildrenArePlacedIff(m, uniform, node, sizes, box, clip, axis, index + 1, next);
      FirstAndRest(m, uniform, node, sizes, box, clip, axis, index);
    }
  }

  lemma FirstAndRest(m: Metrics, uniform: bool, node: Node, sizes: seq<int>, box: Rect, clip: Rect, axis: Axis,
      index: nat)
    requires (node.scene.Row? || node.scene.Column?) && index < |sizes| == |node.children|
    ensures AllPlaced(m, uniform, node, sizes, box, clip, axis, index) <==>
      && OnePlaced(m, uniform, node, sizes, box, clip, axis, index)
      && AllPlaced(m, uniform, node, sizes, box, clip, axis, index + 1)
  {
  }

  lemma AdvanceReaches(node: Node, sizes: seq<int>, box: Rect, axis: Axis, index: nat, cursor: int)
    requires Framed(node) && index < |sizes| && Reachable(box) && NonNegative(sizes)
    requires MainStart(box, axis) <= cursor
    requires cursor + Extent(sizes[index..], node.gap) <= MainStart(box, axis) + Available(box, axis)
    ensures var next := NextCursor(node, sizes, index, cursor);
      && Advance(node, sizes, index, cursor) == Ok(next) && cursor <= next
      && next + Extent(sizes[index + 1..], node.gap) <= MainStart(box, axis) + Available(box, axis)
  {
    assert PixelSizes(node);
    CursorStep(sizes, node.gap, index, cursor, MainStart(box, axis) + Available(box, axis));
    ExtentNonNegative(sizes[index + 1..], node.gap);
  }

  /** A row or a column is placed exactly if the axis can be distributed and every child fits across it and is placed
      where it stands. */
  lemma ContainerIsPlacedIff(m: Metrics, uniform: bool, node: Node, box: Rect, clip: Rect)
    requires Framed(node) && (node.scene.Row? || node.scene.Column?) && Reachable(box) && Reachable(clip)
    ensures Intersect(clip, box, node.path).Ok?
    ensures Place(m, uniform, node, box, clip).Ok? <==>
      var sizes := MainSizes(uniform, node, Available(box, AxisOf(node)), AxisOf(node));
      && sizes.Ok?
      && AllPlaced(m, uniform, node, sizes.value, box, Intersect(clip, box, node.path).value, AxisOf(node), 0)
  {
    IntersectReaches(clip, box, node.path);
    var axis := AxisOf(node);
    var inner := Intersect(clip, box, node.path).value;
    if MainSizes(uniform, node, Available(box, axis), axis).Ok? {
      var sizes := MainSizes(uniform, node, Available(box, axis), axis).value;
      MainSizesFit(uniform, node, Available(box, axis), axis);
      assert sizes[0..] == sizes;
      ChildrenArePlacedIff(m, uniform, node, sizes, box, inner, axis, 0, MainStart(box, axis));
    }
  }
}
