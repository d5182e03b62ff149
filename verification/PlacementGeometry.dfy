/** Where exactly things are placed: alignment across the axis, centring, and the rectangles of leaves and buttons. */
module PlacementGeometry {
  import opened Optional
  import opened Pixels
  import opened FlexDistribution
  import opened SceneMeasure
  import opened WidthConstraint
  import opened Placement
  import opened PlacementProperties

  /** As much space on one side as on the other; the odd pixel goes to the far side. */
  predicate Centred(before: int, after: int) {
    0 <= after - before <= 1
  }

  // ---- Children of a row or a column ----

  /** How a child stands in its parent's rectangle. Across the axis it fills what there is if it expands or its row is
      split evenly; otherwise it has its own size, cut to what there is, and stands where the alignment says. */
  predicate StandsAligned(uniform: bool, node: Node, child: Node, size: int, cursor: int, box: Rect, axis: Axis,
      area: Rect)
    requires node.scene.Row? || node.scene.Column?
  {
    var space := if axis.Horizontal? then box.height else box.width;
    var extent := if axis.Horizontal? then area.height else area.width;
    var before := if axis.Horizontal? then area.y - box.y else area.x - box.x;
    var after := space - extent - before;
    var natural := if child.scene.Spacer? then 0 else if axis.Horizontal? then child.height else child.width;
    && (if axis.Horizontal? then area.x == cursor && area.width == size else area.y == cursor && area.height == size)
    && (if SplitsEqually(uniform, node) || (if axis.Horizontal? then child.expandsHeight else child.expandsWidth) then
          before == 0 && after == 0
        else
          && extent == (if natural <= space then natural else space)
          && (node.scene.alignment.Start? ==> before == 0)
          && (node.scene.alignment.End? ==> after == 0)
          && (node.scene.alignment.Center? ==> Centred(before, after)))
  }

  /** Placing a child succeeds only if what it gets across the axis holds its minimum, and puts it where it belongs. */
  lemma ChildStandsAligned(uniform: bool, node: Node, child: Node, size: int, cursor: int, box: Rect, axis: Axis)
    requires Framed(child) && (node.scene.Row? || node.scene.Column?)
    requires 0 <= box.width && 0 <= box.height
    requires ChildRect(uniform, node, child, size, cursor, box, axis).Ok?
    ensures StandsAligned(uniform, node, child, size, cursor, box, axis,
                          ChildRect(uniform, node, child, size, cursor, box, axis).value)
    ensures var area := ChildRect(uniform, node, child, size, cursor, box, axis).value;
      !child.scene.Spacer? ==>
        (if axis.Horizontal? then child.minimumHeight <= area.height else child.minimumWidth <= area.width)
  {
    assert PixelSizes(child);
  }

  /** What nodes draw, each in its own rectangle, one after the other. */
  function Pieces(m: Metrics, uniform: bool, nodes: seq<Node>, areas: seq<Rect>, clip: Rect): Result<Placed>
    requires |nodes| == |areas|
    decreases |nodes|
  {
    if nodes == [] then Ok(Placed([], []))
    else
      var first :- Place(m, uniform, nodes[0], areas[0], clip);
      var rest :- Pieces(m, uniform, nodes[1..], areas[1..], clip);
      Ok(Join(first, rest))
  }

  lemma PiecesStep(m: Metrics, uniform: bool, nodes: seq<Node>, areas: seq<Rect>, clip: Rect, node: Node, area: Rect,
      first: Placed, rest: Placed)
    requires |nodes| == |areas| && Pieces(m, uniform, nodes, areas, clip) == Ok(rest)
    requires Place(m, uniform, node, area, clip) == Ok(first)
    ensures Pieces(m, uniform, [node] + nodes, [area] + areas, clip) == Ok(Join(first, rest))
  {
    assert ([node] + nodes)[1..] == nodes && ([area] + areas)[1..] == areas;
  }

  /** The rectangles of the children from `index` on. */
  predicate AreasFrom(uniform: bool, node: Node, sizes: seq<int>, box: Rect, axis: Axis, index: nat, areas: seq<Rect>)
    requires |sizes| == |node.children| && index <= |sizes|
  {
    && |areas| == |sizes| - index
    && forall k :: index <= k < |sizes| ==> AreaOf(uniform, node, sizes, box, axis, k) == Ok(areas[k - index])
  }

  lemma AreasGrow(uniform: bool, node: Node, sizes: seq<int>, box: Rect, axis: Axis, index: nat, area: Rect,
      areas: seq<Rect>)
    requires index < |sizes| == |node.children| && AreasFrom(uniform, node, sizes, box, axis, index + 1, areas)
    requires AreaOf(uniform, node, sizes, box, axis, index) == Ok(area)
    ensures AreasFrom(uniform, node, sizes, box, axis, index, [area] + areas)
  {
  }

  /** The moving cursor puts every child of a row or a column in its own rectangle, in order. */
  lemma {:induction false} ChildrenArePieces(m: Metrics, uniform: bool, node: Node, sizes: seq<int>, box: Rect,
      clip: Rect, axis: Axis, index: nat, cursor: int, placed: Placed) returns (areas: seq<Rect>)
    requires |sizes| == |node.children| && index <= |sizes|
    requires index < |sizes| ==> cursor == Cursor(MainStart(box, axis), sizes, node.gap, index)
    requires PlaceChildren(m, uniform, node, sizes, index, cursor, box, clip, axis) == Ok(placed)
    ensures AreasFrom(uniform, node, sizes, box, axis, index, areas)
    ensures Pieces(m, uniform, node.children[index..], areas, clip) == Ok(placed)
    decreases |sizes| - index
  {
    if index == |sizes| {
      areas := [];
    } else {
      var next := NextCursor(node, sizes, index, cursor);
      PlaceChildrenStep(m, uniform, node, sizes, index, cursor, box, clip, axis);
      var rest := PlaceChildren(m, uniform, node, sizes, index + 1, next, box, clip, axis).value;
      var area := ChildRect(uniform, node, node.children[index], sizes[index], cursor, box, axis).value;
      var others := ChildrenArePieces(m, uniform, node, sizes, box, clip, axis, index + 1, next, rest);
      areas := [area] + others;
      AreasGrow(uniform, node, sizes, box, axis, index, area, others);
      PiecesStep(m, uniform, node.children[index + 1..], others, clip, node.children[index], area,
        Place(m, uniform, node.children[index], area, clip).value, rest);
      assert node.children[index..] == [node.children[index]] + node.children[index + 1..];
    }
  }

  /** The child's rectangle is this one, and the child stands aligned in it. */
  predicate ChildStands(uniform: bool, node: Node, sizes: seq<int>, box: Rect, axis: Axis, i: nat, area: Rect)
    requires (node.scene.Row? || node.scene.Column?) && i < |sizes| == |node.children|
  {
    && AreaOf(uniform, node, sizes, box, axis, i) == Ok(area)
    && StandsAligned(uniform, node, node.children[i], sizes[i], Cursor(MainStart(box, axis), sizes, node.gap, i), box,
         axis, area)
  }

  lemma AreaStands(uniform: bool, node: Node, sizes: seq<int>, box: Rect, axis: Axis, i: nat, area: Rect)
    requires (node.scene.Row? || node.scene.Column?) && i < |sizes| == |node.children|
    requires Framed(node.children[i]) && 0 <= box.width && 0 <= box.height
    requires AreaOf(uniform, node, sizes, box, axis, i) == Ok(area)
    ensures ChildStands(uniform, node, sizes, box, axis, i, area)
  {
    ChildStandsAligned(uniform, node, node.children[i], sizes[i], Cursor(MainStart(box, axis), sizes, node.gap, i), box,
      axis);
  }

  /** A placed row or column is its children, one after the other, each standing aligned in its own rectangle. */
  lemma ContainerStands(m: Metrics, uniform: bool, node: Node, box: Rect, clip: Rect, placed: Placed)
    returns (sizes: seq<int>, inner: Rect, areas: seq<Rect>)
    requires Framed(node) && (node.scene.Row? || node.scene.Column?) && 0 <= box.width && 0 <= box.height
    requires Place(m, uniform, node, box, clip) == Ok(placed)
    ensures MainSizes(uniform, node, Available(box, AxisOf(node)), AxisOf(node)) == Ok(sizes)
    ensures Intersect(clip, box, node.path) == Ok(inner) && |areas| == |sizes|
    ensures Pieces(m, uniform, node.children, areas, inner) == Ok(placed)
    ensures forall i :: 0 <= i < |areas| ==> ChildStands(uniform, node, sizes, box, AxisOf(node), i, areas[i])
  {
    PlaceContainerStep(m, uniform, node, box, clip);
    var axis := AxisOf(node);
    sizes := MainSizes(uniform, node, Available(box, axis), axis).value;
    inner := Intersect(clip, box, node.path).value;
    areas := ChildrenArePieces(m, uniform, node, sizes, box, inner, axis, 0, MainStart(box, axis), placed);
    assert node.children[0..] == node.children;
    AllStand(uniform, node, sizes, box, axis, areas);
  }

  lemma AllStand(uniform: bool, node: Node, sizes: seq<int>, box: Rect, axis: Axis, areas: seq<Rect>)
    requires Framed(node) && (node.scene.Row? || node.scene.Column?) && 0 <= box.width && 0 <= box.height
    requires |sizes| == |node.children| && AreasFrom(uniform, node, sizes, box, axis, 0, areas)
    ensures forall i :: 0 <= i < |areas| ==> ChildStands(uniform, node, sizes, box, axis, i, areas[i])
  {
    forall i | 0 <= i < |areas| ensures ChildStands(uniform, node, sizes, box, axis, i, areas[i]) {
      AreaStands(uniform, node, sizes, box, axis, i, areas[i]);
    }
  }

  // ---- Leaves ----

  /** Nothing in the rectangle is out of the reach of 32 bits. */
  predicate Reachable(r: Rect) {
    0 <= r.x && 0 <= r.y && 0 <= r.width && 0 <= r.height && r.x + r.width <= INT_MAX && r.y + r.height <= INT_MAX
  }

  /** At the box's left edge, of that size, and vertically in the middle. */
  predicate AtLeft(bounds: Rect, box: Rect, width: int, height: int) {
    && bounds.x == box.x && bounds.width == width && bounds.height == height
    && Centred(bounds.y - box.y, box.y + box.height - (bounds.y + bounds.height))
  }

  predicate InMiddle(bounds: Rect, box: Rect, width: int, height: int) {
    && bounds.width == width && bounds.height == height
    && Centred(bounds.x - box.x, box.x + box.width - (bounds.x + bounds.width))
    && Centred(bounds.y - box.y, box.y + box.height - (bounds.y + bounds.height))
  }

  /** A progress bar's filled part starts with its track and is the fraction of it, to the nearest pixel. */
  predicate FilledTo(fill: Rect, track: Rect, fraction: real) {
    && fill.x == track.x && fill.y == track.y && fill.height == track.height
    && -0.5 < fill.width as real - track.width as real * fraction <= 0.5
  }

  /** The bar: without a caption it spans the box; with one it keeps its width, and the track stands below the caption,
      the gap apart. */
  predicate BarStands(node: Node, box: Rect, draws: seq<Draw>)
    requires node.scene.Progress?
  {
    var labelled := node.scene.caption != "";
    var count := if labelled then 2 else 1;
    && |draws| == count && draws[count - 1].ProgressDraw?
    && var bar := draws[count - 1];
       && AtLeft(bar.bounds, box, if labelled then node.width else box.width, node.height)
       && FilledTo(bar.fill, bar.track, node.scene.fraction)
       && bar.track == Rect(box.x, bar.bounds.y + node.labelHeight + node.gap,
            if labelled then node.trackWidth else box.width, node.trackHeight)
       && (labelled ==>
             && draws[0].TextDraw? && draws[0].textSource == node.scene && draws[0].clip == bar.clip
             && draws[0].bounds == Rect(box.x, bar.bounds.y, node.labelWidth, node.labelHeight))
  }

  /** What a leaf draws and where. */
  predicate LeafStands(node: Node, box: Rect, placed: Placed) {
    var draws := placed.draws;
    match node.scene
    case Text(_, _, _) =>
      && |draws| == 1 && draws[0].TextDraw? && draws[0].textSource == node.scene && placed.targets == []
      && AtLeft(draws[0].bounds, box, if node.width <= box.width then node.width else box.width, node.height)
    case TextInput(inputId, actionId, _, _) =>
      && |draws| == 1 && draws[0].InputDraw? && draws[0].inputId == inputId
      && AtLeft(draws[0].bounds, box, box.width, node.height)
      && placed.targets == [Target(draws[0].bounds, draws[0].clip, actionId, true, InputTarget)]
    case Rich(rich) =>
      && |draws| == 1 && draws[0].RichDraw? && draws[0].rich == rich && Some(draws[0].composition) == node.composition
      && AtLeft(draws[0].bounds, box, box.width, node.height)
    case Icon(name, _) =>
      && |draws| == 1 && draws[0].IconDraw? && draws[0].name == name && placed.targets == []
      && InMiddle(draws[0].bounds, box, node.width, node.height)
    case Image(role) =>
      && |draws| == 1 && draws[0].ImageDraw? && draws[0].role == role && placed.targets == []
      && AtLeft(draws[0].bounds, box, node.width, node.height)
    case Progress(fraction, _, ring) =>
      && placed.targets == []
      && (ring ==> |draws| == 1 && draws[0].RingDraw? && draws[0].fraction == fraction
                   && AtLeft(draws[0].bounds, box, node.width, node.height))
      && (!ring ==> BarStands(node, box, draws))
    case Indicator(_) =>
      && |draws| == 1 && draws[0].IndicatorDraw? && placed.targets == []
      && IndicatorStands(node, box, draws[0].bounds)
    case _ => draws == [] && placed.targets == []
  }

  /** An indicator's effects reach beyond it: with its insets around it, it is vertically in the middle. */
  predicate IndicatorStands(node: Node, box: Rect, bounds: Rect) {
    && bounds.x == box.x + node.insets.left
    && bounds.width == bounds.height == node.width - node.insets.left - node.insets.right
    && AtLeft(Rect(box.x, bounds.y - node.insets.top, node.width, node.height), box, node.width, node.height)
  }

  lemma FillIsNearest(track: Rect, fraction: real)
    ensures FilledTo(FillOf(track, fraction), track, fraction)
  {
  }

  lemma LeafStandsWhere(m: Metrics, node: Node, box: Rect, clip: Rect)
    requires Framed(node) && !IsContainer(node.scene) && PlaceLeaf(m, node, box, clip).Ok?
    ensures LeafStands(node, box, PlaceLeaf(m, node, box, clip).value)
  {
    assert PixelSizes(node) && LeafShape(node);
    if node.scene.Progress? && !node.scene.ring {
      BarStandsWhere(node, box, clip);
    }
  }

  lemma BarStandsWhere(node: Node, box: Rect, clip: Rect)
    requires Framed(node) && node.scene.Progress? && !node.scene.ring && PlaceBar(node, box, clip).Ok?
    ensures BarStands(node, box, PlaceBar(node, box, clip).value.draws)
  {
    assert PixelSizes(node) && LeafShape(node);
    var bar := PlaceBar(node, box, clip).value.draws;
    FillIsNearest(bar[|bar| - 1].track, node.scene.fraction);
  }

  /** What a leaf is clipped to: text, icons and images to the whole box, the others to what they take of it. */
  function ClipBounds(node: Node, box: Rect, draw: Draw): Rect {
    match node.scene
    case Text(_, _, _) => box
    case Icon(_, _) => box
    case Image(_) => box
    case Indicator(_) => Rect(box.x, draw.bounds.y - node.insets.top, node.width, node.height)
    case Progress(_, caption, ring) =>
      if caption == "" || ring || !draw.TextDraw? then draw.bounds
        else Rect(box.x, draw.bounds.y, node.width, node.height)
    case _ => draw.bounds
  }

  lemma BarClipIs(node: Node, box: Rect, clip: Rect, i: nat)
    requires Framed(node) && node.scene.Progress? && !node.scene.ring && PlaceBar(node, box, clip).Ok?
    requires i < |PlaceBar(node, box, clip).value.draws|
    ensures var draw := PlaceBar(node, box, clip).value.draws[i];
      Intersect(clip, ClipBounds(node, box, draw), node.path) == Ok(draw.clip)
  {
  }

  lemma LeafClipIs(m: Metrics, node: Node, box: Rect, clip: Rect, i: nat)
    requires Framed(node) && !IsContainer(node.scene) && PlaceLeaf(m, node, box, clip).Ok?
    requires i < |PlaceLeaf(m, node, box, clip).value.draws|
    ensures var draw := PlaceLeaf(m, node, box, clip).value.draws[i];
      Intersect(clip, ClipBounds(node, box, draw), node.path) == Ok(draw.clip)
  {
    if node.scene.Progress? && !node.scene.ring { BarClipIs(node, box, clip, i); }
  }

  /** A leaf's clip loses no pixel and lets none through. */
  lemma LeafClipIsExact(m: Metrics, node: Node, box: Rect, clip: Rect, i: nat, px: int, py: int)
    requires Framed(node) && !IsContainer(node.scene) && PlaceLeaf(m, node, box, clip).Ok?
    requires i < |PlaceLeaf(m, node, box, clip).value.draws|
    ensures var draw := PlaceLeaf(m, node, box, clip).value.draws[i];
      Covers(draw.clip, px, py) <==> Covers(clip, px, py) && Covers(ClipBounds(node, box, draw), px, py)
  {
    var draw := PlaceLeaf(m, node, box, clip).value.draws[i];
    LeafClipIs(m, node, box, clip, i);
    IntersectIsExact(clip, ClipBounds(node, box, draw), node.path, px, py);
  }

  // ---- Links ----

  function Shifted(r: Rect, x: int, y: int): Rect {
    Rect(r.x + x, r.y + y, r.width, r.height)
  }

  /** The two rectangles share a pixel. */
  predicate Overlap(a: Rect, b: Rect) {
    && a.x < b.x + b.width && b.x < a.x + a.width && a.y < b.y + b.height && b.y < a.y + a.height
    && 0 < a.width && 0 < a.height && 0 < b.width && 0 < b.height
  }

  /** The links of a rich text drawn at `bounds` of which a pixel is left inside the clip. */
  function Visible(links: seq<Link>, bounds: Rect, clip: Rect): seq<Link> {
    if links == [] then []
    else (if Overlap(Shifted(links[0].bounds, bounds.x, bounds.y), clip) then [links[0]] else [])
         + Visible(links[1..], bounds, clip)
  }

  predicate LinkStands(link: Link, bounds: Rect, clip: Rect, target: Target, px: int, py: int) {
    && target.bounds == Shifted(link.bounds, bounds.x, bounds.y)
    && target.actionId == link.actionId && target.enabled && target.kind.LinkTarget?
    && (Covers(target.clip, px, py) <==> Covers(clip, px, py) && Covers(target.bounds, px, py))
  }

  predicate AllLinksStand(links: seq<Link>, bounds: Rect, clip: Rect, targets: seq<Target>, px: int, py: int) {
    |targets| == |links| && forall i :: 0 <= i < |links| ==> LinkStands(links[i], bounds, clip, targets[i], px, py)
  }

  lemma FirstLinkStands(link: Link, bounds: Rect, clip: Rect, path: seq<PathStep>, px: int, py: int)
    requires Intersect(clip, Shifted(link.bounds, bounds.x, bounds.y), path).Ok?
    ensures var area := Shifted(link.bounds, bounds.x, bounds.y);
      var clipped := Intersect(clip, area, path).value;
      && (Overlap(area, clip) <==> clipped.width > 0 && clipped.height > 0)
      && LinkStands(link, bounds, clip, Target(area, clipped, link.actionId, true, LinkTarget), px, py)
  {
    IntersectIsExact(clip, Shifted(link.bounds, bounds.x, bounds.y), path, px, py);
  }

  lemma LinksStep(links: seq<Link>, bounds: Rect, clip: Rect, path: seq<PathStep>, targets: seq<Target>)
    returns (clipped: Rect, rest: seq<Target>)
    requires links != [] && PlaceLinks(links, bounds, clip, path) == Ok(targets)
    ensures Intersect(clip, Shifted(links[0].bounds, bounds.x, bounds.y), path) == Ok(clipped)
    ensures PlaceLinks(links[1..], bounds, clip, path) == Ok(rest)
    ensures targets == (if clipped.width > 0 && clipped.height > 0 then
      [Target(Shifted(links[0].bounds, bounds.x, bounds.y), clipped, links[0].actionId, true, LinkTarget)] + rest
        else rest)
  {
    clipped := Intersect(clip, Shifted(links[0].bounds, bounds.x, bounds.y), path).value;
    rest := PlaceLinks(links[1..], bounds, clip, path).value;
  }

  lemma OneMoreLink(link: Link, visible: seq<Link>, bounds: Rect, clip: Rect, target: Target, targets: seq<Target>,
      px: int, py: int)
    requires AllLinksStand(visible, bounds, clip, targets, px, py) && LinkStands(link, bounds, clip, target, px, py)
    ensures AllLinksStand([link] + visible, bounds, clip, [target] + targets, px, py)
  {
  }

  /** The link targets are the visible links, in order, each where the composition has it and clipped exactly. */
  lemma {:induction false} LinksStand(links: seq<Link>, bounds: Rect, clip: Rect, path: seq<PathStep>,
      targets: seq<Target>, px: int, py: int)
    requires PlaceLinks(links, bounds, clip, path) == Ok(targets)
    ensures AllLinksStand(Visible(links, bounds, clip), bounds, clip, targets, px, py)
    decreases links
  {
    if links != [] {
      var clipped, rest := LinksStep(links, bounds, clip, path, targets);
      var visible := Visible(links[1..], bounds, clip);
      LinksStand(links[1..], bounds, clip, path, rest, px, py);
      FirstLinkStands(links[0], bounds, clip, path, px, py);
      if clipped.width > 0 && clipped.height > 0 {
        OneMoreLink(links[0], visible, bounds, clip, targets[0], rest, px, py);
        assert Visible(links, bounds, clip) == [links[0]] + visible;
      } else {
        assert Visible(links, bounds, clip) == [] + visible == visible;
      }
    }
  }

  lemma RichLinksStand(m: Metrics, node: Node, box: Rect, clip: Rect, px: int, py: int)
    requires node.scene.Rich? && PlaceLeaf(m, node, box, clip).Ok?
    ensures var placed := PlaceLeaf(m, node, box, clip).value;
      && |placed.draws| == 1 && placed.draws[0].RichDraw?
      && node.composition.Some?
      && AllLinksStand(Visible(node.composition.value.links, placed.draws[0].bounds, placed.draws[0].clip),
           placed.draws[0].bounds, placed.draws[0].clip, placed.targets, px, py)
  {
    var placed := PlaceLeaf(m, node, box, clip).value;
    LinksStand(node.composition.value.links, placed.draws[0].bounds, placed.draws[0].clip, node.path, placed.targets,
      px, py);
  }

  // ---- Buttons and regions ----

  /** A button keeps its size, cut to its box, or takes the box's height in an action menu; its content is in the
      middle of what the padding leaves. */
  predicate ButtonStands(uniform: bool, node: Node, box: Rect, frame: ButtonFrame)
    requires |node.children| == 1
  {
    var b, p, child := frame.bounds, node.padding, node.children[0];
    var inner := Rect(b.x + p, b.y + p, b.width - 2 * p, b.height - 2 * p);
    && AtLeft(b, box, if node.width <= box.width then node.width else box.width,
         if uniform || box.height < node.height then box.height else node.height)
    && InMiddle(frame.content, inner, if child.width <= inner.width then child.width else inner.width,
         if child.height <= inner.height then child.height else inner.height)
  }

  lemma ButtonStandsWhere(uniform: bool, node: Node, box: Rect, clip: Rect, px: int, py: int)
    requires Framed(node) && node.scene.Button? && FrameButton(uniform, node, box, clip).Ok?
    ensures var frame := FrameButton(uniform, node, box, clip).value;
      && ButtonStands(uniform, node, box, frame)
      && node.minimumWidth <= frame.bounds.width && node.minimumHeight <= frame.bounds.height
      && (Covers(frame.clip, px, py) <==> Covers(clip, px, py) && Covers(frame.bounds, px, py))
  {
    assert PixelSizes(node) && ContainerShape(node) && PixelSizes(node.children[0]);
    IntersectIsExact(clip, FrameButton(uniform, node, box, clip).value.bounds, node.path, px, py);
  }

  /** A placed button is its own draw and target, over its bounds, and then its content. */
  lemma ButtonIsPlaced(m: Metrics, uniform: bool, node: Node, box: Rect, clip: Rect, placed: Placed)
    requires Framed(node) && node.scene.Button? && Place(m, uniform, node, box, clip) == Ok(placed)
    ensures FrameButton(uniform, node, box, clip).Ok?
    ensures var frame := FrameButton(uniform, node, box, clip).value;
      && Place(m, uniform, node.children[0], frame.content, frame.clip).Ok?
      && var content := Place(m, uniform, node.children[0], frame.content, frame.clip).value;
         && placed.draws == [ButtonDraw(frame.bounds, frame.clip, node.scene.enabled)] + content.draws
         && placed.targets == [Target(frame.bounds, frame.clip, node.scene.actionId, node.scene.enabled, ButtonTarget)]
                              + content.targets
  {
    PlaceButtonStep(m, uniform, node, box, clip);
  }

  /** A placed region is a target over its whole box, clipped, and then its content in the same box. */
  lemma RegionIsPlaced(m: Metrics, uniform: bool, node: Node, box: Rect, clip: Rect, placed: Placed, px: int, py: int)
    requires Framed(node) && node.scene.ActionRegion? && Place(m, uniform, node, box, clip) == Ok(placed)
    ensures placed.targets != [] && node.minimumWidth <= box.width && node.minimumHeight <= box.height
    ensures var own := placed.targets[0];
      && own == Target(box, own.clip, node.scene.actionId, node.scene.enabled, RegionTarget)
      && (Covers(own.clip, px, py) <==> Covers(clip, px, py) && Covers(box, px, py))
      && Place(m, uniform, node.children[0], box, own.clip) == Ok(Placed(placed.draws, placed.targets[1..]))
  {
    PlaceRegionStep(m, uniform, node, box, clip);
    IntersectIsExact(clip, box, node.path, px, py);
    var content := Place(m, uniform, node.children[0], box, placed.targets[0].clip).value;
    assert placed.draws == content.draws && placed.targets[1..] == content.targets;
  }
}
