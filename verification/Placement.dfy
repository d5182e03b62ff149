/** The placing pass: rectangles, clips, draw commands and interaction targets for a constrained tree. */
module Placement {
  import opened Optional
  import opened Pixels
  import opened FlexDistribution
  import opened SceneMeasure
  import opened WidthConstraint

  datatype Draw =
    | TextDraw(bounds: Rect, clip: Rect, textSource: Scene)
    | InputDraw(bounds: Rect, clip: Rect, inputId: string)
    | RichDraw(bounds: Rect, clip: Rect, rich: RichText, composition: Composition)
    | IconDraw(bounds: Rect, clip: Rect, name: string)
    | ImageDraw(bounds: Rect, clip: Rect, role: string)
    | ProgressDraw(bounds: Rect, clip: Rect, track: Rect, fill: Rect)
    | RingDraw(bounds: Rect, clip: Rect, fraction: real)
    | IndicatorDraw(bounds: Rect, clip: Rect)
    | ButtonDraw(bounds: Rect, clip: Rect, enabled: bool)

  datatype TargetKind = ButtonTarget | LinkTarget | RegionTarget | InputTarget

  datatype Target = Target(bounds: Rect, clip: Rect, actionId: string, enabled: bool, kind: TargetKind)

  datatype Placed = Placed(draws: seq<Draw>, targets: seq<Target>)

  function Join(first: Placed, second: Placed): Placed {
    Placed(first.draws + second.draws, first.targets + second.targets)
  }

  /** Rounding to the nearest pixel of a non-negative measurement. */
  function Rounded(value: real): int {
    (value + 0.5).Floor
  }

  function Available(box: Rect, axis: Axis): int {
    if axis.Horizontal? then box.width else box.height
  }

  function AvailableCross(box: Rect, axis: Axis): int {
    if axis.Horizontal? then box.height else box.width
  }

  function MainStart(box: Rect, axis: Axis): int {
    if axis.Horizontal? then box.x else box.y
  }

  function CrossStart(box: Rect, axis: Axis): int {
    if axis.Horizontal? then box.y else box.x
  }

  /** Placement distributes the main axis again, from the constrained nodes. */
  function MainSizes(uniform: bool, node: Node, available: int, axis: Axis): (r: Result<seq<int>>)
    ensures r.Ok? ==> |r.value| == |node.children|
  {
    var sizes :- Distribute(Items(node.children, axis), node.gap, available, node.path);
    if SplitsEqually(uniform, node) then HorizontalSizes(uniform, node, available) else Ok(sizes)
  }

  function CrossOffset(alignment: Alignment, available: int, size: int): int {
    match alignment
    case Start => 0
    case Center => Half(available - size)
    case End => available - size
  }

  function AlignmentOf(node: Node): Alignment {
    if node.scene.Row? || node.scene.Column? then node.scene.alignment else Alignment.Center
  }

  function ChildRect(uniform: bool, node: Node, child: Node, size: int, cursor: int, box: Rect,
      axis: Axis): Result<Rect> {
    var available := AvailableCross(box, axis);
    var expands := if axis.Horizontal? then child.expandsHeight else child.expandsWidth;
    var cross := if expands || SplitsEqually(uniform, node) then available
      else Min(CrossSize(child, axis, false), available);
    if CrossSize(child, axis, true) > cross then Impossible(child.path)
    else
      var position :- CheckedAdd(CrossStart(box, axis), CrossOffset(AlignmentOf(node), available, cross), child.path);
      Ok(if axis.Horizontal? then Rect(cursor, position, size, cross) else Rect(position, cursor, cross, size))
  }

  function CenteredY(node: Node, box: Rect): Result<int> {
    CheckedAdd(box.y, Half(box.height - node.height), node.path)
  }

  function PlaceText(node: Node, box: Rect, clip: Rect): Result<Placed> {
    if box.height < node.minimumHeight || box.width < node.minimumWidth then Impossible(node.path)
    else
      var width := if node.width > box.width then box.width else node.width;
      var y :- CenteredY(node, box);
      var clipped :- Intersect(clip, box, node.path);
      Ok(Placed([TextDraw(Rect(box.x, y, width, node.height), clipped, node.scene)], []))
  }

  function PlaceInput(node: Node, box: Rect, clip: Rect): Result<Placed>
    requires node.scene.TextInput?
  {
    if box.width < node.minimumWidth || box.height < node.minimumHeight then Impossible(node.path)
    else
      var y :- CenteredY(node, box);
      var bounds := Rect(box.x, y, box.width, node.height);
      var clipped :- Intersect(clip, bounds, node.path);
      Ok(Placed([InputDraw(bounds, clipped, node.scene.inputId)],
        [Target(bounds, clipped, node.scene.actionId, true, InputTarget)]))
  }

  /** The links of a rich text that remain visible. */
  function PlaceLinks(links: seq<Link>, bounds: Rect, clip: Rect, path: seq<PathStep>): Result<seq<Target>> {
    if links == [] then Ok([])
    else
      var x :- CheckedAdd(bounds.x, links[0].bounds.x, path);
      var y :- CheckedAdd(bounds.y, links[0].bounds.y, path);
      var area := Rect(x, y, links[0].bounds.width, links[0].bounds.height);
      var clipped :- Intersect(clip, area, path);
      var rest :- PlaceLinks(links[1..], bounds, clip, path);
      if clipped.width > 0 && clipped.height > 0 then
        Ok([Target(area, clipped, links[0].actionId, true, LinkTarget)] + rest)
      else Ok(rest)
  }

  function PlaceRich(node: Node, rich: RichText, box: Rect, clip: Rect): Result<Placed> {
    if node.composition.None? || box.width < node.minimumWidth || box.height < node.height then Impossible(node.path)
    else
      var y :- CenteredY(node, box);
      var bounds := Rect(box.x, y, box.width, node.height);
      var clipped :- Intersect(clip, bounds, node.path);
      var links :- PlaceLinks(node.composition.value.links, bounds, clipped, node.path);
      Ok(Placed([RichDraw(bounds, clipped, rich, node.composition.value)], links))
  }

  function PlaceIcon(node: Node, name: string, box: Rect, clip: Rect): Result<Placed> {
    if box.width < node.width || box.height < node.height then Impossible(node.path)
    else
      var x :- CheckedAdd(box.x, Half(box.width - node.width), node.path);
      var y :- CenteredY(node, box);
      var clipped :- Intersect(clip, box, node.path);
      Ok(Placed([IconDraw(Rect(x, y, node.width, node.height), clipped, name)], []))
  }

  function PlaceImage(node: Node, role: string, box: Rect, clip: Rect): Result<Placed> {
    if box.width < node.width || box.height < node.height then Impossible(node.path)
    else
      var y :- CenteredY(node, box);
      var clipped :- Intersect(clip, box, node.path);
      Ok(Placed([ImageDraw(Rect(box.x, y, node.width, node.height), clipped, role)], []))
  }

  function PlaceRing(node: Node, box: Rect, clip: Rect): Result<Placed>
    requires node.scene.Progress?
  {
    if box.width < node.minimumWidth || box.height < node.minimumHeight then Impossible(node.path)
    else
      var y :- CenteredY(node, box);
      var bounds := Rect(box.x, y, node.width, node.height);
      var clipped :- Intersect(clip, bounds, node.path);
      Ok(Placed([RingDraw(bounds, clipped, node.scene.fraction)], []))
  }

  function FillOf(track: Rect, fraction: real): Rect {
    Rect(track.x, track.y, Rounded(track.width as real * fraction), track.height)
  }

  /** A linear bar: unlabelled it takes the width it is given, labelled it keeps its own. */
  function PlaceBar(node: Node, box: Rect, clip: Rect): Result<Placed>
    requires node.scene.Progress?
  {
    if box.width < node.minimumWidth || box.height < node.minimumHeight then Impossible(node.path)
    else
      var labelled := node.scene.caption != "";
      var y :- CenteredY(node, box);
      var bounds := Rect(box.x, y, if labelled then node.width else box.width, node.height);
      var clipped :- Intersect(clip, bounds, node.path);
      var labelBottom :- CheckedAdd(y, node.labelHeight, node.path);
      var trackY :- CheckedAdd(labelBottom, node.gap, node.path);
      var track := Rect(box.x, trackY, if labelled then node.trackWidth else box.width, node.trackHeight);
      var bar := ProgressDraw(bounds, clipped, track, FillOf(track, node.scene.fraction));
      if !labelled then Ok(Placed([bar], []))
      else Ok(Placed([TextDraw(Rect(box.x, y, node.labelWidth, node.labelHeight), clipped, node.scene), bar], []))
  }

  function PlaceIndicator(m: Metrics, node: Node, box: Rect, clip: Rect): Result<Placed> {
    if box.width < node.width || box.height < node.height then Impossible(node.path)
    else
      var effectY :- CenteredY(node, box);
      var x :- CheckedAdd(box.x, node.insets.left, node.path);
      var y :- CheckedAdd(effectY, node.insets.top, node.path);
      var clipped :- Intersect(clip, Rect(box.x, effectY, node.width, node.height), node.path);
      var diameter := node.width - node.insets.left - node.insets.right;
      Ok(Placed([IndicatorDraw(Rect(x, y, diameter, diameter), clipped)], []))
  }

  /** Where a button draws itself, and the rectangle it assigns its content. */
  datatype ButtonFrame = ButtonFrame(bounds: Rect, clip: Rect, content: Rect)

  /** The content stands in the middle of what the padding leaves. */
  function FrameContent(node: Node, bounds: Rect): Result<Rect>
    requires |node.children| == 1
  {
    var child := node.children[0];
    var doubled :- CheckedMultiply(2, node.padding, node.path);
    var innerX :- CheckedAdd(bounds.x, node.padding, node.path);
    var innerY :- CheckedAdd(bounds.y, node.padding, node.path);
    var innerWidth :- CheckedSubtract(bounds.width, doubled, node.path);
    var innerHeight :- CheckedSubtract(bounds.height, doubled, node.path);
    var childWidth := Min(child.width, innerWidth);
    var childHeight := Min(child.height, innerHeight);
    var childX :- CheckedAdd(innerX, Half(innerWidth - childWidth), child.path);
    var childY :- CheckedAdd(innerY, Half(innerHeight - childHeight), child.path);
    Ok(Rect(childX, childY, childWidth, childHeight))
  }

  function FrameButton(uniform: bool, node: Node, box: Rect, clip: Rect): Result<ButtonFrame>
    requires |node.children| == 1
  {
    var width := Min(node.width, box.width);
    var height := if uniform then box.height else Min(node.height, box.height);
    if width < node.minimumWidth || height < node.minimumHeight then Impossible(node.path)
    else
      var y :- CheckedAdd(box.y, Half(box.height - height), node.path);
      var bounds := Rect(box.x, y, width, height);
      var clipped :- Intersect(clip, bounds, node.path);
      var content :- FrameContent(node, bounds);
      Ok(ButtonFrame(bounds, clipped, content))
  }

  /** A region takes the rectangle it is given, unless it cannot fit. */
  function FrameRegion(node: Node, box: Rect, clip: Rect): Result<Rect> {
    if box.width < node.minimumWidth || box.height < node.minimumHeight then Impossible(node.path)
    else Intersect(clip, box, node.path)
  }

  function PlaceLeaf(m: Metrics, node: Node, box: Rect, clip: Rect): Result<Placed> {
    match node.scene
    case Text(_, _, _) => PlaceText(node, box, clip)
    case TextInput(_, _, _, _) => PlaceInput(node, box, clip)
    case Rich(rich) => PlaceRich(node, rich, box, clip)
    case Icon(name, _) => PlaceIcon(node, name, box, clip)
    case Image(role) => PlaceImage(node, role, box, clip)
    case Progress(_, _, ring) => if ring then PlaceRing(node, box, clip) else PlaceBar(node, box, clip)
    case Indicator(_) => PlaceIndicator(m, node, box, clip)
    case _ => Ok(Placed([], []))
  }

  function ButtonOwn(node: Node, frame: ButtonFrame): Placed
    requires node.scene.Button?
  {
    Placed([ButtonDraw(frame.bounds, frame.clip, node.scene.enabled)],
      [Target(frame.bounds, frame.clip, node.scene.actionId, node.scene.enabled, ButtonTarget)])
  }

  function RegionOwn(node: Node, box: Rect, clip: Rect): Placed
    requires node.scene.ActionRegion?
  {
    Placed([], [Target(box, clip, node.scene.actionId, node.scene.enabled, RegionTarget)])
  }

  function Place(m: Metrics, uniform: bool, node: Node, box: Rect, clip: Rect): Result<Placed>
    decreases node, 1, 0
  {
    if node.scene.Row? || node.scene.Column? then
      var axis := if node.scene.Row? then Horizontal else Vertical;
      var sizes :- MainSizes(uniform, node, Available(box, axis), axis);
      var childClip :- Intersect(clip, box, node.path);
      PlaceChildren(m, uniform, node, sizes, 0, MainStart(box, axis), box, childClip, axis)
    else if node.scene.Button? then
      if |node.children| != 1 then Impossible(node.path)
      else
        var frame :- FrameButton(uniform, node, box, clip);
        var content :- Place(m, uniform, node.children[0], frame.content, frame.clip);
        Ok(Join(ButtonOwn(node, frame), content))
    else if node.scene.ActionRegion? then
      if |node.children| != 1 then Impossible(node.path)
      else
        var clipped :- FrameRegion(node, box, clip);
        var content :- Place(m, uniform, node.children[0], box, clipped);
        Ok(Join(RegionOwn(node, box, clipped), content))
    else PlaceLeaf(m, node, box, clip)
  }

  /** Where the child after `index` starts. */
  function NextCursor(node: Node, sizes: seq<int>, index: nat, cursor: int): int
    requires index < |sizes|
  {
    cursor + sizes[index] + (if index + 1 < |sizes| then node.gap else 0)
  }

  function Advance(node: Node, sizes: seq<int>, index: nat, cursor: int): (r: Result<int>)
    requires index < |sizes|
    ensures r.Ok? ==> r.value == NextCursor(node, sizes, index, cursor)
  {
    var after :- CheckedAdd(cursor, sizes[index], node.path);
    if index + 1 < |sizes| then CheckedAdd(after, node.gap, node.path) else Ok(after)
  }

  /** Children from `index` on, laid out along the axis from `cursor`. */
  function PlaceChildren(m: Metrics, uniform: bool, node: Node, sizes: seq<int>, index: nat, cursor: int,
                         box: Rect, clip: Rect, axis: Axis): Result<Placed>
    requires |sizes| == |node.children| && index <= |node.children|
    decreases node, 0, |node.children| - index
  {
    if index == |node.children| then Ok(Placed([], []))
    else
      var child := node.children[index];
      var area :- ChildRect(uniform, node, child, sizes[index], cursor, box, axis);
      var placed :- Place(m, uniform, child, area, clip);
      var next :- Advance(node, sizes, index, cursor);
      var rest :- PlaceChildren(m, uniform, node, sizes, index + 1, next, box, clip, axis);
      Ok(Join(placed, rest))
  }

  /** One child of a successful walk along the axis. */
  lemma PlaceChildrenStep(m: Metrics, uniform: bool, node: Node, sizes: seq<int>, index: nat, cursor: int,
                          box: Rect, clip: Rect, axis: Axis)
    requires |sizes| == |node.children| && index < |node.children|
    requires PlaceChildren(m, uniform, node, sizes, index, cursor, box, clip, axis).Ok?
    ensures ChildRect(uniform, node, node.children[index], sizes[index], cursor, box, axis).Ok?
    ensures var area := ChildRect(uniform, node, node.children[index], sizes[index], cursor, box, axis).value;
      var next := NextCursor(node, sizes, index, cursor);
      && Place(m, uniform, node.children[index], area, clip).Ok?
      && PlaceChildren(m, uniform, node, sizes, index + 1, next, box, clip, axis).Ok?
      && PlaceChildren(m, uniform, node, sizes, index, cursor, box, clip, axis).value ==
           Join(Place(m, uniform, node.children[index], area, clip).value,
                PlaceChildren(m, uniform, node, sizes, index + 1, next, box, clip, axis).value)
  {
  }

  function AxisOf(node: Node): Axis {
    if node.scene.Row? then Horizontal else Vertical
  }

  lemma PlaceContainerStep(m: Metrics, uniform: bool, node: Node, box: Rect, clip: Rect)
    requires node.scene.Row? || node.scene.Column?
    requires Place(m, uniform, node, box, clip).Ok?
    ensures MainSizes(uniform, node, Available(box, AxisOf(node)), AxisOf(node)).Ok?
    ensures Intersect(clip, box, node.path).Ok?
    ensures Place(m, uniform, node, box, clip) == PlaceChildren(m, uniform, node,
      MainSizes(uniform, node, Available(box, AxisOf(node)), AxisOf(node)).value, 0, MainStart(box, AxisOf(node)), box,
      Intersect(clip, box, node.path).value, AxisOf(node))
  {
  }

  lemma PlaceButtonStep(m: Metrics, uniform: bool, node: Node, box: Rect, clip: Rect)
    requires node.scene.Button? && Place(m, uniform, node, box, clip).Ok?
    ensures |node.children| == 1 && FrameButton(uniform, node, box, clip).Ok?
    ensures var frame := FrameButton(uniform, node, box, clip).value;
      && Place(m, uniform, node.children[0], frame.content, frame.clip).Ok?
      && Place(m, uniform, node, box, clip).value ==
           Join(ButtonOwn(node, frame), Place(m, uniform, node.children[0], frame.content, frame.clip).value)
  {
  }

  lemma PlaceRegionStep(m: Metrics, uniform: bool, node: Node, box: Rect, clip: Rect)
    requires node.scene.ActionRegion? && Place(m, uniform, node, box, clip).Ok?
    ensures |node.children| == 1 && FrameRegion(node, box, clip).Ok?
    ensures var clipped := FrameRegion(node, box, clip).value;
      && Place(m, uniform, node.children[0], box, clipped).Ok?
      && Place(m, uniform, node, box, clip).value ==
           Join(RegionOwn(node, box, clipped), Place(m, uniform, node.children[0], box, clipped).value)
  {
  }
}
