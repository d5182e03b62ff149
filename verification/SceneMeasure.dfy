/** Scenes, measured nodes and the measuring pass. Fonts, icons and rich text are abstract metrics whose pixel
    rounding is already done. */
module SceneMeasure {
  import opened Optional
  import opened Pixels
  import opened FlexDistribution

  datatype Axis = Horizontal | Vertical
  datatype Alignment = Start | Center | End

  datatype RichText = RichText(role: string, content: seq<string>)
  datatype Link = Link(bounds: Rect, actionId: string)
  datatype Composition = Composition(naturalWidth: int, minimumWidth: int, height: int, links: seq<Link>)

  datatype Effect = Shadow | Glow | Breathe
  datatype Insets = Insets(left: nat, top: nat, right: nat, bottom: nat)

  datatype Scene =
    | Text(value: string, role: string, truncateEnd: bool)
    | TextInput(inputId: string, actionId: string, initialValue: string, placeholder: string)
    | Rich(rich: RichText)
    | Icon(name: string, role: string)
    | Image(role: string)
    | Spacer(flexible: bool, sizeToken: string)
    | Progress(fraction: real, caption: string, ring: bool)
    | Indicator(effects: seq<Effect>)
    | Row(children: seq<Scene>, alignment: Alignment, gap: string)
    | Column(children: seq<Scene>, alignment: Alignment, gap: string)
    | Button(content: Scene, actionId: string, enabled: bool)
    | ActionRegion(content: Scene, actionId: string, enabled: bool)

  datatype Size = Size(width: nat, height: nat)
  datatype Measurement<+T> = Measured(value: T) | Rejected(code: ErrorCode)

  /** The theme tokens and the font metrics a layout reads. */
  datatype Metrics = Metrics(
    text: (string, string) -> Measurement<Size>,
    icon: (string, string) -> Measurement<Size>,
    image: string -> Measurement<Size>,
    cap: string -> bool,
    compose: (RichText, int) -> Measurement<Composition>,
    gap: string -> Option<nat>,
    spacer: string -> Option<nat>,
    indicatorInsets: seq<Effect> -> Insets,
    inputHeight: nat, inputPadding: nat,
    ringDiameter: nat, linearThickness: nat, indicatorDiameter: nat)

  datatype Node = Node(
    scene: Scene, path: seq<PathStep>,
    width: int, height: int, minimumWidth: int, minimumHeight: int,
    gap: int, tokenSize: int, padding: int,
    trackWidth: int, trackHeight: int, labelWidth: int, labelHeight: int, insets: Insets,
    expandsWidth: bool, expandsHeight: bool,
    composition: Option<Composition>,
    children: seq<Node>)

  function Plain(scene: Scene, path: seq<PathStep>, width: int, height: int, minimumWidth: int,
      minimumHeight: int): Node {
    Node(scene, path, width, height, minimumWidth, minimumHeight, 0, 0, 0, 0, 0, 0, 0, Insets(0, 0, 0, 0), false, false,
      None, [])
  }

  function MainSize(node: Node, axis: Axis, minimum: bool): int {
    if node.scene.Spacer? then (if node.scene.flexible then 0 else node.tokenSize)
    else if axis.Horizontal? then (if minimum then node.minimumWidth else node.width)
    else (if minimum then node.minimumHeight else node.height)
  }

  function CrossSize(node: Node, axis: Axis, minimum: bool): int {
    if node.scene.Spacer? then 0
    else if axis.Horizontal? then (if minimum then node.minimumHeight else node.height)
    else (if minimum then node.minimumWidth else node.width)
  }

  predicate ExpandsMain(node: Node, axis: Axis) {
    (node.scene.Spacer? && node.scene.flexible) || (if axis.Horizontal? then node.expandsWidth else node.expandsHeight)
  }

  /** A child as the distribution along `axis` sees it. */
  function ItemOf(node: Node, axis: Axis): Item {
    Item(MainSize(node, axis, false), MainSize(node, axis, true), ExpandsMain(node, axis))
  }

  function Items(nodes: seq<Node>, axis: Axis): (items: seq<Item>)
    ensures |items| == |nodes|
    ensures forall i :: 0 <= i < |nodes| ==> items[i] == ItemOf(nodes[i], axis)
  {
    seq(|nodes|, i requires 0 <= i < |nodes| => ItemOf(nodes[i], axis))
  }

  function Mains(nodes: seq<Node>, axis: Axis, minimum: bool): (sizes: seq<int>)
    ensures |sizes| == |nodes|
    ensures forall i :: 0 <= i < |nodes| ==> sizes[i] == MainSize(nodes[i], axis, minimum)
  {
    seq(|nodes|, i requires 0 <= i < |nodes| => MainSize(nodes[i], axis, minimum))
  }

  function Crosses(nodes: seq<Node>, axis: Axis, minimum: bool): (sizes: seq<int>)
    ensures |sizes| == |nodes|
    ensures forall i :: 0 <= i < |nodes| ==> sizes[i] == CrossSize(nodes[i], axis, minimum)
  {
    seq(|nodes|, i requires 0 <= i < |nodes| => CrossSize(nodes[i], axis, minimum))
  }

  function Largest(values: seq<int>): int {
    if values == [] then 0 else Max(values[0], Largest(values[1..]))
  }

  predicate AnyExpands(nodes: seq<Node>, axis: Axis) {
    exists i :: 0 <= i < |nodes| && ExpandsMain(nodes[i], axis)
  }

  predicate AnyExpandsWidth(nodes: seq<Node>) {
    exists i :: 0 <= i < |nodes| && nodes[i].expandsWidth
  }

  predicate AnyExpandsHeight(nodes: seq<Node>) {
    exists i :: 0 <= i < |nodes| && nodes[i].expandsHeight
  }

  function Sized<T>(measurement: Measurement<T>, path: seq<PathStep>): Result<T> {
    if measurement.Measured? then Ok(measurement.value) else Err(LayoutError(measurement.code, path))
  }

  function Token(token: Option<nat>, code: ErrorCode, path: seq<PathStep>): Result<nat> {
    if token.Some? then Ok(token.value) else Err(LayoutError(code, path))
  }

  const ELLIPSIS := "\U{2026}"

  function MeasureText(m: Metrics, scene: Scene, path: seq<PathStep>): (r: Result<Node>)
    requires scene.Text?
    ensures r.Ok? ==> r.value.scene == scene && r.value.path == path
  {
    var size :- Sized(m.text(scene.role, scene.value), path);
    if scene.truncateEnd && scene.value != "" then
      var ellipsis :- Sized(m.text(scene.role, ELLIPSIS), path);
      Ok(Plain(scene, path, size.width, size.height, Min(size.width, ellipsis.width), size.height))
    else
      Ok(Plain(scene, path, size.width, size.height, 0, size.height))
  }

  function MeasureInput(m: Metrics, scene: Scene, path: seq<PathStep>): (r: Result<Node>)
    requires scene.TextInput?
    ensures r.Ok? ==> r.value.scene == scene && r.value.path == path
  {
    var shown := if scene.initialValue == "" then scene.placeholder else scene.initialValue;
    var size :- Sized(m.text("body", shown), path);
    var doubled :- CheckedMultiply(2, m.inputPadding, path);
    var width :- CheckedAdd(size.width, doubled, path);
    Ok(Plain(scene, path, width, m.inputHeight, doubled, m.inputHeight).(padding := m.inputPadding,
      expandsWidth := true))
  }

  function MeasureRich(m: Metrics, scene: Scene, path: seq<PathStep>): (r: Result<Node>)
    requires scene.Rich?
    ensures r.Ok? ==> r.value.scene == scene && r.value.path == path
  {
    var narrowest :- Sized(m.compose(scene.rich, 1), path);
    var naturalWidth := Max(1, narrowest.naturalWidth);
    var natural :- Sized(m.compose(scene.rich, naturalWidth), path);
    if narrowest.minimumWidth < 0 || natural.height < 0 then Impossible(path)
    else Ok(Plain(scene, path, naturalWidth, natural.height, narrowest.minimumWidth, natural.height)
      .(expandsWidth := true, composition := Some(natural)))
  }

  function MeasureSpacer(m: Metrics, scene: Scene, path: seq<PathStep>): (r: Result<Node>)
    requires scene.Spacer?
    ensures r.Ok? ==> r.value.scene == scene && r.value.path == path
  {
    if scene.flexible then Ok(Plain(scene, path, 0, 0, 0, 0))
    else
      var size :- Token(m.spacer(scene.sizeToken), UnknownSpacer, path);
      Ok(Plain(scene, path, size, size, size, size).(tokenSize := size))
  }

  function MeasureProgress(m: Metrics, scene: Scene, path: seq<PathStep>): (r: Result<Node>)
    requires scene.Progress?
    ensures r.Ok? ==> r.value.scene == scene && r.value.path == path
  {
    if !(0.0 <= scene.fraction <= 1.0) then Impossible(path)
    else if scene.ring then
      Ok(Plain(scene, path, m.ringDiameter, m.ringDiameter, m.ringDiameter, m.ringDiameter))
    else
      var unit :- Token(m.spacer("normal"), UnknownSpacer, path);
      var gap :- Token(m.gap("normal"), UnknownGap, path);
      var caption :- if scene.caption == "" then Ok(Size(0, 0)) else Sized(m.text("body", scene.caption), path);
      var trackWidth :- CheckedMultiply(unit, 8, path);
      var usedGap := if scene.caption == "" then 0 else gap;
      var width := Max(caption.width, trackWidth);
      var labelAndGap :- CheckedAdd(caption.height, usedGap, path);
      var height :- CheckedAdd(labelAndGap, m.linearThickness, path);
      Ok(Plain(scene, path, width, height, width, height)
        .(gap := usedGap, trackWidth := trackWidth, trackHeight := m.linearThickness,
          labelWidth := caption.width, labelHeight := caption.height, expandsWidth := scene.caption == ""))
  }

  function MeasureIndicator(m: Metrics, scene: Scene, path: seq<PathStep>): Node
    requires scene.Indicator?
  {
    var insets := m.indicatorInsets(scene.effects);
    var width := m.indicatorDiameter + insets.left + insets.right;
    var height := m.indicatorDiameter + insets.top + insets.bottom;
    Plain(scene, path, width, height, width, height).(insets := insets)
  }

  function Measure(m: Metrics, scene: Scene, path: seq<PathStep>): (r: Result<Node>)
    ensures r.Ok? ==> r.value.scene == scene && r.value.path == path
    decreases scene, 1
  {
    match scene
    case Text(_, _, _) => MeasureText(m, scene, path)
    case TextInput(_, _, _, _) => MeasureInput(m, scene, path)
    case Rich(_) => MeasureRich(m, scene, path)
    case Icon(name, role) =>
      var size :- Sized(m.icon(name, role), path);
      Ok(Plain(scene, path, size.width, size.height, size.width, size.height))
    case Image(role) =>
      var size :- Sized(m.image(role), path);
      Ok(Plain(scene, path, size.width, size.height, size.width, size.height))
    case Spacer(_, _) => MeasureSpacer(m, scene, path)
    case Progress(_, _, _) => MeasureProgress(m, scene, path)
    case Indicator(_) => Ok(MeasureIndicator(m, scene, path))
    case Row(children, _, gap) =>
      var resolved :- Token(m.gap(gap), UnknownGap, path);
      var nodes :- MeasureChildren(m, children, 0, path);
      Assemble(scene, path, resolved, nodes, Horizontal)
    case Column(children, _, gap) =>
      var resolved :- Token(m.gap(gap), UnknownGap, path);
      var nodes :- MeasureChildren(m, children, 0, path);
      Assemble(scene, path, resolved, nodes, Vertical)
    case Button(content, _, _) =>
      var padding :- Token(m.spacer("normal"), UnknownSpacer, path);
      var child :- Measure(m, content, path + [Content]);
      Wrap(scene, path, padding, child)
    case ActionRegion(content, _, _) =>
      var child :- Measure(m, content, path + [Content]);
      Ok(Plain(scene, path, child.width, child.height, child.minimumWidth, child.minimumHeight)
        .(expandsWidth := child.expandsWidth, expandsHeight := child.expandsHeight, children := [child]))
  }

  function MeasureChildren(m: Metrics, children: seq<Scene>, index: nat, path: seq<PathStep>): (r: Result<seq<Node>>)
    ensures r.Ok? ==> |r.value| == |children|
    decreases children, 0
  {
    if children == [] then Ok([])
    else
      var first :- Measure(m, children[0], path + [Child(index)]);
      var rest :- MeasureChildren(m, children[1..], index + 1, path);
      Ok([first] + rest)
  }

  /** A row or a column around its measured children. */
  function Assemble(scene: Scene, path: seq<PathStep>, gap: nat, nodes: seq<Node>, axis: Axis): (r: Result<Node>)
    ensures r.Ok? ==> r.value.scene == scene && r.value.path == path
  {
    var natural :- CheckedTotal(0, Mains(nodes, axis, false), path);
    var minimum :- CheckedTotal(0, Mains(nodes, axis, true), path);
    var gapTotal :- GapTotal(gap, |nodes|, path);
    var main :- CheckedAdd(natural, gapTotal, path);
    var minimumMain :- CheckedAdd(minimum, gapTotal, path);
    var cross := Largest(Crosses(nodes, axis, false));
    var minimumCross := Largest(Crosses(nodes, axis, true));
    var node := if axis.Horizontal? then Plain(scene, path, main, cross, minimumMain, minimumCross)
      else Plain(scene, path, cross, main, minimumCross, minimumMain);
    Ok(node.(gap := gap, children := nodes,
      expandsWidth := if axis.Horizontal? then AnyExpands(nodes, axis) else AnyExpandsWidth(nodes),
      expandsHeight := if axis.Vertical? then AnyExpands(nodes, axis) else AnyExpandsHeight(nodes)))
  }

  /** A button around its measured content. */
  function Wrap(scene: Scene, path: seq<PathStep>, padding: nat, child: Node): (r: Result<Node>)
    ensures r.Ok? ==> r.value.scene == scene && r.value.path == path
  {
    var doubled :- CheckedMultiply(2, padding, path);
    var width :- CheckedAdd(child.width, doubled, path);
    var height :- CheckedAdd(child.height, doubled, path);
    var minimumWidth :- CheckedAdd(child.minimumWidth, doubled, path);
    var minimumHeight :- CheckedAdd(child.minimumHeight, doubled, path);
    Ok(Plain(scene, path, width, height, minimumWidth, minimumHeight)
      .(padding := padding, expandsWidth := child.expandsWidth, expandsHeight := child.expandsHeight,
        children := [child]))
  }

  predicate IsContainer(scene: Scene) {
    scene.Row? || scene.Column? || scene.Button? || scene.ActionRegion?
  }

  /** What the rich text metrics promise: the narrowest layout does not depend on the assigned width and is no
      wider than the natural one. */
  ghost predicate SteadyMetrics(m: Metrics) {
    && (forall rich, a, b :: m.compose(rich, a).Measured? && m.compose(rich, b).Measured? ==>
          m.compose(rich, a).value.minimumWidth == m.compose(rich, b).value.minimumWidth)
    && (forall rich, a :: m.compose(rich, a).Measured? ==>
          m.compose(rich, a).value.minimumWidth <= Max(1, m.compose(rich, a).value.naturalWidth))
  }

  /** A node's sizes are pixels. */
  predicate PixelSizes(node: Node) {
    && 0 <= node.minimumWidth && 0 <= node.width && 0 <= node.minimumHeight && 0 <= node.height
    && 0 <= node.gap && 0 <= node.padding && 0 <= node.tokenSize
  }

  /** And no minimum exceeds its natural size. */
  predicate Sizes(node: Node) {
    PixelSizes(node) && node.minimumWidth <= node.width && node.minimumHeight <= node.height
  }

  predicate LeafShape(node: Node) {
    && node.children == []
    && (node.scene.Rich? ==> node.expandsWidth && node.composition.Some?)
    && (node.scene.Rich? || node.scene.Text? || node.scene.TextInput? || node.scene.Progress? ==>
      node.minimumHeight == node.height)
    && (node.scene.Spacer? ==>
          !node.expandsWidth && !node.expandsHeight &&
            node.minimumWidth == node.width == MainSize(node, Horizontal, true))
    && (node.scene.Indicator? ==>
          && node.width >= node.insets.left + node.insets.right && node.height >= node.insets.top + node.insets.bottom
          && node.width - node.insets.left - node.insets.right == node.height - node.insets.top - node.insets.bottom)
    && (node.scene.Progress? ==> 0.0 <= node.scene.fraction <= 1.0 && node.minimumWidth == node.width)
    && (node.scene.Progress? && !node.scene.ring ==>
          && 0 <= node.labelWidth <= node.width && 0 <= node.labelHeight && 0 <= node.trackHeight
          && 0 <= node.trackWidth <= node.width
          && node.height == node.labelHeight + node.gap + node.trackHeight)
  }

  predicate ContainerShape(node: Node) {
    && (node.scene.Button? || node.scene.ActionRegion? ==>
          |node.children| == 1 && node.expandsWidth == node.children[0].expandsWidth)
    && (node.scene.Button? ==> node.minimumWidth >= 2 * node.padding && node.minimumHeight >= 2 * node.padding)
    && (node.scene.Column? ==> node.expandsWidth == AnyExpandsWidth(node.children))
    && (node.scene.Row? ==> node.expandsWidth == AnyExpands(node.children, Horizontal))
  }

  /** The shape every pass preserves, whatever the metrics and the scene. */
  predicate Framed(node: Node)
    decreases node
  {
    && PixelSizes(node)
    && (if IsContainer(node.scene) then ContainerShape(node) else LeafShape(node))
    && (forall i :: 0 <= i < |node.children| ==> node.children[i].path != [] && Framed(node.children[i]))
  }

  /** The shape measuring gives: sizes are pixels in order, leaves have no children, wrappers exactly one, and a node
      expands when its content does. */
  predicate Shaped(node: Node)
    decreases node
  {
    && Sizes(node)
    && (if IsContainer(node.scene) then ContainerShape(node) else LeafShape(node))
    && (forall i :: 0 <= i < |node.children| ==> node.children[i].path != [] && Shaped(node.children[i]))
  }

  /** What measuring establishes about widths, for the width-constraining pass to start from. */
  predicate Consistent(node: Node)
    decreases node
  {
    && (node.scene.Row? ==>
          && GapTotal(node.gap, |node.children|, node.path).Ok?
          && node.width ==
            GapTotal(node.gap, |node.children|, node.path).value + Sum(Mains(node.children, Horizontal, false))
          && node.minimumWidth ==
            GapTotal(node.gap, |node.children|, node.path).value + Sum(Mains(node.children, Horizontal, true)))
    && (node.scene.Column? ==>
          && node.width == Largest(Crosses(node.children, Vertical, false))
          && node.minimumWidth == Largest(Crosses(node.children, Vertical, true)))
    && (node.scene.Button? ==>
          && |node.children| == 1 && Fits(2 * node.padding)
          && node.width == node.children[0].width + 2 * node.padding
          && node.minimumWidth == node.children[0].minimumWidth + 2 * node.padding)
    && (node.scene.ActionRegion? ==>
          && |node.children| == 1
          && node.width == node.children[0].width && node.minimumWidth == node.children[0].minimumWidth)
    && (forall i :: 0 <= i < |node.children| ==> Consistent(node.children[i]))
  }

  /** Each rich text's minimum is one its metrics reported. */
  ghost predicate RichMinimums(m: Metrics, node: Node)
    decreases node
  {
    && (node.scene.Rich? ==>
          exists a :: m.compose(node.scene.rich, a).Measured?
                      && m.compose(node.scene.rich, a).value.minimumWidth == node.minimumWidth)
    && (forall i :: 0 <= i < |node.children| ==> RichMinimums(m, node.children[i]))
  }

  ghost predicate Sound(m: Metrics, node: Node) {
    Shaped(node) && Consistent(node) && RichMinimums(m, node)
  }

  lemma {:induction false} LargestBounds(values: seq<int>)
    ensures 0 <= Largest(values)
    ensures forall i :: 0 <= i < |values| ==> values[i] <= Largest(values)
    ensures Largest(values) == 0 || exists i :: 0 <= i < |values| && values[i] == Largest(values)
  {
    if values != [] {
      LargestBounds(values[1..]);
      forall i | 0 <= i < |values| ensures values[i] <= Largest(values) {
        if i > 0 { assert values[i] == values[1..][i - 1]; }
      }
      if Largest(values) != 0 && Largest(values) != values[0] {
        var i :| 0 <= i < |values[1..]| && values[1..][i] == Largest(values[1..]);
        assert values[i + 1] == Largest(values);
      }
    }
  }

  lemma LargestMonotone(low: seq<int>, high: seq<int>)
    requires AtLeast(high, low)
    ensures Largest(low) <= Largest(high)
  {
    LargestBounds(low);
    LargestBounds(high);
  }

  lemma ChildSizes(nodes: seq<Node>, axis: Axis)
    requires forall i :: 0 <= i < |nodes| ==> Shaped(nodes[i])
    ensures AtLeast(Mains(nodes, axis, false), Mains(nodes, axis, true))
    ensures forall i :: 0 <= i < |nodes| ==> 0 <= Mains(nodes, axis, true)[i]
    ensures AtLeast(Crosses(nodes, axis, false), Crosses(nodes, axis, true))
  {
    assert forall i :: 0 <= i < |nodes| ==> MainSize(nodes[i], axis, true) <= MainSize(nodes[i], axis, false);
  }

  lemma LeafIsSound(m: Metrics, scene: Scene, path: seq<PathStep>)
    requires SteadyMetrics(m) && !IsContainer(scene)
    requires Measure(m, scene, path).Ok?
    ensures Sound(m, Measure(m, scene, path).value)
  {
    if scene.Rich? {
      assert m.compose(scene.rich, 1).Measured?;
    }
  }

  lemma AssembledSizes(scene: Scene, path: seq<PathStep>, gap: nat, nodes: seq<Node>, axis: Axis)
    requires Assemble(scene, path, gap, nodes, axis).Ok?
    requires forall i :: 0 <= i < |nodes| ==> Shaped(nodes[i])
    ensures GapTotal(gap, |nodes|, path).Ok? && 0 <= GapTotal(gap, |nodes|, path).value
    ensures var total := GapTotal(gap, |nodes|, path).value;
      && CheckedTotal(0, Mains(nodes, axis, false), path) == Ok(Sum(Mains(nodes, axis, false)))
      && CheckedTotal(0, Mains(nodes, axis, true), path) == Ok(Sum(Mains(nodes, axis, true)))
      && 0 <= Sum(Mains(nodes, axis, true)) <= Sum(Mains(nodes, axis, false))
      && 0 <= Largest(Crosses(nodes, axis, true)) <= Largest(Crosses(nodes, axis, false))
  {
    ChildSizes(nodes, axis);
    SumMonotone(Mains(nodes, axis, true), Mains(nodes, axis, false));
    SumNonNegative(Mains(nodes, axis, true));
    forall i | 0 <= i < |nodes| ensures 0 <= Mains(nodes, axis, false)[i] {
      assert 0 <= Mains(nodes, axis, true)[i] <= Mains(nodes, axis, false)[i];
    }
    CheckedTotalIsSum(0, Mains(nodes, axis, false), path);
    CheckedTotalIsSum(0, Mains(nodes, axis, true), path);
    GapTotalNonNegative(gap, |nodes|);
    LargestMonotone(Crosses(nodes, axis, true), Crosses(nodes, axis, false));
    LargestBounds(Crosses(nodes, axis, true));
  }

  /** Measuring a container of well-measured children gives a well-measured container. */
  lemma AssembleIsSound(m: Metrics, scene: Scene, path: seq<PathStep>, gap: nat, nodes: seq<Node>, axis: Axis)
    requires scene.Row? || scene.Column?
    requires axis == if scene.Row? then Horizontal else Vertical
    requires Assemble(scene, path, gap, nodes, axis).Ok?
    requires forall i :: 0 <= i < |nodes| ==> nodes[i].path != [] && Sound(m, nodes[i])
    ensures Sound(m, Assemble(scene, path, gap, nodes, axis).value)
  {
    AssembledSizes(scene, path, gap, nodes, axis);
    var node := Assemble(scene, path, gap, nodes, axis).value;
    assert forall i :: 0 <= i < |nodes| ==> Shaped(nodes[i]);
    assert Shaped(node);
    assert Consistent(node);
    assert RichMinimums(m, node);
  }

  lemma WrapIsSound(m: Metrics, scene: Scene, path: seq<PathStep>, padding: nat, child: Node)
    requires scene.Button? && Wrap(scene, path, padding, child).Ok?
    requires child.path != [] && Sound(m, child)
    ensures Sound(m, Wrap(scene, path, padding, child).value)
  {
    var node := Wrap(scene, path, padding, child).value;
    assert node.children == [child];
    assert Shaped(child) && Consistent(child) && RichMinimums(m, child);
  }

  lemma RegionIsSound(m: Metrics, scene: Scene, path: seq<PathStep>)
    requires scene.ActionRegion? && Measure(m, scene, path).Ok?
    requires Sound(m, Measure(m, scene.content, path + [Content]).value)
    requires Measure(m, scene.content, path + [Content]).value.path != []
    ensures Sound(m, Measure(m, scene, path).value)
  {
    var child := Measure(m, scene.content, path + [Content]).value;
    assert Measure(m, scene, path).value.children == [child];
    assert Shaped(child) && Consistent(child) && RichMinimums(m, child);
  }

  lemma LeafIsFramed(m: Metrics, scene: Scene, path: seq<PathStep>)
    requires !IsContainer(scene) && Measure(m, scene, path).Ok?
    ensures Framed(Measure(m, scene, path).value)
  {
  }

  lemma {:induction false} TotalNonNegative(start: int, values: seq<int>, path: seq<PathStep>)
    requires 0 <= start && (forall i :: 0 <= i < |values| ==> 0 <= values[i])
    requires CheckedTotal(start, values, path).Ok?
    ensures 0 <= CheckedTotal(start, values, path).value
    decreases values
  {
    if values != [] { TotalNonNegative(start + values[0], values[1..], path); }
  }

  lemma AssembleIsFramed(scene: Scene, path: seq<PathStep>, gap: nat, nodes: seq<Node>, axis: Axis)
    requires scene.Row? || scene.Column?
    requires axis == if scene.Row? then Horizontal else Vertical
    requires Assemble(scene, path, gap, nodes, axis).Ok?
    requires forall i :: 0 <= i < |nodes| ==> nodes[i].path != [] && Framed(nodes[i])
    ensures Framed(Assemble(scene, path, gap, nodes, axis).value)
  {
    forall i | 0 <= i < |nodes|
      ensures 0 <= Mains(nodes, axis, false)[i] && 0 <= Mains(nodes, axis, true)[i]
    {
      assert Framed(nodes[i]);
    }
    TotalNonNegative(0, Mains(nodes, axis, false), path);
    TotalNonNegative(0, Mains(nodes, axis, true), path);
    GapTotalNonNegative(gap, |nodes|);
    LargestBounds(Crosses(nodes, axis, false));
    LargestBounds(Crosses(nodes, axis, true));
  }

  lemma {:induction false} MeasureIsFramed(m: Metrics, scene: Scene, path: seq<PathStep>)
    requires Measure(m, scene, path).Ok?
    ensures Framed(Measure(m, scene, path).value)
    decreases scene, 1
  {
    match scene
    case Row(children, _, gap) =>
      MeasureChildrenAreFramed(m, children, 0, path);
      AssembleIsFramed(scene, path, m.gap(gap).value, MeasureChildren(m, children, 0, path).value, Horizontal);
    case Column(children, _, gap) =>
      MeasureChildrenAreFramed(m, children, 0, path);
      AssembleIsFramed(scene, path, m.gap(gap).value, MeasureChildren(m, children, 0, path).value, Vertical);
    case Button(content, _, _) =>
      MeasureIsFramed(m, content, path + [Content]);
    case ActionRegion(content, _, _) =>
      MeasureIsFramed(m, content, path + [Content]);
    case _ =>
      LeafIsFramed(m, scene, path);
  }

  lemma {:induction false} MeasureChildrenAreFramed(m: Metrics, children: seq<Scene>, index: nat, path: seq<PathStep>)
    requires MeasureChildren(m, children, index, path).Ok?
    ensures forall i :: 0 <= i < |children| ==>
      MeasureChildren(m, children, index, path).value[i].path != [] &&
        Framed(MeasureChildren(m, children, index, path).value[i])
    decreases children, 0
  {
    if children != [] {
      MeasureIsFramed(m, children[0], path + [Child(index)]);
      MeasureChildrenAreFramed(m, children[1..], index + 1, path);
    }
  }

  /** Every node the measuring pass returns is well measured. */
  lemma {:induction false} MeasureIsSound(m: Metrics, scene: Scene, path: seq<PathStep>)
    requires SteadyMetrics(m)
    requires Measure(m, scene, path).Ok?
    ensures Sound(m, Measure(m, scene, path).value)
    decreases scene, 1
  {
    match scene
    case Row(children, _, gap) =>
      MeasureChildrenAreSound(m, children, 0, path);
      AssembleIsSound(m, scene, path, m.gap(gap).value, MeasureChildren(m, children, 0, path).value, Horizontal);
    case Column(children, _, gap) =>
      MeasureChildrenAreSound(m, children, 0, path);
      AssembleIsSound(m, scene, path, m.gap(gap).value, MeasureChildren(m, children, 0, path).value, Vertical);
    case Button(content, _, _) =>
      MeasureIsSound(m, content, path + [Content]);
      WrapIsSound(m, scene, path, m.spacer("normal").value, Measure(m, content, path + [Content]).value);
    case ActionRegion(content, _, _) =>
      MeasureIsSound(m, content, path + [Content]);
      RegionIsSound(m, scene, path);
    case _ =>
      LeafIsSound(m, scene, path);
  }

  lemma {:induction false} MeasureChildrenAreSound(m: Metrics, children: seq<Scene>, index: nat, path: seq<PathStep>)
    requires SteadyMetrics(m)
    requires MeasureChildren(m, children, index, path).Ok?
    ensures forall i :: 0 <= i < |children| ==>
      MeasureChildren(m, children, index, path).value[i].path != [] &&
        Sound(m, MeasureChildren(m, children, index, path).value[i])
    decreases children, 0
  {
    if children != [] {
      MeasureIsSound(m, children[0], path + [Child(index)]);
      MeasureChildrenAreSound(m, children[1..], index + 1, path);
    }
  }
}
