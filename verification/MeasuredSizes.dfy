/** What the measuring pass finds: the sizes of every node, leaf by leaf from the metrics and container by container
    from its children. */
module MeasuredSizes {
  import opened Optional
  import opened Pixels
  import opened FlexDistribution
  import opened SceneMeasure

  // ---- Leaves ----

  predicate Is(node: Node, width: int, height: int, minimumWidth: int, minimumHeight: int) {
    node.width == width && node.height == height && node.minimumWidth == minimumWidth
    && node.minimumHeight == minimumHeight
  }

  predicate Expands(node: Node, width: bool, height: bool) {
    node.expandsWidth == width && node.expandsHeight == height
  }

  /** A text is as large as it is drawn; one that may be cut needs room for the ellipsis, any other for nothing. */
  predicate TextStands(m: Metrics, node: Node)
    requires node.scene.Text?
  {
    var drawn := m.text(node.scene.role, node.scene.value);
    && drawn.Measured? && Expands(node, false, false)
    && if node.scene.truncateEnd && node.scene.value != "" then
         var ellipsis := m.text(node.scene.role, ELLIPSIS);
         && ellipsis.Measured?
         && Is(node, drawn.value.width, drawn.value.height,
               if ellipsis.value.width < drawn.value.width then ellipsis.value.width else drawn.value.width,
               drawn.value.height)
       else Is(node, drawn.value.width, drawn.value.height, 0, drawn.value.height)
  }

  /** An input wants room for what it shows, the placeholder while it is empty, and needs room for its padding. */
  predicate InputStands(m: Metrics, node: Node)
    requires node.scene.TextInput?
  {
    var shown := m.text("body",
      if node.scene.initialValue != "" then node.scene.initialValue else node.scene.placeholder);
    && shown.Measured? && Expands(node, true, false) && node.padding == m.inputPadding
    && Is(node, shown.value.width + 2 * m.inputPadding, m.inputHeight, 2 * m.inputPadding, m.inputHeight)
  }

  /** A rich text is as wide as it would be unbroken and as high as it is at that width; it needs its longest word. */
  predicate RichStands(m: Metrics, node: Node)
    requires node.scene.Rich?
  {
    var narrow := m.compose(node.scene.rich, 1);
    && narrow.Measured? && Expands(node, true, false)
    && var natural := m.compose(node.scene.rich,
         if narrow.value.naturalWidth < 1 then 1 else narrow.value.naturalWidth);
       && natural.Measured? && node.composition == Some(natural.value)
       && Is(node, if narrow.value.naturalWidth < 1 then 1 else narrow.value.naturalWidth, natural.value.height,
             narrow.value.minimumWidth, natural.value.height)
       && narrow.value.minimumWidth >= 0 && natural.value.height >= 0
  }

  /** A flexible spacer takes nothing by itself; a rigid one has its token's size either way. */
  predicate SpacerStands(m: Metrics, node: Node)
    requires node.scene.Spacer?
  {
    && Expands(node, false, false)
    && if node.scene.flexible then Is(node, 0, 0, 0, 0)
       else
         var size := m.spacer(node.scene.sizeToken);
         size.Some? && Is(node, size.value, size.value, size.value, size.value) && node.tokenSize == size.value
  }

  /** A ring is a square. A bar is eight units wide, or as wide as its caption, and stands a gap below it; without a
      caption it takes what width it gets. */
  predicate ProgressStands(m: Metrics, node: Node)
    requires node.scene.Progress?
  {
    var captioned := node.scene.caption != "";
    && 0.0 <= node.scene.fraction <= 1.0
    && if node.scene.ring then
         Is(node, m.ringDiameter, m.ringDiameter, m.ringDiameter, m.ringDiameter) && Expands(node, false, false)
       else
         var caption := m.text("body", node.scene.caption);
         && m.spacer("normal").Some? && m.gap("normal").Some? && (captioned ==> caption.Measured?)
         && Expands(node, !captioned, false)
         && node.trackWidth == 8 * m.spacer("normal").value && node.trackHeight == m.linearThickness
         && node.labelWidth == (if captioned then caption.value.width else 0)
         && node.labelHeight == (if captioned then caption.value.height else 0)
         && node.gap == (if captioned then m.gap("normal").value else 0)
         && node.labelWidth <= node.width && node.trackWidth <= node.width
         && (node.width == node.labelWidth || node.width == node.trackWidth)
         && Is(node, node.width, node.labelHeight + node.gap + m.linearThickness, node.width, node.height)
  }

  /** An indicator is its diameter and what its effects need around it. */
  predicate IndicatorStands(m: Metrics, node: Node)
    requires node.scene.Indicator?
  {
    var around := m.indicatorInsets(node.scene.effects);
    && node.insets == around && Expands(node, false, false)
    && Is(node, around.left + m.indicatorDiameter + around.right, around.top + m.indicatorDiameter + around.bottom,
          around.left + m.indicatorDiameter + around.right, around.top + m.indicatorDiameter + around.bottom)
  }

  /** Icons and images have one size. */
  predicate PictureStands(size: Measurement<Size>, node: Node) {
    && size.Measured? && Expands(node, false, false)
    && Is(node, size.value.width, size.value.height, size.value.width, size.value.height)
  }

  predicate LeafStands(m: Metrics, node: Node) {
    && (node.scene.Text? ==> TextStands(m, node))
    && (node.scene.TextInput? ==> InputStands(m, node))
    && (node.scene.Rich? ==> RichStands(m, node))
    && (node.scene.Icon? ==> PictureStands(m.icon(node.scene.name, node.scene.role), node))
    && (node.scene.Image? ==> PictureStands(m.image(node.scene.role), node))
    && (node.scene.Spacer? ==> SpacerStands(m, node))
    && (node.scene.Progress? ==> ProgressStands(m, node))
    && (node.scene.Indicator? ==> IndicatorStands(m, node))
  }

  lemma LeafIsMeasured(m: Metrics, scene: Scene, path: seq<PathStep>, node: Node)
    requires !IsContainer(scene) && Measure(m, scene, path) == Ok(node)
    ensures LeafStands(m, node) && node.children == []
  {
  }

  /** A leaf is measured exactly if the metrics know all it needs and the numbers stay in range. */
  lemma LeafMeasuresIff(m: Metrics, scene: Scene, path: seq<PathStep>)
    ensures scene.Text? ==>
      (Measure(m, scene, path).Ok? <==>
         m.text(scene.role, scene.value).Measured?
         && (scene.truncateEnd && scene.value != "" ==> m.text(scene.role, ELLIPSIS).Measured?))
    ensures scene.TextInput? ==>
      var shown := m.text("body", if scene.initialValue != "" then scene.initialValue else scene.placeholder);
      (Measure(m, scene, path).Ok? <==>
         shown.Measured? && Fits(2 * m.inputPadding) && Fits(shown.value.width + 2 * m.inputPadding))
    ensures scene.Rich? ==>
      var narrow := m.compose(scene.rich, 1);
      (Measure(m, scene, path).Ok? <==>
         narrow.Measured? && narrow.value.minimumWidth >= 0
         && var natural := m.compose(scene.rich, Max(1, narrow.value.naturalWidth));
            natural.Measured? && natural.value.height >= 0)
    ensures scene.Icon? ==> (Measure(m, scene, path).Ok? <==> m.icon(scene.name, scene.role).Measured?)
    ensures scene.Image? ==> (Measure(m, scene, path).Ok? <==> m.image(scene.role).Measured?)
    ensures scene.Spacer? ==> (Measure(m, scene, path).Ok? <==> scene.flexible || m.spacer(scene.sizeToken).Some?)
    ensures scene.Indicator? ==> Measure(m, scene, path).Ok?
  {
  }

  lemma ProgressMeasuresIff(m: Metrics, scene: Scene, path: seq<PathStep>)
    requires scene.Progress?
    ensures Measure(m, scene, path).Ok? <==>
      && 0.0 <= scene.fraction <= 1.0
      && (scene.ring
          || (&& m.spacer("normal").Some? && m.gap("normal").Some? && Fits(8 * m.spacer("normal").value)
              && (scene.caption == "" ==> Fits(m.linearThickness))
              && (scene.caption != "" ==>
                    var caption := m.text("body", scene.caption);
                    && caption.Measured? && Fits(caption.value.height + m.gap("normal").value)
                    && Fits(caption.value.height + m.gap("normal").value + m.linearThickness))))
  {
  }

  // ---- Containers ----

  /** What a child takes along the axis: a spacer its token if it is rigid, anything else its size. */
  predicate Takes(child: Node, size: int, spacer: int) {
    if child.scene.Spacer? then spacer == if child.scene.flexible then 0 else child.tokenSize else spacer == size
  }

  /** The sizes add up with the gaps between them. */
  predicate AddsUp(total: int, gap: int, sizes: seq<int>) {
    total == Sum(sizes) + if |sizes| > 1 then gap * (|sizes| - 1) else 0
  }

  /** The greatest of the sizes of those children that are not spacers. */
  predicate IsGreatest(greatest: int, children: seq<Node>, sizes: seq<int>)
    requires |sizes| == |children|
  {
    && (forall i :: 0 <= i < |children| && !children[i].scene.Spacer? ==> sizes[i] <= greatest)
    && 0 <= greatest
    && (greatest == 0 || exists i :: 0 <= i < |children| && !children[i].scene.Spacer? && sizes[i] == greatest)
  }

  function SizeOf(child: Node, width: bool, minimum: bool): int {
    if width then (if minimum then child.minimumWidth else child.width)
    else (if minimum then child.minimumHeight else child.height)
  }

  function SizesOf(children: seq<Node>, width: bool, minimum: bool): (sizes: seq<int>)
    ensures |sizes| == |children|
    ensures forall i :: 0 <= i < |children| ==> sizes[i] == SizeOf(children[i], width, minimum)
  {
    seq(|children|, i requires 0 <= i < |children| => SizeOf(children[i], width, minimum))
  }

  /** The sizes that the children take along the axis. */
  ghost predicate TakenAlong(children: seq<Node>, width: bool, minimum: bool, taken: seq<int>) {
    && |taken| == |children|
    && forall i :: 0 <= i < |children| ==> Takes(children[i], SizesOf(children, width, minimum)[i], taken[i])
  }

  /** The size along the axis is what the children take, with the gaps. */
  ghost predicate SumStands(node: Node, row: bool, minimum: bool) {
    forall taken: seq<int> :: TakenAlong(node.children, row, minimum, taken) ==>
      AddsUp(SizeOf(node, row, minimum), node.gap, taken)
  }

  predicate IsFlexible(child: Node) {
    child.scene.Spacer? && child.scene.flexible
  }

  /** A list expands if a child does; along its axis a flexible spacer makes it expand as well. */
  predicate ListExpands(node: Node, row: bool) {
    && (node.expandsWidth <==>
          exists i :: 0 <= i < |node.children|
                      && (node.children[i].expandsWidth || (row && IsFlexible(node.children[i]))))
    && (node.expandsHeight <==>
          exists i :: 0 <= i < |node.children|
                      && (node.children[i].expandsHeight || (!row && IsFlexible(node.children[i]))))
  }

  /** A row's widths add up and its greatest child gives its height; a column the other way round. */
  ghost predicate ListStands(m: Metrics, node: Node, gap: string, row: bool) {
    && m.gap(gap) == Some(node.gap) && SumStands(node, row, false) && SumStands(node, row, true)
    && IsGreatest(SizeOf(node, !row, false), node.children, SizesOf(node.children, !row, false))
    && IsGreatest(SizeOf(node, !row, true), node.children, SizesOf(node.children, !row, true))
    && ListExpands(node, row)
  }

  /** A button is its content and the padding around it; a region is its content. */
  predicate WrapperStands(m: Metrics, node: Node, padding: int) {
    && |node.children| == 1 && node.padding == padding
    && Is(node, node.children[0].width + 2 * padding, node.children[0].height + 2 * padding,
          node.children[0].minimumWidth + 2 * padding, node.children[0].minimumHeight + 2 * padding)
    && Expands(node, node.children[0].expandsWidth, node.children[0].expandsHeight)
  }

  ghost predicate ContainerStands(m: Metrics, node: Node) {
    && (node.scene.Row? ==> ListStands(m, node, node.scene.gap, true))
    && (node.scene.Column? ==> ListStands(m, node, node.scene.gap, false))
    && (node.scene.Button? ==> m.spacer("normal").Some? && WrapperStands(m, node, m.spacer("normal").value))
    && (node.scene.ActionRegion? ==> WrapperStands(m, node, 0))
  }

  /** Every node of the tree has the sizes that its own kind prescribes. */
  ghost predicate Stands(m: Metrics, node: Node)
    decreases node
  {
    && (if IsContainer(node.scene) then ContainerStands(m, node) else LeafStands(m, node))
    && forall i :: 0 <= i < |node.children| ==> Stands(m, node.children[i])
  }

  lemma TakenIsMains(nodes: seq<Node>, axis: Axis, minimum: bool, taken: seq<int>)
    requires TakenAlong(nodes, axis.Horizontal?, minimum, taken)
    ensures taken == Mains(nodes, axis, minimum)
  {
  }

  lemma GreatestCross(nodes: seq<Node>, axis: Axis, minimum: bool)
    requires forall i :: 0 <= i < |nodes| ==> Framed(nodes[i])
    ensures IsGreatest(Largest(Crosses(nodes, axis, minimum)), nodes, SizesOf(nodes, axis.Vertical?, minimum))
  {
    var crosses, sizes := Crosses(nodes, axis, minimum), SizesOf(nodes, axis.Vertical?, minimum);
    LargestBounds(crosses);
    assert forall i :: 0 <= i < |nodes| && !nodes[i].scene.Spacer? ==> crosses[i] == sizes[i];
    if Largest(crosses) != 0 {
      var i :| 0 <= i < |crosses| && crosses[i] == Largest(crosses);
      assert !nodes[i].scene.Spacer? && sizes[i] == Largest(crosses);
    }
  }

  lemma ListAddsUp(scene: Scene, path: seq<PathStep>, gap: nat, nodes: seq<Node>, axis: Axis, minimum: bool)
    requires Assemble(scene, path, gap, nodes, axis).Ok?
    requires forall i :: 0 <= i < |nodes| ==> Framed(nodes[i])
    ensures AddsUp(SizeOf(Assemble(scene, path, gap, nodes, axis).value, axis.Horizontal?, minimum), gap,
      Mains(nodes, axis, minimum))
  {
    forall i | 0 <= i < |nodes| ensures 0 <= Mains(nodes, axis, minimum)[i] {}
    TotalIsSum(Mains(nodes, axis, minimum), path);
  }

  lemma TotalIsSum(sizes: seq<int>, path: seq<PathStep>)
    requires CheckedTotal(0, sizes, path).Ok? && forall i :: 0 <= i < |sizes| ==> 0 <= sizes[i]
    ensures CheckedTotal(0, sizes, path).value == Sum(sizes)
  {
    CheckedTotalIsSum(0, sizes, path);
  }

  lemma SumIsMeasured(scene: Scene, path: seq<PathStep>, gap: nat, nodes: seq<Node>, axis: Axis, minimum: bool,
      node: Node)
    requires Assemble(scene, path, gap, nodes, axis) == Ok(node) && forall i :: 0 <= i < |nodes| ==> Framed(nodes[i])
    ensures SumStands(node, axis.Horizontal?, minimum) && node.children == nodes && node.gap == gap
  {
    ListAddsUp(scene, path, gap, nodes, axis, minimum);
    forall taken: seq<int> | TakenAlong(nodes, axis.Horizontal?, minimum, taken)
      ensures taken == Mains(nodes, axis, minimum)
    {
      TakenIsMains(nodes, axis, minimum, taken);
    }
  }

  lemma CrossIsMeasured(scene: Scene, path: seq<PathStep>, gap: nat, nodes: seq<Node>, axis: Axis, node: Node)
    requires Assemble(scene, path, gap, nodes, axis) == Ok(node) && forall i :: 0 <= i < |nodes| ==> Framed(nodes[i])
    ensures var row := axis.Horizontal?;
      && IsGreatest(SizeOf(node, !row, false), nodes, SizesOf(nodes, !row, false))
      && IsGreatest(SizeOf(node, !row, true), nodes, SizesOf(nodes, !row, true))
  {
    GreatestCross(nodes, axis, false);
    GreatestCross(nodes, axis, true);
  }

  lemma SumsInRange(scene: Scene, path: seq<PathStep>, gap: nat, nodes: seq<Node>, axis: Axis, natural: seq<int>,
      minimum: seq<int>, gaps: int)
    requires natural == Mains(nodes, axis, false) && minimum == Mains(nodes, axis, true)
    requires CheckedTotal(0, natural, path).Ok? <==> Fits(Sum(natural))
    requires CheckedTotal(0, natural, path).Ok? ==> CheckedTotal(0, natural, path).value == Sum(natural)
    requires CheckedTotal(0, minimum, path).Ok? <==> Fits(Sum(minimum))
    requires CheckedTotal(0, minimum, path).Ok? ==> CheckedTotal(0, minimum, path).value == Sum(minimum)
    requires gaps == if |nodes| > 1 then gap * (|nodes| - 1) else 0
    ensures Assemble(scene, path, gap, nodes, axis).Ok? <==>
      && Fits(Sum(natural)) && Fits(Sum(minimum)) && Fits(gaps)
      && Fits(Sum(natural) + gaps) && Fits(Sum(minimum) + gaps)
  {
    assert GapTotal(gap, |nodes|, path) == CheckedMultiply(gap, if |nodes| > 1 then |nodes| - 1 else 0, path);
  }

  lemma TotalFits(sizes: seq<int>, path: seq<PathStep>)
    requires forall i :: 0 <= i < |sizes| ==> 0 <= sizes[i]
    ensures CheckedTotal(0, sizes, path).Ok? <==> Fits(Sum(sizes))
    ensures CheckedTotal(0, sizes, path).Ok? ==> CheckedTotal(0, sizes, path).value == Sum(sizes)
  {
    CheckedTotalIsSum(0, sizes, path);
    SumNonNegative(sizes);
  }

  /** Measured children are assembled exactly if the sums, with the gaps, stay in range. */
  lemma AssemblesIff(scene: Scene, path: seq<PathStep>, gap: nat, nodes: seq<Node>, axis: Axis, natural: seq<int>,
      minimum: seq<int>)
    requires TakenAlong(nodes, axis.Horizontal?, false, natural) && TakenAlong(nodes, axis.Horizontal?, true, minimum)
    requires forall i :: 0 <= i < |nodes| ==> 0 <= natural[i] && 0 <= minimum[i]
    ensures Assemble(scene, path, gap, nodes, axis).Ok? <==>
      var gaps := if |nodes| > 1 then gap * (|nodes| - 1) else 0;
      && Fits(Sum(natural)) && Fits(Sum(minimum)) && Fits(gaps)
      && Fits(Sum(natural) + gaps) && Fits(Sum(minimum) + gaps)
  {
    TakenIsMains(nodes, axis, false, natural);
    TakenIsMains(nodes, axis, true, minimum);
    TotalFits(natural, path);
    TotalFits(minimum, path);
    SumsInRange(scene, path, gap, nodes, axis, natural, minimum, if |nodes| > 1 then gap * (|nodes| - 1) else 0);
  }

  lemma ExpandsIsMeasured(scene: Scene, path: seq<PathStep>, gap: nat, nodes: seq<Node>, axis: Axis, node: Node)
    requires Assemble(scene, path, gap, nodes, axis) == Ok(node)
    ensures ListExpands(node, axis.Horizontal?)
  {
  }

  lemma ListIsMeasured(m: Metrics, scene: Scene, path: seq<PathStep>, gap: nat, nodes: seq<Node>, axis: Axis,
      node: Node)
    requires (scene.Row? && axis.Horizontal?) || (scene.Column? && axis.Vertical?)
    requires m.gap(scene.gap) == Some(gap) && Assemble(scene, path, gap, nodes, axis) == Ok(node)
    requires forall i :: 0 <= i < |nodes| ==> Framed(nodes[i])
    ensures ContainerStands(m, node) && node.children == nodes
  {
    SumIsMeasured(scene, path, gap, nodes, axis, false, node);
    SumIsMeasured(scene, path, gap, nodes, axis, true, node);
    CrossIsMeasured(scene, path, gap, nodes, axis, node);
    ExpandsIsMeasured(scene, path, gap, nodes, axis, node);
    assert node.scene == scene;
    ListStandsBy(m, node, scene.gap, scene.Row?);
  }

  lemma ListStandsBy(m: Metrics, node: Node, gap: string, row: bool)
    requires (node.scene.Row? && row) || (node.scene.Column? && !row)
    requires node.scene.gap == gap && ListStands(m, node, gap, row)
    ensures ContainerStands(m, node)
  {
  }

  lemma WrapperIsMeasured(m: Metrics, scene: Scene, path: seq<PathStep>, node: Node)
    requires (scene.Button? || scene.ActionRegion?) && Measure(m, scene, path) == Ok(node)
    ensures ContainerStands(m, node) && |node.children| == 1
    ensures Measure(m, scene.content, path + [Content]) == Ok(node.children[0])
  {
  }

  lemma StandsBy(m: Metrics, node: Node)
    requires if IsContainer(node.scene) then ContainerStands(m, node) else LeafStands(m, node)
    requires forall i :: 0 <= i < |node.children| ==> Stands(m, node.children[i])
    ensures Stands(m, node)
  {
  }

  lemma {:induction false} ListStandsAll(m: Metrics, scene: Scene, path: seq<PathStep>, node: Node)
    requires (scene.Row? || scene.Column?) && Measure(m, scene, path) == Ok(node)
    ensures Stands(m, node)
    decreases scene, 0
  {
    ChildrenStand(m, scene.children, 0, path);
    ListIsMeasured(m, scene, path, m.gap(scene.gap).value, MeasureChildren(m, scene.children, 0, path).value,
      if scene.Row? then Horizontal else Vertical, node);
    StandsBy(m, node);
  }

  /** The measuring pass gives every node of every scene the sizes its own kind prescribes. */
  lemma {:induction false} MeasureStands(m: Metrics, scene: Scene, path: seq<PathStep>, node: Node)
    requires Measure(m, scene, path) == Ok(node)
    ensures Stands(m, node)
    decreases scene, 1
  {
    if scene.Row? || scene.Column? {
      ListStandsAll(m, scene, path, node);
    } else if scene.Button? || scene.ActionRegion? {
      WrapperIsMeasured(m, scene, path, node);
      MeasureStands(m, scene.content, path + [Content], node.children[0]);
      StandsBy(m, node);
    } else {
      LeafIsMeasured(m, scene, path, node);
      StandsBy(m, node);
    }
  }

  lemma {:induction false} ChildrenStand(m: Metrics, children: seq<Scene>, index: nat, path: seq<PathStep>)
    requires MeasureChildren(m, children, index, path).Ok?
    ensures forall i :: 0 <= i < |children| ==>
      && Framed(MeasureChildren(m, children, index, path).value[i])
      && Stands(m, MeasureChildren(m, children, index, path).value[i])
    decreases children, 0
  {
    if children != [] {
      MeasureIsFramed(m, children[0], path + [Child(index)]);
      MeasureStands(m, children[0], path + [Child(index)], Measure(m, children[0], path + [Child(index)]).value);
      ChildrenStand(m, children[1..], index + 1, path);
    }
  }

  // ---- Why measuring fails ----

  /** The metrics reject what is measured with that code. */
  predicate Rejects<T>(measurement: Measurement<T>, code: ErrorCode) {
    measurement.Rejected? && measurement.code == code
  }

  /** What is missing for the scene itself, or that its numbers leave their range. */
  predicate Lacks(m: Metrics, scene: Scene, code: ErrorCode) {
    || (code == ImpossibleConstraints
        && (scene.TextInput? || scene.Rich? || scene.Progress? || scene.Row? || scene.Column? || scene.Button?))
    || (code == UnknownSpacer
        && ((scene.Spacer? && !scene.flexible && m.spacer(scene.sizeToken).None?)
            || ((scene.Button? || scene.Progress?) && m.spacer("normal").None?)))
    || (code == UnknownGap
        && ((scene.Progress? && m.gap("normal").None?) || ((scene.Row? || scene.Column?) && m.gap(scene.gap).None?)))
    || (scene.Text? && (Rejects(m.text(scene.role, scene.value), code) || Rejects(m.text(scene.role, ELLIPSIS), code)))
    || (scene.TextInput? && Rejects(m.text("body",
          if scene.initialValue != "" then scene.initialValue else scene.placeholder), code))
    || (scene.Progress? && Rejects(m.text("body", scene.caption), code))
    || (scene.Icon? && Rejects(m.icon(scene.name, scene.role), code))
    || (scene.Image? && Rejects(m.image(scene.role), code))
  }

  ghost predicate RichLacks(m: Metrics, scene: Scene, code: ErrorCode) {
    scene.Rich? && exists width :: Rejects(m.compose(scene.rich, width), code)
  }

  /** The error names the place of a scene, this one or one inside it, and what that scene lacks. */
  ghost predicate Blames(m: Metrics, scene: Scene, path: seq<PathStep>, e: LayoutError)
    decreases scene
  {
    || (e.path == path && (Lacks(m, scene, e.code) || RichLacks(m, scene, e.code)))
    || ((scene.Row? || scene.Column?)
        && exists i :: 0 <= i < |scene.children| && Blames(m, scene.children[i], path + [Child(i)], e))
    || ((scene.Button? || scene.ActionRegion?) && Blames(m, scene.content, path + [Content], e))
  }

  lemma LeafBlames(m: Metrics, scene: Scene, path: seq<PathStep>, e: LayoutError)
    requires !IsContainer(scene) && Measure(m, scene, path) == Err(e)
    ensures e.path == path && (Lacks(m, scene, e.code) || RichLacks(m, scene, e.code))
  {
    if scene.Rich? {
      var narrow := m.compose(scene.rich, 1);
      if narrow.Rejected? {
        assert Rejects(narrow, e.code);
      } else if m.compose(scene.rich, Max(1, narrow.value.naturalWidth)).Rejected? {
        assert Rejects(m.compose(scene.rich, Max(1, narrow.value.naturalWidth)), e.code);
      }
    }
  }

  lemma {:induction false} ChildrenBlame(m: Metrics, children: seq<Scene>, index: nat, path: seq<PathStep>,
      e: LayoutError)
    requires MeasureChildren(m, children, index, path) == Err(e)
    ensures exists i :: 0 <= i < |children| && Blames(m, children[i], path + [Child(index + i)], e)
    decreases children, 0
  {
    var first := Measure(m, children[0], path + [Child(index)]);
    if first.Err? {
      MeasureBlames(m, children[0], path + [Child(index)], e);
      assert Blames(m, children[0], path + [Child(index + 0)], e);
    } else {
      ChildrenBlame(m, children[1..], index + 1, path, e);
      var i :| 0 <= i < |children[1..]| && Blames(m, children[1..][i], path + [Child(index + 1 + i)], e);
      assert Blames(m, children[i + 1], path + [Child(index + (i + 1))], e);
    }
  }

  lemma AssembleBlames(scene: Scene, path: seq<PathStep>, gap: nat, nodes: seq<Node>, axis: Axis, e: LayoutError)
    requires Assemble(scene, path, gap, nodes, axis) == Err(e)
    ensures e == LayoutError(ImpossibleConstraints, path)
  {
    TotalBlames(0, Mains(nodes, axis, false), path);
    TotalBlames(0, Mains(nodes, axis, true), path);
  }

  lemma {:induction false} TotalBlames(start: int, values: seq<int>, path: seq<PathStep>)
    ensures CheckedTotal(start, values, path).Err? ==>
      CheckedTotal(start, values, path).error == LayoutError(ImpossibleConstraints, path)
    decreases values
  {
    if values != [] { TotalBlames(start + values[0], values[1..], path); }
  }

  lemma {:induction false} ListBlames(m: Metrics, scene: Scene, path: seq<PathStep>, e: LayoutError)
    requires (scene.Row? || scene.Column?) && Measure(m, scene, path) == Err(e)
    ensures Blames(m, scene, path, e)
    decreases scene, 0
  {
    if m.gap(scene.gap).Some? {
      var nodes := MeasureChildren(m, scene.children, 0, path);
      if nodes.Err? {
        ChildrenBlame(m, scene.children, 0, path, e);
        var i :| 0 <= i < |scene.children| && Blames(m, scene.children[i], path + [Child(0 + i)], e);
        assert Blames(m, scene.children[i], path + [Child(i)], e);
      } else {
        AssembleBlames(scene, path, m.gap(scene.gap).value, nodes.value, if scene.Row? then Horizontal
          else Vertical, e);
      }
    }
  }

  /** Measuring fails for a reason: some scene of the tree lacks what the error says, and it stands where the error
      says. */
  lemma {:induction false} MeasureBlames(m: Metrics, scene: Scene, path: seq<PathStep>, e: LayoutError)
    requires Measure(m, scene, path) == Err(e)
    ensures Blames(m, scene, path, e)
    decreases scene, 1
  {
    if scene.Row? || scene.Column? {
      ListBlames(m, scene, path, e);
    } else if scene.Button? || scene.ActionRegion? {
      if Measure(m, scene.content, path + [Content]).Err? && (scene.Button? ==> m.spacer("normal").Some?) {
        MeasureBlames(m, scene.content, path + [Content], e);
      }
    } else {
      LeafBlames(m, scene, path, e);
    }
  }
}
