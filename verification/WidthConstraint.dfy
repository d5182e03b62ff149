/** The width-constraining pass: a measured tree is given its assigned width, children first, and each rich text is
    composed again at the width it gets. */
module WidthConstraint {
  import opened Optional
  import opened Pixels
  import opened FlexDistribution
  import opened SceneMeasure

  predicate UniformButtonRow(node: Node) {
    node.scene.Row? && node.children != [] && forall i :: 0 <= i < |node.children| ==> node.children[i].scene.Button?
  }

  /** The root row of an action menu whose children are all buttons. */
  predicate SplitsEqually(uniform: bool, node: Node) {
    uniform && node.path == [] && UniformButtonRow(node)
  }

  function MinimumWidths(nodes: seq<Node>): (widths: seq<int>)
    ensures |widths| == |nodes|
    ensures forall i :: 0 <= i < |nodes| ==> widths[i] == nodes[i].minimumWidth
  {
    seq(|nodes|, i requires 0 <= i < |nodes| => nodes[i].minimumWidth)
  }

  function Widths(nodes: seq<Node>): (widths: seq<int>)
    ensures |widths| == |nodes|
    ensures forall i :: 0 <= i < |nodes| ==> widths[i] == nodes[i].width
  {
    seq(|nodes|, i requires 0 <= i < |nodes| => nodes[i].width)
  }

  function Heights(nodes: seq<Node>): (heights: seq<int>)
    ensures |heights| == |nodes|
    ensures forall i :: 0 <= i < |nodes| ==> heights[i] == nodes[i].height
  {
    seq(|nodes|, i requires 0 <= i < |nodes| => nodes[i].height)
  }

  function MinimumHeights(nodes: seq<Node>): (heights: seq<int>)
    ensures |heights| == |nodes|
    ensures forall i :: 0 <= i < |nodes| ==> heights[i] == nodes[i].minimumHeight
  {
    seq(|nodes|, i requires 0 <= i < |nodes| => nodes[i].minimumHeight)
  }

  function HorizontalSizes(uniform: bool, node: Node, available: int): (r: Result<seq<int>>)
    ensures r.Ok? ==> |r.value| == |node.children|
  {
    if SplitsEqually(uniform, node) then DistributeEqually(MinimumWidths(node.children), node.gap, available, node.path)
    else Distribute(Items(node.children, Horizontal), node.gap, available, node.path)
  }

  /** A column hands its width to children that expand and at most its width to the others. */
  function ColumnWidths(nodes: seq<Node>, available: int): (widths: seq<int>)
    ensures |widths| == |nodes|
    ensures forall i :: 0 <= i < |nodes| ==>
      widths[i] == if nodes[i].expandsWidth then available else Min(nodes[i].width, available)
  {
    seq(|nodes|, i requires 0 <= i < |nodes| => if nodes[i].expandsWidth then available
      else Min(nodes[i].width, available))
  }

  function Gaps(node: Node): int {
    node.gap * (if |node.children| > 1 then |node.children| - 1 else 0)
  }

  /** The pass rewrites sizes and compositions; everything else about a node stays. */
  predicate SameFrame(after: Node, before: Node) {
    && after == before.(width := after.width, height := after.height, minimumWidth := after.minimumWidth,
         minimumHeight := after.minimumHeight, composition := after.composition, children := after.children)
    && |after.children| == |before.children|
  }

  function Constrain(m: Metrics, uniform: bool, node: Node, available: int): (r: Result<Node>)
    ensures r.Ok? ==> SameFrame(r.value, node)
    decreases node, 1
  {
    if available < 0 then Impossible(node.path)
    else match node.scene
    case Rich(rich) => ConstrainRich(m, node, rich, available)
    case TextInput(_, _, _, _) => if available < node.minimumWidth then Impossible(node.path)
      else Ok(node.(width := available))
    case Row(_, _, _) => ConstrainRow(m, uniform, node, available)
    case Column(_, _, _) => ConstrainColumn(m, uniform, node, available)
    case Button(_, _, _) => ConstrainButton(m, uniform, node, available)
    case ActionRegion(_, _, _) => ConstrainRegion(m, uniform, node, available)
    case _ => Ok(node)
  }

  function ConstrainRow(m: Metrics, uniform: bool, node: Node, available: int): (r: Result<Node>)
    ensures r.Ok? ==> SameFrame(r.value, node)
    decreases node, 0
  {
    var sizes :- HorizontalSizes(uniform, node, available);
    var children :- ConstrainChildren(m, uniform, node.children, sizes);
    RowAround(node, children, sizes)
  }

  function ConstrainColumn(m: Metrics, uniform: bool, node: Node, available: int): (r: Result<Node>)
    ensures r.Ok? ==> SameFrame(r.value, node)
    decreases node, 0
  {
    var children :- ConstrainChildren(m, uniform, node.children, ColumnWidths(node.children, available));
    ColumnAround(node, children, available)
  }

  function ConstrainButton(m: Metrics, uniform: bool, node: Node, available: int): (r: Result<Node>)
    ensures r.Ok? ==> SameFrame(r.value, node)
    decreases node, 0
  {
    var doubled :- CheckedMultiply(2, node.padding, node.path);
    var inner :- CheckedSubtract(available, doubled, node.path);
    if inner < 0 || |node.children| != 1 then Impossible(node.path)
    else
      var child :- Constrain(m, uniform, node.children[0], inner);
      var height :- CheckedAdd(child.height, doubled, node.path);
      Ok(node.(width := available, height := height, minimumHeight := height, children := [child]))
  }

  function ConstrainRegion(m: Metrics, uniform: bool, node: Node, available: int): (r: Result<Node>)
    ensures r.Ok? ==> SameFrame(r.value, node)
    decreases node, 0
  {
    if |node.children| != 1 then Impossible(node.path)
    else
      var child :- Constrain(m, uniform, node.children[0], available);
      Ok(node.(width := child.width, height := child.height, minimumWidth := child.minimumWidth,
        minimumHeight := child.minimumHeight, children := [child]))
  }

  function ConstrainRich(m: Metrics, node: Node, rich: RichText, available: int): (r: Result<Node>)
    ensures r.Ok? ==> SameFrame(r.value, node)
  {
    if available <= 0 then Impossible(node.path)
    else
      var composition :- Sized(m.compose(rich, available), node.path);
      if composition.height < 0 || composition.minimumWidth < 0 then Impossible(node.path)
      else Ok(node.(width := available, height := composition.height, minimumWidth := composition.minimumWidth,
        minimumHeight := composition.height, composition := Some(composition)))
  }

  function RowAround(node: Node, children: seq<Node>, sizes: seq<int>): (r: Result<Node>)
    requires |children| == |node.children|
    ensures r.Ok? ==> SameFrame(r.value, node)
  {
    var width :- CheckedTotal(Gaps(node), sizes, node.path);
    Ok(node.(width := width, height := Largest(Heights(children)), minimumHeight := Largest(MinimumHeights(children)),
      children := children))
  }

  function ColumnAround(node: Node, children: seq<Node>, available: int): (r: Result<Node>)
    requires |children| == |node.children|
    ensures r.Ok? ==> SameFrame(r.value, node)
  {
    var height :- CheckedTotal(Gaps(node), Heights(children), node.path);
    var minimumHeight :- CheckedTotal(Gaps(node), MinimumHeights(children), node.path);
    Ok(node.(width := if node.expandsWidth then available else Largest(Widths(children)), height := height,
      minimumWidth := Largest(MinimumWidths(children)), minimumHeight := minimumHeight, children := children))
  }

  function ConstrainChildren(m: Metrics, uniform: bool, nodes: seq<Node>, sizes: seq<int>): (r: Result<seq<Node>>)
    requires |nodes| == |sizes|
    ensures r.Ok? ==> |r.value| == |nodes|
    ensures r.Ok? ==> forall i :: 0 <= i < |nodes| ==> Constrain(m, uniform, nodes[i], sizes[i]) == Ok(r.value[i])
    decreases nodes, 0
  {
    if nodes == [] then Ok([])
    else
      var first :- Constrain(m, uniform, nodes[0], sizes[0]);
      var rest :- ConstrainChildren(m, uniform, nodes[1..], sizes[1..]);
      Ok([first] + rest)
  }

  predicate HasRich(node: Node)
    decreases node
  {
    node.scene.Rich? || exists i :: 0 <= i < |node.children| && HasRich(node.children[i])
  }

  /** The minimum width a node has after constraining, at whatever width. Measuring ignores a spacer's width in a
      column; constraining counts it, and an action region passes it on. */
  function Floor(node: Node): int
    decreases node
  {
    match node.scene
    case Column(_, _, _) => Largest(Floors(node.children))
    case ActionRegion(_, _, _) => if |node.children| == 1 then Floor(node.children[0]) else node.minimumWidth
    case _ => node.minimumWidth
  }

  function Floors(nodes: seq<Node>): (floors: seq<int>)
    ensures |floors| == |nodes| && forall i :: 0 <= i < |nodes| ==> floors[i] == Floor(nodes[i])
    decreases nodes
  {
    if nodes == [] then [] else [Floor(nodes[0])] + Floors(nodes[1..])
  }

  /** A row's children as its distribution sees them once they are constrained, as far as agreement reads them. */
  function FloorItems(nodes: seq<Node>): (items: seq<Item>)
    ensures |items| == |nodes|
    ensures forall i :: 0 <= i < |nodes| ==>
              items[i] == Item(nodes[i].width, if nodes[i].scene.Spacer? then MainSize(nodes[i], Horizontal, true)
                                               else Floor(nodes[i]), ExpandsMain(nodes[i], Horizontal))
  {
    seq(|nodes|, i requires 0 <= i < |nodes| =>
      Item(nodes[i].width, if nodes[i].scene.Spacer? then MainSize(nodes[i], Horizontal, true) else Floor(nodes[i]),
           ExpandsMain(nodes[i], Horizontal)))
  }

  /** The widths a row assigns leave room for what its columns' rigid spacers need: no child's floor is above its
      width, and what flexible children get above their floors is fair. */
  predicate RowRespects(uniform: bool, node: Node, sizes: seq<int>) {
    SplitsEqually(uniform, node) || Respects(FloorItems(node.children), sizes)
  }

  /** Every row of the measured tree respects the widths that constraining it to `available` assigns. */
  predicate Roomy(uniform: bool, node: Node, available: int)
    decreases node
  {
    match node.scene
    case Row(_, _, _) =>
      HorizontalSizes(uniform, node, available).Ok? ==>
        var sizes := HorizontalSizes(uniform, node, available).value;
        && RowRespects(uniform, node, sizes)
        && forall i :: 0 <= i < |node.children| ==> Roomy(uniform, node.children[i], sizes[i])
    case Column(_, _, _) =>
      var widths := ColumnWidths(node.children, available);
      forall i :: 0 <= i < |node.children| ==> Roomy(uniform, node.children[i], widths[i])
    case Button(_, _, _) =>
      forall i :: 0 <= i < |node.children| ==> Roomy(uniform, node.children[i], available - 2 * node.padding)
    case ActionRegion(_, _, _) =>
      forall i :: 0 <= i < |node.children| ==> Roomy(uniform, node.children[i], available)
    case _ => true
  }

  /** No rigid spacer that is a direct child of a column is wider than what the column measured as its minimum. */
  predicate NarrowSpacers(node: Node)
    decreases node
  {
    && (node.scene.Column? ==> forall i :: 0 <= i < |node.children| && node.children[i].scene.Spacer? ==>
          node.children[i].width <= node.minimumWidth)
    && (forall i :: 0 <= i < |node.children| ==> NarrowSpacers(node.children[i]))
  }

  /** A constrained node that, placed at width `width`, derives for every rich text the width it was composed at. */
  ghost predicate Settled(m: Metrics, uniform: bool, node: Node, width: int)
    decreases node
  {
    match node.scene
    case Rich(rich) =>
      && node.composition.Some? && m.compose(rich, width) == Measured(node.composition.value)
      && node.height == node.composition.value.height
    case Row(_, _, _) =>
      && HorizontalSizes(uniform, node, width).Ok?
      && forall i :: 0 <= i < |node.children| ==>
           Settled(m, uniform, node.children[i], HorizontalSizes(uniform, node, width).value[i])
    case Column(_, _, _) =>
      forall i :: 0 <= i < |node.children| && node.children[i].expandsWidth ==>
        Settled(m, uniform, node.children[i], width)
    case Button(_, _, _) =>
      && node.width == width && |node.children| == 1
      && (HasRich(node.children[0]) ==> node.children[0].width == width - 2 * node.padding)
      && Settled(m, uniform, node.children[0], width - 2 * node.padding)
    case ActionRegion(_, _, _) => |node.children| == 1 && Settled(m, uniform, node.children[0], width)
    case _ => true
  }

  /** What constraining `before` to `width` leaves as it was, and what it establishes, whatever the spacers. */
  predicate Bounded(before: Node, width: int, after: Node) {
    && SameFrame(after, before)
    && after.minimumWidth == Floor(before)
    && Min(width, before.width) <= after.width <= Max(Max(width, before.width), Floor(before))
    && (!before.expandsWidth ==> Floor(before) <= after.width)
    && HasRich(after) == HasRich(before)
    && (HasRich(before) ==> after.width == width)
  }

  lemma {:induction false} RichExpands(node: Node)
    requires Framed(node) && HasRich(node)
    ensures node.expandsWidth
    decreases node
  {
    if !node.scene.Rich? {
      var i :| 0 <= i < |node.children| && HasRich(node.children[i]);
      RichExpands(node.children[i]);
      assert ExpandsMain(node.children[i], Horizontal);
    }
  }

  // ---- Unfolding a successful pass ----

  lemma RowUnfolds(m: Metrics, uniform: bool, node: Node, available: int, after: Node)
    requires node.scene.Row? && Constrain(m, uniform, node, available) == Ok(after)
    ensures HorizontalSizes(uniform, node, available).Ok?
    ensures RowAround(node, after.children, HorizontalSizes(uniform, node, available).value) == Ok(after)
    ensures forall i :: 0 <= i < |node.children| ==>
      Constrain(m, uniform, node.children[i], HorizontalSizes(uniform, node, available).value[i]) ==
        Ok(after.children[i])
  {
  }

  lemma ColumnUnfolds(m: Metrics, uniform: bool, node: Node, available: int, after: Node)
    requires node.scene.Column? && Constrain(m, uniform, node, available) == Ok(after)
    ensures ColumnAround(node, after.children, available) == Ok(after)
    ensures forall i :: 0 <= i < |node.children| ==>
      Constrain(m, uniform, node.children[i], ColumnWidths(node.children, available)[i]) == Ok(after.children[i])
  {
  }

  lemma ButtonUnfolds(m: Metrics, uniform: bool, node: Node, available: int, after: Node)
    requires node.scene.Button? && Constrain(m, uniform, node, available) == Ok(after)
    ensures |node.children| == 1
    ensures Constrain(m, uniform, node.children[0], available - 2 * node.padding) == Ok(after.children[0])
    ensures after.minimumWidth == node.minimumWidth && after.width == available
    ensures after.minimumHeight == after.height == after.children[0].height + 2 * node.padding
  {
  }

  lemma RegionUnfolds(m: Metrics, uniform: bool, node: Node, available: int, after: Node)
    requires node.scene.ActionRegion? && Constrain(m, uniform, node, available) == Ok(after)
    ensures |node.children| == 1
    ensures Constrain(m, uniform, node.children[0], available) == Ok(after.children[0])
    ensures after.width == after.children[0].width && after.height == after.children[0].height
    ensures after.minimumWidth == after.children[0].minimumWidth &&
      after.minimumHeight == after.children[0].minimumHeight
  {
  }
}
