/** What every successful placement guarantees: rich text agrees with its composition, everything stays inside
    its rectangle and clip, and siblings are apart. */
module PlacementProperties {
  import opened Pixels
  import opened FlexDistribution
  import opened SceneMeasure
  import opened WidthConstraint
  import opened WidthAgreement
  import opened Placement

  // ---- Children along the axis ----

  /** The length children and the gaps between them take. */
  function Extent(sizes: seq<int>, gap: int): int {
    if sizes == [] then 0
    else if |sizes| == 1 then sizes[0]
    else sizes[0] + gap + Extent(sizes[1..], gap)
  }

  /** Where child `index` starts. */
  function Cursor(start: int, sizes: seq<int>, gap: int, index: nat): int
    requires index <= |sizes|
  {
    if index == 0 then start else Cursor(start, sizes, gap, index - 1) + sizes[index - 1] + gap
  }

  /** The rectangle of child `index`. */
  function AreaOf(uniform: bool, node: Node, sizes: seq<int>, box: Rect, axis: Axis, index: nat): Result<Rect>
    requires index < |sizes| == |node.children|
  {
    var cursor := Cursor(MainStart(box, axis), sizes, node.gap, index);
    ChildRect(uniform, node, node.children[index], sizes[index], cursor, box, axis)
  }

  predicate NonNegative(sizes: seq<int>) {
    forall i :: 0 <= i < |sizes| ==> 0 <= sizes[i]
  }

  lemma {:induction false} ExtentIsSum(sizes: seq<int>, gap: int)
    ensures Extent(sizes, gap) == Sum(sizes) + gap * (if |sizes| > 1 then |sizes| - 1 else 0)
  {
    if |sizes| > 1 {
      ExtentIsSum(sizes[1..], gap);
      assert gap * (|sizes| - 1) == gap + gap * (|sizes| - 2);
    } else if |sizes| == 1 {
      assert sizes == [sizes[0]] + sizes[1..];
      assert Sum(sizes[1..]) == 0;
    }
  }

  lemma {:induction false} ExtentNonNegative(sizes: seq<int>, gap: int)
    requires NonNegative(sizes) && 0 <= gap
    ensures 0 <= Extent(sizes, gap)
    ensures sizes != [] ==> sizes[0] <= Extent(sizes, gap)
  {
    if |sizes| > 1 { ExtentNonNegative(sizes[1..], gap); }
  }

  lemma DistributedFit(items: seq<Item>, gap: int, available: int, path: seq<PathStep>)
    requires forall i :: 0 <= i < |items| ==> 0 <= items[i].minimum && 0 <= items[i].natural
    requires 0 <= gap && Distribute(items, gap, available, path).Ok?
    ensures NonNegative(Distribute(items, gap, available, path).value)
    ensures Extent(Distribute(items, gap, available, path).value, gap) <= available
  {
    ExtentIsSum(Distribute(items, gap, available, path).value, gap);
    DistributeFits(items, gap, available, path);
  }

  lemma EquallyFit(minimums: seq<int>, gap: int, available: int, path: seq<PathStep>)
    requires minimums != [] && 0 <= gap && NonNegative(minimums)
    requires DistributeEqually(minimums, gap, available, path).Ok?
    ensures NonNegative(DistributeEqually(minimums, gap, available, path).value)
    ensures Extent(DistributeEqually(minimums, gap, available, path).value, gap) == available
  {
    var sizes := DistributeEqually(minimums, gap, available, path).value;
    ExtentIsSum(sizes, gap);
    EqualSplitIsExact(minimums, gap, available, path);
    forall i | 0 <= i < |sizes| ensures 0 <= sizes[i] { assert minimums[i] <= sizes[i]; }
  }

  /** Placement's sizes are pixels and with the gaps they stay within the assigned length. */
  lemma MainSizesFit(uniform: bool, node: Node, available: int, axis: Axis)
    requires Framed(node) && (node.scene.Row? || node.scene.Column?)
    requires MainSizes(uniform, node, available, axis).Ok?
    ensures NonNegative(MainSizes(uniform, node, available, axis).value)
    ensures Extent(MainSizes(uniform, node, available, axis).value, node.gap) <= available
  {
    forall i | 0 <= i < |node.children|
      ensures 0 <= Items(node.children, axis)[i].minimum && 0 <= Items(node.children, axis)[i].natural
      ensures 0 <= MinimumWidths(node.children)[i]
    {
      assert PixelSizes(node.children[i]);
    }
    if SplitsEqually(uniform, node) {
      EquallyFit(MinimumWidths(node.children), node.gap, available, node.path);
    } else {
      DistributedFit(Items(node.children, axis), node.gap, available, node.path);
    }
  }

  lemma DistributedFill(node: Node, available: int, axis: Axis)
    requires Shaped(node) && (node.scene.Row? || node.scene.Column?)
    requires Distribute(Items(node.children, axis), node.gap, available, node.path).Ok?
    requires AnyExpands(node.children, axis)
    ensures Extent(Distribute(Items(node.children, axis), node.gap, available, node.path).value, node.gap) == available
  {
    var items := Items(node.children, axis);
    var i :| 0 <= i < |node.children| && ExpandsMain(node.children[i], axis);
    ShapedItems(node.children, axis);
    DistributeFillsExactly(items, node.gap, available, node.path, i);
    ExtentIsSum(Distribute(items, node.gap, available, node.path).value, node.gap);
  }

  /** With a flexible child, or in an equally split row, the assigned length is filled exactly. */
  lemma MainSizesFill(uniform: bool, node: Node, available: int, axis: Axis)
    requires Shaped(node) && (node.scene.Row? || node.scene.Column?)
    requires MainSizes(uniform, node, available, axis).Ok?
    requires AnyExpands(node.children, axis) || SplitsEqually(uniform, node)
    ensures Extent(MainSizes(uniform, node, available, axis).value, node.gap) == available
  {
    if SplitsEqually(uniform, node) {
      forall i | 0 <= i < |node.children| ensures 0 <= MinimumWidths(node.children)[i] {
        assert Shaped(node.children[i]);
      }
      EquallyFit(MinimumWidths(node.children), node.gap, available, node.path);
    } else {
      DistributedFill(node, available, axis);
    }
  }

  lemma HalfBounds(value: int)
    requires 0 <= value
    ensures 0 <= Half(value) <= value
  {
  }

  /** A child's rectangle lies in its parent's and takes exactly its share of the axis. */
  lemma ChildRectInside(uniform: bool, node: Node, child: Node, size: int, cursor: int, box: Rect, axis: Axis)
    requires Framed(child) && 0 <= size
    requires MainStart(box, axis) <= cursor && cursor + size <= MainStart(box, axis) + Available(box, axis)
    requires ChildRect(uniform, node, child, size, cursor, box, axis).Ok?
    ensures var area := ChildRect(uniform, node, child, size, cursor, box, axis).value;
      Inside(area, box) && MainStart(area, axis) == cursor && Available(area, axis) == size
  {
    assert PixelSizes(child);
  }

  /** One step of the walk along the axis keeps the remaining children within the assigned length. */
  lemma CursorStep(sizes: seq<int>, gap: int, index: nat, cursor: int, limit: int)
    requires NonNegative(sizes) && 0 <= gap && index < |sizes|
    requires cursor + Extent(sizes[index..], gap) <= limit
    ensures cursor + sizes[index] <= limit
    ensures index + 1 < |sizes| ==> cursor + sizes[index] + gap + Extent(sizes[index + 1..], gap) <= limit
    ensures index + 1 == |sizes| ==> cursor + sizes[index] + Extent(sizes[index + 1..], gap) <= limit
  {
    assert sizes[index..][1..] == sizes[index + 1..];
    ExtentNonNegative(sizes[index..], gap);
  }

  lemma {:induction false} CursorsApart(start: int, sizes: seq<int>, gap: int, i: nat, j: nat)
    requires NonNegative(sizes) && 0 <= gap && i < j <= |sizes|
    ensures Cursor(start, sizes, gap, i) + sizes[i] + gap <= Cursor(start, sizes, gap, j)
  {
    if i + 1 < j { CursorsApart(start, sizes, gap, i, j - 1); }
  }

  /** Children of a row or a column start exactly the gap after one another and share no pixel. */
  lemma SiblingsAreApart(uniform: bool, node: Node, sizes: seq<int>, box: Rect, axis: Axis, i: nat, j: nat)
    requires Framed(node) && NonNegative(sizes) && |sizes| == |node.children|
    requires i < j < |sizes|
    requires AreaOf(uniform, node, sizes, box, axis, i).Ok? && AreaOf(uniform, node, sizes, box, axis, j).Ok?
    ensures var first, second :=
        AreaOf(uniform, node, sizes, box, axis, i).value, AreaOf(uniform, node, sizes, box, axis, j).value;
      && (j == i + 1 ==> MainStart(second, axis) == MainStart(first, axis) + Available(first, axis) + node.gap)
      && (forall px, py :: !(Covers(first, px, py) && Covers(second, px, py)))
  {
    CursorsApart(MainStart(box, axis), sizes, node.gap, i, j);
  }

  // ---- A row placed as it was constrained ----

  /** An equally split row's buttons, once constrained, never make the distribution that is tried first fail. */
  lemma SplitRowDistributes(m: Metrics, uniform: bool, node: Node, available: int, after: Node)
    requires SteadyMetrics(m) && Sound(m, node) && node.scene.Row? && SplitsEqually(uniform, node)
    requires available <= INT_MAX && Constrain(m, uniform, node, available) == Ok(after)
    ensures Distribute(Items(after.children, Horizontal), after.gap, available, after.path).Ok?
  {
    RowUnfolds(m, uniform, node, available, after);
    RowChildrenBounded(m, uniform, node, available, after);
    var sizes, again := HorizontalSizes(uniform, node, available).value, Items(after.children, Horizontal);
    EqualSplitIsExact(MinimumWidths(node.children), node.gap, available, node.path);
    forall i | 0 <= i < |again|
      ensures again[i].minimum <= Basis(again[i]) <= sizes[i] && 0 <= again[i].minimum
    {
      SplitButton(m, uniform, node, available, after, i);
    }
    SumMonotone(Bases(again), sizes);
    SumMonotone(Minimums(again), sizes);
    DistributeSucceedsIff(again, node.gap, available, node.path);
  }

  lemma SplitButton(m: Metrics, uniform: bool, node: Node, available: int, after: Node, i: nat)
    requires SteadyMetrics(m) && Sound(m, node) && node.scene.Row? && SplitsEqually(uniform, node)
    requires Constrain(m, uniform, node, available) == Ok(after) && i < |node.children|
    requires HorizontalSizes(uniform, node, available).Ok?
    ensures var item := ItemOf(after.children[i], Horizontal);
      0 <= item.minimum <= Basis(item) <= HorizontalSizes(uniform, node, available).value[i]
  {
    RowUnfolds(m, uniform, node, available, after);
    RowSizesFit(uniform, node, available, i);
    assert node.children[i].scene.Button? && Shaped(node.children[i]);
    ButtonUnfolds(m, uniform, node.children[i], HorizontalSizes(uniform, node, available).value[i], after.children[i]);
  }

  /** Placing a constrained row gives its children the widths they were constrained to exactly if those widths leave
      room for what spacers deeper down need. */
  lemma RowPlacedAsConstrainedIff(m: Metrics, uniform: bool, node: Node, available: int, after: Node)
    requires SteadyMetrics(m) && Sound(m, node) && node.scene.Row? && available <= INT_MAX
    requires Constrain(m, uniform, node, available) == Ok(after)
    ensures HorizontalSizes(uniform, node, available).Ok?
    ensures MainSizes(uniform, after, available, Horizontal) == HorizontalSizes(uniform, node, available) <==>
              RowRespects(uniform, node, HorizontalSizes(uniform, node, available).value)
  {
    RowRepeatsIff(m, uniform, node, available, after);
    if SplitsEqually(uniform, node) {
      SplitRowDistributes(m, uniform, node, available, after);
    }
    if MainSizes(uniform, after, available, Horizontal).Ok? { RowSizesAreMain(uniform, after, available); }
  }

  // ---- Agreement with the composition ----

  /** The renderer rasterises a rich text at the width of its bounds; what it gets is what was laid out. */
  predicate Agrees(m: Metrics, draw: Draw) {
    draw.RichDraw? ==>
      m.compose(draw.rich, draw.bounds.width) == Measured(draw.composition) &&
        draw.bounds.height == draw.composition.height
  }

  ghost predicate AllAgree(m: Metrics, placed: Placed) {
    forall i :: 0 <= i < |placed.draws| ==> Agrees(m, placed.draws[i])
  }

  lemma JoinAgrees(m: Metrics, first: Placed, second: Placed)
    requires AllAgree(m, first) && AllAgree(m, second)
    ensures AllAgree(m, Join(first, second))
  {
  }

  /** What a child needs for its subtree to agree once it is placed in a rectangle of that width. */
  ghost predicate Ready(m: Metrics, uniform: bool, node: Node, width: int) {
    HasRich(node) ==> Settled(m, uniform, node, width)
  }

  ghost predicate ChildrenReady(m: Metrics, uniform: bool, node: Node, sizes: seq<int>, width: int) {
    && |sizes| == |node.children|
    && forall i :: 0 <= i < |node.children| ==>
         Ready(m, uniform, node.children[i], if node.scene.Row? then sizes[i] else width)
  }

  lemma RichParent(node: Node, i: nat)
    requires i < |node.children| && HasRich(node.children[i])
    ensures HasRich(node)
  {
  }

  lemma ContainerReady(m: Metrics, uniform: bool, node: Node, box: Rect)
    requires Framed(node) && Ready(m, uniform, node, box.width) && (node.scene.Row? || node.scene.Column?)
    requires MainSizes(uniform, node, Available(box, AxisOf(node)), AxisOf(node)).Ok?
    ensures ChildrenReady(m, uniform, node, MainSizes(uniform, node, Available(box, AxisOf(node)), AxisOf(node)).value,
      box.width)
  {
    var sizes := MainSizes(uniform, node, Available(box, AxisOf(node)), AxisOf(node)).value;
    forall i | 0 <= i < |node.children|
      ensures Ready(m, uniform, node.children[i], if node.scene.Row? then sizes[i] else box.width)
    {
      if HasRich(node.children[i]) {
        RichParent(node, i);
        if node.scene.Row? {
          RowSizesAreMain(uniform, node, box.width);
        } else {
          RichExpands(node.children[i]);
        }
      }
    }
  }

  lemma RowSizesAreMain(uniform: bool, node: Node, available: int)
    requires node.scene.Row? && MainSizes(uniform, node, available, Horizontal).Ok?
    ensures MainSizes(uniform, node, available, Horizontal) == HorizontalSizes(uniform, node, available)
  {
  }

  lemma {:induction false} PlaceAgrees(m: Metrics, uniform: bool, node: Node, box: Rect, clip: Rect)
    requires Framed(node) && Ready(m, uniform, node, box.width)
    requires Place(m, uniform, node, box, clip).Ok?
    ensures AllAgree(m, Place(m, uniform, node, box, clip).value)
    decreases node, 2
  {
    if node.scene.Row? || node.scene.Column? {
      PlaceContainerStep(m, uniform, node, box, clip);
      ContainerReady(m, uniform, node, box);
      var sizes := MainSizes(uniform, node, Available(box, AxisOf(node)), AxisOf(node)).value;
      PlaceChildrenAgree(m, uniform, node, sizes, 0, MainStart(box, AxisOf(node)), box,
        Intersect(clip, box, node.path).value);
    } else if node.scene.Button? {
      PlaceButtonStep(m, uniform, node, box, clip);
      var frame := FrameButton(uniform, node, box, clip).value;
      ContentReady(m, uniform, node, box, clip);
      PlaceAgrees(m, uniform, node.children[0], frame.content, frame.clip);
      JoinAgrees(m, ButtonOwn(node, frame), Place(m, uniform, node.children[0], frame.content, frame.clip).value);
    } else if node.scene.ActionRegion? {
      PlaceRegionStep(m, uniform, node, box, clip);
      var clipped := FrameRegion(node, box, clip).value;
      if HasRich(node.children[0]) { RichParent(node, 0); }
      PlaceAgrees(m, uniform, node.children[0], box, clipped);
      JoinAgrees(m, RegionOwn(node, box, clipped), Place(m, uniform, node.children[0], box, clipped).value);
    } else {
      LeafAgrees(m, uniform, node, box, clip);
    }
  }

  lemma ContentReady(m: Metrics, uniform: bool, node: Node, box: Rect, clip: Rect)
    requires Framed(node) && node.scene.Button? && Ready(m, uniform, node, box.width)
    requires FrameButton(uniform, node, box, clip).Ok?
    ensures Ready(m, uniform, node.children[0], FrameButton(uniform, node, box, clip).value.content.width)
  {
    if HasRich(node.children[0]) {
      RichParent(node, 0);
      ContentWidthOf(uniform, node, box, clip);
    }
  }

  lemma ContentWidthOf(uniform: bool, node: Node, box: Rect, clip: Rect)
    requires Framed(node) && node.scene.Button? && FrameButton(uniform, node, box, clip).Ok?
    requires node.width == box.width && node.children[0].width == box.width - 2 * node.padding
    ensures FrameButton(uniform, node, box, clip).value.content.width == box.width - 2 * node.padding
  {
  }

  lemma LeafAgrees(m: Metrics, uniform: bool, node: Node, box: Rect, clip: Rect)
    requires !IsContainer(node.scene) && Ready(m, uniform, node, box.width)
    requires PlaceLeaf(m, node, box, clip).Ok?
    ensures AllAgree(m, PlaceLeaf(m, node, box, clip).value)
  {
  }

  lemma {:induction false} PlaceChildrenAgree(m: Metrics, uniform: bool, node: Node, sizes: seq<int>, index: nat,
      cursor: int, box: Rect, clip: Rect)
    requires Framed(node) && ChildrenReady(m, uniform, node, sizes, box.width) && index <= |sizes|
    requires node.scene.Row? || node.scene.Column?
    requires PlaceChildren(m, uniform, node, sizes, index, cursor, box, clip, AxisOf(node)).Ok?
    ensures AllAgree(m, PlaceChildren(m, uniform, node, sizes, index, cursor, box, clip, AxisOf(node)).value)
    decreases node, 1, |sizes| - index
  {
    if index < |sizes| {
      PlaceChildrenStep(m, uniform, node, sizes, index, cursor, box, clip, AxisOf(node));
      var area := ChildRect(uniform, node, node.children[index], sizes[index], cursor, box, AxisOf(node)).value;
      var next := NextCursor(node, sizes, index, cursor);
      PlaceChildAgrees(m, uniform, node, sizes, index, cursor, box, clip);
      PlaceChildrenAgree(m, uniform, node, sizes, index + 1, next, box, clip);
      JoinAgrees(m, Place(m, uniform, node.children[index], area, clip).value,
        PlaceChildren(m, uniform, node, sizes, index + 1, next, box, clip, AxisOf(node)).value);
    }
  }

  lemma {:induction false} PlaceChildAgrees(m: Metrics, uniform: bool, node: Node, sizes: seq<int>, index: nat,
      cursor: int, box: Rect, clip: Rect)
    requires Framed(node) && ChildrenReady(m, uniform, node, sizes, box.width) && index < |sizes|
    requires node.scene.Row? || node.scene.Column?
    requires ChildRect(uniform, node, node.children[index], sizes[index], cursor, box, AxisOf(node)).Ok?
    requires var area := ChildRect(uniform, node, node.children[index], sizes[index], cursor, box, AxisOf(node)).value;
      Place(m, uniform, node.children[index], area, clip).Ok?
    ensures var area := ChildRect(uniform, node, node.children[index], sizes[index], cursor, box, AxisOf(node)).value;
      AllAgree(m, Place(m, uniform, node.children[index], area, clip).value)
    decreases node, 0
  {
    ChildReady(m, uniform, node, sizes, index, cursor, box);
    PlaceAgrees(m, uniform, node.children[index],
      ChildRect(uniform, node, node.children[index], sizes[index], cursor, box, AxisOf(node)).value, clip);
  }

  /** The rectangle a child is given has the width it is ready for. */
  lemma ChildReady(m: Metrics, uniform: bool, node: Node, sizes: seq<int>, index: nat, cursor: int, box: Rect)
    requires Framed(node) && ChildrenReady(m, uniform, node, sizes, box.width) && index < |sizes|
    requires node.scene.Row? || node.scene.Column?
    requires ChildRect(uniform, node, node.children[index], sizes[index], cursor, box, AxisOf(node)).Ok?
    ensures Ready(m, uniform, node.children[index],
      ChildRect(uniform, node, node.children[index], sizes[index], cursor, box, AxisOf(node)).value.width)
  {
    if HasRich(node.children[index]) { RichExpands(node.children[index]); }
  }
}
