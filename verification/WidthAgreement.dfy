/** Constraining a measured tree settles it: the widths that placement derives again from the mutated nodes are
    the widths each rich text was composed at, exactly where every row leaves room for its columns' spacers. */
module WidthAgreement {
  import opened Pixels
  import opened FlexDistribution
  import opened SceneMeasure
  import opened WidthConstraint

  predicate ChildrenBounded(before: seq<Node>, sizes: seq<int>, after: seq<Node>) {
    && |before| == |sizes| == |after|
    && forall i :: 0 <= i < |before| ==> Bounded(before[i], sizes[i], after[i])
  }

  lemma ShapedItems(nodes: seq<Node>, axis: Axis)
    requires forall i :: 0 <= i < |nodes| ==> Shaped(nodes[i])
    ensures Ordered(Items(nodes, axis))
    ensures Minimums(Items(nodes, axis)) == Mains(nodes, axis, true)
    ensures !AnyExpands(nodes, axis) ==> Bases(Items(nodes, axis)) == Mains(nodes, axis, false)
  {
    forall i | 0 <= i < |nodes|
      ensures 0 <= Items(nodes, axis)[i].minimum <= Items(nodes, axis)[i].natural
    {
      assert Shaped(nodes[i]);
    }
  }

  /** The sizes a row hands out fit its children. */
  lemma RowSizesFit(uniform: bool, node: Node, available: int, i: nat)
    requires Shaped(node) && node.scene.Row? && i < |node.children|
    requires HorizontalSizes(uniform, node, available).Ok?
    ensures node.children[i].minimumWidth <= HorizontalSizes(uniform, node, available).value[i]
    ensures !SplitsEqually(uniform, node) && !ExpandsMain(node.children[i], Horizontal) ==>
      HorizontalSizes(uniform, node, available).value[i] <= node.children[i].width
  {
    ShapedItems(node.children, Horizontal);
    if SplitsEqually(uniform, node) {
      EqualSplitIsExact(MinimumWidths(node.children), node.gap, available, node.path);
      assert MinimumWidths(node.children)[i] <= HorizontalSizes(uniform, node, available).value[i];
    } else {
      DistributeFills(Items(node.children, Horizontal), node.gap, available, node.path);
      assert Suits(Items(node.children, Horizontal)[i], HorizontalSizes(uniform, node, available).value[i]);
    }
  }

  /** The whole length a row hands out. */
  lemma RowLength(m: Metrics, uniform: bool, node: Node, available: int)
    requires Sound(m, node) && node.scene.Row?
    requires HorizontalSizes(uniform, node, available).Ok?
    ensures Fits(Gaps(node)) && 0 <= Gaps(node)
    ensures Gaps(node) + Sum(HorizontalSizes(uniform, node, available).value) ==
      if SplitsEqually(uniform, node) || node.expandsWidth then available else Min(available, node.width)
  {
    GapTotalNonNegative(node.gap, |node.children|);
    if SplitsEqually(uniform, node) {
      EqualSplitIsExact(MinimumWidths(node.children), node.gap, available, node.path);
    } else {
      RowFills(m, uniform, node, available);
    }
  }

  lemma RowFills(m: Metrics, uniform: bool, node: Node, available: int)
    requires Sound(m, node) && node.scene.Row? && !SplitsEqually(uniform, node)
    requires HorizontalSizes(uniform, node, available).Ok?
    ensures Gaps(node) + Sum(HorizontalSizes(uniform, node, available).value) ==
      if node.expandsWidth then available else Min(available, node.width)
  {
    var items := Items(node.children, Horizontal);
    ShapedItems(node.children, Horizontal);
    if node.expandsWidth {
      var i :| 0 <= i < |node.children| && ExpandsMain(node.children[i], Horizontal);
      DistributeFillsExactly(items, node.gap, available, node.path, i);
    } else {
      DistributeFills(items, node.gap, available, node.path);
      forall i | 0 <= i < |items| ensures items[i].expands == ExpandsMain(node.children[i], Horizontal) {}
    }
  }

  lemma ShapedIsFramed(node: Node)
    requires Shaped(node)
    ensures Framed(node)
    decreases node
  {
    forall i | 0 <= i < |node.children| ensures node.children[i].path != [] && Framed(node.children[i]) {
      ShapedIsFramed(node.children[i]);
    }
  }

  lemma SumsOfSizes(m: Metrics, uniform: bool, node: Node, available: int)
    requires Sound(m, node) && node.scene.Row?
    requires HorizontalSizes(uniform, node, available).Ok?
    ensures CheckedTotal(Gaps(node), HorizontalSizes(uniform, node, available).value, node.path).Ok? ==>
      CheckedTotal(Gaps(node), HorizontalSizes(uniform, node, available).value, node.path).value
        == Gaps(node) + Sum(HorizontalSizes(uniform, node, available).value)
  {
    var sizes := HorizontalSizes(uniform, node, available).value;
    RowLength(m, uniform, node, available);
    forall i | 0 <= i < |sizes| ensures 0 <= sizes[i] {
      RowSizesFit(uniform, node, available, i);
      assert Shaped(node.children[i]);
    }
    CheckedTotalIsSum(Gaps(node), sizes, node.path);
  }

  // ---- Floors ----

  lemma {:induction false} FloorIsLeast(m: Metrics, node: Node)
    requires Sound(m, node)
    ensures node.minimumWidth <= Floor(node)
    ensures node.scene.Spacer? ==> Floor(node) == MainSize(node, Horizontal, true) == node.width
    decreases node
  {
    if node.scene.Column? {
      LargestBounds(Floors(node.children));
      forall i | 0 <= i < |node.children|
        ensures Crosses(node.children, Vertical, true)[i] <= Floors(node.children)[i] {
        FloorIsLeast(m, node.children[i]);
      }
      LargestMonotone(Crosses(node.children, Vertical, true), Floors(node.children));
    } else if node.scene.ActionRegion? {
      FloorIsLeast(m, node.children[0]);
    }
  }

  /** A column's minimum width survives constraining exactly when no rigid spacer in it is wider. */
  lemma ColumnKeepsMinimumIff(m: Metrics, node: Node, after: seq<Node>)
    requires Sound(m, node) && node.scene.Column?
    requires |after| == |node.children|
    requires forall i :: 0 <= i < |after| ==> after[i].minimumWidth == node.children[i].minimumWidth
    ensures Largest(MinimumWidths(after)) == node.minimumWidth <==>
      forall i :: 0 <= i < |node.children| && node.children[i].scene.Spacer? ==>
        node.children[i].width <= node.minimumWidth
  {
    var crosses := Crosses(node.children, Vertical, true);
    LargestBounds(crosses);
    LargestBounds(MinimumWidths(after));
    forall i | 0 <= i < |after|
      ensures node.children[i].scene.Spacer? ==> MinimumWidths(after)[i] == node.children[i].width
      ensures !node.children[i].scene.Spacer? ==> MinimumWidths(after)[i] == crosses[i]
      ensures crosses[i] <= MinimumWidths(after)[i]
    {
      assert Shaped(node.children[i]);
    }
    if node.minimumWidth != 0 {
      var k :| 0 <= k < |crosses| && crosses[k] == node.minimumWidth;
      assert crosses[k] <= MinimumWidths(after)[k];
    }
  }

  lemma {:induction false} NarrowFloor(m: Metrics, node: Node)
    requires Sound(m, node) && NarrowSpacers(node)
    ensures Floor(node) == node.minimumWidth
    decreases node
  {
    if node.scene.Column? {
      var crosses, floors := Crosses(node.children, Vertical, true), Floors(node.children);
      forall i | 0 <= i < |node.children| ensures crosses[i] <= floors[i] <= node.minimumWidth {
        NarrowFloor(m, node.children[i]);
        assert Shaped(node.children[i]);
        LargestBounds(crosses);
      }
      LargestMonotone(crosses, floors);
      LargestBounds(floors);
      assert Shaped(node);
    } else if node.scene.ActionRegion? {
      NarrowFloor(m, node.children[0]);
    }
  }

  // ---- What constraining does to any tree ----

  lemma LeafIsBounded(m: Metrics, uniform: bool, node: Node, available: int)
    requires SteadyMetrics(m) && Sound(m, node) && !IsContainer(node.scene)
    requires node.minimumWidth <= available || node.scene.Spacer?
    requires Constrain(m, uniform, node, available).Ok?
    ensures Bounded(node, available, Constrain(m, uniform, node, available).value)
  {
    if node.scene.Rich? {
      var a :| m.compose(node.scene.rich, a).Measured? &&
        m.compose(node.scene.rich, a).value.minimumWidth == node.minimumWidth;
    }
  }

  /** What the children's frames carry over to their parent. */
  lemma FramesAgree(before: Node, sizes: seq<int>, after: Node)
    requires SameFrame(after, before) && ChildrenBounded(before.children, sizes, after.children)
    ensures HasRich(after) == HasRich(before)
    ensures AnyExpandsWidth(after.children) == AnyExpandsWidth(before.children)
  {
    forall i | 0 <= i < |before.children|
      ensures HasRich(after.children[i]) == HasRich(before.children[i])
      ensures after.children[i].expandsWidth == before.children[i].expandsWidth
    {
      assert Bounded(before.children[i], sizes[i], after.children[i]);
    }
  }

  lemma RowIsBounded(m: Metrics, uniform: bool, node: Node, available: int, sizes: seq<int>, after: Node)
    requires Sound(m, node) && node.scene.Row? && node.minimumWidth <= available
    requires HorizontalSizes(uniform, node, available) == Ok(sizes)
    requires SameFrame(after, node) && RowAround(node, after.children, sizes) == Ok(after)
    requires ChildrenBounded(node.children, sizes, after.children)
    ensures Bounded(node, available, after)
  {
    FramesAgree(node, sizes, after);
    RowLength(m, uniform, node, available);
    SumsOfSizes(m, uniform, node, available);
    if HasRich(node) {
      ShapedIsFramed(node);
      RichExpands(node);
    }
  }

  /** What a column gives a child other than a spacer is at least the child's minimum. */
  lemma ColumnChild(m: Metrics, node: Node, available: int, i: nat)
    requires Sound(m, node) && node.scene.Column? && i < |node.children|
    requires node.minimumWidth <= available
    ensures !node.children[i].scene.Spacer? ==>
      node.children[i].minimumWidth <= ColumnWidths(node.children, available)[i]
    ensures !node.children[i].scene.Spacer? ==> node.children[i].width <= node.width
  {
    assert Shaped(node.children[i]);
    LargestBounds(Crosses(node.children, Vertical, true));
    LargestBounds(Crosses(node.children, Vertical, false));
    assert Crosses(node.children, Vertical, true)[i] <= node.minimumWidth;
    assert Crosses(node.children, Vertical, false)[i] <= node.width;
  }

  lemma ColumnWidthOf(m: Metrics, node: Node, available: int, after: seq<Node>, i: nat)
    requires Sound(m, node) && node.scene.Column? && !node.expandsWidth && i < |node.children|
    requires node.minimumWidth <= available
    requires ChildrenBounded(node.children, ColumnWidths(node.children, available), after)
    ensures !node.children[i].scene.Spacer? ==> Min(available, node.children[i].width) <= Widths(after)[i]
    ensures Floor(node.children[i]) <= Widths(after)[i] <= Max(node.width, Floor(node))
  {
    var child := node.children[i];
    assert Bounded(child, ColumnWidths(node.children, available)[i], after[i]);
    ColumnChild(m, node, available, i);
    FloorIsLeast(m, child);
    LargestBounds(Floors(node.children));
    assert Floors(node.children)[i] <= Floor(node);
    assert !child.expandsWidth;
  }

  /** The widest child of a rigid column decides its width after constraining. */
  lemma ColumnWidth(m: Metrics, node: Node, available: int, after: seq<Node>)
    requires Sound(m, node) && node.scene.Column? && !node.expandsWidth
    requires node.minimumWidth <= available
    requires ChildrenBounded(node.children, ColumnWidths(node.children, available), after)
    ensures Min(available, node.width) <= Largest(Widths(after)) <= Max(node.width, Floor(node))
    ensures Floor(node) <= Largest(Widths(after))
  {
    assert Shaped(node);
    forall i | 0 <= i < |after|
      ensures Floors(node.children)[i] <= Widths(after)[i] <= Max(node.width, Floor(node))
    {
      ColumnWidthOf(m, node, available, after, i);
    }
    LargestBounds(Widths(after));
    LargestMonotone(Floors(node.children), Widths(after));
    WidestChild(m, node, available, after);
  }

  lemma WidestChild(m: Metrics, node: Node, available: int, after: seq<Node>)
    requires Sound(m, node) && node.scene.Column? && !node.expandsWidth
    requires node.minimumWidth <= available
    requires ChildrenBounded(node.children, ColumnWidths(node.children, available), after)
    ensures Min(available, node.width) <= Largest(Widths(after))
  {
    LargestBounds(Widths(after));
    LargestBounds(Crosses(node.children, Vertical, false));
    assert Shaped(node);
    if node.width != 0 {
      var k :| 0 <= k < |node.children| && Crosses(node.children, Vertical, false)[k] == node.width;
      ColumnWidthOf(m, node, available, after, k);
      assert Widths(after)[k] <= Largest(Widths(after));
    }
  }

  lemma ColumnIsBounded(m: Metrics, node: Node, available: int, after: Node)
    requires Sound(m, node) && node.scene.Column? && node.minimumWidth <= available
    requires SameFrame(after, node) && ColumnAround(node, after.children, available) == Ok(after)
    requires ChildrenBounded(node.children, ColumnWidths(node.children, available), after.children)
    ensures Bounded(node, available, after)
  {
    FramesAgree(node, ColumnWidths(node.children, available), after);
    assert MinimumWidths(after.children) == Floors(node.children);
    if HasRich(node) {
      ShapedIsFramed(node);
      RichExpands(node);
    }
    if !node.expandsWidth { ColumnWidth(m, node, available, after.children); }
  }

  lemma WrapperIsBounded(m: Metrics, node: Node, width: int, available: int, after: Node)
    requires Sound(m, node) && (node.scene.Button? || node.scene.ActionRegion?) && SameFrame(after, node)
    requires node.minimumWidth <= available && |node.children| == 1
    requires Bounded(node.children[0], width, after.children[0])
    requires node.scene.Button? ==> after.minimumWidth == node.minimumWidth && after.width == available
    requires node.scene.ActionRegion? ==>
               width == available && after.width == after.children[0].width
               && after.minimumWidth == after.children[0].minimumWidth
    ensures Bounded(node, available, after)
  {
    assert ChildrenBounded(node.children, [width], after.children);
    FramesAgree(node, [width], after);
    assert HasRich(node) ==> HasRich(node.children[0]);
  }

  /** Constraining a measured tree to a width at least its minimum bounds every node: its minimum becomes its floor, and
      its width lies between what it was and what it was given, unless the floor is above both. */
  lemma {:induction false} ConstrainBounds(m: Metrics, uniform: bool, node: Node, available: int, after: Node)
    requires SteadyMetrics(m) && Sound(m, node)
    requires node.minimumWidth <= available || node.scene.Spacer?
    requires Constrain(m, uniform, node, available) == Ok(after)
    ensures Bounded(node, available, after)
    decreases node, 1
  {
    if node.scene.Row? {
      RowUnfolds(m, uniform, node, available, after);
      RowChildrenBounded(m, uniform, node, available, after);
      RowIsBounded(m, uniform, node, available, HorizontalSizes(uniform, node, available).value, after);
    } else if node.scene.Column? {
      ColumnUnfolds(m, uniform, node, available, after);
      var widths := ColumnWidths(node.children, available);
      forall i | 0 <= i < |node.children| ensures Bounded(node.children[i], widths[i], after.children[i]) {
        ColumnChild(m, node, available, i);
        ConstrainBounds(m, uniform, node.children[i], widths[i], after.children[i]);
      }
      ColumnIsBounded(m, node, available, after);
    } else if node.scene.Button? {
      ButtonUnfolds(m, uniform, node, available, after);
      ConstrainBounds(m, uniform, node.children[0], available - 2 * node.padding, after.children[0]);
      WrapperIsBounded(m, node, available - 2 * node.padding, available, after);
    } else if node.scene.ActionRegion? {
      RegionUnfolds(m, uniform, node, available, after);
      ConstrainBounds(m, uniform, node.children[0], available, after.children[0]);
      WrapperIsBounded(m, node, available, available, after);
    } else {
      LeafIsBounded(m, uniform, node, available);
    }
  }

  lemma RowChildrenBounded(m: Metrics, uniform: bool, node: Node, available: int, after: Node)
    requires SteadyMetrics(m) && Sound(m, node) && node.scene.Row?
    requires Constrain(m, uniform, node, available) == Ok(after)
    ensures HorizontalSizes(uniform, node, available).Ok?
    ensures ChildrenBounded(node.children, HorizontalSizes(uniform, node, available).value, after.children)
    decreases node, 0
  {
    RowUnfolds(m, uniform, node, available, after);
    var sizes := HorizontalSizes(uniform, node, available).value;
    forall i | 0 <= i < |node.children| ensures Bounded(node.children[i], sizes[i], after.children[i]) {
      RowSizesFit(uniform, node, available, i);
      ConstrainBounds(m, uniform, node.children[i], sizes[i], after.children[i]);
    }
  }

  // ---- When a row repeats its distribution ----

  /** The constrained child, as the row's second distribution sees it. */
  lemma ItemAgain(m: Metrics, before: Node, size: int, after: Node)
    requires Sound(m, before) && Bounded(before, size, after)
    requires !ExpandsMain(before, Horizontal) ==> size <= MainSize(before, Horizontal, false)
    ensures var item, again := ItemOf(before, Horizontal), ItemOf(after, Horizontal);
            && again.minimum == (if before.scene.Spacer? then MainSize(before, Horizontal, true) else Floor(before))
            && again.expands == item.expands && item.minimum <= again.minimum
            && 0 <= again.minimum <= Basis(again)
            && (!item.expands ==> size <= again.natural <= Max(item.natural, again.minimum))
  {
    FloorIsLeast(m, before);
    assert Shaped(before);
  }

  lemma RowAgain(m: Metrics, uniform: bool, node: Node, available: int, after: Node)
    requires Sound(m, node) && node.scene.Row? && !SplitsEqually(uniform, node)
    requires HorizontalSizes(uniform, node, available).Ok?
    requires ChildrenBounded(node.children, HorizontalSizes(uniform, node, available).value, after.children)
    ensures Ordered(Items(after.children, Horizontal))
    ensures Raised(Items(node.children, Horizontal), HorizontalSizes(uniform, node, available).value,
                   Items(after.children, Horizontal))
    ensures Respects(Items(after.children, Horizontal), HorizontalSizes(uniform, node, available).value) <==>
              RowRespects(uniform, node, HorizontalSizes(uniform, node, available).value)
  {
    var sizes := HorizontalSizes(uniform, node, available).value;
    var items, again := Items(node.children, Horizontal), Items(after.children, Horizontal);
    ShapedItems(node.children, Horizontal);
    DistributeFills(items, node.gap, available, node.path);
    forall i | 0 <= i < |items|
      ensures again[i].minimum == FloorItems(node.children)[i].minimum
      ensures again[i].expands == FloorItems(node.children)[i].expands == items[i].expands
      ensures items[i].minimum <= again[i].minimum && 0 <= again[i].minimum <= Basis(again[i])
      ensures !items[i].expands ==> sizes[i] <= again[i].natural <= Max(items[i].natural, again[i].minimum)
    {
      assert Suits(items[i], sizes[i]);
      ItemAgain(m, node.children[i], sizes[i], after.children[i]);
    }
    SameRespect(again, FloorItems(node.children), sizes);
  }

  lemma SameRespect(a: seq<Item>, b: seq<Item>, sizes: seq<int>)
    requires |a| == |b| && forall i :: 0 <= i < |a| ==> a[i].minimum == b[i].minimum && a[i].expands == b[i].expands
    ensures Respects(a, sizes) <==> Respects(b, sizes)
  {
    if |sizes| == |a| {
      forall i, j | 0 <= i < j < |a| ensures Fair(a, sizes, i, j) <==> Fair(b, sizes, i, j) {}
    }
  }

  /** Running the row's distribution on the constrained children gives the sizes they were constrained to exactly if
      those sizes leave room for what spacers deeper down need. */
  lemma RowRepeatsIff(m: Metrics, uniform: bool, node: Node, available: int, after: Node)
    requires SteadyMetrics(m) && Sound(m, node) && node.scene.Row? && available <= INT_MAX
    requires Constrain(m, uniform, node, available) == Ok(after)
    ensures HorizontalSizes(uniform, node, available).Ok?
    ensures HorizontalSizes(uniform, after, available) == HorizontalSizes(uniform, node, available) <==>
              RowRespects(uniform, node, HorizontalSizes(uniform, node, available).value)
  {
    RowChildrenBounded(m, uniform, node, available, after);
    RowUnfolds(m, uniform, node, available, after);
    forall i | 0 <= i < |node.children| ensures SameFrame(after.children[i], node.children[i]) {}
    assert SplitsEqually(uniform, after) == SplitsEqually(uniform, node);
    if SplitsEqually(uniform, node) {
      forall i | 0 <= i < |node.children| ensures after.children[i].minimumWidth == node.children[i].minimumWidth {
        assert node.children[i].scene.Button?;
      }
      assert MinimumWidths(after.children) == MinimumWidths(node.children);
    } else {
      ShapedItems(node.children, Horizontal);
      RowAgain(m, uniform, node, available, after);
      DistributeAgainIff(Items(node.children, Horizontal), Items(after.children, Horizontal), node.gap, available,
        node.path);
    }
  }

  /** Without overwide spacers a row always repeats its distribution. */
  lemma NarrowRespects(m: Metrics, uniform: bool, node: Node, available: int)
    requires Sound(m, node) && NarrowSpacers(node) && node.scene.Row?
    requires HorizontalSizes(uniform, node, available).Ok?
    ensures RowRespects(uniform, node, HorizontalSizes(uniform, node, available).value)
  {
    if !SplitsEqually(uniform, node) {
      var sizes, items := HorizontalSizes(uniform, node, available).value, Items(node.children, Horizontal);
      ShapedItems(node.children, Horizontal);
      DistributeFills(items, node.gap, available, node.path);
      forall i | 0 <= i < |items|
        ensures items[i].minimum == FloorItems(node.children)[i].minimum <= sizes[i]
      {
        assert Suits(items[i], sizes[i]);
        NarrowFloor(m, node.children[i]);
      }
      forall i, j | 0 <= i < j < |items| && items[i].expands && items[j].expands ensures Fair(items, sizes, i, j) {
        DistributeIsFair(items, node.gap, available, node.path, i, j);
      }
      SameRespect(items, FloorItems(node.children), sizes);
    }
  }

  /** A tree in which no rigid spacer is wider than its column's minimum is roomy at every width. */
  lemma {:induction false} NarrowIsRoomy(m: Metrics, uniform: bool, node: Node, available: int)
    requires Sound(m, node) && NarrowSpacers(node)
    ensures Roomy(uniform, node, available)
    decreases node
  {
    if node.scene.Row? && HorizontalSizes(uniform, node, available).Ok? {
      NarrowRespects(m, uniform, node, available);
    }
    forall i, width | 0 <= i < |node.children| ensures Roomy(uniform, node.children[i], width) {
      NarrowIsRoomy(m, uniform, node.children[i], width);
    }
  }

  // ---- The agreement ----

  lemma {:induction false} PartOfSum(values: seq<int>, i: nat)
    requires i < |values| && forall k :: 0 <= k < |values| ==> 0 <= values[k]
    ensures values[i] <= Sum(values)
  {
    SumNonNegative(values[1..]);
    if i > 0 { PartOfSum(values[1..], i - 1); }
  }

  lemma RowPartFits(m: Metrics, uniform: bool, node: Node, available: int, i: nat)
    requires Sound(m, node) && node.scene.Row? && i < |node.children|
    requires HorizontalSizes(uniform, node, available).Ok?
    ensures HorizontalSizes(uniform, node, available).value[i] <= available
  {
    var sizes := HorizontalSizes(uniform, node, available).value;
    RowLength(m, uniform, node, available);
    forall k | 0 <= k < |sizes| ensures 0 <= sizes[k] {
      RowSizesFit(uniform, node, available, k);
      assert Shaped(node.children[k]);
    }
    PartOfSum(sizes, i);
  }

  /** The whole-tree induction: a measured tree constrained to a width at least its minimum, with room in every row, is
      settled at that width. */
  lemma {:induction false} ConstrainSettles(m: Metrics, uniform: bool, node: Node, available: int, after: Node)
    requires SteadyMetrics(m) && Sound(m, node) && Roomy(uniform, node, available) && available <= INT_MAX
    requires node.minimumWidth <= available || node.scene.Spacer?
    requires Constrain(m, uniform, node, available) == Ok(after)
    ensures Settled(m, uniform, after, available)
    decreases node, 1
  {
    if node.scene.Row? {
      RowSettles(m, uniform, node, available, after);
    } else if node.scene.Column? {
      ColumnSettles(m, uniform, node, available, after);
    } else if node.scene.Button? {
      ButtonSettles(m, uniform, node, available, after);
    } else if node.scene.ActionRegion? {
      RegionSettles(m, uniform, node, available, after);
    }
  }

  lemma {:induction false} RowSettles(m: Metrics, uniform: bool, node: Node, available: int, after: Node)
    requires SteadyMetrics(m) && Sound(m, node) && Roomy(uniform, node, available) && available <= INT_MAX
    requires node.scene.Row? && Constrain(m, uniform, node, available) == Ok(after)
    ensures Settled(m, uniform, after, available)
    decreases node, 0
  {
    RowUnfolds(m, uniform, node, available, after);
    RowRepeatsIff(m, uniform, node, available, after);
    var sizes := HorizontalSizes(uniform, node, available).value;
    forall i | 0 <= i < |node.children| ensures Settled(m, uniform, after.children[i], sizes[i]) {
      RowSizesFit(uniform, node, available, i);
      RowPartFits(m, uniform, node, available, i);
      ConstrainSettles(m, uniform, node.children[i], sizes[i], after.children[i]);
    }
  }

  lemma {:induction false} ColumnSettles(m: Metrics, uniform: bool, node: Node, available: int, after: Node)
    requires SteadyMetrics(m) && Sound(m, node) && Roomy(uniform, node, available) && available <= INT_MAX
    requires node.scene.Column? && node.minimumWidth <= available
    requires Constrain(m, uniform, node, available) == Ok(after)
    ensures Settled(m, uniform, after, available)
    decreases node, 0
  {
    ColumnUnfolds(m, uniform, node, available, after);
    var widths := ColumnWidths(node.children, available);
    forall i | 0 <= i < |node.children| && after.children[i].expandsWidth
      ensures Settled(m, uniform, after.children[i], available)
    {
      assert widths[i] == available;
      ColumnChild(m, node, available, i);
      ConstrainSettles(m, uniform, node.children[i], widths[i], after.children[i]);
    }
  }

  lemma {:induction false} ButtonSettles(m: Metrics, uniform: bool, node: Node, available: int, after: Node)
    requires SteadyMetrics(m) && Sound(m, node) && Roomy(uniform, node, available) && available <= INT_MAX
    requires node.scene.Button? && node.minimumWidth <= available
    requires Constrain(m, uniform, node, available) == Ok(after)
    ensures Settled(m, uniform, after, available)
    decreases node, 0
  {
    ButtonUnfolds(m, uniform, node, available, after);
    var inner := available - 2 * node.padding;
    ConstrainBounds(m, uniform, node.children[0], inner, after.children[0]);
    ConstrainSettles(m, uniform, node.children[0], inner, after.children[0]);
  }

  lemma {:induction false} RegionSettles(m: Metrics, uniform: bool, node: Node, available: int, after: Node)
    requires SteadyMetrics(m) && Sound(m, node) && Roomy(uniform, node, available) && available <= INT_MAX
    requires node.scene.ActionRegion? && node.minimumWidth <= available
    requires Constrain(m, uniform, node, available) == Ok(after)
    ensures Settled(m, uniform, after, available)
    decreases node, 0
  {
    RegionUnfolds(m, uniform, node, available, after);
    ConstrainSettles(m, uniform, node.children[0], available, after.children[0]);
  }
}
