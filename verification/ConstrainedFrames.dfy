/** Constraining keeps the shape of every tree, whatever the metrics say: this is all that containment needs. */
module ConstrainedFrames {
  import opened Pixels
  import opened FlexDistribution
  import opened SceneMeasure
  import opened WidthConstraint

  predicate KeepsFrame(before: Node, after: Node) {
    SameFrame(after, before) && Framed(after)
  }

  ghost predicate ChildrenFramed(before: Node, after: Node) {
    && |after.children| == |before.children|
    && forall i :: 0 <= i < |after.children| ==> KeepsFrame(before.children[i], after.children[i])
  }

  lemma ContainerKeepsFrame(before: Node, after: Node)
    requires Framed(before) && IsContainer(before.scene) && SameFrame(after, before)
    requires PixelSizes(after) && ChildrenFramed(before, after)
    requires before.scene.Button? ==>
      after.minimumWidth >= 2 * after.padding && after.minimumHeight >= 2 * after.padding
    ensures Framed(after)
  {
    assert ContainerShape(before);
    forall i | 0 <= i < |after.children|
      ensures after.children[i].path != []
      ensures after.children[i].expandsWidth == before.children[i].expandsWidth
      ensures ExpandsMain(after.children[i], Horizontal) == ExpandsMain(before.children[i], Horizontal)
    {
      assert KeepsFrame(before.children[i], after.children[i]);
    }
    assert AnyExpands(after.children, Horizontal) == AnyExpands(before.children, Horizontal);
    assert AnyExpandsWidth(after.children) == AnyExpandsWidth(before.children);
  }

  lemma RowSizesNonNegative(uniform: bool, node: Node, available: int, i: nat)
    requires Framed(node) && node.scene.Row? && i < |node.children|
    requires HorizontalSizes(uniform, node, available).Ok?
    ensures 0 <= HorizontalSizes(uniform, node, available).value[i]
  {
    assert forall k :: 0 <= k < |node.children| ==> PixelSizes(node.children[k]);
    if SplitsEqually(uniform, node) {
      EqualSplitIsExact(MinimumWidths(node.children), node.gap, available, node.path);
    } else {
      DistributeFits(Items(node.children, Horizontal), node.gap, available, node.path);
    }
  }

  lemma SizesOfChildren(nodes: seq<Node>)
    requires forall i :: 0 <= i < |nodes| ==> Framed(nodes[i])
    ensures 0 <= Largest(Widths(nodes)) && 0 <= Largest(MinimumWidths(nodes))
    ensures 0 <= Largest(Heights(nodes)) && 0 <= Largest(MinimumHeights(nodes))
    ensures forall i :: 0 <= i < |nodes| ==> 0 <= Heights(nodes)[i] && 0 <= MinimumHeights(nodes)[i]
  {
    LargestBounds(Widths(nodes));
    LargestBounds(MinimumWidths(nodes));
    LargestBounds(Heights(nodes));
    LargestBounds(MinimumHeights(nodes));
    assert forall i :: 0 <= i < |nodes| ==> PixelSizes(nodes[i]);
  }

  lemma RowKeepsFrame(uniform: bool, node: Node, available: int, sizes: seq<int>, after: Node)
    requires Framed(node) && node.scene.Row? && SameFrame(after, node) && ChildrenFramed(node, after)
    requires HorizontalSizes(uniform, node, available) == Ok(sizes)
    requires RowAround(node, after.children, sizes) == Ok(after)
    ensures Framed(after)
  {
    forall i | 0 <= i < |sizes| ensures 0 <= sizes[i] { RowSizesNonNegative(uniform, node, available, i); }
    GapTotalNonNegative(node.gap, |node.children|);
    TotalNonNegative(Gaps(node), sizes, node.path);
    forall i | 0 <= i < |after.children| ensures Framed(after.children[i]) {
      assert KeepsFrame(node.children[i], after.children[i]);
    }
    SizesOfChildren(after.children);
    ContainerKeepsFrame(node, after);
  }

  lemma ColumnKeepsFrame(node: Node, available: int, after: Node)
    requires Framed(node) && node.scene.Column? && SameFrame(after, node) && ChildrenFramed(node, after)
    requires 0 <= available && ColumnAround(node, after.children, available) == Ok(after)
    ensures Framed(after)
  {
    forall i | 0 <= i < |after.children| ensures Framed(after.children[i]) {
      assert KeepsFrame(node.children[i], after.children[i]);
    }
    SizesOfChildren(after.children);
    GapTotalNonNegative(node.gap, |node.children|);
    TotalNonNegative(Gaps(node), Heights(after.children), node.path);
    TotalNonNegative(Gaps(node), MinimumHeights(after.children), node.path);
    ContainerKeepsFrame(node, after);
  }

  lemma ButtonKeepsFrame(node: Node, after: Node)
    requires Framed(node) && node.scene.Button? && SameFrame(after, node) && |node.children| == 1
    requires KeepsFrame(node.children[0], after.children[0])
    requires after.minimumWidth == node.minimumWidth && 0 <= after.width
    requires after.minimumHeight == after.height == after.children[0].height + 2 * node.padding
    ensures Framed(after)
  {
    assert PixelSizes(node) && PixelSizes(after.children[0]);
    forall i | 0 <= i < |after.children| ensures KeepsFrame(node.children[i], after.children[i]) { assert i == 0; }
    ContainerKeepsFrame(node, after);
  }

  lemma RegionKeepsFrame(node: Node, after: Node)
    requires Framed(node) && node.scene.ActionRegion? && SameFrame(after, node) && |node.children| == 1
    requires KeepsFrame(node.children[0], after.children[0])
    requires after.width == after.children[0].width && after.height == after.children[0].height
    requires after.minimumWidth == after.children[0].minimumWidth &&
      after.minimumHeight == after.children[0].minimumHeight
    ensures Framed(after)
  {
    assert PixelSizes(after.children[0]);
    forall i | 0 <= i < |after.children| ensures KeepsFrame(node.children[i], after.children[i]) { assert i == 0; }
    ContainerKeepsFrame(node, after);
  }

  lemma LeafKeepsFrame(m: Metrics, uniform: bool, node: Node, available: int)
    requires Framed(node) && !IsContainer(node.scene) && Constrain(m, uniform, node, available).Ok?
    ensures Framed(Constrain(m, uniform, node, available).value)
  {
    assert LeafShape(node);
  }

  lemma {:induction false} ConstrainKeepsFrame(m: Metrics, uniform: bool, node: Node, available: int, after: Node)
    requires Framed(node) && Constrain(m, uniform, node, available) == Ok(after)
    ensures KeepsFrame(node, after)
    decreases node
  {
    if node.scene.Row? {
      RowUnfolds(m, uniform, node, available, after);
      var sizes := HorizontalSizes(uniform, node, available).value;
      forall i | 0 <= i < |node.children| ensures KeepsFrame(node.children[i], after.children[i]) {
        ConstrainKeepsFrame(m, uniform, node.children[i], sizes[i], after.children[i]);
      }
      RowKeepsFrame(uniform, node, available, sizes, after);
    } else if node.scene.Column? {
      ColumnUnfolds(m, uniform, node, available, after);
      var widths := ColumnWidths(node.children, available);
      forall i | 0 <= i < |node.children| ensures KeepsFrame(node.children[i], after.children[i]) {
        ConstrainKeepsFrame(m, uniform, node.children[i], widths[i], after.children[i]);
      }
      ColumnKeepsFrame(node, available, after);
    } else if node.scene.Button? {
      ButtonUnfolds(m, uniform, node, available, after);
      ConstrainKeepsFrame(m, uniform, node.children[0], available - 2 * node.padding, after.children[0]);
      ButtonKeepsFrame(node, after);
    } else if node.scene.ActionRegion? {
      RegionUnfolds(m, uniform, node, available, after);
      ConstrainKeepsFrame(m, uniform, node.children[0], available, after.children[0]);
      RegionKeepsFrame(node, after);
    } else {
      LeafKeepsFrame(m, uniform, node, available);
    }
  }
}
