/** What the width-constraining pass makes of a tree, told node by node: it succeeds with exactly that tree. */
module ConstrainedSizes {
  import opened Optional
  import opened Pixels
  import opened FlexDistribution
  import opened SceneMeasure
  import opened WidthConstraint

  /** The greatest of the values, or zero. */
  predicate Greatest(greatest: int, values: seq<int>) {
    && 0 <= greatest && (forall i :: 0 <= i < |values| ==> values[i] <= greatest)
    && (greatest == 0 || exists i :: 0 <= i < |values| && values[i] == greatest)
  }

  lemma GreatestIsLargest(greatest: int, values: seq<int>)
    ensures Greatest(greatest, values) <==> greatest == Largest(values)
  {
    LargestBounds(values);
  }

  /** Only the root row of an action menu, all of whose children are buttons, is split evenly; every other row is
      distributed by what its children want. */
  lemma MenusSplitEvenly(uniform: bool, node: Node, available: int)
    ensures HorizontalSizes(uniform, node, available) ==
      if uniform && node.path == [] && node.scene.Row? && node.children != []
         && forall i :: 0 <= i < |node.children| ==> node.children[i].scene.Button?
      then DistributeEqually(MinimumWidths(node.children), node.gap, available, node.path)
      else Distribute(Items(node.children, Horizontal), node.gap, available, node.path)
  {
  }

  // ---- One node ----

  /** One gap less than there are children. */
  function GapsOf(node: Node): int {
    if |node.children| > 1 then node.gap * (|node.children| - 1) else 0
  }

  /** A rich text is composed at the width it is given, which must be some. */
  predicate RichFits(m: Metrics, before: Node, width: int, after: Node)
    requires before.scene.Rich?
  {
    && width >= 1 && m.compose(before.scene.rich, width).Measured?
    && var composed := m.compose(before.scene.rich, width).value;
       && composed.height >= 0 && composed.minimumWidth >= 0
       && after == before.(width := width, height := composed.height, minimumWidth := composed.minimumWidth,
                           minimumHeight := composed.height, composition := Some(composed))
  }

  /** A row is as wide as its parts with the gaps and as high as its highest child. */
  predicate RowFits(before: Node, sizes: seq<int>, after: Node) {
    && CheckedTotal(GapsOf(before), sizes, before.path) == Ok(after.width)
    && Greatest(after.height, Heights(after.children)) && Greatest(after.minimumHeight, MinimumHeights(after.children))
    && after == before.(width := after.width, height := after.height, minimumHeight := after.minimumHeight,
                        children := after.children)
  }

  /** A column is as high as its parts with the gaps; it takes its width if it expands, and else that of its widest
      child. */
  predicate ColumnFits(before: Node, width: int, after: Node) {
    && CheckedTotal(GapsOf(before), Heights(after.children), before.path) == Ok(after.height)
    && CheckedTotal(GapsOf(before), MinimumHeights(after.children), before.path) == Ok(after.minimumHeight)
    && (if before.expandsWidth then after.width == width else Greatest(after.width, Widths(after.children)))
    && Greatest(after.minimumWidth, MinimumWidths(after.children))
    && after == before.(width := after.width, height := after.height, minimumWidth := after.minimumWidth,
                        minimumHeight := after.minimumHeight, children := after.children)
  }

  /** A button takes its width and is its padding higher than its content. */
  predicate ButtonFits(before: Node, width: int, after: Node) {
    && Fits(2 * before.padding) && Fits(width - 2 * before.padding) && 2 * before.padding <= width
    && |before.children| == 1 && |after.children| == 1
    && Fits(after.children[0].height + 2 * before.padding)
    && after == before.(width := width, height := after.children[0].height + 2 * before.padding,
                        minimumHeight := after.children[0].height + 2 * before.padding, children := after.children)
  }

  predicate RegionFits(before: Node, after: Node) {
    && |before.children| == 1 && |after.children| == 1
    && var child := after.children[0];
       after == before.(width := child.width, height := child.height, minimumWidth := child.minimumWidth,
                        minimumHeight := child.minimumHeight, children := [child])
  }

  // ---- The tree ----

  /** What becomes of a node that is given this width, and of everything in it. */
  predicate Becomes(m: Metrics, uniform: bool, before: Node, width: int, after: Node)
    decreases before
  {
    && width >= 0
    && match before.scene
       case Rich(_) => RichFits(m, before, width, after)
       case TextInput(_, _, _, _) => before.minimumWidth <= width && after == before.(width := width)
       case Row(_, _, _) =>
         var sizes := HorizontalSizes(uniform, before, width);
         && sizes.Ok? && RowFits(before, sizes.value, after) && |after.children| == |before.children|
         && forall i :: 0 <= i < |before.children| ==>
              Becomes(m, uniform, before.children[i], sizes.value[i], after.children[i])
       case Column(_, _, _) =>
         && ColumnFits(before, width, after) && |after.children| == |before.children|
         && forall i :: 0 <= i < |before.children| ==>
              Becomes(m, uniform, before.children[i],
                if before.children[i].expandsWidth || width <= before.children[i].width then width
                else before.children[i].width, after.children[i])
       case Button(_, _, _) =>
         && ButtonFits(before, width, after)
         && Becomes(m, uniform, before.children[0], width - 2 * before.padding, after.children[0])
       case ActionRegion(_, _, _) =>
         RegionFits(before, after) && Becomes(m, uniform, before.children[0], width, after.children[0])
       case _ => after == before
  }

  lemma {:induction false} ChildrenConstrain(m: Metrics, uniform: bool, nodes: seq<Node>, sizes: seq<int>,
      after: seq<Node>)
    requires |nodes| == |sizes| == |after|
    requires forall i :: 0 <= i < |nodes| ==> Constrain(m, uniform, nodes[i], sizes[i]) == Ok(after[i])
    ensures ConstrainChildren(m, uniform, nodes, sizes) == Ok(after)
  {
    if nodes != [] {
      ChildrenConstrain(m, uniform, nodes[1..], sizes[1..], after[1..]);
      assert [after[0]] + after[1..] == after;
    }
  }

  lemma RowFitsIff(before: Node, children: seq<Node>, sizes: seq<int>, after: Node)
    requires |children| == |before.children| && children == after.children
    ensures RowAround(before, children, sizes) == Ok(after) <==> RowFits(before, sizes, after)
  {
    GreatestIsLargest(after.height, Heights(children));
    GreatestIsLargest(after.minimumHeight, MinimumHeights(children));
  }

  lemma ColumnFitsIff(before: Node, children: seq<Node>, width: int, after: Node)
    requires |children| == |before.children| && children == after.children
    ensures ColumnAround(before, children, width) == Ok(after) <==> ColumnFits(before, width, after)
  {
    GreatestIsLargest(after.width, Widths(children));
    GreatestIsLargest(after.minimumWidth, MinimumWidths(children));
  }

  /** Constraining a tree to a width succeeds exactly with the tree that becomes of it. */
  lemma {:induction false} ConstrainIff(m: Metrics, uniform: bool, before: Node, width: int, after: Node)
    ensures Constrain(m, uniform, before, width) == Ok(after) <==> Becomes(m, uniform, before, width, after)
    decreases before
  {
    if width >= 0 {
      match before.scene
      case Row(_, _, _) => RowIff(m, uniform, before, width, after, ConstrainRow(m, uniform, before, width));
      case Column(_, _, _) =>
        ColumnIff(m, uniform, before, width, after, ConstrainColumn(m, uniform, before, width));
      case Button(_, _, _) =>
        ButtonIff(m, uniform, before, width, after, ConstrainButton(m, uniform, before, width));
      case ActionRegion(_, _, _) => RegionIff(m, uniform, before, width, after);
      case _ =>
    }
  }

  lemma {:induction false} ChildrenIff(m: Metrics, uniform: bool, before: seq<Node>, sizes: seq<int>, after: seq<Node>)
    requires |before| == |sizes| == |after|
    ensures ConstrainChildren(m, uniform, before, sizes) == Ok(after) <==>
      forall i :: 0 <= i < |before| ==> Becomes(m, uniform, before[i], sizes[i], after[i])
    decreases before, 0
  {
    forall i | 0 <= i < |before|
      ensures Constrain(m, uniform, before[i], sizes[i]) == Ok(after[i]) <==>
        Becomes(m, uniform, before[i], sizes[i], after[i])
    {
      ConstrainIff(m, uniform, before[i], sizes[i], after[i]);
    }
    if forall i :: 0 <= i < |before| ==> Becomes(m, uniform, before[i], sizes[i], after[i]) {
      ChildrenConstrain(m, uniform, before, sizes, after);
    }
  }

  lemma RowStep(m: Metrics, uniform: bool, before: Node, width: int, after: Node, sizes: seq<int>,
      children: Result<seq<Node>>)
    requires before.scene.Row? && |after.children| == |before.children| == |sizes|
    requires HorizontalSizes(uniform, before, width) == Ok(sizes)
    requires children == ConstrainChildren(m, uniform, before.children, sizes)
    ensures ConstrainRow(m, uniform, before, width) == Ok(after) <==>
      children == Ok(after.children) && RowFits(before, sizes, after)
  {
    RowFitsIff(before, after.children, sizes, after);
  }

  lemma RowBecomes(m: Metrics, uniform: bool, before: Node, width: int, after: Node, sizes: seq<int>)
    requires before.scene.Row? && width >= 0 && |sizes| == |before.children|
    requires HorizontalSizes(uniform, before, width) == Ok(sizes)
    ensures Becomes(m, uniform, before, width, after) <==>
      && RowFits(before, sizes, after) && |after.children| == |before.children|
      && forall i :: 0 <= i < |before.children| ==>
           Becomes(m, uniform, before.children[i], sizes[i], after.children[i])
  {
  }

  lemma {:induction false} RowIff(m: Metrics, uniform: bool, before: Node, width: int, after: Node, made: Result<Node>)
    requires before.scene.Row? && width >= 0 && made == ConstrainRow(m, uniform, before, width)
    ensures made == Ok(after) <==> Becomes(m, uniform, before, width, after)
    decreases before, 0
  {
    var sizes := HorizontalSizes(uniform, before, width);
    if sizes.Ok? {
      RowBecomes(m, uniform, before, width, after, sizes.value);
      if |after.children| == |before.children| {
        ChildrenIff(m, uniform, before.children, sizes.value, after.children);
        RowStep(m, uniform, before, width, after, sizes.value,
          ConstrainChildren(m, uniform, before.children, sizes.value));
      }
    }
  }

  lemma ColumnStep(m: Metrics, uniform: bool, before: Node, width: int, after: Node, children: Result<seq<Node>>)
    requires before.scene.Column? && |after.children| == |before.children|
    requires children == ConstrainChildren(m, uniform, before.children, ColumnWidths(before.children, width))
    ensures ConstrainColumn(m, uniform, before, width) == Ok(after) <==>
      children == Ok(after.children) && ColumnFits(before, width, after)
  {
    ColumnFitsIff(before, after.children, width, after);
  }

  lemma ColumnBecomes(m: Metrics, uniform: bool, before: Node, width: int, after: Node, sizes: seq<int>)
    requires before.scene.Column? && width >= 0 && sizes == ColumnWidths(before.children, width)
    ensures Becomes(m, uniform, before, width, after) <==>
      && ColumnFits(before, width, after) && |after.children| == |before.children|
      && forall i :: 0 <= i < |before.children| ==>
           Becomes(m, uniform, before.children[i], sizes[i], after.children[i])
  {
    forall i | 0 <= i < |before.children|
      ensures sizes[i] == if before.children[i].expandsWidth || width <= before.children[i].width then width
                          else before.children[i].width
    {
    }
  }

  lemma {:induction false} ColumnIff(m: Metrics, uniform: bool, before: Node, width: int, after: Node,
      made: Result<Node>)
    requires before.scene.Column? && width >= 0 && made == ConstrainColumn(m, uniform, before, width)
    ensures made == Ok(after) <==> Becomes(m, uniform, before, width, after)
    decreases before, 0
  {
    var sizes := ColumnWidths(before.children, width);
    ColumnBecomes(m, uniform, before, width, after, sizes);
    if |after.children| == |before.children| {
      ChildrenIff(m, uniform, before.children, sizes, after.children);
      ColumnStep(m, uniform, before, width, after, ConstrainChildren(m, uniform, before.children, sizes));
    }
  }

  lemma ButtonStep(m: Metrics, uniform: bool, before: Node, width: int, after: Node, child: Result<Node>)
    requires before.scene.Button? && |before.children| == 1 && |after.children| == 1
    requires child == Constrain(m, uniform, before.children[0], width - 2 * before.padding)
    ensures ConstrainButton(m, uniform, before, width) == Ok(after) <==>
      child == Ok(after.children[0]) && ButtonFits(before, width, after)
  {
    assert after.children == [after.children[0]];
  }

  lemma ButtonBecomes(m: Metrics, uniform: bool, before: Node, width: int, after: Node)
    requires before.scene.Button? && width >= 0 && |before.children| == 1
    ensures Becomes(m, uniform, before, width, after) <==>
      && ButtonFits(before, width, after)
      && Becomes(m, uniform, before.children[0], width - 2 * before.padding, after.children[0])
  {
  }

  lemma {:induction false} ButtonIff(m: Metrics, uniform: bool, before: Node, width: int, after: Node,
      made: Result<Node>)
    requires before.scene.Button? && width >= 0 && made == ConstrainButton(m, uniform, before, width)
    ensures made == Ok(after) <==> Becomes(m, uniform, before, width, after)
    decreases before, 0
  {
    if |before.children| == 1 {
      ButtonBecomes(m, uniform, before, width, after);
      if |after.children| == 1 {
        ConstrainIff(m, uniform, before.children[0], width - 2 * before.padding, after.children[0]);
        ButtonStep(m, uniform, before, width, after,
          Constrain(m, uniform, before.children[0], width - 2 * before.padding));
      }
    }
  }

  lemma {:induction false} RegionIff(m: Metrics, uniform: bool, before: Node, width: int, after: Node)
    requires before.scene.ActionRegion? && width >= 0
    ensures Constrain(m, uniform, before, width) == Ok(after) <==> Becomes(m, uniform, before, width, after)
    decreases before, 0
  {
    if |before.children| == 1 && |after.children| == 1 {
      ConstrainIff(m, uniform, before.children[0], width, after.children[0]);
      assert after.children == [after.children[0]];
    }
  }
}
