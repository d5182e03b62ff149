/** The measured tree as the layout engine keeps it: nodes whose sizes the width-constraining pass rewrites in place. */
module MeasuredTree {
  import opened Optional
  import opened Pixels
  import opened FlexDistribution
  import opened SceneMeasure
  import opened WidthConstraint
  import opened SizeLoops

  lemma {:induction false} LargestOfMore(values: seq<int>, value: int)
    ensures Largest(values + [value]) == Max(Largest(values), Max(value, 0))
  {
    if values == [] {
      assert [] + [value] == [value] && [value][1..] == [];
    } else {
      assert (values + [value])[1..] == values[1..] + [value];
      LargestOfMore(values[1..], value);
    }
  }

  lemma LargestGrows(values: seq<int>, value: int)
    ensures Largest(values + [value]) == Max(Largest(values), value)
  {
    LargestOfMore(values, value);
    LargestBounds(values);
  }

  lemma {:induction false} ChildrenConstrainIff(m: Metrics, uniform: bool, nodes: seq<Node>, sizes: seq<int>)
    requires |nodes| == |sizes|
    ensures ConstrainChildren(m, uniform, nodes, sizes).Ok? <==>
      forall i :: 0 <= i < |nodes| ==> Constrain(m, uniform, nodes[i], sizes[i]).Ok?
  {
    if ConstrainChildren(m, uniform, nodes, sizes).Ok? {
      var r := ConstrainChildren(m, uniform, nodes, sizes).value;
      forall i | 0 <= i < |nodes| ensures Constrain(m, uniform, nodes[i], sizes[i]).Ok? {
        assert Constrain(m, uniform, nodes[i], sizes[i]) == Ok(r[i]);
      }
    } else if nodes != [] {
      ChildrenConstrainIff(m, uniform, nodes[1..], sizes[1..]);
      if forall i :: 0 <= i < |nodes| ==> Constrain(m, uniform, nodes[i], sizes[i]).Ok? {
        forall i | 0 <= i < |nodes[1..]| ensures Constrain(m, uniform, nodes[1..][i], sizes[1..][i]).Ok? {
          assert Constrain(m, uniform, nodes[i + 1], sizes[i + 1]).Ok?;
        }
      }
    }
  }

  /** The first children are constrained, the others not yet. */
  ghost predicate Prefix(m: Metrics, uniform: bool, nodes: seq<Node>, sizes: seq<int>, now: seq<Node>) {
    && |now| <= |nodes| == |sizes|
    && forall k :: 0 <= k < |now| ==> Constrain(m, uniform, nodes[k], sizes[k]) == Ok(now[k])
  }

  lemma PrefixComplete(m: Metrics, uniform: bool, nodes: seq<Node>, sizes: seq<int>, now: seq<Node>)
    requires Prefix(m, uniform, nodes, sizes, now) && |now| == |nodes|
    ensures ConstrainChildren(m, uniform, nodes, sizes) == Ok(now)
  {
    assert forall k :: 0 <= k < |nodes| ==> Constrain(m, uniform, nodes[k], sizes[k]) == Ok(now[k]);
    ChildrenConstrainIff(m, uniform, nodes, sizes);
    var r := ConstrainChildren(m, uniform, nodes, sizes).value;
    forall k | 0 <= k < |now| ensures r[k] == now[k] { assert Constrain(m, uniform, nodes[k], sizes[k]) == Ok(r[k]); }
    assert r == now;
  }

  lemma PrefixGrows(m: Metrics, uniform: bool, nodes: seq<Node>, sizes: seq<int>, now: seq<Node>, child: Node)
    requires Prefix(m, uniform, nodes, sizes, now) && |now| < |nodes|
    requires Constrain(m, uniform, nodes[|now|], sizes[|now|]) == Ok(child)
    ensures Prefix(m, uniform, nodes, sizes, now + [child])
  {
  }

  lemma RowChildFails(m: Metrics, uniform: bool, node: Node, available: int, sizes: seq<int>, i: nat)
    requires HorizontalSizes(uniform, node, available) == Ok(sizes)
    requires i < |node.children| && Constrain(m, uniform, node.children[i], sizes[i]).Err?
    ensures ConstrainRow(m, uniform, node, available).Err?
  {
    ChildrenConstrainIff(m, uniform, node.children, sizes);
  }

  lemma RowOverflows(m: Metrics, uniform: bool, node: Node, available: int, sizes: seq<int>)
    requires HorizontalSizes(uniform, node, available) == Ok(sizes) && CheckedTotal(Gaps(node), sizes, node.path).Err?
    ensures ConstrainRow(m, uniform, node, available).Err?
  {
  }

  lemma ColumnChildFails(m: Metrics, uniform: bool, node: Node, available: int, i: nat)
    requires i < |node.children| &&
      Constrain(m, uniform, node.children[i], ColumnWidths(node.children, available)[i]).Err?
    ensures ConstrainColumn(m, uniform, node, available).Err?
  {
    ChildrenConstrainIff(m, uniform, node.children, ColumnWidths(node.children, available));
  }

  lemma RowComplete(m: Metrics, uniform: bool, node: Node, available: int, sizes: seq<int>, now: seq<Node>, total: int)
    requires HorizontalSizes(uniform, node, available) == Ok(sizes)
    requires Prefix(m, uniform, node.children, sizes, now) && |now| == |node.children|
    requires CheckedTotal(Gaps(node), sizes[..|now|], node.path) == Ok(total)
    ensures ConstrainRow(m, uniform, node, available) == Ok(node.(width := total, height := Largest(Heights(now)),
      minimumHeight := Largest(MinimumHeights(now)), children := now))
  {
    PrefixComplete(m, uniform, node.children, sizes, now);
    assert sizes[..|now|] == sizes;
  }

  lemma ColumnComplete(m: Metrics, uniform: bool, node: Node, available: int, now: seq<Node>, total: int,
      minimumTotal: int)
    requires Prefix(m, uniform, node.children, ColumnWidths(node.children, available), now) && |now| == |node.children|
    requires CheckedTotal(Gaps(node), Heights(now), node.path) == Ok(total)
    requires CheckedTotal(Gaps(node), MinimumHeights(now), node.path) == Ok(minimumTotal)
    ensures ConstrainColumn(m, uniform, node, available) == Ok(node.(
      width := if node.expandsWidth then available else Largest(Widths(now)), height := total,
      minimumWidth := Largest(MinimumWidths(now)), minimumHeight := minimumTotal, children := now))
  {
    PrefixComplete(m, uniform, node.children, ColumnWidths(node.children, available), now);
  }

  lemma TallestGrows(now: seq<Node>, child: Node)
    ensures Largest(Heights(now + [child])) == Max(Largest(Heights(now)), child.height)
    ensures Largest(MinimumHeights(now + [child])) == Max(Largest(MinimumHeights(now)), child.minimumHeight)
  {
    assert Heights(now + [child]) == Heights(now) + [child.height];
    assert MinimumHeights(now + [child]) == MinimumHeights(now) + [child.minimumHeight];
    LargestGrows(Heights(now), child.height);
    LargestGrows(MinimumHeights(now), child.minimumHeight);
  }

  lemma WidestGrows(now: seq<Node>, child: Node)
    ensures Largest(Widths(now + [child])) == Max(Largest(Widths(now)), child.width)
    ensures Largest(MinimumWidths(now + [child])) == Max(Largest(MinimumWidths(now)), child.minimumWidth)
  {
    assert Widths(now + [child]) == Widths(now) + [child.width];
    assert MinimumWidths(now + [child]) == MinimumWidths(now) + [child.minimumWidth];
    LargestGrows(Widths(now), child.width);
    LargestGrows(MinimumWidths(now), child.minimumWidth);
  }

  lemma {:induction false} TotalOfMore(start: int, values: seq<int>, value: int, path: seq<PathStep>)
    ensures CheckedTotal(start, values, path).Ok? ==>
      CheckedTotal(start, values + [value], path) == CheckedAdd(CheckedTotal(start, values, path).value, value, path)
    ensures CheckedTotal(start, values, path).Err? ==> CheckedTotal(start, values + [value], path).Err?
    decreases values
  {
    if values == [] {
      assert [] + [value] == [value] && [value][1..] == [];
    } else {
      assert (values + [value])[1..] == values[1..] + [value];
      if Fits(start + values[0]) { TotalOfMore(start + values[0], values[1..], value, path); }
    }
  }

  lemma {:induction false} TotalOfPrefix(start: int, values: seq<int>, more: seq<int>, path: seq<PathStep>)
    requires CheckedTotal(start, values, path).Err?
    ensures CheckedTotal(start, values + more, path).Err?
    decreases more
  {
    if more == [] {
      assert values + more == values;
    } else {
      TotalOfMore(start, values, more[0], path);
      TotalOfPrefix(start, values + [more[0]], more[1..], path);
      assert values + more == values + [more[0]] + more[1..];
    }
  }

  /** What the row's loop has computed once its first children have become `now`. */
  ghost predicate RowSoFar(m: Metrics, uniform: bool, before: Node, sizes: seq<int>, now: seq<Node>, total: int,
      tallest: int, tallestMinimum: int) {
    && |sizes| == |before.children| && Prefix(m, uniform, before.children, sizes, now)
    && CheckedTotal(Gaps(before), sizes[..|now|], before.path) == Ok(total)
    && tallest == Largest(Heights(now)) && tallestMinimum == Largest(MinimumHeights(now))
  }

  lemma RowStep(m: Metrics, uniform: bool, before: Node, sizes: seq<int>, now: seq<Node>, total: int, tallest: int,
      tallestMinimum: int, child: Node)
    requires RowSoFar(m, uniform, before, sizes, now, total, tallest, tallestMinimum) && |now| < |before.children|
    requires Constrain(m, uniform, before.children[|now|], sizes[|now|]) == Ok(child)
    ensures var next := CheckedAdd(total, sizes[|now|], before.path);
      && (next.Err? ==> CheckedTotal(Gaps(before), sizes, before.path).Err?)
      && (next.Ok? ==> RowSoFar(m, uniform, before, sizes, now + [child], next.value,
                                Max(tallest, child.height), Max(tallestMinimum, child.minimumHeight)))
  {
    TallestGrows(now, child);
    PrefixGrows(m, uniform, before.children, sizes, now, child);
    RowTotal(Gaps(before), sizes, |now|, total, before.path);
  }

  lemma RowTotal(start: int, sizes: seq<int>, i: nat, total: int, path: seq<PathStep>)
    requires i < |sizes| && CheckedTotal(start, sizes[..i], path) == Ok(total)
    ensures CheckedTotal(start, sizes[..i + 1], path) == CheckedAdd(total, sizes[i], path)
    ensures CheckedAdd(total, sizes[i], path).Err? ==> CheckedTotal(start, sizes, path).Err?
  {
    assert sizes[..i + 1] == sizes[..i] + [sizes[i]];
    TotalOfMore(start, sizes[..i], sizes[i], path);
    if CheckedTotal(start, sizes[..i + 1], path).Err? {
      assert sizes == sizes[..i + 1] + sizes[i + 1..];
      TotalOfPrefix(start, sizes[..i + 1], sizes[i + 1..], path);
    }
  }

  lemma HeightsGrow(before: Node, now: seq<Node>, child: Node)
    requires CheckedTotal(Gaps(before), Heights(now), before.path).Ok? &&
      CheckedTotal(Gaps(before), MinimumHeights(now), before.path).Ok?
    ensures CheckedTotal(Gaps(before), Heights(now + [child]), before.path)
      == CheckedAdd(CheckedTotal(Gaps(before), Heights(now), before.path).value, child.height, before.path)
    ensures CheckedTotal(Gaps(before), MinimumHeights(now + [child]), before.path)
      ==
        CheckedAdd(CheckedTotal(Gaps(before), MinimumHeights(now), before.path).value, child.minimumHeight, before.path)
  {
    assert Heights(now + [child]) == Heights(now) + [child.height];
    assert MinimumHeights(now + [child]) == MinimumHeights(now) + [child.minimumHeight];
    TotalOfMore(Gaps(before), Heights(now), child.height, before.path);
    TotalOfMore(Gaps(before), MinimumHeights(now), child.minimumHeight, before.path);
  }

  lemma PrefixTaken(m: Metrics, uniform: bool, nodes: seq<Node>, sizes: seq<int>, now: seq<Node>, all: seq<Node>)
    requires Prefix(m, uniform, nodes, sizes, now) && ConstrainChildren(m, uniform, nodes, sizes) == Ok(all)
    ensures now <= all
  {
    forall k | 0 <= k < |now| ensures all[k] == now[k] {
      assert Constrain(m, uniform, nodes[k], sizes[k]) == Ok(all[k]);
    }
  }

  lemma PrefixHeights(now: seq<Node>, all: seq<Node>)
    requires now <= all
    ensures Heights(all) == Heights(now) + Heights(all)[|now|..]
    ensures MinimumHeights(all) == MinimumHeights(now) + MinimumHeights(all)[|now|..]
  {
    assert forall k :: 0 <= k < |now| ==> all[k] == now[k];
  }

  /** A total that overflows part of the way fails the column. */
  lemma ColumnOverflows(m: Metrics, uniform: bool, node: Node, available: int, now: seq<Node>)
    requires Prefix(m, uniform, node.children, ColumnWidths(node.children, available), now)
    requires CheckedTotal(Gaps(node), Heights(now), node.path).Err? ||
      CheckedTotal(Gaps(node), MinimumHeights(now), node.path).Err?
    ensures ConstrainColumn(m, uniform, node, available).Err?
  {
    var children := ConstrainChildren(m, uniform, node.children, ColumnWidths(node.children, available));
    if children.Ok? {
      var all := children.value;
      PrefixTaken(m, uniform, node.children, ColumnWidths(node.children, available), now, all);
      PrefixHeights(now, all);
      if CheckedTotal(Gaps(node), Heights(now), node.path).Err? {
        TotalOfPrefix(Gaps(node), Heights(now), Heights(all)[|now|..], node.path);
      } else {
        TotalOfPrefix(Gaps(node), MinimumHeights(now), MinimumHeights(all)[|now|..], node.path);
      }
    }
  }

  /** Which case of constraining a node falls in. */
  lemma Dispatch(m: Metrics, uniform: bool, node: Node, available: int)
    ensures available < 0 ==> Constrain(m, uniform, node, available).Err?
    ensures available >= 0 && node.scene.Row? ==>
      Constrain(m, uniform, node, available) == ConstrainRow(m, uniform, node, available)
    ensures available >= 0 && node.scene.Column? ==>
      Constrain(m, uniform, node, available) == ConstrainColumn(m, uniform, node, available)
    ensures available >= 0 && node.scene.Button? ==>
      Constrain(m, uniform, node, available) == ConstrainButton(m, uniform, node, available)
    ensures available >= 0 && node.scene.ActionRegion? ==>
      Constrain(m, uniform, node, available) == ConstrainRegion(m, uniform, node, available)
  {
  }

  lemma DispatchLeaf(m: Metrics, uniform: bool, node: Node, available: int)
    requires !IsContainer(node.scene) && 0 <= available
    ensures node.scene.Rich? ==>
      Constrain(m, uniform, node, available) == ConstrainRich(m, node, node.scene.rich, available)
    ensures node.scene.TextInput? ==>
      Constrain(m, uniform, node, available)
        == (if available < node.minimumWidth then Impossible(node.path) else Ok(node.(width := available)))
    ensures !node.scene.Rich? && !node.scene.TextInput? ==> Constrain(m, uniform, node, available) == Ok(node)
  {
  }

  class MeasuredNode {
    /** What no pass rewrites; its sizes, composition and children are not read. */
    const fixed: Node
    var width: int
    var height: int
    var minimumWidth: int
    var minimumHeight: int
    var composition: Option<Composition>
    const children: seq<MeasuredNode>
    ghost const repr: set<MeasuredNode>

    ghost predicate Valid()
      decreases repr
    {
      && this in repr
      && (forall i :: 0 <= i < |children| ==>
            children[i] in repr && children[i].repr <= repr && this !in children[i].repr && children[i].Valid())
      && (forall i, j :: 0 <= i < j < |children| ==> children[i].repr !! children[j].repr)
    }

    /** The tree as a value. */
    function Tree(): Node
      requires Valid()
      reads repr
      decreases repr, 0
    {
      fixed.(width := width, height := height, minimumWidth := minimumWidth, minimumHeight := minimumHeight,
        composition := composition, children := Forest(children, repr - {this}))
    }

    static function Forest(nodes: seq<MeasuredNode>, ghost within: set<MeasuredNode>): (trees: seq<Node>)
      requires forall i :: 0 <= i < |nodes| ==> nodes[i].repr <= within && nodes[i].Valid()
      reads within
      ensures |trees| == |nodes|
      ensures forall i :: 0 <= i < |nodes| ==> trees[i] == nodes[i].Tree()
      decreases within, |nodes|
    {
      if nodes == [] then [] else [nodes[0].Tree()] + Forest(nodes[1..], within)
    }

    constructor (node: Node, children: seq<MeasuredNode>)
      requires forall i :: 0 <= i < |children| ==> children[i].Valid()
      requires forall i, j :: 0 <= i < j < |children| ==> children[i].repr !! children[j].repr
      requires |children| == |node.children|
      requires forall i :: 0 <= i < |children| ==> children[i].Tree() == node.children[i]
      ensures Valid() && Tree() == node
      ensures this.children == children && fresh(this)
      ensures repr == {this} + set c, i | 0 <= i < |children| && c in children[i].repr :: c
    {
      fixed := node;
      width, height, minimumWidth, minimumHeight := node.width, node.height, node.minimumWidth, node.minimumHeight;
      composition := node.composition;
      this.children := children;
      repr := {this} + set c, i | 0 <= i < |children| && c in children[i].repr :: c;
      new;
      assert Forest(this.children, repr - {this}) == node.children;
    }

    /** A node's own sizes change and its subtrees stay. */
    method Resize(width: int, height: int, minimumWidth: int, minimumHeight: int, ghost trees: seq<Node>)
      requires Valid() && |trees| == |children|
      requires forall i :: 0 <= i < |children| ==> children[i].Tree() == trees[i]
      modifies this
      ensures composition == old(composition)
      ensures Tree() ==
        fixed.(width := width, height := height, minimumWidth := minimumWidth, minimumHeight := minimumHeight,
        composition := composition, children := trees)
    {
      this.width, this.height, this.minimumWidth, this.minimumHeight := width, height, minimumWidth, minimumHeight;
      ForestIs(children, repr - {this}, trees);
    }

    static lemma ForestIs(nodes: seq<MeasuredNode>, within: set<MeasuredNode>, trees: seq<Node>)
      requires forall i :: 0 <= i < |nodes| ==> nodes[i].repr <= within && nodes[i].Valid()
      requires |trees| == |nodes| && forall i :: 0 <= i < |nodes| ==> nodes[i].Tree() == trees[i]
      ensures Forest(nodes, within) == trees
    {
    }

    /** Constraining in place does to the tree what the function does to its value. */
    method ConstrainWidth(m: Metrics, uniform: bool, available: int) returns (r: Result<()>)
      requires Valid()
      modifies repr
      ensures r.Ok? == old(Constrain(m, uniform, Tree(), available)).Ok?
      ensures r.Ok? ==> Tree() == old(Constrain(m, uniform, Tree(), available)).value
      decreases repr, 3
    {
      ghost var before := Tree();
      Dispatch(m, uniform, before, available);
      if available < 0 { return Impossible(fixed.path); }
      match fixed.scene
      case Row(_, _, _) =>
        r := ConstrainRowWidth(m, uniform, available, before);
      case Column(_, _, _) =>
        r := ConstrainColumnWidth(m, uniform, available, before);
      case Button(_, _, _) =>
        r := ConstrainButtonWidth(m, uniform, available, before);
      case ActionRegion(_, _, _) =>
        r := ConstrainRegionWidth(m, uniform, available, before);
      case _ =>
        r := ConstrainLeafWidth(m, uniform, available, before);
    }

    method ConstrainLeafWidth(m: Metrics, uniform: bool, available: int, ghost before: Node) returns (r: Result<()>)
      requires Valid() && !IsContainer(fixed.scene) && 0 <= available && before == Tree()
      modifies repr
      ensures r.Ok? == Constrain(m, uniform, before, available).Ok?
      ensures r.Ok? ==> Tree() == Constrain(m, uniform, before, available).value
    {
      DispatchLeaf(m, uniform, before, available);
      match fixed.scene
      case Rich(_) =>
        r := ConstrainRichWidth(m, available, before);
      case TextInput(_, _, _, _) =>
        if available < minimumWidth { return Impossible(fixed.path); }
        Resize(available, height, minimumWidth, minimumHeight, before.children);
        r := Ok(());
      case _ =>
        r := Ok(());
    }

    method ConstrainRichWidth(m: Metrics, available: int, ghost before: Node) returns (r: Result<()>)
      requires Valid() && fixed.scene.Rich? && before == Tree()
      modifies this
      ensures r.Ok? == ConstrainRich(m, before, before.scene.rich, available).Ok?
      ensures r.Ok? ==> Tree() == ConstrainRich(m, before, before.scene.rich, available).value
    {
      if available <= 0 { return Impossible(fixed.path); }
      var composed := m.compose(fixed.scene.rich, available);
      if composed.Rejected? { return Err(LayoutError(composed.code, fixed.path)); }
      if composed.value.height < 0 || composed.value.minimumWidth < 0 { return Impossible(fixed.path); }
      composition := Some(composed.value);
      Resize(available, composed.value.height, composed.value.minimumWidth, composed.value.height, before.children);
      r := Ok(());
    }

    /** The first children have become `now`; the others are still as they were. */
    ghost predicate Halfway(before: seq<Node>, now: seq<Node>)
      requires Valid()
      reads repr
    {
      && |now| <= |children| == |before|
      && (forall k :: 0 <= k < |now| ==> children[k].Tree() == now[k])
      && (forall k :: |now| <= k < |children| ==> children[k].Tree() == before[k])
    }

    /** Constraining one child touches no other. */
    method ConstrainNext(m: Metrics, uniform: bool, size: int, ghost before: seq<Node>, i: nat,
        ghost now: seq<Node>) returns (r: Result<()>)
      requires Valid() && Halfway(before, now) && i == |now| < |children|
      modifies children[i].repr
      ensures r.Ok? == Constrain(m, uniform, before[i], size).Ok?
      ensures r.Ok? ==> Constrain(m, uniform, before[i], size) == Ok(children[i].Tree())
      ensures r.Ok? ==> Halfway(before, now + [children[i].Tree()])
      decreases repr, 0
    {
      r := children[i].ConstrainWidth(m, uniform, size);
    }

    method ConstrainRowWidth(m: Metrics, uniform: bool, available: int, ghost before: Node) returns (r: Result<()>)
      requires Valid() && fixed.scene.Row? && before == Tree()
      modifies repr
      ensures r.Ok? == ConstrainRow(m, uniform, before, available).Ok?
      ensures r.Ok? ==> Tree() == ConstrainRow(m, uniform, before, available).value
      decreases repr, 2
    {
      var given := HorizontalSizesLoop(uniform, Tree(), available);
      if given.Err? { return Err(given.error); }
      r := ConstrainRowChildren(m, uniform, available, given.value, before);
    }

    method ConstrainRowChildren(m: Metrics, uniform: bool, ghost available: int, sizes: seq<int>,
        ghost before: Node) returns (r: Result<()>)
      requires Valid() && fixed.scene.Row? && before == Tree()
      requires HorizontalSizes(uniform, before, available) == Ok(sizes)
      modifies repr
      ensures r.Ok? == ConstrainRow(m, uniform, before, available).Ok?
      ensures r.Ok? ==> Tree() == ConstrainRow(m, uniform, before, available).value
      decreases repr, 1
    {
      var tallest, tallestMinimum, total := 0, 0, fixed.gap * (if |children| > 1 then |children| - 1 else 0);
      ghost var now: seq<Node> := [];
      var i := 0;
      while i < |children|
        invariant i == |now| && RowSoFar(m, uniform, before, sizes, now, total, tallest, tallestMinimum)
        invariant unchanged(this) && Halfway(before.children, now)
      {
        var constrained := ConstrainNext(m, uniform, sizes[i], before.children, i, now);
        if constrained.Err? {
          RowChildFails(m, uniform, before, available, sizes, i);
          return Err(constrained.error);
        }
        RowStep(m, uniform, before, sizes, now, total, tallest, tallestMinimum, children[i].Tree());
        var next := CheckedAdd(total, sizes[i], fixed.path);
        if next.Err? {
          RowOverflows(m, uniform, before, available, sizes);
          return Err(next.error);
        }
        tallest, tallestMinimum := Max(tallest, children[i].height), Max(tallestMinimum, children[i].minimumHeight);
        total, now := next.value, now + [children[i].Tree()];
        i := i + 1;
      }
      RowComplete(m, uniform, before, available, sizes, now, total);
      Resize(total, tallest, minimumWidth, tallestMinimum, now);
      r := Ok(());
    }

    method ConstrainColumnWidth(m: Metrics, uniform: bool, available: int, ghost before: Node) returns (r: Result<()>)
      requires Valid() && fixed.scene.Column? && before == Tree()
      modifies repr
      ensures r.Ok? == ConstrainColumn(m, uniform, before, available).Ok?
      ensures r.Ok? ==> Tree() == ConstrainColumn(m, uniform, before, available).value
      decreases repr, 1
    {
      var widest, widestMinimum := 0, 0;
      var total := fixed.gap * (if |children| > 1 then |children| - 1 else 0);
      var minimumTotal := total;
      ghost var now: seq<Node>, widths := [], ColumnWidths(before.children, available);
      var i := 0;
      while i < |children|
        invariant i == |now| && Prefix(m, uniform, before.children, widths, now)
        invariant widest == Largest(Widths(now)) && widestMinimum == Largest(MinimumWidths(now))
        invariant CheckedTotal(Gaps(before), Heights(now), fixed.path) == Ok(total)
        invariant CheckedTotal(Gaps(before), MinimumHeights(now), fixed.path) == Ok(minimumTotal)
        invariant unchanged(this) && Halfway(before.children, now)
      {
        var child := children[i];
        var childWidth := if child.fixed.expandsWidth then available else Min(child.width, available);
        var constrained := ConstrainNext(m, uniform, childWidth, before.children, i, now);
        if constrained.Err? {
          ColumnChildFails(m, uniform, before, available, i);
          return Err(constrained.error);
        }
        WidestGrows(now, child.Tree());
        PrefixGrows(m, uniform, before.children, widths, now, child.Tree());
        widest, widestMinimum := Max(widest, child.width), Max(widestMinimum, child.minimumWidth);
        var nextTotal := CheckedAdd(total, child.height, fixed.path);
        var nextMinimum := CheckedAdd(minimumTotal, child.minimumHeight, fixed.path);
        HeightsGrow(before, now, child.Tree());
        now := now + [child.Tree()];
        if nextTotal.Err? || nextMinimum.Err? {
          ColumnOverflows(m, uniform, before, available, now);
          return Impossible(fixed.path);
        }
        total, minimumTotal := nextTotal.value, nextMinimum.value;
        i := i + 1;
      }
      ColumnComplete(m, uniform, before, available, now, total, minimumTotal);
      Resize(if fixed.expandsWidth then available else widest, total, widestMinimum, minimumTotal, now);
      r := Ok(());
    }

    method ConstrainButtonWidth(m: Metrics, uniform: bool, available: int, ghost before: Node) returns (r: Result<()>)
      requires Valid() && fixed.scene.Button? && before == Tree()
      modifies repr
      ensures r.Ok? == ConstrainButton(m, uniform, before, available).Ok?
      ensures r.Ok? ==> Tree() == ConstrainButton(m, uniform, before, available).value
      decreases repr, 0
    {
      var doubled := CheckedMultiply(2, fixed.padding, fixed.path);
      if doubled.Err? { return Err(doubled.error); }
      var inner := CheckedSubtract(available, doubled.value, fixed.path);
      if inner.Err? { return Err(inner.error); }
      if inner.value < 0 || |children| != 1 { return Impossible(fixed.path); }
      r := children[0].ConstrainWidth(m, uniform, inner.value);
      if r.Err? { return; }
      var outer := CheckedAdd(children[0].height, doubled.value, fixed.path);
      if outer.Err? { return Err(outer.error); }
      Resize(available, outer.value, minimumWidth, outer.value, [children[0].Tree()]);
    }

    method ConstrainRegionWidth(m: Metrics, uniform: bool, available: int, ghost before: Node) returns (r: Result<()>)
      requires Valid() && fixed.scene.ActionRegion? && before == Tree()
      modifies repr
      ensures r.Ok? == ConstrainRegion(m, uniform, before, available).Ok?
      ensures r.Ok? ==> Tree() == ConstrainRegion(m, uniform, before, available).value
      decreases repr, 0
    {
      if |children| != 1 { return Impossible(fixed.path); }
      r := children[0].ConstrainWidth(m, uniform, available);
      if r.Err? { return; }
      var child := children[0];
      Resize(child.width, child.height, child.minimumWidth, child.minimumHeight, [child.Tree()]);
    }
  }
}
