/** The placing pass as the layout engine runs it: a cursor walks the children and every node appends its commands
    and targets to the plan. */
module PlacementPass {
  import opened Optional
  import opened Pixels
  import opened FlexDistribution
  import opened SceneMeasure
  import opened WidthConstraint
  import opened Placement
  import opened SizeLoops

  class Plan {
    var content: seq<Draw>
    var interactions: seq<Target>

    constructor ()
      ensures Value() == Placed([], [])
    {
      content, interactions := [], [];
    }

    function Value(): Placed
      reads this
    {
      Placed(content, interactions)
    }

    method Append(placed: Placed)
      modifies this
      ensures Value() == Join(old(Value()), placed)
    {
      content, interactions := content + placed.draws, interactions + placed.targets;
    }
  }

  lemma JoinAssociates(a: Placed, b: Placed, c: Placed)
    ensures Join(a, Join(b, c)) == Join(Join(a, b), c)
  {
    assert a.draws + (b.draws + c.draws) == (a.draws + b.draws) + c.draws;
    assert a.targets + (b.targets + c.targets) == (a.targets + b.targets) + c.targets;
  }

  /** What is still to come, given what is already in the plan. */
  function Onto(done: Placed, rest: Result<Placed>): Option<Placed> {
    if rest.Ok? then Some(Join(done, rest.value)) else None
  }

  method MainSizesLoop(uniform: bool, node: Node, available: int, axis: Axis) returns (r: Result<seq<int>>)
    ensures r == MainSizes(uniform, node, available, axis)
  {
    r := DistributeLoop(Items(node.children, axis), node.gap, available, node.path);
    if r.Ok? && SplitsEqually(uniform, node) {
      r := HorizontalSizesLoop(uniform, node, available);
    }
  }

  lemma ContainerCases(m: Metrics, uniform: bool, node: Node, box: Rect, clip: Rect)
    requires node.scene.Row? || node.scene.Column?
    ensures var sizes := MainSizes(uniform, node, Available(box, AxisOf(node)), AxisOf(node));
      sizes.Err? || Intersect(clip, box, node.path).Err? ==> Place(m, uniform, node, box, clip).Err?
    ensures var sizes := MainSizes(uniform, node, Available(box, AxisOf(node)), AxisOf(node));
      sizes.Ok? && Intersect(clip, box, node.path).Ok? ==>
      Place(m, uniform, node, box, clip) == PlaceChildren(m, uniform, node,
        sizes.value, 0, MainStart(box, AxisOf(node)), box, Intersect(clip, box, node.path).value, AxisOf(node))
  {
  }

  /** Taking one child off the front of what is still to come. */
  lemma ChildOnto(m: Metrics, uniform: bool, node: Node, sizes: seq<int>, index: nat, cursor: int, box: Rect,
      clip: Rect, done: Placed)
    requires |sizes| == |node.children| && index < |sizes|
    ensures var area := ChildRect(uniform, node, node.children[index], sizes[index], cursor, box, AxisOf(node));
      var rest := PlaceChildren(m, uniform, node, sizes, index, cursor, box, clip, AxisOf(node));
      if area.Err? || Place(m, uniform, node.children[index], area.value, clip).Err? ||
        Advance(node, sizes, index, cursor).Err? then rest.Err?
      else Onto(done, rest) == Onto(Join(done, Place(m, uniform, node.children[index], area.value, clip).value),
             PlaceChildren(m, uniform, node, sizes, index + 1, NextCursor(node, sizes, index, cursor), box, clip,
               AxisOf(node)))
  {
    var area := ChildRect(uniform, node, node.children[index], sizes[index], cursor, box, AxisOf(node));
    if area.Ok? && Place(m, uniform, node.children[index], area.value, clip).Ok? &&
      Advance(node, sizes, index, cursor).Ok? {
      var rest := PlaceChildren(m, uniform, node, sizes, index + 1, NextCursor(node, sizes, index, cursor), box, clip,
        AxisOf(node));
      if rest.Ok? { JoinAssociates(done, Place(m, uniform, node.children[index], area.value, clip).value, rest.value); }
    }
  }

  method PlaceOnto(plan: Plan, m: Metrics, uniform: bool, node: Node, box: Rect, clip: Rect) returns (r: Result<()>)
    modifies plan
    ensures r.Ok? == Place(m, uniform, node, box, clip).Ok?
    ensures r.Ok? ==> plan.Value() == Join(old(plan.Value()), Place(m, uniform, node, box, clip).value)
    decreases node, 1
  {
    if node.scene.Row? || node.scene.Column? {
      ContainerCases(m, uniform, node, box, clip);
      var axis := AxisOf(node);
      var sizes := MainSizesLoop(uniform, node, Available(box, axis), axis);
      if sizes.Err? { return Err(sizes.error); }
      var childClip := Intersect(clip, box, node.path);
      if childClip.Err? { return Err(childClip.error); }
      r := PlaceContainer(plan, m, uniform, node, sizes.value, box, childClip.value);
    } else if node.scene.Button? || node.scene.ActionRegion? {
      r := PlaceWrapper(plan, m, uniform, node, box, clip);
    } else {
      var placed := PlaceLeaf(m, node, box, clip);
      if placed.Err? { return Err(placed.error); }
      plan.Append(placed.value);
      r := Ok(());
    }
  }

  method PlaceWrapper(plan: Plan, m: Metrics, uniform: bool, node: Node, box: Rect, clip: Rect) returns (r: Result<()>)
    requires node.scene.Button? || node.scene.ActionRegion?
    modifies plan
    ensures r.Ok? == Place(m, uniform, node, box, clip).Ok?
    ensures r.Ok? ==> plan.Value() == Join(old(plan.Value()), Place(m, uniform, node, box, clip).value)
    decreases node, 0
  {
    if |node.children| != 1 { return Impossible(node.path); }
    ghost var before := plan.Value();
    if node.scene.Button? {
      var frame := FrameButton(uniform, node, box, clip);
      if frame.Err? { return Err(frame.error); }
      plan.Append(ButtonOwn(node, frame.value));
      r := PlaceOnto(plan, m, uniform, node.children[0], frame.value.content, frame.value.clip);
      if r.Ok? {
        JoinAssociates(before, ButtonOwn(node, frame.value),
          Place(m, uniform, node.children[0], frame.value.content, frame.value.clip).value);
      }
    } else {
      var clipped := FrameRegion(node, box, clip);
      if clipped.Err? { return Err(clipped.error); }
      plan.Append(RegionOwn(node, box, clipped.value));
      r := PlaceOnto(plan, m, uniform, node.children[0], box, clipped.value);
      if r.Ok? {
        JoinAssociates(before, RegionOwn(node, box, clipped.value),
          Place(m, uniform, node.children[0], box, clipped.value).value);
      }
    }
  }

  method PlaceContainer(plan: Plan, m: Metrics, uniform: bool, node: Node, sizes: seq<int>, box: Rect,
      clip: Rect) returns (r: Result<()>)
    requires |sizes| == |node.children|
    modifies plan
    ensures Onto(old(plan.Value()),
      PlaceChildren(m, uniform, node, sizes, 0, MainStart(box, AxisOf(node)), box, clip, AxisOf(node)))
      == if r.Ok? then Some(plan.Value()) else None
    decreases node, 0
  {
    var axis := AxisOf(node);
    var cursor := MainStart(box, axis);
    var index := 0;
    ghost var goal := Onto(plan.Value(), PlaceChildren(m, uniform, node, sizes, 0, cursor, box, clip, axis));
    while index < |node.children|
      invariant index <= |node.children|
      invariant Onto(plan.Value(), PlaceChildren(m, uniform, node, sizes, index, cursor, box, clip, axis)) == goal
    {
      ChildOnto(m, uniform, node, sizes, index, cursor, box, clip, plan.Value());
      var area := ChildRect(uniform, node, node.children[index], sizes[index], cursor, box, axis);
      if area.Err? { return Err(area.error); }
      var placed := PlaceOnto(plan, m, uniform, node.children[index], area.value, clip);
      if placed.Err? { return placed; }
      var afterChild := CheckedAdd(cursor, sizes[index], node.path);
      if afterChild.Err? { return Err(afterChild.error); }
      cursor := afterChild.value;
      if index + 1 < |node.children| {
        var afterGap := CheckedAdd(cursor, node.gap, node.path);
        if afterGap.Err? { return Err(afterGap.error); }
        cursor := afterGap.value;
      }
      index := index + 1;
    }
    r := Ok(());
    assert plan.content + [] == plan.content && plan.interactions + [] == plan.interactions;
  }
}
