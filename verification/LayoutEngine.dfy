/** A whole layout: measure, constrain the width, constrain the height, place. The main results hold of every
    scene that lays out. */
module LayoutEngine {
  import opened Optional
  import opened Pixels
  import opened FlexDistribution
  import opened SceneMeasure
  import opened WidthConstraint
  import opened WidthAgreement
  import opened ConstrainedFrames
  import opened Placement
  import opened PlacementProperties
  import opened Containment
  import opened HitTesting
  import opened MeasuredTree
  import opened PlacementPass

  /** The view's geometry in whole pixels. The leading inset differs from the trailing one beside a cap or a ring. */
  datatype Geometry = Geometry(leadingInset: nat, trailingInset: nat, verticalPadding: nat,
                               minimumWidth: nat, maximumWidth: nat, minimumHeight: nat, maximumHeight: nat,
                               compact: bool)

  // ---- Leading caps ----

  /** The root row starts with an image whose role is placed in the leading cap of the view. */
  predicate LeadingCap(m: Metrics, scene: Scene) {
    scene.Row? && scene.children != [] && scene.children[0].Image? && m.cap(scene.children[0].role)
  }

  predicate CapFree(m: Metrics, scene: Scene)
    decreases scene
  {
    match scene
    case Image(role) => !m.cap(role)
    case Row(children, _, _) => forall i :: 0 <= i < |children| ==> CapFree(m, children[i])
    case Column(children, _, _) => forall i :: 0 <= i < |children| ==> CapFree(m, children[i])
    case Button(content, _, _) => CapFree(m, content)
    case ActionRegion(content, _, _) => CapFree(m, content)
    case _ => true
  }

  /** A cap image may only lead the root row of a compact view. */
  predicate CapsAllowed(m: Metrics, compact: bool, scene: Scene) {
    if LeadingCap(m, scene) then compact && forall i :: 1 <= i < |scene.children| ==> CapFree(m, scene.children[i])
    else CapFree(m, scene)
  }

  /** A leading cap is drawn into the view's rounded end: its clip is the whole view. */
  function Uncapped(capped: bool, draws: seq<Draw>, view: Rect): (r: seq<Draw>)
    ensures |r| == |draws|
  {
    if capped && draws != [] && draws[0].ImageDraw? then draws[0 := ImageDraw(draws[0].bounds, view, draws[0].role)]
    else draws
  }

  datatype Layout = Layout(view: Rect, content: Rect, placed: Placed)

  function Clamp(value: int, low: int, high: int): int {
    if value < low then low else if high < value then high else value
  }

  /** The width handed to the scene. */
  function ContentWidth(measured: Node, g: Geometry): (r: Result<int>) {
    var insets :- CheckedAdd(g.leadingInset, g.trailingInset, []);
    var doubled :- CheckedMultiply(2, g.verticalPadding, []);
    var widest :- CheckedSubtract(g.maximumWidth, insets, []);
    var tallest :- CheckedSubtract(g.maximumHeight, doubled, []);
    if widest <= 0 || tallest <= 0 then Impossible([])
    else if widest < measured.minimumWidth || tallest < measured.minimumHeight then Impossible([])
    else
      var desired :- CheckedAdd(measured.width, insets, []);
      CheckedSubtract(Clamp(desired, g.minimumWidth, g.maximumWidth), insets, [])
  }

  /** The height the constrained scene gets. */
  function ContentHeight(constrained: Node, g: Geometry): Result<int> {
    var doubled :- CheckedMultiply(2, g.verticalPadding, []);
    if constrained.height > g.maximumHeight - doubled then Impossible([])
    else
      var desired :- CheckedAdd(constrained.height, doubled, []);
      CheckedSubtract(Clamp(desired, g.minimumHeight, g.maximumHeight), doubled, [])
  }

  function ContentRect(width: int, height: int, g: Geometry): Rect {
    Rect(g.leadingInset, g.verticalPadding, width, height)
  }

  function ViewRect(width: int, height: int, g: Geometry): Rect {
    Rect(0, 0, width + g.leadingInset + g.trailingInset, height + 2 * g.verticalPadding)
  }

  function PlaceContent(m: Metrics, uniform: bool, capped: bool, constrained: Node, width: int,
      g: Geometry): Result<Layout> {
    var height :- ContentHeight(constrained, g);
    if width <= 0 || height <= 0 then Impossible([])
    else
      var content := ContentRect(width, height, g);
      var placed :- Place(m, uniform, constrained, content, content);
      var view := ViewRect(width, height, g);
      Ok(Layout(view, content, placed.(draws := Uncapped(capped, placed.draws, view))))
  }

  function LayoutScene(m: Metrics, uniform: bool, scene: Scene, g: Geometry): Result<Layout> {
    if !CapsAllowed(m, g.compact, scene) then Impossible([])
    else
      var measured :- Measure(m, scene, []);
      var width :- ContentWidth(measured, g);
      var constrained :- Constrain(m, uniform, measured, width);
      PlaceContent(m, uniform, LeadingCap(m, scene), constrained, width, g)
  }

  /** The engine itself: the same steps on a tree rewritten in place and a plan appended to. */
  method RunLayout(m: Metrics, uniform: bool, scene: Scene, g: Geometry, root: MeasuredNode, plan: Plan)
    returns (r: Result<Layout>)
    requires root.Valid() && Measure(m, scene, []) == Ok(root.Tree())
    requires plan.Value() == Placed([], [])
    modifies root.repr, plan
    ensures r.Ok? == LayoutScene(m, uniform, scene, g).Ok?
    ensures r.Ok? ==> r == LayoutScene(m, uniform, scene, g) && plan.Value() == r.value.placed
  {
    if !CapsAllowed(m, g.compact, scene) { return Impossible([]); }
    var measured := root.Tree();
    var width := ContentWidth(measured, g);
    if width.Err? { return Err(width.error); }
    var constrained := root.ConstrainWidth(m, uniform, width.value);
    if constrained.Err? { return Err(constrained.error); }
    r := RunPlacement(m, uniform, LeadingCap(m, scene), root.Tree(), width.value, g, plan);
  }

  method RunPlacement(m: Metrics, uniform: bool, capped: bool, constrained: Node, width: int, g: Geometry, plan: Plan)
    returns (r: Result<Layout>)
    requires plan.Value() == Placed([], [])
    modifies plan
    ensures r.Ok? == PlaceContent(m, uniform, capped, constrained, width, g).Ok?
    ensures r.Ok? ==> r == PlaceContent(m, uniform, capped, constrained, width, g) && plan.Value() == r.value.placed
  {
    var height := ContentHeight(constrained, g);
    if height.Err? { return Err(height.error); }
    if width <= 0 || height.value <= 0 { return Impossible([]); }
    var content := ContentRect(width, height.value, g);
    var placed := PlaceOnto(plan, m, uniform, constrained, content, content);
    if placed.Err? { return Err(placed.error); }
    assert plan.Value() == Place(m, uniform, constrained, content, content).value;
    var view := ViewRect(width, height.value, g);
    if capped && plan.content != [] && plan.content[0].ImageDraw? {
      plan.content := plan.content[0 := ImageDraw(plan.content[0].bounds, view, plan.content[0].role)];
    }
    r := Ok(Layout(view, content, plan.Value()));
  }

  /** The steps of a successful layout. */
  lemma LayoutSteps(m: Metrics, uniform: bool, scene: Scene, g: Geometry) returns (measured: Node, width: int,
      constrained: Node)
    requires LayoutScene(m, uniform, scene, g).Ok?
    ensures Measure(m, scene, []) == Ok(measured) && ContentWidth(measured, g) == Ok(width)
    ensures Constrain(m, uniform, measured, width) == Ok(constrained)
    ensures var layout := LayoutScene(m, uniform, scene, g).value;
      && layout.content.width == width
      && Place(m, uniform, constrained, layout.content, layout.content).Ok?
      && var placed := Place(m, uniform, constrained, layout.content, layout.content).value;
         layout.placed == placed.(draws := Uncapped(LeadingCap(m, scene), placed.draws, layout.view))
  {
    measured := Measure(m, scene, []).value;
    width := ContentWidth(measured, g).value;
    constrained := Constrain(m, uniform, measured, width).value;
  }

  // ---- Where caps may stand, and the size of the view ----

  /** The scene itself, or one inside it. */
  ghost predicate Below(scene: Scene, other: Scene)
    decreases scene
  {
    || other == scene
    || ((scene.Row? || scene.Column?) && exists i :: 0 <= i < |scene.children| && Below(scene.children[i], other))
    || ((scene.Button? || scene.ActionRegion?) && Below(scene.content, other))
  }

  lemma {:induction false} CapFreeIff(m: Metrics, scene: Scene)
    ensures CapFree(m, scene) <==> forall other :: Below(scene, other) && other.Image? ==> !m.cap(other.role)
    decreases scene
  {
    if scene.Row? || scene.Column? {
      forall i | 0 <= i < |scene.children|
        ensures CapFree(m, scene.children[i]) <==>
          forall other :: Below(scene.children[i], other) && other.Image? ==> !m.cap(other.role)
      {
        CapFreeIff(m, scene.children[i]);
      }
      CapFreeBelow(m, scene);
    } else if scene.Button? || scene.ActionRegion? {
      CapFreeIff(m, scene.content);
    } else if scene.Image? {
      assert Below(scene, scene);
    }
  }

  lemma CapFreeBelow(m: Metrics, scene: Scene)
    requires scene.Row? || scene.Column?
    requires forall i :: 0 <= i < |scene.children| ==>
      (CapFree(m, scene.children[i]) <==>
         forall other :: Below(scene.children[i], other) && other.Image? ==> !m.cap(other.role))
    ensures CapFree(m, scene) <==> forall other :: Below(scene, other) && other.Image? ==> !m.cap(other.role)
  {
    if forall other :: Below(scene, other) && other.Image? ==> !m.cap(other.role) {
      forall i | 0 <= i < |scene.children| ensures CapFree(m, scene.children[i]) {
        forall other | Below(scene.children[i], other) && other.Image? ensures !m.cap(other.role) {
          assert Below(scene, other);
        }
      }
    }
  }

  /** A scene is refused for its caps exactly if one stands anywhere but at the head of the root row, or stands there in
      a view that is not compact. */
  lemma CapsAllowedIff(m: Metrics, compact: bool, scene: Scene)
    ensures CapsAllowed(m, compact, scene) <==>
      if scene.Row? && scene.children != [] && scene.children[0].Image? && m.cap(scene.children[0].role) then
        compact && forall i, other :: 1 <= i < |scene.children| && Below(scene.children[i], other) && other.Image? ==>
                     !m.cap(other.role)
      else forall other :: Below(scene, other) && other.Image? ==> !m.cap(other.role)
  {
    CapFreeIff(m, scene);
    if LeadingCap(m, scene) {
      forall i | 1 <= i < |scene.children|
        ensures CapFree(m, scene.children[i]) <==>
          forall other :: Below(scene.children[i], other) && other.Image? ==> !m.cap(other.role)
      {
        CapFreeIff(m, scene.children[i]);
      }
    }
  }

  /** The value if it lies between the bounds, else the bound that it passes. */
  predicate Bounds(value: int, low: int, high: int, r: int) {
    && (value < low ==> r == low)
    && (low <= value <= high ==> r == value)
    && (low <= value && high < value ==> r == high)
  }

  /** The scene gets a width exactly if the insets leave room for its least size, with every number in range; then the
      view is as wide as the scene and the insets want, within the bounds. */
  lemma WidthIsGivenIff(measured: Node, g: Geometry)
    ensures var insets, doubled := g.leadingInset + g.trailingInset, 2 * g.verticalPadding;
      var wanted := measured.width + insets;
      ContentWidth(measured, g).Ok? <==>
        && Fits(insets) && Fits(doubled) && Fits(g.maximumWidth - insets) && Fits(g.maximumHeight - doubled)
        && insets < g.maximumWidth && doubled < g.maximumHeight
        && measured.minimumWidth + insets <= g.maximumWidth && measured.minimumHeight + doubled <= g.maximumHeight
        && Fits(wanted) && (wanted < g.minimumWidth ==> Fits(g.minimumWidth - insets))
        && (g.minimumWidth <= wanted <= g.maximumWidth ==> Fits(measured.width))
    ensures ContentWidth(measured, g).Ok? ==>
      Bounds(measured.width + g.leadingInset + g.trailingInset, g.minimumWidth, g.maximumWidth,
        ContentWidth(measured, g).value + g.leadingInset + g.trailingInset)
  {
  }

  /** And the scene, constrained to that width, gets a height exactly if it then fits with the padding. */
  lemma HeightIsGivenIff(constrained: Node, g: Geometry)
    ensures var doubled := 2 * g.verticalPadding;
      var wanted := constrained.height + doubled;
      ContentHeight(constrained, g).Ok? <==>
        && Fits(doubled) && wanted <= g.maximumHeight && Fits(wanted)
        && (if wanted < g.minimumHeight then Fits(g.minimumHeight - doubled) else Fits(constrained.height))
    ensures ContentHeight(constrained, g).Ok? ==>
      Bounds(constrained.height + 2 * g.verticalPadding, g.minimumHeight, g.maximumHeight,
        ContentHeight(constrained, g).value + 2 * g.verticalPadding)
  {
  }

  /** The view starts at the origin and reaches the insets and the padding beyond the content on each side; its sizes
      are those that the scene wants, within the bounds. */
  predicate ViewStands(layout: Layout, g: Geometry, wantedWidth: int, wantedHeight: int) {
    && layout.view.x == 0 && layout.view.y == 0
    && layout.content.x == g.leadingInset && layout.content.y == g.verticalPadding
    && layout.view.width - (layout.content.x + layout.content.width) == g.trailingInset
    && layout.view.height - (layout.content.y + layout.content.height) == g.verticalPadding
    && 0 < layout.content.width && 0 < layout.content.height
    && Bounds(wantedWidth, g.minimumWidth, g.maximumWidth, layout.view.width)
    && Bounds(wantedHeight, g.minimumHeight, g.maximumHeight, layout.view.height)
  }

  lemma LayoutStands(m: Metrics, uniform: bool, scene: Scene, g: Geometry, measured: Node, width: int,
      constrained: Node)
    requires LayoutScene(m, uniform, scene, g).Ok? && Measure(m, scene, []) == Ok(measured)
    requires ContentWidth(measured, g) == Ok(width) && Constrain(m, uniform, measured, width) == Ok(constrained)
    ensures ViewStands(LayoutScene(m, uniform, scene, g).value, g, measured.width + g.leadingInset + g.trailingInset,
      constrained.height + 2 * g.verticalPadding)
  {
    WidthIsGivenIff(measured, g);
    HeightIsGivenIff(constrained, g);
    PlacedStands(m, uniform, LeadingCap(m, scene), constrained, width, g);
  }

  lemma PlacedStands(m: Metrics, uniform: bool, capped: bool, constrained: Node, width: int, g: Geometry)
    requires PlaceContent(m, uniform, capped, constrained, width, g).Ok?
    ensures var layout := PlaceContent(m, uniform, capped, constrained, width, g).value;
      && ContentHeight(constrained, g) == Ok(layout.content.height) && layout.content.width == width
      && layout.view.x == 0 && layout.view.y == 0
      && layout.content.x == g.leadingInset && layout.content.y == g.verticalPadding
      && layout.view.width == width + g.leadingInset + g.trailingInset
      && layout.view.height == layout.content.height + 2 * g.verticalPadding
      && 0 < width && 0 < layout.content.height
  {
  }

  /** A scene that has a width and a height is placed whenever both are positive and placing it succeeds. */
  lemma PlacedIff(m: Metrics, uniform: bool, capped: bool, constrained: Node, width: int, g: Geometry, height: int)
    requires ContentHeight(constrained, g) == Ok(height)
    ensures PlaceContent(m, uniform, capped, constrained, width, g).Ok? <==>
      var content := Rect(g.leadingInset, g.verticalPadding, width, height);
      width > 0 && height > 0 && Place(m, uniform, constrained, content, content).Ok?
  {
  }

  lemma EnoughWidth(measured: Node, g: Geometry)
    requires Sizes(measured) && ContentWidth(measured, g).Ok?
    ensures measured.minimumWidth <= ContentWidth(measured, g).value <= INT_MAX
  {
  }

  /** The agreement theorem: every rich text of a layout whose rows leave room for their columns' spacers is drawn at
      exactly the width, and the height, it was last composed at, although placing distributes the main axis all over
      again. */
  lemma RichTextAgrees(m: Metrics, uniform: bool, scene: Scene, g: Geometry)
    requires SteadyMetrics(m) && LayoutScene(m, uniform, scene, g).Ok?
    requires Roomy(uniform, Measure(m, scene, []).value, LayoutScene(m, uniform, scene, g).value.content.width)
    ensures AllAgree(m, LayoutScene(m, uniform, scene, g).value.placed)
  {
    var measured, width, constrained := LayoutSteps(m, uniform, scene, g);
    MeasureIsSound(m, scene, []);
    EnoughWidth(measured, g);
    ConstrainSettles(m, uniform, measured, width, constrained);
    MeasureIsFramed(m, scene, []);
    ConstrainKeepsFrame(m, uniform, measured, width, constrained);
    var content := LayoutScene(m, uniform, scene, g).value.content;
    PlaceAgrees(m, uniform, constrained, content, content);
  }

  /** In particular when no rigid spacer is wider than its column's measured minimum, whatever the width. */
  lemma NarrowTextAgrees(m: Metrics, uniform: bool, scene: Scene, g: Geometry)
    requires SteadyMetrics(m) && LayoutScene(m, uniform, scene, g).Ok?
    requires NarrowSpacers(Measure(m, scene, []).value)
    ensures AllAgree(m, LayoutScene(m, uniform, scene, g).value.placed)
  {
    MeasureIsSound(m, scene, []);
    NarrowIsRoomy(m, uniform, Measure(m, scene, []).value, LayoutScene(m, uniform, scene, g).value.content.width);
    RichTextAgrees(m, uniform, scene, g);
  }

  lemma LayoutIsFramed(m: Metrics, uniform: bool, scene: Scene, g: Geometry) returns (constrained: Node)
    requires LayoutScene(m, uniform, scene, g).Ok?
    ensures Framed(constrained)
    ensures LeadingCap(m, scene) ==>
              constrained.scene.Row? && constrained.children != [] && constrained.children[0].scene == scene.children[0]
    ensures var layout := LayoutScene(m, uniform, scene, g).value;
      && Place(m, uniform, constrained, layout.content, layout.content).Ok?
      && var placed := Place(m, uniform, constrained, layout.content, layout.content).value;
         layout.placed == placed.(draws := Uncapped(LeadingCap(m, scene), placed.draws, layout.view))
  {
    var measured, width;
    measured, width, constrained := LayoutSteps(m, uniform, scene, g);
    MeasureIsFramed(m, scene, []);
    ConstrainKeepsFrame(m, uniform, measured, width, constrained);
    if LeadingCap(m, scene) {
      MeasuredFirst(m, scene);
      RowUnfolds(m, uniform, measured, width, constrained);
      assert SameFrame(constrained.children[0], measured.children[0]);
    }
  }

  lemma MeasuredFirst(m: Metrics, scene: Scene)
    requires scene.Row? && scene.children != [] && Measure(m, scene, []).Ok?
    ensures var measured := Measure(m, scene, []).value;
      measured.scene == scene && measured.children != [] && measured.children[0].scene == scene.children[0]
  {
    var nodes := MeasureChildren(m, scene.children, 0, []).value;
    assert nodes[0].scene == scene.children[0];
  }

  /** The image that leads a row is what is drawn first. */
  lemma CapIsFirst(m: Metrics, uniform: bool, node: Node, box: Rect, clip: Rect)
    requires node.scene.Row? && node.children != [] && node.children[0].scene.Image?
    requires Place(m, uniform, node, box, clip).Ok?
    ensures var draws := Place(m, uniform, node, box, clip).value.draws; draws != [] && draws[0].ImageDraw?
  {
    PlaceContainerStep(m, uniform, node, box, clip);
    PlaceChildrenStep(m, uniform, node, MainSizes(uniform, node, Available(box, AxisOf(node)), AxisOf(node)).value, 0,
      MainStart(box, AxisOf(node)), box, Intersect(clip, box, node.path).value, AxisOf(node));
  }

  /** A draw command other than a leading cap lies in the content, clip and all; the cap's bounds do, and its clip is
      the view. */
  predicate DrawFits(layout: Layout, capped: bool, i: nat, px: int, py: int)
    requires i < |layout.placed.draws|
  {
    && DrawnInside(layout.placed.draws[i], layout.content)
    && (if capped && i == 0 then layout.placed.draws[0].ImageDraw? && layout.placed.draws[0].clip == layout.view
        else Clipped(layout.placed.draws[i].clip, layout.content, layout.content, px, py))
  }

  /** The containment theorem: on every layout of every scene, under any metrics, nothing is drawn outside the
      content rectangle and every clip lies inside it, save a leading cap's, which is the view. */
  lemma LayoutIsContained(m: Metrics, uniform: bool, scene: Scene, g: Geometry, px: int, py: int)
    requires LayoutScene(m, uniform, scene, g).Ok?
    ensures var layout := LayoutScene(m, uniform, scene, g).value;
      && (LeadingCap(m, scene) ==> layout.placed.draws != [])
      && (forall i :: 0 <= i < |layout.placed.draws| ==> DrawFits(layout, LeadingCap(m, scene), i, px, py))
      && (forall i :: 0 <= i < |layout.placed.targets| ==>
            TargetContained(layout.placed.targets[i], layout.content, layout.content, px, py))
  {
    var constrained := LayoutIsFramed(m, uniform, scene, g);
    var content := LayoutScene(m, uniform, scene, g).value.content;
    PlaceIsContained(m, uniform, constrained, content, content, px, py);
    if LeadingCap(m, scene) { CapIsFirst(m, uniform, constrained, content, content); }
    var placed := Place(m, uniform, constrained, content, content).value;
    forall i | 0 <= i < |placed.draws|
      ensures DrawFits(LayoutScene(m, uniform, scene, g).value, LeadingCap(m, scene), i, px, py)
    {
      assert DrawContained(placed.draws[i], content, content, px, py);
    }
  }

  /** Every clip of the layout lies in the content rectangle, as sets of pixels. */
  ghost predicate AllClipped(layout: Layout) {
    forall i, px, py :: 0 <= i < |layout.placed.draws| ==>
      Clipped(layout.placed.draws[i].clip, layout.content, layout.content, px, py)
  }

  lemma ViewInContentIff(width: int, height: int, g: Geometry)
    requires 0 < width && 0 < height
    ensures (forall px, py :: Clipped(ViewRect(width, height, g), ContentRect(width, height, g),
                                      ContentRect(width, height, g), px, py))
            <==> g.leadingInset == 0 && g.trailingInset == 0 && g.verticalPadding == 0
  {
    var view, content := ViewRect(width, height, g), ContentRect(width, height, g);
    if forall px, py :: Clipped(view, content, content, px, py) {
      assert Clipped(view, content, content, 0, 0);
      assert Clipped(view, content, content, view.width - 1, view.height - 1);
    }
  }

  /** The content and the view of a placed scene, and that there is something of them. */
  lemma PlacedRects(m: Metrics, uniform: bool, capped: bool, constrained: Node, width: int, g: Geometry)
    requires PlaceContent(m, uniform, capped, constrained, width, g).Ok?
    ensures var layout := PlaceContent(m, uniform, capped, constrained, width, g).value;
      && layout.content == ContentRect(width, layout.content.height, g) && 0 < width && 0 < layout.content.height
      && layout.view == ViewRect(width, layout.content.height, g)
  {
  }

  lemma LayoutRects(m: Metrics, uniform: bool, scene: Scene, g: Geometry) returns (width: int, height: int)
    requires LayoutScene(m, uniform, scene, g).Ok?
    ensures 0 < width && 0 < height
    ensures var layout := LayoutScene(m, uniform, scene, g).value;
      layout.view == ViewRect(width, height, g) && layout.content == ContentRect(width, height, g)
  {
    var measured := Measure(m, scene, []).value;
    width := ContentWidth(measured, g).value;
    var constrained := Constrain(m, uniform, measured, width).value;
    PlacedRects(m, uniform, LeadingCap(m, scene), constrained, width, g);
    height := LayoutScene(m, uniform, scene, g).value.content.height;
  }

  /** Every clip stays in the content exactly if there is no leading cap or the view has no insets and no padding. */
  lemma ClipsStayInContentIff(m: Metrics, uniform: bool, scene: Scene, g: Geometry)
    requires LayoutScene(m, uniform, scene, g).Ok?
    ensures AllClipped(LayoutScene(m, uniform, scene, g).value) <==>
              !LeadingCap(m, scene) || (g.leadingInset == 0 && g.trailingInset == 0 && g.verticalPadding == 0)
  {
    var layout := LayoutScene(m, uniform, scene, g).value;
    var width, height := LayoutRects(m, uniform, scene, g);
    ViewInContentIff(width, height, g);
    LayoutIsContained(m, uniform, scene, g, 0, 0);
    if LeadingCap(m, scene) { assert DrawFits(layout, true, 0, 0, 0); }
    forall i, px, py | 0 <= i < |layout.placed.draws| && !(LeadingCap(m, scene) && i == 0)
      ensures Clipped(layout.placed.draws[i].clip, layout.content, layout.content, px, py)
    {
      LayoutIsContained(m, uniform, scene, g, px, py);
      assert DrawFits(layout, LeadingCap(m, scene), i, px, py);
    }
  }

  /** The hit-testing theorem on whole layouts: the scan finds what descending the placed tree finds, and nothing
      outside the content rectangle. */
  lemma LayoutHits(m: Metrics, uniform: bool, scene: Scene, g: Geometry, px: int, py: int) returns (constrained: Node)
    requires LayoutScene(m, uniform, scene, g).Ok?
    ensures Measure(m, scene, []).Ok?
    ensures var layout := LayoutScene(m, uniform, scene, g).value;
      && Constrain(m, uniform, Measure(m, scene, []).value, layout.content.width) == Ok(constrained)
      && LastHit(layout.placed.targets, px, py) ==
           if Covers(layout.content, px, py) then HitTest(uniform, constrained, layout.content, layout.content, px, py)
             else None
  {
    var measured, width;
    measured, width, constrained := LayoutSteps(m, uniform, scene, g);
    MeasureIsFramed(m, scene, []);
    ConstrainKeepsFrame(m, uniform, measured, width, constrained);
    var content := LayoutScene(m, uniform, scene, g).value.content;
    if Covers(content, px, py) {
      ScanIsDescent(m, uniform, constrained, content, content, px, py);
    } else {
      NothingHitOutside(m, uniform, constrained, content, content, px, py);
    }
  }
}
