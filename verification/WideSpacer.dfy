/** The boundary of the agreement theorem: one scene with a wide rigid spacer in a column, whose rich texts are
    drawn at widths they were never composed at. */
module WideSpacer {
  import opened Optional
  import opened Pixels
  import opened FlexDistribution
  import opened SceneMeasure
  import opened WidthConstraint
  import opened Placement
  import opened PlacementProperties
  import opened LayoutEngine

  function WrappingCompose(rich: RichText, width: int): Measurement<Composition> {
    Measured(Composition(200, 10, if width < 100 then 40 else 20, []))
  }

  /** Text that needs 200 pixels, can do with 10 and wraps below 100. */
  function WrappingMetrics(): Metrics {
    Metrics((role, text) => Measured(Size(0, 0)), (name, role) => Measured(Size(0, 0)), role => Measured(Size(0, 0)),
      role => false,
      WrappingCompose, name => Some(0), name => Some(100), effects => Insets(0, 0, 0, 0), 0, 0, 0, 0, 0)
  }

  const FIRST_TEXT := Rich(RichText("body", ["first"]))
  const SECOND_TEXT := Rich(RichText("body", ["second"]))
  const SPACED_COLUMN := Column([FIRST_TEXT, Spacer(false, "wide")], Alignment.Start, "none")
  const WIDE_SPACER_SCENE := Row([SPACED_COLUMN, SECOND_TEXT], Alignment.Start, "none")
  const WIDE_SPACER_VIEW := Geometry(0, 0, 0, 200, 200, 0, 1000, true)

  function RichNode(text: Scene, path: seq<PathStep>, width: int, height: int): Node
    requires text.Rich?
  {
    Plain(text, path, width, height, 10, height)
      .(expandsWidth := true, composition := Some(WrappingCompose(text.rich, width).value))
  }

  function SpacerNode(path: seq<PathStep>): Node {
    Plain(Spacer(false, "wide"), path, 100, 100, 100, 100).(tokenSize := 100)
  }

  function ColumnNode(width: int, minimumWidth: int): Node {
    Plain(SPACED_COLUMN, [Child(0)], width, 120, minimumWidth, 120)
      .(expandsWidth := true,
        children := [RichNode(FIRST_TEXT, [Child(0), Child(0)], width, 20), SpacerNode([Child(0), Child(1)])])
  }

  function RowNode(width: int, each: int, minimumOfColumn: int, minimumWidth: int): Node {
    Plain(WIDE_SPACER_SCENE, [], width, 120, minimumWidth, 120)
      .(expandsWidth := true,
        children := [ColumnNode(each, minimumOfColumn), RichNode(SECOND_TEXT, [Child(1)], each, 20)])
  }

  lemma Pair<T>(a: T, b: T)
    ensures [a, b][1..] == [b] && [b][1..] == []
  {
  }

  lemma SumOfPair(a: int, b: int, path: seq<PathStep>)
    requires 0 <= a && 0 <= b && a + b <= INT_MAX
    ensures Sum([a, b]) == a + b && CheckedTotal(0, [a, b], path) == Ok(a + b)
  {
    Pair(a, b);
    assert Sum([b]) == b;
    CheckedTotalIsSum(0, [a, b], path);
  }

  lemma LargestOfPair(a: int, b: int)
    ensures Largest([a, b]) == Max(a, Max(b, 0))
  {
    Pair(a, b);
    assert Largest([b]) == Max(b, 0);
  }

  lemma AssemblesPair(scene: Scene, path: seq<PathStep>, first: Node, second: Node, axis: Axis)
    requires scene.Row? || scene.Column?
    requires axis == if scene.Row? then Horizontal else Vertical
    requires first.expandsWidth && !first.expandsHeight && !second.expandsHeight && first.scene.Spacer? == false
    requires second.scene.Spacer? ==> !second.scene.flexible
    requires forall minimum :: 0 <= MainSize(first, axis, minimum) <= 1000 && 0 <= MainSize(second, axis,
      minimum) <= 1000
    requires forall minimum :: 0 <= CrossSize(first, axis, minimum) && 0 <= CrossSize(second, axis, minimum)
    ensures var main := MainSize(first, axis, false) + MainSize(second, axis, false);
      var minimumMain := MainSize(first, axis, true) + MainSize(second, axis, true);
      var cross := Max(CrossSize(first, axis, false), CrossSize(second, axis, false));
      var minimumCross := Max(CrossSize(first, axis, true), CrossSize(second, axis, true));
      Assemble(scene, path, 0, [first, second], axis) == Ok(
        (if axis.Horizontal? then Plain(scene, path, main, cross, minimumMain, minimumCross)
         else Plain(scene, path, cross, main, minimumCross, minimumMain))
          .(expandsWidth := true, children := [first, second]))
  {
    var nodes := [first, second];
    SumOfPair(MainSize(first, axis, false), MainSize(second, axis, false), path);
    SumOfPair(MainSize(first, axis, true), MainSize(second, axis, true), path);
    LargestOfPair(CrossSize(first, axis, false), CrossSize(second, axis, false));
    LargestOfPair(CrossSize(first, axis, true), CrossSize(second, axis, true));
    assert Mains(nodes, axis, false) == [MainSize(first, axis, false), MainSize(second, axis, false)];
    assert Mains(nodes, axis, true) == [MainSize(first, axis, true), MainSize(second, axis, true)];
    assert Crosses(nodes, axis, false) == [CrossSize(first, axis, false), CrossSize(second, axis, false)];
    assert Crosses(nodes, axis, true) == [CrossSize(first, axis, true), CrossSize(second, axis, true)];
    assert nodes[0].expandsWidth;
  }

  lemma MeasuresPair(m: Metrics, first: Scene, second: Scene, path: seq<PathStep>, a: Node, b: Node)
    requires Measure(m, first, path + [Child(0)]) == Ok(a) && Measure(m, second, path + [Child(1)]) == Ok(b)
    ensures MeasureChildren(m, [first, second], 0, path) == Ok([a, b])
  {
    Pair(first, second);
    assert MeasureChildren(m, [second][1..], 2, path) == Ok([]);
    assert [b] + [] == [b];
    assert MeasureChildren(m, [second], 1, path) == Ok([b]);
    assert [a] + [b] == [a, b];
  }

  lemma TextMeasures(text: Scene, path: seq<PathStep>)
    requires text.Rich?
    ensures Measure(WrappingMetrics(), text, path) == Ok(RichNode(text, path, 200, 20))
  {
  }

  lemma SpacerMeasures(path: seq<PathStep>)
    ensures Measure(WrappingMetrics(), Spacer(false, "wide"), path) == Ok(SpacerNode(path))
  {
  }

  lemma ColumnMeasures()
    ensures Measure(WrappingMetrics(), SPACED_COLUMN, [Child(0)]) == Ok(ColumnNode(200, 10))
  {
    var first, spacer := RichNode(FIRST_TEXT, [Child(0), Child(0)], 200, 20), SpacerNode([Child(0), Child(1)]);
    assert [Child(0)] + [Child(0)] == [Child(0), Child(0)] && [Child(0)] + [Child(1)] == [Child(0), Child(1)];
    TextMeasures(FIRST_TEXT, [Child(0), Child(0)]);
    SpacerMeasures([Child(0), Child(1)]);
    MeasuresPair(WrappingMetrics(), FIRST_TEXT, Spacer(false, "wide"), [Child(0)], first, spacer);
    AssemblesPair(SPACED_COLUMN, [Child(0)], first, spacer, Vertical);
  }

  lemma RowAssembles(column: Node, second: Node)
    requires Measure(WrappingMetrics(), SPACED_COLUMN, [Child(0)]) == Ok(column)
    requires Measure(WrappingMetrics(), SECOND_TEXT, [Child(1)]) == Ok(second)
    ensures Measure(WrappingMetrics(), WIDE_SPACER_SCENE, []) ==
      Assemble(WIDE_SPACER_SCENE, [], 0, [column, second], Horizontal)
  {
    assert [] + [Child(0)] == [Child(0)] && [] + [Child(1)] == [Child(1)];
    MeasuresPair(WrappingMetrics(), SPACED_COLUMN, SECOND_TEXT, [], column, second);
  }

  lemma RowMeasures()
    ensures Measure(WrappingMetrics(), WIDE_SPACER_SCENE, []) == Ok(RowNode(400, 200, 10, 20))
  {
    ColumnMeasures();
    TextMeasures(SECOND_TEXT, [Child(1)]);
    RowAssembles(ColumnNode(200, 10), RichNode(SECOND_TEXT, [Child(1)], 200, 20));
    AssemblesPair(WIDE_SPACER_SCENE, [], ColumnNode(200, 10), RichNode(SECOND_TEXT, [Child(1)], 200, 20), Horizontal);
  }

  /** Two flexible children share what their minimums leave. */
  lemma SplitsPair(first: int, second: int, available: int, path: seq<PathStep>, naturals: (int, int))
    requires 0 <= first <= 1000 && 0 <= second <= 1000 && first + second <= available <= 1000
    requires (available - first - second) % 2 == 0
    ensures Distribute([Item(naturals.0, first, true), Item(naturals.1, second, true)], 0, available, path)
      == Ok([first + (available - first - second) / 2, second + (available - first - second) / 2])
  {
    var items := [Item(naturals.0, first, true), Item(naturals.1, second, true)];
    assert Bases(items) == [first, second] && Flags(items) == [true, true];
    SumOfPair(first, second, path);
    Pair(true, true);
    assert CountTrue([true]) == 1;
    assert CountTrue([true, true]) == 2;
    var share := (available - first - second) / 2;
    Pair(first, second);
    assert Grow([second], [true], share, 0) == [second + share] + Grow([second][1..], [true][1..], share, 0);
    assert Grow([second], [true], share, 0) == [second + share];
    assert Grow([first, second], [true, true], share, 0) == [first + share] + [second + share];
    assert Spread(Bases(items), Flags(items), available - first - second) == [first + share, second + share];
    assert GapTotal(0, 2, path) == Ok(0);
  }

  /** Measured minimums split the row evenly; the constrained ones, which count the spacer, do not. */
  lemma RowSplits(width: int, each: int, minimumOfColumn: int, minimumWidth: int)
    requires 10 <= minimumOfColumn <= 100 && minimumOfColumn % 2 == 0
    ensures HorizontalSizes(false, RowNode(width, each, minimumOfColumn, minimumWidth), 200)
      == Ok([minimumOfColumn + (190 - minimumOfColumn) / 2, 10 + (190 - minimumOfColumn) / 2])
  {
    var row := RowNode(width, each, minimumOfColumn, minimumWidth);
    assert Items(row.children, Horizontal) == [Item(each, minimumOfColumn, true), Item(each, 10, true)];
    SplitsPair(minimumOfColumn, 10, 200, [], (each, each));
  }

  lemma RowSplitsEvenly()
    ensures HorizontalSizes(false, RowNode(400, 200, 10, 20), 200) == Ok([100, 100])
  {
    RowSplits(400, 200, 10, 20);
  }

  lemma TextConstrains(text: Scene, path: seq<PathStep>)
    requires text.Rich?
    ensures Constrain(WrappingMetrics(), false, RichNode(text, path, 200, 20), 100) == Ok(RichNode(text, path, 100, 20))
  {
  }

  lemma ConstrainsPair(m: Metrics, first: Node, second: Node, sizes: seq<int>, a: Node, b: Node)
    requires |sizes| == 2
    requires Constrain(m, false, first, sizes[0]) == Ok(a) && Constrain(m, false, second, sizes[1]) == Ok(b)
    ensures ConstrainChildren(m, false, [first, second], sizes) == Ok([a, b])
  {
    Pair(first, second);
    assert sizes[1..][0] == sizes[1];
    assert ConstrainChildren(m, false, [second][1..], sizes[1..][1..]) == Ok([]);
    assert [b] + [] == [b];
    assert ConstrainChildren(m, false, [second], sizes[1..]) == Ok([b]);
    assert [a] + [b] == [a, b];
  }

  lemma ColumnConstrains()
    ensures Constrain(WrappingMetrics(), false, ColumnNode(200, 10), 100) == Ok(ColumnNode(100, 100))
  {
    var m, node := WrappingMetrics(), ColumnNode(200, 10);
    var first, spacer := RichNode(FIRST_TEXT, [Child(0), Child(0)], 100, 20), SpacerNode([Child(0), Child(1)]);
    assert ColumnWidths(node.children, 100) == [100, 100];
    TextConstrains(FIRST_TEXT, [Child(0), Child(0)]);
    ConstrainsPair(m, node.children[0], spacer, [100, 100], first, spacer);
    ColumnAroundPair(node, first, spacer);
    assert ConstrainColumn(m, false, node, 100) == ColumnAround(node, [first, spacer], 100);
  }

  lemma ColumnAroundPair(node: Node, first: Node, spacer: Node)
    requires node == ColumnNode(200, 10)
    requires first == RichNode(FIRST_TEXT, [Child(0), Child(0)], 100, 20) && spacer == SpacerNode([Child(0), Child(1)])
    ensures ColumnAround(node, [first, spacer], 100) == Ok(ColumnNode(100, 100))
  {
    var children := [first, spacer];
    assert Heights(children) == [20, 100] && MinimumHeights(children) == [20, 100] &&
      MinimumWidths(children) == [10, 100];
    SumOfPair(20, 100, node.path);
    LargestOfPair(10, 100);
  }

  lemma RowOfPair(m: Metrics, node: Node, available: int, sizes: seq<int>, first: Node, second: Node, a: Node, b: Node)
    requires node.scene.Row? && node.children == [first, second] && |sizes| == 2
    requires 0 <= available && HorizontalSizes(false, node, available) == Ok(sizes)
    requires Constrain(m, false, first, sizes[0]) == Ok(a) && Constrain(m, false, second, sizes[1]) == Ok(b)
    ensures Constrain(m, false, node, available) == RowAround(node, [a, b], sizes)
  {
    ConstrainsPair(m, first, second, sizes, a, b);
  }

  lemma RowConstrains()
    ensures Constrain(WrappingMetrics(), false, RowNode(400, 200, 10, 20), 200) == Ok(RowNode(200, 100, 100, 20))
  {
    var column, second := ColumnNode(100, 100), RichNode(SECOND_TEXT, [Child(1)], 100, 20);
    RowSplitsEvenly();
    ColumnConstrains();
    TextConstrains(SECOND_TEXT, [Child(1)]);
    RowOfPair(WrappingMetrics(), RowNode(400, 200, 10, 20), 200, [100, 100],
      ColumnNode(200, 10), RichNode(SECOND_TEXT, [Child(1)], 200, 20), column, second);
    RowAroundPair(RowNode(400, 200, 10, 20), column, second);
  }

  lemma RowAroundPair(node: Node, column: Node, second: Node)
    requires node == RowNode(400, 200, 10, 20)
    requires column == ColumnNode(100, 100) && second == RichNode(SECOND_TEXT, [Child(1)], 100, 20)
    ensures RowAround(node, [column, second], [100, 100]) == Ok(RowNode(200, 100, 100, 20))
  {
    assert Heights([column, second]) == [120, 20] && MinimumHeights([column, second]) == [120, 20];
    SumOfPair(100, 100, node.path);
    LargestOfPair(120, 20);
  }

  const BOX := Rect(0, 0, 200, 120)

  /** Placed again, the column takes 145 of the 200 pixels and the second text 55. */
  lemma SecondTextPlaced()
    ensures var row := RowNode(200, 100, 100, 20);
      Place(WrappingMetrics(), false, row.children[1], Rect(145, 0, 55, 20), BOX)
        == Ok(Placed([RichDraw(Rect(145, 0, 55, 20), Rect(145, 0, 55, 20), SECOND_TEXT.rich,
          Composition(200, 10, 20, []))], []))
  {
  }

  lemma FirstTextPlaced()
    ensures Place(WrappingMetrics(), false, ColumnNode(100, 100), Rect(0, 0, 145, 120), BOX).Ok?
  {
    var m, column, area := WrappingMetrics(), ColumnNode(100, 100), Rect(0, 0, 145, 120);
    var items := Items(column.children, Vertical);
    assert items == [Item(20, 20, false), Item(100, 100, false)];
    DistributeRigid(column.path);
    assert MainSizes(false, column, 120, Vertical) == Ok([20, 100]);
    assert PlaceChildren(m, false, column, [20, 100], 2, 120, area, area, Vertical).Ok?;
    assert Place(m, false, column.children[1], Rect(0, 20, 0, 100), area) == Ok(Placed([], []));
    assert PlaceChildren(m, false, column, [20, 100], 1, 20, area, area, Vertical).Ok?;
    assert Place(m, false, column.children[0], Rect(0, 0, 145, 20), area).Ok?;
    assert PlaceChildren(m, false, column, [20, 100], 0, 0, area, area, Vertical).Ok?;
    assert Intersect(BOX, area, column.path) == Ok(area);
  }

  lemma DistributeRigid(path: seq<PathStep>)
    ensures Distribute([Item(20, 20, false), Item(100, 100, false)], 0, 120, path) == Ok([20, 100])
  {
    var items := [Item(20, 20, false), Item(100, 100, false)];
    assert Bases(items) == [20, 100] && Flags(items) == [false, false];
    SumOfPair(20, 100, path);
    SpreadNothing([20, 100], [false, false]);
    assert GapTotal(0, 2, path) == Ok(0);
  }

  lemma LayoutOf(m: Metrics, scene: Scene, g: Geometry, measured: Node, constrained: Node)
    requires Measure(m, scene, []) == Ok(measured) && Constrain(m, false, measured, 200) == Ok(constrained)
    requires ContentWidth(measured, g) == Ok(200) && ContentHeight(constrained, g) == Ok(120)
    requires !LeadingCap(m, scene) && CapsAllowed(m, g.compact, scene)
    requires g.leadingInset == 0 && g.verticalPadding == 0 && Place(m, false, constrained, BOX, BOX).Ok?
    ensures LayoutScene(m, false, scene, g).Ok?
    ensures LayoutScene(m, false, scene, g).value.placed == Place(m, false, constrained, BOX, BOX).value
  {
  }

  /** The row gets the view's whole width, and the height it needs. */
  lemma RowFitsView(measured: Node, constrained: Node)
    requires measured.width == 400 && measured.minimumWidth == 20 && measured.minimumHeight == 120
    requires constrained.height == 120
    ensures ContentWidth(measured, WIDE_SPACER_VIEW) == Ok(200) &&
      ContentHeight(constrained, WIDE_SPACER_VIEW) == Ok(120)
  {
  }

  lemma NoCaps()
    ensures !LeadingCap(WrappingMetrics(), WIDE_SPACER_SCENE) && CapsAllowed(WrappingMetrics(), true, WIDE_SPACER_SCENE)
  {
    assert CapFree(WrappingMetrics(), SPACED_COLUMN);
  }

  /** The scene lays out, into what placing the constrained row gives. */
  lemma WideSpacerLaysOut()
    ensures var m := WrappingMetrics();
      && Measure(m, WIDE_SPACER_SCENE, []) == Ok(RowNode(400, 200, 10, 20))
      && LayoutScene(m, false, WIDE_SPACER_SCENE, WIDE_SPACER_VIEW).Ok?
      && Place(m, false, RowNode(200, 100, 100, 20), BOX, BOX).Ok?
      && LayoutScene(m, false, WIDE_SPACER_SCENE, WIDE_SPACER_VIEW).value.placed
           == Place(m, false, RowNode(200, 100, 100, 20), BOX, BOX).value
  {
    RowMeasures();
    RowConstrains();
    RowPlaced();
    NoCaps();
    RowFitsView(RowNode(400, 200, 10, 20), RowNode(200, 100, 100, 20));
    LayoutOf(WrappingMetrics(), WIDE_SPACER_SCENE, WIDE_SPACER_VIEW, RowNode(400, 200, 10, 20),
      RowNode(200, 100, 100, 20));
  }

  lemma WideSpacerIsWide()
    ensures !NarrowSpacers(RowNode(400, 200, 10, 20))
  {
    assert !NarrowSpacers(ColumnNode(200, 10)) by { assert ColumnNode(200, 10).children[1].scene.Spacer?; }
    assert RowNode(400, 200, 10, 20).children[0] == ColumnNode(200, 10);
  }

  /** The second text was composed at 100 pixels, where it needs one line, and is drawn at 55, where it needs two. */
  lemma WideSpacerDisagrees()
    ensures SteadyMetrics(WrappingMetrics())
    ensures Measure(WrappingMetrics(), WIDE_SPACER_SCENE, []).Ok?
    ensures LayoutScene(WrappingMetrics(), false, WIDE_SPACER_SCENE, WIDE_SPACER_VIEW).Ok?
    ensures var layout := LayoutScene(WrappingMetrics(), false, WIDE_SPACER_SCENE, WIDE_SPACER_VIEW).value;
      && !AllAgree(WrappingMetrics(), layout.placed)
      && !Roomy(false, Measure(WrappingMetrics(), WIDE_SPACER_SCENE, []).value, layout.content.width)
    ensures !NarrowSpacers(Measure(WrappingMetrics(), WIDE_SPACER_SCENE, []).value)
  {
    WideSpacerLaysOut();
    WideSpacerIsWide();
    RowPlaced();
    assert SteadyMetrics(WrappingMetrics());
    var m := WrappingMetrics();
    if Roomy(false, RowNode(400, 200, 10, 20),
      LayoutScene(m, false, WIDE_SPACER_SCENE, WIDE_SPACER_VIEW).value.content.width) {
      RichTextAgrees(m, false, WIDE_SPACER_SCENE, WIDE_SPACER_VIEW);
    }
  }

  lemma RowPlaced()
    ensures Place(WrappingMetrics(), false, RowNode(200, 100, 100, 20), BOX, BOX).Ok?
    ensures !AllAgree(WrappingMetrics(), Place(WrappingMetrics(), false, RowNode(200, 100, 100, 20), BOX, BOX).value)
  {
    var m, row := WrappingMetrics(), RowNode(200, 100, 100, 20);
    RowSplits(200, 100, 100, 20);
    assert MainSizes(false, row, 200, Horizontal) == Ok([145, 55]);
    FirstTextPlaced();
    SecondTextPlaced();
    assert PlaceChildren(m, false, row, [145, 55], 2, 200, BOX, BOX, Horizontal) == Ok(Placed([], []));
    var second := Place(m, false, row.children[1], Rect(145, 0, 55, 20), BOX).value;
    assert PlaceChildren(m, false, row, [145, 55], 1, 145, BOX, BOX, Horizontal) == Ok(Join(second, Placed([], [])));
    var first := Place(m, false, row.children[0], Rect(0, 0, 145, 120), BOX).value;
    assert PlaceChildren(m, false, row, [145, 55], 0, 0, BOX, BOX, Horizontal) ==
      Ok(Join(first, Join(second, Placed([], []))));
    assert Intersect(BOX, BOX, []) == Ok(BOX);
    var draws := first.draws + second.draws;
    assert draws[|first.draws|] == second.draws[0] && !Agrees(m, second.draws[0]);
    assert Place(m, false, row, BOX, BOX).value.draws == draws;
  }
}
