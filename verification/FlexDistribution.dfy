/** Distribution of a container's main axis among its children: greedy shrinking of rigid children in
    order, then an even split of what is left among flexible ones. */
module FlexDistribution {
  import opened Pixels

  /** A child as the distribution sees it: its natural and minimum main size, and whether it expands. */
  datatype Item = Item(natural: int, minimum: int, expands: bool)

  function Basis(item: Item): int {
    if item.expands then item.minimum else item.natural
  }

  function Bases(items: seq<Item>): (bases: seq<int>)
    ensures |bases| == |items|
    ensures forall i :: 0 <= i < |items| ==> bases[i] == Basis(items[i])
  {
    seq(|items|, i requires 0 <= i < |items| => Basis(items[i]))
  }

  function Minimums(items: seq<Item>): (minimums: seq<int>)
    ensures |minimums| == |items|
    ensures forall i :: 0 <= i < |items| ==> minimums[i] == items[i].minimum
  {
    seq(|items|, i requires 0 <= i < |items| => items[i].minimum)
  }

  function Flags(items: seq<Item>): (flags: seq<bool>)
    ensures |flags| == |items|
    ensures forall i :: 0 <= i < |items| ==> flags[i] == items[i].expands
  {
    seq(|items|, i requires 0 <= i < |items| => items[i].expands)
  }

  function Sum(values: seq<int>): int {
    if values == [] then 0 else values[0] + Sum(values[1..])
  }

  function CountTrue(flags: seq<bool>): nat {
    if flags == [] then 0 else (if flags[0] then 1 else 0) + CountTrue(flags[1..])
  }

  /** A running total whose every partial sum must fit in 32 bits. */
  function CheckedTotal(start: int, values: seq<int>, path: seq<PathStep>): Result<int>
    decreases values
  {
    if values == [] then Ok(start)
    else
      var next :- CheckedAdd(start, values[0], path);
      CheckedTotal(next, values[1..], path)
  }

  datatype Shrunk = Shrunk(sizes: seq<int>, deficit: int)

  /** Children give up what they have above their minimum, in order, until the deficit is gone. */
  function Shrink(sizes: seq<int>, minimums: seq<int>, deficit: int): (r: Shrunk)
    requires |sizes| == |minimums|
    ensures |r.sizes| == |sizes|
  {
    if sizes == [] || deficit <= 0 then Shrunk(sizes, deficit)
    else
      var reduction := Min(deficit, sizes[0] - minimums[0]);
      var rest := Shrink(sizes[1..], minimums[1..], deficit - reduction);
      Shrunk([sizes[0] - reduction] + rest.sizes, rest.deficit)
  }

  /** Every expanding child gets `share`, and the first `remainder` of them one pixel more. */
  function Grow(sizes: seq<int>, flags: seq<bool>, share: int, remainder: int): (r: seq<int>)
    requires |sizes| == |flags|
    ensures |r| == |sizes|
  {
    if sizes == [] then []
    else if flags[0] then
      [sizes[0] + share + (if remainder > 0 then 1 else 0)] + Grow(sizes[1..], flags[1..], share, Max(0, remainder - 1))
    else
      [sizes[0]] + Grow(sizes[1..], flags[1..], share, remainder)
  }

  function GapTotal(gap: int, count: nat, path: seq<PathStep>): Result<int> {
    CheckedMultiply(gap, if count > 1 then count - 1 else 0, path)
  }

  function Spread(sizes: seq<int>, flags: seq<bool>, remaining: int): (r: seq<int>)
    requires |sizes| == |flags|
    requires 0 <= remaining
    ensures |r| == |sizes|
  {
    var count := CountTrue(flags);
    if count == 0 then sizes else Grow(sizes, flags, remaining / count, remaining % count)
  }

  /** Hands out what is left of `available` once `reserved` is taken for gaps. */
  function Allot(items: seq<Item>, reserved: int, available: int, path: seq<PathStep>): (r: Result<seq<int>>)
    ensures r.Ok? ==> |r.value| == |items|
  {
    var used :- CheckedTotal(reserved, Bases(items), path);
    if used <= available then Ok(Spread(Bases(items), Flags(items), available - used))
    else
      var shrunk := Shrink(Bases(items), Minimums(items), used - available);
      if shrunk.deficit > 0 then Impossible(path) else Ok(Spread(shrunk.sizes, Flags(items), 0))
  }

  function Distribute(items: seq<Item>, gap: int, available: int, path: seq<PathStep>): (r: Result<seq<int>>)
    ensures r.Ok? ==> |r.value| == |items|
  {
    var gapTotal :- GapTotal(gap, |items|, path);
    if gapTotal > available then Impossible(path) else Allot(items, gapTotal, available, path)
  }

  /** The even split of an action menu's root row of buttons. */
  function EqualShare(available: int, count: int, index: int): int
    requires 0 < count
  {
    available / count + (if index < available % count then 1 else 0)
  }

  function DistributeEqually(minimums: seq<int>, gap: int, available: int, path: seq<PathStep>): (r: Result<seq<int>>)
    requires minimums != []
    ensures r.Ok? ==> |r.value| == |minimums|
  {
    var gapTotal :- GapTotal(gap, |minimums|, path);
    if gapTotal > available then Impossible(path)
    else if exists i :: 0 <= i < |minimums| && EqualShare(available - gapTotal, |minimums|, i) < minimums[i] then
      Impossible(path)
    else Ok(seq(|minimums|, i requires 0 <= i < |minimums| => EqualShare(available - gapTotal, |minimums|, i)))
  }

  /** Sizes are pixels and no rigid child's minimum exceeds its natural size, which is all that is read of a child. */
  predicate Ordered(items: seq<Item>) {
    forall i :: 0 <= i < |items| ==> 0 <= items[i].minimum <= Basis(items[i])
  }

  predicate AtLeast(sizes: seq<int>, bounds: seq<int>) {
    |sizes| == |bounds| && forall i :: 0 <= i < |sizes| ==> bounds[i] <= sizes[i]
  }

  lemma {:induction false} SumMonotone(low: seq<int>, high: seq<int>)
    requires AtLeast(high, low)
    ensures Sum(low) <= Sum(high)
    ensures Sum(low) == Sum(high) ==> low == high
  {
    if low != [] {
      SumMonotone(low[1..], high[1..]);
      assert low == [low[0]] + low[1..] && high == [high[0]] + high[1..];
    }
  }

  lemma {:induction false} SumNonNegative(values: seq<int>)
    requires forall i :: 0 <= i < |values| ==> 0 <= values[i]
    ensures 0 <= Sum(values)
  {
    if values != [] { SumNonNegative(values[1..]); }
  }

  lemma {:induction false} SumAppend(a: seq<int>, b: seq<int>)
    ensures Sum(a + b) == Sum(a) + Sum(b)
  {
    if a == [] {
      assert a + b == b;
    } else {
      SumAppend(a[1..], b);
      assert (a + b)[1..] == a[1..] + b;
    }
  }

  lemma {:induction false} CheckedTotalIsSum(start: int, values: seq<int>, path: seq<PathStep>)
    requires Fits(start) && 0 <= start
    requires forall i :: 0 <= i < |values| ==> 0 <= values[i]
    ensures CheckedTotal(start, values, path).Ok? <==> start + Sum(values) <= INT_MAX
    ensures CheckedTotal(start, values, path).Ok? ==> CheckedTotal(start, values, path).value == start + Sum(values)
    decreases values
  {
    if values != [] {
      SumNonNegative(values[1..]);
      if Fits(start + values[0]) { CheckedTotalIsSum(start + values[0], values[1..], path); }
    }
  }

  /** `AtLeast` by recursion, the form that shrinking proofs follow. */
  predicate Above(sizes: seq<int>, bounds: seq<int>) {
    && |sizes| == |bounds|
    && (sizes == [] || (bounds[0] <= sizes[0] && Above(sizes[1..], bounds[1..])))
  }

  lemma {:induction false} AboveIff(sizes: seq<int>, bounds: seq<int>)
    ensures Above(sizes, bounds) <==> AtLeast(sizes, bounds)
  {
    if |sizes| == |bounds| && sizes != [] {
      AboveIff(sizes[1..], bounds[1..]);
      if AtLeast(sizes, bounds) {
        forall i | 0 <= i < |sizes[1..]| ensures bounds[1..][i] <= sizes[1..][i] {
          assert bounds[i + 1] <= sizes[i + 1];
        }
      }
      if Above(sizes, bounds) {
        forall i | 0 <= i < |sizes| ensures bounds[i] <= sizes[i] {
          if i > 0 { assert bounds[1..][i - 1] <= sizes[1..][i - 1]; }
        }
      }
    }
  }

  lemma {:induction false} AboveSelf(sizes: seq<int>)
    ensures Above(sizes, sizes)
  {
    AboveIff(sizes, sizes);
  }

  lemma {:induction false} ShrinkStep(sizes: seq<int>, minimums: seq<int>, deficit: int)
    requires Above(sizes, minimums) && 0 <= deficit
    ensures var r := Shrink(sizes, minimums, deficit);
      && 0 <= r.deficit && Above(r.sizes, minimums) && Above(sizes, r.sizes)
      && (r.deficit > 0 ==> r.sizes == minimums)
  {
    if sizes == [] || deficit == 0 {
      AboveSelf(sizes);
    } else {
      var reduction := Min(deficit, sizes[0] - minimums[0]);
      ShrinkStep(sizes[1..], minimums[1..], deficit - reduction);
      var rest := Shrink(sizes[1..], minimums[1..], deficit - reduction);
      var r := Shrink(sizes, minimums, deficit);
      assert r.sizes[0] == sizes[0] - reduction && r.sizes[1..] == rest.sizes;
      if rest.deficit > 0 {
        assert minimums == [minimums[0]] + minimums[1..];
      }
    }
  }

  lemma {:induction false} ShrinkTotals(sizes: seq<int>, minimums: seq<int>, deficit: int)
    requires |sizes| == |minimums| && 0 <= deficit
    ensures var r := Shrink(sizes, minimums, deficit);
      0 <= r.deficit && Sum(r.sizes) - r.deficit == Sum(sizes) - deficit
  {
    if sizes != [] && deficit > 0 {
      var reduction := Min(deficit, sizes[0] - minimums[0]);
      ShrinkTotals(sizes[1..], minimums[1..], deficit - reduction);
      assert Shrink(sizes, minimums, deficit).sizes[1..] ==
        Shrink(sizes[1..], minimums[1..], deficit - reduction).sizes;
    }
  }

  /** Shrinking takes exactly what is asked or everything there is, and stays between minimum and original. */
  lemma ShrinkConserves(sizes: seq<int>, minimums: seq<int>, deficit: int)
    requires AtLeast(sizes, minimums) && 0 <= deficit
    ensures 0 <= Shrink(sizes, minimums, deficit).deficit
    ensures Sum(Shrink(sizes, minimums, deficit).sizes) - Shrink(sizes, minimums, deficit).deficit ==
      Sum(sizes) - deficit
    ensures AtLeast(Shrink(sizes, minimums, deficit).sizes, minimums)
    ensures AtLeast(sizes, Shrink(sizes, minimums, deficit).sizes)
    ensures Shrink(sizes, minimums, deficit).deficit > 0 ==> Shrink(sizes, minimums, deficit).sizes == minimums
  {
    AboveIff(sizes, minimums);
    ShrinkTotals(sizes, minimums, deficit);
    ShrinkStep(sizes, minimums, deficit);
    AboveIff(Shrink(sizes, minimums, deficit).sizes, minimums);
    AboveIff(sizes, Shrink(sizes, minimums, deficit).sizes);
  }

  /** The stability of greedy shrinking: starting again from anything between the result and the original, with any
      minimums between the old ones and the result, and with the smaller deficit that leaves, ends at the same sizes. */
  lemma ShrinkIsStable(sizes: seq<int>, minimums: seq<int>, deficit: int, between: seq<int>, floors: seq<int>)
    requires AtLeast(sizes, minimums) && 0 <= deficit
    requires Shrink(sizes, minimums, deficit).deficit == 0
    requires AtLeast(sizes, between) && AtLeast(between, Shrink(sizes, minimums, deficit).sizes)
    requires AtLeast(floors, minimums) && AtLeast(Shrink(sizes, minimums, deficit).sizes, floors)
    ensures Shrink(between, floors, Sum(between) - Sum(Shrink(sizes, minimums, deficit).sizes))
      == Shrunk(Shrink(sizes, minimums, deficit).sizes, 0)
  {
    AboveIff(sizes, minimums);
    AboveIff(sizes, between);
    AboveIff(between, Shrink(sizes, minimums, deficit).sizes);
    AboveIff(floors, minimums);
    AboveIff(Shrink(sizes, minimums, deficit).sizes, floors);
    ShrinkStable(sizes, minimums, deficit, between, floors);
  }

  lemma {:induction false} SameSizes(low: seq<int>, high: seq<int>)
    requires Above(high, low)
    ensures Sum(low) <= Sum(high)
    ensures Above(low, high) || Sum(low) == Sum(high) ==> low == high
  {
    AboveIff(high, low);
    AboveIff(low, high);
    SumMonotone(low, high);
  }

  lemma {:induction false} ShrinkStable(sizes: seq<int>, minimums: seq<int>, deficit: int, between: seq<int>,
      floors: seq<int>)
    requires Above(sizes, minimums) && 0 <= deficit
    requires Shrink(sizes, minimums, deficit).deficit == 0
    requires Above(sizes, between) && Above(between, Shrink(sizes, minimums, deficit).sizes)
    requires Above(floors, minimums) && Above(Shrink(sizes, minimums, deficit).sizes, floors)
    ensures Shrink(between, floors, Sum(between) - Sum(Shrink(sizes, minimums, deficit).sizes))
      == Shrunk(Shrink(sizes, minimums, deficit).sizes, 0)
  {
    var target := Shrink(sizes, minimums, deficit).sizes;
    if sizes == [] || deficit == 0 {
      SameSizes(target, between);
    } else {
      var left := deficit - Min(deficit, sizes[0] - minimums[0]);
      var rest := Shrink(sizes[1..], minimums[1..], left).sizes;
      assert target[1..] == rest && target[0] == sizes[0] - (deficit - left);
      ShrinkStable(sizes[1..], minimums[1..], left, between[1..], floors[1..]);
      var gone := Sum(between[1..]) - Sum(rest);
      StableHead(target, floors, between, sizes, left, gone);
      ShrinkAgain(target, floors, between, between[0] - target[0] + gone, gone);
    }
  }

  /** If the tail is stable so is the whole: with nothing left for the tail to give up, it was not touched. */
  lemma StableHead(target: seq<int>, minimums: seq<int>, between: seq<int>, sizes: seq<int>, left: int, rest: int)
    requires target != [] && |minimums| == |sizes|
    requires Above(sizes, between) && Above(between, target)
    requires minimums[0] <= target[0] && (left > 0 ==> target[0] == minimums[0])
    requires 0 <= left && (left == 0 ==> target[1..] == sizes[1..])
    requires rest == Sum(between[1..]) - Sum(target[1..])
    ensures 0 <= rest && Sum(between) - Sum(target) == between[0] - target[0] + rest
    ensures target[0] == minimums[0] || rest == 0
    ensures between[0] - target[0] + rest == 0 ==> target == between
  {
    SameSizes(target, between);
    SameSizes(target[1..], between[1..]);
    if left == 0 { SameSizes(between[1..], sizes[1..]); }
  }

  /** One step of running again: the head falls to its target and the rest faces the rest of the deficit. */
  lemma ShrinkAgain(target: seq<int>, minimums: seq<int>, between: seq<int>, gone: int, rest: int)
    requires target != [] && |minimums| == |target| == |between|
    requires minimums[0] <= target[0] <= between[0] && 0 <= rest
    requires gone == between[0] - target[0] + rest
    requires target[0] == minimums[0] || rest == 0
    requires gone == 0 ==> target == between
    requires Shrink(between[1..], minimums[1..], rest) == Shrunk(target[1..], 0)
    ensures Shrink(between, minimums, gone) == Shrunk(target, 0)
  {
    if gone > 0 {
      assert gone - Min(gone, between[0] - minimums[0]) == rest;
      assert target == [target[0]] + target[1..];
    }
  }

  lemma {:induction false} GrowConserves(sizes: seq<int>, flags: seq<bool>, share: int, remainder: int)
    requires |sizes| == |flags| && 0 <= remainder <= CountTrue(flags) && 0 <= share
    ensures Sum(Grow(sizes, flags, share, remainder)) == Sum(sizes) + share * CountTrue(flags) + remainder
    ensures AtLeast(Grow(sizes, flags, share, remainder), sizes)
    ensures forall i :: 0 <= i < |sizes| && !flags[i] ==> Grow(sizes, flags, share, remainder)[i] == sizes[i]
  {
    if sizes != [] {
      var next := if flags[0] then Max(0, remainder - 1) else remainder;
      GrowConserves(sizes[1..], flags[1..], share, next);
      var rest := Grow(sizes[1..], flags[1..], share, next);
      assert Grow(sizes, flags, share, remainder)[1..] == rest;
      assert share * (1 + CountTrue(flags[1..])) == share + share * CountTrue(flags[1..]);
    }
  }

  /** Surpluses of expanding children are `share` or `share + 1`, and the larger ones come first. */
  lemma {:induction false} GrowIsFair(sizes: seq<int>, flags: seq<bool>, share: int, remainder: int, i: nat, j: nat)
    requires |sizes| == |flags| && 0 <= remainder
    requires i < j < |sizes| && flags[i] && flags[j]
    ensures var grown := Grow(sizes, flags, share, remainder);
      share <= grown[j] - sizes[j] <= grown[i] - sizes[i] <= share + 1
  {
    var next := if flags[0] then Max(0, remainder - 1) else remainder;
    var rest := Grow(sizes[1..], flags[1..], share, next);
    assert Grow(sizes, flags, share, remainder)[1..] == rest;
    if i > 0 {
      GrowIsFair(sizes[1..], flags[1..], share, next, i - 1, j - 1);
    } else {
      GrowSurplus(sizes[1..], flags[1..], share, next, j - 1);
    }
  }

  lemma {:induction false} GrowSurplus(sizes: seq<int>, flags: seq<bool>, share: int, remainder: int, j: nat)
    requires |sizes| == |flags| && 0 <= remainder && j < |sizes| && flags[j]
    ensures var surplus := Grow(sizes, flags, share, remainder)[j] - sizes[j];
      share <= surplus <= share + (if remainder > 0 then 1 else 0)
  {
    if j > 0 {
      GrowSurplus(sizes[1..], flags[1..], share, if flags[0] then Max(0, remainder - 1) else remainder, j - 1);
    }
  }

  lemma DivisionParts(value: int, count: int)
    requires 0 <= value && 0 < count
    ensures 0 <= value / count && 0 <= value % count < count
    ensures value == (value / count) * count + value % count
  {
  }

  /** Spreading fills: with a flexible child the whole of `remaining` is handed out, otherwise none of it. */
  lemma SpreadConserves(sizes: seq<int>, flags: seq<bool>, remaining: int)
    requires |sizes| == |flags| && 0 <= remaining
    ensures Sum(Spread(sizes, flags, remaining)) == Sum(sizes) + (if CountTrue(flags) > 0 then remaining else 0)
    ensures AtLeast(Spread(sizes, flags, remaining), sizes)
    ensures forall i :: 0 <= i < |sizes| && !flags[i] ==> Spread(sizes, flags, remaining)[i] == sizes[i]
  {
    var count := CountTrue(flags);
    if count > 0 {
      DivisionParts(remaining, count);
      GrowConserves(sizes, flags, remaining / count, remaining % count);
    }
  }

  lemma {:induction false} GrowNothing(sizes: seq<int>, flags: seq<bool>)
    requires |sizes| == |flags|
    ensures Grow(sizes, flags, 0, 0) == sizes
  {
    if sizes != [] { GrowNothing(sizes[1..], flags[1..]); }
  }

  lemma SpreadNothing(sizes: seq<int>, flags: seq<bool>)
    requires |sizes| == |flags|
    ensures Spread(sizes, flags, 0) == sizes
  {
    if CountTrue(flags) > 0 {
      assert 0 / CountTrue(flags) == 0 && 0 % CountTrue(flags) == 0;
      GrowNothing(sizes, flags);
    }
  }

  lemma GapTotalNonNegative(gap: int, count: nat)
    requires 0 <= gap
    ensures 0 <= gap * (if count > 1 then count - 1 else 0)
  {
  }

  /** What allotting to measured children amounts to: their total is exact, and either it fits and the rest is
      spread, or they are shrunk to fit. */
  lemma AllotCases(items: seq<Item>, reserved: int, available: int, path: seq<PathStep>)
    requires Ordered(items) && 0 <= reserved <= available && Fits(reserved)
    ensures reserved + Sum(Bases(items)) > INT_MAX ==> Allot(items, reserved, available, path).Err?
    ensures reserved + Sum(Bases(items)) <= available && reserved + Sum(Bases(items)) <= INT_MAX ==>
      Allot(items, reserved, available, path) ==
        Ok(Spread(Bases(items), Flags(items), available - reserved - Sum(Bases(items))))
    ensures available < reserved + Sum(Bases(items)) <= INT_MAX ==>
      var shrunk := Shrink(Bases(items), Minimums(items), reserved + Sum(Bases(items)) - available);
      Allot(items, reserved, available, path) == if shrunk.deficit > 0 then Impossible(path) else Ok(shrunk.sizes)
  {
    CheckedTotalIsSum(reserved, Bases(items), path);
    if available < reserved + Sum(Bases(items)) <= INT_MAX {
      SpreadNothing(Shrink(Bases(items), Minimums(items), reserved + Sum(Bases(items)) - available).sizes,
        Flags(items));
    }
  }

  lemma OrderedSums(items: seq<Item>)
    requires Ordered(items)
    ensures AtLeast(Bases(items), Minimums(items))
    ensures 0 <= Sum(Minimums(items)) <= Sum(Bases(items))
  {
    SumNonNegative(Minimums(items));
    SumMonotone(Minimums(items), Bases(items));
  }

  lemma AllotSucceedsIff(items: seq<Item>, reserved: int, available: int, path: seq<PathStep>)
    requires Ordered(items) && 0 <= reserved <= available && Fits(reserved)
    requires reserved + Sum(Bases(items)) <= INT_MAX
    ensures Allot(items, reserved, available, path).Ok? <==> reserved + Sum(Minimums(items)) <= available
  {
    AllotCases(items, reserved, available, path);
    OrderedSums(items);
    var deficit := reserved + Sum(Bases(items)) - available;
    if deficit > 0 {
      ShrinkConserves(Bases(items), Minimums(items), deficit);
      SumMonotone(Minimums(items), Shrink(Bases(items), Minimums(items), deficit).sizes);
    }
  }

  lemma ShrunkBounds(items: seq<Item>, deficit: int, i: nat)
    requires Ordered(items) && 0 <= deficit && i < |items|
    ensures items[i].minimum <= Shrink(Bases(items), Minimums(items), deficit).sizes[i] <= Basis(items[i])
  {
    ShrinkConserves(Bases(items), Minimums(items), deficit);
    assert Minimums(items)[i] <= Shrink(Bases(items), Minimums(items), deficit).sizes[i] <= Bases(items)[i];
  }

  /** A size handed out, against the child it goes to. */
  predicate Suits(item: Item, size: int) {
    item.minimum <= size && (item.expands || size <= item.natural)
  }

  lemma AllotSuits(items: seq<Item>, reserved: int, available: int, path: seq<PathStep>, i: nat)
    requires Ordered(items) && 0 <= reserved <= available && Fits(reserved)
    requires Allot(items, reserved, available, path).Ok? && i < |items|
    ensures Suits(items[i], Allot(items, reserved, available, path).value[i])
  {
    AllotCases(items, reserved, available, path);
    var used := reserved + Sum(Bases(items));
    if used <= available {
      SpreadConserves(Bases(items), Flags(items), available - used);
      assert Bases(items)[i] <= Spread(Bases(items), Flags(items), available - used)[i];
    } else {
      ShrunkBounds(items, used - available, i);
    }
  }

  lemma AllotFills(items: seq<Item>, reserved: int, available: int, path: seq<PathStep>)
    requires Ordered(items) && 0 <= reserved <= available && Fits(reserved)
    requires Allot(items, reserved, available, path).Ok?
    ensures reserved + Sum(Allot(items, reserved, available, path).value) ==
      if CountTrue(Flags(items)) > 0 then available else Min(available, reserved + Sum(Bases(items)))
  {
    AllotCases(items, reserved, available, path);
    OrderedSums(items);
    var used := reserved + Sum(Bases(items));
    if used <= available {
      SpreadConserves(Bases(items), Flags(items), available - used);
    } else {
      ShrinkConserves(Bases(items), Minimums(items), used - available);
    }
  }

  /** Sound and complete: absent overflow, the distribution succeeds exactly when the gaps and the minimums fit. */
  lemma DistributeSucceedsIff(items: seq<Item>, gap: int, available: int, path: seq<PathStep>)
    requires Ordered(items) && 0 <= gap
    requires GapTotal(gap, |items|, path).Ok?
    requires GapTotal(gap, |items|, path).value + Sum(Bases(items)) <= INT_MAX
    ensures Distribute(items, gap, available, path).Ok? <==>
      GapTotal(gap, |items|, path).value + Sum(Minimums(items)) <= available
  {
    var reserved := GapTotal(gap, |items|, path).value;
    GapTotalNonNegative(gap, |items|);
    if reserved <= available {
      AllotSucceedsIff(items, reserved, available, path);
    } else {
      OrderedSums(items);
    }
  }

  /** What a successful distribution hands out. No child gets less than its minimum, no rigid child more than its
      natural size; with a flexible child the axis is filled exactly, and without one the children keep their
      natural length or are shrunk to the available one. */
  lemma DistributeFills(items: seq<Item>, gap: int, available: int, path: seq<PathStep>)
    requires Ordered(items) && 0 <= gap
    requires Distribute(items, gap, available, path).Ok?
    ensures 0 <= GapTotal(gap, |items|, path).value <= available
    ensures forall i :: 0 <= i < |items| ==> Suits(items[i], Distribute(items, gap, available, path).value[i])
    ensures GapTotal(gap, |items|, path).value + Sum(Distribute(items, gap, available, path).value) ==
      if exists i :: 0 <= i < |items| && items[i].expands then available
      else Min(available, GapTotal(gap, |items|, path).value + Sum(Bases(items)))
  {
    var reserved := GapTotal(gap, |items|, path).value;
    GapTotalNonNegative(gap, |items|);
    forall i | 0 <= i < |items| ensures Suits(items[i], Distribute(items, gap, available, path).value[i]) {
      AllotSuits(items, reserved, available, path, i);
    }
    AllotFills(items, reserved, available, path);
    ExpanderExists(Flags(items));
    assert (exists i :: 0 <= i < |items| && items[i].expands) <==> (exists i :: 0 <= i < |items| && Flags(items)[i]);
  }

  /** A flexible child makes the distribution fill the length exactly. */
  lemma DistributeFillsExactly(items: seq<Item>, gap: int, available: int, path: seq<PathStep>, i: nat)
    requires Ordered(items) && 0 <= gap && i < |items| && items[i].expands
    requires Distribute(items, gap, available, path).Ok?
    ensures GapTotal(gap, |items|, path).value + Sum(Distribute(items, gap, available, path).value) == available
  {
    DistributeFills(items, gap, available, path);
  }

  lemma {:induction false} ExpanderExists(flags: seq<bool>)
    ensures CountTrue(flags) > 0 <==> exists i :: 0 <= i < |flags| && flags[i]
  {
    if flags != [] {
      ExpanderExists(flags[1..]);
      if i :| 0 <= i < |flags[1..]| && flags[1..][i] { assert flags[i + 1]; }
      if i :| 0 <= i < |flags| && flags[i] { assert i == 0 || flags[1..][i - 1]; }
    }
  }

  lemma SpreadIsFair(sizes: seq<int>, flags: seq<bool>, remaining: int, i: nat, j: nat)
    requires |sizes| == |flags| && 0 <= remaining && i < j < |sizes| && flags[i] && flags[j]
    ensures var spread := Spread(sizes, flags, remaining);
      0 <= spread[j] - sizes[j] <= spread[i] - sizes[i] <= spread[j] - sizes[j] + 1
  {
    ExpanderExists(flags);
    var count := CountTrue(flags);
    DivisionParts(remaining, count);
    GrowIsFair(sizes, flags, remaining / count, remaining % count, i, j);
  }

  /** The surplus of an earlier flexible child against a later one's. */
  predicate Fair(items: seq<Item>, sizes: seq<int>, i: nat, j: nat)
    requires i < |items| == |sizes| && j < |items|
  {
    0 <= sizes[j] - items[j].minimum <= sizes[i] - items[i].minimum <= sizes[j] - items[j].minimum + 1
  }

  lemma SpreadIsFairTo(items: seq<Item>, remaining: int, i: nat, j: nat)
    requires 0 <= remaining && i < j < |items| && items[i].expands && items[j].expands
    ensures Fair(items, Spread(Bases(items), Flags(items), remaining), i, j)
  {
    SpreadIsFair(Bases(items), Flags(items), remaining, i, j);
  }

  lemma ShrinkIsFairTo(items: seq<Item>, deficit: int, i: nat, j: nat)
    requires Ordered(items) && 0 <= deficit && i < j < |items| && items[i].expands && items[j].expands
    ensures Fair(items, Shrink(Bases(items), Minimums(items), deficit).sizes, i, j)
  {
    ShrunkBounds(items, deficit, i);
    ShrunkBounds(items, deficit, j);
  }

  lemma AllotIsFair(items: seq<Item>, reserved: int, available: int, path: seq<PathStep>, i: nat, j: nat)
    requires Ordered(items) && 0 <= reserved <= available && Fits(reserved)
    requires Allot(items, reserved, available, path).Ok?
    requires i < j < |items| && items[i].expands && items[j].expands
    ensures Fair(items, Allot(items, reserved, available, path).value, i, j)
  {
    AllotCases(items, reserved, available, path);
    OrderedSums(items);
    var used := reserved + Sum(Bases(items));
    if used <= available {
      SpreadIsFairTo(items, available - used, i, j);
    } else {
      ShrinkIsFairTo(items, used - available, i, j);
    }
  }

  lemma {:induction false} ShrinkNonNegative(sizes: seq<int>, minimums: seq<int>, deficit: int)
    requires |sizes| == |minimums|
    requires forall i :: 0 <= i < |sizes| ==> 0 <= sizes[i] && 0 <= minimums[i]
    ensures forall i :: 0 <= i < |sizes| ==> 0 <= Shrink(sizes, minimums, deficit).sizes[i]
  {
    if sizes != [] && deficit > 0 {
      ShrinkNonNegative(sizes[1..], minimums[1..], deficit - Min(deficit, sizes[0] - minimums[0]));
    }
  }

  /** Even when a minimum exceeds its natural size, what is handed out stays within the available length. */
  lemma DistributeFits(items: seq<Item>, gap: int, available: int, path: seq<PathStep>)
    requires forall i :: 0 <= i < |items| ==> 0 <= items[i].minimum && 0 <= items[i].natural
    requires 0 <= gap && Distribute(items, gap, available, path).Ok?
    ensures forall i :: 0 <= i < |items| ==> 0 <= Distribute(items, gap, available, path).value[i]
    ensures GapTotal(gap, |items|, path).value + Sum(Distribute(items, gap, available, path).value) <= available
  {
    var reserved := GapTotal(gap, |items|, path).value;
    GapTotalNonNegative(gap, |items|);
    CheckedTotalIsSum(reserved, Bases(items), path);
    var used := reserved + Sum(Bases(items));
    if used <= available {
      SpreadConserves(Bases(items), Flags(items), available - used);
    } else {
      ShrinkTotals(Bases(items), Minimums(items), used - available);
      ShrinkNonNegative(Bases(items), Minimums(items), used - available);
      SpreadNothing(Shrink(Bases(items), Minimums(items), used - available).sizes, Flags(items));
    }
  }

  /** Fairness: what flexible children get above their minimum differs by at most one pixel, earlier ones first. */
  lemma DistributeIsFair(items: seq<Item>, gap: int, available: int, path: seq<PathStep>, i: nat, j: nat)
    requires Ordered(items) && 0 <= gap
    requires Distribute(items, gap, available, path).Ok?
    requires i < j < |items| && items[i].expands && items[j].expands
    ensures Fair(items, Distribute(items, gap, available, path).value, i, j)
  {
    GapTotalNonNegative(gap, |items|);
    AllotIsFair(items, GapTotal(gap, |items|, path).value, available, path, i, j);
  }

  // ---- Only one split is fair ----

  lemma {:induction false} SurplusBounds(bases: seq<int>, flags: seq<bool>, target: seq<int>, low: int, high: int)
    requires |bases| == |flags| == |target|
    requires forall i :: 0 <= i < |bases| ==>
               if flags[i] then low <= target[i] - bases[i] <= high else target[i] == bases[i]
    ensures CountTrue(flags) * low <= Sum(target) - Sum(bases) <= CountTrue(flags) * high
  {
    if bases != [] {
      SurplusBounds(bases[1..], flags[1..], target[1..], low, high);
      var rest := CountTrue(flags[1..]);
      assert (1 + rest) * low == low + rest * low && (1 + rest) * high == high + rest * high;
    }
  }

  lemma MultiplesInOrder(a: int, b: int, count: int)
    requires 0 < count && a * count < b * count
    ensures a < b
  {
  }

  /** Flexible children get surpluses that differ by at most one pixel, earlier ones more; the others nothing. */
  predicate FairTo(bases: seq<int>, flags: seq<bool>, target: seq<int>) {
    && |bases| == |flags| == |target|
    && (forall i :: 0 <= i < |bases| ==> if flags[i] then bases[i] <= target[i] else target[i] == bases[i])
    && (forall i, j :: 0 <= i < j < |bases| && flags[i] && flags[j] ==>
          target[j] - bases[j] <= target[i] - bases[i] <= target[j] - bases[j] + 1)
  }

  /** The only multiple of the count that is less than a count above the total. */
  lemma CeilingShare(first: int, count: int, share: int, remainder: int, total: int)
    requires 0 <= remainder < count && total == share * count + remainder
    requires (first - 1) * count < total <= first * count
    ensures first == share + if remainder > 0 then 1 else 0
  {
    assert (share + 1) * count == share * count + count;
    MultiplesInOrder(first - 1, share + 1, count);
    if remainder > 0 {
      MultiplesInOrder(share, first, count);
    } else {
      MultiplesInOrder(first - 1, share, count);
      assert (first + 1) * count == first * count + count;
      MultiplesInOrder(share, first + 1, count);
    }
  }

  lemma FirstSurplus(bases: seq<int>, flags: seq<bool>, target: seq<int>, share: int, remainder: int)
    requires FairTo(bases, flags, target) && bases != [] && flags[0]
    requires 0 <= remainder < CountTrue(flags)
    requires Sum(target) - Sum(bases) == share * CountTrue(flags) + remainder
    ensures target[0] - bases[0] == share + if remainder > 0 then 1 else 0
  {
    var first, rest := target[0] - bases[0], CountTrue(flags[1..]);
    FairTail(bases, flags, target);
    SurplusBounds(bases[1..], flags[1..], target[1..], first - 1, first);
    CountsOfFirst(first, rest, Sum(target[1..]) - Sum(bases[1..]));
    CeilingShare(first, 1 + rest, share, remainder, Sum(target) - Sum(bases));
  }

  lemma CountsOfFirst(first: int, rest: nat, others: int)
    requires rest * (first - 1) <= others <= rest * first
    ensures (first - 1) * (1 + rest) < first + others <= first * (1 + rest)
  {
    assert rest * (first - 1) == rest * first - rest;
    assert first * (1 + rest) == first + rest * first && (first - 1) * (1 + rest) == (first - 1) + rest * (first - 1);
  }

  /** Next to a flexible first child the others' surpluses are its own or one less. */
  lemma FairTail(bases: seq<int>, flags: seq<bool>, target: seq<int>)
    requires FairTo(bases, flags, target) && bases != []
    ensures FairTo(bases[1..], flags[1..], target[1..])
    ensures flags[0] ==> forall i :: 0 <= i < |bases[1..]| ==>
              if flags[1..][i] then target[0] - bases[0] - 1 <= target[1..][i] - bases[1..][i] <= target[0] - bases[0]
              else target[1..][i] == bases[1..][i]
  {
  }

  lemma {:induction false} GrowIsUnique(bases: seq<int>, flags: seq<bool>, target: seq<int>, share: int, remainder: int)
    requires FairTo(bases, flags, target)
    requires 0 <= remainder && (remainder == 0 || remainder < CountTrue(flags))
    requires Sum(target) - Sum(bases) == share * CountTrue(flags) + remainder
    ensures Grow(bases, flags, share, remainder) == target
  {
    if bases != [] {
      var rest := CountTrue(flags[1..]);
      var next := if flags[0] then Max(0, remainder - 1) else remainder;
      FairTail(bases, flags, target);
      if flags[0] {
        FirstSurplus(bases, flags, target, share, remainder);
        assert share * (1 + rest) == share + share * rest;
      }
      GrowIsUnique(bases[1..], flags[1..], target[1..], share, next);
      assert target == [target[0]] + target[1..];
    }
  }

  /** Whatever shares out the rest fairly is what spreading gives. */
  lemma SpreadIsUnique(bases: seq<int>, flags: seq<bool>, target: seq<int>)
    requires FairTo(bases, flags, target)
    ensures Sum(bases) <= Sum(target) && Spread(bases, flags, Sum(target) - Sum(bases)) == target
  {
    SumMonotone(bases, target);
    var remaining, count := Sum(target) - Sum(bases), CountTrue(flags);
    if count > 0 {
      DivisionParts(remaining, count);
      GrowIsUnique(bases, flags, target, remaining / count, remaining % count);
    } else {
      ExpanderExists(flags);
      assert target == bases;
    }
  }

  // ---- Distributing again ----

  /** Children as they come back: their minimums may have risen, and a rigid child's natural size lies between what it
      was given and what it was, unless its minimum has outgrown that. */
  predicate Raised(items: seq<Item>, sizes: seq<int>, again: seq<Item>) {
    && |again| == |items| == |sizes|
    && forall i :: 0 <= i < |items| ==>
         && again[i].expands == items[i].expands && items[i].minimum <= again[i].minimum
         && (!items[i].expands ==> sizes[i] <= again[i].natural <= Max(items[i].natural, again[i].minimum))
  }

  /** The sizes respect the children's minimums, and the surpluses over them are fair. */
  predicate Respects(items: seq<Item>, sizes: seq<int>) {
    && |items| == |sizes|
    && (forall i :: 0 <= i < |items| ==> items[i].minimum <= sizes[i])
    && (forall i, j :: 0 <= i < j < |items| && items[i].expands && items[j].expands ==> Fair(items, sizes, i, j))
  }

  /** Children that shrink to sizes meeting the available length exactly get those sizes. */
  lemma AllotExactly(items: seq<Item>, reserved: int, available: int, path: seq<PathStep>, sizes: seq<int>)
    requires forall i :: 0 <= i < |items| ==> 0 <= Basis(items[i])
    requires 0 <= reserved && Fits(reserved) && reserved + Sum(Bases(items)) <= INT_MAX
    requires reserved + Sum(sizes) == available && AtLeast(Bases(items), sizes)
    requires Shrink(Bases(items), Minimums(items), Sum(Bases(items)) - Sum(sizes)) == Shrunk(sizes, 0)
    ensures Allot(items, reserved, available, path) == Ok(sizes)
  {
    CheckedTotalIsSum(reserved, Bases(items), path);
    SumMonotone(sizes, Bases(items));
    SpreadNothing(sizes, Flags(items));
  }

  lemma RespectsIsFair(items: seq<Item>, again: seq<Item>, sizes: seq<int>)
    requires Raised(items, sizes, again) && Respects(again, sizes)
    requires forall i :: 0 <= i < |items| && !items[i].expands ==> sizes[i] == items[i].natural
    ensures Flags(again) == Flags(items) && FairTo(Bases(again), Flags(again), sizes)
  {
    forall i | 0 <= i < |again|
      ensures if Flags(again)[i] then Bases(again)[i] <= sizes[i] else sizes[i] == Bases(again)[i]
    {
      assert again[i].minimum <= sizes[i];
    }
    forall i, j | 0 <= i < j < |again| && Flags(again)[i] && Flags(again)[j]
      ensures sizes[j] - Bases(again)[j] <= sizes[i] - Bases(again)[i] <= sizes[j] - Bases(again)[j] + 1
    {
      assert Fair(again, sizes, i, j);
    }
  }

  lemma SpreadAgain(items: seq<Item>, again: seq<Item>, reserved: int, available: int, path: seq<PathStep>,
      sizes: seq<int>)
    requires Ordered(again) && 0 <= reserved <= available && Fits(reserved)
    requires reserved + Sum(Bases(items)) <= available && reserved + Sum(Bases(items)) <= INT_MAX
    requires available <= INT_MAX || Sum(Bases(again)) <= Sum(Bases(items))
    requires sizes == Spread(Bases(items), Flags(items), available - reserved - Sum(Bases(items)))
    requires Raised(items, sizes, again) && Respects(again, sizes)
    ensures Allot(again, reserved, available, path) == Ok(sizes)
  {
    GivenBySpreading(items, available - reserved - Sum(Bases(items)), sizes);
    RespectsIsFair(items, again, sizes);
    SpreadTotals(Bases(items), Bases(again), Flags(items), reserved, available, sizes);
    AllotCases(again, reserved, available, path);
  }

  lemma GivenBySpreading(items: seq<Item>, remaining: int, sizes: seq<int>)
    requires 0 <= remaining && sizes == Spread(Bases(items), Flags(items), remaining)
    ensures Sum(sizes) == Sum(Bases(items)) + (if CountTrue(Flags(items)) > 0 then remaining else 0)
    ensures forall i :: 0 <= i < |items| && !items[i].expands ==> sizes[i] == items[i].natural
  {
    SpreadConserves(Bases(items), Flags(items), remaining);
    forall i | 0 <= i < |items| && !items[i].expands ensures sizes[i] == items[i].natural {
      assert !Flags(items)[i];
    }
  }

  /** With a flexible child the sizes fill the axis both times; without one nothing changed. */
  lemma SpreadTotals(bases: seq<int>, again: seq<int>, flags: seq<bool>, reserved: int, available: int, sizes: seq<int>)
    requires FairTo(again, flags, sizes)
    requires Sum(sizes) == if CountTrue(flags) > 0 then available - reserved else Sum(bases)
    requires reserved + Sum(bases) <= available
    ensures Sum(again) <= Sum(sizes) && reserved + Sum(sizes) <= available
    ensures Spread(again, flags, available - reserved - Sum(again)) == sizes
  {
    SpreadIsUnique(again, flags, sizes);
    if CountTrue(flags) == 0 {
      ExpanderExists(flags);
      assert sizes == again;
    }
  }

  lemma BasesAfterShrinking(items: seq<Item>, deficit: int, again: seq<Item>)
    requires Ordered(items) && 0 <= deficit && Ordered(again)
    requires var sizes := Shrink(Bases(items), Minimums(items), deficit).sizes;
             Raised(items, sizes, again) && Respects(again, sizes)
    ensures var sizes := Shrink(Bases(items), Minimums(items), deficit).sizes;
            && AtLeast(Minimums(again), Minimums(items)) && AtLeast(sizes, Minimums(again))
            && AtLeast(Bases(again), sizes) && AtLeast(Bases(items), Bases(again))
            && forall i :: 0 <= i < |again| ==> 0 <= Basis(again[i])
  {
    forall i | 0 <= i < |items|
      ensures var size := Shrink(Bases(items), Minimums(items), deficit).sizes[i];
              0 <= items[i].minimum <= again[i].minimum <= size <= Basis(again[i]) <= Basis(items[i])
    {
      ShrunkBounds(items, deficit, i);
    }
  }

  lemma ShrinkAgainExactly(items: seq<Item>, again: seq<Item>, reserved: int, available: int, path: seq<PathStep>)
    requires Ordered(items) && 0 <= reserved && Fits(reserved)
    requires available < reserved + Sum(Bases(items)) <= INT_MAX
    requires Shrink(Bases(items), Minimums(items), reserved + Sum(Bases(items)) - available).deficit <= 0
    requires var sizes := Shrink(Bases(items), Minimums(items), reserved + Sum(Bases(items)) - available).sizes;
             Ordered(again) && Raised(items, sizes, again) && Respects(again, sizes)
    ensures Allot(again, reserved, available, path)
            == Ok(Shrink(Bases(items), Minimums(items), reserved + Sum(Bases(items)) - available).sizes)
  {
    var deficit := reserved + Sum(Bases(items)) - available;
    var sizes := Shrink(Bases(items), Minimums(items), deficit).sizes;
    ShrinkConserves(Bases(items), Minimums(items), deficit);
    BasesAfterShrinking(items, deficit, again);
    SumMonotone(Bases(again), Bases(items));
    ShrinkIsStable(Bases(items), Minimums(items), deficit, Bases(again), Minimums(again));
    AllotExactly(again, reserved, available, path, sizes);
  }

  lemma AllotAgain(items: seq<Item>, again: seq<Item>, reserved: int, available: int, path: seq<PathStep>)
    requires Ordered(items) && 0 <= reserved <= available && Fits(reserved)
    requires available <= INT_MAX || Sum(Bases(again)) <= Sum(Bases(items))
    requires Allot(items, reserved, available, path).Ok?
    requires Ordered(again) && Raised(items, Allot(items, reserved, available, path).value, again)
    requires Respects(again, Allot(items, reserved, available, path).value)
    ensures Allot(again, reserved, available, path) == Allot(items, reserved, available, path)
  {
    AllotCases(items, reserved, available, path);
    if reserved + Sum(Bases(items)) <= available {
      SpreadAgain(items, again, reserved, available, path, Allot(items, reserved, available, path).value);
    } else {
      ShrinkAgainExactly(items, again, reserved, available, path);
    }
  }

  /** The distribution repeats itself exactly if the sizes it gave respect the children's new minimums: no minimum has
      outgrown what its child was given, and what flexible children have above theirs is still fair. */
  lemma DistributeAgainIff(items: seq<Item>, again: seq<Item>, gap: int, available: int, path: seq<PathStep>)
    requires Ordered(items) && Ordered(again) && 0 <= gap
    requires available <= INT_MAX || Sum(Bases(again)) <= Sum(Bases(items))
    requires Distribute(items, gap, available, path).Ok?
    requires Raised(items, Distribute(items, gap, available, path).value, again)
    ensures Distribute(again, gap, available, path) == Distribute(items, gap, available, path) <==>
              Respects(again, Distribute(items, gap, available, path).value)
  {
    var sizes := Distribute(items, gap, available, path).value;
    GapTotalNonNegative(gap, |items|);
    if Distribute(again, gap, available, path) == Ok(sizes) {
      DistributeFills(again, gap, available, path);
      forall i | 0 <= i < |again| ensures again[i].minimum <= sizes[i] { assert Suits(again[i], sizes[i]); }
      forall i, j | 0 <= i < j < |again| && again[i].expands && again[j].expands ensures Fair(again, sizes, i, j) {
        DistributeIsFair(again, gap, available, path, i, j);
      }
    }
    if Respects(again, sizes) {
      AllotAgain(items, again, GapTotal(gap, |items|, path).value, available, path);
    }
  }

  /** In particular the distribution is stable: run again on children with the same minimums, the rigid ones anywhere
      between their old and their given sizes, it gives every child the same size. */
  lemma DistributeIsStable(items: seq<Item>, again: seq<Item>, gap: int, available: int, path: seq<PathStep>)
    requires Ordered(items) && 0 <= gap
    requires Distribute(items, gap, available, path).Ok?
    requires Between(items, Distribute(items, gap, available, path).value, again)
    ensures Distribute(again, gap, available, path) == Distribute(items, gap, available, path)
  {
    var sizes := Distribute(items, gap, available, path).value;
    DistributeFills(items, gap, available, path);
    forall i | 0 <= i < |again|
      ensures again[i].minimum <= sizes[i] && 0 <= again[i].minimum <= Basis(again[i])
    {
      assert Suits(items[i], sizes[i]);
    }
    forall i | 0 <= i < |again| ensures Bases(again)[i] <= Bases(items)[i] {}
    SumMonotone(Bases(again), Bases(items));
    forall i, j | 0 <= i < j < |again| && again[i].expands && again[j].expands ensures Fair(again, sizes, i, j) {
      DistributeIsFair(items, gap, available, path, i, j);
    }
    DistributeAgainIff(items, again, gap, available, path);
  }

  /** Children whose rigid sizes lie anywhere between what a distribution gave them and what they were. */
  predicate Between(items: seq<Item>, sizes: seq<int>, again: seq<Item>) {
    && |again| == |items| == |sizes|
    && forall i :: 0 <= i < |items| ==>
         && again[i].expands == items[i].expands && again[i].minimum == items[i].minimum
         && (!items[i].expands ==> sizes[i] <= again[i].natural <= items[i].natural)
  }

  /** The equal split adds up exactly, its shares differ by at most one pixel, and earlier ones are larger. */
  lemma EqualSplitIsExact(minimums: seq<int>, gap: int, available: int, path: seq<PathStep>)
    requires minimums != [] && 0 <= gap
    requires DistributeEqually(minimums, gap, available, path).Ok?
    ensures var sizes := DistributeEqually(minimums, gap, available, path).value;
      && AtLeast(sizes, minimums)
      && GapTotal(gap, |minimums|, path).value + Sum(sizes) == available
      && forall i, j :: 0 <= i < j < |sizes| ==> sizes[j] <= sizes[i] <= sizes[j] + 1
  {
    var rest := available - GapTotal(gap, |minimums|, path).value;
    var sizes := DistributeEqually(minimums, gap, available, path).value;
    var count := |minimums|;
    SumOfShares(sizes, rest, count, count);
    assert sizes[..count] == sizes;
    assert rest == (rest / count) * count + rest % count;
  }

  lemma {:induction false} SumOfShares(sizes: seq<int>, available: int, count: int, n: nat)
    requires 0 < count == |sizes| && n <= count && 0 <= available
    requires forall i :: 0 <= i < count ==> sizes[i] == EqualShare(available, count, i)
    ensures Sum(sizes[..n]) == n * (available / count) + Min(n, available % count)
  {
    if n > 0 {
      SumOfShares(sizes, available, count, n - 1);
      assert sizes[..n] == sizes[..n - 1] + [sizes[n - 1]];
      SumAppend(sizes[..n - 1], [sizes[n - 1]]);
      assert n * (available / count) == (n - 1) * (available / count) + available / count;
    }
  }

  /** An even split: what the gaps leave, all of it, in sizes that differ by at most one pixel, earlier ones larger. */
  predicate EvenSplit(sizes: seq<int>, count: int, total: int) {
    && |sizes| == count && Sum(sizes) == total
    && forall i, j :: 0 <= i < j < |sizes| ==> sizes[j] <= sizes[i] <= sizes[j] + 1
  }

  lemma {:induction false} OnceAtLeast(count: nat, k: nat)
    requires 0 < k
    ensures count <= count * k
  {
    if k > 1 {
      OnceAtLeast(count, k - 1);
      assert count * k == count * (k - 1) + count;
    }
  }

  lemma LessQuotient(count: nat, a: nat, n: nat, q: nat, r: nat)
    requires a < q && n < count
    ensures count * a + n < count * q + r
  {
    OnceAtLeast(count, q - a);
    assert count * q == count * a + count * (q - a);
  }

  lemma PartsAreUnique(count: nat, a: nat, n: nat, q: nat, r: nat)
    requires count * a + n == count * q + r && n < count && r < count
    ensures q == a && r == n
  {
    if a < q {
      LessQuotient(count, a, n, q, r);
    } else if q < a {
      LessQuotient(count, q, r, a, n);
    }
  }

  lemma QuotientIs(a: int, n: int, count: int)
    requires 0 <= n < count && 0 <= a
    ensures (count * a + n) / count == a && (count * a + n) % count == n
  {
    var value := count * a + n;
    DivisionParts(value, count);
    PartsAreUnique(count, a, n, value / count, value % count);
  }

  /** How many of the sizes are the larger ones. */
  lemma {:induction false} LargerFirst(sizes: seq<int>, least: int, k: nat) returns (n: nat)
    requires k <= |sizes| && forall i :: 0 <= i < |sizes| ==> least <= sizes[i] <= least + 1
    requires forall i, j :: 0 <= i < j < |sizes| ==> sizes[j] <= sizes[i]
    ensures n <= k && forall i :: 0 <= i < k ==> sizes[i] == least + (if i < n then 1 else 0)
  {
    if k == 0 {
      n := 0;
    } else {
      n := LargerFirst(sizes, least, k - 1);
      if sizes[k - 1] == least + 1 { n := k; }
    }
  }

  /** There is only one even split. */
  lemma EvenSplitIsShares(sizes: seq<int>, total: int)
    requires sizes != [] && 0 <= total && EvenSplit(sizes, |sizes|, total)
    requires forall i :: 0 <= i < |sizes| ==> 0 <= sizes[i]
    ensures forall i :: 0 <= i < |sizes| ==> sizes[i] == EqualShare(total, |sizes|, i)
  {
    var count := |sizes|;
    var least := sizes[count - 1];
    var n := LargerFirst(sizes, least, count);
    QuotientIs(least, n, count);
    assert 0 <= count * least;
    SumOfShares(sizes, count * least + n, count, count);
    assert sizes[..count] == sizes;
  }

  /** The even split succeeds exactly if there is one that gives every child its minimum. */
  lemma EqualSplitSucceedsIff(minimums: seq<int>, gap: int, available: int, path: seq<PathStep>)
    requires minimums != [] && 0 <= gap && forall i :: 0 <= i < |minimums| ==> 0 <= minimums[i]
    requires GapTotal(gap, |minimums|, path).Ok?
    ensures DistributeEqually(minimums, gap, available, path).Ok? <==>
      exists sizes :: AtLeast(sizes, minimums)
        && EvenSplit(sizes, |minimums|, available - GapTotal(gap, |minimums|, path).value)
  {
    var total := available - GapTotal(gap, |minimums|, path).value;
    if DistributeEqually(minimums, gap, available, path).Ok? {
      EqualSplitIsExact(minimums, gap, available, path);
      assert EvenSplit(DistributeEqually(minimums, gap, available, path).value, |minimums|, total);
    }
    forall sizes | AtLeast(sizes, minimums) && EvenSplit(sizes, |minimums|, total)
      ensures DistributeEqually(minimums, gap, available, path).Ok?
    {
      SplitSucceeds(minimums, gap, available, path, sizes, total);
    }
  }

  lemma SplitSucceeds(minimums: seq<int>, gap: int, available: int, path: seq<PathStep>, sizes: seq<int>, total: int)
    requires minimums != [] && forall i :: 0 <= i < |minimums| ==> 0 <= minimums[i]
    requires GapTotal(gap, |minimums|, path).Ok? && total == available - GapTotal(gap, |minimums|, path).value
    requires AtLeast(sizes, minimums) && EvenSplit(sizes, |minimums|, total)
    ensures DistributeEqually(minimums, gap, available, path).Ok?
  {
    SumNonNegative(sizes);
    EvenSplitIsShares(sizes, total);
    forall i | 0 <= i < |minimums| ensures minimums[i] <= EqualShare(total, |minimums|, i) {
      assert sizes[i] == EqualShare(total, |sizes|, i);
    }
  }
}
