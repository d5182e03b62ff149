/** The distribution as the layout engine runs it: loops over `sizes`, `deficit`, `remainder`. */
module SizeLoops {
  import opened Pixels
  import opened FlexDistribution
  import opened SceneMeasure
  import opened WidthConstraint

  /** The ranks of flexible children: the k-th entry is the k-th flexible child. */
  ghost predicate Indexes(flexible: seq<nat>, flags: seq<bool>) {
    && |flexible| == CountTrue(flags)
    && (forall k :: 0 <= k < |flexible| ==>
          flexible[k] < |flags| && flags[flexible[k]] && CountTrue(flags[..flexible[k]]) == k)
  }

  lemma {:induction false} CountAppend(a: seq<bool>, b: seq<bool>)
    ensures CountTrue(a + b) == CountTrue(a) + CountTrue(b)
  {
    if a == [] {
      assert a + b == b;
    } else {
      CountAppend(a[1..], b);
      assert (a + b)[1..] == a[1..] + b;
    }
  }

  lemma CountUpTo(flags: seq<bool>, i: nat)
    requires i < |flags|
    ensures CountTrue(flags[..i + 1]) == CountTrue(flags[..i]) + (if flags[i] then 1 else 0)
  {
    assert flags[..i + 1] == flags[..i] + [flags[i]];
    CountAppend(flags[..i], [flags[i]]);
    assert CountTrue([flags[i]]) == (if flags[i] then 1 else 0) + CountTrue([flags[i]][1..]);
  }

  /** Each child's growth is decided by how many flexible children come before it. */
  function GrownAt(size: int, expands: bool, rank: nat, share: int, remainder: int): int {
    if expands then size + share + (if rank < remainder then 1 else 0) else size
  }

  lemma {:induction false} GrowAt(sizes: seq<int>, flags: seq<bool>, share: int, remainder: int, i: nat)
    requires |sizes| == |flags| && i < |sizes|
    ensures Grow(sizes, flags, share, remainder)[i] ==
      GrownAt(sizes[i], flags[i], CountTrue(flags[..i]), share, remainder)
  {
    if i > 0 {
      GrowAt(sizes[1..], flags[1..], share, if flags[0] then Max(0, remainder - 1) else remainder, i - 1);
      assert flags[..i][1..] == flags[1..][..i - 1];
    }
  }

  lemma {:induction false} TotalSteps(start: int, values: seq<int>, path: seq<PathStep>, i: nat, used: int)
    requires i < |values|
    ensures CheckedTotal(used, values[i..], path) ==
      if Fits(used + values[i]) then CheckedTotal(used + values[i], values[i + 1..], path) else Impossible(path)
  {
    assert values[i..][1..] == values[i + 1..];
  }

  /** Natural sizes, minimum ones for flexible children, their checked total and the flexible indexes. */
  method Collect(items: seq<Item>, gapTotal: int, path: seq<PathStep>) returns (sizes: seq<int>, flexible: seq<nat>,
      used: Result<int>)
    ensures used == CheckedTotal(gapTotal, Bases(items), path)
    ensures used.Ok? ==> sizes == Bases(items) && Indexes(flexible, Flags(items))
  {
    sizes, flexible := [], [];
    var total := gapTotal;
    var i := 0;
    ghost var bases, flags := Bases(items), Flags(items);
    assert bases[0..] == bases;
    while i < |items|
      invariant i <= |items| && sizes == bases[..i]
      invariant CheckedTotal(total, bases[i..], path) == CheckedTotal(gapTotal, bases, path)
      invariant |flexible| == CountTrue(flags[..i])
      invariant forall k :: 0 <= k < |flexible| ==>
        flexible[k] < i && flags[flexible[k]] && CountTrue(flags[..flexible[k]]) == k
    {
      CountUpTo(flags, i);
      TotalSteps(gapTotal, bases, path, i, total);
      sizes := sizes + [if items[i].expands then items[i].minimum else items[i].natural];
      if items[i].expands { flexible := flexible + [i]; }
      var next := CheckedAdd(total, sizes[i], path);
      if next.Err? { return sizes, flexible, next; }
      total := next.value;
      i := i + 1;
    }
    assert flags[..i] == flags && bases[..i] == bases;
    used := Ok(total);
  }

  function After(front: seq<int>, rest: Shrunk): Shrunk {
    Shrunk(front + rest.sizes, rest.deficit)
  }

  lemma ShrinkOne(front: seq<int>, sizes: seq<int>, minimums: seq<int>, deficit: int)
    requires |sizes| == |minimums| && sizes != [] && deficit > 0
    ensures var reduction := Min(deficit, sizes[0] - minimums[0]);
      After(front, Shrink(sizes, minimums, deficit))
        == After(front + [sizes[0] - reduction], Shrink(sizes[1..], minimums[1..], deficit - reduction))
  {
    var reduction := Min(deficit, sizes[0] - minimums[0]);
    var rest := Shrink(sizes[1..], minimums[1..], deficit - reduction).sizes;
    assert front + ([sizes[0] - reduction] + rest) == (front + [sizes[0] - reduction]) + rest;
  }

  /** Rigid children give up pixels in order. */
  method ShrinkLoop(given: seq<int>, minimums: seq<int>, excess: int) returns (sizes: seq<int>, deficit: int)
    requires |given| == |minimums|
    ensures Shrunk(sizes, deficit) == Shrink(given, minimums, excess)
  {
    sizes, deficit := given, excess;
    var i := 0;
    ghost var goal := Shrink(given, minimums, excess);
    assert After(sizes[..0], Shrink(sizes[0..], minimums[0..], deficit)) == goal by {
      assert given[0..] == given && minimums[0..] == minimums;
    }
    while i < |given| && deficit > 0
      invariant 0 <= i <= |given| == |sizes|
      invariant After(sizes[..i], Shrink(sizes[i..], minimums[i..], deficit)) == goal
    {
      var reduction := Min(deficit, sizes[i] - minimums[i]);
      ghost var before := sizes;
      sizes := sizes[i := sizes[i] - reduction];
      ShrinkAt(before, minimums, deficit, i, sizes, reduction);
      deficit := deficit - reduction;
      i := i + 1;
    }
    assert sizes == sizes[..i] + sizes[i..];
  }

  lemma ShrinkAt(before: seq<int>, minimums: seq<int>, deficit: int, i: nat, sizes: seq<int>, reduction: int)
    requires |before| == |minimums| && i < |before| && deficit > 0
    requires reduction == Min(deficit, before[i] - minimums[i]) && sizes == before[i := before[i] - reduction]
    ensures After(before[..i], Shrink(before[i..], minimums[i..], deficit))
      == After(sizes[..i + 1], Shrink(sizes[i + 1..], minimums[i + 1..], deficit - reduction))
  {
    ShrinkOne(before[..i], before[i..], minimums[i..], deficit);
    assert before[i..][1..] == sizes[i + 1..] && minimums[i..][1..] == minimums[i + 1..];
    assert before[..i] + [before[i] - reduction] == sizes[..i + 1];
  }

  /** What is left goes to the flexible children, one pixel more to the first of them. */
  method SpreadLoop(given: seq<int>, flexible: seq<nat>, remaining: int, ghost flags: seq<bool>)
    returns (sizes: seq<int>)
    requires |given| == |flags| && Indexes(flexible, flags) && 0 <= remaining
    ensures sizes == Spread(given, flags, remaining)
  {
    sizes := given;
    if flexible == [] { return; }
    var share, rest := remaining / |flexible|, remaining % |flexible|;
    var remainder := rest;
    var k := 0;
    while k < |flexible|
      invariant k <= |flexible| && |sizes| == |given|
      invariant remainder == Max(0, rest - k)
      invariant forall i :: 0 <= i < |sizes| ==>
        sizes[i] == if CountTrue(flags[..i]) < k then GrownAt(given[i], flags[i], CountTrue(flags[..i]), share, rest)
          else given[i]
    {
      var index := flexible[k];
      forall i | 0 <= i < |sizes| && i != index && flags[i] ensures CountTrue(flags[..i]) != k {
        RanksDiffer(flags, i, index);
      }
      sizes := sizes[index := sizes[index] + share + (if remainder > 0 then 1 else 0)];
      remainder := Max(0, remainder - 1);
      k := k + 1;
    }
    forall i | 0 <= i < |sizes| ensures sizes[i] == Grow(given, flags, share, rest)[i] {
      GrowAt(given, flags, share, rest, i);
      if flags[i] { RankBelow(flags, i); }
    }
  }

  lemma RankBelow(flags: seq<bool>, i: nat)
    requires i < |flags| && flags[i]
    ensures CountTrue(flags[..i]) < CountTrue(flags)
  {
    assert flags == flags[..i + 1] + flags[i + 1..];
    CountAppend(flags[..i + 1], flags[i + 1..]);
    CountUpTo(flags, i);
  }

  lemma RanksDiffer(flags: seq<bool>, i: nat, j: nat)
    requires i < |flags| && j < |flags| && i != j && flags[i] && flags[j]
    ensures CountTrue(flags[..i]) != CountTrue(flags[..j])
  {
    if i < j {
      RankBelow(flags[..j], i);
      assert flags[..j][..i] == flags[..i];
    } else {
      RankBelow(flags[..i], j);
      assert flags[..i][..j] == flags[..j];
    }
  }

  /** The loop form of the distribution computes the distribution. */
  method DistributeLoop(items: seq<Item>, gap: int, available: int, path: seq<PathStep>) returns (r: Result<seq<int>>)
    ensures r == Distribute(items, gap, available, path)
  {
    var gapTotal := CheckedMultiply(gap, if |items| > 1 then |items| - 1 else 0, path);
    if gapTotal.Err? { return Err(gapTotal.error); }
    if gapTotal.value > available { return Impossible(path); }
    var sizes, flexible, total := Collect(items, gapTotal.value, path);
    if total.Err? { return Err(total.error); }
    var used := total.value;
    if used > available {
      var deficit;
      sizes, deficit := ShrinkLoop(sizes, Minimums(items), used - available);
      if deficit > 0 { return Impossible(path); }
      used := available;
    }
    sizes := SpreadLoop(sizes, flexible, available - used, Flags(items));
    r := Ok(sizes);
  }

  /** The equal split of an action menu's root row. */
  method EqualLoop(minimums: seq<int>, gap: int, available: int, path: seq<PathStep>) returns (r: Result<seq<int>>)
    requires minimums != []
    ensures r == DistributeEqually(minimums, gap, available, path)
  {
    var gapTotal := CheckedMultiply(gap, if |minimums| > 1 then |minimums| - 1 else 0, path);
    if gapTotal.Err? { return Err(gapTotal.error); }
    if gapTotal.value > available { return Impossible(path); }
    var count := |minimums|;
    var width, remainder := (available - gapTotal.value) / count, (available - gapTotal.value) % count;
    var equal: seq<int> := [];
    while |equal| < count
      invariant |equal| <= count
      invariant forall i :: 0 <= i < |equal| ==>
        equal[i] == EqualShare(available - gapTotal.value, count, i) && minimums[i] <= equal[i]
    {
      var given := width + (if |equal| < remainder then 1 else 0);
      if given < minimums[|equal|] {
        assert EqualShare(available - gapTotal.value, count, |equal|) < minimums[|equal|];
        return Impossible(path);
      }
      equal := equal + [given];
    }
    assert forall i :: 0 <= i < count ==> minimums[i] <= EqualShare(available - gapTotal.value, count, i);
    assert equal == DistributeEqually(minimums, gap, available, path).value;
    r := Ok(equal);
  }

  method HorizontalSizesLoop(uniform: bool, node: Node, available: int) returns (r: Result<seq<int>>)
    ensures r == HorizontalSizes(uniform, node, available)
  {
    if SplitsEqually(uniform, node) {
      r := EqualLoop(MinimumWidths(node.children), node.gap, available, node.path);
    } else {
      r := DistributeLoop(Items(node.children, Horizontal), node.gap, available, node.path);
    }
  }
}
