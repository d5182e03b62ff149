/** Pixel arithmetic on the 32-bit `int` of the layout engine, rectangles and clipping. */
module Pixels {

  const INT_MIN := -0x8000_0000
  const INT_MAX := 0x7FFF_FFFF

  datatype PathStep = Child(index: nat) | Content

  datatype ErrorCode =
    | UnknownRole | UnknownImageRole | UnknownGap | UnknownSpacer | UnknownIcon
    | InvalidUtf8 | UnsupportedGlyph | ImpossibleConstraints

  datatype LayoutError = LayoutError(code: ErrorCode, path: seq<PathStep>)

  datatype Result<+T> = Ok(value: T) | Err(error: LayoutError) {
    predicate IsFailure() { Err? }
    function PropagateFailure<U>(): Result<U> requires Err? { Err(error) }
    function Extract(): T requires Ok? { value }
  }

  function Impossible<T>(path: seq<PathStep>): Result<T> {
    Err(LayoutError(ImpossibleConstraints, path))
  }

  predicate Fits(value: int) { INT_MIN <= value <= INT_MAX }

  /** The three checked operations compute in 64 bits and reject what leaves 32. */
  function Checked(value: int, path: seq<PathStep>): Result<int> {
    if Fits(value) then Ok(value) else Impossible(path)
  }

  function CheckedAdd(left: int, right: int, path: seq<PathStep>): Result<int> {
    Checked(left + right, path)
  }

  function CheckedSubtract(left: int, right: int, path: seq<PathStep>): Result<int> {
    Checked(left - right, path)
  }

  function CheckedMultiply(left: int, right: int, path: seq<PathStep>): Result<int> {
    Checked(left * right, path)
  }

  function Min(a: int, b: int): int { if a < b then a else b }
  function Max(a: int, b: int): int { if a < b then b else a }

  /** C++ integer division: it truncates toward zero. */
  function Half(value: int): int { if value >= 0 then value / 2 else -(-value / 2) }

  datatype Rect = Rect(x: int, y: int, width: int, height: int)

  /** The pixels a rectangle covers. A rectangle with no positive extent covers none. */
  predicate Covers(rect: Rect, px: int, py: int) {
    rect.x <= px < rect.x + rect.width && rect.y <= py < rect.y + rect.height
  }

  ghost predicate PixelsWithin(inner: Rect, outer: Rect) {
    forall px, py :: Covers(inner, px, py) ==> Covers(outer, px, py)
  }

  /** Geometric containment, meaningful for empty rectangles too. */
  predicate Inside(inner: Rect, outer: Rect) {
    && 0 <= inner.width && 0 <= inner.height
    && outer.x <= inner.x && inner.x + inner.width <= outer.x + outer.width
    && outer.y <= inner.y && inner.y + inner.height <= outer.y + outer.height
  }

  function Intersect(left: Rect, right: Rect, path: seq<PathStep>): Result<Rect> {
    var x := Max(left.x, right.x);
    var y := Max(left.y, right.y);
    var leftRight :- CheckedAdd(left.x, left.width, path);
    var rightRight :- CheckedAdd(right.x, right.width, path);
    var leftBottom :- CheckedAdd(left.y, left.height, path);
    var rightBottom :- CheckedAdd(right.y, right.height, path);
    var width :- CheckedSubtract(Min(leftRight, rightRight), x, path);
    var height :- CheckedSubtract(Min(leftBottom, rightBottom), y, path);
    Ok(Rect(x, y, Max(0, width), Max(0, height)))
  }

  /** Clipping is exact: the result covers the pixels both rectangles cover and no others. */
  lemma IntersectIsExact(left: Rect, right: Rect, path: seq<PathStep>, px: int, py: int)
    requires Intersect(left, right, path).Ok?
    ensures Covers(Intersect(left, right, path).value, px, py) <==> Covers(left, px, py) && Covers(right, px, py)
  {
    var r := Intersect(left, right, path).value;
    assert r.width == Max(0, Min(left.x + left.width, right.x + right.width) - r.x);
  }

  lemma IntersectWithin(left: Rect, right: Rect, path: seq<PathStep>)
    requires Intersect(left, right, path).Ok?
    ensures PixelsWithin(Intersect(left, right, path).value, left)
    ensures PixelsWithin(Intersect(left, right, path).value, right)
    ensures 0 <= Intersect(left, right, path).value.width && 0 <= Intersect(left, right, path).value.height
  {
    forall px, py ensures Covers(Intersect(left, right, path).value, px, py) ==>
      Covers(left, px, py) && Covers(right, px, py) {
      IntersectIsExact(left, right, path, px, py);
    }
  }

  lemma InsideTransitive(a: Rect, b: Rect, c: Rect)
    requires Inside(a, b) && Inside(b, c)
    ensures Inside(a, c)
  {
  }
}
