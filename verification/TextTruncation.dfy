/** Cutting a text to a width: the longest run of whole code points that fits with an ellipsis behind it. */
module TextTruncation {
  import opened Octets
  import opened Optional
  import opened Utf8
  import SceneMeasure

  /** The ellipsis that measuring reckons with, as bytes. */
  const ELLIPSIS: Text := EncodeUtf8(SceneMeasure.ELLIPSIS[0] as int)

  /** What would be drawn for a cut after `k` bytes. */
  function CutAt(text: Text, k: nat): Text
    requires k <= |text|
  {
    text[..k] + ELLIPSIS
  }

  /** The length a lead byte stands for, by its leading bits alone. */
  function Stride(first: Octet): nat {
    if 0xC0 <= first <= 0xDF then 2 else if 0xE0 <= first <= 0xEF then 3 else if 0xF0 <= first <= 0xF7 then 4 else 1
  }

  predicate Ascending(ends: seq<nat>) {
    forall i, j :: 0 <= i < j < |ends| ==> ends[i] < ends[j]
  }

  /** The ends of the code points that finish by `limit`. */
  ghost predicate EndsUpTo(text: Text, ends: seq<nat>, limit: nat) {
    && Ascending(ends) && limit <= |text|
    && (forall k :: 0 <= k < |ends| ==> 0 < ends[k] <= limit && Boundary(text, ends[k]))
    && (forall b :: 0 < b <= limit && Boundary(text, b) ==> b in ends)
  }

  lemma StrideIsHead(text: Text)
    requires text != [] && HeadLength(text) > 0
    ensures Stride(text[0]) == HeadLength(text)
  {
  }

  lemma NoBoundaryInside(text: Text, index: nat, n: nat)
    requires index < |text| && HeadLength(text[index..]) == n && n > 0
    ensures index + n <= |text| && forall j :: index < j < index + n ==> !Boundary(text, j)
  {
    var rest := text[index..];
    forall j | index < j < index + n ensures !Boundary(text, j) {
      InsideHead(rest, j - index);
      assert text[j] == rest[j - index];
    }
  }

  lemma HeadStep(text: Text, index: nat)
    requires Valid(text) && index < |text| && Valid(text[index..])
    ensures index + Stride(text[index]) <= |text| && Valid(text[index + Stride(text[index])..])
    ensures Boundary(text, index + Stride(text[index]))
    ensures forall j :: index < j < index + Stride(text[index]) ==> !Boundary(text, j)
  {
    var n := HeadLength(text[index..]);
    StrideIsHead(text[index..]);
    NoBoundaryInside(text, index, n);
    assert text[index..][n..] == text[index + n..];
    if index + n < |text| { InsideHead(text[index + n..], 0); }
  }

  lemma EndsGrow(text: Text, ends: seq<nat>, index: nat, next: nat)
    requires EndsUpTo(text, ends, index) && index < next <= |text| && Boundary(text, next)
    requires forall j :: index < j < next ==> !Boundary(text, j)
    ensures EndsUpTo(text, ends + [next], next)
  {
    forall b | 0 < b <= next && Boundary(text, b) ensures b in ends + [next] {
      assert b in ends || b == next;
    }
  }

  /** What the search yields: nothing when not even the ellipsis fits, else the longest cut that does. */
  ghost predicate LongestCut(text: Text, fits: Text -> bool, result: Text) {
    if !fits(ELLIPSIS) then result == []
    else exists k :: 0 <= k <= |text| && Boundary(text, k) && result == text[..k] + ELLIPSIS && fits(result)
                     && forall j :: k < j <= |text| && Boundary(text, j) ==> !fits(CutAt(text, j))
  }

  method TruncateEnd(text: Text, fits: Text -> bool) returns (result: Text)
    requires Valid(text)
    ensures LongestCut(text, fits, result)
  {
    if !fits(ELLIPSIS) { return []; }
    var ends: seq<nat> := CodepointEnds(text);
    StartIsBoundary(text);
    while ends != []
      invariant Ascending(ends)
      invariant forall k :: 0 <= k < |ends| ==> 0 < ends[k] <= |text| && Boundary(text, ends[k])
      invariant forall b :: 0 < b <= |text| && Boundary(text, b) ==> b in ends || !fits(CutAt(text, b))
      decreases |ends|
    {
      var last := ends[|ends| - 1];
      if fits(CutAt(text, last)) {
        assert forall i :: 0 <= i < |ends| ==> ends[i] <= last;
        return CutAt(text, last);
      }
      ghost var before := ends;
      ends := ends[..|ends| - 1];
      forall b | 0 < b <= |text| && Boundary(text, b) ensures b in ends || !fits(CutAt(text, b)) {
        if b in before && b != last {
          var i :| 0 <= i < |before| && before[i] == b;
          assert ends[i] == b;
        }
      }
    }
    assert CutAt(text, 0) == ELLIPSIS;
    result := ELLIPSIS;
  }

  method CodepointEnds(text: Text) returns (ends: seq<nat>)
    requires Valid(text)
    ensures EndsUpTo(text, ends, |text|)
  {
    ends := [];
    var index := 0;
    assert text[0..] == text;
    while index < |text|
      invariant index <= |text| && Valid(text[index..]) && EndsUpTo(text, ends, index)
    {
      HeadStep(text, index);
      var stride := Stride(text[index]);
      var next := if |text| < index + stride then |text| else index + stride;
      EndsGrow(text, ends, index, next);
      ends, index := ends + [next], next;
    }
  }
}
