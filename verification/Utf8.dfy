/** UTF-8 as section 4 of RFC 3629 defines it, code point boundaries, and the scans of the text editor. */
module Utf8 {
  import opened Octets

  type Text = seq<Octet>

  // ---- The reference: texts are encodings of scalar values ----

  predicate IsScalar(c: int) {
    0 <= c <= 0x10FFFF && !(0xD800 <= c <= 0xDFFF)
  }

  type Scalar = c: int | 0 <= c <= 0x10FFFF && !(0xD800 <= c <= 0xDFFF)

  /** The bytes of a code point; none for what is not a scalar value. */
  function EncodeUtf8(c: int): Text
    requires 0 <= c
  {
    if c <= 0x7F then [c]
    else if c <= 0x7FF then [0xC0 + c / 64, 0x80 + c % 64]
    else if c <= 0xFFFF && !(0xD800 <= c <= 0xDFFF) then [0xE0 + c / 4096, 0x80 + c / 64 % 64, 0x80 + c % 64]
    else if 0x10000 <= c <= 0x10FFFF then [0xF0 + c / 262144, 0x80 + c / 4096 % 64, 0x80 + c / 64 % 64, 0x80 + c % 64]
    else []
  }

  function EncodeAll(scalars: seq<Scalar>): Text {
    if scalars == [] then [] else EncodeUtf8(scalars[0]) + EncodeAll(scalars[1..])
  }

  // ---- The validity check ----

  predicate IsContinuation(b: Octet) {
    0x80 <= b <= 0xBF
  }

  /** The length a lead byte announces, or zero. */
  function Announced(first: Octet): nat {
    if first <= 0x7F then 1
    else if 0xC2 <= first <= 0xDF then 2
    else if 0xE0 <= first <= 0xEF then 3
    else if 0xF0 <= first <= 0xF4 then 4
    else 0
  }

  /** Neither overlong, nor a surrogate, nor beyond the last plane. */
  predicate SecondAllowed(first: Octet, second: Octet) {
    && !(first == 0xE0 && second < 0xA0) && !(first == 0xED && second >= 0xA0)
    && !(first == 0xF0 && second < 0x90) && !(first == 0xF4 && second > 0x8F)
  }

  /** The length of the well-formed sequence a text begins with, or zero. */
  function HeadLength(text: Text): nat
    requires text != []
  {
    var n := Announced(text[0]);
    if n == 0 || n > |text| then 0
    else if n >= 2 && !IsContinuation(text[1]) then 0
    else if n >= 3 && (!IsContinuation(text[2]) || !SecondAllowed(text[0], text[1])) then 0
    else if n >= 4 && !IsContinuation(text[3]) then 0
    else n
  }

  predicate Valid(text: Text) {
    text == [] || (HeadLength(text) > 0 && Valid(text[HeadLength(text)..]))
  }

  /** The scalar value a well-formed sequence stands for. */
  function DecodeHead(text: Text): int
    requires text != [] && HeadLength(text) > 0
  {
    var n := HeadLength(text);
    if n == 1 then text[0]
    else
      var a: int, b: int := text[0], text[1] - 0x80;
      if n == 2 then (a - 0xC0) * 64 + b
      else
        var c: int := text[2] - 0x80;
        if n == 3 then (a - 0xE0) * 4096 + b * 64 + c
        else
          var d: int := text[3] - 0x80;
          (a - 0xF0) * 262144 + b * 4096 + c * 64 + d
  }

  lemma TwoBytes(a: int, b: int)
    requires 2 <= a < 32 && 0 <= b < 64
    ensures 0x80 <= a * 64 + b <= 0x7FF && EncodeUtf8(a * 64 + b) == [0xC0 + a, 0x80 + b]
  {
    assert (a * 64 + b) / 64 == a && (a * 64 + b) % 64 == b;
  }

  lemma ThreeBytes(a: int, b: int, c: int)
    requires 0 <= a < 16 && 0 <= b < 64 && 0 <= c < 64
    requires (a == 0 ==> b >= 32) && (a == 13 ==> b < 32)
    ensures IsScalar(a * 4096 + b * 64 + c) && EncodeUtf8(a * 4096 + b * 64 + c) == [0xE0 + a, 0x80 + b, 0x80 + c]
  {
    var v := a * 4096 + b * 64 + c;
    assert v / 64 == a * 64 + b && v % 64 == c;
    assert v / 4096 == a && v / 64 % 64 == b;
  }

  lemma FourBytes(a: int, b: int, c: int, d: int)
    requires 0 <= a <= 4 && 0 <= b < 64 && 0 <= c < 64 && 0 <= d < 64
    requires (a == 0 ==> b >= 16) && (a == 4 ==> b < 16)
    ensures var v := a * 262144 + b * 4096 + c * 64 + d;
      IsScalar(v) && EncodeUtf8(v) == [0xF0 + a, 0x80 + b, 0x80 + c, 0x80 + d]
  {
    var v := a * 262144 + b * 4096 + c * 64 + d;
    assert v / 64 == a * 4096 + b * 64 + c && v % 64 == d;
    assert v / 4096 == a * 64 + b;
    assert v / 262144 == a && v / 4096 % 64 == b && v / 64 % 64 == c;
  }

  lemma HeadDecodes(text: Text)
    requires text != [] && HeadLength(text) > 0
    ensures IsScalar(DecodeHead(text)) && EncodeUtf8(DecodeHead(text)) == text[..HeadLength(text)]
  {
    var n := HeadLength(text);
    if n == 2 {
      TwoBytes(text[0] as int - 0xC0, text[1] as int - 0x80);
    } else if n == 3 {
      ThreeBytes(text[0] as int - 0xE0, text[1] as int - 0x80, text[2] as int - 0x80);
    } else if n == 4 {
      FourBytes(text[0] as int - 0xF0, text[1] as int - 0x80, text[2] as int - 0x80, text[3] as int - 0x80);
    }
  }

  lemma SplitTwo(c: int)
    requires 0x80 <= c <= 0x7FF
    ensures 2 <= c / 64 < 32 && 0 <= c % 64 < 64 && c / 64 * 64 + c % 64 == c
  {
  }

  lemma SplitThree(c: int)
    requires 0x800 <= c <= 0xFFFF
    ensures 0 <= c / 4096 < 16 && 0 <= c / 64 % 64 < 64 && 0 <= c % 64 < 64
    ensures c / 4096 * 4096 + c / 64 % 64 * 64 + c % 64 == c
    ensures c / 4096 == 0 ==> c / 64 % 64 >= 32
    ensures c / 4096 == 13 && (c < 0xD800 || c > 0xDFFF) ==> c / 64 % 64 < 32
  {
    assert c / 64 == c / 4096 * 64 + c / 64 % 64;
  }

  lemma SplitFour(c: int)
    requires 0x10000 <= c <= 0x10FFFF
    ensures 0 <= c / 262144 <= 4 && 0 <= c / 4096 % 64 < 64 && 0 <= c / 64 % 64 < 64 && 0 <= c % 64 < 64
    ensures c / 262144 * 262144 + c / 4096 % 64 * 4096 + c / 64 % 64 * 64 + c % 64 == c
    ensures c / 262144 == 0 ==> c / 4096 % 64 >= 16
    ensures c / 262144 == 4 ==> c / 4096 % 64 < 16
  {
    assert c / 4096 == c / 262144 * 64 + c / 4096 % 64;
    assert c / 64 == c / 4096 * 64 + c / 64 % 64;
  }

  lemma HeadOfTwo(x: Octet, y: Octet, rest: Text)
    requires 0xC2 <= x <= 0xDF && IsContinuation(y)
    ensures HeadLength([x, y] + rest) == 2 && DecodeHead([x, y] + rest) == (x as int - 0xC0) * 64 + (y as int - 0x80)
  {
    assert ([x, y] + rest)[0] == x && ([x, y] + rest)[1] == y;
  }

  lemma HeadOfThree(x: Octet, y: Octet, z: Octet, rest: Text)
    requires 0xE0 <= x <= 0xEF && IsContinuation(y) && IsContinuation(z) && SecondAllowed(x, y)
    ensures HeadLength([x, y, z] + rest) == 3
    ensures DecodeHead([x, y, z] + rest) == (x as int - 0xE0) * 4096 + (y as int - 0x80) * 64 + (z as int - 0x80)
  {
    assert ([x, y, z] + rest)[0] == x && ([x, y, z] + rest)[1] == y && ([x, y, z] + rest)[2] == z;
  }

  lemma HeadOfFour(x: Octet, y: Octet, z: Octet, t: Octet, rest: Text)
    requires 0xF0 <= x <= 0xF4 && IsContinuation(y) && IsContinuation(z) && IsContinuation(t) && SecondAllowed(x, y)
    ensures HeadLength([x, y, z, t] + rest) == 4
    ensures DecodeHead([x, y, z, t] + rest) ==
      (x as int - 0xF0) * 262144 + (y as int - 0x80) * 4096 + (z as int - 0x80) * 64 + (t as int - 0x80)
  {
    var text := [x, y, z, t] + rest;
    assert text[0] == x && text[1] == y && text[2] == z && text[3] == t;
  }

  /** Encoding a scalar value gives a well-formed sequence that decodes to it, whatever follows. */
  lemma EncodedIsHead(c: Scalar, rest: Text)
    ensures EncodeUtf8(c) != [] && HeadLength(EncodeUtf8(c) + rest) == |EncodeUtf8(c)|
    ensures DecodeHead(EncodeUtf8(c) + rest) == c
  {
    if c <= 0x7F {
      assert (EncodeUtf8(c) + rest)[0] == c;
    } else if c <= 0x7FF {
      SplitTwo(c);
      HeadOfTwo(0xC0 + c / 64, 0x80 + c % 64, rest);
    } else if c <= 0xFFFF {
      SplitThree(c);
      HeadOfThree(0xE0 + c / 4096, 0x80 + c / 64 % 64, 0x80 + c % 64, rest);
    } else {
      SplitFour(c);
      HeadOfFour(0xF0 + c / 262144, 0x80 + c / 4096 % 64, 0x80 + c / 64 % 64, 0x80 + c % 64, rest);
    }
  }

  function DecodeAll(text: Text): (scalars: seq<Scalar>)
    requires Valid(text)
    ensures EncodeAll(scalars) == text
  {
    if text == [] then []
    else
      HeadDecodes(text);
      var n := HeadLength(text);
      var scalars := [DecodeHead(text)] + DecodeAll(text[n..]);
      assert text == text[..n] + text[n..];
      scalars
  }

  lemma {:induction false} EncodedIsValid(scalars: seq<Scalar>)
    ensures Valid(EncodeAll(scalars)) && DecodeAll(EncodeAll(scalars)) == scalars
  {
    if scalars != [] {
      EncodedIsValid(scalars[1..]);
      var head, rest := EncodeUtf8(scalars[0]), EncodeAll(scalars[1..]);
      EncodedIsHead(scalars[0], rest);
      assert (head + rest)[|head|..] == rest;
    }
  }

  /** The check accepts exactly the encodings of sequences of scalar values, each of which has one encoding. */
  lemma ValidIff(text: Text)
    ensures Valid(text) <==> exists scalars: seq<Scalar> :: EncodeAll(scalars) == text
  {
    if Valid(text) { assert EncodeAll(DecodeAll(text)) == text; }
    if scalars: seq<Scalar> :| EncodeAll(scalars) == text { EncodedIsValid(scalars); }
  }

  // ---- Boundaries ----

  /** A position where no continuation byte follows. */
  predicate Boundary(text: Text, k: nat) {
    k <= |text| && (k == |text| || !IsContinuation(text[k]))
  }

  /** In a valid text only the lead byte of a sequence is not a continuation. */
  lemma InsideHead(text: Text, k: nat)
    requires text != [] && HeadLength(text) > 0 && k < HeadLength(text)
    ensures IsContinuation(text[k]) <==> k > 0
  {
  }

  lemma {:induction false} ValidJoins(a: Text, b: Text)
    requires Valid(a) && Valid(b)
    ensures Valid(a + b) && Boundary(a + b, |a|)
  {
    if a == [] {
      assert a + b == b;
      if b != [] { InsideHead(b, 0); }
    } else {
      var n := HeadLength(a);
      ValidJoins(a[n..], b);
      assert HeadLength(a + b) == n;
      assert (a + b)[n..] == a[n..] + b;
      if b != [] { InsideHead(b, 0); }
    }
  }

  /** Cutting a valid text at a boundary leaves two valid texts, and only there. */
  lemma {:induction false} CutsAtBoundary(text: Text, k: nat)
    requires Valid(text) && k <= |text|
    ensures Boundary(text, k) <==> Valid(text[..k]) && Valid(text[k..])
  {
    if text != [] && k > 0 {
      var n := HeadLength(text);
      if k >= n {
        CutsAtBoundary(text[n..], k - n);
        assert text[n..][k - n..] == text[k..];
        var front := text[..k];
        assert HeadLength(front) == n && front[n..] == text[n..][..k - n];
      } else {
        InsideHead(text, k);
        assert HeadLength(text[k..]) == 0;
      }
    } else if text != [] {
      InsideHead(text, 0);
      assert text[..0] == [] && text[0..] == text;
    }
  }

  // ---- The scans ----

  function NextFrom(text: Text, k: nat): (r: nat)
    requires k <= |text|
    ensures k <= r <= |text| && Boundary(text, r) && forall j :: k <= j < r ==> !Boundary(text, j)
    decreases |text| - k
  {
    if k < |text| && IsContinuation(text[k]) then NextFrom(text, k + 1) else k
  }

  /** The next boundary after the caret. */
  function NextCodepoint(text: Text, caret: nat): nat
    requires caret <= |text|
  {
    if caret == |text| then |text| else NextFrom(text, caret + 1)
  }

  function PreviousFrom(text: Text, k: nat): (r: nat)
    requires k < |text|
    ensures r <= k && (r == 0 || Boundary(text, r)) && forall j :: r < j <= k ==> !Boundary(text, j)
  {
    if k > 0 && IsContinuation(text[k]) then PreviousFrom(text, k - 1) else k
  }

  function PreviousCodepoint(text: Text, caret: nat): nat
    requires caret <= |text|
  {
    if caret == 0 then 0 else PreviousFrom(text, caret - 1)
  }

  lemma StartIsBoundary(text: Text)
    requires Valid(text)
    ensures Boundary(text, 0)
  {
    if text != [] { InsideHead(text, 0); }
  }

  /** On boundaries each scan finds the neighbouring boundary. */
  lemma ScansFindNeighbours(text: Text, k: nat)
    requires Valid(text) && Boundary(text, k)
    ensures Boundary(text, NextCodepoint(text, k)) && Boundary(text, PreviousCodepoint(text, k))
    ensures k < |text| ==>
      k < NextCodepoint(text, k) && forall j :: k < j < NextCodepoint(text, k) ==> !Boundary(text, j)
    ensures k > 0 ==>
      PreviousCodepoint(text, k) < k && forall j :: PreviousCodepoint(text, k) < j < k ==> !Boundary(text, j)
  {
    StartIsBoundary(text);
  }

  /** And so the two scans undo each other. */
  lemma ScansInvert(text: Text, k: nat)
    requires Valid(text) && Boundary(text, k)
    ensures k < |text| ==> PreviousCodepoint(text, NextCodepoint(text, k)) == k
    ensures k > 0 ==> NextCodepoint(text, PreviousCodepoint(text, k)) == k
  {
    ScansFindNeighbours(text, k);
    if k < |text| { ScansFindNeighbours(text, NextCodepoint(text, k)); }
    if k > 0 { ScansFindNeighbours(text, PreviousCodepoint(text, k)); }
  }

  // ---- Words ----

  predicate WordAt(text: Text, k: nat)
    requires k < |text|
  {
    var first := text[k];
    first >= 0x80 || 0x30 <= first <= 0x39 || 0x41 <= first <= 0x5A || 0x61 <= first <= 0x7A || first == 0x5F
  }

  /** Skips code points that are, or are not, part of a word. */
  function SkipForward(text: Text, k: nat, word: bool): (r: nat)
    requires Valid(text) && Boundary(text, k)
    ensures k <= r && Boundary(text, r)
    ensures forall j :: k <= j < r && Boundary(text, j) ==> WordAt(text, j) == word
    ensures r == |text| || WordAt(text, r) != word
    decreases |text| - k
  {
    if k < |text| && WordAt(text, k) == word then
      ScansFindNeighbours(text, k);
      SkipForward(text, NextCodepoint(text, k), word)
    else k
  }

  function SkipBackward(text: Text, k: nat, word: bool): (r: nat)
    requires Valid(text) && Boundary(text, k)
    ensures r <= k && Boundary(text, r)
    ensures forall j :: r <= j < k && Boundary(text, j) ==> WordAt(text, j) == word
    ensures r == 0 || WordAt(text, PreviousCodepoint(text, r)) != word
    decreases k
  {
    if k == 0 then k
    else
      ScansFindNeighbours(text, k);
      if WordAt(text, PreviousCodepoint(text, k)) == word then SkipBackward(text, PreviousCodepoint(text, k), word)
        else k
  }

  /** Over the rest of a word and what separates it from the next. */
  function NextWord(text: Text, caret: nat): (r: nat)
    requires Valid(text) && Boundary(text, caret)
    ensures caret <= r && Boundary(text, r) && (r == |text| || WordAt(text, r))
    ensures caret < |text| ==> caret < r
  {
    SkipForward(text, SkipForward(text, caret, true), false)
  }

  /** Back over what separates words and over the word before it. */
  function PreviousWord(text: Text, caret: nat): (r: nat)
    requires Valid(text) && Boundary(text, caret)
    ensures r <= caret && Boundary(text, r) && (r == 0 || !WordAt(text, PreviousCodepoint(text, r)))
    ensures caret > 0 ==> r < caret
  {
    SkipBackward(text, SkipBackward(text, caret, false), true)
  }

  // ---- The loops ----

  method CheckUtf8(text: Text) returns (ok: bool)
    ensures ok == Valid(text)
  {
    var index := 0;
    assert text[0..] == text;
    while index < |text|
      invariant index <= |text| && Valid(text) == Valid(text[index..])
    {
      var rest := text[index..];
      var first := text[index];
      var length := Announced(first);
      if length == 0 || index + length > |text| { return false; }
      var k := 1;
      while k < length
        invariant 1 <= k <= length && forall j :: 1 <= j < k ==> IsContinuation(rest[j])
      {
        if !IsContinuation(text[index + k]) {
          assert !IsContinuation(rest[k]);
          return false;
        }
        k := k + 1;
      }
      if length >= 3 && !SecondAllowed(first, text[index + 1]) { return false; }
      assert HeadLength(rest) == length && rest[length..] == text[index + length..];
      index := index + length;
    }
    ok := true;
  }

  method FindNext(text: Text, caret: nat) returns (next: nat)
    requires caret <= |text|
    ensures next == NextCodepoint(text, caret)
  {
    if caret >= |text| { return |text|; }
    next := caret + 1;
    while next < |text| && IsContinuation(text[next])
      invariant next <= |text| && NextFrom(text, next) == NextFrom(text, caret + 1)
    {
      next := next + 1;
    }
  }

  method FindPrevious(text: Text, caret: nat) returns (previous: nat)
    requires caret <= |text|
    ensures previous == PreviousCodepoint(text, caret)
  {
    if caret == 0 { return 0; }
    previous := caret - 1;
    while previous > 0 && IsContinuation(text[previous])
      invariant previous < |text| && PreviousFrom(text, previous) == PreviousFrom(text, caret - 1)
    {
      previous := previous - 1;
    }
  }

  method FindNextWord(text: Text, caret: nat) returns (position: nat)
    requires Valid(text) && Boundary(text, caret)
    ensures position == NextWord(text, caret)
  {
    position := caret;
    while position < |text| && WordAt(text, position)
      invariant Boundary(text, position) && SkipForward(text, position, true) == SkipForward(text, caret, true)
      decreases |text| - position
    {
      ScansFindNeighbours(text, position);
      position := FindNext(text, position);
    }
    ghost var middle := position;
    while position < |text| && !WordAt(text, position)
      invariant Boundary(text, position) && SkipForward(text, position, false) == SkipForward(text, middle, false)
      decreases |text| - position
    {
      ScansFindNeighbours(text, position);
      position := FindNext(text, position);
    }
  }

  method FindPreviousWord(text: Text, caret: nat) returns (position: nat)
    requires Valid(text) && Boundary(text, caret)
    ensures position == PreviousWord(text, caret)
  {
    position := caret;
    while position > 0
      invariant Boundary(text, position) && SkipBackward(text, position, false) == SkipBackward(text, caret, false)
      invariant position == 0 ==> position == SkipBackward(text, caret, false)
    {
      ScansFindNeighbours(text, position);
      var previous := FindPrevious(text, position);
      if WordAt(text, previous) { break; }
      position := previous;
    }
    ghost var middle := position;
    assert middle == SkipBackward(text, caret, false);
    while position > 0
      invariant Boundary(text, position) && SkipBackward(text, position, true) == SkipBackward(text, middle, true)
    {
      ScansFindNeighbours(text, position);
      var previous := FindPrevious(text, position);
      if !WordAt(text, previous) { break; }
      position := previous;
    }
  }
}
