/** The text field's editor as its user sees it: code points before and after the caret. The editor over bytes does with
    every key what this one does. */
module ScalarEditor {
  import opened Octets
  import opened Utf8
  import opened TextEditor

  datatype Line = Line(before: seq<Scalar>, after: seq<Scalar>, marked: bool)

  datatype Outcome = Outcome(line: Line, changed: bool)

  /** Letters, digits, the underscore and everything beyond ASCII make up words. */
  predicate InWord(c: Scalar) {
    c >= 0x80 || '0' as int <= c <= '9' as int || 'A' as int <= c <= 'Z' as int || 'a' as int <= c <= 'z' as int
    || c == '_' as int
  }

  /** Without the code points at the end that are, or are not, part of a word. */
  function Trimmed(line: seq<Scalar>, word: bool): (r: seq<Scalar>)
    ensures |r| <= |line|
  {
    if line != [] && InWord(line[|line| - 1]) == word then Trimmed(line[..|line| - 1], word) else line
  }

  /** Without those at the beginning. */
  function Skipped(line: seq<Scalar>, word: bool): (r: seq<Scalar>)
    ensures |r| <= |line|
  {
    if line != [] && InWord(line[0]) == word then Skipped(line[1..], word) else line
  }

  /** What stands before the last word; what follows the next one and what separates it from the one after. */
  function WithoutLastWord(line: seq<Scalar>): (r: seq<Scalar>)
    ensures |r| <= |line|
  {
    Trimmed(Trimmed(line, false), true)
  }

  function WithoutFirstWord(line: seq<Scalar>): (r: seq<Scalar>)
    ensures |r| <= |line|
  {
    Skipped(Skipped(line, true), false)
  }

  /** New code points take the place of what is marked, or stand at the caret, if all then fits. */
  function Entered(l: Line, limit: nat, scalars: seq<Scalar>): Outcome {
    if |EncodeAll(if l.marked then [] else l.before + l.after)| + |EncodeAll(scalars)| > limit then Outcome(l, false)
    else if l.marked then Outcome(Line(scalars, [], false), true)
    else Outcome(l.(before := l.before + scalars), scalars != [])
  }

  /** What is left of the two sides, unless everything is marked and goes. */
  function Kept(l: Line, before: seq<Scalar>, after: seq<Scalar>): Outcome {
    if l.marked then Outcome(Line([], [], false), l.before + l.after != [])
    else Outcome(Line(before, after, false), before != l.before || after != l.after)
  }

  /** The caret after the first so many code points. */
  function At(l: Line, k: nat): Outcome
    requires k <= |l.before + l.after|
  {
    Outcome(Line((l.before + l.after)[..k], (l.before + l.after)[k..], false), false)
  }

  function Edit(l: Line, limit: nat, key: Key): Outcome {
    var n := |l.before|;
    match key
    case Type(codepoint) => if IsScalar(codepoint) then Entered(l, limit, [codepoint]) else Outcome(l, false)
    case Paste(text) => if Valid(text) then Entered(l, limit, DecodeAll(text)) else Outcome(l, false)
    case BackspaceKey => Kept(l, if n == 0 then [] else l.before[..n - 1], l.after)
    case DeleteKey => Kept(l, l.before, if l.after == [] then [] else l.after[1..])
    case DeleteWordBack => Kept(l, WithoutLastWord(l.before), l.after)
    case DeleteWordOn => Kept(l, l.before, WithoutFirstWord(l.after))
    case DeleteStart => Kept(l, [], l.after)
    case DeleteEnd => Kept(l, l.before, [])
    case Left => At(l, if n == 0 then 0 else n - 1)
    case Right => At(l, if l.after == [] then n else n + 1)
    case WordLeft => At(l, |WithoutLastWord(l.before)|)
    case WordRight => At(l, n + |l.after| - |WithoutFirstWord(l.after)|)
    case Home => At(l, 0)
    case End => At(l, n + |l.after|)
    case SelectAll => Outcome(Line(l.before + l.after, [], true), false)
  }

  function EditAll(l: Line, limit: nat, keys: seq<Key>): Line
    decreases keys
  {
    if keys == [] then l else EditAll(Edit(l, limit, keys[0]).line, limit, keys[1..])
  }

  // ---- Bytes for code points ----

  lemma {:induction false} EncodeAllJoins(a: seq<Scalar>, b: seq<Scalar>)
    ensures EncodeAll(a + b) == EncodeAll(a) + EncodeAll(b)
  {
    if a == [] {
      assert a + b == b;
    } else {
      assert (a + b)[1..] == a[1..] + b;
      EncodeAllJoins(a[1..], b);
    }
  }

  lemma EncodeOne(c: Scalar)
    ensures EncodeAll([c]) == EncodeUtf8(c) && EncodeUtf8(c) != []
  {
    EncodedIsHead(c, []);
    assert [c][1..] == [];
  }

  /** The bytes with the caret between the two sides. */
  function EditorOf(l: Line, limit: nat): Editor {
    Editor(EncodeAll(l.before) + EncodeAll(l.after), |EncodeAll(l.before)|, limit, l.marked)
  }

  lemma Sides(before: seq<Scalar>, after: seq<Scalar>)
    ensures Valid(EncodeAll(before)) && Valid(EncodeAll(after)) && Valid(EncodeAll(before) + EncodeAll(after))
    ensures Boundary(EncodeAll(before) + EncodeAll(after), |EncodeAll(before)|)
  {
    EncodedIsValid(before);
    EncodedIsValid(after);
    ValidJoins(EncodeAll(before), EncodeAll(after));
  }

  lemma OneBetween(before: seq<Scalar>, c: Scalar, after: seq<Scalar>)
    ensures EncodeAll(before + [c]) == EncodeAll(before) + EncodeUtf8(c) && EncodeUtf8(c) != []
    ensures EncodeAll([c] + after) == EncodeUtf8(c) + EncodeAll(after)
    ensures EncodeAll(before + [c]) + EncodeAll(after) == EncodeAll(before) + EncodeAll([c] + after)
  {
    EncodeAllJoins(before, [c]);
    EncodeAllJoins([c], after);
    EncodeOne(c);
  }

  lemma OneBack(front: Text, encoded: Text, back: Text)
    requires Valid(front + back) && Boundary(front + back, |front|) && encoded != [] && HeadLength(encoded) == |encoded|
    requires Valid(front + encoded + back) && Boundary(front + encoded + back, |front| + |encoded|)
    ensures PreviousCodepoint(front + encoded + back, |front| + |encoded|) == |front|
    ensures NextCodepoint(front + encoded + back, |front|) == |front| + |encoded|
  {
    var value := front + back;
    assert value[..|front|] == front && value[|front|..] == back;
    OneCodepointBack(value, |front|, encoded);
    ScansInvert(front + encoded + back, |front| + |encoded|);
  }

  /** One code point back and one on. */
  lemma Neighbours(before: seq<Scalar>, c: Scalar, after: seq<Scalar>, text: Text)
    requires text == EncodeAll(before + [c]) + EncodeAll(after)
    ensures text == EncodeAll(before) + EncodeAll([c] + after)
    ensures PreviousCodepoint(text, |EncodeAll(before + [c])|) == |EncodeAll(before)|
    ensures NextCodepoint(text, |EncodeAll(before)|) == |EncodeAll(before + [c])|
    ensures |EncodeAll(before)| < |EncodeAll(before + [c])|
  {
    OneBetween(before, c, after);
    Sides(before, after);
    Sides(before + [c], after);
    EncodedIsHead(c, []);
    assert EncodeUtf8(c) + [] == EncodeUtf8(c);
    OneBack(EncodeAll(before), EncodeUtf8(c), EncodeAll(after));
  }

  lemma NeighboursOn(before: seq<Scalar>, c: Scalar, after: seq<Scalar>, text: Text)
    requires text == EncodeAll(before) + EncodeAll([c] + after)
    ensures text == EncodeAll(before + [c]) + EncodeAll(after)
    ensures PreviousCodepoint(text, |EncodeAll(before + [c])|) == |EncodeAll(before)|
    ensures NextCodepoint(text, |EncodeAll(before)|) == |EncodeAll(before + [c])|
    ensures |EncodeAll(before)| < |EncodeAll(before + [c])| <= |text|
  {
    OneBetween(before, c, after);
    Neighbours(before, c, after, text);
  }

  lemma WordOf(before: seq<Scalar>, c: Scalar, after: seq<Scalar>)
    ensures |EncodeAll(before)| < |EncodeAll(before) + EncodeAll([c] + after)|
    ensures WordAt(EncodeAll(before) + EncodeAll([c] + after), |EncodeAll(before)|) == InWord(c)
  {
    EncodeAllJoins([c], after);
    EncodeOne(c);
    assert (EncodeAll(before) + EncodeAll([c] + after))[|EncodeAll(before)|] == EncodeUtf8(c)[0];
  }

  lemma BackStep(text: Text, k: nat, p: nat, word: bool, skipped: nat)
    requires Valid(text) && Boundary(text, k) && Boundary(text, p) && p < k && p == PreviousCodepoint(text, k)
    requires skipped == SkipBackward(text, p, word)
    ensures SkipBackward(text, k, word) == if WordAt(text, p) == word then skipped else k
  {
  }

  lemma OnStep(text: Text, k: nat, n: nat, word: bool, skipped: nat)
    requires Valid(text) && Boundary(text, k) && Boundary(text, n) && k < n <= |text| && n == NextCodepoint(text, k)
    requires skipped == SkipForward(text, n, word)
    ensures SkipForward(text, k, word) == if WordAt(text, k) == word then skipped else k
  {
  }

  lemma TrimmedLast(front: seq<Scalar>, c: Scalar, word: bool)
    ensures Trimmed(front + [c], word) == if InWord(c) == word then Trimmed(front, word) else front + [c]
  {
    assert (front + [c])[..|front|] == front;
  }

  lemma SkippedFirst(c: Scalar, rest: seq<Scalar>, word: bool)
    ensures Skipped([c] + rest, word) == if InWord(c) == word then Skipped(rest, word) else [c] + rest
  {
    assert ([c] + rest)[1..] == rest;
  }

  /** Skipping back over the bytes is trimming the code points. */
  lemma {:induction false} SkipsBack(before: seq<Scalar>, after: seq<Scalar>, word: bool, text: Text, k: nat)
    requires text == EncodeAll(before) + EncodeAll(after) && k == |EncodeAll(before)|
    ensures Valid(text) && Boundary(text, k)
    ensures SkipBackward(text, k, word) == |EncodeAll(Trimmed(before, word))|
    decreases |before|, 0
  {
    if before == [] {
      Sides(before, after);
    } else {
      assert before == before[..|before| - 1] + [before[|before| - 1]];
      LastTrimmed(before[..|before| - 1], before[|before| - 1], after, word, text, k);
    }
  }

  lemma {:induction false} LastTrimmed(front: seq<Scalar>, c: Scalar, after: seq<Scalar>, word: bool, text: Text,
      k: nat)
    requires text == EncodeAll(front + [c]) + EncodeAll(after) && k == |EncodeAll(front + [c])|
    ensures Valid(text) && Boundary(text, k)
    ensures SkipBackward(text, k, word) == |EncodeAll(Trimmed(front + [c], word))|
    decreases |front|, 1
  {
    Sides(front + [c], after);
    var p := |EncodeAll(front)|;
    Neighbours(front, c, after, text);
    SkipsBack(front, [c] + after, word, text, p);
    LastSkips(front, c, after, word, text, k, p, SkipBackward(text, p, word));
  }

  lemma LastSkips(front: seq<Scalar>, c: Scalar, after: seq<Scalar>, word: bool, text: Text, k: nat, p: nat,
      skipped: nat)
    requires text == EncodeAll(front) + EncodeAll([c] + after) && k == |EncodeAll(front + [c])|
    requires p == |EncodeAll(front)| && p < k && Valid(text) && Boundary(text, k) && Boundary(text, p)
    requires p == PreviousCodepoint(text, k)
    requires skipped == SkipBackward(text, p, word) == |EncodeAll(Trimmed(front, word))|
    ensures SkipBackward(text, k, word) == |EncodeAll(Trimmed(front + [c], word))|
  {
    WordOf(front, c, after);
    BackStep(text, k, p, word, skipped);
    TrimmedLast(front, c, word);
  }

  /** Skipping on over the bytes is skipping over the code points. */
  lemma {:induction false} SkipsOn(before: seq<Scalar>, after: seq<Scalar>, word: bool, text: Text, k: nat)
    requires text == EncodeAll(before) + EncodeAll(after) && k == |EncodeAll(before)|
    ensures Valid(text) && Boundary(text, k)
    ensures SkipForward(text, k, word) + |EncodeAll(Skipped(after, word))| == |text|
    decreases |after|, 0
  {
    Sides(before, after);
    if after != [] {
      FirstSkipped(before, after[0], after[1..], word, text, k);
      assert after == [after[0]] + after[1..];
    }
  }

  lemma {:induction false} FirstSkipped(before: seq<Scalar>, c: Scalar, rest: seq<Scalar>, word: bool, text: Text,
      k: nat)
    requires text == EncodeAll(before) + EncodeAll([c] + rest) && k == |EncodeAll(before)|
    requires Valid(text) && Boundary(text, k)
    ensures SkipForward(text, k, word) + |EncodeAll(Skipped([c] + rest, word))| == |text|
    decreases |rest|, 1
  {
    var n := |EncodeAll(before + [c])|;
    NeighboursOn(before, c, rest, text);
    SkipsOn(before + [c], rest, word, text, n);
    FirstSkips(before, c, rest, word, text, k, n, SkipForward(text, n, word));
  }

  lemma FirstSkips(before: seq<Scalar>, c: Scalar, rest: seq<Scalar>, word: bool, text: Text, k: nat, n: nat,
      skipped: nat)
    requires text == EncodeAll(before) + EncodeAll([c] + rest) && k == |EncodeAll(before)|
    requires Valid(text) && Boundary(text, k) && Boundary(text, n) && k < n <= |text| && n == NextCodepoint(text, k)
    requires skipped == SkipForward(text, n, word) && skipped + |EncodeAll(Skipped(rest, word))| == |text|
    ensures SkipForward(text, k, word) + |EncodeAll(Skipped([c] + rest, word))| == |text|
  {
    WordOf(before, c, rest);
    OnStep(text, k, n, word, skipped);
    SkippedFirst(c, rest, word);
  }

  // ---- Every key ----

  /** The bytes of what is left lie at the beginning. */
  lemma {:induction false} TrimmedHead(line: seq<Scalar>, word: bool)
    ensures EncodeAll(Trimmed(line, word)) <= EncodeAll(line)
    ensures line[..|Trimmed(line, word)|] == Trimmed(line, word)
    decreases |line|
  {
    if line != [] {
      var front, c := line[..|line| - 1], line[|line| - 1];
      assert line == front + [c];
      TrimmedHead(front, word);
      EncodeAllJoins(front, [c]);
    }
  }

  /** The bytes of what is left lie at the end. */
  lemma {:induction false} SkippedTail(line: seq<Scalar>, word: bool)
    ensures |EncodeAll(Skipped(line, word))| <= |EncodeAll(line)|
    ensures EncodeAll(line)[|EncodeAll(line)| - |EncodeAll(Skipped(line, word))|..] == EncodeAll(Skipped(line, word))
    ensures line[|line| - |Skipped(line, word)|..] == Skipped(line, word)
  {
    if line != [] { SkippedTail(line[1..], word); }
  }

  lemma EncodeAllIsInjective(a: seq<Scalar>, b: seq<Scalar>)
    ensures EncodeAll(a) == EncodeAll(b) <==> a == b
  {
    EncodedIsValid(a);
    EncodedIsValid(b);
  }

  /** A call on the bytes came to what the code points came to. */
  predicate Agrees(edited: Edited, outcome: Outcome, limit: nat) {
    edited == Edited(EditorOf(outcome.line, limit), outcome.changed)
  }

  lemma SpliceAgrees(l: Line, limit: nat, scalars: seq<Scalar>, text: Text)
    requires !l.marked && text == EncodeAll(scalars)
    ensures var e := EditorOf(l, limit);
      e.(value := e.value[..e.caret] + text + e.value[e.caret..], caret := e.caret + |text|)
        == EditorOf(l.(before := l.before + scalars), limit)
  {
    EncodeAllJoins(l.before, scalars);
    var e := EditorOf(l, limit);
    assert e.value[..e.caret] == EncodeAll(l.before) && e.value[e.caret..] == EncodeAll(l.after);
  }

  lemma EntersAgree(l: Line, limit: nat, scalars: seq<Scalar>, text: Text)
    requires Sound(EditorOf(l, limit)) && text == EncodeAll(scalars)
    ensures Agrees(ReplaceSelection(EditorOf(l, limit), text), Entered(l, limit, scalars), limit)
  {
    EncodedIsValid(scalars);
    EncodeAllIsInjective(scalars, []);
    if l.marked {
      assert text + [] == text;
    } else {
      EncodeAllJoins(l.before, l.after);
      SpliceAgrees(l, limit, scalars, text);
    }
  }

  lemma TypeAgrees(l: Line, limit: nat, codepoint: nat)
    requires Sound(EditorOf(l, limit))
    ensures Agrees(Insert(EditorOf(l, limit), codepoint), Edit(l, limit, Type(codepoint)), limit)
  {
    if IsScalar(codepoint) {
      EncodeOne(codepoint);
      EntersAgree(l, limit, [codepoint], EncodeUtf8(codepoint));
    }
  }

  lemma PasteAgrees(l: Line, limit: nat, text: Text)
    requires Sound(EditorOf(l, limit))
    ensures Agrees(ReplaceSelection(EditorOf(l, limit), text), Edit(l, limit, Paste(text)), limit)
  {
    if Valid(text) { EntersAgree(l, limit, DecodeAll(text), text); }
  }

  /** Everything marked goes at once. */
  lemma ClearAgrees(l: Line, limit: nat, before: seq<Scalar>, after: seq<Scalar>)
    requires l.marked
    ensures Agrees(ClearAll(EditorOf(l, limit)), Kept(l, before, after), limit)
  {
    EncodeAllJoins(l.before, l.after);
    EncodeAllIsInjective(l.before + l.after, []);
  }

  lemma BackAgrees(l: Line, limit: nat, before: seq<Scalar>, first: nat)
    requires !l.marked && EncodeAll(before) <= EncodeAll(l.before) && first == |EncodeAll(before)|
    ensures var e := EditorOf(l, limit);
      Agrees(if first == e.caret then Edited(e, false) else Edited(Remove(e, first, e.caret), true),
        Kept(l, before, l.after), limit)
  {
    EncodeAllIsInjective(before, l.before);
    var e := EditorOf(l, limit);
    assert e.value[..first] == EncodeAll(before) && e.value[e.caret..] == EncodeAll(l.after);
  }

  lemma OnAgrees(l: Line, limit: nat, after: seq<Scalar>, last: nat)
    requires !l.marked && |EncodeAll(after)| <= |EncodeAll(l.after)|
    requires EncodeAll(l.after)[|EncodeAll(l.after)| - |EncodeAll(after)|..] == EncodeAll(after)
    requires last == |EncodeAll(l.before)| + |EncodeAll(l.after)| - |EncodeAll(after)|
    ensures var e := EditorOf(l, limit);
      Agrees(if last == e.caret then Edited(e, false) else Edited(Remove(e, e.caret, last), true),
        Kept(l, l.before, after), limit)
  {
    EncodeAllIsInjective(after, l.after);
    var e := EditorOf(l, limit);
    assert e.value[..e.caret] == EncodeAll(l.before) && e.value[last..] == EncodeAll(after);
  }

  /** The caret's neighbours and the words around it, found among the bytes. */
  lemma CaretFinds(l: Line, limit: nat, e: Editor)
    requires Sound(e) && e == EditorOf(l, limit)
    ensures PreviousCodepoint(e.value, e.caret) ==
      |EncodeAll(if l.before == [] then [] else l.before[..|l.before| - 1])|
    ensures NextCodepoint(e.value, e.caret) == |e.value| - |EncodeAll(if l.after == [] then [] else l.after[1..])|
  {
    if l.before != [] {
      var front, c := l.before[..|l.before| - 1], l.before[|l.before| - 1];
      assert l.before == front + [c];
      Neighbours(front, c, l.after, e.value);
    }
    if l.after != [] {
      assert l.after == [l.after[0]] + l.after[1..];
      NeighboursOn(l.before, l.after[0], l.after[1..], e.value);
    }
  }

  lemma Regrouped(a: seq<Scalar>, b: seq<Scalar>, c: seq<Scalar>)
    ensures EncodeAll(a + b) + EncodeAll(c) == EncodeAll(a) + EncodeAll(b + c)
  {
    EncodeAllJoins(a, b);
    EncodeAllJoins(b, c);
  }

  lemma LastWordFound(l: Line, limit: nat, e: Editor)
    requires Sound(e) && e == EditorOf(l, limit)
    ensures PreviousWord(e.value, e.caret) == |EncodeAll(WithoutLastWord(l.before))|
  {
    var trimmed := Trimmed(l.before, false);
    SkipsBack(l.before, l.after, false, e.value, e.caret);
    TrimmedHead(l.before, false);
    var rest := l.before[|trimmed|..];
    assert l.before == trimmed + rest;
    Regrouped(trimmed, rest, l.after);
    SkipsBack(trimmed, rest + l.after, true, e.value, |EncodeAll(trimmed)|);
  }

  lemma NextWordFound(l: Line, limit: nat, e: Editor)
    requires Sound(e) && e == EditorOf(l, limit)
    ensures NextWord(e.value, e.caret) + |EncodeAll(WithoutFirstWord(l.after))| == |e.value|
  {
    var skipped := Skipped(l.after, true);
    SkipsOn(l.before, l.after, true, e.value, e.caret);
    SkippedTail(l.after, true);
    var passed := l.after[..|l.after| - |skipped|];
    assert l.after == passed + skipped;
    Regrouped(l.before, passed, skipped);
    EncodeAllJoins(passed, skipped);
    EncodeAllJoins(l.before, passed);
    SkipsOn(l.before + passed, skipped, false, e.value, |EncodeAll(l.before + passed)|);
  }

  lemma BackOneAgrees(l: Line, limit: nat, e: Editor, front: seq<Scalar>)
    requires Sound(e) && e == EditorOf(l, limit) && !l.marked
    requires front == if l.before == [] then [] else l.before[..|l.before| - 1]
    ensures Agrees(Backspace(e), Kept(l, front, l.after), limit)
  {
    CaretFinds(l, limit, e);
    LeavesHead(l.before, front);
    BackAgrees(l, limit, front, PreviousCodepoint(e.value, e.caret));
  }

  lemma LeavesHead(before: seq<Scalar>, front: seq<Scalar>)
    requires front == if before == [] then [] else before[..|before| - 1]
    ensures EncodeAll(front) <= EncodeAll(before)
  {
    if before != [] {
      assert before == front + [before[|before| - 1]];
      EncodeAllJoins(front, [before[|before| - 1]]);
    }
  }

  lemma LeavesTail(after: seq<Scalar>, rest: seq<Scalar>)
    requires rest == if after == [] then [] else after[1..]
    ensures |EncodeAll(rest)| <= |EncodeAll(after)|
    ensures EncodeAll(after)[|EncodeAll(after)| - |EncodeAll(rest)|..] == EncodeAll(rest)
  {
  }

  lemma OnOneAgrees(l: Line, limit: nat, e: Editor, rest: seq<Scalar>)
    requires Sound(e) && e == EditorOf(l, limit) && !l.marked && rest == if l.after == [] then [] else l.after[1..]
    ensures Agrees(DeleteForward(e), Kept(l, l.before, rest), limit)
  {
    CaretFinds(l, limit, e);
    LeavesTail(l.after, rest);
    OnAgrees(l, limit, rest, NextCodepoint(e.value, e.caret));
  }

  lemma BackWordAgrees(l: Line, limit: nat, e: Editor, kept: seq<Scalar>)
    requires Sound(e) && e == EditorOf(l, limit) && !l.marked && kept == WithoutLastWord(l.before)
    ensures Agrees(DeleteWordBackward(e), Kept(l, kept, l.after), limit)
  {
    LastWordFound(l, limit, e);
    TrimmedHead(l.before, false);
    TrimmedHead(Trimmed(l.before, false), true);
    BackAgrees(l, limit, kept, PreviousWord(e.value, e.caret));
  }

  lemma OnWordAgrees(l: Line, limit: nat, e: Editor, rest: seq<Scalar>)
    requires Sound(e) && e == EditorOf(l, limit) && !l.marked && rest == WithoutFirstWord(l.after)
    ensures Agrees(DeleteWordForward(e), Kept(l, l.before, rest), limit)
  {
    NextWordFound(l, limit, e);
    FirstWordPasses(l.after);
    OnToAgrees(l, limit, e, rest, NextWord(e.value, e.caret));
  }

  lemma OnToAgrees(l: Line, limit: nat, e: Editor, rest: seq<Scalar>, ending: nat)
    requires Sound(e) && e == EditorOf(l, limit) && !l.marked
    requires ending == NextWord(e.value, e.caret) && ending + |EncodeAll(rest)| == |e.value|
    requires |rest| <= |l.after| && l.after[|l.after| - |rest|..] == rest && |EncodeAll(rest)| <= |EncodeAll(l.after)|
    requires EncodeAll(l.after)[|EncodeAll(l.after)| - |EncodeAll(rest)|..] == EncodeAll(rest)
    ensures Agrees(DeleteWordForward(e), Kept(l, l.before, rest), limit)
  {
    OnAgrees(l, limit, rest, ending);
  }

  lemma FirstWordPasses(line: seq<Scalar>)
    ensures var rest := WithoutFirstWord(line);
      && line[|line| - |rest|..] == rest && |EncodeAll(rest)| <= |EncodeAll(line)|
      && EncodeAll(line)[|EncodeAll(line)| - |EncodeAll(rest)|..] == EncodeAll(rest)
  {
    SkippedTail(line, true);
    SkippedTail(Skipped(line, true), false);
  }

  /** With everything marked, each of the deleting keys deletes it. */
  lemma MarkedAgrees(l: Line, limit: nat, e: Editor, key: Key)
    requires Sound(e) && e == EditorOf(l, limit) && l.marked
    requires key.BackspaceKey? || key.DeleteKey? || key.DeleteWordBack? || key.DeleteWordOn? || key.DeleteStart?
             || key.DeleteEnd?
    ensures Agrees(Press(e, key), Edit(l, limit, key), limit)
  {
    ClearAgrees(l, limit, [], []);
    assert Press(e, key) == ClearAll(e);
    assert Edit(l, limit, key) == Kept(l, [], []);
  }

  /** The caret after so many code points is after their bytes. */
  lemma MovesAgree(l: Line, limit: nat, k: nat, caret: nat)
    requires k <= |l.before + l.after| && caret == |EncodeAll((l.before + l.after)[..k])|
    ensures Agrees(MoveTo(EditorOf(l, limit), caret), At(l, k), limit)
  {
    var all := l.before + l.after;
    assert all[..k] + all[k..] == all;
    EncodeAllJoins(all[..k], all[k..]);
    EncodeAllJoins(l.before, l.after);
  }

  lemma LeftAgrees(l: Line, limit: nat, e: Editor, k: nat)
    requires Sound(e) && e == EditorOf(l, limit) && k == if l.before == [] then 0 else |l.before| - 1
    ensures Agrees(MoveTo(e, PreviousCodepoint(e.value, e.caret)), At(l, k), limit)
  {
    CaretFinds(l, limit, e);
    assert (l.before + l.after)[..k] == l.before[..k];
    MovesAgree(l, limit, k, PreviousCodepoint(e.value, e.caret));
  }

  lemma RightAgrees(l: Line, limit: nat, e: Editor, k: nat)
    requires Sound(e) && e == EditorOf(l, limit) && k == if l.after == [] then |l.before| else |l.before| + 1
    ensures Agrees(MoveTo(e, NextCodepoint(e.value, e.caret)), At(l, k), limit)
  {
    if l.after == [] {
      CaretFinds(l, limit, e);
      assert (l.before + l.after)[..k] == l.before;
    } else {
      assert (l.before + l.after)[..k] == l.before + [l.after[0]] && l.after == [l.after[0]] + l.after[1..];
      NeighboursOn(l.before, l.after[0], l.after[1..], e.value);
    }
    MovesAgree(l, limit, k, NextCodepoint(e.value, e.caret));
  }

  lemma EdgesAgree(l: Line, limit: nat)
    ensures Agrees(MoveTo(EditorOf(l, limit), 0), At(l, 0), limit)
    ensures Agrees(MoveTo(EditorOf(l, limit), |EditorOf(l, limit).value|), At(l, |l.before + l.after|), limit)
  {
    var all := l.before + l.after;
    assert all[..0] == [] && all[..|all|] == all;
    EncodeAllJoins(l.before, l.after);
    MovesAgree(l, limit, 0, 0);
    MovesAgree(l, limit, |all|, |EncodeAll(all)|);
  }

  lemma WordLeftAgrees(l: Line, limit: nat, e: Editor, k: nat)
    requires Sound(e) && e == EditorOf(l, limit) && k == |WithoutLastWord(l.before)|
    ensures Agrees(MoveTo(e, PreviousWord(e.value, e.caret)), At(l, k), limit)
  {
    LastWordFound(l, limit, e);
    TrimmedHead(l.before, false);
    TrimmedHead(Trimmed(l.before, false), true);
    assert (l.before + l.after)[..k] == Trimmed(l.before, false)[..k];
    MovesAgree(l, limit, k, PreviousWord(e.value, e.caret));
  }

  lemma WordRightAgrees(l: Line, limit: nat, e: Editor, k: nat)
    requires Sound(e) && e == EditorOf(l, limit) && k == |l.before| + |l.after| - |WithoutFirstWord(l.after)|
    ensures Agrees(MoveTo(e, NextWord(e.value, e.caret)), At(l, k), limit)
  {
    NextWordFound(l, limit, e);
    FirstWordPasses(l.after);
    BytesBefore(l.before, l.after, WithoutFirstWord(l.after), k);
    MovesAgree(l, limit, k, NextWord(e.value, e.caret));
  }

  lemma BytesBefore(before: seq<Scalar>, after: seq<Scalar>, rest: seq<Scalar>, k: nat)
    requires |rest| <= |after| && after[|after| - |rest|..] == rest && k == |before| + |after| - |rest|
    ensures |EncodeAll((before + after)[..k])| + |EncodeAll(rest)| == |EncodeAll(before) + EncodeAll(after)|
  {
    assert (before + after)[..k] + rest == before + after;
    EncodeAllJoins((before + after)[..k], rest);
    EncodeAllJoins(before, after);
  }

  lemma SelectAgrees(l: Line, limit: nat, e: Editor)
    requires e == EditorOf(l, limit)
    ensures Agrees(Edited(e.(allSelected := true, caret := |e.value|), false),
      Outcome(Line(l.before + l.after, [], true), false), limit)
  {
    EncodeAllJoins(l.before, l.after);
    assert EncodeAll(l.before + l.after) + EncodeAll([]) == EncodeAll(l.before + l.after);
  }

  lemma DeletesAgree(l: Line, limit: nat, e: Editor, key: Key)
    requires Sound(e) && e == EditorOf(l, limit) && !l.marked
    requires key.BackspaceKey? || key.DeleteKey? || key.DeleteWordBack? || key.DeleteWordOn? || key.DeleteStart?
             || key.DeleteEnd?
    ensures Agrees(Press(e, key), Edit(l, limit, key), limit)
  {
    match key
    case BackspaceKey => BackOneAgrees(l, limit, e, if l.before == [] then [] else l.before[..|l.before| - 1]);
    case DeleteKey => OnOneAgrees(l, limit, e, if l.after == [] then [] else l.after[1..]);
    case DeleteWordBack => BackWordAgrees(l, limit, e, WithoutLastWord(l.before));
    case DeleteWordOn => OnWordAgrees(l, limit, e, WithoutFirstWord(l.after));
    case DeleteStart => BackAgrees(l, limit, [], 0);
    case DeleteEnd => OnAgrees(l, limit, [], |e.value|);
  }

  lemma MotionsAgree(l: Line, limit: nat, e: Editor, key: Key)
    requires Sound(e) && e == EditorOf(l, limit) && (key.Left? || key.Right?)
    ensures Agrees(Press(e, key), Edit(l, limit, key), limit)
  {
    match key
    case Left => LeftAgrees(l, limit, e, if l.before == [] then 0 else |l.before| - 1);
    case Right => RightAgrees(l, limit, e, if l.after == [] then |l.before| else |l.before| + 1);
  }

  lemma WordMotionsAgree(l: Line, limit: nat, e: Editor, key: Key)
    requires Sound(e) && e == EditorOf(l, limit) && (key.WordLeft? || key.WordRight?)
    ensures Agrees(Press(e, key), Edit(l, limit, key), limit)
  {
    match key
    case WordLeft => WordLeftAgrees(l, limit, e, |WithoutLastWord(l.before)|);
    case WordRight => WordRightAgrees(l, limit, e, |l.before| + |l.after| - |WithoutFirstWord(l.after)|);
  }

  lemma JumpsAgree(l: Line, limit: nat, e: Editor, key: Key)
    requires Sound(e) && e == EditorOf(l, limit) && (key.Home? || key.End? || key.SelectAll?)
    ensures Agrees(Press(e, key), Edit(l, limit, key), limit)
  {
    EdgesAgree(l, limit);
    SelectAgrees(l, limit, e);
  }

  /** Every key does with the bytes what it does with the code points, and reports a change when that one does. */
  lemma PressAgrees(l: Line, limit: nat, e: Editor, key: Key)
    requires Sound(e) && e == EditorOf(l, limit)
    ensures Agrees(Press(e, key), Edit(l, limit, key), limit)
  {
    if key.Type? {
      TypeAgrees(l, limit, key.codepoint);
    } else if key.Paste? {
      PasteAgrees(l, limit, key.text);
    } else if key.Left? || key.Right? {
      MotionsAgree(l, limit, e, key);
    } else if key.WordLeft? || key.WordRight? {
      WordMotionsAgree(l, limit, e, key);
    } else if key.Home? || key.End? || key.SelectAll? {
      JumpsAgree(l, limit, e, key);
    } else if l.marked {
      MarkedAgrees(l, limit, e, key);
    } else {
      DeletesAgree(l, limit, e, key);
    }
  }

  // ---- Every run ----

  /** What the user sees of an editor. */
  function LineOf(e: Editor): Line
    requires Sound(e)
  {
    CutsAtBoundary(e.value, e.caret);
    Line(DecodeAll(e.value[..e.caret]), DecodeAll(e.value[e.caret..]), e.allSelected)
  }

  lemma SeesAll(e: Editor)
    requires Sound(e)
    ensures EditorOf(LineOf(e), e.maximumBytes) == e
  {
    CutsAtBoundary(e.value, e.caret);
    assert e.value[..e.caret] + e.value[e.caret..] == e.value;
  }

  lemma ShowsAll(l: Line, limit: nat)
    requires Sound(EditorOf(l, limit))
    ensures LineOf(EditorOf(l, limit)) == l
  {
    var e := EditorOf(l, limit);
    EncodedIsValid(l.before);
    EncodedIsValid(l.after);
    assert e.value[..e.caret] == EncodeAll(l.before) && e.value[e.caret..] == EncodeAll(l.after);
  }

  lemma KeyIsSimple(e: Editor, key: Key)
    requires Sound(e)
    ensures Sound(Press(e, key).editor) && LineOf(Press(e, key).editor) == Edit(LineOf(e), e.maximumBytes, key).line
    ensures Press(e, key).changed == Edit(LineOf(e), e.maximumBytes, key).changed
  {
    SeesAll(e);
    PressAgrees(LineOf(e), e.maximumBytes, e, key);
    PressIsSound(e, key);
    ShowsAll(Edit(LineOf(e), e.maximumBytes, key).line, e.maximumBytes);
  }

  /** The editor over bytes is the editor over code points: whatever is typed, pasted, deleted, marked or moved, the
      user sees the same, and the value is its encoding. */
  lemma {:induction false} KeysAreSimple(e: Editor, keys: seq<Key>)
    requires Sound(e)
    ensures LineOf(PressAll(e, keys)) == EditAll(LineOf(e), e.maximumBytes, keys)
    ensures var seen := EditAll(LineOf(e), e.maximumBytes, keys);
      PressAll(e, keys).value == EncodeAll(seen.before + seen.after)
    decreases keys
  {
    if keys == [] {
      SeesAll(e);
      EncodeAllJoins(LineOf(e).before, LineOf(e).after);
    } else {
      KeyIsSimple(e, keys[0]);
      PressIsSound(e, keys[0]);
      KeysAreSimple(Press(e, keys[0]).editor, keys[1..]);
    }
  }

  /** A field opens on the encoded code points, with nothing marked and the caret at the end, if they fit. */
  lemma OpensOn(scalars: seq<Scalar>, maximumBytes: nat)
    ensures Sound(Open(EncodeAll(scalars), maximumBytes))
    ensures LineOf(Open(EncodeAll(scalars), maximumBytes))
      == Line(if |EncodeAll(scalars)| <= maximumBytes then scalars else [], [], false)
  {
    EncodedIsValid(scalars);
    var fits := |EncodeAll(scalars)| <= maximumBytes;
    OpenIsSound(EncodeAll(scalars), maximumBytes);
    var l := Line(if fits then scalars else [], [], false);
    assert EncodeAll(l.before) + [] == EncodeAll(l.before);
    assert Open(EncodeAll(scalars), maximumBytes) == EditorOf(l, maximumBytes);
    ShowsAll(l, maximumBytes);
  }
}
