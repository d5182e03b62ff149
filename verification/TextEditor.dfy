/** The text field's editor: a value, a caret and a possible selection of everything. */
module TextEditor {
  import opened Octets
  import opened Utf8

  datatype Editor = Editor(value: Text, caret: nat, maximumBytes: nat, allSelected: bool)

  /** A call's effect and whether it reports a change. */
  datatype Edited = Edited(editor: Editor, changed: bool)

  /** The value is valid UTF-8 within its limit and the caret is on a code point boundary. */
  predicate Sound(e: Editor) {
    && Valid(e.value) && |e.value| <= e.maximumBytes && Boundary(e.value, e.caret)
    && (e.allSelected ==> e.caret == |e.value|)
  }

  /** An initial value that is not valid or too long is dropped. */
  function Open(initial: Text, maximumBytes: nat): Editor {
    var value := if Valid(initial) && |initial| <= maximumBytes then initial else [];
    Editor(value, |value|, maximumBytes, false)
  }

  function ReplaceSelection(e: Editor, text: Text): Edited
    requires e.caret <= |e.value|
  {
    var retained := if e.allSelected then 0 else |e.value|;
    if !Valid(text) || retained + |text| > e.maximumBytes then Edited(e, false)
    else if e.allSelected then Edited(Editor(text, |text|, e.maximumBytes, false), true)
    else Edited(e.(value := e.value[..e.caret] + text + e.value[e.caret..], caret := e.caret + |text|), text != [])
  }

  function Insert(e: Editor, codepoint: nat): Edited
    requires e.caret <= |e.value|
  {
    var encoded := EncodeUtf8(codepoint);
    if encoded == [] then Edited(e, false) else ReplaceSelection(e, encoded)
  }

  /** Removes what lies between two positions and leaves the caret at the first. */
  function Remove(e: Editor, first: nat, last: nat): Editor
    requires first <= last <= |e.value|
  {
    e.(value := e.value[..first] + e.value[last..], caret := first)
  }

  function ClearAll(e: Editor): Edited {
    Edited(Editor([], 0, e.maximumBytes, false), e.value != [])
  }

  function Backspace(e: Editor): Edited
    requires Sound(e)
  {
    if e.allSelected then ClearAll(e)
    else
      var previous := PreviousCodepoint(e.value, e.caret);
      if previous == e.caret then Edited(e, false)
      else
        ScansFindNeighbours(e.value, e.caret);
        Edited(Remove(e, previous, e.caret), true)
  }

  function DeleteForward(e: Editor): Edited
    requires Sound(e)
  {
    if e.allSelected then ClearAll(e)
    else
      var next := NextCodepoint(e.value, e.caret);
      if next == e.caret then Edited(e, false)
      else
        ScansFindNeighbours(e.value, e.caret);
        Edited(Remove(e, e.caret, next), true)
  }

  function DeleteWordBackward(e: Editor): Edited
    requires Sound(e)
  {
    if e.allSelected then ClearAll(e)
    else
      var beginning := PreviousWord(e.value, e.caret);
      if beginning == e.caret then Edited(e, false) else Edited(Remove(e, beginning, e.caret), true)
  }

  function DeleteWordForward(e: Editor): Edited
    requires Sound(e)
  {
    if e.allSelected then ClearAll(e)
    else
      var ending := NextWord(e.value, e.caret);
      if ending == e.caret then Edited(e, false) else Edited(Remove(e, e.caret, ending), true)
  }

  function DeleteToStart(e: Editor): Edited
    requires Sound(e)
  {
    if e.allSelected then ClearAll(e)
    else if e.caret == 0 then Edited(e, false)
    else Edited(Remove(e, 0, e.caret), true)
  }

  function DeleteToEnd(e: Editor): Edited
    requires Sound(e)
  {
    if e.allSelected then ClearAll(e)
    else if e.caret == |e.value| then Edited(e, false)
    else Edited(Remove(e, e.caret, |e.value|), true)
  }

  function MoveTo(e: Editor, caret: nat): Edited {
    Edited(e.(caret := caret, allSelected := false), false)
  }

  datatype Key =
    | Type(codepoint: nat) | Paste(text: Text) | BackspaceKey | DeleteKey
    | DeleteWordBack | DeleteWordOn | DeleteStart | DeleteEnd
    | Left | Right | WordLeft | WordRight | Home | End | SelectAll

  function Press(e: Editor, key: Key): Edited
    requires Sound(e)
  {
    match key
    case Type(codepoint) => Insert(e, codepoint)
    case Paste(text) => ReplaceSelection(e, text)
    case BackspaceKey => Backspace(e)
    case DeleteKey => DeleteForward(e)
    case DeleteWordBack => DeleteWordBackward(e)
    case DeleteWordOn => DeleteWordForward(e)
    case DeleteStart => DeleteToStart(e)
    case DeleteEnd => DeleteToEnd(e)
    case Left => MoveTo(e, PreviousCodepoint(e.value, e.caret))
    case Right => MoveTo(e, NextCodepoint(e.value, e.caret))
    case WordLeft => MoveTo(e, PreviousWord(e.value, e.caret))
    case WordRight => MoveTo(e, NextWord(e.value, e.caret))
    case Home => MoveTo(e, 0)
    case End => MoveTo(e, |e.value|)
    case SelectAll => Edited(e.(allSelected := true, caret := |e.value|), false)
  }

  // ---- The invariant over every sequence of keys ----

  lemma SpliceIsValid(value: Text, caret: nat, text: Text)
    requires Valid(value) && Boundary(value, caret) && Valid(text)
    ensures Valid(value[..caret] + text + value[caret..])
    ensures Boundary(value[..caret] + text + value[caret..], caret + |text|)
  {
    CutsAtBoundary(value, caret);
    ValidJoins(value[..caret], text);
    ValidJoins(value[..caret] + text, value[caret..]);
  }

  lemma RemoveIsValid(e: Editor, first: nat, last: nat)
    requires Sound(e) && !e.allSelected && first <= last && Boundary(e.value, first) && Boundary(e.value, last)
    ensures Sound(Remove(e, first, last))
  {
    CutsAtBoundary(e.value, first);
    CutsAtBoundary(e.value, last);
    ValidJoins(e.value[..first], e.value[last..]);
  }

  lemma EncodedIsValidText(codepoint: nat)
    ensures Valid(EncodeUtf8(codepoint)) && (EncodeUtf8(codepoint) != [] <==> IsScalar(codepoint))
  {
    if IsScalar(codepoint) {
      EncodedIsHead(codepoint, []);
      assert EncodeUtf8(codepoint) + [] == EncodeUtf8(codepoint);
      assert EncodeUtf8(codepoint)[|EncodeUtf8(codepoint)|..] == [];
    }
  }

  lemma ReplaceIsSound(e: Editor, text: Text)
    requires Sound(e)
    ensures Sound(ReplaceSelection(e, text).editor)
  {
    if Valid(text) && !e.allSelected { SpliceIsValid(e.value, e.caret, text); }
  }

  /** What is removed around the caret lies between boundaries. */
  lemma RemovalIsSound(e: Editor, key: Key)
    requires Sound(e) && !key.Type? && !key.Paste?
    ensures Sound(Press(e, key).editor) && Press(e, key).editor.maximumBytes == e.maximumBytes
  {
    ScansFindNeighbours(e.value, e.caret);
    StartIsBoundary(e.value);
    if !e.allSelected {
      match key
      case BackspaceKey => RemoveIsValid(e, PreviousCodepoint(e.value, e.caret), e.caret);
      case DeleteKey => RemoveIsValid(e, e.caret, NextCodepoint(e.value, e.caret));
      case DeleteWordBack => RemoveIsValid(e, PreviousWord(e.value, e.caret), e.caret);
      case DeleteWordOn => RemoveIsValid(e, e.caret, NextWord(e.value, e.caret));
      case DeleteStart => RemoveIsValid(e, 0, e.caret);
      case DeleteEnd => RemoveIsValid(e, e.caret, |e.value|);
      case _ =>
    }
  }

  lemma PressIsSound(e: Editor, key: Key)
    requires Sound(e)
    ensures Sound(Press(e, key).editor) && Press(e, key).editor.maximumBytes == e.maximumBytes
  {
    match key
    case Type(codepoint) =>
      EncodedIsValidText(codepoint);
      ReplaceIsSound(e, EncodeUtf8(codepoint));
    case Paste(text) => ReplaceIsSound(e, text);
    case _ => RemovalIsSound(e, key);
  }

  /** Whatever is typed, pasted, deleted or moved, the editor stays sound. */
  function PressAll(e: Editor, keys: seq<Key>): (r: Editor)
    requires Sound(e)
    ensures Sound(r) && r.maximumBytes == e.maximumBytes
    decreases keys
  {
    if keys == [] then e
    else
      PressIsSound(e, keys[0]);
      PressAll(Press(e, keys[0]).editor, keys[1..])
  }

  lemma OpenIsSound(initial: Text, maximumBytes: nat)
    ensures Sound(Open(initial, maximumBytes))
    ensures Open(initial, maximumBytes).value == initial ||
      (Open(initial, maximumBytes).value == [] && (!Valid(initial) || |initial| > maximumBytes))
  {
  }

  // ---- What single keys do ----

  /** Typing succeeds exactly for scalar values that still fit. */
  lemma InsertSucceedsIff(e: Editor, codepoint: nat)
    requires Sound(e)
    ensures Insert(e, codepoint).changed <==>
      IsScalar(codepoint) && (if e.allSelected then 0 else |e.value|) + |EncodeUtf8(codepoint)| <= e.maximumBytes
    ensures !Insert(e, codepoint).changed ==> Insert(e, codepoint).editor == e
  {
    EncodedIsValidText(codepoint);
  }

  /** Backspace takes back what was just typed: value and caret are as before. */
  lemma BackspaceUndoesInsert(e: Editor, codepoint: nat)
    requires Sound(e) && !e.allSelected && Insert(e, codepoint).changed
    ensures Sound(Insert(e, codepoint).editor)
    ensures Backspace(Insert(e, codepoint).editor) == Edited(e, true)
  {
    EncodedIsValidText(codepoint);
    var encoded := EncodeUtf8(codepoint);
    ReplaceIsSound(e, encoded);
    var typed := Insert(e, codepoint).editor;
    OneCodepointBack(e.value, e.caret, encoded);
    assert typed.value[..e.caret] == e.value[..e.caret] && typed.value[typed.caret..] == e.value[e.caret..];
    assert e.value[..e.caret] + e.value[e.caret..] == e.value;
  }

  /** A single sequence spliced in at a boundary has no boundary inside, and starts at one. */
  lemma SplicedBoundaries(value: Text, caret: nat, encoded: Text, text: Text)
    requires Valid(value) && Boundary(value, caret) && encoded != [] && HeadLength(encoded) == |encoded|
    requires text == value[..caret] + encoded + value[caret..]
    ensures forall j :: caret < j < caret + |encoded| ==> !Boundary(text, j)
    ensures Boundary(text, caret)
  {
    forall j | caret < j < caret + |encoded| ensures !Boundary(text, j) {
      InsideHead(encoded, j - caret);
      assert text[j] == encoded[j - caret];
    }
    InsideHead(encoded, 0);
    assert text[caret] == encoded[0];
  }

  lemma OneCodepointBack(value: Text, caret: nat, encoded: Text)
    requires Valid(value) && Boundary(value, caret) && encoded != [] && HeadLength(encoded) == |encoded|
    ensures PreviousCodepoint(value[..caret] + encoded + value[caret..], caret + |encoded|) == caret
  {
    var text := value[..caret] + encoded + value[caret..];
    assert Valid(encoded) by { assert encoded[|encoded|..] == []; }
    SpliceIsValid(value, caret, encoded);
    SplicedBoundaries(value, caret, encoded, text);
    ScansFindNeighbours(text, caret + |encoded|);
  }

  /** Deleting and then moving sideways never reaches into a code point: each removes exactly one. */
  lemma DeletesOneCodepoint(e: Editor)
    requires Sound(e) && !e.allSelected
    ensures e.caret > 0 ==>
      Backspace(e).changed &&
        Backspace(e).editor.value == e.value[..PreviousCodepoint(e.value, e.caret)] + e.value[e.caret..]
    ensures e.caret < |e.value| ==>
      DeleteForward(e).changed &&
        DeleteForward(e).editor.value == e.value[..e.caret] + e.value[NextCodepoint(e.value, e.caret)..]
    ensures e.caret > 0 ==>
      HeadLength(e.value[PreviousCodepoint(e.value, e.caret)..]) == e.caret - PreviousCodepoint(e.value, e.caret)
    ensures e.caret < |e.value| ==> HeadLength(e.value[e.caret..]) == NextCodepoint(e.value, e.caret) - e.caret
  {
    ScansFindNeighbours(e.value, e.caret);
    if e.caret > 0 {
      ScansInvert(e.value, e.caret);
      HeadReachesNext(e.value, PreviousCodepoint(e.value, e.caret));
    }
    if e.caret < |e.value| { HeadReachesNext(e.value, e.caret); }
  }

  lemma EndsAtBoundary(text: Text, k: nat, n: nat)
    requires Valid(text) && k < |text| && Valid(text[k..]) && n == HeadLength(text[k..])
    ensures Boundary(text, k + n)
  {
    var after := text[k..][n..];
    if after != [] {
      InsideHead(after, 0);
      assert after[0] == text[k + n];
    }
  }

  /** From a boundary the next one is where the sequence ends. */
  lemma HeadReachesNext(text: Text, k: nat)
    requires Valid(text) && Boundary(text, k) && k < |text|
    ensures HeadLength(text[k..]) == NextCodepoint(text, k) - k
  {
    CutsAtBoundary(text, k);
    var rest := text[k..];
    var n := HeadLength(rest);
    ScansFindNeighbours(text, k);
    var next := NextCodepoint(text, k);
    forall j | k < j < k + n ensures !Boundary(text, j) {
      InsideHead(rest, j - k);
      assert text[j] == rest[j - k];
    }
    EndsAtBoundary(text, k, n);
  }

  // ---- The object ----

  class TextInputEditor {
    var value: Text
    var caret: nat
    const maximumBytes: nat
    var allSelected: bool

    constructor (initial: Text, maximumBytes: nat)
      ensures Value() == Open(initial, maximumBytes) && Sound(Value())
    {
      this.maximumBytes := maximumBytes;
      allSelected, value, caret := false, [], 0;
      new;
      var ok := CheckUtf8(initial);
      if ok && |initial| <= maximumBytes { value, caret := initial, |initial|; }
    }

    function Value(): Editor
      reads this
    {
      Editor(value, caret, maximumBytes, allSelected)
    }

    method Replace(text: Text) returns (changed: bool)
      requires Sound(Value())
      modifies this
      ensures Edited(Value(), changed) == ReplaceSelection(old(Value()), text) && Sound(Value())
    {
      ReplaceIsSound(Value(), text);
      var ok := CheckUtf8(text);
      if !ok { return false; }
      var retained := if allSelected then 0 else |value|;
      if retained + |text| > maximumBytes { return false; }
      if allSelected {
        value, caret, allSelected := text, |text|, false;
        return true;
      }
      value, caret := value[..caret] + text + value[caret..], caret + |text|;
      changed := text != [];
    }

    method InsertCodepoint(codepoint: nat) returns (changed: bool)
      requires Sound(Value())
      modifies this
      ensures Edited(Value(), changed) == Insert(old(Value()), codepoint) && Sound(Value())
    {
      var encoded := EncodeUtf8(codepoint);
      if encoded == [] { return false; }
      changed := Replace(encoded);
    }

    method RemoveAll() returns (changed: bool)
      modifies this
      ensures Edited(Value(), changed) == ClearAll(old(Value())) && Sound(Value())
    {
      changed := value != [];
      value, caret, allSelected := [], 0, false;
    }

    method Erase(first: nat, last: nat)
      requires Sound(Value()) && !allSelected && first <= last && Boundary(value, first) && Boundary(value, last)
      modifies this
      ensures Value() == Remove(old(Value()), first, last) && Sound(Value())
    {
      RemoveIsValid(Value(), first, last);
      value, caret := value[..first] + value[last..], first;
    }

    method PressBackspace() returns (changed: bool)
      requires Sound(Value())
      modifies this
      ensures Edited(Value(), changed) == Backspace(old(Value())) && Sound(Value())
    {
      if allSelected {
        changed := RemoveAll();
        return;
      }
      ScansFindNeighbours(value, caret);
      var previous := FindPrevious(value, caret);
      if previous == caret { return false; }
      Erase(previous, caret);
      changed := true;
    }

    method PressDelete() returns (changed: bool)
      requires Sound(Value())
      modifies this
      ensures Edited(Value(), changed) == DeleteForward(old(Value())) && Sound(Value())
    {
      if allSelected {
        changed := RemoveAll();
        return;
      }
      ScansFindNeighbours(value, caret);
      var next := FindNext(value, caret);
      if next == caret { return false; }
      Erase(caret, next);
      changed := true;
    }

    method PressDeleteWord(forward: bool) returns (changed: bool)
      requires Sound(Value())
      modifies this
      ensures Edited(Value(), changed) ==
        (if forward then DeleteWordForward(old(Value())) else DeleteWordBackward(old(Value()))) && Sound(Value())
    {
      if allSelected {
        changed := RemoveAll();
        return;
      }
      if forward {
        var ending := FindNextWord(value, caret);
        if ending == caret { return false; }
        Erase(caret, ending);
      } else {
        var beginning := FindPreviousWord(value, caret);
        if beginning == caret { return false; }
        Erase(beginning, caret);
      }
      changed := true;
    }

    method PressDeleteToEdge(forward: bool) returns (changed: bool)
      requires Sound(Value())
      modifies this
      ensures Edited(Value(), changed) ==
        (if forward then DeleteToEnd(old(Value())) else DeleteToStart(old(Value()))) && Sound(Value())
    {
      if allSelected {
        changed := RemoveAll();
        return;
      }
      StartIsBoundary(value);
      if forward {
        if caret == |value| { return false; }
        Erase(caret, |value|);
      } else {
        if caret == 0 { return false; }
        Erase(0, caret);
      }
      changed := true;
    }

    method MarkAll()
      requires Sound(Value())
      modifies this`caret, this`allSelected
      ensures Value() == Press(old(Value()), SelectAll).editor && Sound(Value())
    {
      allSelected, caret := true, |value|;
    }

    method MoveCaret(key: Key)
      requires Sound(Value()) && (key.Left? || key.Right? || key.WordLeft? || key.WordRight? || key.Home? || key.End?)
      modifies this`caret, this`allSelected
      ensures Value() == Press(old(Value()), key).editor && Sound(Value())
    {
      PressIsSound(Value(), key);
      allSelected := false;
      match key
      case Left => caret := FindPrevious(value, caret);
      case Right => caret := FindNext(value, caret);
      case WordLeft => caret := FindPreviousWord(value, caret);
      case WordRight => caret := FindNextWord(value, caret);
      case Home => caret := 0;
      case End => caret := |value|;
    }
  }
}
