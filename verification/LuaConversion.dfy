/** Reading a Lua value as JSON: it succeeds exactly on the values that represent a tree within the limits. */
module LuaConversion {
  import opened LuaHeap

  datatype Error = TooDeep | TooManyItems | StringTooLong | NonFiniteNumber | Cycle | MixedTable | SparseTable
    | UnsupportedKey | UnsupportedType | IntegerOutOfRange | InvalidUtf8 | RecordTooLarge

  datatype Conversion = Converted(json: Json, count: nat) | Failed(error: Error)

  /** Where a conversion stands: how deep, and inside which tables. */
  datatype Frame = Frame(heap: Heap, limit: nat, depth: nat, active: set<nat>)

  datatype Kind = Empty | AsArray | AsObject

  datatype Scan =
    | Scanned(kind: Kind, largest: int, entries: nat, members: seq<Member>, total: nat)
    | Stuck(error: Error)

  datatype Elements = Elements(items: seq<Json>, total: nat) | Broken(error: Error)

  function Insert(members: seq<Member>, m: Member): seq<Member> {
    if members == [] || Less(m.key, members[0].key) then [m] + members
    else if m.key == members[0].key then [m] + members[1..]
    else [members[0]] + Insert(members[1..], m)
  }

  // ---- The conversion ----

  predicate Ready(f: Frame) {
    Valid(f.heap) && f.depth <= MAX_DEPTH
  }

  function Convert(f: Frame, v: Value, total: nat): Conversion
    requires Ready(f) && InHeap(f.heap, v)
    decreases MAX_DEPTH - f.depth, 3, 0
  {
    match v
    case Nil => Converted(Null, total)
    case NullSentinel => Converted(Null, total)
    case Boolean(truth) => Converted(Bool(truth), total)
    case Integer(integer) => Converted(Int(integer), total)
    case Real(number) => if number.Finite? then Converted(Float(number), total) else Failed(NonFiniteNumber)
    case Str(bytes) => if |bytes| > MAX_STRING then Failed(StringTooLong) else Converted(Text(bytes), total)
    case Opaque => Failed(UnsupportedType)
    case Ref(r) => ConvertTable(f, r, total)
  }

  function ConvertTable(f: Frame, r: nat, total: nat): Conversion
    requires Ready(f) && r < |f.heap.tables|
    decreases MAX_DEPTH - f.depth, 2, 0
  {
    if f.depth >= MAX_DEPTH then Failed(TooDeep)
    else if r in f.active then Failed(Cycle)
    else
      var inner := f.(active := f.active + {r});
      var table := f.heap.tables[r];
      Finish(inner, table, r in f.heap.marks, ScanAll(inner, table, Scanned(Empty, 0, 0, [], total)))
  }

  function Finish(f: Frame, table: Table, marked: bool, s: Scan): Conversion
    requires Ready(f) && f.depth < MAX_DEPTH && ValidTable(f.heap, table)
    decreases MAX_DEPTH - f.depth, 1, |table| + 1
  {
    match s
    case Stuck(e) => Failed(e)
    case Scanned(kind, largest, entries, members, total) =>
      match kind
      case Empty => Converted(if marked then Array([]) else Object([]), total)
      case AsObject => Converted(Object(members), total)
      case AsArray =>
        if largest != entries then Failed(SparseTable)
        else
          match ConvertEach(f, table, 1, entries, Elements([], total))
          case Broken(e) => Failed(e)
          case Elements(items, all) => Converted(Array(items), all)
  }

  function WithMember(s: Scan, name: string, c: Conversion): Scan
    requires s.Scanned?
  {
    if c.Failed? then Stuck(c.error)
    else Scanned(AsObject, s.largest, s.entries + 1, Insert(s.members, Member(name, c.json)), c.count)
  }

  /** One entry of the first traversal: array elements are only counted, object members are converted. */
  function ScanOne(f: Frame, e: Entry, s: Scan): Scan
    requires Ready(f) && f.depth < MAX_DEPTH && InHeap(f.heap, e.value) && s.Scanned?
    decreases MAX_DEPTH - f.depth, 1, 0
  {
    if s.total + 1 > f.limit then Stuck(TooManyItems)
    else
      match e.key
      case IntKey(index) =>
        if s.kind.AsObject? then Stuck(MixedTable)
        else if index < 1 then Stuck(SparseTable)
        else Scanned(AsArray, if index > s.largest then index else s.largest, s.entries + 1, s.members, s.total + 1)
      case StrKey(name) =>
        if s.kind.AsArray? then Stuck(MixedTable)
        else if |name| > MAX_KEY then Stuck(StringTooLong)
        else WithMember(s, name, Convert(f.(depth := f.depth + 1), e.value, s.total + 1))
      case OtherKey(_) => Stuck(UnsupportedKey)
  }

  function ScanAll(f: Frame, rest: seq<Entry>, s: Scan): Scan
    requires Ready(f) && f.depth < MAX_DEPTH && forall i :: 0 <= i < |rest| ==> InHeap(f.heap, rest[i].value)
    decreases MAX_DEPTH - f.depth, 1, |rest|
  {
    if rest == [] || s.Stuck? then s else ScanAll(f, rest[1..], ScanOne(f, rest[0], s))
  }

  lemma {:induction false} LookupInHeap(h: Heap, table: Table, key: Key)
    requires ValidTable(h, table)
    ensures InHeap(h, Lookup(table, key))
  {
    if Lookup(table, key) != Nil {
      var i := LookupIsEntry(table, key);
    }
  }

  function ConvertEach(f: Frame, table: Table, index: nat, last: nat, done: Elements): Elements
    requires Ready(f) && f.depth < MAX_DEPTH && ValidTable(f.heap, table) && index <= last + 1
    decreases MAX_DEPTH - f.depth, 0, last + 1 - index
  {
    if index > last || done.Broken? then done
    else
      LookupInHeap(f.heap, table, IntKey(index));
      match Convert(f.(depth := f.depth + 1), Lookup(table, IntKey(index)), done.total)
      case Failed(e) => Broken(e)
      case Converted(j, total) => ConvertEach(f, table, index + 1, last, Elements(done.items + [j], total))
  }

  // ---- Whatever is accepted is represented ----

  lemma {:induction false} InsertNew(members: seq<Member>, m: Member)
    requires Ascending(members) && !HasKey(members, m.key)
    ensures Ascending(Insert(members, m)) && |Insert(members, m)| == |members| + 1
    ensures TotalOf(Insert(members, m)) == TotalOf(members) + Items(m.value)
    ensures forall x :: x in Insert(members, m) <==> x == m || x in members
  {
    if members == [] {
    } else if Less(m.key, members[0].key) {
      forall x | x in members ensures Less(m.key, x.key) {
        if x != members[0] { LessIsTransitive(m.key, members[0].key, x.key); }
      }
      AscendingCons(m, members);
      assert ([m] + members)[1..] == members;
    } else {
      var rest := members[1..];
      assert members == [members[0]] + rest;
      assert members[0].key != m.key;
      AscendingTail(members);
      forall i | 0 <= i < |rest| ensures rest[i].key != m.key {
        assert rest[i] == members[i + 1];
      }
      InsertNew(rest, m);
      LessIsTotal(m.key, members[0].key);
      AscendingCons(members[0], Insert(rest, m));
      assert ([members[0]] + Insert(rest, m))[1..] == Insert(rest, m);
    }
  }

  /** The conversion of this value, should it succeed, yields the tree the value represents and counts it. */
  ghost predicate SoundAt(f: Frame, v: Value, total: nat)
    requires Ready(f) && InHeap(f.heap, v)
  {
    match Convert(f, v, total)
    case Failed(_) => true
    case Converted(j, all) =>
      Represents(f.heap, v, j) && Within(j, MAX_DEPTH - f.depth) && all == total + Items(j) && all <= f.limit
  }

  ghost predicate MemberFrom(f: Frame, done: seq<Entry>, m: Member)
    requires f.depth < MAX_DEPTH
  {
    exists k :: 0 <= k < |done| && done[k].key == StrKey(m.key) && Represents(f.heap, done[k].value, m.value)
      && Within(m.value, MAX_DEPTH - f.depth - 1)
  }

  ghost predicate GatheredArray(done: seq<Entry>, largest: int) {
    && (forall k :: 0 <= k < |done| ==> done[k].key.IntKey? && 1 <= done[k].key.index <= largest)
    && (exists k :: 0 <= k < |done| && done[k].key == IntKey(largest))
  }

  ghost predicate GatheredObject(f: Frame, done: seq<Entry>, members: seq<Member>)
    requires f.depth < MAX_DEPTH
  {
    && Ascending(members) && |members| == |done|
    && (forall k :: 0 <= k < |done| ==>
          done[k].key.StrKey? && |done[k].key.name| <= MAX_KEY && HasKey(members, done[k].key.name))
    && (forall i :: 0 <= i < |members| ==> MemberFrom(f, done, members[i]))
  }

  /** What the first traversal knows after the entries done. */
  ghost predicate Gathered(f: Frame, done: seq<Entry>, s: Scan, start: nat)
    requires f.depth < MAX_DEPTH
  {
    && s.Scanned? && s.entries == |done| && s.total <= f.limit && (s.kind.Empty? <==> done == [])
    && s.total == start + |done| + TotalOf(s.members)
    && (s.kind.Empty? ==> s.members == [] && s.largest == 0)
    && (s.kind.AsArray? ==> s.members == [] && GatheredArray(done, s.largest))
    && (s.kind.AsObject? ==> GatheredObject(f, done, s.members))
  }

  lemma GatherElement(done: seq<Entry>, e: Entry, largest: int)
    requires e.key.IntKey? && e.key.index >= 1 && (done == [] || GatheredArray(done, largest))
    ensures GatheredArray(done + [e], if done == [] || e.key.index > largest then e.key.index else largest)
  {
    var longer := done + [e];
    assert longer[|done|] == e;
    if done != [] {
      var k :| 0 <= k < |done| && done[k].key == IntKey(largest);
      assert longer[k].key == IntKey(largest);
    }
  }

  lemma MemberFromMore(f: Frame, done: seq<Entry>, e: Entry, m: Member)
    requires f.depth < MAX_DEPTH && MemberFrom(f, done, m)
    ensures MemberFrom(f, done + [e], m)
  {
    var k :| 0 <= k < |done| && done[k].key == StrKey(m.key) && Represents(f.heap, done[k].value, m.value)
      && Within(m.value, MAX_DEPTH - f.depth - 1);
    assert (done + [e])[k] == done[k];
  }

  lemma GatherMember(f: Frame, done: seq<Entry>, e: Entry, members: seq<Member>, m: Member)
    requires f.depth < MAX_DEPTH && GatheredObject(f, done, members)
    requires e.key == StrKey(m.key) && |m.key| <= MAX_KEY && forall k :: 0 <= k < |done| ==> done[k].key != e.key
    requires Represents(f.heap, e.value, m.value) && Within(m.value, MAX_DEPTH - f.depth - 1)
    ensures GatheredObject(f, done + [e], Insert(members, m)) &&
      TotalOf(Insert(members, m)) == TotalOf(members) + Items(m.value)
  {
    var longer, more := done + [e], Insert(members, m);
    forall i | 0 <= i < |members| ensures members[i].key != m.key {
      assert MemberFrom(f, done, members[i]);
    }
    InsertNew(members, m);
    assert m in more && longer[|done|] == e;
    forall k | 0 <= k < |longer|
      ensures longer[k].key.StrKey? && |longer[k].key.name| <= MAX_KEY && HasKey(more, longer[k].key.name)
    {
      if k < |done| {
        assert longer[k] == done[k];
        var i :| 0 <= i < |members| && members[i].key == done[k].key.name;
        assert members[i] in more;
      }
    }
    forall i | 0 <= i < |more| ensures MemberFrom(f, longer, more[i]) {
      assert more[i] in more;
      if more[i] != m {
        var k :| 0 <= k < |members| && members[k] == more[i];
        MemberFromMore(f, done, e, members[k]);
      }
    }
  }

  lemma ScanElementGathers(f: Frame, done: seq<Entry>, e: Entry, s: Scan, start: nat, next: Scan)
    requires Ready(f) && f.depth < MAX_DEPTH && InHeap(f.heap, e.value) && Gathered(f, done, s, start)
    requires e.key.IntKey? && next == ScanOne(f, e, s) && next.Scanned?
    ensures Gathered(f, done + [e], next, start)
  {
    GatherElement(done, e, s.largest);
  }

  lemma MemberGathers(f: Frame, done: seq<Entry>, e: Entry, s: Scan, start: nat, m: Member, total: nat)
    requires f.depth < MAX_DEPTH && Gathered(f, done, s, start) && !s.kind.AsArray?
    requires e.key == StrKey(m.key) && |m.key| <= MAX_KEY && forall k :: 0 <= k < |done| ==> done[k].key != e.key
    requires Represents(f.heap, e.value, m.value) && Within(m.value, MAX_DEPTH - f.depth - 1)
    requires total == s.total + 1 + Items(m.value) && total <= f.limit
    ensures Gathered(f, done + [e], Scanned(AsObject, s.largest, s.entries + 1, Insert(s.members, m), total), start)
  {
    assert GatheredObject(f, done, s.members);
    GatherMember(f, done, e, s.members, m);
  }

  lemma ScanMemberGathers(f: Frame, done: seq<Entry>, e: Entry, s: Scan, start: nat, next: Scan)
    requires Ready(f) && f.depth < MAX_DEPTH && InHeap(f.heap, e.value) && Gathered(f, done, s, start)
    requires forall k :: 0 <= k < |done| ==> done[k].key != e.key
    requires SoundAt(f.(depth := f.depth + 1), e.value, s.total + 1)
    requires e.key.StrKey? && next == ScanOne(f, e, s) && next.Scanned?
    ensures Gathered(f, done + [e], next, start)
  {
    var c := Convert(f.(depth := f.depth + 1), e.value, s.total + 1);
    var m := Member(e.key.name, c.json);
    assert next == Scanned(AsObject, s.largest, s.entries + 1, Insert(s.members, m), c.count);
    MemberGathers(f, done, e, s, start, m, c.count);
  }

  lemma {:induction false} ScanAllGathers(f: Frame, done: seq<Entry>, rest: seq<Entry>, s: Scan, start: nat)
    requires Ready(f) && f.depth < MAX_DEPTH && ValidTable(f.heap, done + rest) && Gathered(f, done, s, start)
    ensures forall i :: 0 <= i < |rest| ==> InHeap(f.heap, rest[i].value)
    ensures var r := ScanAll(f, rest, s); r.Scanned? ==> Gathered(f, done + rest, r, start)
    decreases MAX_DEPTH - f.depth, 1, |rest|
  {
    forall i | 0 <= i < |rest| ensures InHeap(f.heap, rest[i].value) {
      assert (done + rest)[|done| + i] == rest[i];
    }
    if rest == [] {
      assert done + rest == done;
    } else {
      var e := rest[0];
      forall k | 0 <= k < |done| ensures done[k].key != e.key {
        assert (done + rest)[k] == done[k] && (done + rest)[|done|] == e;
      }
      assert (done + [e]) + rest[1..] == done + rest;
      var next := ScanOne(f, e, s);
      if next.Scanned? {
        if e.key.IntKey? {
          ScanElementGathers(f, done, e, s, start, next);
        } else {
          ConvertIsSound(f.(depth := f.depth + 1), e.value, s.total + 1);
          ScanMemberGathers(f, done, e, s, start, next);
        }
        ScanAllGathers(f, done + [e], rest[1..], next, start);
      }
    }
  }

  // ---- Arrays: as many keys as the largest, so none is missing ----

  function Indices(table: Table): set<int> {
    set e | e in table && e.key.IntKey? :: e.key.index
  }

  lemma {:induction false} IndicesCounted(table: Table)
    requires Distinct(table) && forall k :: 0 <= k < |table| ==> table[k].key.IntKey?
    ensures |Indices(table)| == |table|
  {
    if table == [] {
      assert Indices(table) == {};
    } else {
      var rest, last := table[..|table| - 1], table[|table| - 1];
      IndicesCounted(rest);
      assert Indices(table) == Indices(rest) + {last.key.index};
      assert last.key.index !in Indices(rest);
    }
  }

  function UpTo(n: nat): (s: set<int>)
    ensures |s| == n && forall i :: i in s <==> 1 <= i <= n
  {
    if n == 0 then {} else UpTo(n - 1) + {n}
  }

  lemma FullSubset(a: set<int>, b: set<int>)
    requires a <= b && |a| == |b|
    ensures a == b
  {
    assert |b - a| == |b| - |a|;
    assert b == a + (b - a);
  }

  lemma NoneMissing(h: Heap, table: Table, marked: bool)
    requires ValidTable(h, table) && GatheredArray(table, |table|)
    ensures ArrayShape(table, |table|, marked)
  {
    var n := |table|;
    IndicesCounted(table);
    assert Indices(table) <= UpTo(n);
    FullSubset(Indices(table), UpTo(n));
    forall i | 1 <= i <= n ensures Lookup(table, IntKey(i)) != Nil {
      assert i in UpTo(n);
      var k :| 0 <= k < |table| && table[k].key.IntKey? && table[k].key.index == i;
      LookupFinds(table, k);
      assert table[k].key == IntKey(i);
    }
  }

  lemma {:induction false} TotalAppends(items: seq<Json>, j: Json)
    ensures Total(items + [j]) == Total(items) + Items(j)
  {
    if items == [] {
      assert [] + [j] == [j] && [j][1..] == [];
    } else {
      assert (items + [j])[1..] == items[1..] + [j];
      TotalAppends(items[1..], j);
    }
  }

  /** The elements converted so far. */
  ghost predicate Listed(f: Frame, table: Table, done: Elements, start: nat)
    requires f.depth < MAX_DEPTH
  {
    && done.Elements? && done.total == start + Total(done.items) && done.total <= f.limit
    && (forall i :: 1 <= i <= |done.items| ==> Represents(f.heap, Lookup(table, IntKey(i)), done.items[i - 1]))
    && (forall i :: 0 <= i < |done.items| ==> Within(done.items[i], MAX_DEPTH - f.depth - 1))
  }

  lemma ListOne(f: Frame, table: Table, done: Elements, start: nat, j: Json, total: nat)
    requires f.depth < MAX_DEPTH && Listed(f, table, done, start)
    requires Represents(f.heap, Lookup(table, IntKey(|done.items| + 1)), j) && Within(j, MAX_DEPTH - f.depth - 1)
    requires total == done.total + Items(j) && total <= f.limit
    ensures Listed(f, table, Elements(done.items + [j], total), start)
  {
    TotalAppends(done.items, j);
  }

  lemma {:induction false} EachIsListed(f: Frame, table: Table, last: nat, done: Elements, start: nat)
    requires Ready(f) && f.depth < MAX_DEPTH && ValidTable(f.heap, table) && Listed(f, table, done, start) &&
      |done.items| <= last
    ensures var r := ConvertEach(f, table, |done.items| + 1, last, done);
            r.Elements? ==> Listed(f, table, r, start) && |r.items| == last
    decreases MAX_DEPTH - f.depth, 0, last - |done.items|
  {
    var index := |done.items| + 1;
    if index <= last {
      LookupInHeap(f.heap, table, IntKey(index));
      var deeper, v := f.(depth := f.depth + 1), Lookup(table, IntKey(index));
      assert SoundAt(deeper, v, done.total) by { ConvertIsSound(deeper, v, done.total); }
      match Convert(deeper, v, done.total)
      case Failed(_) =>
      case Converted(j, total) =>
        ListOne(f, table, done, start, j, total);
        EachIsListed(f, table, last, Elements(done.items + [j], total), start);
    }
  }

  lemma ObjectIsRepresented(f: Frame, r: nat, members: seq<Member>)
    requires Ready(f) && f.depth < MAX_DEPTH && r < |f.heap.tables|
    requires GatheredObject(f, f.heap.tables[r], members) && (members == [] ==> r !in f.heap.marks)
    ensures Represents(f.heap, Ref(r), Object(members)) && Within(Object(members), MAX_DEPTH - f.depth)
  {
    var table := f.heap.tables[r];
    forall i | 0 <= i < |members|
      ensures Lookup(table, StrKey(members[i].key)) != Nil
      ensures Represents(f.heap, Lookup(table, StrKey(members[i].key)), members[i].value)
      ensures Within(members[i].value, MAX_DEPTH - f.depth - 1)
    {
      assert MemberFrom(f, table, members[i]);
      var k :| 0 <= k < |table| && table[k].key == StrKey(members[i].key) &&
        Represents(f.heap, table[k].value, members[i].value)
        && Within(members[i].value, MAX_DEPTH - f.depth - 1);
      LookupFinds(table, k);
    }
  }

  lemma ArrayIsRepresented(f: Frame, r: nat, items: seq<Json>, start: nat, total: nat)
    requires Ready(f) && f.depth < MAX_DEPTH && r < |f.heap.tables|
    requires var table := f.heap.tables[r];
             ArrayShape(table, |items|, r in f.heap.marks) && Listed(f, table, Elements(items, total), start)
    ensures Represents(f.heap, Ref(r), Array(items)) && Within(Array(items), MAX_DEPTH - f.depth)
  {}

  /** The active set plays no part in what a success means. */
  lemma FinishIsSound(f: Frame, r: nat, s: Scan, start: nat)
    requires Ready(f) && f.depth < MAX_DEPTH && r < |f.heap.tables| && Gathered(f, f.heap.tables[r], s, start)
    ensures match Finish(f, f.heap.tables[r], r in f.heap.marks, s)
            case Failed(_) => true
            case Converted(j, all) =>
              Represents(f.heap, Ref(r), j) && Within(j, MAX_DEPTH - f.depth) && all == start + Items(j) &&
                all <= f.limit
    decreases MAX_DEPTH - f.depth, 1, |f.heap.tables[r]| + 1
  {
    var table, marked := f.heap.tables[r], r in f.heap.marks;
    match s.kind
    case Empty => assert table == [];
    case AsObject => ObjectIsRepresented(f, r, s.members);
    case AsArray =>
      if s.largest == s.entries {
        NoneMissing(f.heap, table, marked);
        EachIsListed(f, table, s.entries, Elements([], s.total), s.total);
        var each := ConvertEach(f, table, 1, s.entries, Elements([], s.total));
        if each.Elements? { ArrayIsRepresented(f, r, each.items, s.total, each.total); }
      }
  }

  /** A traversal of the whole table from its start. */
  function ScanFrom(f: Frame, r: nat, total: nat): Scan
    requires Ready(f) && f.depth < MAX_DEPTH && r < |f.heap.tables|
  {
    ScanAll(f, f.heap.tables[r], Scanned(Empty, 0, 0, [], total))
  }

  lemma TableIsSound(f: Frame, r: nat, total: nat)
    requires Ready(f) && f.depth < MAX_DEPTH && r < |f.heap.tables| && total <= f.limit
    ensures match Finish(f, f.heap.tables[r], r in f.heap.marks, ScanFrom(f, r, total))
            case Failed(_) => true
            case Converted(j, all) =>
              Represents(f.heap, Ref(r), j) && Within(j, MAX_DEPTH - f.depth) && all == total + Items(j) &&
                all <= f.limit
    decreases MAX_DEPTH - f.depth, 2, 0
  {
    var table := f.heap.tables[r];
    assert [] + table == table;
    ScanAllGathers(f, [], table, Scanned(Empty, 0, 0, [], total), total);
    var s := ScanFrom(f, r, total);
    if s.Scanned? { FinishIsSound(f, r, s, total); }
  }

  /** A conversion that succeeds yields the tree the value represents, within the limits, and counts its items. */
  lemma {:induction false} ConvertIsSound(f: Frame, v: Value, total: nat)
    requires Ready(f) && InHeap(f.heap, v) && total <= f.limit
    ensures SoundAt(f, v, total)
    decreases MAX_DEPTH - f.depth, 3, 0
  {
    if v.Ref? {
      if f.depth < MAX_DEPTH && v.ref !in f.active { TableIsSound(f.(active := f.active + {v.ref}), v.ref, total); }
    }
  }
}
