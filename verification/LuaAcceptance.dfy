/** Every Lua value that represents a tree within the limits is accepted, shared tables and all; cyclic ones never
    are. */
module LuaAcceptance {
  import opened LuaHeap
  import opened LuaConversion

  // ---- Inside the tables being converted ----

  /** The tables being converted represent trees larger than this. */
  ghost predicate Above(h: Heap, active: set<nat>, size: nat) {
    forall a <- active :: exists j :: Represents(h, Ref(a), j) && Items(j) > size
  }

  lemma AboveInside(h: Heap, active: set<nat>, r: nat, j: Json, size: nat)
    requires Above(h, active, Items(j)) && Represents(h, Ref(r), j) && size < Items(j)
    ensures Above(h, active + {r}, size)
  {
    forall a | a in active + {r} ensures exists k :: Represents(h, Ref(a), k) && Items(k) > size {
      if a in active {
        var k :| Represents(h, Ref(a), k) && Items(k) > Items(j);
      }
    }
  }

  lemma NotActive(h: Heap, active: set<nat>, r: nat, j: Json)
    requires Above(h, active, Items(j)) && Represents(h, Ref(r), j)
    ensures r !in active
  {
    if r in active {
      var k :| Represents(h, Ref(r), k) && Items(k) > Items(j);
      RepresentsOne(h, Ref(r), j, k);
    }
  }

  // ---- Arrays ----

  lemma {:induction false} ElementsScan(f: Frame, rest: seq<Entry>, s: Scan)
    requires Ready(f) && f.depth < MAX_DEPTH && forall i :: 0 <= i < |rest| ==> InHeap(f.heap, rest[i].value)
    requires s.Scanned? && !s.kind.AsObject? && s.total + |rest| <= f.limit
    requires forall i :: 0 <= i < |rest| ==> rest[i].key.IntKey? && rest[i].key.index >= 1
    ensures ScanAll(f, rest, s).Scanned?
    decreases |rest|
  {
    if rest != [] { ElementsScan(f, rest[1..], ScanOne(f, rest[0], s)); }
  }

  lemma EachUnfolds(f: Frame, table: Table, last: nat, done: Elements, j: Json, total: nat)
    requires Ready(f) && f.depth < MAX_DEPTH && ValidTable(f.heap, table) && done.Elements? && |done.items| < last
    requires InHeap(f.heap, Lookup(table, IntKey(|done.items| + 1)))
    requires Convert(f.(depth := f.depth + 1), Lookup(table, IntKey(|done.items| + 1)), done.total) ==
      Converted(j, total)
    ensures ConvertEach(f, table, |done.items| + 1, last, done)
            == ConvertEach(f, table, |done.items| + 2, last, Elements(done.items + [j], total))
  {}

  /** The elements of an array, as its table holds them. */
  ghost predicate ArrayIn(f: Frame, table: Table, items: seq<Json>)
    requires f.depth < MAX_DEPTH
  {
    && (forall i :: 1 <= i <= |items| ==> Represents(f.heap, Lookup(table, IntKey(i)), items[i - 1]))
    && (forall i :: 0 <= i < |items| ==>
      Within(items[i], MAX_DEPTH - f.depth - 1) && Above(f.heap, f.active, Items(items[i])))
  }

  lemma ElementConverts(f: Frame, table: Table, items: seq<Json>, at: nat, total: nat)
    requires Ready(f) && f.depth < MAX_DEPTH && ArrayIn(f, table, items)
    requires at < |items| && total + Items(items[at]) <= f.limit
    ensures InHeap(f.heap, Lookup(table, IntKey(at + 1)))
    ensures Convert(f.(depth := f.depth + 1), Lookup(table, IntKey(at + 1)), total)
            == Converted(items[at], total + Items(items[at]))
    decreases MAX_DEPTH - f.depth, 0, 0
  {
    assert items[at + 1 - 1] == items[at];
    RepresentedConverts(f.(depth := f.depth + 1), Lookup(table, IntKey(at + 1)), items[at], total);
  }

  lemma TotalUnfolds(items: seq<Json>, at: nat)
    requires at < |items|
    ensures Total(items[at..]) == Items(items[at]) + Total(items[at + 1..])
  {
    assert items[at..][1..] == items[at + 1..];
  }

  predicate Affordable(limit: nat, items: seq<Json>, done: Elements) {
    done.Elements? && |done.items| <= |items| && done.total + Total(items[|done.items|..]) <= limit
  }

  lemma ElementStep(f: Frame, table: Table, items: seq<Json>, done: Elements) returns (next: Elements)
    requires Ready(f) && f.depth < MAX_DEPTH && ValidTable(f.heap, table) && ArrayIn(f, table, items)
    requires Affordable(f.limit, items, done) && |done.items| < |items|
    ensures Affordable(f.limit, items, next) && |next.items| == |done.items| + 1
    ensures ConvertEach(f, table, |done.items| + 1, |items|, done) ==
      ConvertEach(f, table, |done.items| + 2, |items|, next)
    decreases MAX_DEPTH - f.depth, 0, 1
  {
    var at := |done.items|;
    TotalUnfolds(items, at);
    ElementConverts(f, table, items, at, done.total);
    EachUnfolds(f, table, |items|, done, items[at], done.total + Items(items[at]));
    next := Elements(done.items + [items[at]], done.total + Items(items[at]));
  }

  lemma {:induction false} EachConverts(f: Frame, table: Table, items: seq<Json>, done: Elements)
    requires Ready(f) && f.depth < MAX_DEPTH && ValidTable(f.heap, table) && ArrayIn(f, table, items)
    requires Affordable(f.limit, items, done)
    ensures ConvertEach(f, table, |done.items| + 1, |items|, done).Elements?
    decreases MAX_DEPTH - f.depth, 0, |items| - |done.items| + 2
  {
    if |done.items| < |items| {
      var next := ElementStep(f, table, items, done);
      EachConverts(f, table, items, next);
    }
  }

  lemma LargestIsLength(table: Table, largest: int, marked: bool)
    requires ArrayShape(table, |table|, marked) && table != [] && GatheredArray(table, largest)
    ensures largest == |table|
  {
    var i := LookupIsEntry(table, IntKey(|table|));
  }

  lemma ScannedArrayConverts(f: Frame, r: nat, items: seq<Json>, s: Scan, start: nat)
    requires Ready(f) && f.depth < MAX_DEPTH && r < |f.heap.tables| && ArrayIn(f, f.heap.tables[r], items)
    requires ArrayShape(f.heap.tables[r], |items|, r in f.heap.marks) && Gathered(f, f.heap.tables[r], s, start)
    requires s.kind.AsArray? && start + |items| + Total(items) <= f.limit
    ensures Finish(f, f.heap.tables[r], r in f.heap.marks, s).Converted?
    decreases MAX_DEPTH - f.depth, 1, 0
  {
    LargestIsLength(f.heap.tables[r], s.largest, r in f.heap.marks);
    assert items[0..] == items;
    EachConverts(f, f.heap.tables[r], items, Elements([], s.total));
  }

  lemma ArrayConverts(f: Frame, r: nat, items: seq<Json>, total: nat)
    requires Ready(f) && f.depth < MAX_DEPTH && r < |f.heap.tables| && ArrayIn(f, f.heap.tables[r], items)
    requires ArrayShape(f.heap.tables[r], |items|, r in f.heap.marks) && total + |items| + Total(items) <= f.limit
    ensures Finish(f, f.heap.tables[r], r in f.heap.marks, ScanFrom(f, r, total)).Converted?
    decreases MAX_DEPTH - f.depth, 1, 1
  {
    var table := f.heap.tables[r];
    var begin := Scanned(Empty, 0, 0, [], total);
    ElementsScan(f, table, begin);
    assert [] + table == table;
    ScanAllGathers(f, [], table, begin, total);
    var s := ScanFrom(f, r, total);
    if table != [] {
      assert table[0].key.IntKey?;
      ScannedArrayConverts(f, r, items, s, total);
    }
  }

  // ---- Objects ----

  lemma {:induction false} SubsetTotal(a: seq<Member>, b: seq<Member>)
    requires Ascending(a) && Ascending(b) && forall m :: m in a ==> m in b
    ensures |a| <= |b| && TotalOf(a) <= TotalOf(b)
    decreases |b|
  {
    if a != [] {
      assert a[0] in b;
      AscendingTail(a);
      AscendingTail(b);
      assert a == [a[0]] + a[1..] && b == [b[0]] + b[1..];
      if a[0] == b[0] {
        forall m | m in a[1..] ensures m in b[1..] {
          LessIsTotal(a[0].key, m.key);
          assert m in b && m != b[0];
        }
        SubsetTotal(a[1..], b[1..]);
      } else {
        assert Less(b[0].key, a[0].key);
        forall m | m in a ensures m in b[1..] {
          if m != a[0] { LessIsTransitive(b[0].key, a[0].key, m.key); }
          LessIsTotal(b[0].key, m.key);
          assert m in b && m != b[0];
        }
        SubsetTotal(a, b[1..]);
      }
    }
  }

  /** The members of an object, as its table holds them. */
  ghost predicate ObjectIn(f: Frame, table: Table, members: seq<Member>, marked: bool)
    requires f.depth < MAX_DEPTH
  {
    && ObjectShape(table, members, marked)
    && (forall i :: 0 <= i < |members| ==> Represents(f.heap, Lookup(table, StrKey(members[i].key)), members[i].value))
    && (forall i :: 0 <= i < |members| ==>
          Within(members[i].value, MAX_DEPTH - f.depth - 1) && Above(f.heap, f.active, Items(members[i].value)))
  }

  lemma EntryIsMember(f: Frame, table: Table, members: seq<Member>, marked: bool, k: nat) returns (m: Member)
    requires f.depth < MAX_DEPTH && Distinct(table) && ObjectIn(f, table, members, marked) && k < |table|
    ensures m in members && table[k].key == StrKey(m.key) && |m.key| <= MAX_KEY && Ascending(members)
    ensures Represents(f.heap, table[k].value, m.value)
    ensures Within(m.value, MAX_DEPTH - f.depth - 1) && Above(f.heap, f.active, Items(m.value))
  {
    assert HasKey(members, table[k].key.name);
    var i :| 0 <= i < |members| && members[i].key == table[k].key.name;
    m := members[i];
    LookupFinds(table, k);
    assert table[k].key == StrKey(m.key);
  }

  lemma MemberFits(done: seq<Member>, m: Member, members: seq<Member>)
    requires Ascending(done) && Ascending(members) && !HasKey(done, m.key) && m in members &&
      forall x :: x in done ==> x in members
    ensures |done| + 1 <= |members| && TotalOf(done) + Items(m.value) <= TotalOf(members)
    ensures forall x :: x in Insert(done, m) ==> x in members
  {
    InsertNew(done, m);
    SubsetTotal(Insert(done, m), members);
  }

  lemma NotYetThere(f: Frame, done: seq<Entry>, e: Entry, s: Scan, start: nat, name: string)
    requires f.depth < MAX_DEPTH && Gathered(f, done, s, start) && e.key == StrKey(name)
    requires forall k :: 0 <= k < |done| ==> done[k].key != e.key && done[k].key.StrKey?
    ensures !s.kind.AsArray? && Ascending(s.members) && |s.members| == |done| && !HasKey(s.members, name)
  {
    forall i | 0 <= i < |s.members| ensures s.members[i].key != name {
      assert MemberFrom(f, done, s.members[i]);
    }
  }

  lemma MemberScansAs(f: Frame, deeper: Frame, e: Entry, s: Scan, c: Conversion)
    requires Ready(f) && f.depth < MAX_DEPTH && InHeap(f.heap, e.value) && s.Scanned? && !s.kind.AsArray?
    requires e.key.StrKey? && |e.key.name| <= MAX_KEY && s.total + 1 <= f.limit
    requires deeper == f.(depth := f.depth + 1) && Convert(deeper, e.value, s.total + 1) == c
    ensures ScanOne(f, e, s) == WithMember(s, e.key.name, c)
  {}

  /** Converting one more member succeeds within the budget. */
  lemma MemberScans(f: Frame, done: seq<Entry>, e: Entry, s: Scan, start: nat, members: seq<Member>, m: Member)
    returns (next: Scan)
    requires Ready(f) && f.depth < MAX_DEPTH && InHeap(f.heap, e.value) && Gathered(f, done, s, start)
    requires forall k :: 0 <= k < |done| ==> done[k].key != e.key && done[k].key.StrKey?
    requires e.key == StrKey(m.key) && |m.key| <= MAX_KEY && m in members && Ascending(members)
    requires Represents(f.heap, e.value, m.value) && Within(m.value, MAX_DEPTH - f.depth - 1)
    requires Above(f.heap, f.active, Items(m.value)) && start + |members| + TotalOf(members) <= f.limit
    requires forall x :: x in s.members ==> x in members
    ensures next == ScanOne(f, e, s) && Gathered(f, done + [e], next, start) &&
      forall x :: x in next.members ==> x in members
    decreases MAX_DEPTH - f.depth, 0, 1
  {
    NotYetThere(f, done, e, s, start, m.key);
    MemberFits(s.members, m, members);
    var deeper := f.(depth := f.depth + 1);
    RepresentedConverts(deeper, e.value, m.value, s.total + 1);
    MemberScansAs(f, deeper, e, s, Converted(m.value, s.total + 1 + Items(m.value)));
    next := Scanned(AsObject, s.largest, s.entries + 1, Insert(s.members, m), s.total + 1 + Items(m.value));
    MemberGathers(f, done, e, s, start, m, next.total);
  }

  lemma EarlierKeys(table: Table, members: seq<Member>, marked: bool, at: nat)
    requires Distinct(table) && ObjectShape(table, members, marked) && at < |table|
    ensures forall k :: 0 <= k < at ==> table[..at][k].key != table[at].key && table[..at][k].key.StrKey?
  {}

  lemma ScanUnfolds(f: Frame, table: Table, at: nat, s: Scan, next: Scan)
    requires Ready(f) && f.depth < MAX_DEPTH && ValidTable(f.heap, table) && at < |table| && s.Scanned?
    requires next == ScanOne(f, table[at], s)
    ensures ScanAll(f, table[at..], s) == ScanAll(f, table[at + 1..], next)
  {
    assert table[at..][1..] == table[at + 1..];
  }

  /** The entries done have all become members, and the budget covers the rest. */
  ghost predicate Progress(f: Frame, table: Table, done: seq<Entry>, s: Scan, start: nat, members: seq<Member>)
    requires f.depth < MAX_DEPTH
  {
    && |done| <= |table| && done == table[..|done|] && Gathered(f, done, s, start)
    && (forall x :: x in s.members ==> x in members)
    && start + |members| + TotalOf(members) <= f.limit
  }

  lemma MemberStep(f: Frame, table: Table, done: seq<Entry>, s: Scan, start: nat, members: seq<Member>, marked: bool)
    returns (next: Scan)
    requires Ready(f) && f.depth < MAX_DEPTH && ValidTable(f.heap, table) && ObjectIn(f, table, members, marked)
    requires Progress(f, table, done, s, start, members) && |done| < |table|
    ensures next == ScanOne(f, table[|done|], s) && Progress(f, table, done + [table[|done|]], next, start, members)
    decreases MAX_DEPTH - f.depth, 1, 0
  {
    var e := table[|done|];
    var m := EntryIsMember(f, table, members, marked, |done|);
    EarlierKeys(table, members, marked, |done|);
    next := MemberScans(f, done, e, s, start, members, m);
  }

  lemma {:induction false} MembersScan(f: Frame, table: Table, done: seq<Entry>, s: Scan, start: nat,
      members: seq<Member>,
      marked: bool)
    requires Ready(f) && f.depth < MAX_DEPTH && ValidTable(f.heap, table) && ObjectIn(f, table, members, marked)
    requires Progress(f, table, done, s, start, members)
    ensures ScanAll(f, table[|done|..], s).Scanned?
    decreases MAX_DEPTH - f.depth, 1, |table| - |done| + 1
  {
    if |done| < |table| {
      var next := MemberStep(f, table, done, s, start, members, marked);
      ScanUnfolds(f, table, |done|, s, next);
      MembersScan(f, table, done + [table[|done|]], next, start, members, marked);
    }
  }

  lemma ObjectConverts(f: Frame, r: nat, members: seq<Member>, total: nat)
    requires Ready(f) && f.depth < MAX_DEPTH && r < |f.heap.tables|
    requires ObjectIn(f, f.heap.tables[r], members, r in f.heap.marks)
    requires total + |members| + TotalOf(members) <= f.limit
    ensures Finish(f, f.heap.tables[r], r in f.heap.marks, ScanFrom(f, r, total)).Converted?
    decreases MAX_DEPTH - f.depth, 2
  {
    var table := f.heap.tables[r];
    var begin := Scanned(Empty, 0, 0, [], total);
    assert table[..0] == [] && table[0..] == table && [] + table == table;
    MembersScan(f, table, [], begin, total, members, r in f.heap.marks);
    ScanAllGathers(f, [], table, begin, total);
    var s := ScanFrom(f, r, total);
    if table != [] { assert table[0].key.StrKey?; }
  }

  // ---- The whole value ----

  lemma ItemBelow(items: seq<Json>, i: nat)
    requires i < |items|
    ensures Items(items[i]) < Items(Array(items))
  {
    TotalHolds(items, i);
  }

  lemma MemberBelow(members: seq<Member>, i: nat)
    requires i < |members|
    ensures Items(members[i].value) < Items(Object(members))
  {
    TotalOfHolds(members, i);
  }

  lemma TableConverts(f: Frame, r: nat, j: Json, total: nat)
    requires Ready(f) && f.depth < MAX_DEPTH && Represents(f.heap, Ref(r), j) && Within(j, MAX_DEPTH - f.depth)
    requires total + Items(j) <= f.limit && Above(f.heap, f.active, Items(j))
    ensures r < |f.heap.tables| && ConvertTable(f, r, total).Converted?
    decreases MAX_DEPTH - f.depth, 3
  {
    NotActive(f.heap, f.active, r, j);
    var inner := f.(active := f.active + {r});
    match j
    case Array(items) =>
      forall i | 0 <= i < |items| ensures Above(inner.heap, inner.active, Items(items[i])) {
        ItemBelow(items, i);
        AboveInside(f.heap, f.active, r, j, Items(items[i]));
      }
      ArrayConverts(inner, r, items, total);
    case Object(members) =>
      forall i | 0 <= i < |members| ensures Above(inner.heap, inner.active, Items(members[i].value)) {
        MemberBelow(members, i);
        AboveInside(f.heap, f.active, r, j, Items(members[i].value));
      }
      ObjectConverts(inner, r, members, total);
  }

  lemma {:induction false} RepresentedConverts(f: Frame, v: Value, j: Json, total: nat)
    requires Ready(f) && Represents(f.heap, v, j) && Within(j, MAX_DEPTH - f.depth)
    requires total + Items(j) <= f.limit && Above(f.heap, f.active, Items(j))
    ensures InHeap(f.heap, v) && Convert(f, v, total) == Converted(j, total + Items(j))
    decreases MAX_DEPTH - f.depth, 4
  {
    if v.Ref? {
      TableConverts(f, v.ref, j, total);
      ConvertIsSound(f, v, total);
      RepresentsOne(f.heap, v, j, Convert(f, v, total).json);
    }
  }

  function LuaToJson(h: Heap, v: Value, limit: nat): Conversion
    requires Valid(h) && InHeap(h, v)
  {
    Convert(Frame(h, limit, 0, {}), v, 0)
  }

  /**
   * A value converts to a tree exactly if it represents that tree, the tree nests at most sixteen containers, and it
   * has at most as many items as the limit. Tables may be shared, and the traversal order plays no part.
   */
  lemma ConvertsIff(h: Heap, v: Value, limit: nat, j: Json)
    requires Valid(h) && InHeap(h, v)
    ensures LuaToJson(h, v, limit) == Converted(j, Items(j)) <==>
              Represents(h, v, j) && Within(j, MAX_DEPTH) && Items(j) <= limit
    ensures LuaToJson(h, v, limit).Converted? ==> LuaToJson(h, v, limit).count == Items(LuaToJson(h, v, limit).json)
  {
    var f := Frame(h, limit, 0, {});
    ConvertIsSound(f, v, 0);
    if Represents(h, v, j) && Within(j, MAX_DEPTH) && Items(j) <= limit {
      RepresentedConverts(f, v, j, 0);
    }
  }

  /** A value from which a cycle of tables can be reached never converts. */
  lemma CyclicIsRefused(h: Heap, approach: seq<nat>, cycle: seq<nat>, limit: nat)
    requires Valid(h) && approach != [] && Path(h, approach)
    requires |cycle| > 1 && Path(h, cycle) && cycle[0] == approach[|approach| - 1] && cycle[|cycle| - 1] == cycle[0]
    requires approach[0] < |h.tables|
    ensures LuaToJson(h, Ref(approach[0]), limit).Failed?
  {
    var c := LuaToJson(h, Ref(approach[0]), limit);
    ConvertIsSound(Frame(h, limit, 0, {}), Ref(approach[0]), 0);
    if c.Converted? { CyclicHasNoTree(h, approach, cycle, c.json); }
  }

  // ---- Tables that are fine in themselves fail only for their size or a cycle ----

  predicate TidyValue(v: Value) {
    && !v.Opaque?
    && (v.Real? ==> v.number.Finite?)
    && (v.Str? ==> |v.bytes| <= MAX_STRING)
  }

  predicate TidyTable(table: Table) {
    && (forall k :: 0 <= k < |table| ==> TidyValue(table[k].value))
    && (ArrayShape(table, |table|, true)
        || forall k :: 0 <= k < |table| ==> table[k].key.StrKey? && |table[k].key.name| <= MAX_KEY)
  }

  predicate Tidy(h: Heap) {
    forall r :: 0 <= r < |h.tables| ==> TidyTable(h.tables[r])
  }

  predicate OfSize(e: Error) {
    e.TooDeep? || e.TooManyItems? || e.Cycle?
  }

  lemma {:induction false} TidyElements(f: Frame, rest: seq<Entry>, s: Scan)
    requires Ready(f) && f.depth < MAX_DEPTH && forall i :: 0 <= i < |rest| ==> InHeap(f.heap, rest[i].value)
    requires s.Scanned? && !s.kind.AsObject?
    requires forall i :: 0 <= i < |rest| ==> rest[i].key.IntKey? && rest[i].key.index >= 1
    ensures ScanAll(f, rest, s).Stuck? ==> OfSize(ScanAll(f, rest, s).error)
    decreases |rest|
  {
    if rest != [] {
      var next := ScanOne(f, rest[0], s);
      if next.Scanned? { TidyElements(f, rest[1..], next); }
    }
  }

  lemma {:induction false} TidyMembers(f: Frame, rest: seq<Entry>, s: Scan)
    requires Ready(f) && f.depth < MAX_DEPTH && Tidy(f.heap) &&
      forall i :: 0 <= i < |rest| ==> InHeap(f.heap, rest[i].value)
    requires s.Scanned? && !s.kind.AsArray? && s.total <= f.limit
    requires forall i :: 0 <= i < |rest| ==>
               rest[i].key.StrKey? && |rest[i].key.name| <= MAX_KEY && TidyValue(rest[i].value)
    ensures ScanAll(f, rest, s).Stuck? ==> OfSize(ScanAll(f, rest, s).error)
    decreases MAX_DEPTH - f.depth, 1, |rest|
  {
    if rest != [] {
      if s.total < f.limit {
        var deeper, v := f.(depth := f.depth + 1), rest[0].value;
        TidyFailsBySize(deeper, v, s.total + 1);
        ConvertIsSound(deeper, v, s.total + 1);
        var next := ScanOne(f, rest[0], s);
        if next.Scanned? { TidyMembers(f, rest[1..], next); }
      }
    }
  }

  lemma {:induction false} TidyEach(f: Frame, table: Table, index: nat, last: nat, done: Elements)
    requires Ready(f) && f.depth < MAX_DEPTH && Tidy(f.heap) && ValidTable(f.heap, table) && 1 <= index <= last + 1
    requires done.Elements? && done.total <= f.limit && TidyTable(table) && ArrayShape(table, last, true)
    ensures var r := ConvertEach(f, table, index, last, done); r.Broken? ==> OfSize(r.error)
    decreases MAX_DEPTH - f.depth, 1, last + 1 - index
  {
    if index <= last {
      var i := LookupIsEntry(table, IntKey(index));
      LookupInHeap(f.heap, table, IntKey(index));
      var deeper, v := f.(depth := f.depth + 1), Lookup(table, IntKey(index));
      TidyFailsBySize(deeper, v, done.total);
      ConvertIsSound(deeper, v, done.total);
      match Convert(deeper, v, done.total)
      case Failed(_) =>
      case Converted(j, total) => TidyEach(f, table, index + 1, last, Elements(done.items + [j], total));
    }
  }

  lemma TidyTableScans(f: Frame, r: nat, total: nat)
    requires Ready(f) && f.depth < MAX_DEPTH && Tidy(f.heap) && r < |f.heap.tables| && total <= f.limit
    ensures ScanFrom(f, r, total).Stuck? ==> OfSize(ScanFrom(f, r, total).error)
    decreases MAX_DEPTH - f.depth, 2, 0
  {
    var table, begin := f.heap.tables[r], Scanned(Empty, 0, 0, [], total);
    assert TidyTable(table);
    if ArrayShape(table, |table|, true) { TidyElements(f, table, begin); } else { TidyMembers(f, table, begin); }
  }

  lemma TidyTableFailsBySize(f: Frame, r: nat, total: nat)
    requires Ready(f) && f.depth < MAX_DEPTH && Tidy(f.heap) && r < |f.heap.tables| && total <= f.limit
    ensures var c := Finish(f, f.heap.tables[r], r in f.heap.marks, ScanFrom(f, r, total));
            c.Failed? ==> OfSize(c.error)
    decreases MAX_DEPTH - f.depth, 2, 1
  {
    var table := f.heap.tables[r];
    var s := ScanFrom(f, r, total);
    TidyTableScans(f, r, total);
    if s.Scanned? && s.kind.AsArray? {
      assert TidyTable(table) && [] + table == table;
      ScanAllGathers(f, [], table, Scanned(Empty, 0, 0, [], total), total);
      assert table[0].key.IntKey?;
      LargestIsLength(table, s.largest, true);
      TidyEach(f, table, 1, |table|, Elements([], s.total));
    }
  }

  /** On a heap of well-shaped tables the only failures are too deep, too many items, and a cycle. */
  lemma {:induction false} TidyFailsBySize(f: Frame, v: Value, total: nat)
    requires Ready(f) && InHeap(f.heap, v) && Tidy(f.heap) && TidyValue(v) && total <= f.limit
    ensures Convert(f, v, total).Failed? ==> OfSize(Convert(f, v, total).error)
    decreases MAX_DEPTH - f.depth, 3, 0
  {
    if v.Ref? && f.depth < MAX_DEPTH && v.ref !in f.active {
      TidyTableFailsBySize(f.(active := f.active + {v.ref}), v.ref, total);
    }
  }
}
