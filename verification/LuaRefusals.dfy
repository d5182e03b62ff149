/** Why a Lua value does not convert: every refusal is for a defect that can be found in what the value reaches. */
module LuaRefusals {
  import opened LuaHeap
  import opened LuaConversion
  import opened LuaAcceptance

  // ---- Defects ----

  /** What is wrong with a table's keys. */
  ghost predicate KeysShow(table: Table, e: Error) {
    match e
    case StringTooLong => exists k :: 0 <= k < |table| && table[k].key.StrKey? && |table[k].key.name| > 4096
    case UnsupportedKey => exists k :: 0 <= k < |table| && table[k].key.OtherKey?
    case MixedTable =>
      && (exists i :: 0 <= i < |table| && table[i].key.IntKey?)
      && (exists k :: 0 <= k < |table| && table[k].key.StrKey?)
    case SparseTable =>
      exists k :: 0 <= k < |table| && table[k].key.IntKey? && !(1 <= table[k].key.index <= |table|)
    case _ => false
  }

  /** What is wrong with a value where it stands: so deep, and inside those tables. */
  ghost predicate ValueShows(f: Frame, v: Value, e: Error)
    requires InHeap(f.heap, v)
  {
    match e
    case NonFiniteNumber => v.Real? && v.number.NonFinite?
    case UnsupportedType => v.Opaque?
    case TooDeep => v.Ref? && f.depth >= 16
    case Cycle => v.Ref? && v.ref in f.active
    case StringTooLong => if v.Ref? then KeysShow(f.heap.tables[v.ref], e) else v.Str? && |v.bytes| > 8 * 1024 * 1024
    case UnsupportedKey => v.Ref? && KeysShow(f.heap.tables[v.ref], e)
    case MixedTable => v.Ref? && KeysShow(f.heap.tables[v.ref], e)
    case SparseTable => v.Ref? && KeysShow(f.heap.tables[v.ref], e)
    case _ => false
  }

  function Inside(f: Frame, r: nat): Frame {
    Frame(f.heap, f.limit, f.depth + 1, f.active + {r})
  }

  /** The value has that defect, or one of the values in its table has. */
  ghost predicate Shows(f: Frame, v: Value, e: Error)
    requires Ready(f) && InHeap(f.heap, v)
    decreases MAX_DEPTH - f.depth
  {
    || ValueShows(f, v, e)
    || (v.Ref? && f.depth < MAX_DEPTH
        && exists k :: 0 <= k < |f.heap.tables[v.ref]| && Shows(Inside(f, v.ref), f.heap.tables[v.ref][k].value, e))
  }

  // ---- Every refusal is for a defect ----

  /** What the scan so far has met. */
  ghost predicate Met(done: seq<Entry>, s: Scan) {
    && s.Scanned?
    && (s.kind.AsArray? ==> exists k :: 0 <= k < |done| && done[k].key.IntKey?)
    && (s.kind.AsObject? ==> exists k :: 0 <= k < |done| && done[k].key.StrKey?)
  }

  /** The refusal is for the keys of the table, or for one of its values. */
  ghost predicate TableShows(inner: Frame, table: Table, e: Error)
    requires Ready(inner) && inner.depth < MAX_DEPTH && ValidTable(inner.heap, table)
  {
    || e.TooManyItems? || KeysShow(table, e)
    || exists k :: 0 <= k < |table| && Shows(inner.(depth := inner.depth + 1), table[k].value, e)
  }

  /** Meeting one more entry: it is refused for what it is, or noted. */
  lemma EntryShows(inner: Frame, done: seq<Entry>, entry: Entry, rest: seq<Entry>, s: Scan, next: Scan)
    requires Ready(inner) && inner.depth < MAX_DEPTH && ValidTable(inner.heap, done + [entry] + rest)
    requires Met(done, s) && InHeap(inner.heap, entry.value) && next == ScanOne(inner, entry, s)
    requires entry.key.StrKey? ==>
      var c := Convert(inner.(depth := inner.depth + 1), entry.value, s.total + 1);
      c.Failed? ==> c.error.TooManyItems? || Shows(inner.(depth := inner.depth + 1), entry.value, c.error)
    ensures next.Stuck? ==> TableShows(inner, done + [entry] + rest, next.error)
    ensures next.Scanned? ==> Met(done + [entry], next)
  {
    var table := done + [entry] + rest;
    assert table[|done|] == entry && (done + [entry])[|done|] == entry;
    assert forall k :: 0 <= k < |done| ==> table[k] == done[k] && (done + [entry])[k] == done[k];
  }

  lemma {:induction false} ScanShows(inner: Frame, table: Table, done: seq<Entry>, rest: seq<Entry>, s: Scan)
    requires Ready(inner) && inner.depth < MAX_DEPTH && ValidTable(inner.heap, table) && table == done + rest
    requires Met(done, s)
    ensures forall i :: 0 <= i < |rest| ==> InHeap(inner.heap, rest[i].value)
    ensures ScanAll(inner, rest, s).Stuck? ==> TableShows(inner, table, ScanAll(inner, rest, s).error)
    decreases MAX_DEPTH - inner.depth, 1, |rest|
  {
    forall i | 0 <= i < |rest| ensures InHeap(inner.heap, rest[i].value) {
      assert table[|done| + i] == rest[i];
    }
    if rest != [] {
      var entry, next := rest[0], ScanOne(inner, rest[0], s);
      assert table == done + [entry] + rest[1..];
      RefusalShows(inner.(depth := inner.depth + 1), entry.value, s.total + 1);
      EntryShows(inner, done, entry, rest[1..], s, next);
      if next.Scanned? { ScanShows(inner, table, done + [entry], rest[1..], next); }
    }
  }

  lemma {:induction false} EachShows(inner: Frame, table: Table, index: nat, last: nat, done: Elements)
    requires Ready(inner) && inner.depth < MAX_DEPTH && ValidTable(inner.heap, table) && 1 <= index <= last + 1
    requires done.Elements?
    ensures var r := ConvertEach(inner, table, index, last, done); r.Broken? ==> TableShows(inner, table, r.error)
    decreases MAX_DEPTH - inner.depth, 1, last + 1 - index
  {
    if index <= last {
      LookupInHeap(inner.heap, table, IntKey(index));
      var deeper, v := inner.(depth := inner.depth + 1), Lookup(table, IntKey(index));
      RefusalShows(deeper, v, done.total);
      if v != Nil { var i := LookupIsEntry(table, IntKey(index)); }
      match Convert(deeper, v, done.total)
      case Failed(_) =>
      case Converted(j, total) => EachShows(inner, table, index + 1, last, Elements(done.items + [j], total));
    }
  }

  /** A table whose largest index is not its size has an index beyond its size. */
  lemma GapShows(inner: Frame, table: Table, largest: int)
    requires ValidTable(inner.heap, table) && GatheredArray(table, largest) && largest != |table| && table != []
    ensures KeysShow(table, SparseTable)
  {
    IndicesCounted(table);
    if largest < |table| {
      assert Indices(table) <= UpTo(largest);
      FewerThan(Indices(table), UpTo(largest));
    }
  }

  lemma FewerThan(a: set<int>, b: set<int>)
    requires a <= b
    ensures |a| <= |b|
  {
    assert b == a + (b - a);
  }

  /** Beyond the limit the first entry is refused. */
  lemma BeyondTheLimit(inner: Frame, r: nat, total: nat)
    requires Ready(inner) && inner.depth < MAX_DEPTH && r < |inner.heap.tables|
    ensures total > inner.limit && inner.heap.tables[r] != [] ==> ScanFrom(inner, r, total) == Stuck(TooManyItems)
  {
    var table := inner.heap.tables[r];
    if total > inner.limit && table != [] {
      var next := ScanOne(inner, table[0], Scanned(Empty, 0, 0, [], total));
      assert ScanAll(inner, table[1..], next) == next;
    }
  }

  lemma {:induction false} TableRefusalShows(inner: Frame, r: nat, total: nat)
    requires Ready(inner) && inner.depth < MAX_DEPTH && r < |inner.heap.tables|
    ensures var c := Finish(inner, inner.heap.tables[r], r in inner.heap.marks, ScanFrom(inner, r, total));
      c.Failed? ==> TableShows(inner, inner.heap.tables[r], c.error)
    decreases MAX_DEPTH - inner.depth, 2, 0
  {
    var table := inner.heap.tables[r];
    var s := ScanFrom(inner, r, total);
    assert [] + table == table;
    ScanShows(inner, table, [], table, Scanned(Empty, 0, 0, [], total));
    if s.Scanned? && s.kind.AsArray? {
      BeyondTheLimit(inner, r, total);
      ScanAllGathers(inner, [], table, Scanned(Empty, 0, 0, [], total), total);
      if s.largest != s.entries {
        GapShows(inner, table, s.largest);
      } else {
        EachShows(inner, table, 1, s.entries, Elements([], s.total));
      }
    }
  }

  /** Every refusal but that of too many items is for a defect of the value or of something inside it, found at most
      sixteen tables deep; a cycle is a table met again inside itself. */
  lemma {:induction false} RefusalShows(f: Frame, v: Value, total: nat)
    requires Ready(f) && InHeap(f.heap, v)
    ensures var c := Convert(f, v, total); c.Failed? ==> c.error.TooManyItems? || Shows(f, v, c.error)
    decreases MAX_DEPTH - f.depth, 3, 0
  {
    if v.Ref? && f.depth < MAX_DEPTH && v.ref !in f.active {
      TableRefusalShows(f.(active := f.active + {v.ref}), v.ref, total);
    }
  }

  // ---- Too many items ----

  /** As many items as a value can have whose tables have at most n entries and nest at most so many levels deep. */
  function Room(n: nat, levels: nat): nat {
    if levels == 0 then 0 else n * (1 + Room(n, levels - 1))
  }

  predicate TablesAtMost(h: Heap, n: nat) {
    forall r :: 0 <= r < |h.tables| ==> |h.tables[r]| <= n
  }

  /** With room for them all, items are never too many. */
  ghost predicate Roomy(f: Frame, v: Value, total: nat, room: nat)
    requires Ready(f) && InHeap(f.heap, v)
  {
    var c := Convert(f, v, total);
    (c.Failed? ==> !c.error.TooManyItems?) && (c.Converted? ==> c.count <= total + room)
  }

  lemma RoomFor(n: nat, levels: nat, k: nat)
    requires k <= n && levels > 0
    ensures k * (1 + Room(n, levels - 1)) <= Room(n, levels)
  {
    var each := 1 + Room(n, levels - 1);
    assert n * each - k * each == (n - k) * each;
  }

  /** A scan that ends as an array has counted its elements and nothing else. */
  lemma {:induction false} ScanCounts(inner: Frame, rest: seq<Entry>, s: Scan)
    requires Ready(inner) && inner.depth < MAX_DEPTH && s.Scanned?
    requires forall i :: 0 <= i < |rest| ==> InHeap(inner.heap, rest[i].value)
    ensures var r := ScanAll(inner, rest, s);
      r.Scanned? && !r.kind.AsObject? ==>
        !s.kind.AsObject? && r.total == s.total + |rest| && r.entries == s.entries + |rest|
    decreases |rest|
  {
    if rest != [] {
      var next := ScanOne(inner, rest[0], s);
      if next.Scanned? { ScanCounts(inner, rest[1..], next); }
    }
  }

  lemma OneIsRoomy(inner: Frame, entry: Entry, s: Scan, next: Scan, room: nat)
    requires Ready(inner) && inner.depth < MAX_DEPTH && s.Scanned? && InHeap(inner.heap, entry.value)
    requires Roomy(inner.(depth := inner.depth + 1), entry.value, s.total + 1, room) && s.total + 1 <= inner.limit
    requires next == ScanOne(inner, entry, s)
    ensures next.Stuck? ==> !next.error.TooManyItems?
    ensures next.Scanned? ==> next.total <= s.total + 1 + room
  {
  }

  lemma {:induction false} ScanIsRoomy(inner: Frame, n: nat, rest: seq<Entry>, s: Scan, room: nat)
    requires Ready(inner) && inner.depth < MAX_DEPTH && TablesAtMost(inner.heap, n) && s.Scanned?
    requires forall i :: 0 <= i < |rest| ==> InHeap(inner.heap, rest[i].value)
    requires room == Room(n, MAX_DEPTH - inner.depth - 1)
    requires s.total + |rest| * (1 + room) <= inner.limit
    ensures var r := ScanAll(inner, rest, s);
      && (r.Stuck? ==> !r.error.TooManyItems?) && (r.Scanned? ==> r.total <= s.total + |rest| * (1 + room))
    decreases MAX_DEPTH - inner.depth, 1, |rest|
  {
    if rest != [] {
      var next, left := ScanOne(inner, rest[0], s), |rest| - 1;
      assert |rest| * (1 + room) == (1 + room) + left * (1 + room);
      assert left * (1 + room) >= 0;
      RefusalIsRoomy(inner.(depth := inner.depth + 1), n, rest[0].value, s.total + 1, room);
      OneIsRoomy(inner, rest[0], s, next, room);
      if next.Scanned? { ScanIsRoomy(inner, n, rest[1..], next, room); }
    }
  }

  lemma {:induction false} EachIsRoomy(inner: Frame, n: nat, table: Table, index: nat, last: nat, done: Elements,
      room: nat)
    requires Ready(inner) && inner.depth < MAX_DEPTH && TablesAtMost(inner.heap, n) && ValidTable(inner.heap, table)
    requires 1 <= index <= last + 1 && done.Elements? && room == Room(n, MAX_DEPTH - inner.depth - 1)
    requires done.total + (last + 1 - index) * room <= inner.limit
    ensures var r := ConvertEach(inner, table, index, last, done);
      && (r.Broken? ==> !r.error.TooManyItems?)
      && (r.Elements? ==> r.total <= done.total + (last + 1 - index) * room)
    decreases MAX_DEPTH - inner.depth, 1, last + 1 - index
  {
    if index <= last {
      LookupInHeap(inner.heap, table, IntKey(index));
      var deeper, v := inner.(depth := inner.depth + 1), Lookup(table, IntKey(index));
      assert (last + 1 - index) * room == room + (last - index) * room;
      RefusalIsRoomy(deeper, n, v, done.total, room);
      match Convert(deeper, v, done.total)
      case Failed(_) =>
      case Converted(j, total) =>
        EachIsRoomy(inner, n, table, index + 1, last, Elements(done.items + [j], total), room);
    }
  }

  lemma {:induction false} TableIsRoomy(inner: Frame, n: nat, r: nat, total: nat)
    requires Ready(inner) && inner.depth < MAX_DEPTH && r < |inner.heap.tables| && TablesAtMost(inner.heap, n)
    requires total + Room(n, MAX_DEPTH - inner.depth) <= inner.limit
    ensures var c := Finish(inner, inner.heap.tables[r], r in inner.heap.marks, ScanFrom(inner, r, total));
      && (c.Failed? ==> !c.error.TooManyItems?)
      && (c.Converted? ==> c.count <= total + Room(n, MAX_DEPTH - inner.depth))
    decreases MAX_DEPTH - inner.depth, 2, 0
  {
    var table, room := inner.heap.tables[r], Room(n, MAX_DEPTH - inner.depth - 1);
    var s := ScanFrom(inner, r, total);
    RoomFor(n, MAX_DEPTH - inner.depth, |table|);
    ScanIsRoomy(inner, n, table, Scanned(Empty, 0, 0, [], total), room);
    ScanCounts(inner, table, Scanned(Empty, 0, 0, [], total));
    if s.Scanned? && s.kind.AsArray? && s.largest == s.entries {
      assert |table| * (1 + room) == |table| + |table| * room;
      EachIsRoomy(inner, n, table, 1, s.entries, Elements([], s.total), room);
    }
  }

  lemma {:induction false} RefusalIsRoomy(f: Frame, n: nat, v: Value, total: nat, room: nat)
    requires Ready(f) && InHeap(f.heap, v) && TablesAtMost(f.heap, n) && room == Room(n, MAX_DEPTH - f.depth)
    requires total + room <= f.limit
    ensures Roomy(f, v, total, room)
    decreases MAX_DEPTH - f.depth, 3, 0
  {
    if v.Ref? && f.depth < MAX_DEPTH && v.ref !in f.active {
      TableIsRoomy(f.(active := f.active + {v.ref}), n, v.ref, total);
    }
  }

  /** Why the conversion of a value fails: its items are too many for the limit, which then is less than they could
      be; or there is a defect in what it reaches. The other errors are for trees that go to Lua. */
  lemma FailsFor(h: Heap, v: Value, limit: nat, n: nat)
    requires Valid(h) && InHeap(h, v) && TablesAtMost(h, n) && LuaToJson(h, v, limit).Failed?
    ensures if LuaToJson(h, v, limit).error.TooManyItems? then limit < Room(n, 16)
            else Shows(Frame(h, limit, 0, {}), v, LuaToJson(h, v, limit).error)
  {
    RefusalShows(Frame(h, limit, 0, {}), v, 0);
    if Room(n, 16) <= limit { RefusalIsRoomy(Frame(h, limit, 0, {}), n, v, 0, Room(n, 16)); }
  }
}
