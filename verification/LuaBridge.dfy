/** Carrying JSON into a Lua state and back: the state's heap is filled in place, and what went in comes out. */
module LuaBridge {
  import opened Optional
  import opened LuaHeap
  import opened LuaConversion
  import opened LuaAcceptance

  const MAX_SERIALIZED := 8 * 1024 * 1024

  // ---- What may cross ----

  /** The JSON library keeps the members of an object ordered by key. */
  predicate Ordered(j: Json)
    decreases j
  {
    match j
    case Array(items) => forall i :: 0 <= i < |items| ==> Ordered(items[i])
    case Object(members) => Ascending(members) && forall i :: 0 <= i < |members| ==> Ordered(members[i].value)
    case _ => true
  }

  predicate Storable(j: Json)
    decreases j
  {
    match j
    case Int(integer) => integer < 0x8000_0000_0000_0000
    case Float(number) => number.Finite?
    case Text(bytes) => |bytes| <= MAX_STRING
    case Array(items) => forall i :: 0 <= i < |items| ==> Storable(items[i])
    case Object(members) => forall i :: 0 <= i < |members| ==> |members[i].key| <= MAX_KEY && Storable(members[i].value)
    case _ => true
  }

  predicate Fits(j: Json, depth: nat, items: nat, limit: nat)
    requires depth <= MAX_DEPTH
  {
    Storable(j) && Within(j, MAX_DEPTH - depth) && items + Items(j) <= limit
  }

  predicate Crosses(j: Json, limit: nat) {
    Fits(j, 0, 0, limit)
  }

  lemma {:induction false} RepresentedIsStorable(h: Heap, v: Value, j: Json)
    requires Represents(h, v, j)
    ensures Ordered(j) && Storable(j)
    decreases j
  {
    match j
    case Array(items) =>
      forall i | 0 <= i < |items| ensures Ordered(items[i]) && Storable(items[i]) {
        assert items[i + 1 - 1] == items[i];
        RepresentedIsStorable(h, Lookup(h.tables[v.ref], IntKey(i + 1)), items[i]);
      }
    case Object(members) =>
      forall i | 0 <= i < |members|
        ensures Ordered(members[i].value) && Storable(members[i].value) && |members[i].key| <= MAX_KEY
      {
        var e := LookupIsEntry(h.tables[v.ref], StrKey(members[i].key));
        RepresentedIsStorable(h, Lookup(h.tables[v.ref], StrKey(members[i].key)), members[i].value);
      }
    case _ =>
  }

  /** Whatever a conversion yields may be pushed again under the same limit. */
  lemma ConvertedCrosses(h: Heap, v: Value, limit: nat)
    requires Valid(h) && InHeap(h, v) && LuaToJson(h, v, limit).Converted?
    ensures Ordered(LuaToJson(h, v, limit).json) && Crosses(LuaToJson(h, v, limit).json, limit)
  {
    var j := LuaToJson(h, v, limit).json;
    ConvertsIff(h, v, limit, j);
    RepresentedIsStorable(h, v, j);
  }

  // ---- Filling one table ----

  datatype Slot = Slot(key: Key, json: Json)

  function ArraySlots(items: seq<Json>): (r: seq<Slot>)
    ensures |r| == |items| && forall i :: 0 <= i < |items| ==> r[i] == Slot(IntKey(i + 1), items[i])
  {
    seq(|items|, i requires 0 <= i < |items| => Slot(IntKey(i + 1), items[i]))
  }

  function ObjectSlots(members: seq<Member>): (r: seq<Slot>)
    ensures |r| == |members| &&
      forall i :: 0 <= i < |members| ==> r[i] == Slot(StrKey(members[i].key), members[i].value)
  {
    seq(|members|, i requires 0 <= i < |members| => Slot(StrKey(members[i].key), members[i].value))
  }

  predicate Apart(slots: seq<Slot>) {
    forall i, j :: 0 <= i < j < |slots| ==> slots[i].key != slots[j].key
  }

  function InsertAt(table: Table, at: nat, e: Entry): Table
    requires at <= |table|
  {
    table[..at] + [e] + table[at..]
  }

  lemma {:induction false} LookupInserted(table: Table, at: nat, e: Entry, key: Key)
    requires at <= |table| && forall k :: 0 <= k < |table| ==> table[k].key != e.key
    ensures Lookup(InsertAt(table, at, e), key) == if key == e.key then e.value else Lookup(table, key)
    decreases at
  {
    var longer := InsertAt(table, at, e);
    if at == 0 {
      assert longer[1..] == table;
      if key == e.key && table != [] { assert longer[0] == e; }
    } else {
      assert longer[0] == table[0] && longer[1..] == InsertAt(table[1..], at - 1, e);
      LookupInserted(table[1..], at - 1, e, key);
    }
  }

  lemma EntriesInserted(table: Table, at: nat, e: Entry)
    requires at <= |table| && Distinct(table) && forall k :: 0 <= k < |table| ==> table[k].key != e.key
    ensures Distinct(InsertAt(table, at, e))
    ensures forall x :: x in InsertAt(table, at, e) <==> x == e || x in table
  {
    var longer := InsertAt(table, at, e);
    forall k | 0 <= k < |longer|
      ensures longer[k] == if k < at then table[k] else if k == at then e else table[k - 1] {}
    forall x | x in table ensures x in longer {
      assert table == table[..at] + table[at..];
    }
  }

  /** The first k slots are in the table, in whatever order a traversal would visit them. */
  ghost predicate Filled(h: Heap, table: Table, slots: seq<Slot>, k: nat) {
    && |table| == k <= |slots|
    && (forall i :: 0 <= i < k ==>
      Lookup(table, slots[i].key) != Nil && Represents(h, Lookup(table, slots[i].key), slots[i].json))
    && (forall e <- table :: exists i :: 0 <= i < k && slots[i].key == e.key)
  }

  // ---- How the heap grows ----

  /** Tables from n on refer to each other only. */
  predicate ClosedFrom(h: Heap, n: nat) {
    forall r, i :: n <= r < |h.tables| && 0 <= i < |h.tables[r]| && h.tables[r][i].value.Ref? ==>
      n <= h.tables[r][i].value.ref
  }

  /** Heap b keeps the tables and marks of heap a from n on. */
  predicate Keeps(a: Heap, b: Heap, n: nat) {
    && |a.tables| <= |b.tables|
    && forall r :: n <= r < |a.tables| ==> b.tables[r] == a.tables[r] && (r in a.marks <==> r in b.marks)
  }

  lemma LookupRefersUp(h: Heap, r: nat, key: Key, n: nat)
    requires ClosedFrom(h, n) && n <= r < |h.tables|
    ensures Lookup(h.tables[r], key).Ref? ==> n <= Lookup(h.tables[r], key).ref
  {
    if Lookup(h.tables[r], key) != Nil {
      var i := LookupIsEntry(h.tables[r], key);
    }
  }

  lemma {:induction false} RepresentsKept(a: Heap, b: Heap, n: nat, v: Value, j: Json)
    requires Represents(a, v, j) && ClosedFrom(a, n) && Keeps(a, b, n) && (v.Ref? ==> n <= v.ref)
    ensures Represents(b, v, j)
    decreases j
  {
    match j
    case Array(items) =>
      forall i | 1 <= i <= |items| ensures Represents(b, Lookup(a.tables[v.ref], IntKey(i)), items[i - 1]) {
        LookupRefersUp(a, v.ref, IntKey(i), n);
        RepresentsKept(a, b, n, Lookup(a.tables[v.ref], IntKey(i)), items[i - 1]);
      }
    case Object(members) =>
      forall i | 0 <= i < |members|
        ensures Represents(b, Lookup(a.tables[v.ref], StrKey(members[i].key)), members[i].value) {
        LookupRefersUp(a, v.ref, StrKey(members[i].key), n);
        RepresentsKept(a, b, n, Lookup(a.tables[v.ref], StrKey(members[i].key)), members[i].value);
      }
    case _ =>
  }

  /** A push adds tables of its own and touches nothing else. */
  predicate Pushed(a: Heap, b: Heap, v: Value) {
    && Valid(b) && Keeps(a, b, 0) && ClosedFrom(b, |a.tables|) && InHeap(b, v) && (v.Ref? ==> |a.tables| <= v.ref)
  }

  /** Table r of heap h is new, unmarked and holds the first k slots; everything pushed for them lies above it. */
  ghost predicate Filling(a: Heap, h: Heap, r: nat, slots: seq<Slot>, k: nat) {
    && Valid(h) && r == |a.tables| < |h.tables| && Keeps(a, h, 0) && r !in h.marks
    && ClosedFrom(h, r + 1)
    && (forall e <- h.tables[r] :: e.value.Ref? ==> r < e.value.ref)
    && Filled(h, h.tables[r], slots, k)
  }

  lemma StartFilling(a: Heap, slots: seq<Slot>)
    requires Valid(a)
    ensures Filling(a, a.(tables := a.tables + [[]]), |a.tables|, slots, 0)
  {
    var h := a.(tables := a.tables + [[]]);
    forall q | 0 <= q < |h.tables| ensures ValidTable(h, h.tables[q]) {
      if q < |a.tables| { assert ValidTable(a, a.tables[q]); }
    }
  }

  function SetTable(h: Heap, r: nat, table: Table): Heap
    requires r < |h.tables|
  {
    h.(tables := h.tables[r := table])
  }

  lemma NewKey(h: Heap, table: Table, slots: seq<Slot>, k: nat)
    requires Apart(slots) && k < |slots| && Filled(h, table, slots, k)
    ensures forall i :: 0 <= i < |table| ==> table[i].key != slots[k].key
  {
    forall i | 0 <= i < |table| ensures table[i].key != slots[k].key {
      assert table[i] in table;
      var s :| 0 <= s < k && slots[s].key == table[i].key;
    }
  }

  lemma FilledOneMore(h: Heap, c: Heap, r: nat, slots: seq<Slot>, k: nat, v: Value, at: nat)
    requires r < |h.tables| <= |c.tables| && c.tables[r] == h.tables[r] && Distinct(h.tables[r])
    requires Apart(slots) && k < |slots| && at <= |h.tables[r]| && Filled(h, h.tables[r], slots, k)
    requires forall e <- h.tables[r] :: e.value.Ref? ==> r < e.value.ref
    requires ClosedFrom(h, r + 1) && Keeps(h, c, r + 1)
    requires Represents(c, v, slots[k].json) && v != Nil && ClosedFrom(c, r + 1) && (v.Ref? ==> r < v.ref)
    ensures var table := InsertAt(h.tables[r], at, Entry(slots[k].key, v));
            Filled(SetTable(c, r, table), table, slots, k + 1)
  {
    var before, e := h.tables[r], Entry(slots[k].key, v);
    var table := InsertAt(before, at, e);
    var b := SetTable(c, r, table);
    NewKey(h, before, slots, k);
    EntriesInserted(before, at, e);
    forall i | 0 <= i < k + 1
      ensures Lookup(table, slots[i].key) != Nil && Represents(b, Lookup(table, slots[i].key), slots[i].json)
    {
      LookupInserted(before, at, e, slots[i].key);
      if i == k {
        RepresentsKept(c, b, r + 1, v, slots[k].json);
      } else {
        assert slots[i].key != slots[k].key;
        var entry := LookupIsEntry(before, slots[i].key);
        assert before[entry] in before;
        RepresentsKept(h, b, r + 1, Lookup(before, slots[i].key), slots[i].json);
      }
    }
    forall x | x in table ensures exists i :: 0 <= i < k + 1 && slots[i].key == x.key {
      if x == e {
        assert slots[k].key == x.key;
      } else {
        var i :| 0 <= i < k && slots[i].key == x.key;
      }
    }
  }

  lemma SetIsValid(c: Heap, r: nat, table: Table)
    requires Valid(c) && r < |c.tables| && ValidTable(c, table)
    ensures Valid(SetTable(c, r, table))
  {
    var b := SetTable(c, r, table);
    forall q | 0 <= q < |b.tables| ensures ValidTable(b, b.tables[q]) {
      if q != r { assert ValidTable(c, c.tables[q]); }
    }
  }

  lemma InsertedIsValid(c: Heap, table: Table, at: nat, e: Entry)
    requires ValidTable(c, table) && at <= |table| && e.value != Nil && InHeap(c, e.value)
    requires forall i :: 0 <= i < |table| ==> table[i].key != e.key
    ensures ValidTable(c, InsertAt(table, at, e))
  {
    var longer := InsertAt(table, at, e);
    EntriesInserted(table, at, e);
    forall i | 0 <= i < |longer| ensures longer[i].value != Nil && InHeap(c, longer[i].value) {
      assert longer[i] in longer;
      if longer[i] != e {
        var k :| 0 <= k < |table| && table[k] == longer[i];
      }
    }
  }

  /** Storing one pushed value: the entry may land anywhere in the traversal order. */
  lemma FillOne(a: Heap, h: Heap, c: Heap, r: nat, slots: seq<Slot>, k: nat, v: Value, at: nat)
    requires Filling(a, h, r, slots, k) && k < |slots| && Apart(slots) && at <= |h.tables[r]|
    requires Pushed(h, c, v) && Represents(c, v, slots[k].json) && v != Nil
    ensures Filling(a, SetTable(c, r, InsertAt(c.tables[r], at, Entry(slots[k].key, v))), r, slots, k + 1)
  {
    var e := Entry(slots[k].key, v);
    var table := InsertAt(h.tables[r], at, e);
    var b := SetTable(c, r, table);
    assert ValidTable(h, h.tables[r]) && ValidTable(c, c.tables[r]) && c.tables[r] == h.tables[r];
    ClosedAbove(h, c, r + 1);
    NewKey(h, h.tables[r], slots, k);
    FilledOneMore(h, c, r, slots, k, v, at);
    InsertedIsValid(c, h.tables[r], at, e);
    SetIsValid(c, r, table);
    EntriesInserted(h.tables[r], at, e);
    assert ClosedFrom(b, r + 1);
  }

  lemma ClosedAbove(h: Heap, c: Heap, n: nat)
    requires ClosedFrom(h, n) && Keeps(h, c, n) && n <= |h.tables| && ClosedFrom(c, |h.tables|)
    ensures ClosedFrom(c, n)
  {}

  lemma FillingIsPushed(a: Heap, h: Heap, r: nat, slots: seq<Slot>, k: nat, b: Heap)
    requires Filling(a, h, r, slots, k) && b.tables == h.tables && (b.marks == h.marks || b.marks == h.marks + {r})
    ensures Pushed(a, b, Ref(r))
  {
    forall q | 0 <= q < |b.tables| ensures ValidTable(b, b.tables[q]) {
      assert ValidTable(h, h.tables[q]);
    }
    forall q, i | |a.tables| <= q < |b.tables| && 0 <= i < |b.tables[q]| && b.tables[q][i].value.Ref?
      ensures |a.tables| <= b.tables[q][i].value.ref
    {
      if q == r { assert b.tables[r][i] in h.tables[r]; }
    }
  }

  lemma FilledArray(a: Heap, h: Heap, r: nat, items: seq<Json>)
    requires Filling(a, h, r, ArraySlots(items), |items|)
    ensures items != [] ==> Represents(h, Ref(r), Array(items))
    ensures items == [] ==> Represents(h.(marks := h.marks + {r}), Ref(r), Array(items))
  {
    var table, slots := h.tables[r], ArraySlots(items);
    forall k | 0 <= k < |table| ensures table[k].key.IntKey? && 1 <= table[k].key.index <= |items| {
      assert table[k] in table;
      var i :| 0 <= i < |items| && slots[i].key == table[k].key;
    }
    forall i | 1 <= i <= |items|
      ensures Lookup(table, IntKey(i)) != Nil && Represents(h, Lookup(table, IntKey(i)), items[i - 1]) {
      assert slots[i - 1] == Slot(IntKey(i), items[i - 1]);
    }
  }

  lemma FilledObject(a: Heap, h: Heap, r: nat, members: seq<Member>)
    requires Filling(a, h, r, ObjectSlots(members), |members|) && Ascending(members)
    requires forall i :: 0 <= i < |members| ==> |members[i].key| <= MAX_KEY
    ensures Represents(h, Ref(r), Object(members))
  {
    var table, slots := h.tables[r], ObjectSlots(members);
    forall k | 0 <= k < |table|
      ensures table[k].key.StrKey? && |table[k].key.name| <= MAX_KEY && HasKey(members, table[k].key.name)
    {
      assert table[k] in table;
      var i :| 0 <= i < |members| && slots[i].key == table[k].key;
      assert members[i].key == table[k].key.name;
    }
    forall i | 0 <= i < |members|
      ensures Lookup(table, StrKey(members[i].key)) != Nil
      ensures Represents(h, Lookup(table, StrKey(members[i].key)), members[i].value)
    {
      assert slots[i] == Slot(StrKey(members[i].key), members[i].value);
    }
  }

  lemma ArrayApart(items: seq<Json>)
    ensures Apart(ArraySlots(items))
  {}

  lemma ObjectApart(members: seq<Member>)
    requires Ascending(members)
    ensures Apart(ObjectSlots(members))
  {
    forall i, j | 0 <= i < j < |members| ensures members[i].key != members[j].key {
      LessIsTotal(members[i].key, members[j].key);
    }
  }

  // ---- The Lua state ----

  datatype Push = Placed(value: Value) | Refused(error: Error)

  lemma ItemFits(items: seq<Json>, k: nat)
    requires k < |items|
    ensures Total(items[k..]) == Items(items[k]) + Total(items[k + 1..])
  {
    assert items[k..][1..] == items[k + 1..];
  }

  lemma MemberFitsToo(members: seq<Member>, k: nat)
    requires k < |members|
    ensures TotalOf(members[k..]) == Items(members[k].value) + TotalOf(members[k + 1..])
  {
    assert members[k..][1..] == members[k + 1..];
  }

  lemma KeepsOn(a: Heap, b: Heap, c: Heap)
    requires Keeps(a, b, 0) && Keeps(b, c, 0)
    ensures Keeps(a, c, 0)
  {}

  class LuaState {
    var heap: Heap
    var items: nat

    constructor ()
      ensures Valid(heap) && items == 0
    {
      heap, items := Heap([], {}), 0;
    }

    /** Pushes a tree, or refuses it exactly if it is too deep, has too many items, or holds something Lua cannot. */
    method PushValue(j: Json, depth: nat, limit: nat, nested: bool) returns (r: Push)
      requires Valid(heap) && Ordered(j) && items <= limit && depth <= MAX_DEPTH
      modifies this
      ensures Valid(heap) && Keeps(old(heap), heap, 0)
      ensures r.Placed? <==> Fits(j, depth, old(items), limit)
      ensures r.Placed? ==>
        items == old(items) + Items(j) && Represents(heap, r.value, j) && Pushed(old(heap), heap, r.value)
      ensures r.Placed? && nested ==> r.value != Nil
      decreases j, 3
    {
      if (j.Array? || j.Object?) && depth >= MAX_DEPTH { return Refused(TooDeep); }
      match j {
        case Null => r := Placed(if nested then NullSentinel else Nil);
        case Bool(truth) => r := Placed(Boolean(truth));
        case Int(integer) =>
          if integer >= 0x8000_0000_0000_0000 { return Refused(IntegerOutOfRange); }
          r := Placed(Value.Integer(integer));
        case Float(number) =>
          if number.NonFinite? { return Refused(NonFiniteNumber); }
          r := Placed(Real(number));
        case Text(bytes) =>
          if |bytes| > MAX_STRING { return Refused(StringTooLong); }
          r := Placed(Str(bytes));
        case Array(elements) => r := PushArray(elements, depth, limit);
        case Object(members) => r := PushObject(members, depth, limit);
      }
    }

    /** Stores a pushed value under a new key, wherever in the traversal order it may land. */
    method Store(ghost before: Heap, ghost filling: Heap, table: nat, ghost slots: seq<Slot>, ghost k: nat, key: Key,
        v: Value)
      requires Filling(before, filling, table, slots, k) && k < |slots| && Apart(slots) && key == slots[k].key
      requires Pushed(filling, heap, v) && Represents(heap, v, slots[k].json) && v != Nil
      modifies this`heap
      ensures Filling(before, heap, table, slots, k + 1)
    {
      var at :| 0 <= at <= |heap.tables[table]|;
      FillOne(before, filling, heap, table, slots, k, v, at);
      heap := SetTable(heap, table, InsertAt(heap.tables[table], at, Entry(key, v)));
    }

    method PushArray(elements: seq<Json>, depth: nat, limit: nat) returns (r: Push)
      requires Valid(heap) && Ordered(Array(elements)) && items <= limit && depth < MAX_DEPTH
      modifies this
      ensures Valid(heap) && Keeps(old(heap), heap, 0)
      ensures r.Placed? <==> Fits(Array(elements), depth, old(items), limit)
      ensures r.Placed? ==> r.value.Ref? && items == old(items) + Items(Array(elements))
      ensures r.Placed? ==> Represents(heap, r.value, Array(elements)) && Pushed(old(heap), heap, r.value)
      decreases elements, 1
    {
      ghost var before, slots := heap, ArraySlots(elements);
      StartFilling(heap, slots);
      var table := |heap.tables|;
      heap := heap.(tables := heap.tables + [[]]);
      var failure := FillArray(before, table, elements, depth, limit);
      if failure.Some? { return Refused(failure.value); }
      FilledArray(before, heap, table, elements);
      FillingIsPushed(before, heap, table, slots, |elements|,
                      if elements == [] then heap.(marks := heap.marks + {table}) else heap);
      if elements == [] { heap := heap.(marks := heap.marks + {table}); }
      r := Placed(Ref(table));
    }

    method FillArray(ghost before: Heap, table: nat, elements: seq<Json>, depth: nat, limit: nat)
      returns (failure: Option<Error>)
      requires Ordered(Array(elements)) && items <= limit && depth < MAX_DEPTH
      requires Filling(before, heap, table, ArraySlots(elements), 0)
      modifies this
      ensures Valid(heap) && Keeps(before, heap, 0)
      ensures failure.None? <==> Fits(Array(elements), depth, old(items), limit)
      ensures failure.None? ==>
        items == old(items) + Items(Array(elements)) && Filling(before, heap, table, ArraySlots(elements), |elements|)
      decreases elements, 0
    {
      ghost var slots, whole := ArraySlots(elements), items + Items(Array(elements));
      ArrayApart(elements);
      var k := 0;
      assert elements[0..] == elements;
      while k < |elements|
        invariant 0 <= k <= |elements| && items <= limit && Filling(before, heap, table, slots, k)
        invariant items + (|elements| - k) + Total(elements[k..]) == whole
        invariant forall i :: 0 <= i < k ==> Storable(elements[i]) && Within(elements[i], MAX_DEPTH - depth - 1)
      {
        ItemFits(elements, k);
        if items + 1 > limit { return Some(TooManyItems); }
        items := items + 1;
        ghost var filling := heap;
        var child := PushValue(elements[k], depth + 1, limit, true);
        KeepsOn(before, filling, heap);
        if child.Refused? { return Some(child.error); }
        Store(before, filling, table, slots, k, IntKey(k + 1), child.value);
        k := k + 1;
      }
      failure := None;
    }

    method PushObject(members: seq<Member>, depth: nat, limit: nat) returns (r: Push)
      requires Valid(heap) && Ordered(Object(members)) && items <= limit && depth < MAX_DEPTH
      modifies this
      ensures Valid(heap) && Keeps(old(heap), heap, 0)
      ensures r.Placed? <==> Fits(Object(members), depth, old(items), limit)
      ensures r.Placed? ==> r.value.Ref? && items == old(items) + Items(Object(members))
      ensures r.Placed? ==> Represents(heap, r.value, Object(members)) && Pushed(old(heap), heap, r.value)
      decreases members, 2
    {
      ghost var before, slots := heap, ObjectSlots(members);
      StartFilling(heap, slots);
      var table := |heap.tables|;
      heap := heap.(tables := heap.tables + [[]]);
      var failure := FillObject(before, table, members, depth, limit);
      if failure.Some? { return Refused(failure.value); }
      FilledObject(before, heap, table, members);
      FillingIsPushed(before, heap, table, slots, |members|, heap);
      r := Placed(Ref(table));
    }

    method FillObject(ghost before: Heap, table: nat, members: seq<Member>, depth: nat, limit: nat)
      returns (failure: Option<Error>)
      requires Ordered(Object(members)) && items <= limit && depth < MAX_DEPTH
      requires Filling(before, heap, table, ObjectSlots(members), 0)
      modifies this
      ensures Valid(heap) && Keeps(before, heap, 0)
      ensures failure.None? <==> Fits(Object(members), depth, old(items), limit)
      ensures failure.None? ==>
        items == old(items) + Items(Object(members)) && Filling(before, heap, table, ObjectSlots(members), |members|)
      decreases members, 1
    {
      ghost var slots, whole := ObjectSlots(members), items + Items(Object(members));
      var k := 0;
      assert members[0..] == members;
      while k < |members|
        invariant 0 <= k <= |members| && items <= limit && Filling(before, heap, table, slots, k)
        invariant items + (|members| - k) + TotalOf(members[k..]) == whole
        invariant forall i :: 0 <= i < k ==>
          |members[i].key| <= MAX_KEY && Storable(members[i].value) && Within(members[i].value, MAX_DEPTH - depth - 1)
      {
        MemberFitsToo(members, k);
        failure := FillMember(before, table, members, k, depth, limit);
        if failure.Some? { return; }
        k := k + 1;
      }
      failure := None;
    }

    method FillMember(ghost before: Heap, table: nat, members: seq<Member>, k: nat, depth: nat, limit: nat)
      returns (failure: Option<Error>)
      requires Ordered(Object(members)) && items <= limit && depth < MAX_DEPTH && k < |members|
      requires Filling(before, heap, table, ObjectSlots(members), k)
      modifies this
      ensures Valid(heap) && Keeps(before, heap, 0)
      ensures failure.None? <==> |members[k].key| <= MAX_KEY && Fits(members[k].value, depth + 1, old(items) + 1, limit)
      ensures failure.None? ==> items == old(items) + 1 + Items(members[k].value)
      ensures failure.None? ==> Filling(before, heap, table, ObjectSlots(members), k + 1)
      decreases members, 0
    {
      if items + 1 > limit { return Some(TooManyItems); }
      items := items + 1;
      if |members[k].key| > MAX_KEY { return Some(StringTooLong); }
      ghost var filling := heap;
      var child := PushValue(members[k].value, depth + 1, limit, true);
      KeepsOn(before, filling, heap);
      if child.Refused? { return Some(child.error); }
      ObjectApart(members);
      Store(before, filling, table, ObjectSlots(members), k, StrKey(members[k].key), child.value);
      failure := None;
    }

    /** The entry point: the serialized size is checked first, the item count starts afresh. */
    method PushJson(j: Json, limit: nat, dump: Json -> Option<nat>) returns (r: Push)
      requires Valid(heap) && Ordered(j)
      modifies this
      ensures Valid(heap) && Keeps(old(heap), heap, 0)
      ensures r.Placed? <==> Crosses(j, limit) && dump(j).Some? && dump(j).value <= MAX_SERIALIZED
      ensures r.Placed? ==> Represents(heap, r.value, j) && InHeap(heap, r.value)
    {
      if dump(j).None? { return Refused(InvalidUtf8); }
      if dump(j).value > MAX_SERIALIZED { return Refused(RecordTooLarge); }
      items := 0;
      r := PushValue(j, 0, limit, false);
    }

    /** Pushing a tree and reading it back under the same limit gives the same tree, for every tree the push accepts. */
    method RoundTrip(j: Json, limit: nat, dump: Json -> Option<nat>) returns (r: Conversion)
      requires Valid(heap) && Ordered(j)
      modifies this
      ensures Crosses(j, limit) && dump(j).Some? && dump(j).value <= MAX_SERIALIZED <==> r.Converted?
      ensures r.Converted? ==> r.json == j
    {
      var pushed := PushJson(j, limit, dump);
      if pushed.Refused? { return Failed(pushed.error); }
      ConvertsIff(heap, pushed.value, limit, j);
      var reader := new Reader(heap, limit);
      r := reader.ReadJson(pushed.value, dump);
    }
  }

  // ---- Reading ----

  class Reader {
    const heap: Heap
    const limit: nat
    var items: nat
    var activeTables: set<nat>

    constructor (heap: Heap, limit: nat)
      ensures this.heap == heap && this.limit == limit && items == 0 && activeTables == {}
    {
      this.heap, this.limit, items, activeTables := heap, limit, 0, {};
    }

    function At(depth: nat): Frame
      reads this
    {
      Frame(heap, limit, depth, activeTables)
    }

    /** The outcome a conversion promises is the outcome reached, and the tables entered have all been left. */
    predicate Agrees(r: Conversion, c: Conversion)
      reads this
    {
      r == c && (c.Converted? ==> items == c.count)
    }

    method ConvertValue(v: Value, depth: nat) returns (r: Conversion)
      requires Ready(At(depth)) && InHeap(heap, v)
      modifies this
      ensures activeTables == old(activeTables) && Agrees(r, Convert(old(At(depth)), v, old(items)))
      decreases MAX_DEPTH - depth, 3
    {
      match v {
        case Nil => r := Converted(Null, items);
        case NullSentinel => r := Converted(Null, items);
        case Boolean(truth) => r := Converted(Bool(truth), items);
        case Integer(integer) => r := Converted(Int(integer), items);
        case Real(number) => r := if number.Finite? then Converted(Float(number), items) else Failed(NonFiniteNumber);
        case Str(bytes) => r := if |bytes| > MAX_STRING then Failed(StringTooLong) else Converted(Text(bytes), items);
        case Opaque => r := Failed(UnsupportedType);
        case Ref(table) => r := ReadTable(table, depth);
      }
    }

    method ReadTable(table: nat, depth: nat) returns (r: Conversion)
      requires Ready(At(depth)) && table < |heap.tables|
      modifies this
      ensures activeTables == old(activeTables) && Agrees(r, ConvertTable(old(At(depth)), table, old(items)))
      decreases MAX_DEPTH - depth, 2
    {
      if depth >= MAX_DEPTH { return Failed(TooDeep); }
      if table in activeTables { return Failed(Cycle); }
      ghost var start, outer := items, activeTables;
      activeTables := activeTables + {table};
      ghost var inner := At(depth);
      var scan := ScanEntries(table, depth);
      if scan.Stuck? {
        r := Failed(scan.error);
      } else if scan.kind.AsArray? && scan.largest != scan.entries {
        r := Failed(SparseTable);
      } else if scan.kind.AsArray? {
        var each := ReadElements(table, scan.entries, depth);
        r := if each.Broken? then Failed(each.error) else Converted(Array(each.items), items);
      } else if scan.kind.AsObject? {
        r := Converted(Object(scan.members), items);
      } else {
        r := Converted(if table in heap.marks then Array([]) else Object([]), items);
      }
      assert r == Finish(inner, heap.tables[table], table in heap.marks, ScanFrom(inner, table, start));
      assert activeTables - {table} == outer;
      activeTables := activeTables - {table};
    }

    /** The first traversal. */
    method ScanEntries(table: nat, depth: nat) returns (scan: Scan)
      requires Ready(At(depth)) && depth < MAX_DEPTH && table < |heap.tables|
      modifies this
      ensures activeTables == old(activeTables) && scan == ScanFrom(old(At(depth)), table, old(items))
      ensures scan.Scanned? ==> items == scan.total
      decreases MAX_DEPTH - depth, 1
    {
      var entries := heap.tables[table];
      ghost var f := At(depth);
      scan := Scanned(Empty, 0, 0, [], items);
      var i := 0;
      assert entries[0..] == entries;
      while i < |entries|
        invariant 0 <= i <= |entries| && activeTables == old(activeTables)
        invariant scan.Scanned? && items == scan.total
        invariant ScanAll(f, entries[i..], scan) == ScanFrom(f, table, old(items))
      {
        ScanUnfolds(f, entries, i, scan, ScanOne(f, entries[i], scan));
        scan := ScanEntry(entries[i], depth, scan);
        if scan.Stuck? { return; }
        i := i + 1;
      }
    }

    method ScanEntry(e: Entry, depth: nat, s: Scan) returns (next: Scan)
      requires Ready(At(depth)) && depth < MAX_DEPTH && InHeap(heap, e.value) && s.Scanned? && items == s.total
      modifies this
      ensures activeTables == old(activeTables) && next == ScanOne(old(At(depth)), e, s)
      ensures next.Scanned? ==> items == next.total
      decreases MAX_DEPTH - depth, 0
    {
      items := items + 1;
      if items > limit { return Stuck(TooManyItems); }
      match e.key {
        case IntKey(index) =>
          if s.kind.AsObject? { return Stuck(MixedTable); }
          if index < 1 { return Stuck(SparseTable); }
          next := Scanned(AsArray, if index > s.largest then index else s.largest, s.entries + 1, s.members, items);
        case StrKey(name) =>
          if s.kind.AsArray? { return Stuck(MixedTable); }
          if |name| > MAX_KEY { return Stuck(StringTooLong); }
          var child := ConvertValue(e.value, depth + 1);
          next := WithMember(s, name, child);
        case OtherKey(_) => next := Stuck(UnsupportedKey);
      }
    }

    /** The second traversal of an array, by index. */
    method ReadElements(table: nat, last: nat, depth: nat) returns (done: Elements)
      requires Ready(At(depth)) && depth < MAX_DEPTH && table < |heap.tables|
      modifies this
      ensures activeTables == old(activeTables)
      ensures done == ConvertEach(old(At(depth)), heap.tables[table], 1, last, Elements([], old(items)))
      ensures done.Elements? ==> items == done.total
      decreases MAX_DEPTH - depth, 1
    {
      ghost var f := At(depth);
      done := Elements([], items);
      var index := 1;
      while index <= last
        invariant 1 <= index <= last + 1 && activeTables == old(activeTables)
        invariant done.Elements? && items == done.total
        invariant ConvertEach(f, heap.tables[table], index, last, done)
                  == ConvertEach(f, heap.tables[table], 1, last, Elements([], old(items)))
      {
        LookupInHeap(heap, heap.tables[table], IntKey(index));
        var child := ConvertValue(Lookup(heap.tables[table], IntKey(index)), depth + 1);
        if child.Failed? { return Broken(child.error); }
        done := Elements(done.items + [child.json], items);
        index := index + 1;
      }
    }

    method ReadJson(v: Value, dump: Json -> Option<nat>) returns (r: Conversion)
      requires Valid(heap) && InHeap(heap, v) && items == 0 && activeTables == {}
      modifies this
      ensures var c := LuaToJson(heap, v, limit);
              if c.Failed? then r == c
              else if dump(c.json).None? then r == Failed(InvalidUtf8)
              else if dump(c.json).value > MAX_SERIALIZED then r == Failed(RecordTooLarge)
              else r == c
    {
      r := ConvertValue(v, 0);
      if r.Failed? { return; }
      if dump(r.json).None? { return Failed(InvalidUtf8); }
      if dump(r.json).value > MAX_SERIALIZED { return Failed(RecordTooLarge); }
    }
  }
}
