/** JSON trees, Lua heaps, and what it means for a Lua value to represent a JSON tree. */
module LuaHeap {

  const MAX_DEPTH := 16
  const MAX_STRING := 8 * 1024 * 1024
  const MAX_KEY := 4096

  type Int64 = n: int | -0x8000_0000_0000_0000 <= n < 0x8000_0000_0000_0000
  /** What the JSON library can hold: signed and unsigned 64-bit integers. */
  type Integer = n: int | -0x8000_0000_0000_0000 <= n < 0x1_0000_0000_0000_0000

  datatype Number = Finite(x: real) | NonFinite

  datatype Json =
    | Null
    | Bool(truth: bool)
    | Int(integer: Integer)
    | Float(number: Number)
    | Text(bytes: string)
    | Array(items: seq<Json>)
    | Object(members: seq<Member>)

  datatype Member = Member(key: string, value: Json)

  // ---- Keys and their order ----

  predicate Less(a: string, b: string) {
    b != [] && (a == [] || a[0] < b[0] || (a[0] == b[0] && Less(a[1..], b[1..])))
  }

  lemma {:induction false} LessIsTotal(a: string, b: string)
    ensures Less(a, b) || a == b || Less(b, a)
    ensures !(Less(a, b) && Less(b, a)) && (Less(a, b) ==> a != b)
  {
    if a != [] && b != [] {
      LessIsTotal(a[1..], b[1..]);
      assert a == [a[0]] + a[1..] && b == [b[0]] + b[1..];
    }
  }

  lemma {:induction false} LessIsTransitive(a: string, b: string, c: string)
    requires Less(a, b) && Less(b, c)
    ensures Less(a, c)
  {
    if a != [] && a[0] == b[0] && b[0] == c[0] { LessIsTransitive(a[1..], b[1..], c[1..]); }
  }

  predicate Ascending(members: seq<Member>) {
    forall i, j :: 0 <= i < j < |members| ==> Less(members[i].key, members[j].key)
  }

  predicate HasKey(members: seq<Member>, key: string) {
    exists i :: 0 <= i < |members| && members[i].key == key
  }

  lemma AscendingTail(members: seq<Member>)
    requires Ascending(members) && members != []
    ensures Ascending(members[1..])
    ensures forall m <- members[1..] :: Less(members[0].key, m.key)
  {}

  lemma AscendingCons(first: Member, rest: seq<Member>)
    requires Ascending(rest) && forall m <- rest :: Less(first.key, m.key)
    ensures Ascending([first] + rest)
  {
    var all := [first] + rest;
    forall i, j | 0 <= i < j < |all| ensures Less(all[i].key, all[j].key) {
      assert all[j] == rest[j - 1];
      if i > 0 { assert all[i] == rest[i - 1]; }
    }
  }

  /** An ordered map is determined by its members. */
  lemma {:induction false} AscendingIsUnique(a: seq<Member>, b: seq<Member>)
    requires Ascending(a) && Ascending(b) && |a| == |b| && forall m :: m in a <==> m in b
    ensures a == b
  {
    if a != [] {
      assert a[0] in b && b[0] in a;
      AscendingTail(a);
      AscendingTail(b);
      assert a == [a[0]] + a[1..] && b == [b[0]] + b[1..];
      LessIsTotal(a[0].key, b[0].key);
      assert a[0] == b[0];
      forall m ensures m in a[1..] <==> m in b[1..] {
        LessIsTotal(a[0].key, m.key);
        assert m in a <==> m == a[0] || m in a[1..];
        assert m in b <==> m == b[0] || m in b[1..];
      }
      AscendingIsUnique(a[1..], b[1..]);
    }
  }

  // ---- How large a tree is ----

  /** Every array element and object member below, at any depth. */
  function Items(j: Json): nat
    decreases j, 1
  {
    match j
    case Array(items) => |items| + Total(items)
    case Object(members) => |members| + TotalOf(members)
    case _ => 0
  }

  function Total(items: seq<Json>): nat
    decreases items, 0
  {
    if items == [] then 0 else Items(items[0]) + Total(items[1..])
  }

  function TotalOf(members: seq<Member>): nat
    decreases members, 0
  {
    if members == [] then 0 else Items(members[0].value) + TotalOf(members[1..])
  }

  lemma {:induction false} TotalHolds(items: seq<Json>, i: nat)
    requires i < |items|
    ensures Items(items[i]) <= Total(items)
    decreases |items|
  {
    if i > 0 { TotalHolds(items[1..], i - 1); }
  }

  lemma {:induction false} TotalOfHolds(members: seq<Member>, i: nat)
    requires i < |members|
    ensures Items(members[i].value) <= TotalOf(members)
    decreases |members|
  {
    if i > 0 { TotalOfHolds(members[1..], i - 1); }
  }

  /** At most this many containers are nested. */
  predicate Within(j: Json, depth: nat)
    decreases j
  {
    match j
    case Array(items) => depth > 0 && forall i :: 0 <= i < |items| ==> Within(items[i], depth - 1)
    case Object(members) => depth > 0 && forall i :: 0 <= i < |members| ==> Within(members[i].value, depth - 1)
    case _ => true
  }

  // ---- The heap ----

  datatype Value = Nil | Boolean(truth: bool) | Integer(integer: Int64) | Real(number: Number) | Str(bytes: string)
    | NullSentinel | Ref(ref: nat) | Opaque

  datatype Key = IntKey(index: int) | StrKey(name: string) | OtherKey(id: nat)

  datatype Entry = Entry(key: Key, value: Value)

  /** The entries of a table in the order a traversal visits them. */
  type Table = seq<Entry>

  datatype Heap = Heap(tables: seq<Table>, marks: set<nat>)

  predicate Distinct(table: Table) {
    forall i, j :: 0 <= i < j < |table| ==> table[i].key != table[j].key
  }

  predicate InHeap(h: Heap, v: Value) {
    v.Ref? ==> v.ref < |h.tables|
  }

  predicate ValidTable(h: Heap, table: Table) {
    Distinct(table) && forall i :: 0 <= i < |table| ==> table[i].value != Nil && InHeap(h, table[i].value)
  }

  predicate Valid(h: Heap) {
    && (forall r :: 0 <= r < |h.tables| ==> ValidTable(h, h.tables[r]))
    && (forall r <- h.marks :: r < |h.tables|)
  }

  function Lookup(table: Table, key: Key): Value {
    if table == [] then Nil else if table[0].key == key then table[0].value else Lookup(table[1..], key)
  }

  lemma {:induction false} LookupFinds(table: Table, i: nat)
    requires Distinct(table) && i < |table|
    ensures Lookup(table, table[i].key) == table[i].value
  {
    if i > 0 { LookupFinds(table[1..], i - 1); }
  }

  lemma {:induction false} LookupIsEntry(table: Table, key: Key) returns (i: nat)
    requires Lookup(table, key) != Nil
    ensures i < |table| && table[i] == Entry(key, Lookup(table, key))
  {
    if table[0].key == key {
      i := 0;
    } else {
      var k := LookupIsEntry(table[1..], key);
      i := k + 1;
    }
  }

  // ---- Representation ----

  /** The table's keys are exactly 1 to n; an empty array is told from an empty object by its mark. */
  predicate ArrayShape(table: Table, n: nat, marked: bool) {
    && |table| == n && (n == 0 ==> marked)
    && (forall k :: 0 <= k < |table| ==> table[k].key.IntKey? && 1 <= table[k].key.index <= n)
    && (forall i :: 1 <= i <= n ==> Lookup(table, IntKey(i)) != Nil)
  }

  predicate ObjectShape(table: Table, members: seq<Member>, marked: bool) {
    && |table| == |members| && (members == [] ==> !marked) && Ascending(members)
    && (forall k :: 0 <= k < |table| ==>
          table[k].key.StrKey? && |table[k].key.name| <= MAX_KEY && HasKey(members, table[k].key.name))
    && (forall i :: 0 <= i < |members| ==> Lookup(table, StrKey(members[i].key)) != Nil)
  }

  ghost predicate Represents(h: Heap, v: Value, j: Json)
    decreases j
  {
    match j
    case Null => v == Nil || v == NullSentinel
    case Bool(truth) => v == Boolean(truth)
    case Int(integer) => v.Integer? && v.integer == integer
    case Float(number) => v == Real(number) && number.Finite?
    case Text(bytes) => v == Str(bytes) && |bytes| <= MAX_STRING
    case Array(items) =>
      && v.Ref? && v.ref < |h.tables| && ArrayShape(h.tables[v.ref], |items|, v.ref in h.marks)
      && forall i :: 1 <= i <= |items| ==> Represents(h, Lookup(h.tables[v.ref], IntKey(i)), items[i - 1])
    case Object(members) =>
      && v.Ref? && v.ref < |h.tables| && ObjectShape(h.tables[v.ref], members, v.ref in h.marks)
      && forall i :: 0 <= i < |members| ==>
        Represents(h, Lookup(h.tables[v.ref], StrKey(members[i].key)), members[i].value)
  }

  lemma {:induction false} MembersAgree(h: Heap, table: Table, a: seq<Member>, b: seq<Member>, marked: bool, i: nat)
    requires ObjectShape(table, a, marked) && ObjectShape(table, b, marked) && i < |a|
    requires forall k :: 0 <= k < |a| ==> Represents(h, Lookup(table, StrKey(a[k].key)), a[k].value)
    requires forall k :: 0 <= k < |b| ==> Represents(h, Lookup(table, StrKey(b[k].key)), b[k].value)
    ensures a[i] in b
    decreases a[i].value, 1
  {
    var e := LookupIsEntry(table, StrKey(a[i].key));
    assert HasKey(b, a[i].key);
    var k :| 0 <= k < |b| && b[k].key == a[i].key;
    RepresentsOne(h, Lookup(table, StrKey(a[i].key)), a[i].value, b[k].value);
    assert a[i] == b[k];
  }

  /** A value represents at most one tree. */
  lemma {:induction false} RepresentsOne(h: Heap, v: Value, a: Json, b: Json)
    requires Represents(h, v, a) && Represents(h, v, b)
    ensures a == b
    decreases a, 0
  {
    if v.Ref? {
      var table := h.tables[v.ref];
      if a.Array? && b.Array? {
        forall i | 0 <= i < |a.items| ensures a.items[i] == b.items[i] {
          assert b.items[(i + 1) - 1] == b.items[i];
          RepresentsOne(h, Lookup(table, IntKey(i + 1)), a.items[i], b.items[i]);
        }
      } else if a.Object? && b.Object? {
        forall m | m in a.members ensures m in b.members {
          var i :| 0 <= i < |a.members| && a.members[i] == m;
          MembersAgree(h, table, a.members, b.members, v.ref in h.marks, i);
        }
        forall m | m in b.members ensures m in a.members {
          var i :| 0 <= i < |b.members| && b.members[i] == m;
          assert Lookup(table, StrKey(m.key)) != Nil;
          var e := LookupIsEntry(table, StrKey(m.key));
          assert HasKey(a.members, m.key);
          var k :| 0 <= k < |a.members| && a.members[k].key == m.key;
          RepresentsOne(h, Lookup(table, StrKey(m.key)), a.members[k].value, m.value);
          assert a.members[k] == m;
        }
        AscendingIsUnique(a.members, b.members);
      }
    }
  }

  // ---- Cycles ----

  predicate Contains(h: Heap, parent: nat, child: nat) {
    parent < |h.tables| && exists i :: 0 <= i < |h.tables[parent]| && h.tables[parent][i].value == Ref(child)
  }

  predicate Path(h: Heap, p: seq<nat>) {
    forall i :: 0 <= i < |p| - 1 ==> Contains(h, p[i], p[i + 1])
  }

  lemma ChildHasTree(h: Heap, parent: nat, child: nat, j: Json) returns (k: Json)
    requires Valid(h) && Represents(h, Ref(parent), j) && Contains(h, parent, child)
    ensures Represents(h, Ref(child), k) && Items(k) < Items(j)
  {
    var table := h.tables[parent];
    var i :| 0 <= i < |table| && table[i].value == Ref(child);
    LookupFinds(table, i);
    if j.Array? {
      var at := table[i].key.index;
      assert table[i].key == IntKey(at);
      TotalHolds(j.items, at - 1);
      k := j.items[at - 1];
      assert Represents(h, Lookup(table, IntKey(at)), k);
    } else {
      assert HasKey(j.members, table[i].key.name);
      var at :| 0 <= at < |j.members| && j.members[at].key == table[i].key.name;
      TotalOfHolds(j.members, at);
      k := j.members[at].value;
      assert table[i].key == StrKey(j.members[at].key);
    }
  }

  lemma {:induction false} TreesShrinkAlong(h: Heap, p: seq<nat>, j: Json) returns (k: Json)
    requires Valid(h) && p != [] && Path(h, p) && Represents(h, Ref(p[0]), j)
    ensures Represents(h, Ref(p[|p| - 1]), k) && Items(k) <= Items(j) && (|p| > 1 ==> Items(k) < Items(j))
  {
    if |p| == 1 {
      k := j;
    } else {
      assert Contains(h, p[0], p[0 + 1]);
      var child := ChildHasTree(h, p[0], p[1], j);
      assert Path(h, p[1..]) by {
        forall i | 0 <= i < |p[1..]| - 1 ensures Contains(h, p[1..][i], p[1..][i + 1]) {
          assert Contains(h, p[i + 1], p[i + 1 + 1]);
        }
      }
      k := TreesShrinkAlong(h, p[1..], child);
    }
  }

  /** A table from which a cycle can be reached represents no tree at all. */
  lemma CyclicHasNoTree(h: Heap, approach: seq<nat>, cycle: seq<nat>, j: Json)
    requires Valid(h) && approach != [] && Path(h, approach)
    requires |cycle| > 1 && Path(h, cycle) && cycle[0] == approach[|approach| - 1] && cycle[|cycle| - 1] == cycle[0]
    ensures !Represents(h, Ref(approach[0]), j)
  {
    if Represents(h, Ref(approach[0]), j) {
      var first := TreesShrinkAlong(h, approach, j);
      var again := TreesShrinkAlong(h, cycle, first);
      RepresentsOne(h, Ref(cycle[0]), first, again);
    }
  }
}
