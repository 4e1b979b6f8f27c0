/** Going through a Lua table (modules/lua/ltable.c): luaH_next, and stores during
    a traversal. */
module LuaTableNext {
  import opened LuaTableNodes
  import opened LuaTable

  // ----- Traversal -----

  /** The place of a key: array entries first, then nodes. */
  predicate PlaceOf(arr: seq<Value>, node: seq<Node>, k: Key, i: nat) {
    if i < |arr| then k == KInt(i + 1) else i < |arr| + |node| && node[i - |arr|].key == k != KNil && !InArr(arr, k)
  }

  function Entry(arr: seq<Value>, node: seq<Node>, i: nat): (e: (Key, Value))
    requires i < |arr| + |node|
  {
    if i < |arr| then (KInt(i + 1), arr[i]) else (node[i - |arr|].key, node[i - |arr|].val)
  }

  /** The non-nil entries from place `i` on, in their order. */
  ghost function Entries(arr: seq<Value>, node: seq<Node>, i: nat): seq<(Key, Value)>
    decreases |arr| + |node| - i
  {
    if i >= |arr| + |node| then [] else
    (if Entry(arr, node, i).1 != VNil then [Entry(arr, node, i)] else []) + Entries(arr, node, i + 1)
  }

  datatype Index = Invalid | At(i: int)

  /** findindex */
  method FindIndex(t: Table, k: Key) returns (r: Index)
    requires t.Valid()
    ensures k == KNil ==> r == Index.At(-1)
    ensures r == Invalid <==> k != KNil && !InArr(t.arr, k) && !Has(t.node, k)
    ensures k != KNil && r.At? ==> r.i >= 0 && PlaceOf(t.arr, t.node, k, r.i)
  {
    hide LuaTableNodes.Hashed;
    if k == KNil { return Index.At(-1); }
    if InArr(t.arr, k) { return Index.At(k.i - 1); }
    var n := t.FindNode(k);
    if n < 0 { return Invalid; }
    return Index.At(|t.arr| + n);
  }

  datatype Step = Error | Done | Found(key: Key, val: Value)

  /** luaH_next: the first non-nil entry behind that of `k`; from the start for nil. */
  method Next(t: Table, k: Key) returns (r: Step)
    requires t.Valid()
    ensures r == Error <==> k != KNil && !InArr(t.arr, k) && !Has(t.node, k)
    ensures k == KNil ==> Yields(t.arr, t.node, 0, r)
    ensures forall i: nat | k != KNil && PlaceOf(t.arr, t.node, k, i) :: Yields(t.arr, t.node, i + 1, r)
  {
    hide LuaTableNodes.Hashed, Entries, Entry, LuaTableNodes.FreeBelow;
    var at := FindIndex(t, k);
    if at == Invalid { NoPlace(t, k); return Error; }
    var i := at.i + 1;
    ghost var i0: nat := i;
    if k != KNil { OnePlace(t, k, at.i); }
    while i < |t.arr|
      invariant i0 <= i && Entries(t.arr, t.node, i) == Entries(t.arr, t.node, i0)
    {
      EntriesStep(t.arr, t.node, i);
      if t.arr[i] != VNil { return Found(KInt(i + 1), t.arr[i]); }
      i := i + 1;
    }
    i := i - |t.arr|;
    while i < |t.node|
      invariant 0 <= i && Entries(t.arr, t.node, i + |t.arr|) == Entries(t.arr, t.node, i0)
    {
      EntriesStep(t.arr, t.node, i + |t.arr|);
      if t.node[i].val != VNil { return Found(t.node[i].key, t.node[i].val); }
      i := i + 1;
    }
    EntriesEnd(t.arr, t.node, i + |t.arr|);
    return Done;
  }

  /** What a call that goes on from place `i` gives. */
  ghost predicate Yields(arr: seq<Value>, node: seq<Node>, i: nat, r: Step) {
    var es := Entries(arr, node, i);
    if es == [] then r == Done else r == Found(es[0].0, es[0].1)
  }

  lemma {:induction false} EntriesStep(arr: seq<Value>, node: seq<Node>, i: nat)
    requires i < |arr| + |node|
    ensures var v := if i < |arr| then arr[i] else node[i - |arr|].val;
      var k := if i < |arr| then KInt(i + 1) else node[i - |arr|].key;
      Entries(arr, node, i) == (if v != VNil then [(k, v)] else []) + Entries(arr, node, i + 1)
  {
  }

  lemma {:induction false} EntriesEnd(arr: seq<Value>, node: seq<Node>, i: nat)
    requires i >= |arr| + |node|
    ensures Entries(arr, node, i) == []
  {
  }

  lemma {:induction false} NoPlace(t: Table, k: Key)
    requires k != KNil && !InArr(t.arr, k) && !Has(t.node, k)
    ensures forall i: nat :: !PlaceOf(t.arr, t.node, k, i)
  {
  }

  lemma {:induction false} OnePlace(t: Table, k: Key, i: nat)
    requires t.Valid() && k != KNil && PlaceOf(t.arr, t.node, k, i)
    ensures forall j: nat | PlaceOf(t.arr, t.node, k, j) :: j == i
  {
    hide LuaTableNodes.Hashed;
    t.KeysDistinct();
  }

  /** The entries are what the table holds, each key once. */
  lemma {:induction false} EntriesAll(t: Table, k: Key, v: Value)
    requires t.Valid() && v != VNil
    ensures (k, v) in Entries(t.arr, t.node, 0) <==> t.At(k) == v
  {
    hide LuaTableNodes.Hashed, Entries, LuaTableNodes.FreeBelow;
    t.KeysDistinct();
    EntriesFrom(t.arr, t.node, 0, k, v);
    if t.At(k) == v {
      if !InArr(t.arr, k) {
        var n :| 0 <= n < |t.node| && t.node[n].key == k;
        LookupNode(t.arr, t.node, n);
        assert Entry(t.arr, t.node, n + |t.arr|) == (k, v);
      } else {
        assert Entry(t.arr, t.node, k.i - 1) == (k, v);
      }
    }
    if (k, v) in Entries(t.arr, t.node, 0) {
      var i: nat :| i < |t.arr| + |t.node| && Entry(t.arr, t.node, i) == (k, v);
      if i >= |t.arr| { LookupNode(t.arr, t.node, i - |t.arr|); }
    }
  }

  lemma {:induction false} EntriesFrom(arr: seq<Value>, node: seq<Node>, i: nat, k: Key, v: Value)
    requires v != VNil
    ensures (k, v) in Entries(arr, node, i)
        <==> exists j: nat :: i <= j < |arr| + |node| && Entry(arr, node, j) == (k, v)
    decreases |arr| + |node| - i
  {
    if i < |arr| + |node| { EntriesFrom(arr, node, i + 1, k, v); }
  }

  lemma {:induction false} EntriesOnce(t: Table, i: nat)
    requires t.Valid()
    ensures forall a, b | 0 <= a < b < |Entries(t.arr, t.node, i)| :: Entries(t.arr, t.node, i)[a].0 != Entries(t.arr,
        t.node, i)[b].0
    decreases |t.arr| + |t.node| - i
  {
    hide LuaTableNodes.Hashed, LuaTableNodes.FreeBelow;
    if i < |t.arr| + |t.node| {
      EntriesOnce(t, i + 1);
      t.KeysDistinct();
      var rest := Entries(t.arr, t.node, i + 1);
      forall b | 0 <= b < |rest| && Entry(t.arr, t.node, i).1 != VNil ensures rest[b].0 != Entry(t.arr, t.node, i).0 {
        EntryLive(t.arr, t.node, i + 1, b);
        EntriesFrom(t.arr, t.node, i + 1, rest[b].0, rest[b].1);
        assert rest[b] in rest;
      }
    }
  }

  lemma {:induction false} EntryLive(arr: seq<Value>, node: seq<Node>, i: nat, b: nat)
    requires b < |Entries(arr, node, i)|
    ensures Entries(arr, node, i)[b].1 != VNil
    decreases |arr| + |node| - i
  {
    if i < |arr| + |node| {
      var d := if Entry(arr, node, i).1 != VNil then 1 else 0;
      if b >= d { EntryLive(arr, node, i + 1, b - d); }
    }
  }

  // ----- Stores during a traversal -----

  /** What Valid says of the values alone. */
  ghost predicate Parts(arr: seq<Value>, node: seq<Node>) {
    Distinct(node) && forall i | 0 <= i < |node| ::
        !InArr(arr, node[i].key) && (node[i].key == KNil ==> node[i].val == VNil)
  }

  lemma {:induction false} ValidParts(t: Table)
    requires t.Valid()
    ensures Parts(t.arr, t.node)
  {
    hide LuaTableNodes.Hashed, LuaTableNodes.FreeBelow;
    t.KeysDistinct();
  }

  /** A key's place says what the table holds for it. */
  lemma {:induction false} PlaceLookup(arr: seq<Value>, node: seq<Node>, k: Key)
    requires Parts(arr, node)
    ensures forall i: nat | PlaceOf(arr, node, k, i) :: Lookup(arr, node, k) == Entry(arr, node, i).1
    ensures Lookup(arr, node, k) != VNil ==> exists i: nat :: PlaceOf(arr, node, k, i)
  {
    forall i: nat | PlaceOf(arr, node, k, i) ensures Lookup(arr, node, k) == Entry(arr, node, i).1 {
      if i >= |arr| { LookupNode(arr, node, i - |arr|); }
    }
    if InArr(arr, k) {
      assert PlaceOf(arr, node, k, k.i - 1);
    } else if k != KNil && Has(node, k) {
      var n :| 0 <= n < |node| && node[n].key == k;
      assert PlaceOf(arr, node, k, n + |arr|);
    }
  }

  /** The next entry and its place. */
  lemma {:induction false} FirstLive(arr: seq<Value>, node: seq<Node>, i: nat) returns (j: nat)
    requires Entries(arr, node, i) != [] && Parts(arr, node)
    ensures i <= j < |arr| + |node| && Entry(arr, node, j).1 != VNil && PlaceOf(arr, node, Entry(arr, node, j).0, j)
    ensures Entries(arr, node, i) == [Entry(arr, node, j)] + Entries(arr, node, j + 1)
    ensures forall m: nat | i <= m < j :: Entry(arr, node, m).1 == VNil
    decreases |arr| + |node| - i
  {
    j := i;
    if Entry(arr, node, i).1 == VNil { j := FirstLive(arr, node, i + 1); }
  }

  lemma {:induction false} EntryWritten(arr: seq<Value>, node: seq<Node>, k: Key, v: Value, arr': seq<Value>,
      node': seq<Node>, j: nat, m: nat)
    requires Parts(arr, node) && Overwritten(arr, node, k, v, arr', node') && PlaceOf(arr, node, k, j)
        && m < |arr| + |node|
    ensures PlaceOf(arr', node', k, j) && j < |arr| + |node|
    ensures Entry(arr', node', m) == if m == j then (k, v) else Entry(arr, node, m)
  {
  }

  /** The same entries from `i` on. */
  lemma {:induction false} EntriesSame(arr: seq<Value>, node: seq<Node>, arr': seq<Value>, node': seq<Node>, i: nat)
    requires |arr'| == |arr| && |node'| == |node| && forall m: nat | i <= m < |arr| + |node| ::
        Entry(arr', node', m) == Entry(arr, node, m)
    ensures Entries(arr', node', i) == Entries(arr, node, i)
    decreases |arr| + |node| - i
  {
    hide Entry;
    if i < |arr| + |node| {
      assert Entry(arr', node', i) == Entry(arr, node, i);
      EntriesSame(arr, node, arr', node', i + 1);
    }
  }

  /** The entries before `i` have got their new values. */
  ghost predicate Changed(arr0: seq<Value>, node0: seq<Node>, arr: seq<Value>, node: seq<Node>,
      f: (Key, Value) -> Value, i: nat)
  {
    && |arr| == |arr0| && |node| == |node0|
    && forall m: nat | m < |arr| + |node| :: EntryChanged(arr0, node0, arr, node, f, i, m)
  }

  ghost predicate EntryChanged(arr0: seq<Value>, node0: seq<Node>, arr: seq<Value>, node: seq<Node>,
      f: (Key, Value) -> Value, i: nat, m: nat)
    requires |arr| == |arr0| && |node| == |node0| && m < |arr| + |node|
  {
    var e0, e := Entry(arr0, node0, m), Entry(arr, node, m);
    e.0 == e0.0 && e.1 == if m >= i || e0.1 == VNil then e0.1 else f(e0.0, e0.1)
  }

  /** A loop over luaH_next whose body assigns to the entry it is at: any new
      value, nil too. Every entry is seen once, with the value it had. */
  method ForEach(t: Table, f: (Key, Value) -> Value) returns (seen: seq<(Key, Value)>)
    requires t.Valid()
    modifies t
    ensures t.Valid() && seen == old(Entries(t.arr, t.node, 0))
    ensures forall q :: t.At(q) == if old(t.At(q)) == VNil then VNil else f(q, old(t.At(q)))
  {
    hide Table.NodesOk, Entries, Entry, Overwritten, Parts, Changed, Lookup, PlaceOf;
    seen := [];
    var k := KNil;
    ghost var arr0, node0, i := t.arr, t.node, 0;
    ValidParts(t);
    ChangedNone(arr0, node0, f);
    while true
      invariant t.Valid() && 0 <= i && if k == KNil then i == 0 else i > 0 && PlaceOf(t.arr, t.node, k, i - 1)
      invariant Changed(arr0, node0, t.arr, t.node, f, i)
      invariant |t.arr| == |arr0| && |t.node| == |node0| && i <= |arr0| + |node0|
      invariant seen + Entries(t.arr, t.node, i) == Entries(arr0, node0, 0)
      decreases |arr0| + |node0| - i
    {
      var r := Next(t, k);
      PlaceKnown(t.arr, t.node, k, i - 1);
      ghost var arr, node := t.arr, t.node;
      if r == Done {
        ChangedAll(arr0, node0, arr, node, f, i);
        break;
      }
      ValidParts(t);
      ghost var j := FirstLive(arr, node, i);
      k := r.key;
      PlaceKnown(arr, node, k, j);
      var ok := t.Set(k, f(k, r.val), true);
      ChangedOne(arr0, node0, arr, node, f, i, j, t.arr, t.node);
      seen := seen + [(r.key, r.val)];
      i := j + 1;
    }
    ValidParts(t);
    forall q ensures t.At(q) == if Lookup(arr0, node0, q) == VNil then VNil else f(q, Lookup(arr0, node0, q)) {
      ChangedLookup(arr0, node0, t.arr, t.node, f, q);
    }
  }

  lemma {:induction false} PlaceKnown(arr: seq<Value>, node: seq<Node>, k: Key, j: int)
    ensures j >= 0 && PlaceOf(arr, node, k, j) ==> j < |arr| + |node| && k != KNil && (InArr(arr, k) || Has(node, k))
  {
  }

  lemma {:induction false} ChangedNone(arr: seq<Value>, node: seq<Node>, f: (Key, Value) -> Value)
    ensures Changed(arr, node, arr, node, f, 0)
  {
  }

  lemma {:induction false} ChangedOne(arr0: seq<Value>, node0: seq<Node>, arr: seq<Value>, node: seq<Node>,
      f: (Key, Value) -> Value, i: nat, j: nat, arr': seq<Value>, node': seq<Node>)
    requires Changed(arr0, node0, arr, node, f, i) && Parts(arr, node)
    requires i <= j < |arr| + |node| && forall m: nat | i <= m < j :: Entry(arr, node, m).1 == VNil
    requires Entry(arr, node, j).1 != VNil && PlaceOf(arr, node, Entry(arr, node, j).0, j)
    requires Overwritten(arr, node, Entry(arr, node, j).0, f(Entry(arr, node, j).0, Entry(arr, node, j).1), arr', node')
    ensures |arr'| == |arr0| && |node'| == |node0| && Changed(arr0, node0, arr', node', f, j + 1)
        && PlaceOf(arr', node', Entry(arr, node, j).0, j)
    ensures Entries(arr', node', j + 1) == Entries(arr, node, j + 1)
  {
    hide Parts, Entry, Overwritten, PlaceOf, Entries;
    var k, v := Entry(arr, node, j).0, f(Entry(arr, node, j).0, Entry(arr, node, j).1);
    assert |arr'| == |arr| && |node'| == |node| by { OverwrittenSize(arr, node, k, v, arr', node'); }
    EntryWritten(arr, node, k, v, arr', node', j, j);
    var next := j + 1;
    forall m: nat | m < |arr| + |node| ensures EntryChanged(arr0, node0, arr', node', f, next, m) {
      EntryWritten(arr, node, k, v, arr', node', j, m);
      assert EntryChanged(arr0, node0, arr, node, f, i, m) && EntryChanged(arr0, node0, arr, node, f, i, j);
    }
    forall m: nat | j + 1 <= m < |arr| + |node| ensures Entry(arr', node', m) == Entry(arr, node, m) {
      EntryWritten(arr, node, k, v, arr', node', j, m);
    }
    EntriesSame(arr, node, arr', node', j + 1);
  }

  lemma {:induction false} OverwrittenSize(arr: seq<Value>, node: seq<Node>, k: Key, v: Value, arr': seq<Value>,
      node': seq<Node>)
    requires Overwritten(arr, node, k, v, arr', node')
    ensures |arr'| == |arr| && |node'| == |node|
  {
  }

  /** No entry is left. */
  lemma {:induction false} ChangedAll(arr0: seq<Value>, node0: seq<Node>, arr: seq<Value>, node: seq<Node>,
      f: (Key, Value) -> Value, i: nat)
    requires Changed(arr0, node0, arr, node, f, i) && Entries(arr, node, i) == []
    ensures Changed(arr0, node0, arr, node, f, |arr| + |node|)
  {
    var end := |arr| + |node|;
    forall m: nat | m < |arr| + |node| ensures EntryChanged(arr0, node0, arr, node, f, end, m) {
      assert EntryChanged(arr0, node0, arr, node, f, i, m);
      if m >= i { NoEntry(arr, node, i, m); }
    }
  }

  lemma {:induction false} NoEntry(arr: seq<Value>, node: seq<Node>, i: nat, m: nat)
    requires Entries(arr, node, i) == [] && i <= m < |arr| + |node|
    ensures Entry(arr, node, m).1 == VNil
    decreases m - i
  {
    if i < m { NoEntry(arr, node, i + 1, m); }
  }

  lemma {:induction false} ChangedLookup(arr0: seq<Value>, node0: seq<Node>, arr: seq<Value>, node: seq<Node>,
      f: (Key, Value) -> Value, q: Key)
    requires Parts(arr0, node0) && Parts(arr, node) && Changed(arr0, node0, arr, node, f, |arr| + |node|)
    ensures Lookup(arr, node, q) == if Lookup(arr0, node0, q) == VNil then VNil else f(q, Lookup(arr0, node0, q))
  {
    hide Parts, Lookup;
    PlaceLookup(arr0, node0, q);
    PlaceLookup(arr, node, q);
    forall m: nat ensures PlaceOf(arr0, node0, q, m) <==> PlaceOf(arr, node, q, m) {
      if m < |arr| + |node| { assert EntryChanged(arr0, node0, arr, node, f, |arr| + |node|, m); }
    }
    if m: nat :| PlaceOf(arr0, node0, q, m) { assert EntryChanged(arr0, node0, arr, node, f, |arr| + |node|, m); }
  }
}
