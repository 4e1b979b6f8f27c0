/** luaH_getn (modules/lua/ltable.c), and runs of stores into a table. */
module LuaTableLength {
  import opened Common
  import opened LuaTableNodes
  import opened LuaTable
  import opened LuaTableNext

  const MAX_INT: nat := 0x7fff_ffff

  /** `n` is zero or the index of a non-nil entry, and there is nothing at the next index. */
  ghost predicate Boundary(t: Table, n: nat)
    reads t
  {
    (n == 0 || t.At(KInt(n)) != VNil) && t.At(KInt(n + 1)) == VNil
  }

  // ----- Some index is free -----

  ghost function KeysUpto(arr: seq<Value>, node: seq<Node>, n: nat): set<Key>
    requires n <= |arr| + |node|
  {
    if n == 0 then {} else KeysUpto(arr, node, n - 1) + {Entry(arr, node, n - 1).0}
  }

  lemma {:induction false} KeysUptoSize(arr: seq<Value>, node: seq<Node>, n: nat)
    requires n <= |arr| + |node|
    ensures |KeysUpto(arr, node, n)| <= n
    ensures forall i: nat | i < n :: Entry(arr, node, i).0 in KeysUpto(arr, node, n)
  {
    if n > 0 { KeysUptoSize(arr, node, n - 1); }
  }

  ghost function Ints(n: nat): set<Key> {
    if n == 0 then {} else Ints(n - 1) + {KInt(n)}
  }

  lemma {:induction false} IntsSize(n: nat)
    ensures |Ints(n)| == n && forall k | k in Ints(n) :: k.KInt? && 1 <= k.i <= n
  {
    if n > 0 { IntsSize(n - 1); }
  }

  /** There are more indices than places. */
  lemma {:induction false} SomeNil(t: Table) returns (m: nat)
    requires t.Valid()
    ensures 1 <= m <= |t.arr| + |t.node| + 1 && t.At(KInt(m)) == VNil
  {
    hide Table.NodesOk, Lookup, Entry, PlaceOf, Parts;
    var n := |t.arr| + |t.node|;
    ValidParts(t);
    if forall i | 1 <= i <= n + 1 :: t.At(KInt(i)) != VNil {
      KeysUptoSize(t.arr, t.node, n);
      IntsSize(n + 1);
      forall k | k in Ints(n + 1) ensures k in KeysUpto(t.arr, t.node, n) {
        PlaceLookup(t.arr, t.node, k);
        var i: nat :| PlaceOf(t.arr, t.node, k, i);
        PlaceEntry(t.arr, t.node, k, i);
      }
      SubsetSize(Ints(n + 1), KeysUpto(t.arr, t.node, n));
      assert false;
    }
    m :| 1 <= m <= n + 1 && t.At(KInt(m)) == VNil;
  }

  lemma {:induction false} PlaceEntry(arr: seq<Value>, node: seq<Node>, k: Key, i: nat)
    requires PlaceOf(arr, node, k, i)
    ensures i < |arr| + |node| && Entry(arr, node, i).0 == k
  {
  }

  // ----- The length -----

  /** unbound_search */
  method UnboundSearch(t: Table, j0: nat) returns (n: nat)
    requires t.Valid() && j0 <= MAX_INT && (j0 == 0 || t.At(KInt(j0)) != VNil)
    ensures Boundary(t, n)
  {
    hide Table.Valid, Lookup;
    var i, j := j0, j0 + 1;
    var v := t.Get(KInt(j));
    while v != VNil
      invariant 0 <= i < j <= MAX_INT + 1 && v == t.At(KInt(j)) && (i == 0 || t.At(KInt(i)) != VNil)
      decreases MAX_INT + 1 - i
    {
      i := j;
      j := j * 2;
      if j > MAX_INT {
        n := LinearSearch(t);
        return;
      }
      v := t.Get(KInt(j));
    }
    while j - i > 1
      invariant 0 <= i < j && (i == 0 || t.At(KInt(i)) != VNil) && t.At(KInt(j)) == VNil
      decreases j - i
    {
      var m := (i + j) / 2;
      v := t.Get(KInt(m));
      if v == VNil { j := m; } else { i := m; }
    }
    assert j == i + 1;
    return i;
  }

  /** A table built with bad purposes. */
  method LinearSearch(t: Table) returns (n: nat)
    requires t.Valid()
    ensures Boundary(t, n)
  {
    hide Table.Valid, Lookup;
    ghost var top := SomeNil(t);
    var i := 1;
    var v := t.Get(KInt(i));
    while v != VNil
      invariant 1 <= i <= top && v == t.At(KInt(i)) && (i == 1 || t.At(KInt(i - 1)) != VNil)
      decreases top - i
    {
      i := i + 1;
      v := t.Get(KInt(i));
    }
    return i - 1;
  }

  /** luaH_getn */
  method GetN(t: Table) returns (n: nat)
    requires t.Valid()
    ensures Boundary(t, n)
  {
    t.ArrBound();
    var j := |t.arr|;
    if j > 0 && t.arr[j - 1] == VNil {
      var i := 0;
      while j - i > 1
        invariant 0 <= i < j <= |t.arr| && (i == 0 || t.arr[i - 1] != VNil) && t.arr[j - 1] == VNil
        decreases j - i
      {
        var m := (i + j) / 2;
        if t.arr[m - 1] == VNil { j := m; } else { i := m; }
      }
      assert t.At(KInt(i + 1)) == t.arr[i] && (i > 0 ==> t.At(KInt(i)) == t.arr[i - 1]);
      return i;
    } else if t.dummy {
      DummyEmpty(t);
      assert j > 0 ==> t.At(KInt(j)) == t.arr[j - 1];
      return j;
    } else {
      assert j > 0 ==> t.At(KInt(j)) == t.arr[j - 1];
      n := UnboundSearch(t, j);
    }
  }

  lemma {:induction false} DummyEmpty(t: Table)
    requires t.Valid() && t.dummy
    ensures forall k | !InArr(t.arr, k) :: t.At(k) == VNil
  {
    hide LuaTableNodes.Hashed;
    forall k | !InArr(t.arr, k) ensures t.At(k) == VNil {
      if k != KNil { LookupAbsent(t.arr, t.node, k); }
    }
  }

  // ----- Runs -----

  datatype Store = Store(key: Key, val: Value)

  predicate Storable(k: Key) {
    k != KNil && k != KNan
  }

  /** The value a key has after a run of stores: that of the last store into it. */
  ghost function Last(ops: seq<Store>, q: Key): (v: Value)
    requires forall i | 0 <= i < |ops| :: Storable(ops[i].key)
  {
    if ops == [] then VNil else
    var n := |ops| - 1;
    if ops[n].key == q then ops[n].val else Last(ops[..n], q)
  }

  /** From the empty table on, every key has the value last stored into it. */
  method RunStores(h: Hash, ops: seq<Store>) returns (t: Table)
    requires forall i | 0 <= i < |ops| :: Storable(ops[i].key)
    ensures fresh(t) && t.Valid() && t.h == h && forall q :: t.At(q) == Last(ops, q)
  {
    hide Table.Valid, Lookup;
    t := new Table(h);
    for i := 0 to |ops|
      invariant fresh(t) && t.Valid() && t.h == h && forall q :: t.At(q) == Last(ops[..i], q)
    {
      var ok := t.Set(ops[i].key, ops[i].val, true);
      assert ops[..i + 1][..i] == ops[..i];
    }
    assert ops[..|ops|] == ops;
  }
}
