/** Lua tables (modules/lua/ltable.c): an array part and a hash part that
    together act as one function from keys to values. */
module LuaTable {
  import opened Common
  import opened LuaTableNodes
  import opened LuaTableSizes

  const EMPTY: Node := Node(KNil, VNil, -1)

  predicate InArr(arr: seq<Value>, k: Key) {
    k.KInt? && 1 <= k.i <= |arr|
  }

  /** What a table holds: the value of every key, nil if it is absent. */
  ghost function Lookup(arr: seq<Value>, node: seq<Node>, k: Key): Value {
    if InArr(arr, k) then arr[k.i - 1]
    else if k != KNil && Has(node, k) then var i :| 0 <= i < |node| && node[i].key == k; node[i].val
    else VNil
  }

  ghost predicate Distinct(node: seq<Node>) {
    forall i, j | 0 <= i < j < |node| && node[i].key != KNil :: node[i].key != node[j].key
  }

  lemma {:induction false} LookupNode(arr: seq<Value>, node: seq<Node>, i: nat)
    requires Distinct(node) && i < |node| && node[i].key != KNil && !InArr(arr, node[i].key)
    ensures Lookup(arr, node, node[i].key) == node[i].val
  {
    assert Has(node, node[i].key);
  }

  /** The same live entries, wherever they are. */
  ghost predicate SameLive(node: seq<Node>, node': seq<Node>) {
    && (forall i | 0 <= i < |node| && node[i].val != VNil :: exists j ::
        0 <= j < |node'| && node'[j].key == node[i].key && node'[j].val == node[i].val)
    && (forall j | 0 <= j < |node'| && node'[j].val != VNil :: exists i ::
        0 <= i < |node| && node[i].key == node'[j].key && node[i].val == node'[j].val)
  }

  ghost predicate Holds(node: seq<Node>, q: Key, v: Value) {
    exists i :: 0 <= i < |node| && node[i].key == q && node[i].val == v
  }

  lemma {:induction false} LookupHolds(arr: seq<Value>, node: seq<Node>, q: Key, v: Value)
    requires Distinct(node) && q != KNil && !InArr(arr, q) && v != VNil
    ensures Lookup(arr, node, q) == v <==> Holds(node, q, v)
  {
    if Has(node, q) {
      var i :| 0 <= i < |node| && node[i].key == q;
      LookupNode(arr, node, i);
    }
  }

  lemma {:induction false} LiveHolds(node: seq<Node>, node': seq<Node>, q: Key, v: Value)
    requires SameLive(node, node') && v != VNil
    ensures Holds(node, q, v) <==> Holds(node', q, v)
  {
  }

  lemma {:induction false} LookupSame(arr: seq<Value>, node: seq<Node>, node': seq<Node>, q: Key)
    requires Distinct(node) && Distinct(node') && SameLive(node, node')
    ensures Lookup(arr, node', q) == Lookup(arr, node, q)
  {
    hide Distinct, SameLive, Lookup, Holds;
    if q == KNil || InArr(arr, q) {
      LookupPlain(arr, node, node', q);
    } else {
      var v, v' := Lookup(arr, node, q), Lookup(arr, node', q);
      if v != VNil { LookupHolds(arr, node, q, v); LiveHolds(node, node', q, v); LookupHolds(arr, node', q, v); }
      if v' != VNil { LookupHolds(arr, node', q, v'); LiveHolds(node, node', q, v'); LookupHolds(arr, node, q, v'); }
    }
  }

  lemma {:induction false} LookupPlain(arr: seq<Value>, node: seq<Node>, node': seq<Node>, q: Key)
    requires q == KNil || InArr(arr, q)
    ensures Lookup(arr, node', q) == Lookup(arr, node, q)
  {
  }

  ghost function Used(node: seq<Node>): set<nat> {
    set i: nat | i < |node| && node[i].key != KNil
  }

  /** With fewer keys than nodes some node is free. */
  lemma {:induction false} SomeFree(node: seq<Node>)
    requires |Used(node)| < |node|
    ensures exists i :: 0 <= i < |node| && node[i].key == KNil
  {
    if forall i | 0 <= i < |node| :: node[i].key != KNil { AllUsed(node); }
  }

  lemma {:induction false} AllUsed(node: seq<Node>)
    requires forall i | 0 <= i < |node| :: node[i].key != KNil
    ensures |Used(node)| == |node|
  {
    UsedAll(node, |node|);
    assert Used(node) == Upto(node, |node|);
  }

  ghost function Upto(node: seq<Node>, n: nat): set<nat> {
    set i: nat | i < n && i < |node| && node[i].key != KNil
  }

  lemma {:induction false} UsedAll(node: seq<Node>, n: nat)
    requires n <= |node| && forall i | 0 <= i < |node| :: node[i].key != KNil
    ensures |Upto(node, n)| == n
  {
    if n > 0 {
      UsedAll(node, n - 1);
      assert Upto(node, n) == Upto(node, n - 1) + {n - 1};
    } else {
      assert Upto(node, 0) == {};
    }
  }

  lemma {:induction false} UsedOneMore(node: seq<Node>, node': seq<Node>, n: nat)
    requires |node'| == |node| && n < |node| && forall i | 0 <= i < |node| && i != n :: (node'[i].key == KNil
        <==> node[i].key == KNil)
    ensures |Used(node')| <= |Used(node)| + 1
  {
    assert Used(node') <= Used(node) + {n};
    SubsetSize(Used(node'), Used(node) + {n});
  }

  // ----- A new key leaves the live entries -----

  lemma {:induction false} AtMainLive(node: seq<Node>, k: Key, mp: nat)
    requires mp < |node| && node[mp].val == VNil
    ensures SameLive(node, node[mp := Node(k, VNil, node[mp].next)])
  {
    var node' := node[mp := Node(k, VNil, node[mp].next)];
    forall i | 0 <= i < |node| && node[i].val != VNil
      ensures exists j ::
          0 <= j < |node'| && node'[j].key == node[i].key && node'[j].val == node[i].val { assert node'[i] == node[i]; }
    forall j | 0 <= j < |node'| && node'[j].val != VNil
      ensures exists i ::
          0 <= i < |node| && node[i].key == node'[j].key && node[i].val == node'[j].val { assert node'[j] == node[j]; }
  }

  lemma {:induction false} BehindLive(node: seq<Node>, k: Key, mp: nat, n: nat)
    requires mp < |node| && n < |node| && n != mp && node[n].val == VNil
    ensures SameLive(node, node[n := Node(k, VNil, node[mp].next)][mp := node[mp].(next := n)])
  {
    var node' := node[n := Node(k, VNil, node[mp].next)][mp := node[mp].(next := n)];
    forall i | 0 <= i < |node| && node[i].val != VNil
      ensures exists j ::
          0 <= j < |node'| && node'[j].key == node[i].key
            && node'[j].val == node[i].val { assert node'[i].val == node[i].val; }
    forall j | 0 <= j < |node'| && node'[j].val != VNil
      ensures exists i ::
          0 <= i < |node| && node[i].key == node'[j].key
            && node[i].val == node'[j].val { assert node'[j].val == node[j].val; }
  }

  lemma {:induction false} MovedLive(node: seq<Node>, k: Key, mp: nat, n: nat, prev: nat)
    requires mp < |node| && n < |node| && prev < |node| && n != mp && prev != n && prev != mp && node[n].val == VNil
    ensures SameLive(node, Moved(node, k, mp, n, prev))
  {
    var node' := Moved(node, k, mp, n, prev);
    forall i | 0 <= i < |node| && node[i].val != VNil
      ensures exists j :: 0 <= j < |node'| && node'[j].key == node[i].key && node'[j].val == node[i].val
    {
      assert node'[if i == mp then n else i].key == node[i].key;
    }
    forall j | 0 <= j < |node'| && node'[j].val != VNil
      ensures exists i :: 0 <= i < |node| && node[i].key == node'[j].key && node[i].val == node'[j].val
    {
      assert node[if j == n then mp else j].key == node'[j].key;
    }
  }

  lemma {:induction false} MovedKeys(node: seq<Node>, k: Key, mp: nat, n: nat, prev: nat)
    requires mp < |node| && n < |node| && prev < |node| && n != mp && prev != n && prev != mp && k != KNil
        && node[mp].key != KNil
    ensures |Moved(node, k, mp, n, prev)| == |node|
    ensures forall i | 0 <= i < |node| :: Moved(node, k, mp, n, prev)[i].key == if i == mp then k
        else if i == n then node[mp].key else node[i].key
  {
  }

  lemma {:induction false} OrderSize(h: Hash, node: seq<Node>, o: Order)
    requires Hashed(h, node, o)
    ensures |o.lab| == |o.rank| == |node|
  {
  }

  lemma {:induction false} HashedDistinct(h: Hash, node: seq<Node>, o: Order)
    requires Hashed(h, node, o)
    ensures Distinct(node) && node != [] && forall i | 0 <= i < |node| :: node[i].key == KNil ==> node[i].val == VNil
  {
    forall i | 0 <= i < |node| && node[i].key == KNil ensures node[i].val == VNil { assert KeyOk(h, node, o, i); }
  }

  /** A taken main position, and the free node that was found. */
  lemma {:induction false} MainTaken(h: Hash, node: seq<Node>, o: Order, mp: nat, n: nat)
    requires Hashed(h, node, o) && mp < |node| && n < |node| && node[mp].val != VNil && node[n].key == KNil
    ensures node[mp].key != KNil && n != mp && node[n].val == VNil
    ensures var r := Main(h, node, node[mp].key); r == mp || (Before(o, r, mp) && r != n)
    ensures forall p | 0 <= p < |node| && node[p].next == mp :: p != n
  {
    assert KeyOk(h, node, o, mp) && KeyOk(h, node, o, n);
  }

  /** All that moving the colliding key to a free node keeps. */
  lemma {:induction false} NodesDisplaced(h: Hash, arr: seq<Value>, node: seq<Node>, o: Order, k: Key, mp: nat, n: nat,
      prev: nat)
    requires Hashed(h, node, o) && k != KNil && k != KNan && !InArr(arr, k) && !Has(node, k) && mp < |node|
    requires forall i | 0 <= i < |node| :: !InArr(arr, node[i].key)
    requires mp == Main(h, node, k) && node[mp].val != VNil && n < |node| && node[n].key == KNil
        && FreeBelow(node, n + 1)
    requires node[mp].key != KNil && Main(h, node, node[mp].key) != mp && prev < |node| && node[prev].next == mp
    ensures var node' := Moved(node, k, mp, n, prev);
      && Hashed(h, node', Swapped(o, mp, n)) && |node'| == |node| && node'[mp].key == k && FreeBelow(node', n)
      && (forall i | 0 <= i < |node'| :: !InArr(arr, node'[i].key)) && |Used(node')| <= |Used(node)| + 1
    ensures forall q :: Lookup(arr, Moved(node, k, mp, n, prev), q) == Lookup(arr, node, q)
  {
    hide Hashed, Lookup, Used, Moved, Swapped, Main, Has, SameLive, Distinct;
    MainTaken(h, node, o, mp, n);
    OrderSize(h, node, o);
    PrevApart(h, node, o, mp, prev);
    KeyDisplaces(h, node, o, k, n, prev);
    MovedLive(node, k, mp, n, prev);
    MovedKeys(node, k, mp, n, prev);
    HashedDistinct(h, node, o);
    var node' := Moved(node, k, mp, n, prev);
    HashedDistinct(h, node', Swapped(o, mp, n));
    UsedOneMore(node, node', n);
    forall q ensures Lookup(arr, node', q) == Lookup(arr, node, q) { LookupSame(arr, node, node', q); }
  }

  lemma {:induction false} PrevApart(h: Hash, node: seq<Node>, o: Order, mp: nat, prev: nat)
    requires Hashed(h, node, o) && prev < |node| && node[prev].next == mp
    ensures prev != mp
  {
    assert LinkOk(node, o, prev);
  }

  /** Only the value of `k` has changed, and that in its place. */
  ghost predicate Overwritten(arr: seq<Value>, node: seq<Node>, k: Key, v: Value, arr': seq<Value>, node': seq<Node>) {
    && |arr'| == |arr| && |node'| == |node|
    && (forall i | 0 <= i < |arr| :: arr'[i] == if k == KInt(i + 1) then v else arr[i])
    && (forall i | 0 <= i < |node| :: node'[i] == if node[i].key == k then node[i].(val := v) else node[i])
  }

  /** The counting half of rehash. */
  method NewSizes(arr: seq<Value>, node: seq<Node>, ek: Key) returns (nasize: nat, na: nat, totaluse: nat)
    requires |arr| <= MAXASIZE && Distinct(node) && !InSlice(ek, 0, |arr|)
    requires forall a | 0 <= a < |node| :: node[a].key != ek && !InSlice(node[a].key, 0, |arr|)
    ensures totaluse == CountArr(arr, 0, MAXASIZE) + LiveNodes(node, 0) + 1
    ensures (nasize == 0 && na == 0 && forall j | 0 <= j <= MAXBITS :: 2 * Keys1(arr, node, ek, Pow(j)) <= Pow(j))
         || exists l :: (0 <= l <= MAXBITS && nasize == Pow(l) && na == Keys1(arr, node, ek, Pow(l)) && 2 * na > nasize
              && forall j | l < j <= MAXBITS :: 2 * Keys1(arr, node, ek, Pow(j)) <= Pow(j))
  {
    hide CountArr, CountNodes, LiveNodes, Pow, One, Keys1, Lo;
    ghost var cum := SliceCounts(arr, node, ek);
    var nums := new nat[MAXBITS + 1](i => 0);
    nasize := NumUseArray(arr, nums);
    totaluse := nasize;
    var hashuse, hint := NumUseHash(node, nums);
    totaluse, nasize := totaluse + hashuse, nasize + hint;
    var one := CountInt(ek, nums);
    totaluse, nasize := totaluse + 1, nasize + one;
    CountsCumulate(arr, node, ek, cum, nums[..], nasize);
    nasize, na := ComputeSizes(nums, nasize, cum);
  }

  lemma {:induction false} CountsCumulate(arr: seq<Value>, node: seq<Node>, ek: Key, cum: seq<nat>, nums: seq<nat>,
      nasize: nat)
    requires |cum| == |nums| == MAXBITS + 1 && forall l | 0 <= l <= MAXBITS :: SliceOk(arr, node, ek, cum, l)
    requires cum[MAXBITS] == Keys1(arr, node, ek, Pow(MAXBITS))
    requires forall l | 0 <= l <= MAXBITS :: nums[l] == CountArr(arr, Lo(l), Pow(l)) + CountNodes(node, 0, Lo(l),
        Pow(l)) + One(ek, Lo(l), Pow(l))
    requires nasize == CountArr(arr, 0, MAXASIZE) + CountNodes(node, 0, 0, MAXASIZE) + One(ek, 0, MAXASIZE)
    ensures nasize == cum[MAXBITS] && forall l | 0 <= l <= MAXBITS ::
        nums[l] + (if l == 0 then 0 else cum[l - 1]) == cum[l]
  {
    hide CountArr, CountNodes, Pow, Lo, One;
    PowMax();
    forall l | 0 <= l <= MAXBITS
      ensures nums[l] + (if l == 0 then 0 else cum[l - 1]) == cum[l] { assert SliceOk(arr, node, ek, cum, l); }
  }

  /** Where a value is kept; no place for a key that is nil or not a number. */
  datatype Slot = NoSlot | ArrSlot(a: nat) | NodeSlot(n: nat)

  class Table {
    const h: Hash
    var arr: seq<Value>
    var node: seq<Node>
    var dummy: bool
    var lastfree: nat
    ghost var o: Order

    ghost predicate NodesOk()
      reads this
    {
      && Hashed(h, node, o) && |arr| <= MAXASIZE
      && if dummy then node == [EMPTY] && lastfree == 0 else FreeBelow(node, lastfree)
    }

    /** No key of the hash part belongs in the array part. */
    ghost predicate Valid()
      reads this
    {
      NodesOk() && forall i | 0 <= i < |node| :: !InArr(arr, node[i].key)
    }

    ghost function At(k: Key): Value
      reads this
    {
      Lookup(arr, node, k)
    }

    /** luaH_new */
    constructor (h: Hash)
      ensures Valid() && this.h == h && forall k :: At(k) == VNil
    {
      this.h := h;
      arr, node, dummy, lastfree := [], [EMPTY], true, 0;
      o := Order([0], [0.0]);
      new;
      assert LinkOk(node, o, 0) && KeyOk(h, node, o, 0);
    }

    /** The walk along the list of the main position. */
    method FindNode(k: Key) returns (n: int)
      requires NodesOk() && k != KNil
      ensures -1 <= n < |node| && (n >= 0 ==> node[n].key == k) && (n == -1 ==> !Has(node, k))
    {
      hide LinkOk, Main;
      var r := Main(h, node, k);
      n := r;
      while true
        invariant 0 <= n < |node| && forall j | 0 <= j < |node| && (j == r || Before(o, r, j)) && j != n
            && j !in Behind(node, o, n) :: node[j].key != k
        decreases Behind(node, o, n)
      {
        if node[n].key == k { return; }
        ghost var m := n;
        if node[n].next < 0 { WalkEnds(node, o, m); } else { WalkOn(node, o, m); }
        n := node[n].next;
        if n < 0 { break; }
      }
      forall i | 0 <= i < |node| ensures node[i].key != k { assert KeyOk(h, node, o, i); }
    }

    /** luaH_get */
    method Get(k: Key) returns (v: Value)
      requires Valid()
      ensures v == At(k)
    {
      hide Hashed;
      if k == KNil { return VNil; }
      if InArr(arr, k) { return arr[k.i - 1]; }
      var n := FindNode(k);
      if n < 0 { return VNil; }
      KeysDistinct();
      LookupNode(arr, node, n);
      return node[n].val;
    }

    lemma KeysDistinct()
      requires NodesOk()
      ensures Distinct(node) && node != [] && forall i | 0 <= i < |node| ::
          node[i].key != KNan && (node[i].key == KNil ==> node[i].val == VNil)
    {
      forall i | 0 <= i < |node|
        ensures node[i].key != KNan && (node[i].key == KNil ==> node[i].val == VNil) { assert KeyOk(h, node, o, i); }
    }

    /** getfreepos */
    method GetFreePos() returns (n: int)
      requires NodesOk()
      modifies `lastfree
      ensures -1 <= n < |node| && lastfree <= |node|
      ensures n >= 0 ==> !dummy && node[n].key == KNil && lastfree == n && FreeBelow(node, n + 1)
      ensures n == -1 ==> NodesOk()
      ensures n == -1 ==> dummy || forall i | 0 <= i < |node| :: node[i].key != KNil
    {
      hide Hashed;
      while lastfree > 0
        invariant NodesOk()
        decreases lastfree
      {
        lastfree := lastfree - 1;
        if node[lastfree].key == KNil { return lastfree; }
      }
      return -1;
    }

    ghost predicate SlotOk(c: Slot, k: Key)
      reads this
    {
      match c
      case NoSlot => false
      case ArrSlot(a) => a < |arr| && k == KInt(a + 1)
      case NodeSlot(n) => n < |node| && node[n].key == k && !InArr(arr, k)
    }

    /** The node before `mp` in the list of `p0`. */
    method FindPrevious(p0: nat, mp: nat) returns (p: nat)
      requires Hashed(h, node, o) && p0 < |node| && mp < |node| && Before(o, p0, mp)
      ensures p < |node| && node[p].next == mp && p != mp
    {
      hide Keys, Main;
      p := p0;
      while node[p].next != mp
        invariant p < |node| && Before(o, p, mp)
        decreases Behind(node, o, p)
      {
        assert mp in Behind(node, o, p);
        ghost var m := p;
        if node[p].next < 0 { WalkEnds(node, o, m); } else { WalkOn(node, o, m); }
        p := node[p].next;
      }
    }

    /** A free node has been found for `k`, whose main position is taken. */
    ghost predicate Found(k: Key, mp: nat, n: nat)
      reads this
    {
      && Hashed(h, node, o) && |arr| <= MAXASIZE && !dummy && k != KNil && k != KNan && !InArr(arr, k) && !Has(node, k)
      && (forall i | 0 <= i < |node| :: !InArr(arr, node[i].key))
      && mp == Main(h, node, k) && node[mp].val != VNil && n < |node| && node[n].key == KNil && lastfree == n
          && FreeBelow(node, n + 1)
    }

    /** The colliding key is out of its main position and moves to the free node. */
    method Displace(k: Key, mp: nat, n: nat, othern: nat)
      requires Found(k, mp, n) && node[mp].key != KNil && othern == Main(h, node, node[mp].key) != mp
      modifies `node, `o
      ensures Valid() && |node| == |old(node)| && node[mp].key == k && forall q :: At(q) == old(At(q))
      ensures |Used(node)| <= |old(Used(node))| + 1
    {
      hide Hashed, Lookup, Used, Moved, Swapped, Main, FreeBelow, Has;
      MainTaken(h, node, o, mp, n);
      OrderSize(h, node, o);
      var prev := FindPrevious(othern, mp);
      NodesDisplaced(h, arr, node, o, k, mp, n, prev);
      node, o := Moved(node, k, mp, n, prev), Swapped(o, mp, n);
    }

    /** The colliding key is in its main position: the new key goes to the free node, linked behind it. */
    method PlaceBehind(k: Key, mp: nat, n: nat)
      requires Found(k, mp, n) && node[mp].key != KNil && Main(h, node, node[mp].key) == mp
      modifies `node, `o
      ensures Valid() && |node| == |old(node)| && node[n].key == k && forall q :: At(q) == old(At(q))
      ensures |Used(node)| <= |old(Used(node))| + 1
    {
      hide Hashed, Lookup, Used, Inserted, Main;
      MainTaken(h, node, o, mp, n);
      OrderSize(h, node, o);
      ghost var node0 := node;
      KeyBehindMain(h, node, o, k, n);
      BehindLive(node, k, mp, n);
      HashedDistinct(h, node, o);
      node, o := node[n := Node(k, VNil, node[mp].next)][mp := node[mp].(next := n)], Inserted(node, o, mp, n);
      HashedDistinct(h, node, o);
      UsedOneMore(node0, node, n);
      forall q ensures At(q) == old(At(q)) { LookupSame(arr, node0, node, q); }
    }

    /** The main position has no value: the key goes there. */
    method PlaceAtMain(k: Key, mp: nat)
      requires Valid() && !dummy && k != KNil && k != KNan && !InArr(arr, k) && !Has(node, k) && mp == Main(h, node, k)
          && node[mp].val == VNil
      modifies `node
      ensures Valid() && |node| == |old(node)| && node[mp].key == k && forall q :: At(q) == old(At(q))
      ensures |Used(node)| <= |old(Used(node))| + 1
    {
      hide Hashed, Lookup, Used, Main;
      ghost var node0 := node;
      KeyAtMain(h, node, o, k);
      AtMainLive(node, k, mp);
      HashedDistinct(h, node, o);
      node := node[mp := Node(k, VNil, node[mp].next)];
      HashedDistinct(h, node, o);
      UsedOneMore(node0, node, mp);
      forall q ensures At(q) == old(At(q)) { LookupSame(arr, node0, node, q); }
    }

    /** luaH_newkey: the key gets a node, with a nil value. Without a free node
        the table is rehashed, and then one more try must do. */
    method NewKey(k: Key, ghost again: bool) returns (c: Slot)
      requires Valid() && k != KNil && k != KNan && !InArr(arr, k) && !Has(node, k)
      requires !again ==> |Used(node)| < |node| && !dummy
      modifies this
      ensures Valid() && SlotOk(c, k) && forall q :: At(q) == old(At(q))
      ensures !again
          ==> arr == old(arr) && |node| == |old(node)| && |Used(node)| <= |old(Used(node))| + 1 && dummy == old(dummy)
      decreases again, 2
    {
      hide Hashed, Lookup, Used, Main;
      HashedDistinct(h, node, o);
      var mp := Main(h, node, k);
      if node[mp].val == VNil && !dummy {
        PlaceAtMain(k, mp);
        return NodeSlot(mp);
      }
      var n := GetFreePos();
      if n < 0 {
        if !again { SomeFree(node); }
        Rehash(k);
        c := FindOrNew(k, false);
        return;
      }
      MainTaken(h, node, o, mp, n);
      var othern := Main(h, node, node[mp].key);
      if othern != mp {
        Displace(k, mp, n, othern);
        return NodeSlot(mp);
      }
      PlaceBehind(k, mp, n);
      return NodeSlot(n);
    }

    /** luaH_set: the place of a key's value, made if there is none. */
    method FindOrNew(k: Key, ghost again: bool) returns (c: Slot)
      requires Valid()
      requires !again ==> InArr(arr, k) || Has(node, k) || (|Used(node)| < |node| && !dummy)
      modifies this
      ensures Valid() && forall q :: At(q) == old(At(q))
      ensures if k == KNil || k == KNan then c == NoSlot else SlotOk(c, k)
      ensures !again
          ==> arr == old(arr) && |node| == |old(node)| && |Used(node)| <= |old(Used(node))| + 1 && dummy == old(dummy)
      ensures !again && InArr(arr, k) ==> node == old(node)
      ensures old(InArr(arr, k) || Has(node, k)) ==> arr == old(arr) && node == old(node)
      decreases again, 3
    {
      hide Hashed, Lookup, Used;
      if k == KNil { return NoSlot; }
      if InArr(arr, k) { return ArrSlot(k.i - 1); }
      var n := FindNode(k);
      if n >= 0 {
        KeyNotNan(n);
        return NodeSlot(n);
      }
      if k == KNan { return NoSlot; }
      c := NewKey(k, again);
    }

    lemma KeyNotNan(n: nat)
      requires NodesOk() && n < |node|
      ensures node[n].key != KNan
    {
      assert KeyOk(h, node, o, n);
    }

    lemma HasNotNan(k: Key)
      requires NodesOk() && Has(node, k)
      ensures k != KNan
    {
      var n :| 0 <= n < |node| && node[n].key == k;
      KeyNotNan(n);
    }

    /** setobj to the place of a value. */
    method Assign(c: Slot, k: Key, v: Value)
      requires Valid() && SlotOk(c, k) && k != KNil
      modifies `arr, `node
      ensures Valid() && forall q :: At(q) == if q == k then v else old(At(q))
      ensures |arr| == |old(arr)| && |node| == |old(node)| && Used(node) == old(Used(node)) && (InArr(arr, k)
          ==> node == old(node))
      ensures Overwritten(old(arr), old(node), k, v, arr, node)
    {
      hide Hashed, Main;
      KeysDistinct();
      match c {
        case ArrSlot(a) =>
          arr := arr[a := v];
        case NodeSlot(n) =>
          ghost var node0 := node;
          ValueWritten(h, node, o, n, v);
          node := node[n := node[n].(val := v)];
          forall q ensures Lookup(arr, node, q) == if q == k then v else Lookup(arr, node0, q) { LookupWritten(arr,
              node0, n, v, q); }
      }
    }

    /** A store: of nil too, which leaves the key in its node. */
    method Set(k: Key, v: Value, ghost again: bool) returns (ok: bool)
      requires Valid()
      requires !again ==> InArr(arr, k) || Has(node, k) || (|Used(node)| < |node| && !dummy)
      modifies this
      ensures Valid() && ok == (k != KNil && k != KNan)
      ensures forall q :: At(q) == if ok && q == k then v else old(At(q))
      ensures !again ==>
        && |arr| == |old(arr)| && |node| == |old(node)|
        && |Used(node)| <= |old(Used(node))| + 1 && dummy == old(dummy)
      ensures !again && InArr(arr, k) ==> node == old(node)
      ensures old(InArr(arr, k) || (k != KNil && Has(node, k))) ==> ok && Overwritten(old(arr), old(node), k, v, arr,
          node)
      decreases again, 4
    {
      hide Hashed, Lookup, Used, NodesOk, Overwritten;
      if Has(node, k) { HasNotNan(k); }
      var c := FindOrNew(k, again);
      if c == NoSlot { return false; }
      Assign(c, k, v);
      return true;
    }

    /** setarrayvector and setnodevector: entries beyond a smaller array part and
        all nodes are dropped for the moment. */
    method SetVectors(nasize: nat, nhsize: nat)
      requires nasize <= MAXASIZE
      modifies this
      ensures Valid() && |arr| == nasize && dummy == (nhsize == 0) && Used(node) == {}
      ensures if nhsize == 0 then |node| == 1 else nhsize <= |node| < 2 * nhsize
      ensures forall q :: At(q) == Lookup(if nasize < |old(arr)| then old(arr[..nasize]) else old(arr), [], q)
    {
      hide Hashed;
      ghost var arr0 := arr;
      var nils := seq(if nasize > |arr| then nasize - |arr| else 0, i => VNil);
      arr := if nasize < |arr| then arr[..nasize] else arr + nils;
      var size := NodeCount(nhsize);
      dummy, lastfree := size == 0, size;
      if size == 0 { size := 1; }
      node := seq(size, i => EMPTY);
      o := Order(seq(size, i => i), seq(size, i => 0.0));
      EmptyHashed(h, size);
      assert Used(node) == {};
    }

    /** Entry by entry, what is dropped from the array part goes to the nodes. */
    method Resize(nasize: nat, nhsize: nat)
      requires Valid() && nasize <= MAXASIZE && CountArr(arr, nasize, |arr|) + Outside(node, |node|, nasize) <= nhsize
      modifies this
      ensures Valid() && |arr| == nasize && forall q :: At(q) == old(At(q))
      ensures dummy == (nhsize == 0) && if nhsize == 0 then |node| == 1 else nhsize <= |node| < 2 * nhsize
      ensures |Used(node)| <= old(CountArr(arr, nasize, |arr|) + Outside(node, |node|, nasize))
      decreases true, 0
    {
      hide Hashed, Lookup, Used, NodesOk, CountArr, Outside, InArr;
      var arr0, nold := arr, node;
      KeysDistinct();
      SetVectors(nasize, nhsize);
      ghost var size := |node|;
      var i := if nasize < |arr0| then nasize else |arr0|;
      assert i == |arr0| ==> arr0[..i] == arr0;
      CountNone(arr0, nasize, i);
      while i < |arr0|
        invariant 0 <= i <= |arr0| && (i < |arr0| ==> nasize <= i)
        invariant Valid() && |arr| == nasize && dummy == (nhsize == 0) && |node| == size
        invariant |Used(node)| <= CountArr(arr0, nasize, i) <= CountArr(arr0, nasize, |arr0|)
        invariant forall q :: At(q) == Lookup(arr0[..i], [], q)
      {
        SliceStep(arr0, nasize, i);
        SliceLookup(arr0, i);
        if arr0[i] != VNil {
          NotInArr(arr, i + 1);
          var ok := Set(KInt(i + 1), arr0[i], false);
        }
        i := i + 1;
      }
      assert arr0[..i] == arr0;
      var j := |nold|;
      assert nold[j..] == [];
      while j > 0
        invariant 0 <= j <= |nold|
        invariant Valid() && |arr| == nasize && dummy == (nhsize == 0) && |node| == size
        invariant |Used(node)| + Outside(nold, j, nasize) <= CountArr(arr0, nasize, |arr0|) + Outside(nold, |nold|,
            nasize)
        invariant forall q :: At(q) == Lookup(arr0, nold[j..], q)
      {
        j := j - 1;
        NodeStep(arr0, nold, j, nasize);
        if nold[j].val != VNil {
          InSliceArr(arr, nold[j].key);
          var ok := Set(nold[j].key, nold[j].val, false);
          InSliceArr(arr, nold[j].key);
        }
      }
      assert nold[0..] == nold;
    }

    /** The indices up to `n` that are in use, or are the key `ek`. */
    ghost function Indices(ek: Key, n: nat): set<int>
      reads this
    {
      set i: int | 1 <= i <= n && (At(KInt(i)) != VNil || ek == KInt(i))
    }

    /** rehash: the parts get the sizes that fit the entries and one more key. The array
        part gets the largest power of two such that more than half of the indices up to
        it will be in use. */
    method Rehash(ek: Key)
      requires Valid() && ek != KNil && ek != KNan && !InArr(arr, ek) && !Has(node, ek)
      modifies this
      ensures Valid() && forall q :: At(q) == old(At(q))
      ensures InArr(arr, ek) || (|Used(node)| < |node| && !dummy)
      ensures |arr| == 0 || exists l: nat :: l <= 30 && |arr| == Pow(l) && 2 * |old(Indices(ek, Pow(l)))| > Pow(l)
      ensures forall j: nat | j <= 30 && Pow(j) > |arr| :: 2 * |old(Indices(ek, Pow(j)))| <= Pow(j)
      decreases true, 1
    {
      hide Hashed, Lookup, Used, NodesOk, CountArr, CountNodes, LiveNodes, Outside, Keys1, Pow, Indices;
      ArrBound();
      KeysDistinct();
      KeysApart(ek);
      forall j: nat ensures Keys1(arr, node, ek, Pow(j)) == |Indices(ek, Pow(j))| { KeysCounted(ek, Pow(j)); }
      var nasize, na, totaluse := NewSizes(arr, node, ek);
      forall j: nat, l: nat | Pow(j) > Pow(l) ensures j > l { if j <= l { PowMono(j, l); } }
      SizesFit(arr, node, ek, nasize, na, totaluse);
      Resize(nasize, totaluse - na);
      InSliceArr(arr, ek);
    }

    lemma KeysCounted(ek: Key, n: nat)
      requires Valid() && ek != KNil && !InArr(arr, ek) && !Has(node, ek)
      ensures Keys1(arr, node, ek, n) == |Indices(ek, n)|
    {
      KeysDistinct();
      KeysApart(ek);
      hide Hashed, Lookup, Keys1, AllKeys;
      KeysOnce(arr, node, ek, n);
      IndicesAre(arr, node, ek, n);
      assert Indices(ek, n)
          == set i: int | 1 <= i <= n && (Lookup(arr, node, KInt(i)) != VNil || ek == KInt(i));
    }

    lemma ArrBound()
      requires NodesOk()
      ensures |arr| <= MAXASIZE
    {
    }

    lemma KeysApart(ek: Key)
      requires Valid() && ek != KNil && !InArr(arr, ek) && !Has(node, ek)
      ensures forall a | 0 <= a < |node| :: node[a].key != ek && !InSlice(node[a].key, 0, |arr|)
      ensures !InSlice(ek, 0, |arr|)
    {
    }
  }

  lemma {:induction false} InKeys(arr: seq<Value>, node: seq<Node>, n: nat)
    ensures forall i | i in ArrKeys(arr, n) || i in NodeKeys(node, 0, n) :: 1 <= i <= n
  {
  }

  lemma {:induction false} IndicesAre(arr: seq<Value>, node: seq<Node>, ek: Key, n: nat)
    requires Distinct(node) && forall j | 0 <= j < |node| :: !InArr(arr, node[j].key)
    ensures (set i: int | 1 <= i <= n && (Lookup(arr, node, KInt(i)) != VNil || ek == KInt(i)))
        == AllKeys(arr, node, ek, n)
  {
    hide Lookup, ArrKeys, NodeKeys;
    forall i: int | 1 <= i <= n
      ensures Lookup(arr, node, KInt(i)) != VNil <==> i in ArrKeys(arr, n) || i in NodeKeys(node, 0, n)
    {
      IndexUsed(arr, node, n, i);
    }
    InKeys(arr, node, n);
  }

  lemma {:induction false} IndexUsed(arr: seq<Value>, node: seq<Node>, n: nat, i: int)
    requires Distinct(node) && 1 <= i <= n && forall j | 0 <= j < |node| :: !InArr(arr, node[j].key)
    ensures Lookup(arr, node, KInt(i)) != VNil <==> i in ArrKeys(arr, n) || i in NodeKeys(node, 0, n)
  {
    var k := KInt(i);
    if !InArr(arr, k) && Has(node, k) {
      var j :| 0 <= j < |node| && node[j].key == k;
      LookupNode(arr, node, j);
      hide Lookup;
      assert i in NodeKeys(node, 0, n) <==> node[j].val != VNil;
    }
  }

  lemma {:induction false} EmptyHashed(h: Hash, size: nat)
    requires size > 0
    ensures Hashed(h, seq(size, i => EMPTY), Order(seq(size, i => i), seq(size, i => 0.0)))
  {
    var node, o := seq(size, i => EMPTY), Order(seq(size, i => i), seq(size, i => 0.0));
    forall i | 0 <= i < size ensures LinkOk(node, o, i) && KeyOk(h, node, o, i) { }
  }

  lemma {:induction false} CountNone(arr: seq<Value>, lo: nat, i: nat)
    requires i <= lo && i <= |arr|
    ensures CountArr(arr, lo, i) == 0
  {
  }

  lemma {:induction false} SliceStep(arr: seq<Value>, lo: nat, i: nat)
    requires lo <= i < |arr|
    ensures CountArr(arr, lo, i + 1) == CountArr(arr, lo, i) + (if arr[i] != VNil then 1 else 0) <= CountArr(arr, lo,
        |arr|)
  {
    ArrSplit(arr, lo, i + 1, |arr|);
  }

  lemma {:induction false} SliceLookup(arr: seq<Value>, i: nat)
    requires i < |arr|
    ensures forall q :: Lookup(arr[..i + 1], [], q) == if q == KInt(i + 1) then arr[i] else Lookup(arr[..i], [], q)
    ensures Lookup(arr[..i], [], KInt(i + 1)) == VNil
  {
  }

  lemma {:induction false} NotInArr(arr: seq<Value>, i: nat)
    requires i > |arr|
    ensures !InArr(arr, KInt(i))
  {
  }

  lemma {:induction false} InSliceArr(arr: seq<Value>, k: Key)
    ensures InSlice(k, 0, |arr|) <==> InArr(arr, k)
  {
  }

  lemma {:induction false} NodeStep(arr: seq<Value>, node: seq<Node>, j: nat, na: nat)
    requires Distinct(node) && j < |node| && forall i | 0 <= i < |node| ::
        (node[i].key == KNil ==> node[i].val == VNil) && !InArr(arr, node[i].key)
    ensures Outside(node, j + 1, na) == Outside(node, j, na) + if node[j].val != VNil
        && !InSlice(node[j].key, 0, na) then 1 else 0
    ensures Outside(node, j + 1, na) <= Outside(node, |node|, na)
    ensures forall q :: Lookup(arr, node[j..], q) == if q == node[j].key && node[j].val != VNil then node[j].val
        else Lookup(arr, node[j + 1..], q)
  {
    OutsideMono(node, j + 1, |node|, na);
    forall q ensures Lookup(arr, node[j..], q) == if q == node[j].key && node[j].val != VNil then node[j].val
        else Lookup(arr, node[j + 1..], q) {
      NodeLookup(arr, node, j, q);
    }
  }

  lemma {:induction false} OutsideMono(node: seq<Node>, j: nat, m: nat, na: nat)
    requires j <= m <= |node|
    ensures Outside(node, j, na) <= Outside(node, m, na)
    decreases m
  {
    if j < m { OutsideMono(node, j, m - 1, na); }
  }

  lemma {:induction false} NodeLookup(arr: seq<Value>, node: seq<Node>, j: nat, q: Key)
    requires Distinct(node) && j < |node| && forall i | 0 <= i < |node| ::
        (node[i].key == KNil ==> node[i].val == VNil) && !InArr(arr, node[i].key)
    ensures Lookup(arr, node[j..], q) == if q == node[j].key && node[j].val != VNil then node[j].val
        else Lookup(arr, node[j + 1..], q)
  {
    hide Lookup;
    var a, b := node[j..], node[j + 1..];
    assert Distinct(a) && Distinct(b);
    if q == KNil || InArr(arr, q) {
      LookupPlain(arr, a, b, q);
    } else if Has(b, q) {
      var i :| 0 <= i < |b| && b[i].key == q;
      LookupNode(arr, b, i);
      assert a[i + 1] == b[i];
      LookupNode(arr, a, i + 1);
      assert node[j + 1 + i].key == q;
    } else {
      LookupAbsent(arr, b, q);
      if q == node[j].key {
        LookupNode(arr, a, 0);
      } else {
        forall i | 0 <= i < |a| ensures a[i].key != q { assert i > 0 ==> a[i] == b[i - 1]; }
        LookupAbsent(arr, a, q);
      }
    }
  }

  lemma {:induction false} LookupAbsent(arr: seq<Value>, node: seq<Node>, q: Key)
    requires !InArr(arr, q) && !Has(node, q)
    ensures Lookup(arr, node, q) == VNil
  {
  }

  /** The new hash part has room for every entry outside the array part, and for
      the new key if it is outside too. */
  lemma {:induction false} SizesFit(arr: seq<Value>, node: seq<Node>, ek: Key, n: nat, na: nat, totaluse: nat)
    requires |arr| <= MAXASIZE && totaluse == CountArr(arr, 0, MAXASIZE) + LiveNodes(node, 0) + 1
    requires (n == 0 && na == 0) || exists l :: 0 <= l <= MAXBITS && n == Pow(l) && na == Keys1(arr, node, ek, Pow(l))
    ensures n <= MAXASIZE && na <= totaluse
    ensures CountArr(arr, n, |arr|) + Outside(node, |node|, n) + (if InSlice(ek, 0, n) then 0 else 1) == totaluse - na
  {
    hide Pow, CountArr, CountNodes, LiveNodes, Outside;
    PowMax();
    if n == 0 {
      KeysNone(arr, node, 0);
    } else {
      var l :| 0 <= l <= MAXBITS && n == Pow(l) && na == Keys1(arr, node, ek, Pow(l));
      PowMono(l, MAXBITS);
    }
    ArrSplit(arr, 0, n, MAXASIZE);
    if n <= |arr| {
      ArrSplit(arr, n, |arr|, MAXASIZE);
      ArrBeyond(arr, |arr|, MAXASIZE);
    } else {
      ArrBeyond(arr, n, MAXASIZE);
      CountNone(arr, n, |arr|);
    }
    OutsideCount(node, 0, n);
    OutsideZero(node, n);
  }

  lemma {:induction false} OutsideZero(node: seq<Node>, na: nat)
    ensures Outside(node, 0, na) == 0
  {
  }

  /** A new value in a node. */
  lemma {:induction false} ValueWritten(h: Hash, node: seq<Node>, o: Order, n: nat, v: Value)
    requires Hashed(h, node, o) && n < |node| && node[n].key != KNil
    ensures Hashed(h, node[n := node[n].(val := v)], o)
  {
    var node' := node[n := node[n].(val := v)];
    forall i | 0 <= i < |node'| ensures LinkOk(node', o, i) { assert LinkOk(node, o, i); }
    forall i | 0 <= i < |node'| ensures KeyOk(h, node', o, i) { assert KeyOk(h, node, o, i); }
  }

  lemma {:induction false} LookupWritten(arr: seq<Value>, node: seq<Node>, n: nat, v: Value, q: Key)
    requires Distinct(node) && n < |node| && node[n].key != KNil && !InArr(arr, node[n].key)
    ensures Lookup(arr, node[n := node[n].(val := v)], q) == if q == node[n].key then v else Lookup(arr, node, q)
  {
    var node' := node[n := node[n].(val := v)];
    if !InArr(arr, q) && q != KNil {
      if Has(node, q) {
        var i :| 0 <= i < |node| && node[i].key == q;
        LookupNode(arr, node, i);
        LookupNode(arr, node', i);
      } else {
        assert forall i | 0 <= i < |node'| :: node'[i].key == node[i].key;
      }
    }
  }
}
