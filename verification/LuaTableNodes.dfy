/** The hash part of a Lua table (modules/lua/ltable.c): a vector of nodes whose
    links form lists, with Brent's variation. */
module LuaTableNodes {

  /** Numbers with an integer value are told apart from all other keys. */
  datatype Key = KNil | KNan | KInt(i: int) | KOther(id: nat)

  datatype Value = VNil | V(id: nat)

  /** `next` is an index in the vector, or -1. */
  datatype Node = Node(key: Key, val: Value, next: int)

  /** Any hash function, of the key and the size of the vector. */
  type Hash = (Key, nat) -> nat

  function Main(h: Hash, node: seq<Node>, k: Key): (r: nat)
    requires node != []
    ensures r < |node|
  {
    h(k, |node|) % |node|
  }

  /** The lists: nodes with the same label, in the order of their ranks. */
  datatype Order = Order(lab: seq<nat>, rank: seq<real>)

  ghost predicate Before(o: Order, i: nat, j: nat)
    requires i < |o.lab| == |o.rank| && j < |o.lab|
  {
    o.lab[i] == o.lab[j] && o.rank[i] < o.rank[j]
  }

  ghost predicate LinkOk(node: seq<Node>, o: Order, i: nat)
    requires |o.lab| == |o.rank| == |node| && i < |node|
  {
    var n := node[i].next;
    && -1 <= n < |node|
    && (n >= 0 ==> Before(o, i, n) && forall k | 0 <= k < |node| && Before(o, i, k) :: k == n || Before(o, n, k))
    && (n == -1 ==> forall k | 0 <= k < |node| :: !Before(o, i, k))
  }

  /** The links follow the order: no node has two predecessors, and no list runs into itself. */
  ghost predicate Lists(node: seq<Node>, o: Order) {
    && |o.lab| == |o.rank| == |node| && node != []
    && (forall i | 0 <= i < |node| :: LinkOk(node, o, i))
    && (forall i, j | 0 <= i < |node| && 0 <= j < |node| && i != j && o.lab[i] == o.lab[j] :: o.rank[i] != o.rank[j])
  }

  /** Every key can be reached from its main position, which holds a key that belongs there. */
  ghost predicate KeyOk(h: Hash, node: seq<Node>, o: Order, i: nat)
    requires |o.lab| == |o.rank| == |node| && i < |node|
  {
    if node[i].key == KNil then
      node[i].val == VNil && node[i].next == -1 && forall j | 0 <= j < |node| && j != i :: o.lab[j] != o.lab[i]
    else
      var r := Main(h, node, node[i].key);
      && node[i].key != KNan
      && (r == i || Before(o, r, i))
      && node[r].key != KNil && Main(h, node, node[r].key) == r
  }

  ghost predicate Keys(h: Hash, node: seq<Node>, o: Order)
    requires |o.lab| == |o.rank| == |node|
  {
    && (forall i | 0 <= i < |node| :: KeyOk(h, node, o, i))
    && (forall i, j | 0 <= i < j < |node| && node[i].key != KNil :: node[i].key != node[j].key)
  }

  ghost predicate Hashed(h: Hash, node: seq<Node>, o: Order) {
    Lists(node, o) && Keys(h, node, o)
  }

  predicate Has(node: seq<Node>, k: Key) {
    exists i :: 0 <= i < |node| && node[i].key == k
  }

  /** No node at or above `lastfree` is free. */
  ghost predicate FreeBelow(node: seq<Node>, lastfree: nat) {
    lastfree <= |node| && forall i | lastfree <= i < |node| :: node[i].key != KNil
  }

  // ----- A new key -----

  /** The main position is not taken: the key goes there, whatever list that is in. */
  lemma {:induction false} KeyAtMain(h: Hash, node: seq<Node>, o: Order, k: Key)
    requires Hashed(h, node, o) && k != KNil && k != KNan && !Has(node, k)
    requires node[Main(h, node, k)].val == VNil
    ensures var mp := Main(h, node, k); Hashed(h, node[mp := Node(k, VNil, node[mp].next)], o)
  {
    var mp := Main(h, node, k);
    var node' := node[mp := Node(k, VNil, node[mp].next)];
    forall i | 0 <= i < |node'| ensures LinkOk(node', o, i) { assert LinkOk(node, o, i); }
    forall i | 0 <= i < |node'|
      ensures KeyOk(h, node', o, i) { assert KeyOk(h, node, o, i); assert KeyOk(h, node, o, mp); }
    forall i, j | 0 <= i < j < |node'| && node'[i].key != KNil ensures node'[i].key != node'[j].key {
      assert i == mp ==> node[j].key != k;
      assert j == mp ==> node[i].key != k;
    }
  }

  /** A rank just behind `mp` in its list. */
  ghost function Between(node: seq<Node>, o: Order, mp: nat): real
    requires |o.rank| == |node| && mp < |node| && node[mp].next < |node|
  {
    if node[mp].next < 0 then o.rank[mp] + 1.0 else (o.rank[mp] + o.rank[node[mp].next]) / 2.0
  }

  ghost function Inserted(node: seq<Node>, o: Order, mp: nat, n: nat): Order
    requires |o.lab| == |o.rank| == |node| && mp < |node| && n < |node| && node[mp].next < |node|
  {
    Order(o.lab[n := o.lab[mp]], o.rank[n := Between(node, o, mp)])
  }

  /** The main position is taken by a key that belongs there: the new key goes
      to a free node, which is linked behind it. */
  lemma {:induction false} KeyBehindMain(h: Hash, node: seq<Node>, o: Order, k: Key, n: nat)
    requires Hashed(h, node, o) && k != KNil && k != KNan && !Has(node, k) && n < |node| && node[n].key == KNil
    requires var mp := Main(h, node, k); node[mp].key != KNil && Main(h, node, node[mp].key) == mp
    ensures var mp := Main(h, node, k);
      node[mp].next < |node| && Hashed(h, node[n := Node(k, VNil, node[mp].next)][mp := node[mp].(next := n)],
          Inserted(node, o, mp, n))
  {
    hide KeyOk, LinkOk;
    var mp := Main(h, node, k);
    FreeAlone(h, node, o, n);
    assert LinkOk(node, o, mp);
    NextInside(node, o, mp);
    var node' := node[n := Node(k, VNil, node[mp].next)][mp := node[mp].(next := n)];
    var o' := Inserted(node, o, mp, n);
    forall i | 0 <= i < |node'| ensures LinkOk(node', o', i) { InsertedLink(h, node, o, k, mp, n, i); }
    forall i, j | 0 <= i < |node'| && 0 <= j < |node'| && i != j && o'.lab[i] == o'.lab[j]
      ensures o'.rank[i] != o'.rank[j]
    {
      RankApart(h, node, o, mp, n, i, j);
    }
    forall i | 0 <= i < |node'| ensures KeyOk(h, node', o', i) { InsertedKey(h, node, o, k, mp, n, i); }
    forall i, j | 0 <= i < j < |node'| && node'[i].key != KNil ensures node'[i].key != node'[j].key {
      assert i == n ==> node[j].key != k;
      assert j == n ==> node[i].key != k;
    }
  }

  lemma {:induction false} NextInside(node: seq<Node>, o: Order, i: nat)
    requires |o.lab| == |o.rank| == |node| && i < |node| && LinkOk(node, o, i)
    ensures -1 <= node[i].next < |node|
  {
  }

  /** A free node is alone in its list. */
  lemma {:induction false} FreeAlone(h: Hash, node: seq<Node>, o: Order, n: nat)
    requires Hashed(h, node, o) && n < |node| && node[n].key == KNil
    ensures node[n].val == VNil && node[n].next == -1 && forall j | 0 <= j < |node| && j != n :: o.lab[j] != o.lab[n]
    ensures forall i | 0 <= i < |node| :: node[i].next != n
  {
    assert KeyOk(h, node, o, n);
    forall i | 0 <= i < |node| ensures node[i].next != n { assert LinkOk(node, o, i); }
  }

  lemma {:induction false} InsertedLink(h: Hash, node: seq<Node>, o: Order, k: Key, mp: nat, n: nat, i: nat)
    requires Hashed(h, node, o) && n < |node| && mp < |node| && i < |node| && node[n].key == KNil
        && node[mp].key != KNil && node[mp].next < |node|
    ensures LinkOk(node[n := Node(k, VNil, node[mp].next)][mp := node[mp].(next := n)], Inserted(node, o, mp, n), i)
  {
    FreeAlone(h, node, o, n);
    assert LinkOk(node, o, i) && LinkOk(node, o, mp);
    var o' := Inserted(node, o, mp, n);
    var node' := node[n := Node(k, VNil, node[mp].next)][mp := node[mp].(next := n)];
    if i == mp {
      assert Before(o', mp, n);
      forall j | 0 <= j < |node'| && Before(o', mp, j) ensures j == n || Before(o', n, j) {
        if j != n { assert Before(o, mp, j); }
      }
    } else if i == n {
      var x := node[mp].next;
      forall j | 0 <= j < |node'| && Before(o', n, j) ensures x >= 0 && (j == x || Before(o', x, j)) {
        assert j != n && j != mp;
        if o.rank[j] > o.rank[mp] { assert Before(o, mp, j); }
      }
    } else {
      var x := node[i].next;
      assert x != n;
      if x >= 0 { assert Before(o', i, x); }
      forall j | 0 <= j < |node'| && Before(o', i, j) ensures x >= 0 && (j == x || Before(o', x, j)) {
        if j == n {
          if o.rank[i] < o.rank[mp] { assert Before(o, i, mp); } else { assert Before(o, mp, i); }
        } else { assert Before(o, i, j); }
      }
    }
  }

  lemma {:induction false} RankApart(h: Hash, node: seq<Node>, o: Order, mp: nat, n: nat, i: nat, j: nat)
    requires Hashed(h, node, o) && n < |node| && mp < |node| && i < |node| && j < |node| && node[n].key == KNil
        && node[mp].key != KNil && node[mp].next < |node|
    requires i != j && Inserted(node, o, mp, n).lab[i] == Inserted(node, o, mp, n).lab[j]
    ensures Inserted(node, o, mp, n).rank[i] != Inserted(node, o, mp, n).rank[j]
  {
    FreeAlone(h, node, o, n);
    assert LinkOk(node, o, mp);
    var other := if i == n then j else i;
    if i == n || j == n {
      if other != mp {
        if o.rank[other] > o.rank[mp] { assert Before(o, mp, other); }
      }
    }
  }

  lemma {:induction false} InsertedKey(h: Hash, node: seq<Node>, o: Order, k: Key, mp: nat, n: nat, i: nat)
    requires Hashed(h, node, o) && n < |node| && i < |node| && node[n].key == KNil && mp == Main(h, node, k)
        && node[mp].next < |node| && k != KNil && k != KNan
    requires node[mp].key != KNil && Main(h, node, node[mp].key) == mp
    ensures KeyOk(h, node[n := Node(k, VNil, node[mp].next)][mp := node[mp].(next := n)], Inserted(node, o, mp, n), i)
  {
    FreeAlone(h, node, o, n);
    assert KeyOk(h, node, o, i) && LinkOk(node, o, mp);
    var o' := Inserted(node, o, mp, n);
    if i == n { assert Before(o', mp, n); }
  }

  ghost function Swapped(o: Order, mp: nat, n: nat): Order
    requires |o.lab| == |o.rank| && mp < |o.lab| && n < |o.lab|
  {
    Order(o.lab[mp := o.lab[n]][n := o.lab[mp]], o.rank[mp := o.rank[n]][n := o.rank[mp]])
  }

  function Moved(node: seq<Node>, k: Key, mp: nat, n: nat, prev: nat): seq<Node>
    requires mp < |node| && n < |node| && prev < |node|
  {
    var node1 := node[prev := node[prev].(next := n)];
    node1[n := node1[mp]][mp := Node(k, VNil, -1)]
  }

  /** The main position is taken by a key that does not belong there: that key
      moves to a free node, in its place in its list. */
  lemma {:induction false} KeyDisplaces(h: Hash, node: seq<Node>, o: Order, k: Key, n: nat, prev: nat)
    requires Hashed(h, node, o) && k != KNil && k != KNan && !Has(node, k) && n < |node| && node[n].key == KNil
    requires var mp := Main(h, node, k);
        node[mp].key != KNil && Main(h, node, node[mp].key) != mp && prev < |node| && node[prev].next == mp
    ensures Hashed(h, Moved(node, k, Main(h, node, k), n, prev), Swapped(o, Main(h, node, k), n))
  {
    hide KeyOk, LinkOk;
    var mp := Main(h, node, k);
    FreeAlone(h, node, o, n);
    assert prev != n;
    PrevNotSelf(node, o, prev);
    var node', o' := Moved(node, k, mp, n, prev), Swapped(o, mp, n);
    forall i | 0 <= i < |node'| ensures LinkOk(node', o', i) { MovedLink(h, node, o, k, mp, n, prev, i); }
    forall i, j | 0 <= i < |node'| && 0 <= j < |node'| && i != j && o'.lab[i] == o'.lab[j]
      ensures o'.rank[i] != o'.rank[j]
    {
      var i0, j0 := if i == mp then n else if i == n then mp else i, if j == mp then n else if j == n then mp else j;
      assert i0 != j0 && o.lab[i0] == o.lab[j0];
    }
    forall i | 0 <= i < |node'| ensures KeyOk(h, node', o', i) { MovedKey(h, node, o, k, mp, n, prev, i); }
    forall i, j | 0 <= i < j < |node'| && node'[i].key != KNil ensures node'[i].key != node'[j].key {
      assert i == mp ==> node[if j == n then mp else j].key != k;
      assert j == mp ==> node[if i == n then mp else i].key != k;
      assert i == n ==> node[mp].key != node[j].key || j == mp;
      assert j == n ==> node[mp].key != node[i].key || i == mp;
    }
  }

  lemma {:induction false} PrevNotSelf(node: seq<Node>, o: Order, i: nat)
    requires |o.lab| == |o.rank| == |node| && i < |node| && LinkOk(node, o, i)
    ensures node[i].next != i
  {
  }

  /** At most one node comes before another. */
  lemma {:induction false} OnePrevious(node: seq<Node>, o: Order, i: nat, j: nat)
    requires Lists(node, o) && i < |node| && j < |node| && node[i].next == node[j].next >= 0
    ensures i == j
  {
    assert LinkOk(node, o, i) && LinkOk(node, o, j);
    assert !Before(o, i, j) && !Before(o, j, i);
  }

  lemma {:induction false} MovedLink(h: Hash, node: seq<Node>, o: Order, k: Key, mp: nat, n: nat, prev: nat, i: nat)
    requires Hashed(h, node, o) && n < |node| && mp < |node| && i < |node| && prev < |node| && n != mp
    requires node[n].key == KNil && node[mp].key != KNil && node[prev].next == mp
    ensures LinkOk(Moved(node, k, mp, n, prev), Swapped(o, mp, n), i)
  {
    hide Keys, Moved, Swapped;
    FreeAlone(h, node, o, n);
    PrevNotSelf(node, o, prev);
    var i0 := if i == mp then n else if i == n then mp else i;
    var node', o' := Moved(node, k, mp, n, prev), Swapped(o, mp, n);
    MovedNext(node, o, k, mp, n, prev, i, i0);
    SwappedSize(o, mp, n);
    forall j | 0 <= j < |node'| && Before(o', i, j)
      ensures node'[i].next >= 0 && (j == node'[i].next || Before(o', node'[i].next, j))
    {
      var j0 := if j == mp then n else if j == n then mp else j;
      BeforeSwapped(o, mp, n, i0, j0);
      assert LinkOk(node, o, i0);
      if j0 != node[i0].next { BeforeSwapped(o, mp, n, node[i0].next, j0); }
    }
    if node'[i].next >= 0 { BeforeSwapped(o, mp, n, i0, node[i0].next); }
  }

  lemma {:induction false} MovedNext(node: seq<Node>, o: Order, k: Key, mp: nat, n: nat, prev: nat, i: nat, i0: nat)
    requires Lists(node, o) && n < |node| && mp < |node| && i < |node| && prev < |node| && n != mp && prev != mp
    requires node[n].next == -1 && node[prev].next == mp && i0 == if i == mp then n else if i == n then mp else i
    requires forall j | 0 <= j < |node| :: node[j].next != n
    ensures var node', x := Moved(node, k, mp, n, prev), node[i0].next;
      |node'| == |node| && node'[i].next == (if x == mp then n else x) && -1 <= x < |node|
          && (x >= 0 ==> Before(o, i0, x))
  {
    assert LinkOk(node, o, i0);
    if i != prev && node[i0].next == mp { OnePrevious(node, o, i0, prev); }
  }

  lemma {:induction false} SwappedSize(o: Order, mp: nat, n: nat)
    requires |o.lab| == |o.rank| && mp < |o.lab| && n < |o.lab|
    ensures |Swapped(o, mp, n).lab| == |Swapped(o, mp, n).rank| == |o.lab|
  {
  }

  lemma {:induction false} BeforeSwapped(o: Order, mp: nat, n: nat, a: nat, b: nat)
    requires |o.lab| == |o.rank| && mp < |o.lab| && n < |o.lab| && a < |o.lab| && b < |o.lab| && n != mp
    ensures var o', a', b' := Swapped(o, mp, n), if a == mp then n else if a == n then mp else a, if b == mp then n
        else if b == n then mp else b;
      |o'.lab| == |o'.rank| == |o.lab| && (Before(o', a', b') <==> Before(o, a, b))
  {
  }

  lemma {:induction false} MovedKey(h: Hash, node: seq<Node>, o: Order, k: Key, mp: nat, n: nat, prev: nat, i: nat)
    requires Hashed(h, node, o) && n < |node| && i < |node| && prev < |node| && k != KNil && k != KNan
        && mp == Main(h, node, k)
    requires node[n].key == KNil && node[mp].key != KNil && Main(h, node, node[mp].key) != mp && node[prev].next == mp
    ensures KeyOk(h, Moved(node, k, mp, n, prev), Swapped(o, mp, n), i)
  {
    FreeAlone(h, node, o, n);
    PrevNotSelf(node, o, prev);
    assert KeyOk(h, node, o, i) && KeyOk(h, node, o, mp);
    var node', o' := Moved(node, k, mp, n, prev), Swapped(o, mp, n);
    assert forall j | 0 <= j < |node| && j != mp && j != n :: node'[j].key == node[j].key;
    if i == n {
      var r := Main(h, node, node[mp].key);
      assert Before(o, r, mp) && r != n;
      assert Before(o', r, n);
    } else if i != mp && node[i].key != KNil {
      var r := Main(h, node, node[i].key);
      assert r != mp && r != n;
      if r != i { assert Before(o', r, i); }
    }
  }

  // ----- Walking a list -----

  /** Nodes of the list of `r` behind `i`: what a walk has still to see. */
  ghost function Behind(node: seq<Node>, o: Order, i: nat): set<nat>
    requires |o.lab| == |o.rank| == |node| && i < |node|
  {
    set j: nat | j < |node| && Before(o, i, j)
  }

  lemma {:induction false} WalkOn(node: seq<Node>, o: Order, i: nat)
    requires Lists(node, o) && i < |node| && node[i].next >= 0
    ensures node[i].next < |node| && Behind(node, o, node[i].next) < Behind(node, o, i)
    ensures forall j | j in Behind(node, o, i) :: j == node[i].next || j in Behind(node, o, node[i].next)
  {
    assert LinkOk(node, o, i);
    assert node[i].next in Behind(node, o, i);
  }

  lemma {:induction false} WalkEnds(node: seq<Node>, o: Order, i: nat)
    requires Lists(node, o) && i < |node| && node[i].next < 0
    ensures node[i].next == -1 && Behind(node, o, i) == {}
  {
    assert LinkOk(node, o, i);
  }
}
