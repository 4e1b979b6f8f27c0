/** The table of short strings (modules/lua/lstring.c): buckets of linked string
    objects, so that equal contents always are the same object. */
module LuaStrings {
  import opened Common

  type Ref = nat
  const NULL: int := -1

  // ----- Linked buckets -----

  ghost predicate NextOk(next: seq<int>, l: seq<Ref>, k: nat)
    requires k < |l|
  {
    l[k] < |next| && next[l[k]] == if k + 1 < |l| then l[k + 1] else NULL
  }

  /** The links lead from `p` through `l`. */
  ghost predicate Linked(next: seq<int>, p: int, l: seq<Ref>) {
    && (p == if l == [] then NULL else l[0])
    && (forall k | 0 <= k < |l| :: NextOk(next, l, k))
  }

  lemma {:induction false} LinkedTail(next: seq<int>, p: int, l: seq<Ref>)
    requires Linked(next, p, l) && l != []
    ensures p == l[0] < |next| && Linked(next, next[p], l[1..])
  {
    var l' := l[1..];
    LinkedNext(next, p, l, 0);
    forall k | 0 <= k < |l'| ensures NextOk(next, l', k) {
      LinkedNext(next, p, l, k + 1);
      assert l'[k] == l[k + 1] && (k + 1 < |l'| ==> l'[k + 1] == l[k + 1 + 1]);
    }
  }

  lemma {:induction false} LinkedNext(next: seq<int>, p: int, l: seq<Ref>, k: nat)
    requires Linked(next, p, l) && k < |l|
    ensures NextOk(next, l, k)
  {
  }

  lemma {:induction false} LinkedPush(next: seq<int>, q: int, l: seq<Ref>, p: Ref)
    requires Linked(next, q, l) && p !in l && p < |next|
    ensures Linked(next[p := q], p, [p] + l)
  {
    var l' := [p] + l;
    var next' := next[p := q];
    forall k | 0 <= k < |l'| ensures NextOk(next', l', k) {
      if k > 0 {
        LinkedNext(next, q, l, k - 1);
        assert l'[k] == l[k - 1] && l[k - 1] in l && (k < |l| ==> l'[k + 1] == l[k]);
      }
    }
  }

  lemma {:induction false} LinkedKeep(next: seq<int>, q: int, l: seq<Ref>, p: Ref, v: int)
    requires Linked(next, q, l) && p !in l && p < |next|
    ensures Linked(next[p := v], q, l)
  {
    var next' := next[p := v];
    forall k | 0 <= k < |l| ensures NextOk(next', l, k) { assert NextOk(next, l, k) && l[k] in l; }
  }

  ghost predicate ListOk(next: seq<int>, p: int, l: seq<Ref>, place: map<Ref, int>, b: int) {
    Linked(next, p, l) && NoDup(l) && forall r | r in l :: r in place && place[r] == b
  }

  ghost predicate Where(lists: seq<seq<Ref>>, rest: seq<Ref>, place: map<Ref, int>, r: Ref)
    requires r in place
  {
    if place[r] == NULL then r in rest else 0 <= place[r] < |lists| && r in lists[place[r]]
  }

  /** `place` says in which bucket every object is; those on the list from `p`
      are in none. */
  ghost predicate Threaded(next: seq<int>, heads: seq<int>, lists: seq<seq<Ref>>, p: int, rest: seq<Ref>,
      place: map<Ref, int>)
  {
    && |lists| == |heads|
    && (forall b | 0 <= b < |heads| :: ListOk(next, heads[b], lists[b], place, b))
    && ListOk(next, p, rest, place, NULL)
    && (forall r | r in place :: Where(lists, rest, place, r))
  }

  /** A bucket is taken apart. */
  lemma {:induction false} Taken(next: seq<int>, heads: seq<int>, lists: seq<seq<Ref>>, place: map<Ref, int>, i: nat)
    returns (place': map<Ref, int>)
    requires Threaded(next, heads, lists, NULL, [], place) && i < |heads|
    ensures place'.Keys == place.Keys && forall r | r in place :: place'[r] == if place[r] == i then NULL else place[r]
    ensures Threaded(next, heads[i := NULL], lists[i := []], heads[i], lists[i], place')
  {
    hide Linked, NoDup;
    place' := map r | r in place :: if place[r] == i then NULL else place[r];
    var heads', lists' := heads[i := NULL], lists[i := []];
    assert ListOk(next, heads[i], lists[i], place, i);
    forall b | 0 <= b < |heads'| ensures ListOk(next, heads'[b], lists'[b], place', b) {
      if b == i { EmptyList(next, place', i); } else { assert ListOk(next, heads[b], lists[b], place, b); }
    }
    forall r | r in place' ensures Where(lists', lists[i], place', r) { assert Where(lists, [], place, r); }
  }

  lemma {:induction false} EmptyList(next: seq<int>, place: map<Ref, int>, b: int)
    ensures ListOk(next, NULL, [], place, b)
  {
  }

  lemma {:induction false} NoDupTail(l: seq<Ref>)
    requires NoDup(l) && l != []
    ensures NoDup(l[1..]) && l[0] !in l[1..]
  {
  }

  lemma {:induction false} NoDupPush(l: seq<Ref>, p: Ref)
    requires NoDup(l) && p !in l
    ensures NoDup([p] + l)
  {
    var l' := [p] + l;
    forall i, j | 0 <= i < j < |l'| ensures l'[i] != l'[j] { assert l'[j] == l[j - 1]; }
  }

  /** The first object of the rest goes to the front of a bucket. */
  lemma {:induction false} Pushed(next: seq<int>, heads: seq<int>, lists: seq<seq<Ref>>, p: Ref, rest: seq<Ref>,
      place: map<Ref, int>, h: nat)
    requires Threaded(next, heads, lists, p, rest, place) && h < |heads| && rest != []
    ensures p < |next| && p == rest[0] && p in place
    ensures Threaded(next[p := heads[h]], heads[h := p], lists[h := [p] + lists[h]], next[p], rest[1..], place[p := h])
  {
    hide Linked, NoDup;
    LinkedTail(next, p, rest);
    NoDupTail(rest);
    assert rest == [p] + rest[1..];
    var next', heads', lists', rest', place' := next[p := heads[h]], heads[h := p], lists[h := [p] + lists[h]],
        rest[1..], place[p := h];
    forall b | 0 <= b < |heads'| ensures ListOk(next', heads'[b], lists'[b], place', b) {
      assert ListOk(next, heads[b], lists[b], place, b);
      if b == h {
        LinkedPush(next, heads[b], lists[b], p);
        NoDupPush(lists[b], p);
      } else {
        LinkedKeep(next, heads[b], lists[b], p, heads[h]);
      }
    }
    LinkedKeep(next, next[p], rest', p, heads[h]);
    forall r | r in place'
      ensures Where(lists', rest', place', r) { if r != p { assert Where(lists, rest, place, r); } }
  }

  // ----- Where an object belongs -----

  /** Every object is in the bucket of its hash. */
  ghost predicate Sized(hash: seq<nat>, place: map<Ref, int>, size: nat)
    requires size > 0
  {
    forall r | r in place :: r < |hash| && place[r] == hash[r] % size
  }

  /** Buckets before `i` are done; a later one still holds what the old size put
      there, and may hold what has been moved on to it. */
  ghost predicate Rehashing(hash: seq<nat>, place: map<Ref, int>, oldsize: nat, newsize: nat, i: nat)
    requires oldsize > 0 && newsize > 0
  {
    forall r | r in place && place[r] != NULL :: r < |hash| && (place[r] == hash[r] % newsize
        || (i <= place[r] < oldsize && place[r] == hash[r] % oldsize))
  }

  const MAX_INT: nat := 0x7fff_ffff

  ghost predicate Power(n: nat) {
    n == 1 || (n > 1 && n % 2 == 0 && Power(n / 2))
  }

  class StringTable {
    const hashOf: string -> nat
    var content: seq<string>
    var hash: seq<nat>
    var next: seq<int>
    var heads: seq<int>
    var nuse: nat
    ghost var lists: seq<seq<Ref>>
    ghost var place: map<Ref, int>

    /** The objects in the table are threaded by their hashes, and no two have
        the same contents. */
    ghost predicate Valid()
      reads this
    {
      && Power(|heads|) && |next| == |content| && Contents(hashOf, content, hash, nuse, place.Keys)
      && Threaded(next, heads, lists, NULL, [], place) && Sized(hash, place, |heads|)
      && Different(content, place.Keys)
    }

    constructor (hashOf: string -> nat, size: nat)
      requires Power(size)
      ensures Valid() && this.hashOf == hashOf && place == map[] && |heads| == size
    {
      this.hashOf := hashOf;
      content, hash, next, nuse := [], [], [], 0;
      heads := seq(size, i => NULL);
      lists := seq(size, i => []);
      place := map[];
    }

    /** The objects of bucket `i` go where they belong. */
    method RehashBucket(i: nat, oldsize: nat, newsize: nat, ghost keys: set<Ref>, ghost size: nat)
      requires newsize > 0 && i < oldsize && Partly(hash, next, heads, lists, place, keys, size, oldsize, newsize, i,
          NULL, [])
      modifies `next, `heads, `lists, `place
      ensures Partly(hash, next, heads, lists, place, keys, size, oldsize, newsize, i + 1, NULL, [])
    {
      hide Partly;
      ghost var place' := BucketTaken(hash, next, heads, lists, place, keys, size, oldsize, newsize, i);
      var p := heads[i];
      ghost var rest := lists[i];
      heads, lists, place := heads[i := NULL], lists[i := []], place';
      while p != NULL
        invariant Partly(hash, next, heads, lists, place, keys, size, oldsize, newsize, i + 1, p, rest) && (p == NULL
            <==> rest == []) && p >= NULL
        decreases |rest|
      {
        NodeMoved(hash, next, heads, lists, p, rest, place, keys, size, oldsize, newsize, i + 1);
        var h := hash[p] % newsize;
        var q := next[p];
        next, heads, lists, place := next[p := heads[h]], heads[h := p], lists[h := [p as Ref] + lists[h]],
            place[p as Ref := h];
        p, rest := q, rest[1..];
      }
    }

    /** luaS_resize: the objects are rehashed in place, for any new size. */
    method Resize(newsize: nat)
      requires Valid() && Power(newsize)
      modifies `next, `heads, `lists, `place
      ensures Valid() && |heads| == newsize && place.Keys == old(place.Keys)
    {
      hide Threaded, Sized, Contents, Different;
      ghost var keys := place.Keys;
      var oldsize := |heads|;
      ContentsSize(hashOf, content, hash, nuse, keys);
      Grown(hash, next, heads, lists, place, newsize);
      if newsize > oldsize {
        heads, lists := heads + seq(newsize - oldsize, i => NULL), lists + seq(newsize - oldsize, i => []);
      }
      ghost var size := |heads|;
      var i := 0;
      while i < oldsize
        invariant 0 <= i <= oldsize && Partly(hash, next, heads, lists, place, keys, size, oldsize, newsize, i, NULL,
            [])
      {
        RehashBucket(i, oldsize, newsize, keys, size);
        i := i + 1;
      }
      Rehashed(hash, next, heads, lists, place, oldsize, newsize);
      if newsize < oldsize {
        assert heads[newsize] == NULL && heads[oldsize - 1] == NULL;
        heads, lists := heads[..newsize], lists[..newsize];
      } else {
        assert heads[..newsize] == heads && lists[..newsize] == lists;
      }
    }

    /** newshrstr: a table that is too crowded is doubled first. */
    method NewString(str: string) returns (r: Ref)
      requires Valid() && forall q | q in place :: content[q] != str
      modifies this
      ensures Valid() && r == |old(content)| && content == old(content) + [str] && place.Keys == old(place.Keys) + {r}
      ensures |heads| == (if old(nuse) >= |old(heads)| && |old(heads)| < 0x4000_0000 then 2 * |old(heads)|
          else |old(heads)|)
      ensures |heads| > 0 && heads[hashOf(str) % |heads|] == r && nuse == old(nuse) + 1
    {
      hide Threaded, Sized, Contents, Different, Power;
      PowerMore(|heads|);
      if nuse >= |heads| && |heads| <= MAX_INT / 2 { Resize(|heads| * 2); }
      PowerMore(|heads|);
      r := |content|;
      ContentsSize(hashOf, content, hash, nuse, place.Keys);
      var h := hashOf(str);
      var b := h % |heads|;
      Created(hashOf, content, hash, next, heads, nuse, lists, place, str);
      content, hash, next := content + [str], hash + [h], next + [heads[b]];
      heads, nuse := heads[b := r], nuse + 1;
      lists, place := lists[b := [r] + lists[b]], place[r := b];
    }

    /** internshrstr: the object with these contents, found or made. */
    method Intern(str: string) returns (r: Ref)
      requires Valid()
      modifies this
      ensures Valid() && r in place && content[r] == str && old(content) <= content && place.Keys == old(place.Keys)
          + {r}
      ensures r in old(place) || r == |old(content)|
    {
      hide Threaded, Sized, Contents, Different, Power;
      ghost var keys := place.Keys;
      ContentsSize(hashOf, content, hash, nuse, place.Keys);
      PowerMore(|heads|);
      var h := hashOf(str);
      var b := h % |heads|;
      var p := heads[b];
      ghost var k := 0;
      ChainStart(next, heads, lists, place, b);
      while p != NULL
        invariant unchanged(this)
        invariant |lists| == |heads| && 0 <= k <= |lists[b]| && p == if k < |lists[b]| then lists[b][k] else NULL
        invariant forall j | 0 <= j < k :: lists[b][j] < |content| && content[lists[b][j]] != str
        decreases |lists[b]| - k
      {
        ChainNext(next, heads, lists, place, b, k);
        if h == hash[p] && content[p] == str {
          assert place.Keys == keys + {p as Ref};
          return p;
        }
        HashRight(hashOf, content, hash, nuse, place.Keys, p);
        p, k := next[p], k + 1;
      }
      NotThere(hashOf, content, hash, next, heads, nuse, lists, place, str);
      r := NewString(str);
    }

    /** sweeplist unlinks the string behind `prev` in bucket `b`, and frees it. */
    method Erase(b: nat, prev: int, after: int, ghost k: nat)
      requires Valid() && b < |heads| == |lists| && k < |lists[b]|
      requires prev == (if k > 0 then lists[b][k - 1] else NULL)
          && after == (if k + 1 < |lists[b]| then lists[b][k + 1] else NULL)
      modifies `next, `heads, `nuse, `lists, `place
      ensures Valid() && |heads| == old(|heads|) && place == old(place) - {old(lists[b][k])}
      ensures lists == old(lists[b := lists[b][..k] + lists[b][k + 1..]])
    {
      hide Threaded, Sized, Contents, Different, Power;
      ChainNext(next, heads, lists, place, b, k);
      Removed(hashOf, content, hash, next, heads, nuse, lists, place, b, k);
      ghost var gone: Ref := lists[b][k];
      if prev == NULL { heads := heads[b := after]; } else { next := next[prev := after]; }
      nuse := nuse - 1;
      lists, place := lists[b := lists[b][..k] + lists[b][k + 1..]], place - {gone};
    }

    /** Sweeping one bucket: dead strings are unlinked and freed. */
    method Sweep(b: nat, dead: Ref -> bool)
      requires Valid() && b < |heads|
      modifies `next, `heads, `nuse, `lists, `place
      ensures Valid() && content == old(content) && |heads| == old(|heads|)
      ensures place.Keys == set r | r in old(place.Keys) && !(old(place)[r] == b && dead(r))
    {
      hide Threaded, Sized, Contents, Different, Power;
      ghost var place0 := place;
      ContentsSize(hashOf, content, hash, nuse, place.Keys);
      ChainStart(next, heads, lists, place, b);
      var prev, cur := NULL, heads[b];
      ghost var k := 0;
      while cur != NULL
        invariant Valid() && |heads| == |lists| == old(|heads|) && hash == old(hash) && content == old(content)
        invariant 0 <= k <= |lists[b]| && cur == (if k < |lists[b]| then lists[b][k] else NULL)
            && prev == (if k > 0 then lists[b][k - 1] else NULL)
        invariant forall j | 0 <= j < k :: !dead(lists[b][j])
        invariant forall r | r in place :: r in place0 && place[r] == place0[r]
        invariant forall r | r in place0 && r !in place :: place0[r] == b && dead(r)
        decreases |lists[b]| - k
      {
        ChainNext(next, heads, lists, place, b, k);
        var after := next[cur];
        if dead(cur) {
          Erase(b, prev, after, k);
        } else {
          prev, k := cur, k + 1;
        }
        cur := after;
      }
      AllSeen(next, heads, lists, place, b, dead);
      KeysLeft(place0, place, b, dead);
    }

    /** checkSizes: a table of which less than half is in use is halved. */
    method CheckSizes()
      requires Valid()
      modifies `next, `heads, `lists, `place
      ensures Valid() && place.Keys == old(place.Keys) && content == old(content)
      ensures |heads| == if nuse < old(|heads|) / 2 then old(|heads|) / 2 else old(|heads|)
    {
      hide Threaded, Sized, Contents, Different;
      var hs := |heads| / 2;
      if nuse < hs { Resize(hs); }
    }
  }

  /** The contents of the objects, and how many of them are in the table. */
  ghost predicate Contents(hashOf: string -> nat, content: seq<string>, hash: seq<nat>, nuse: nat, keys: set<Ref>) {
    && |hash| == |content| && nuse == |keys|
    && (forall r | 0 <= r < |content| :: hash[r] == hashOf(content[r]))
    && (forall r | r in keys :: r < |content|)
  }

  lemma {:induction false} ContentsSize(hashOf: string -> nat, content: seq<string>, hash: seq<nat>, nuse: nat,
      keys: set<Ref>)
    requires Contents(hashOf, content, hash, nuse, keys)
    ensures |hash| == |content| && forall r | r in keys :: r < |content|
  {
  }

  ghost predicate Different(content: seq<string>, keys: set<Ref>) {
    forall r, q | r in keys && q in keys && r < |content| && q < |content| && content[r] == content[q] :: r == q
  }

  /** Between two steps of a rehash. */
  ghost predicate Partly(hash: seq<nat>, next: seq<int>, heads: seq<int>, lists: seq<seq<Ref>>, place: map<Ref, int>,
      keys: set<Ref>, size: nat, oldsize: nat, newsize: nat, i: nat, p: int, rest: seq<Ref>)
  {
    && |next| == |hash| && place.Keys == keys && |heads| == |lists| == size && 0 < oldsize <= size
        && 0 < newsize <= size
    && Threaded(next, heads, lists, p, rest, place) && Rehashing(hash, place, oldsize, newsize, i)
  }

  lemma {:induction false} BucketTaken(hash: seq<nat>, next: seq<int>, heads: seq<int>, lists: seq<seq<Ref>>,
      place: map<Ref, int>, keys: set<Ref>, size: nat, oldsize: nat, newsize: nat, i: nat)
    returns (place': map<Ref, int>)
    requires Partly(hash, next, heads, lists, place, keys, size, oldsize, newsize, i, NULL, []) && i < oldsize
    ensures i < |heads| == |lists|
    ensures Partly(hash, next, heads[i := NULL], lists[i := []], place', keys, size, oldsize, newsize, i + 1, heads[i],
        lists[i])
    ensures heads[i] >= NULL && (heads[i] == NULL <==> lists[i] == [])
  {
    hide Threaded, Rehashing;
    place' := Taken(next, heads, lists, place, i);
    TakenHashes(hash, place, place', oldsize, newsize, i);
    ThreadedSize(next, heads[i := NULL], lists[i := []], heads[i], lists[i], place');
  }

  lemma {:induction false} NodeMoved(hash: seq<nat>, next: seq<int>, heads: seq<int>, lists: seq<seq<Ref>>, p: int,
      rest: seq<Ref>, place: map<Ref, int>, keys: set<Ref>, size: nat, oldsize: nat, newsize: nat, i: nat)
    requires Partly(hash, next, heads, lists, place, keys, size, oldsize, newsize, i, p, rest) && rest != []
    ensures 0 <= p < |next| == |hash| && |lists| == |heads| && 0 < newsize <= |heads|
    ensures var h, r := hash[p] % newsize, p as Ref;
      Partly(hash, next[p := heads[h]], heads[h := p], lists[h := [r] + lists[h]], place[r := h], keys, size, oldsize,
          newsize, i, next[p], rest[1..])
    ensures next[p] >= NULL && (next[p] == NULL <==> rest[1..] == [])
  {
    hide Threaded, Rehashing;
    ThreadedSize(next, heads, lists, p, rest, place);
    var h, r := hash[p] % newsize, p as Ref;
    Pushed(next, heads, lists, r, rest, place, h);
    PushedHashes(hash, place, oldsize, newsize, i, r);
    ThreadedSize(next[p := heads[h]], heads[h := p], lists[h := [r] + lists[h]], next[p], rest[1..], place[r := h]);
  }

  lemma {:induction false} Start(hash: seq<nat>, place: map<Ref, int>, oldsize: nat, newsize: nat)
    requires oldsize > 0 && newsize > 0 && Sized(hash, place, oldsize)
    ensures Rehashing(hash, place, oldsize, newsize, 0)
  {
  }

  lemma {:induction false} TakenHashes(hash: seq<nat>, place: map<Ref, int>, place': map<Ref, int>, oldsize: nat,
      newsize: nat, i: nat)
    requires oldsize > 0 && newsize > 0 && Rehashing(hash, place, oldsize, newsize, i)
    requires place'.Keys == place.Keys && forall r | r in place :: place'[r] == if place[r] == i then NULL else place[r]
    ensures Rehashing(hash, place', oldsize, newsize, i + 1)
  {
  }

  lemma {:induction false} PushedHashes(hash: seq<nat>, place: map<Ref, int>, oldsize: nat, newsize: nat, i: nat,
      p: Ref)
    requires oldsize > 0 && newsize > 0 && p < |hash| && Rehashing(hash, place, oldsize, newsize, i)
    ensures Rehashing(hash, place[p := hash[p] % newsize], oldsize, newsize, i)
  {
  }

  lemma {:induction false} FirstPlaced(next: seq<int>, p: int, l: seq<Ref>, place: map<Ref, int>, b: int)
    requires ListOk(next, p, l, place, b)
    ensures l == [] ==> p == NULL
    ensures l != [] ==> exists r :: r in place && place[r] == b
  {
    assert l != [] ==> l[0] in l;
  }

  /** All buckets done: every object is in its new bucket, and the buckets about
      to be cut off are empty. */
  lemma {:induction false} Rehashed(hash: seq<nat>, next: seq<int>, heads: seq<int>, lists: seq<seq<Ref>>,
      place: map<Ref, int>, oldsize: nat, newsize: nat)
    requires oldsize > 0 && 0 < newsize <= |heads| && oldsize <= |heads|
    requires Threaded(next, heads, lists, NULL, [], place) && Rehashing(hash, place, oldsize, newsize, oldsize)
    ensures Sized(hash, place, newsize) && |lists| == |heads|
    ensures forall b | newsize <= b < |heads| :: heads[b] == NULL && lists[b] == []
    ensures Threaded(next, heads[..newsize], lists[..newsize], NULL, [], place)
  {
    forall r | r in place ensures place[r] != NULL { assert Where(lists, [], place, r); }
    assert Sized(hash, place, newsize);
    forall b | newsize <= b < |heads|
      ensures heads[b] == NULL && lists[b] == [] { FirstPlaced(next, heads[b], lists[b], place, b); }
    forall b | 0 <= b < newsize
      ensures ListOk(next, heads[..newsize][b], lists[..newsize][b], place, b) { assert ListOk(next, heads[b], lists[b],
        place, b); }
    forall r | r in place ensures Where(lists[..newsize], [], place, r) { assert Where(lists, [], place, r); }
  }

  lemma {:induction false} Grown(hash: seq<nat>, next: seq<int>, heads: seq<int>, lists: seq<seq<Ref>>, place: map<Ref,
      int>, newsize: nat)
    requires Threaded(next, heads, lists, NULL, [], place) && |heads| > 0 && Sized(hash, place, |heads|)
        && |next| == |hash| && newsize > 0
    ensures var n := if newsize > |heads| then newsize - |heads| else 0;
      var heads', lists' := if n > 0 then heads + seq(n, i => NULL) else heads, if n > 0 then lists + seq(n, i => [])
          else lists;
      Partly(hash, next, heads', lists', place, place.Keys, |heads'|, |heads|, newsize, 0, NULL, [])
  {
    Start(hash, place, |heads|, newsize);
  }

  lemma {:induction false} ThreadedSize(next: seq<int>, heads: seq<int>, lists: seq<seq<Ref>>, p: int, rest: seq<Ref>,
      place: map<Ref, int>)
    requires Threaded(next, heads, lists, p, rest, place)
    ensures |lists| == |heads| && (p == NULL <==> rest == []) && p >= -1
    ensures rest != [] ==> p < |next|
  {
    assert rest != [] ==> NextOk(next, rest, 0);
  }

  lemma {:induction false} PowerMore(n: nat)
    requires Power(n)
    ensures n > 0 && Power(n * 2)
  {
  }

  lemma {:induction false} LinkedGrow(next: seq<int>, p: int, l: seq<Ref>, v: int)
    requires Linked(next, p, l)
    ensures Linked(next + [v], p, l)
  {
    var next' := next + [v];
    forall k | 0 <= k < |l| ensures NextOk(next', l, k) { assert NextOk(next, l, k); }
  }

  /** A new object at the front of its bucket. */
  lemma {:induction false} ThreadedNew(next: seq<int>, heads: seq<int>, lists: seq<seq<Ref>>, place: map<Ref, int>,
      b: nat)
    requires Threaded(next, heads, lists, NULL, [], place) && b < |heads| && forall r | r in place :: r < |next|
    ensures |lists| == |heads| && Threaded(next + [heads[b]], heads[b := |next|], lists[b := [|next|] + lists[b]], NULL,
        [], place[|next| := b])
  {
    hide Linked, NoDup;
    var r := |next|;
    var next', heads', lists', place' := next + [heads[b]], heads[b := r], lists[b := [r] + lists[b]], place[r := b];
    forall c | 0 <= c < |heads'| ensures ListOk(next', heads'[c], lists'[c], place', c) {
      assert ListOk(next, heads[c], lists[c], place, c);
      LinkedGrow(next, heads[c], lists[c], heads[b]);
      if c == b {
        LinkedPush(next', heads[b], lists[b], r);
        assert next'[r := heads[b]] == next';
        NoDupPush(lists[b], r);
      }
    }
    LinkedGrow(next, NULL, [], heads[b]);
    forall q | q in place' ensures Where(lists', [], place', q) { if q != r { assert Where(lists, [], place, q); } }
  }

  lemma {:induction false} Created(hashOf: string -> nat, content: seq<string>, hash: seq<nat>, next: seq<int>,
      heads: seq<int>, nuse: nat, lists: seq<seq<Ref>>, place: map<Ref, int>, str: string)
    requires |heads| > 0 && |next| == |content| && Contents(hashOf, content, hash, nuse, place.Keys)
    requires Threaded(next, heads, lists, NULL, [], place) && Sized(hash, place, |heads|)
        && Different(content, place.Keys)
    requires forall q | q in place :: q < |content| && content[q] != str
    ensures var r, h := |content|, hashOf(str);
      var b := h % |heads|;
      var place' := place[r := b];
      && |lists| == |heads| && Threaded(next + [heads[b]], heads[b := r], lists[b := [r] + lists[b]], NULL, [], place')
      && Sized(hash + [h], place', |heads|) && Contents(hashOf, content + [str], hash + [h], nuse + 1, place'.Keys)
      && Different(content + [str], place'.Keys)
  {
    hide Threaded;
    var r, h := |content|, hashOf(str);
    var b := h % |heads|;
    ThreadedNew(next, heads, lists, place, b);
    assert place[r := b].Keys == place.Keys + {r};
  }

  lemma {:induction false} ChainStart(next: seq<int>, heads: seq<int>, lists: seq<seq<Ref>>, place: map<Ref, int>,
      b: nat)
    requires Threaded(next, heads, lists, NULL, [], place) && b < |heads|
    ensures |lists| == |heads| && heads[b] == if lists[b] == [] then NULL else lists[b][0]
  {
    assert ListOk(next, heads[b], lists[b], place, b);
  }

  lemma {:induction false} ChainNext(next: seq<int>, heads: seq<int>, lists: seq<seq<Ref>>, place: map<Ref, int>,
      b: nat, k: nat)
    requires Threaded(next, heads, lists, NULL, [], place) && b < |heads| == |lists| && k < |lists[b]|
    ensures lists[b][k] in place && lists[b][k] < |next| && next[lists[b][k]] == if k + 1 < |lists[b]| then lists[b][k
        + 1] else NULL
    ensures place[lists[b][k]] == b
  {
    assert ListOk(next, heads[b], lists[b], place, b);
    assert NextOk(next, lists[b], k) && lists[b][k] in lists[b];
  }

  lemma {:induction false} HashRight(hashOf: string -> nat, content: seq<string>, hash: seq<nat>, nuse: nat,
      keys: set<Ref>, r: Ref)
    requires Contents(hashOf, content, hash, nuse, keys) && r < |content|
    ensures |hash| == |content| && hash[r] == hashOf(content[r])
  {
  }

  /** A string is in the bucket of its hash or nowhere. */
  lemma {:induction false} NotThere(hashOf: string -> nat, content: seq<string>, hash: seq<nat>, next: seq<int>,
      heads: seq<int>, nuse: nat, lists: seq<seq<Ref>>, place: map<Ref, int>, str: string)
    requires |heads| > 0 && Contents(hashOf, content, hash, nuse, place.Keys)
    requires Threaded(next, heads, lists, NULL, [], place) && Sized(hash, place, |heads|)
    requires var b := hashOf(str) % |heads|;
        b < |lists| && forall j | 0 <= j < |lists[b]| :: lists[b][j] < |content| && content[lists[b][j]] != str
    ensures forall q | q in place :: q < |content| && content[q] != str
  {
    forall q | q in place ensures q < |content| && content[q] != str {
      Belongs(hashOf, content, hash, next, heads, nuse, lists, place, q);
    }
  }

  lemma {:induction false} Belongs(hashOf: string -> nat, content: seq<string>, hash: seq<nat>, next: seq<int>,
      heads: seq<int>, nuse: nat, lists: seq<seq<Ref>>, place: map<Ref, int>, q: Ref)
    requires |heads| > 0 && Contents(hashOf, content, hash, nuse, place.Keys)
    requires Threaded(next, heads, lists, NULL, [], place) && Sized(hash, place, |heads|) && q in place
    ensures q < |content| && |lists| == |heads| && exists j ::
        0 <= j < |lists[hashOf(content[q]) % |heads|]| && lists[hashOf(content[q]) % |heads|][j] == q
  {
    assert Where(lists, [], place, q);
  }

  lemma {:induction false} Removed(hashOf: string -> nat, content: seq<string>, hash: seq<nat>, next: seq<int>,
      heads: seq<int>, nuse: nat, lists: seq<seq<Ref>>, place: map<Ref, int>, b: nat, k: nat)
    requires |heads| > 0 && |next| == |content| && Contents(hashOf, content, hash, nuse, place.Keys)
    requires Threaded(next, heads, lists, NULL, [], place) && Sized(hash, place, |heads|)
        && Different(content, place.Keys)
    requires b < |heads| == |lists| && k < |lists[b]|
    ensures nuse > 0
    ensures var l := lists[b];
      var r := l[k];
      && r < |next| && (k > 0 ==> l[k - 1] < |next|)
      && var next', heads' := if k == 0 then next else next[l[k - 1] := next[r]], if k == 0 then heads[b := next[r]]
          else heads;
      && Threaded(next', heads', lists[b := l[..k] + l[k + 1..]], NULL, [], place - {r})
      && Sized(hash, place - {r}, |heads|) && Contents(hashOf, content, hash, nuse - 1, (place - {r}).Keys)
          && Different(content, (place - {r}).Keys)
  {
    hide Threaded;
    ChainNext(next, heads, lists, place, b, k);
    if k > 0 { ChainNext(next, heads, lists, place, b, k - 1); }
    ThreadedLess(next, heads, lists, place, b, k);
    assert (place - {lists[b][k]}).Keys == place.Keys - {lists[b][k]};
  }

  lemma {:induction false} ThreadedLess(next: seq<int>, heads: seq<int>, lists: seq<seq<Ref>>, place: map<Ref, int>,
      b: nat, k: nat)
    requires Threaded(next, heads, lists, NULL, [], place) && b < |heads| == |lists| && k < |lists[b]|
    requires lists[b][k] < |next| && (k > 0 ==> lists[b][k - 1] < |next|)
    ensures var l := lists[b];
      var r := l[k];
      var next', heads' := if k == 0 then next else next[l[k - 1] := next[r]], if k == 0 then heads[b := next[r]]
          else heads;
      Threaded(next', heads', lists[b := l[..k] + l[k + 1..]], NULL, [], place - {r})
  {
    var l := lists[b];
    var r := l[k];
    var next', heads' := if k == 0 then next else next[l[k - 1] := next[r]], if k == 0 then heads[b := next[r]]
        else heads;
    var lists', place' := lists[b := l[..k] + l[k + 1..]], place - {r};
    ChainNext(next, heads, lists, place, b, k);
    forall c | 0 <= c < |heads'| ensures ListOk(next', heads'[c], lists'[c], place', c) {
      assert ListOk(next, heads[c], lists[c], place, c);
      if c == b {
        ListLess(next, heads[b], l, place, b, k);
      } else {
        if k > 0 {
          assert l[k - 1] in l && ListOk(next, heads[b], l, place, b);
          LinkedKeep(next, heads[c], lists[c], l[k - 1], next[r]);
        }
      }
    }
    EmptyList(next', place', NULL);
    forall q | q in place' ensures Where(lists', [], place', q) {
      assert Where(lists, [], place, q);
      if place[q] == b {
        var j :| 0 <= j < |l| && l[j] == q;
        assert q == (l[..k] + l[k + 1..])[if j < k then j else j - 1];
      }
    }
  }

  lemma {:induction false} ListLess(next: seq<int>, p: int, l: seq<Ref>, place: map<Ref, int>, b: int, k: nat)
    requires ListOk(next, p, l, place, b) && k < |l| && l[k] < |next| && (k > 0 ==> l[k - 1] < |next|)
    ensures var next', p' := if k == 0 then next else next[l[k - 1] := next[l[k]]], if k == 0 then next[l[k]] else p;
      ListOk(next', p', l[..k] + l[k + 1..], place - {l[k]}, b)
  {
    var next', p' := if k == 0 then next else next[l[k - 1] := next[l[k]]], if k == 0 then next[l[k]] else p;
    var l' := l[..k] + l[k + 1..];
    LinkedNext(next, p, l, k);
    forall j | 0 <= j < |l'| ensures NextOk(next', l', j) {
      var i := if j < k then j else j + 1;
      LinkedNext(next, p, l, i);
      assert l'[j] == l[i] && (j + 1 < |l'| ==> l'[j + 1] == l[if j + 1 < k then j + 1 else j + 1 + 1]);
    }
    LessMembers(l, k);
  }

  lemma {:induction false} LessMembers(l: seq<Ref>, k: nat)
    requires NoDup(l) && k < |l|
    ensures NoDup(l[..k] + l[k + 1..]) && forall r | r in l[..k] + l[k + 1..] :: r in l && r != l[k]
  {
    var l' := l[..k] + l[k + 1..];
    assert forall j | 0 <= j < |l'| :: l'[j] == l[if j < k then j else j + 1];
  }

  lemma {:induction false} KeysLeft(place0: map<Ref, int>, place: map<Ref, int>, b: int, dead: Ref -> bool)
    requires forall r | r in place :: r in place0 && place[r] == place0[r] && (place[r] == b ==> !dead(r))
    requires forall r | r in place0 && r !in place :: place0[r] == b && dead(r)
    ensures place.Keys == set r | r in place0.Keys && !(place0[r] == b && dead(r))
  {
    assert forall r :: r in place <==> r in place0 && !(place0[r] == b && dead(r));
  }

  lemma {:induction false} AllSeen(next: seq<int>, heads: seq<int>, lists: seq<seq<Ref>>, place: map<Ref, int>, b: nat,
      dead: Ref -> bool)
    requires Threaded(next, heads, lists, NULL, [], place) && b < |heads| == |lists|
        && forall j | 0 <= j < |lists[b]| :: !dead(lists[b][j])
    ensures forall r | r in place && place[r] == b :: !dead(r)
  {
    forall r | r in place && place[r] == b ensures !dead(r) { assert Where(lists, [], place, r); }
  }

  // ----- Runs -----

  datatype Op = Make(str: string) | Collect(b: nat, dead: Ref -> bool) | Check

  /** Any run of interning, sweeping and resizing: of the strings asked for, two
      that are still in the table are the same object exactly if their contents
      are equal. */
  method Run(hashOf: string -> nat, ops: seq<Op>) returns (t: StringTable, made: seq<int>)
    ensures fresh(t) && t.Valid() && |made| == |ops|
    ensures forall i | 0 <= i < |ops| && ops[i].Make? :: 0 <= made[i] < |t.content| && t.content[made[i]] == ops[i].str
    ensures forall i, j | 0 <= i < |ops| && 0 <= j < |ops| && ops[i].Make? && ops[j].Make? && made[i] in t.place
        && made[j] in t.place ::
      made[i] == made[j] <==> ops[i].str == ops[j].str
  {
    hide Threaded, Sized, Contents, Different, Linked;
    assert Power(2) && Power(4) && Power(8) && Power(16) && Power(32);
    t := new StringTable(hashOf, 32);
    made := [];
    for k := 0 to |ops|
      invariant fresh(t) && t.Valid() && |made| == k
      invariant forall i | 0 <= i < k && ops[i].Make? :: 0 <= made[i] < |t.content| && t.content[made[i]] == ops[i].str
    {
      match ops[k] {
        case Make(str) =>
          var r := t.Intern(str);
          InTable(t, r);
          made := made + [r];
        case Collect(b, dead) =>
          if b < |t.heads| { t.Sweep(b, dead); }
          made := made + [NULL];
        case Check =>
          t.CheckSizes();
          made := made + [NULL];
      }
    }
    SameObject(t);
  }

  lemma {:induction false} InTable(t: StringTable, r: Ref)
    requires t.Valid() && r in t.place
    ensures r < |t.content|
  {
  }

  lemma {:induction false} SameObject(t: StringTable)
    requires t.Valid()
    ensures forall r, q | r in t.place && q in t.place && r < |t.content| && q < |t.content|
        && t.content[r] == t.content[q] :: r == q
  {
  }
}
