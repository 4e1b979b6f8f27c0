/** The heap that the incremental collector of modules/lua/lgc.c works on:
    objects, their colours, what they refer to and what is reachable. Pointers
    are numbers, and the fields of all objects are kept in maps. */
module LuaGcHeap {

  type Ref = nat

  /** No object: NULL, or a value that is not collectable. */
  const NIL: Ref := 0

  datatype Colour = White0 | White1 | Gray | Black

  datatype Kind = KString | KUserdata | KUpval | KLClosure | KCClosure | KTable | KThread | KProto

  /** Where an object is linked: in `allgc`, in the chain of its hash in the string table,
      or, an open upvalue, in the list of the thread whose stack it lives in. */
  datatype Place = Allgc | InTable(hash: nat) | Open(th: Ref, idx: nat) | Main

  /** `slots` are what the collector follows: metatable and fields of a table
      or userdata, prototype and upvalues of a closure, constants of a
      prototype, the used part of a stack, the value of a closed upvalue. */
  datatype Obj = Obj(kind: Kind, place: Place, fixed: bool, slots: seq<Ref>)

  /** `cache` is the weak field of a prototype: its last closure, if any. */
  datatype Mem = Mem(objs: map<Ref, Obj>, col: map<Ref, Colour>, cache: map<Ref, Ref>)

  function WhiteOf(w: bool): Colour {
    if w then White1 else White0
  }

  predicate White(m: Mem, r: Ref) {
    r in m.col && (m.col[r] == White0 || m.col[r] == White1)
  }

  predicate Marked(m: Mem, r: Ref) {
    r in m.col && (m.col[r] == Gray || m.col[r] == Black)
  }

  /** isdeadm: the other white, and not fixed. */
  predicate Dead(m: Mem, w: bool, r: Ref) {
    r in m.objs && r in m.col && m.col[r] == WhiteOf(!w) && !m.objs[r].fixed
  }

  predicate IsOpen(o: Obj) {
    o.place.Open?
  }

  /** What an object refers to; an open upvalue refers to a stack slot. */
  function Slots(m: Mem, r: Ref): seq<Ref>
    requires r in m.objs
  {
    var o := m.objs[r];
    if IsOpen(o) then
      if o.place.th in m.objs && o.place.idx < |m.objs[o.place.th].slots|
      then [m.objs[o.place.th].slots[o.place.idx]] else []
    else o.slots
  }

  predicate PointsTo(m: Mem, r: Ref, k: Ref) {
    r in m.objs && k != NIL && k in Slots(m, r)
  }

  predicate IsKind(m: Mem, r: Ref, k: Kind) {
    r in m.objs && m.objs[r].kind == k
  }

  function Whites(m: Mem): set<Ref> {
    set r | r in m.col && White(m, r)
  }

  /** Objects the sweeper will not free. */
  function Live(m: Mem, w: bool): set<Ref> {
    set r | r in m.objs && !Dead(m, w, r)
  }

  ghost predicate Closed(m: Mem, s: set<Ref>) {
    forall r, k | r in s && PointsTo(m, r, k) :: k in s
  }

  ghost predicate CachesIn(m: Mem, s: set<Ref>) {
    forall p | p in m.cache && p in s :: m.cache[p] in s
  }

  /** Strings refer to nothing, only strings are fixed; an open upvalue lives
      in a slot of some thread; neither it nor a thread is ever black. */
  ghost predicate SaneObj(m: Mem, r: Ref)
    requires r in m.objs && r in m.col
  {
    var o := m.objs[r];
    && (o.kind == KString ==> o.slots == [])
    && (o.fixed ==> o.kind == KString)
    && (o.kind == KThread ==> m.col[r] != Black)
    && (IsOpen(o) ==>
          && o.kind == KUpval && m.col[r] != Black
          && IsKind(m, o.place.th, KThread) && o.place.idx < |m.objs[o.place.th].slots|)
  }

  ghost predicate Sane(m: Mem) {
    && m.col.Keys == m.objs.Keys && NIL !in m.objs
    && (forall p | p in m.cache :: IsKind(m, p, KProto) && m.cache[p] != NIL)
    && (forall r | r in m.objs :: SaneObj(m, r))
  }

  /** The safety invariant: what the program can use is alive, and what is
      alive refers only to what is alive. */
  ghost predicate Safe(m: Mem, w: bool, roots: set<Ref>) {
    && Sane(m) && roots <= Live(m, w) && Closed(m, Live(m, w)) && CachesIn(m, Live(m, w))
  }

  // ----- Reachability -----

  ghost predicate IsPath(m: Mem, roots: set<Ref>, p: seq<Ref>) {
    && p != [] && p[0] in roots
    && forall i | 0 <= i < |p| - 1 :: PointsTo(m, p[i], p[i + 1])
  }

  ghost predicate Reachable(m: Mem, roots: set<Ref>, r: Ref) {
    exists p :: IsPath(m, roots, p) && p[|p| - 1] == r
  }

  /** A closed set with the roots in it holds everything reachable. */
  lemma {:induction false} PathStays(m: Mem, roots: set<Ref>, s: set<Ref>, p: seq<Ref>)
    requires roots <= s && Closed(m, s) && IsPath(m, roots, p)
    ensures p[|p| - 1] in s
    decreases |p|
  {
    if |p| > 1 {
      var q := p[..|p| - 1];
      assert forall i | 0 <= i < |q| - 1 :: PointsTo(m, q[i], q[i + 1]);
      PathStays(m, roots, s, q);
      assert PointsTo(m, p[|p| - 2], p[|p| - 1]);
    }
  }

  lemma {:induction false} ReachableStays(m: Mem, roots: set<Ref>, s: set<Ref>)
    requires roots <= s && Closed(m, s)
    ensures forall r | Reachable(m, roots, r) :: r in s
  {
    forall r | Reachable(m, roots, r) ensures r in s {
      var p :| IsPath(m, roots, p) && p[|p| - 1] == r;
      PathStays(m, roots, s, p);
    }
  }

  lemma {:induction false} ReachableStep(m: Mem, roots: set<Ref>, r: Ref, k: Ref)
    requires Reachable(m, roots, r) && PointsTo(m, r, k)
    ensures Reachable(m, roots, k)
  {
    var p :| IsPath(m, roots, p) && p[|p| - 1] == r;
    var q := p + [k];
    forall i | 0 <= i < |q| - 1 ensures PointsTo(m, q[i], q[i + 1]) {
      if i < |p| - 1 { assert PointsTo(m, p[i], p[i + 1]); }
    }
    assert IsPath(m, roots, q) && q[|q| - 1] == k;
  }

  /** A path along live objects is a path in any heap that has the same live objects. */
  lemma {:induction false} PathKept(m: Mem, m': Mem, roots: set<Ref>, s: set<Ref>, p: seq<Ref>)
    requires roots <= s && Closed(m, s) && IsPath(m, roots, p)
    requires forall r, k: Ref | r in s :: PointsTo(m, r, k) ==> PointsTo(m', r, k)
    ensures IsPath(m', roots, p)
  {
    forall i | 0 <= i < |p| - 1 ensures PointsTo(m', p[i], p[i + 1]) {
      var q := p[..i + 1];
      assert forall j | 0 <= j < |q| - 1 :: PointsTo(m, q[j], q[j + 1]);
      PathStays(m, roots, s, q);
    }
  }

  ghost function ReachSet(m: Mem, roots: set<Ref>): set<Ref> {
    set r | r in m.objs && Reachable(m, roots, r)
  }

  // ----- The same live part -----

  /** The live objects are the same, with the same contents: all that sweeping
      may change is garbage, colours and how upvalues are stored. */
  ghost predicate SameLive(m: Mem, m': Mem, w: bool) {
    && Live(m', w) == Live(m, w)
    && forall r | r in Live(m, w) ::
         && r in m'.objs && Slots(m', r) == Slots(m, r)
         && m'.objs[r].kind == m.objs[r].kind && m'.objs[r].fixed == m.objs[r].fixed
         && (r in m'.cache <==> r in m.cache) && (r in m.cache ==> m'.cache[r] == m.cache[r])
  }

  lemma {:induction false} SameLiveTwice(a: Mem, b: Mem, c: Mem, w: bool)
    requires SameLive(a, b, w) && SameLive(b, c, w)
    ensures SameLive(a, c, w)
  {
  }

  lemma {:induction false} SameLiveReach(m: Mem, m': Mem, w: bool, roots: set<Ref>)
    requires Safe(m, w, roots) && SameLive(m, m', w)
    ensures ReachSet(m', roots) == ReachSet(m, roots)
  {
    ReachableStays(m, roots, Live(m, w));
    assert Closed(m', Live(m', w)) by {
      forall r, k | r in Live(m', w) && PointsTo(m', r, k) ensures k in Live(m', w) { assert PointsTo(m, r, k); }
    }
    ReachableStays(m', roots, Live(m, w));
    forall r | r in ReachSet(m, roots) ensures r in ReachSet(m', roots) {
      var p :| IsPath(m, roots, p) && p[|p| - 1] == r;
      PathKept(m, m', roots, Live(m, w), p);
      assert r in Live(m', w);
    }
    forall r | r in ReachSet(m', roots) ensures r in ReachSet(m, roots) {
      var p :| IsPath(m', roots, p) && p[|p| - 1] == r;
      PathKept(m', m, roots, Live(m, w), p);
      assert r in Live(m, w);
    }
  }

  lemma {:induction false} ReachClosed(m: Mem, w: bool, roots: set<Ref>)
    requires Safe(m, w, roots)
    ensures Closed(m, ReachSet(m, roots)) && roots <= ReachSet(m, roots) <= Live(m, w)
  {
    ReachableStays(m, roots, Live(m, w));
    forall r, k | r in ReachSet(m, roots) && PointsTo(m, r, k) ensures k in ReachSet(m, roots) {
      ReachableStep(m, roots, r, k);
      assert k in Live(m, w);
    }
    forall r | r in roots ensures r in ReachSet(m, roots) {
      assert IsPath(m, roots, [r]) && [r][|[r]| - 1] == r;
      assert r in Live(m, w);
    }
  }

  /** Reachability does not depend on colours. */
  lemma {:induction false} ReachSame(m: Mem, m': Mem, roots: set<Ref>)
    requires m'.objs == m.objs
    ensures ReachSet(m', roots) == ReachSet(m, roots)
  {
    forall p ensures IsPath(m', roots, p) == IsPath(m, roots, p) {
      forall r, k: Ref ensures PointsTo(m', r, k) == PointsTo(m, r, k) {}
    }
  }

  ghost function FixedSet(m: Mem): set<Ref> {
    set r | r in m.objs && m.objs[r].fixed
  }

  /** What is reachable is the same, with the same contents. */
  ghost predicate SameReach(m: Mem, m': Mem, roots: set<Ref>) {
    && ReachSet(m', roots) == ReachSet(m, roots) && FixedSet(m') == FixedSet(m)
    && forall r | r in ReachSet(m, roots) :: r in m'.objs && m'.objs[r].kind == m.objs[r].kind
        && Slots(m', r) == Slots(m, r)
  }

  lemma {:induction false} SameLiveSameReach(m: Mem, m': Mem, w: bool, roots: set<Ref>)
    requires Safe(m, w, roots) && SameLive(m, m', w)
    ensures SameReach(m, m', roots)
  {
    hide Sane, Slots, Closed, CachesIn;
    SameLiveReach(m, m', w, roots);
    ReachClosed(m, w, roots);
    forall r ensures r in FixedSet(m') <==> r in FixedSet(m) {
      if r in FixedSet(m) { assert r in Live(m, w); }
      if r in FixedSet(m') { assert r in Live(m', w); }
    }
  }

  lemma {:induction false} RecolouredSameReach(m: Mem, m': Mem, roots: set<Ref>)
    requires m'.objs == m.objs
    ensures SameReach(m, m', roots)
  {
    ReachSame(m, m', roots);
  }

  lemma {:induction false} SameReachTwice(a: Mem, b: Mem, c: Mem, roots: set<Ref>)
    requires SameReach(a, b, roots) && SameReach(b, c, roots)
    ensures SameReach(a, c, roots)
  {
    hide ReachSet, Slots;
  }

  lemma {:induction false} SameReachSets(m: Mem, m': Mem, roots: set<Ref>)
    requires SameReach(m, m', roots)
    ensures ReachSet(m', roots) == ReachSet(m, roots) && FixedSet(m') == FixedSet(m)
  {
  }

  lemma {:induction false} SameItself(m: Mem, w: bool, roots: set<Ref>)
    ensures SameLive(m, m, w) && SameReach(m, m, roots)
  {
    RecolouredSameReach(m, m, roots);
  }
}
