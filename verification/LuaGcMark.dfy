/** The tri-colour invariant of modules/lua/lgc.h and the steps that keep it:
    shading an object, moving it between gray lists, leaving it behind black. */
module LuaGcMark {
  import opened Common
  import opened LuaGcHeap

  /** What the marker relies on beside the lists themselves: `hold` is a gray
      list set aside, open upvalues in `ups` may have unmarked values, all of
      `grayagain` has been traversed if `again`, only `reach` gets marked. */
  datatype Scope = Scope(hold: seq<Ref>, ups: set<Ref>, again: bool, reach: set<Ref>)

  /** Kinds that wait in a gray list to be traversed. */
  predicate Listed(k: Kind) {
    k == KLClosure || k == KCClosure || k == KTable || k == KThread || k == KProto
  }

  /** All that `r` refers to is marked. */
  ghost predicate Done(m: Mem, r: Ref) {
    && (forall k | PointsTo(m, r, k) :: Marked(m, k))
    && (r in m.cache ==> Marked(m, m.cache[r]))
  }

  ghost predicate GrayOk(m: Mem, gray: seq<Ref>, grayagain: seq<Ref>, c: Scope, r: Ref)
    requires r in m.objs
  {
    r in gray || r in grayagain || r in c.hold || (IsOpen(m.objs[r]) && (r in c.ups || Done(m, r)))
  }

  /** The invariant for one object; those in `x` are being traversed. */
  ghost predicate ObjOk(m: Mem, w: bool, gray: seq<Ref>, grayagain: seq<Ref>, x: set<Ref>, c: Scope, r: Ref)
    requires r in m.objs && r in m.col
  {
    && m.col[r] != WhiteOf(!w)
    && (m.col[r] == Black && r !in x ==> Done(m, r))
    && (m.col[r] == Gray && r !in x ==> GrayOk(m, gray, grayagain, c, r))
  }

  ghost predicate GrayLists(m: Mem, gray: seq<Ref>, grayagain: seq<Ref>, hold: seq<Ref>) {
    && NoDup(gray + grayagain + hold)
    && forall r | r in gray || r in grayagain || r in hold :: r in m.objs && r in m.col && m.col[r] == Gray
        && Listed(m.objs[r].kind)
  }

  /** Everything refers to objects that are there; marking stays in `reach`. */
  ghost predicate Bounded(m: Mem, reach: set<Ref>) {
    && Sane(m) && Closed(m, m.objs.Keys) && CachesIn(m, m.objs.Keys)
    && Closed(m, reach) && forall r | Marked(m, r) :: r in reach
  }

  ghost predicate AllOk(m: Mem, w: bool, gray: seq<Ref>, grayagain: seq<Ref>, x: set<Ref>, c: Scope)
    requires Sane(m)
  {
    forall r | r in m.objs :: ObjOk(m, w, gray, grayagain, x, c, r)
  }

  ghost predicate AgainDone(m: Mem, grayagain: seq<Ref>, x: set<Ref>, again: bool) {
    again ==> forall r | r in grayagain && r !in x :: Done(m, r)
  }

  ghost predicate Tri(m: Mem, w: bool, gray: seq<Ref>, grayagain: seq<Ref>, x: set<Ref>, c: Scope) {
    && Bounded(m, c.reach)
    && AllOk(m, w, gray, grayagain, x, c)
    && GrayLists(m, gray, grayagain, c.hold)
    && AgainDone(m, grayagain, x, c.again)
  }

  /** Marking only darkens white objects. */
  ghost predicate Darker(m: Mem, m': Mem) {
    && m'.objs == m.objs && m'.cache == m.cache && m'.col.Keys == m.col.Keys
    && forall r | Marked(m, r) :: m'.col[r] == m.col[r]
  }

  lemma {:induction false} DarkerTwice(a: Mem, b: Mem, c: Mem)
    requires Darker(a, b) && Darker(b, c)
    ensures Darker(a, c)
  {
  }

  /** Objects point to the same as long as only colours and caches change. */
  lemma {:induction false} PointsSame(m: Mem, m': Mem, r: Ref, k: Ref)
    requires m'.objs == m.objs
    ensures PointsTo(m', r, k) == PointsTo(m, r, k)
  {
  }

  lemma {:induction false} SlotsSame(m: Mem, m': Mem, r: Ref)
    requires m'.objs == m.objs && r in m.objs
    ensures Slots(m', r) == Slots(m, r)
  {
  }

  lemma {:induction false} DoneStays(m: Mem, m': Mem, r: Ref)
    requires m'.objs == m.objs && m'.cache == m.cache && forall k | Marked(m, k) :: Marked(m', k)
    requires Done(m, r)
    ensures Done(m', r)
  {
    forall k | PointsTo(m', r, k) ensures Marked(m', k) { PointsSame(m, m', r, k); }
  }

  function Paint(m: Mem, r: Ref, k: Colour): Mem {
    m.(col := m.col[r := k])
  }

  /** Shading `r` gray or black; it joins the objects being traversed. */
  lemma {:induction false} Shade(m: Mem, w: bool, gray: seq<Ref>, grayagain: seq<Ref>, x: set<Ref>, c: Scope, r: Ref,
      k: Colour)
    requires Tri(m, w, gray, grayagain, x, c)
    requires r in m.objs && r in c.reach && r !in gray && r !in grayagain && r !in c.hold
    requires White(m, r) || m.col[r] == Gray
    requires k == Gray || (k == Black && m.objs[r].kind != KThread && !IsOpen(m.objs[r]))
    ensures Tri(Paint(m, r, k), w, gray, grayagain, x + {r}, c)
  {
    hide Bounded, ObjOk, Done, NoDup;
    var m' := Paint(m, r, k);
    ShadeBounded(m, c.reach, r, k);
    SettleSane(m, c.reach);
    SettleSane(m', c.reach);
    forall q | q in m'.objs ensures ObjOk(m', w, gray, grayagain, x + {r}, c, q) {
      ShadeOther(m, w, gray, grayagain, x, c, r, k, q);
    }
    forall q | Done(m, q) ensures Done(m', q) { DoneStays(m, m', q); }
  }

  lemma {:induction false} ShadeOther(m: Mem, w: bool, gray: seq<Ref>, grayagain: seq<Ref>, x: set<Ref>, c: Scope,
      r: Ref, k: Colour, q: Ref)
    requires Sane(m) && r in m.objs && q in m.objs && ObjOk(m, w, gray, grayagain, x, c, q)
    requires White(m, r) || m.col[r] == Gray
    requires k == Gray || (k == Black && m.objs[r].kind != KThread)
    ensures ObjOk(Paint(m, r, k), w, gray, grayagain, x + {r}, c, q)
  {
    hide Done, Sane;
    if Done(m, q) { DoneStays(m, Paint(m, r, k), q); }
  }

  lemma {:induction false} ShadeBounded(m: Mem, reach: set<Ref>, r: Ref, k: Colour)
    requires Bounded(m, reach) && r in m.objs && r in reach
        && (k == Black ==> m.objs[r].kind != KThread && !IsOpen(m.objs[r]))
    ensures Bounded(Paint(m, r, k), reach)
  {
    var m' := Paint(m, r, k);
    assert m'.col.Keys == m.objs.Keys;
    forall q, j: Ref ensures PointsTo(m', q, j) == PointsTo(m, q, j) { PointsSame(m, m', q, j); }
  }

  lemma {:induction false} ShadeWhites(m: Mem, r: Ref, k: Colour)
    requires Sane(m) && White(m, r) && (k == Gray || k == Black)
    ensures Whites(Paint(m, r, k)) < Whites(m) && Darker(m, Paint(m, r, k))
  {
    assert r in Whites(m) && r !in Whites(Paint(m, r, k));
  }

  lemma {:induction false} DarkerWhites(m: Mem, m': Mem)
    requires Darker(m, m')
    ensures Whites(m') <= Whites(m)
  {
    forall r | r in Whites(m') ensures r in Whites(m) { if Marked(m, r) { assert m'.col[r] == m.col[r]; } }
  }

  /** An object whose traversal is over leaves `x`. */
  lemma {:induction false} Settle(m: Mem, w: bool, gray: seq<Ref>, grayagain: seq<Ref>, x: set<Ref>, c: Scope, r: Ref)
    requires Tri(m, w, gray, grayagain, x + {r}, c)
    requires r in m.objs && ObjOk(m, w, gray, grayagain, x, c, r) && (c.again && r in grayagain ==> Done(m, r))
    ensures Tri(m, w, gray, grayagain, x, c)
  {
    hide Done, GrayOk, GrayLists, Bounded;
    SettleSane(m, c.reach);
    forall q | q in m.objs ensures ObjOk(m, w, gray, grayagain, x, c, q) {
      assert ObjOk(m, w, gray, grayagain, x + {r}, c, q);
    }
  }

  lemma {:induction false} SettleSane(m: Mem, reach: set<Ref>)
    requires Bounded(m, reach)
    ensures Sane(m) && m.col.Keys == m.objs.Keys
  {
  }

  /** A gray object that was in no list enters `gray`. */
  lemma {:induction false} PushGray(m: Mem, w: bool, gray: seq<Ref>, grayagain: seq<Ref>, x: set<Ref>, c: Scope, r: Ref)
    requires Tri(m, w, gray, grayagain, x, c)
    requires r in m.objs && m.col[r] == Gray && Listed(m.objs[r].kind) && r !in gray && r !in grayagain && r !in c.hold
    ensures Tri(m, w, [r] + gray, grayagain, x, c)
  {
    hide Done, Bounded;
    SettleSane(m, c.reach);
    var l := gray + grayagain + c.hold;
    assert [r] + gray + grayagain + c.hold == [r] + l;
    assert forall j :: j in [r] + gray <==> j == r || j in gray;
    assert r !in l;
    forall q | q in m.objs ensures ObjOk(m, w, [r] + gray, grayagain, x, c, q) {
      assert ObjOk(m, w, gray, grayagain, x, c, q);
    }
  }

  /** A gray object enters `grayagain`. */
  lemma {:induction false} PushAgain(m: Mem, w: bool, gray: seq<Ref>, grayagain: seq<Ref>, x: set<Ref>, c: Scope,
      r: Ref)
    requires Tri(m, w, gray, grayagain, x, c)
    requires r in m.objs && m.col[r] == Gray && Listed(m.objs[r].kind) && r !in gray && r !in grayagain && r !in c.hold
    requires c.again && r !in x ==> Done(m, r)
    ensures Tri(m, w, gray, [r] + grayagain, x, c)
  {
    hide Done, Bounded;
    SettleSane(m, c.reach);
    assert forall j :: j in [r] + grayagain <==> j == r || j in grayagain;
    assert NoDup(gray + ([r] + grayagain) + c.hold) by { NoDupMoved(gray, grayagain, c.hold, r); }
    forall q | q in m.objs ensures ObjOk(m, w, gray, [r] + grayagain, x, c, q) {
      assert ObjOk(m, w, gray, grayagain, x, c, q);
    }
  }

  lemma {:induction false} NoDupMoved(a: seq<Ref>, b: seq<Ref>, c: seq<Ref>, r: Ref)
    requires NoDup(a + b + c) && r !in a && r !in b && r !in c
    ensures NoDup(a + ([r] + b) + c)
  {
    var l, l' := a + b + c, a + ([r] + b) + c;
    assert forall i | 0 <= i < |l'| :: l'[i] == (if i < |a| then l[i] else if i == |a| then r else l[i - 1]);
    assert forall i | 0 <= i < |l| :: l[i] in a || l[i] in b || l[i] in c;
    forall i, j | 0 <= i < j < |l'| ensures l'[i] != l'[j] {
      var i0, j0 := if i < |a| then i else i - 1, if j < |a| then j else j - 1;
      if i == |a| { assert l[j0] != r; }
      else if j == |a| { assert l[i0] != r; }
      else { assert 0 <= i0 < j0 < |l| && l[i0] != l[j0]; }
    }
  }

  /** The first gray object leaves its list to be traversed. */
  lemma {:induction false} PopGray(m: Mem, w: bool, gray: seq<Ref>, grayagain: seq<Ref>, x: set<Ref>, c: Scope)
    requires Tri(m, w, gray, grayagain, x, c) && gray != []
    ensures Tri(m, w, gray[1..], grayagain, x + {gray[0]}, c)
    ensures gray[0] !in gray[1..] && gray[0] !in grayagain && gray[0] !in c.hold
  {
    hide Done, Bounded;
    SettleSane(m, c.reach);
    var l := gray + grayagain + c.hold;
    assert gray[1..] + grayagain + c.hold == l[1..];
    assert forall q :: q in gray <==> q == gray[0] || q in gray[1..];
    assert l[0] == gray[0];
    assert forall q :: q in l[1..] <==> q in gray[1..] || q in grayagain || q in c.hold;
    forall q | q in m.objs ensures ObjOk(m, w, gray[1..], grayagain, x + {gray[0]}, c, q) {
      assert ObjOk(m, w, gray, grayagain, x, c, q);
    }
  }

  // ----- What the marking methods need to know of the invariant -----

  lemma {:induction false} DarkerSame(m: Mem)
    ensures Darker(m, m)
  {
  }

  lemma {:induction false} MarkedOrWhite(m: Mem, w: bool, gray: seq<Ref>, grayagain: seq<Ref>, x: set<Ref>, c: Scope,
      k: Ref)
    requires Tri(m, w, gray, grayagain, x, c) && k in m.objs
    ensures White(m, k) || Marked(m, k)
  {
    hide AllOk, GrayLists, AgainDone, Closed, CachesIn;
  }

  /** A white object is in no gray list. */
  lemma {:induction false} WhiteUnlisted(m: Mem, w: bool, gray: seq<Ref>, grayagain: seq<Ref>, x: set<Ref>, c: Scope,
      o: Ref)
    requires Tri(m, w, gray, grayagain, x, c) && White(m, o)
    ensures o !in gray && o !in grayagain && o !in c.hold && Sane(m)
  {
    hide AllOk, AgainDone, Closed, CachesIn;
  }

  /** Nor is one of a kind that does not wait to be traversed. */
  lemma {:induction false} WasUnlisted(m: Mem, w: bool, gray: seq<Ref>, grayagain: seq<Ref>, x: set<Ref>, c: Scope,
      o: Ref)
    requires Tri(m, w, gray, grayagain, x, c) && o in m.objs && !Listed(m.objs[o].kind)
    ensures o !in gray && o !in grayagain && o !in c.hold && Sane(m)
  {
    hide AllOk, AgainDone, Closed, CachesIn;
  }

  lemma {:induction false} SlotsBounded(m: Mem, w: bool, gray: seq<Ref>, grayagain: seq<Ref>, x: set<Ref>, c: Scope,
      o: Ref)
    requires Tri(m, w, gray, grayagain, x, c) && o in m.objs && o in c.reach
    ensures forall k | k in Slots(m, o) && k != NIL :: k in m.objs && k in c.reach
  {
    hide AllOk, GrayLists, AgainDone, CachesIn;
    forall k | k in Slots(m, o) && k != NIL ensures k in m.objs && k in c.reach { assert PointsTo(m, o, k); }
  }

  /** Once its slots are marked, an object that is no prototype is done. */
  lemma {:induction false} Traversed(m: Mem, m': Mem, w: bool, gray: seq<Ref>, grayagain: seq<Ref>, x: set<Ref>,
      c: Scope, o: Ref)
    requires Tri(m', w, gray, grayagain, x, c) && o in m.objs && Darker(m, m') && m.objs[o].kind != KProto
    requires forall k | k in Slots(m, o) && k != NIL :: Marked(m', k)
    ensures Done(m', o) && m'.objs == m.objs && (Marked(m, o) ==> o in m'.col && m'.col[o] == m.col[o])
  {
    hide AllOk, GrayLists, AgainDone, CachesIn, Closed;
    forall k | PointsTo(m', o, k) ensures Marked(m', k) { PointsSame(m, m', o, k); }
  }

  lemma {:induction false} SettleOpen(m: Mem, w: bool, gray: seq<Ref>, grayagain: seq<Ref>, x: set<Ref>, c: Scope,
      o: Ref)
    requires Tri(m, w, gray, grayagain, x + {o}, c) && o in m.objs && IsOpen(m.objs[o]) && m.col[o] == Gray
        && Done(m, o)
    ensures Tri(m, w, gray, grayagain, x, c)
  {
    hide Done, GrayLists, Bounded;
    SettleSane(m, c.reach);
    assert ObjOk(m, w, gray, grayagain, x + {o}, c, o);
    Settle(m, w, gray, grayagain, x, c, o);
  }

  lemma {:induction false} SettleBlack(m: Mem, m': Mem, w: bool, gray: seq<Ref>, grayagain: seq<Ref>, x: set<Ref>,
      c: Scope, o: Ref)
    requires Tri(m', w, gray, grayagain, x + {o} + {o}, c) && o in m.objs && m' == Paint(m, o, Black) && Done(m, o)
        && o !in grayagain
    requires m.objs[o].kind != KThread && !IsOpen(m.objs[o])
    ensures Tri(m', w, gray, grayagain, x, c)
  {
    hide Done, GrayLists, Bounded;
    SettleSane(m', c.reach);
    DoneStays(m, m', o);
    assert x + {o} + {o} == x + {o};
    assert ObjOk(m', w, gray, grayagain, x + {o}, c, o);
    Settle(m', w, gray, grayagain, x, c, o);
  }

  lemma {:induction false} SettleListed(m: Mem, w: bool, gray: seq<Ref>, grayagain: seq<Ref>, x: set<Ref>, c: Scope,
      o: Ref)
    requires Tri(m, w, gray, grayagain, x + {o}, c) && o in m.objs && m.col[o] == Gray && o in gray && o !in grayagain
    ensures Tri(m, w, gray, grayagain, x, c)
  {
    hide Done, GrayLists, Bounded;
    SettleSane(m, c.reach);
    assert ObjOk(m, w, gray, grayagain, x + {o}, c, o);
    Settle(m, w, gray, grayagain, x, c, o);
  }

  lemma {:induction false} DarkerBlack(m0: Mem, m2: Mem, o: Ref)
    requires Darker(Paint(m0, o, Gray), m2) && White(m0, o) && o in m2.objs && Sane(m0)
    ensures Darker(m0, Paint(m2, o, Black)) && Whites(Paint(m2, o, Black)) < Whites(m0)
  {
    DarkerWhites(Paint(m0, o, Gray), m2);
    ShadeWhites(m0, o, Gray);
    assert Whites(Paint(m2, o, Black)) <= Whites(m2);
  }

  // ----- Propagation -----

  /** Propagation also forgets cached closures that are not marked. */
  ghost predicate Grown(m: Mem, m': Mem) {
    && m'.objs == m.objs && m'.col.Keys == m.col.Keys
    && (forall r | Marked(m, r) :: Marked(m', r))
    && (forall p | p in m'.cache :: p in m.cache && m'.cache[p] == m.cache[p])
  }

  lemma {:induction false} GrownSame(m: Mem)
    ensures Grown(m, m)
  {
  }

  lemma {:induction false} GrownTwice(a: Mem, b: Mem, c: Mem)
    requires Grown(a, b) && Grown(b, c)
    ensures Grown(a, c)
  {
  }

  lemma {:induction false} DarkerGrown(m: Mem, m': Mem)
    requires Darker(m, m')
    ensures Grown(m, m')
  {
  }

  lemma {:induction false} BlackGrown(m: Mem, o: Ref)
    requires o in m.col && m.col[o] == Gray
    ensures Grown(m, Paint(m, o, Black)) && Whites(Paint(m, o, Black)) == Whites(m)
  {
    assert m.col[o := Black].Keys == m.col.Keys;
  }

  lemma {:induction false} HeadIsGray(m: Mem, w: bool, gray: seq<Ref>, grayagain: seq<Ref>, x: set<Ref>, c: Scope)
    requires Tri(m, w, gray, grayagain, x, c) && gray != []
    ensures var o := gray[0];
        o in m.objs && o in m.col && m.col[o] == Gray && o in c.reach && Listed(m.objs[o].kind) && !IsOpen(m.objs[o])
    ensures Sane(m)
  {
    hide AllOk, AgainDone, Closed, CachesIn;
    assert gray[0] in gray;
  }

  lemma {:induction false} SettleThread(m: Mem, w: bool, gray: seq<Ref>, grayagain: seq<Ref>, x: set<Ref>, c: Scope,
      o: Ref)
    requires Tri(m, w, gray, grayagain, x + {o}, c) && o in m.objs && o in m.col && m.col[o] == Gray && o in grayagain
        && Done(m, o)
    ensures Tri(m, w, gray, grayagain, x, c)
  {
    hide Done, GrayLists, Bounded;
    SettleSane(m, c.reach);
    assert ObjOk(m, w, gray, grayagain, x + {o}, c, o);
    Settle(m, w, gray, grayagain, x, c, o);
  }

  /** traverseproto lets go of a cached closure that is not marked. */
  lemma {:induction false} ClearCache(m: Mem, w: bool, gray: seq<Ref>, grayagain: seq<Ref>, x: set<Ref>, c: Scope,
      o: Ref)
    requires Tri(m, w, gray, grayagain, x, c)
    ensures Tri(m.(cache := m.cache - {o}), w, gray, grayagain, x, c)
  {
    hide NoDup, Closed, CachesIn, Done;
    var m' := m.(cache := m.cache - {o});
    ClearBounded(m, c.reach, o);
    forall r | Done(m, r) ensures Done(m', r) { ClearDone(m, o, r); }
    forall q | q in m'.objs ensures ObjOk(m', w, gray, grayagain, x, c, q) {
      assert ObjOk(m, w, gray, grayagain, x, c, q);
    }
  }

  lemma {:induction false} ClearDone(m: Mem, o: Ref, r: Ref)
    requires Done(m, r)
    ensures Done(m.(cache := m.cache - {o}), r)
  {
    forall k | PointsTo(m.(cache := m.cache - {o}), r, k)
      ensures Marked(m, k) { PointsSame(m, m.(cache := m.cache - {o}), r, k); }
  }

  lemma {:induction false} ClearBounded(m: Mem, reach: set<Ref>, o: Ref)
    requires Bounded(m, reach)
    ensures Bounded(m.(cache := m.cache - {o}), reach)
  {
    var m' := m.(cache := m.cache - {o});
    forall q, j: Ref ensures PointsTo(m', q, j) == PointsTo(m, q, j) { PointsSame(m, m', q, j); }
  }

  lemma {:induction false} CacheMarked(m1: Mem, m2: Mem, w: bool, gray: seq<Ref>, grayagain: seq<Ref>, x: set<Ref>,
      c: Scope, o: Ref)
    requires Tri(m1, w, gray, grayagain, x, c) && o in m1.objs
    requires m2 == if m1.objs[o].kind == KProto && o in m1.cache
        && White(m1, m1.cache[o]) then m1.(cache := m1.cache - {o}) else m1
    ensures (o in m2.cache ==> Marked(m2, m2.cache[o])) && Grown(m1, m2) && Whites(m2) == Whites(m1)
  {
    hide AllOk, GrayLists, AgainDone, Closed;
    if o in m2.cache { MarkedOrWhite(m1, w, gray, grayagain, x, c, m1.cache[o]); }
  }

  lemma {:induction false} SettleTraversed(m0: Mem, m2: Mem, m: Mem, w: bool, gray: seq<Ref>, grayagain: seq<Ref>,
      x: set<Ref>, c: Scope, o: Ref)
    requires Tri(m, w, gray, grayagain, x + {o}, c) && o in m0.objs && Darker(m2, m) && Grown(m0, m2)
    requires o in m2.col && m2.col[o] == Black && (o in m2.cache ==> Marked(m2, m2.cache[o])) && o !in grayagain
    requires m.objs[o].kind != KThread && !IsOpen(m.objs[o])
    requires forall k | k in Slots(m0, o) && k != NIL :: Marked(m, k)
    ensures Tri(m, w, gray, grayagain, x, c)
  {
    hide GrayLists, Bounded, AllOk, AgainDone;
    assert Done(m, o) by {
      forall k | PointsTo(m, o, k) ensures Marked(m, k) { PointsSame(m0, m, o, k); }
    }
    SettleSane(m, c.reach);
    SettleOne(m, w, gray, grayagain, x, c, o);
  }

  lemma {:induction false} SettleOne(m: Mem, w: bool, gray: seq<Ref>, grayagain: seq<Ref>, x: set<Ref>, c: Scope,
      o: Ref)
    requires Tri(m, w, gray, grayagain, x + {o}, c) && o in m.objs && o in m.col && m.col[o] == Black && o !in grayagain
        && Done(m, o)
    ensures Tri(m, w, gray, grayagain, x, c)
  {
    hide Done, GrayLists, Bounded;
    SettleSane(m, c.reach);
    assert ObjOk(m, w, gray, grayagain, x + {o}, c, o);
    Settle(m, w, gray, grayagain, x, c, o);
  }

  lemma {:induction false} GrownObjs(m: Mem, m': Mem)
    requires Grown(m, m')
    ensures m'.objs == m.objs && m'.col.Keys == m.col.Keys
    ensures forall p | p in m'.cache :: p in m.cache && m'.cache[p] == m.cache[p]
  {
  }

  lemma {:induction false} GrownMarked(m: Mem, m': Mem, r: Ref)
    requires Grown(m, m') && Marked(m, r)
    ensures Marked(m', r)
  {
  }

  // ----- The atomic phase -----

  lemma {:induction false} UpvalBounded(m: Mem, w: bool, gray: seq<Ref>, grayagain: seq<Ref>, x: set<Ref>, c: Scope,
      r: Ref)
    requires Tri(m, w, gray, grayagain, x, c) && r in m.col && m.col[r] == Gray
    ensures r in m.objs && forall k | k in Slots(m, r) && k != NIL :: k in m.objs && k in c.reach
  {
    hide AllOk, GrayLists, AgainDone;
    SettleSane(m, c.reach);
    assert Marked(m, r);
    SlotsBounded(m, w, gray, grayagain, x, c, r);
  }

  lemma {:induction false} UpvalDone(m: Mem, m': Mem, w: bool, gray: seq<Ref>, grayagain: seq<Ref>, x: set<Ref>,
      c: Scope, uv: Ref)
    requires Tri(m', w, gray, grayagain, x, c) && uv in m.objs && Darker(m, m')
    requires forall k | k in Slots(m, uv) && k != NIL :: Marked(m', k)
    ensures IsOpen(m.objs[uv]) ==> Done(m', uv)
  {
    hide AllOk, GrayLists, AgainDone, Closed;
    forall k | PointsTo(m', uv, k) ensures Marked(m', k) { PointsSame(m, m', uv, k); }
  }

  lemma {:induction false} DropUp(m: Mem, w: bool, gray: seq<Ref>, grayagain: seq<Ref>, x: set<Ref>, c: Scope, uv: Ref)
    requires Tri(m, w, gray, grayagain, x, c)
    requires uv in m.objs && uv in m.col && m.col[uv] == Gray && IsOpen(m.objs[uv]) ==> Done(m, uv)
    ensures Tri(m, w, gray, grayagain, x, c.(ups := c.ups - {uv}))
  {
    hide Done, GrayLists, Bounded;
    SettleSane(m, c.reach);
    forall q | q in m.objs ensures ObjOk(m, w, gray, grayagain, x, c.(ups := c.ups - {uv}), q) {
      assert ObjOk(m, w, gray, grayagain, x, c, q);
    }
  }

  lemma {:induction false} DropUps(m: Mem, w: bool, gray: seq<Ref>, grayagain: seq<Ref>, x: set<Ref>, c: Scope)
    requires Tri(m, w, gray, grayagain, x, c)
    requires forall r | r in m.objs && IsOpen(m.objs[r]) :: r !in c.ups
    ensures Tri(m, w, gray, grayagain, x, c.(ups := {}))
  {
    hide Done, GrayLists, Bounded;
    SettleSane(m, c.reach);
    forall q | q in m.objs ensures ObjOk(m, w, gray, grayagain, x, c.(ups := {}), q) {
      assert ObjOk(m, w, gray, grayagain, x, c, q);
    }
  }

  /** retraversegrays sets the list `grayagain` aside ... */
  lemma {:induction false} SaveAgain(m: Mem, w: bool, grayagain: seq<Ref>, c: Scope)
    requires Tri(m, w, [], grayagain, {}, c) && c.hold == []
    ensures Tri(m, w, [], [], {}, c.(hold := grayagain, again := true))
  {
    hide Done, Bounded;
    var e: seq<Ref> := [];
    assert e + grayagain + e == grayagain && e + e + grayagain == grayagain;
    SettleSane(m, c.reach);
    forall q | q in m.objs ensures ObjOk(m, w, [], [], {}, c.(hold := grayagain, again := true), q) {
      assert ObjOk(m, w, [], grayagain, {}, c, q);
    }
  }

  /** ... and makes it the gray list. */
  lemma {:induction false} RestoreHold(m: Mem, w: bool, grayagain: seq<Ref>, c: Scope)
    requires Tri(m, w, [], grayagain, {}, c)
    ensures Tri(m, w, c.hold, grayagain, {}, c.(hold := []))
  {
    hide Done, Bounded;
    var e: seq<Ref> := [];
    SettleSane(m, c.reach);
    assert e + grayagain + c.hold == grayagain + c.hold && c.hold + grayagain + e == c.hold + grayagain;
    NoDupSwap(grayagain, c.hold);
    forall q | q in m.objs ensures ObjOk(m, w, c.hold, grayagain, {}, c.(hold := []), q) {
      assert ObjOk(m, w, [], grayagain, {}, c, q);
    }
  }

  lemma {:induction false} NoDupSwap(a: seq<Ref>, b: seq<Ref>)
    requires NoDup(a + b)
    ensures NoDup(b + a)
  {
    var l, l' := a + b, b + a;
    forall i, j | 0 <= i < j < |l'| ensures l'[i] != l'[j] {
      var i0 := if i < |b| then i + |a| else i - |b|;
      var j0 := if j < |b| then j + |a| else j - |b|;
      assert l'[i] == l[i0] && l'[j] == l[j0];
      if i0 < j0 { assert l[i0] != l[j0]; } else { assert l[j0] != l[i0]; }
    }
  }

  /** With no gray object left to traverse, the marked objects are closed. */
  lemma {:induction false} MarkedClosed(m: Mem, w: bool, grayagain: seq<Ref>, c: Scope, roots: set<Ref>)
    requires Tri(m, w, [], grayagain, {}, c) && c.hold == [] && c.ups == {} && c.again
    requires forall r | r in roots :: Marked(m, r)
    ensures Safe(m, !w, roots)
    ensures forall r | r in Live(m, !w) :: r in c.reach || m.objs[r].fixed
  {
    hide Closed, Done, GrayLists, CachesIn;
    SettleSane(m, c.reach);
    forall r | r in m.objs
      ensures (Marked(m, r) ==> Done(m, r)) && (r in Live(m, !w) <==> Marked(m, r) || m.objs[r].fixed)
    {
      assert ObjOk(m, w, [], grayagain, {}, c, r);
    }
    LiveClosed(m, w, c.reach, roots);
  }

  lemma {:induction false} LiveClosed(m: Mem, w: bool, reach: set<Ref>, roots: set<Ref>)
    requires Bounded(m, reach) && forall r | r in roots :: Marked(m, r)
    requires forall r | r in m.objs ::
        (Marked(m, r) ==> Done(m, r)) && (r in Live(m, !w) <==> Marked(m, r) || m.objs[r].fixed)
    ensures Safe(m, !w, roots)
  {
    hide White;
    forall r, k | r in Live(m, !w) && PointsTo(m, r, k) ensures k in Live(m, !w) {
      assert SaneObj(m, r);
      assert Marked(m, r);
      assert Marked(m, k);
    }
    forall p | p in m.cache && p in Live(m, !w) ensures m.cache[p] in Live(m, !w) {
      assert IsKind(m, p, KProto) && Marked(m, p) && Done(m, p);
    }
  }

  // ----- Closing an upvalue while marking -----

  /** The upvalue with its value copied from the stack slot it lived in. */
  function ClosedUpval(m: Mem, u: Ref): Mem
    requires u in m.objs
  {
    m.(objs := m.objs[u := m.objs[u].(place := Allgc, slots := Slots(m, u))])
  }

  lemma {:induction false} ClosedPoints(m: Mem, u: Ref, r: Ref, k: Ref)
    requires Sane(m) && u in m.objs && IsOpen(m.objs[u])
    ensures PointsTo(ClosedUpval(m, u), r, k) == PointsTo(m, r, k)
  {
    if r in m.objs { ClosedSlots(m, u, r); }
  }

  lemma {:induction false} ClosedSlots(m: Mem, u: Ref, r: Ref)
    requires Sane(m) && u in m.objs && IsOpen(m.objs[u]) && r in m.objs
    ensures Slots(ClosedUpval(m, u), r) == Slots(m, r)
  {
    if r != u {
      var o := m.objs[r];
      if IsOpen(o) { assert o.place.th != u; }
    }
  }

  lemma {:induction false} ClosedSane(m: Mem, u: Ref)
    requires Sane(m) && u in m.objs && IsOpen(m.objs[u])
    ensures Sane(ClosedUpval(m, u))
  {
    var m' := ClosedUpval(m, u);
    assert m'.objs.Keys == m.objs.Keys;
    forall r | r in m'.objs && IsOpen(m'.objs[r])
      ensures m'.objs[r].place.th != u { assert IsKind(m, m.objs[r].place.th, KThread); }
  }

  lemma {:induction false} ClosedTri(m: Mem, w: bool, gray: seq<Ref>, grayagain: seq<Ref>, c: Scope, u: Ref)
    requires Tri(m, w, gray, grayagain, {}, c) && u in m.objs && IsOpen(m.objs[u])
    ensures Tri(ClosedUpval(m, u), w, gray, grayagain, {u}, c)
  {
    hide Done, NoDup, ClosedUpval, Closed, CachesIn, Sane;
    var m' := ClosedUpval(m, u);
    ClosedSame(m, u);
    ClosedSane(m, u);
    ClosedBounded(m, c.reach, u);
    SettleSane(m, c.reach);
    SettleSane(m', c.reach);
    assert m.objs[u].kind == KUpval by { OpenKind(m, u); }
    forall r | r in m.objs && Done(m, r) ensures Done(m', r) { ClosedDone(m, u, r); }
    forall q | q in m'.objs ensures ObjOk(m', w, gray, grayagain, {u}, c, q) {
      assert ObjOk(m, w, gray, grayagain, {}, c, q);
    }
  }

  lemma {:induction false} OpenKind(m: Mem, u: Ref)
    requires Sane(m) && u in m.objs && IsOpen(m.objs[u])
    ensures m.objs[u].kind == KUpval && u in m.col && m.col[u] != Black
  {
  }

  lemma {:induction false} ClosedSame(m: Mem, u: Ref)
    requires Sane(m) && u in m.objs
    ensures ClosedUpval(m, u).objs.Keys == m.objs.Keys && ClosedUpval(m, u).col == m.col && ClosedUpval(m, u).cache
        == m.cache
    ensures forall r | r in m.objs && r != u :: ClosedUpval(m, u).objs[r] == m.objs[r]
    ensures ClosedUpval(m, u).objs == m.objs[u := m.objs[u].(place := Allgc, slots := Slots(m, u))]
  {
  }

  lemma {:induction false} ClosedDone(m: Mem, u: Ref, r: Ref)
    requires Sane(m) && u in m.objs && IsOpen(m.objs[u]) && Done(m, r)
    ensures Done(ClosedUpval(m, u), r)
  {
    forall k | PointsTo(ClosedUpval(m, u), r, k) ensures Marked(ClosedUpval(m, u), k) { ClosedPoints(m, u, r, k); }
  }

  lemma {:induction false} ClosedBounded(m: Mem, reach: set<Ref>, u: Ref)
    requires Bounded(m, reach) && u in m.objs && IsOpen(m.objs[u])
    ensures Bounded(ClosedUpval(m, u), reach)
  {
    hide ClosedUpval, Slots;
    ClosedSane(m, u);
    ClosedSame(m, u);
    forall q, j: Ref ensures PointsTo(ClosedUpval(m, u), q, j) == PointsTo(m, q, j) { ClosedPoints(m, u, q, j); }
  }

  lemma {:induction false} SaneCol(m: Mem, u: Ref)
    requires Sane(m) && u in m.objs
    ensures u in m.col && (m.objs[u].fixed ==> m.objs[u].kind == KString)
  {
  }

  lemma {:induction false} GrayInReach(m: Mem, w: bool, gray: seq<Ref>, grayagain: seq<Ref>, x: set<Ref>, c: Scope,
      u: Ref)
    requires Tri(m, w, gray, grayagain, x, c) && u in m.col && m.col[u] == Gray
    ensures u in c.reach
  {
    hide AllOk, GrayLists, AgainDone, Closed;
    assert Marked(m, u);
  }

  lemma {:induction false} SettleWhite(m: Mem, w: bool, gray: seq<Ref>, grayagain: seq<Ref>, c: Scope, u: Ref)
    requires Tri(m, w, gray, grayagain, {u}, c) && u in m.objs && !Listed(m.objs[u].kind) && White(m, u)
    ensures Tri(m, w, gray, grayagain, {}, c)
  {
    hide Done, Bounded;
    SettleSane(m, c.reach);
    WhiteUnlisted(m, w, gray, grayagain, {u}, c, u);
    var none: set<Ref> := {};
    assert none + {u} == {u};
    assert ObjOk(m, w, gray, grayagain, {u}, c, u);
    Settle(m, w, gray, grayagain, {}, c, u);
  }

  // ----- Starting a cycle, and changing what bounds it -----

  lemma {:induction false} Rescope(m: Mem, w: bool, gray: seq<Ref>, grayagain: seq<Ref>, c: Scope, reach: set<Ref>)
    requires Tri(m, w, gray, grayagain, {}, c) && Closed(m, reach) && forall r | Marked(m, r) :: r in reach
    ensures Tri(m, w, gray, grayagain, {}, c.(reach := reach))
  {
    hide Done, GrayLists, Closed, CachesIn;
    SettleSane(m, c.reach);
    forall r | r in m.objs ensures ObjOk(m, w, gray, grayagain, {}, c.(reach := reach), r) {
      assert ObjOk(m, w, gray, grayagain, {}, c, r);
    }
  }

  lemma {:induction false} MoreUps(m: Mem, w: bool, gray: seq<Ref>, grayagain: seq<Ref>, c: Scope, ups: set<Ref>)
    requires Tri(m, w, gray, grayagain, {}, c) && c.ups <= ups
    ensures Tri(m, w, gray, grayagain, {}, c.(ups := ups))
  {
    hide Done, GrayLists, Bounded;
    SettleSane(m, c.reach);
    forall r | r in m.objs ensures ObjOk(m, w, gray, grayagain, {}, c.(ups := ups), r) {
      assert ObjOk(m, w, gray, grayagain, {}, c, r);
    }
  }

  lemma {:induction false} AllKeys(m: Mem, reach: set<Ref>)
    requires Bounded(m, reach)
    ensures Closed(m, m.objs.Keys) && Sane(m) && forall r | Marked(m, r) :: r in m.objs.Keys
  {
    hide Closed, CachesIn;
  }

  /** When all objects are white the invariant holds with empty lists. */
  lemma {:induction false} TriStarts(m: Mem, w: bool, roots: set<Ref>, c: Scope)
    requires Safe(m, w, roots) && forall r | r in m.objs :: r in m.col && m.col[r] == WhiteOf(w)
    requires c.hold == [] && !c.again && Closed(m, c.reach)
    ensures Tri(m, w, [], [], {}, c)
  {
    assert Live(m, w) == m.objs.Keys;
    assert forall r :: !Marked(m, r);
    var e: seq<Ref> := [];
    assert e + e + e == e;
  }
}
