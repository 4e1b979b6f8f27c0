/** What the program does to the heap between collector steps, and why the
    barriers keep the invariants. */
module LuaGcWrite {
  import opened Common
  import opened LuaGcHeap
  import opened LuaGcLinks
  import opened LuaGcMark
  import opened LuaGcSweep

  // ----- Writing a slot -----

  function SetSlots(m: Mem, o: Ref, s: seq<Ref>): Mem
    requires o in m.objs
  {
    m.(objs := m.objs[o := m.objs[o].(slots := s)])
  }

  /** `s` is the old contents of `o`, cut or extended, with `v` or nil in some places. */
  ghost predicate Edit(m: Mem, o: Ref, s: seq<Ref>, v: Ref)
    requires o in m.objs
  {
    && (forall j | 0 <= j < |s| :: (j < |m.objs[o].slots| && s[j] == m.objs[o].slots[j]) || s[j] == v || s[j] == NIL)
    && m.objs[o].kind != KString && !IsOpen(m.objs[o])
    && forall q | q in m.objs && IsOpen(m.objs[q]) && m.objs[q].place.th == o :: m.objs[q].place.idx < |s|
  }

  lemma {:induction false} EditPoints(m: Mem, o: Ref, s: seq<Ref>, v: Ref, r: Ref, k: Ref)
    requires Sane(m) && o in m.objs && Edit(m, o, s, v) && PointsTo(SetSlots(m, o, s), r, k)
    ensures PointsTo(m, r, k) || k == v
    ensures k != v && r != o && !(r in m.objs && IsOpen(m.objs[r])) ==> PointsTo(m, r, k)
  {
    var m' := SetSlots(m, o, s);
    if IsOpen(m'.objs[r]) {
      assert IsKind(m, m.objs[r].place.th, KThread);
    } else {
      var j :| 0 <= j < |m'.objs[r].slots| && m'.objs[r].slots[j] == k;
    }
  }

  lemma {:induction false} EditOther(m: Mem, o: Ref, s: seq<Ref>, r: Ref)
    requires o in m.objs && r in m.objs && r != o && !IsOpen(m.objs[r])
    ensures Slots(SetSlots(m, o, s), r) == Slots(m, r)
  {
  }

  lemma {:induction false} EditSane(m: Mem, o: Ref, s: seq<Ref>, v: Ref)
    requires Sane(m) && o in m.objs && Edit(m, o, s, v)
    ensures Sane(SetSlots(m, o, s))
  {
    assert SetSlots(m, o, s).objs.Keys == m.objs.Keys;
  }

  lemma {:induction false} EditSafe(m: Mem, w: bool, roots: set<Ref>, o: Ref, s: seq<Ref>, v: Ref)
    requires Safe(m, w, roots) && o in m.objs && Edit(m, o, s, v) && (v == NIL || v in Live(m, w))
    ensures Safe(SetSlots(m, o, s), w, roots) && Live(SetSlots(m, o, s), w) == Live(m, w)
  {
    hide Sane, Edit, Slots;
    var m' := SetSlots(m, o, s);
    EditSane(m, o, s, v);
    assert Live(m', w) == Live(m, w);
    forall r, k | r in Live(m', w) && PointsTo(m', r, k) ensures k in Live(m', w) {
      EditPoints(m, o, s, v, r, k);
    }
  }

  /** Places and kinds decide how objects are linked. */
  lemma {:induction false} EditLinked(m: Mem, o: Ref, s: seq<Ref>, open: map<Ref, seq<Ref>>, allgc: seq<Ref>,
      strt: seq<seq<Ref>>, uvhead: seq<Ref>, main: Ref)
    requires Linked(m.objs, open, allgc, strt, uvhead, main, {}) && o in m.objs
    ensures Linked(SetSlots(m, o, s).objs, open, allgc, strt, uvhead, main, {})
  {
    SamePlaces(m.objs, SetSlots(m, o, s).objs, open, allgc, strt, uvhead, main);
  }

  lemma {:induction false} SamePlaces(objs: Objs, objs': Objs, open: map<Ref, seq<Ref>>, allgc: seq<Ref>,
      strt: seq<seq<Ref>>, uvhead: seq<Ref>, main: Ref)
    requires Linked(objs, open, allgc, strt, uvhead, main, {}) && objs'.Keys == objs.Keys
    requires forall r | r in objs :: objs'[r].place == objs[r].place && objs'[r].kind == objs[r].kind
    ensures Linked(objs', open, allgc, strt, uvhead, main, {})
  {
    assert OpenOk(objs', open) by { SameOpen(objs, objs', open); }
    assert StrtOk(objs', strt) by { SameStrt(objs, objs', strt); }
    SameRest(objs, objs', allgc, uvhead, main);
  }

  lemma {:induction false} SameOpen(objs: Objs, objs': Objs, open: map<Ref, seq<Ref>>)
    requires OpenOk(objs, open) && objs'.Keys == objs.Keys
    requires forall r | r in objs :: objs'[r].place == objs[r].place && objs'[r].kind == objs[r].kind
    ensures OpenOk(objs', open)
  {
    forall th | th in open ensures OpenList(objs', th, open[th]) { assert OpenList(objs, th, open[th]); }
  }

  lemma {:induction false} SameStrt(objs: Objs, objs': Objs, strt: seq<seq<Ref>>)
    requires StrtOk(objs, strt) && objs'.Keys == objs.Keys
    requires forall r | r in objs :: objs'[r].place == objs[r].place && objs'[r].kind == objs[r].kind
    ensures StrtOk(objs', strt)
  {
  }

  lemma {:induction false} SameRest(objs: Objs, objs': Objs, allgc: seq<Ref>, uvhead: seq<Ref>, main: Ref)
    requires AllgcOk(objs, allgc, {}) && UvheadOk(objs, uvhead) && MainOk(objs, main) && objs'.Keys == objs.Keys
    requires forall r | r in objs :: objs'[r].place == objs[r].place && objs'[r].kind == objs[r].kind
    ensures AllgcOk(objs', allgc, {}) && UvheadOk(objs', uvhead) && MainOk(objs', main)
  {
  }

  // ----- The tri-colour invariant under writes -----

  /** The scope between collector steps: nothing set aside, any upvalue may
      have to be remarked, no bound on marking. */
  ghost function Free(m: Mem): Scope {
    Scope([], m.objs.Keys, false, m.objs.Keys)
  }

  /** After a write, only `o` may break the invariant. */
  lemma {:induction false} EditTri(m: Mem, w: bool, gray: seq<Ref>, grayagain: seq<Ref>, o: Ref, s: seq<Ref>, v: Ref)
    requires Tri(m, w, gray, grayagain, {}, Free(m)) && o in m.objs && Edit(m, o, s, v) && (v == NIL || v in m.objs)
    ensures Tri(SetSlots(m, o, s), w, gray, grayagain, {o}, Free(m)) && Free(SetSlots(m, o, s)) == Free(m)
  {
    hide Done, NoDup, Closed, CachesIn, Sane, Slots, Edit;
    var m' := SetSlots(m, o, s);
    SettleSane(m, m.objs.Keys);
    EditSane(m, o, s, v);
    SettleSane2(m', m'.objs.Keys);
    EditBounded(m, o, s, v);
    assert m'.objs.Keys == m.objs.Keys;
    forall q | q in m'.objs ensures ObjOk(m', w, gray, grayagain, {o}, Free(m), q) {
      assert ObjOk(m, w, gray, grayagain, {}, Free(m), q);
      if m.col[q] == Black && q != o {
        assert !IsOpen(m.objs[q]) by { OpenNotBlack(m, q); }
        EditDone(m, o, s, q);
      }
    }
  }

  lemma {:induction false} OpenNotBlack(m: Mem, q: Ref)
    requires Sane(m) && q in m.objs && m.col[q] == Black
    ensures !IsOpen(m.objs[q])
  {
  }

  lemma {:induction false} SettleSane2(m: Mem, reach: set<Ref>)
    requires Sane(m)
    ensures m.col.Keys == m.objs.Keys
  {
  }

  lemma {:induction false} EditDone(m: Mem, o: Ref, s: seq<Ref>, q: Ref)
    requires o in m.objs && q in m.objs && q != o && !IsOpen(m.objs[q]) && Done(m, q)
    ensures Done(SetSlots(m, o, s), q)
  {
    EditOther(m, o, s, q);
    forall k | PointsTo(SetSlots(m, o, s), q, k) ensures Marked(SetSlots(m, o, s), k) { assert PointsTo(m, q, k); }
  }

  lemma {:induction false} EditBounded(m: Mem, o: Ref, s: seq<Ref>, v: Ref)
    requires Bounded(m, m.objs.Keys) && o in m.objs && Edit(m, o, s, v) && (v == NIL || v in m.objs)
    ensures Bounded(SetSlots(m, o, s), m.objs.Keys)
  {
    hide Sane, Edit, Slots;
    var m' := SetSlots(m, o, s);
    EditSane(m, o, s, v);
    assert m'.objs.Keys == m.objs.Keys;
    forall r, k | PointsTo(m', r, k) ensures k in m.objs {
      EditPoints(m, o, s, v, r, k);
    }
  }

  /** A write that needs no barrier: the object is not black, or what it gets is marked. */
  lemma {:induction false} WriteOk(g: GcState, o: Ref, s: seq<Ref>, v: Ref)
    requires StateOk(g)
    requires o in g.mem.objs && o in g.mem.col && Edit(g.mem, o, s, v) && (v == NIL || v in Live(g.mem, g.white))
    requires g.phase == Propagate && g.mem.col[o] == Black && v != NIL ==> Marked(g.mem, v)
    ensures StateOk(g.(mem := SetSlots(g.mem, o, s)))
    ensures Live(SetSlots(g.mem, o, s), g.white) == Live(g.mem, g.white)
  {
    hide Linked, Safe, Tri, Edit, Live;
    LiveThere(g.mem, g.white, v);
    EditLinked(g.mem, o, s, g.open, g.allgc, g.strt, g.uvhead, g.main);
    EditSafe(g.mem, g.white, g.roots, o, s, v);
    EditCol(g.mem, o, s);
    EditProgress(g.mem, g.white, o, s, g.open, g.allgc, g.strt, g.phase, g.sweepstrgc, g.sweepgc);
    if g.phase == Propagate {
      EditTri(g.mem, g.white, g.gray, g.grayagain, o, s, v);
      EditSettles(g.mem, SetSlots(g.mem, o, s), g.white, g.gray, g.gray, g.grayagain, o, s, v);
    }
  }

  lemma {:induction false} EditCol(m: Mem, o: Ref, s: seq<Ref>)
    requires o in m.objs
    ensures SetSlots(m, o, s).col == m.col && SetSlots(m, o, s).cache == m.cache && SetSlots(m, o, s).objs.Keys
        == m.objs.Keys
    ensures forall r :: Marked(SetSlots(m, o, s), r) <==> Marked(m, r)
  {
  }

  lemma {:induction false} EditProgress(m: Mem, w: bool, o: Ref, s: seq<Ref>, open: map<Ref, seq<Ref>>, allgc: seq<Ref>,
      strt: seq<seq<Ref>>, phase: Phase, n: nat, p: Option<nat>)
    requires o in m.objs
    ensures Progress(SetSlots(m, o, s), w, open, allgc, strt, phase, n, p) <==> Progress(m, w, open, allgc, strt, phase,
        n, p)
  {
    var m' := SetSlots(m, o, s);
    forall r ensures Swept(m', w, open, r) <==> Swept(m, w, open, r) {}
    forall l ensures AllWhite(m', w, l) <==> AllWhite(m, w, l) {}
  }

  /** `m` is the heap before the write, `m'` after it and the marking of `v`. */
  lemma {:induction false} EditSettles(m: Mem, m': Mem, w: bool, gray: seq<Ref>, gray': seq<Ref>, grayagain: seq<Ref>,
      o: Ref, s: seq<Ref>, v: Ref)
    requires Tri(m, w, gray, grayagain, {}, Free(m)) && o in m.objs && Edit(m, o, s, v)
    requires Tri(m', w, gray', grayagain, {o}, Free(m)) && Darker(SetSlots(m, o, s), m')
    requires o in m.col && m.col[o] == Gray ==> gray' == gray
    requires o in m.col && m.col[o] == Black && v != NIL ==> Marked(m', v)
    requires o in m.col && White(m, o) ==> o in m'.col && m'.col[o] == m.col[o]
    ensures Tri(m', w, gray', grayagain, {}, Free(m))
  {
    hide Bounded, Edit, Slots, Closed, CachesIn, NoDup;
    SettleSane(m, m.objs.Keys);
    SettleSane(m', m.objs.Keys);
    var none: set<Ref> := {};
    assert none + {o} == {o};
    assert ObjOk(m, w, gray, grayagain, {}, Free(m), o);
    assert ObjOk(m', w, gray', grayagain, {o}, Free(m), o);
    if m.col[o] == Black { BlackDone(m, m', o, s, v); }
    Settle(m', w, gray', grayagain, {}, Free(m), o);
  }

  lemma {:induction false} BlackDone(m: Mem, m': Mem, o: Ref, s: seq<Ref>, v: Ref)
    requires Bounded(m, m.objs.Keys) && o in m.objs && Edit(m, o, s, v) && Done(m, o) && Darker(SetSlots(m, o, s), m')
    requires v != NIL ==> Marked(m', v)
    ensures Done(m', o)
  {
    hide Edit, Slots;
    var m1 := SetSlots(m, o, s);
    EditCol(m, o, s);
    forall k | PointsTo(m', o, k) ensures Marked(m', k) {
      PointsSame(m1, m', o, k);
      EditPoints(m, o, s, v, o, k);
    }
  }

  // ----- Barriers -----

  /** luaC_barrierback: a black object becomes gray again, to be revisited in the atomic phase. */
  lemma {:induction false} Regray(m: Mem, w: bool, gray: seq<Ref>, grayagain: seq<Ref>, c: Scope, o: Ref)
    requires Tri(m, w, gray, grayagain, {o}, c) && !c.again && o in m.objs && m.col[o] == Black
        && Listed(m.objs[o].kind)
    ensures Tri(Paint(m, o, Gray), w, gray, [o] + grayagain, {}, c)
  {
    hide Tri, Bounded, Done, GrayLists;
    BlackUnlisted(m, w, gray, grayagain, {o}, c, o);
    BlackShaded(m, w, gray, grayagain, c, o);
    PushAgain(Paint(m, o, Gray), w, gray, grayagain, {o}, c, o);
    TriSane(Paint(m, o, Gray), w, gray, [o] + grayagain, {o}, c);
    SettleGray(Paint(m, o, Gray), w, gray, [o] + grayagain, c, o);
  }

  lemma {:induction false} SettleGray(m: Mem, w: bool, gray: seq<Ref>, grayagain: seq<Ref>, c: Scope, o: Ref)
    requires Tri(m, w, gray, grayagain, {o}, c) && !c.again && o in m.objs && o in m.col && m.col[o] == Gray
        && o in grayagain
    ensures Tri(m, w, gray, grayagain, {}, c)
  {
    hide Bounded, Done, GrayLists;
    var none: set<Ref> := {};
    assert none + {o} == {o};
    SettleSane(m, c.reach);
    assert ObjOk(m, w, gray, grayagain, {o}, c, o);
    Settle(m, w, gray, grayagain, {}, c, o);
  }

  lemma {:induction false} BlackUnlisted(m: Mem, w: bool, gray: seq<Ref>, grayagain: seq<Ref>, x: set<Ref>, c: Scope,
      o: Ref)
    requires Tri(m, w, gray, grayagain, x, c) && o in m.objs && m.col[o] == Black
    ensures o !in gray && o !in grayagain && o !in c.hold && Sane(m) && o in c.reach
  {
    hide AllOk, AgainDone, Closed, CachesIn;
    assert Marked(m, o);
  }

  lemma {:induction false} BlackShaded(m: Mem, w: bool, gray: seq<Ref>, grayagain: seq<Ref>, c: Scope, o: Ref)
    requires Tri(m, w, gray, grayagain, {o}, c) && o in m.objs && m.col[o] == Black && o in c.reach
    requires o !in gray && o !in grayagain && o !in c.hold
    ensures Tri(Paint(m, o, Gray), w, gray, grayagain, {o}, c)
  {
    hide Bounded, ObjOk, Done, NoDup;
    var m' := Paint(m, o, Gray);
    ShadeBounded(m, c.reach, o, Gray);
    SettleSane(m, c.reach);
    SettleSane(m', c.reach);
    forall q | q in m'.objs ensures ObjOk(m', w, gray, grayagain, {o}, c, q) {
      RegrayOther(m, w, gray, grayagain, c, o, q);
    }
    forall q | Done(m, q) ensures Done(m', q) { DoneStays(m, m', q); }
  }

  lemma {:induction false} RegrayOther(m: Mem, w: bool, gray: seq<Ref>, grayagain: seq<Ref>, c: Scope, o: Ref, q: Ref)
    requires Sane(m) && o in m.objs && q in m.objs && ObjOk(m, w, gray, grayagain, {o}, c, q) && m.col[o] == Black
    ensures ObjOk(Paint(m, o, Gray), w, gray, grayagain, {o}, c, q)
  {
    hide Done, Sane;
    if Done(m, q) { DoneStays(m, Paint(m, o, Gray), q); }
  }

  /** Repainting an object that is not of the current white leaves the sweeper's progress. */
  lemma {:induction false} PaintProgress(m: Mem, w: bool, o: Ref, k: Colour, open: map<Ref, seq<Ref>>, allgc: seq<Ref>,
      strt: seq<seq<Ref>>, phase: Phase, n: nat, p: Option<nat>)
    requires Progress(m, w, open, allgc, strt, phase, n, p) && o in m.col && (m.col[o] != WhiteOf(w) || k == WhiteOf(w))
    ensures Progress(Paint(m, o, k), w, open, allgc, strt, phase, n, p)
  {
    var m' := Paint(m, o, k);
    forall r | Swept(m, w, open, r) ensures Swept(m', w, open, r) {}
    forall l | AllWhite(m, w, l) ensures AllWhite(m', w, l) {}
  }

  /** Repainting a live object, so that it stays alive. */
  lemma {:induction false} PaintSafe(m: Mem, w: bool, roots: set<Ref>, o: Ref, k: Colour)
    requires Safe(m, w, roots) && o in Live(m, w) && k != WhiteOf(!w) && k != Black
    ensures Safe(Paint(m, o, k), w, roots) && Live(Paint(m, o, k), w) == Live(m, w)
  {
    hide Slots;
    var m' := Paint(m, o, k);
    assert m'.col.Keys == m.objs.Keys;
    assert Live(m', w) == Live(m, w);
    forall r, j: Ref ensures PointsTo(m', r, j) == PointsTo(m, r, j) { PointsSame(m, m', r, j); }
  }

  /** luaC_barrierback, in any phase. */
  lemma {:induction false} BackOk(g: GcState, o: Ref, s: seq<Ref>, v: Ref)
    requires StateOk(g)
    requires o in g.mem.objs && o in g.mem.col && g.mem.col[o] == Black && Listed(g.mem.objs[o].kind)
        && Edit(g.mem, o, s, v) && v in Live(g.mem, g.white)
    ensures StateOk(g.(mem := Paint(SetSlots(g.mem, o, s), o, Gray), grayagain := [o] + g.grayagain))
    ensures Live(Paint(SetSlots(g.mem, o, s), o, Gray), g.white) == Live(g.mem, g.white)
  {
    hide Linked, Safe, Tri, Edit, Progress;
    var m1 := SetSlots(g.mem, o, s);
    EditLinked(g.mem, o, s, g.open, g.allgc, g.strt, g.uvhead, g.main);
    EditSafe(g.mem, g.white, g.roots, o, s, v);
    EditCol(g.mem, o, s);
    EditProgress(g.mem, g.white, o, s, g.open, g.allgc, g.strt, g.phase, g.sweepstrgc, g.sweepgc);
    PaintSafe(m1, g.white, g.roots, o, Gray);
    if g.phase == Propagate {
      EditTri(g.mem, g.white, g.gray, g.grayagain, o, s, v);
      Regray(m1, g.white, g.gray, g.grayagain, Free(g.mem), o);
    }
    if Sweeping(g.phase) { PaintProgress(m1, g.white, o, Gray, g.open, g.allgc, g.strt, g.phase, g.sweepstrgc,
        g.sweepgc); }
  }

  /** luaC_barrier_ while sweeping: the black object turns white. */
  lemma {:induction false} SweepBarrierOk(g: GcState, o: Ref)
    requires StateOk(g) && g.phase != Propagate
    requires o in g.mem.objs && o in g.mem.col && g.mem.col[o] == Black
    ensures StateOk(g.(mem := Paint(g.mem, o, WhiteOf(g.white))))
    ensures Live(Paint(g.mem, o, WhiteOf(g.white)), g.white) == Live(g.mem, g.white)
  {
    hide Linked, Safe, Tri, Progress;
    PaintSafe(g.mem, g.white, g.roots, o, WhiteOf(g.white));
    if Sweeping(g.phase) { PaintProgress(g.mem, g.white, o, WhiteOf(g.white), g.open, g.allgc, g.strt, g.phase,
        g.sweepstrgc, g.sweepgc); }
  }

  /** luaC_barrier_ while marking: the white object that is pointed to gets marked. */
  lemma {:induction false} ForwardOk(g: GcState, m': Mem, gray': seq<Ref>, o: Ref, s: seq<Ref>, v: Ref)
    requires StateOk(g) && g.phase == Propagate
    requires o in g.mem.objs && o in g.mem.col && g.mem.col[o] == Black && Edit(g.mem, o, s, v)
        && v in Live(g.mem, g.white)
    requires Tri(m', g.white, gray', g.grayagain, {o}, Free(g.mem)) && Darker(SetSlots(g.mem, o, s), m')
        && Marked(m', v)
    ensures StateOk(g.(mem := m', gray := gray')) && Live(m', g.white) == Live(g.mem, g.white)
  {
    hide Linked, Safe, Tri, Edit, Progress, Darker, Live;
    var m, w := g.mem, g.white;
    NoneDead(m, w, g.gray, g.grayagain, {}, Free(m));
    NoneDead(m', w, gray', g.grayagain, {o}, Free(m));
    EditLinked(m, o, s, g.open, g.allgc, g.strt, g.uvhead, g.main);
    EditCol(m, o, s);
    DarkerGrown(SetSlots(m, o, s), m');
    GrownObjs(SetSlots(m, o, s), m');
    GrownMarked(SetSlots(m, o, s), m', g.main);
    EditSettles(m, m', w, g.gray, gray', g.grayagain, o, s, v);
    RootsThere(m, w, g.roots);
    TriSafe(m', w, gray', g.grayagain, {}, Free(m), g.roots);
  }

  // ----- New objects -----

  /** luaC_newobj: a new object has the current white. */
  function Alloc(m: Mem, w: bool, r: Ref, o: Obj): Mem {
    Mem(m.objs[r := o], m.col[r := WhiteOf(w)], m.cache)
  }

  /** An object whose contents are nil or alive, at an address not in use. */
  ghost predicate NewOk(m: Mem, w: bool, r: Ref, o: Obj) {
    && r !in m.objs && r != NIL
    && (forall k | k in o.slots && k != NIL :: k in Live(m, w))
    && (o.kind == KString ==> o.slots == []) && (o.fixed ==> o.kind == KString)
    && (IsOpen(o) ==>
          && o.kind == KUpval && o.place.th in Live(m, w)
          && IsKind(m, o.place.th, KThread) && o.place.idx < |m.objs[o.place.th].slots|)
  }

  lemma {:induction false} AllocSlots(m: Mem, w: bool, r: Ref, o: Obj, q: Ref)
    requires Sane(m) && NewOk(m, w, r, o) && q in m.objs
    ensures Slots(Alloc(m, w, r, o), q) == Slots(m, q)
  {
    if IsOpen(m.objs[q]) { assert SaneObj(m, q) && m.objs[q].place.th != r; }
  }

  lemma {:induction false} AllocPoints(m: Mem, w: bool, roots: set<Ref>, r: Ref, o: Obj, k: Ref)
    requires Safe(m, w, roots) && NewOk(m, w, r, o) && PointsTo(Alloc(m, w, r, o), r, k)
    ensures k in Live(m, w)
  {
    if IsOpen(o) {
      assert PointsTo(m, o.place.th, k) by { assert SaneObj(m, o.place.th); }
    }
  }

  lemma {:induction false} AllocSane(m: Mem, w: bool, r: Ref, o: Obj)
    requires Sane(m) && NewOk(m, w, r, o)
    ensures Sane(Alloc(m, w, r, o))
  {
    var m' := Alloc(m, w, r, o);
    forall q | q in m'.objs ensures SaneObj(m', q) { assert q != r ==> SaneObj(m, q); }
  }

  lemma {:induction false} AllocSafe(m: Mem, w: bool, roots: set<Ref>, r: Ref, o: Obj)
    requires Safe(m, w, roots) && NewOk(m, w, r, o)
    ensures Safe(Alloc(m, w, r, o), w, roots) && Live(Alloc(m, w, r, o), w) == Live(m, w) + {r}
  {
    hide Sane, Slots, NewOk;
    var m' := Alloc(m, w, r, o);
    AllocSane(m, w, r, o);
    AllocFresh(m, w, r, o);
    assert Live(m', w) == Live(m, w) + {r};
    forall q, k | q in Live(m', w) && PointsTo(m', q, k) ensures k in Live(m', w) {
      if q == r { AllocPoints(m, w, roots, r, o, k); } else { AllocSlots(m, w, r, o, q); assert PointsTo(m, q, k); }
    }
  }

  lemma {:induction false} AllocFresh(m: Mem, w: bool, r: Ref, o: Obj)
    requires Sane(m) && NewOk(m, w, r, o)
    ensures r !in m.objs && r !in m.col && r !in m.cache && r != NIL
  {
  }

  lemma {:induction false} AllocTri(m: Mem, w: bool, gray: seq<Ref>, grayagain: seq<Ref>, roots: set<Ref>, r: Ref,
      o: Obj)
    requires Tri(m, w, gray, grayagain, {}, Free(m)) && Safe(m, w, roots) && NewOk(m, w, r, o)
    ensures Tri(Alloc(m, w, r, o), w, gray, grayagain, {}, Free(Alloc(m, w, r, o)))
  {
    hide Done, NoDup, Closed, CachesIn, Sane, Slots, NewOk, Safe, Live;
    var m' := Alloc(m, w, r, o);
    SettleSane(m, m.objs.Keys);
    AllocFresh(m, w, r, o);
    AllocBounded(m, w, gray, grayagain, roots, r, o);
    SettleSane(m', m'.objs.Keys);
    forall q | q in m'.objs ensures ObjOk(m', w, gray, grayagain, {}, Free(m'), q) {
      if q != r {
        assert ObjOk(m, w, gray, grayagain, {}, Free(m), q);
        if Done(m, q) { AllocDone(m, w, r, o, q); }
      }
    }
  }

  lemma {:induction false} AllocDone(m: Mem, w: bool, r: Ref, o: Obj, q: Ref)
    requires Sane(m) && NewOk(m, w, r, o) && q in m.objs && Done(m, q)
    ensures Done(Alloc(m, w, r, o), q)
  {
    hide Sane, Slots, NewOk;
    AllocFresh(m, w, r, o);
    AllocSlots(m, w, r, o, q);
    forall k | PointsTo(Alloc(m, w, r, o), q, k) ensures Marked(Alloc(m, w, r, o), k) { assert PointsTo(m, q, k); }
  }

  lemma {:induction false} AllocBounded(m: Mem, w: bool, gray: seq<Ref>, grayagain: seq<Ref>, roots: set<Ref>, r: Ref,
      o: Obj)
    requires Tri(m, w, gray, grayagain, {}, Free(m)) && Safe(m, w, roots) && NewOk(m, w, r, o)
    ensures Bounded(Alloc(m, w, r, o), Alloc(m, w, r, o).objs.Keys)
  {
    hide AllOk, GrayLists, AgainDone, Sane, Slots, NewOk;
    var m' := Alloc(m, w, r, o);
    AllocSane(m, w, r, o);
    AllocFresh(m, w, r, o);
    forall q, k | PointsTo(m', q, k) ensures k in m'.objs {
      if q == r { AllocPoints(m, w, roots, r, o, k); } else { AllocSlots(m, w, r, o, q); assert PointsTo(m, q, k); }
    }
  }

  lemma {:induction false} AllocSwept(m: Mem, w: bool, r: Ref, o: Obj, open: map<Ref, seq<Ref>>, open': map<Ref,
      seq<Ref>>, allgc: seq<Ref>, n: nat)
    requires r !in m.col && SweptUpTo(m, w, open, allgc, n)
    requires forall t | t in open' ::
        (t in open && forall u | u in open'[t] :: u in open[t] || u == r) || (t == r && open'[t] == [])
    ensures SweptUpTo(Alloc(m, w, r, o), w, open', allgc, n)
  {
    var m' := Alloc(m, w, r, o);
    forall i | 0 <= i < n ensures Swept(m', w, open', allgc[i]) { assert Swept(m, w, open, allgc[i]); }
  }

  lemma {:induction false} AllocWhite(m: Mem, w: bool, r: Ref, o: Obj, l: seq<Ref>)
    requires AllWhite(m, w, l)
    ensures AllWhite(Alloc(m, w, r, o), w, l) && AllWhite(Alloc(m, w, r, o), w, [r] + l)
  {
    assert forall u | u in [r] + l :: u in l || u == r;
  }

  /** The state with a new object in front of `allgc`. */
  function Allocated(g: GcState, r: Ref, o: Obj): GcState {
    g.(mem := Alloc(g.mem, g.white, r, o), open := if o.kind == KThread then g.open[r := []] else g.open,
       allgc := [r] + g.allgc, sweepgc := if g.sweepgc.Some? then Some(g.sweepgc.value + 1) else None)
  }

  /** A new object in `allgc`: it goes before what the sweeper has still to see. */
  lemma {:induction false} AllocOk(g: GcState, r: Ref, o: Obj)
    requires StateOk(g) && NewOk(g.mem, g.white, r, o) && o.place == Allgc
    ensures StateOk(Allocated(g, r, o))
  {
    hide Linked, Safe, Tri, NewOk, SweptUpTo, AllWhite, Alloc;
    var m' := Alloc(g.mem, g.white, r, o);
    var open' := if o.kind == KThread then g.open[r := []] else g.open;
    AllocSafe(g.mem, g.white, g.roots, r, o);
    SafeSane(g.mem, g.white, g.roots);
    AllocFresh(g.mem, g.white, r, o);
    AllocCol(g.mem, g.white, r, o);
    LinkNew(g.mem, g.white, g.open, g.allgc, g.strt, g.uvhead, g.main, r, o);
    if g.phase == Propagate { AllocTri(g.mem, g.white, g.gray, g.grayagain, g.roots, r, o); }
    if Sweeping(g.phase) {
      var k := if g.sweepgc.Some? then g.sweepgc.value else |g.allgc|;
      AllocSwept(g.mem, g.white, r, o, g.open, open', g.allgc, k);
      ThreadsOnly(g.mem.objs, g.open, g.allgc, g.strt, g.uvhead, g.main, {}, r);
      assert Swept(m', g.white, open', r);
      SweptFront(m', g.white, open', g.allgc, r, k);
      forall b | 0 <= b < |g.strt| && AllWhite(g.mem, g.white, g.strt[b])
        ensures AllWhite(m', g.white, g.strt[b]) { AllocWhite(g.mem, g.white, r, o, g.strt[b]); }
    }
  }

  lemma {:induction false} SweptFront(m: Mem, w: bool, open: map<Ref, seq<Ref>>, allgc: seq<Ref>, r: Ref, n: nat)
    requires SweptUpTo(m, w, open, allgc, n) && Swept(m, w, open, r)
    ensures SweptUpTo(m, w, open, [r] + allgc, n + 1)
  {
    hide Swept;
    forall i | 0 <= i < n + 1 ensures Swept(m, w, open, ([r] + allgc)[i]) {}
  }

  lemma {:induction false} AllocCol(m: Mem, w: bool, r: Ref, o: Obj)
    ensures Alloc(m, w, r, o).col == m.col[r := WhiteOf(w)] && Alloc(m, w, r, o).objs == m.objs[r := o]
        && Alloc(m, w, r, o).cache == m.cache
  {
  }

  lemma {:induction false} LinkNew(m: Mem, w: bool, open: map<Ref, seq<Ref>>, allgc: seq<Ref>, strt: seq<seq<Ref>>,
      uvhead: seq<Ref>, main: Ref, r: Ref, o: Obj)
    requires Linked(m.objs, open, allgc, strt, uvhead, main, {}) && r !in m.objs && o.place == Allgc && HomesOk(m.objs)
    ensures Linked(m.objs[r := o], if o.kind == KThread then open[r := []] else open, [r] + allgc, strt, uvhead, main,
        {})
  {
    hide AllgcOk, StrtOk, OpenOk;
    NewAllgc(m.objs, allgc, r, o);
    NewStrt(m.objs, strt, r, o);
    NewOpenOk(m.objs, open, r, o);
  }

  ghost predicate HomesOk(objs: Objs) {
    forall q | q in objs && IsOpen(objs[q]) :: objs[q].place.th in objs
  }

  lemma {:induction false} NewAllgc(objs: Objs, allgc: seq<Ref>, r: Ref, o: Obj)
    requires AllgcOk(objs, allgc, {}) && r !in objs && o.place == Allgc
    ensures AllgcOk(objs[r := o], [r] + allgc, {})
  {
    assert r !in allgc;
    assert forall q :: q in [r] + allgc <==> q == r || q in allgc;
  }

  lemma {:induction false} NewStrt(objs: Objs, strt: seq<seq<Ref>>, r: Ref, o: Obj)
    requires StrtOk(objs, strt) && r !in objs && !o.place.InTable?
    ensures StrtOk(objs[r := o], strt)
  {
  }

  lemma {:induction false} NewOpenOk(objs: Objs, open: map<Ref, seq<Ref>>, r: Ref, o: Obj)
    requires OpenOk(objs, open) && r !in objs && !IsOpen(o) && HomesOk(objs)
    ensures OpenOk(objs[r := o], if o.kind == KThread then open[r := []] else open)
  {
    var objs' := objs[r := o];
    forall t | t in open ensures OpenList(objs', t, open[t]) { assert OpenList(objs, t, open[t]) && r !in open[t]; }
    assert OpenList(objs', r, []);
  }

  /** A new short string, in its chain of the string table. */
  lemma {:induction false} AllocStringOk(g: GcState, r: Ref, o: Obj, b: nat)
    requires StateOk(g) && NewOk(g.mem, g.white, r, o)
    requires g.strt != [] && o.place.InTable? && b == Lmod(o.place.hash, |g.strt|) && o.kind == KString
    ensures StateOk(g.(mem := Alloc(g.mem, g.white, r, o), strt := g.strt[b := [r] + g.strt[b]]))
  {
    hide Linked, Safe, Tri, NewOk, SweptUpTo, AllWhite, Alloc;
    var m' := Alloc(g.mem, g.white, r, o);
    AllocSafe(g.mem, g.white, g.roots, r, o);
    SafeSane(g.mem, g.white, g.roots);
    AllocFresh(g.mem, g.white, r, o);
    AllocCol(g.mem, g.white, r, o);
    LinkNewString(g.mem.objs, g.open, g.allgc, g.strt, g.uvhead, g.main, r, o, b);
    if g.phase == Propagate { AllocTri(g.mem, g.white, g.gray, g.grayagain, g.roots, r, o); }
    if Sweeping(g.phase) {
      AllocSwept(g.mem, g.white, r, o, g.open, g.open, g.allgc, if g.sweepgc.Some? then g.sweepgc.value else |g.allgc|);
      forall j | 0 <= j < |g.strt| && AllWhite(g.mem, g.white, g.strt[j])
        ensures AllWhite(m', g.white, g.strt[j]) && AllWhite(m', g.white, [r] + g.strt[j])
      {
        AllocWhite(g.mem, g.white, r, o, g.strt[j]);
      }
    }
  }

  lemma {:induction false} LinkNewString(objs: Objs, open: map<Ref, seq<Ref>>, allgc: seq<Ref>, strt: seq<seq<Ref>>,
      uvhead: seq<Ref>, main: Ref, r: Ref, o: Obj, b: nat)
    requires Linked(objs, open, allgc, strt, uvhead, main, {}) && r !in objs && strt != [] && o.place.InTable?
        && b == Lmod(o.place.hash, |strt|) && o.kind == KString && HomesOk(objs)
    ensures Linked(objs[r := o], open, allgc, strt[b := [r] + strt[b]], uvhead, main, {})
  {
    hide OpenOk, StrtOk;
    NewOpenOk(objs, open, r, o);
    NewInChain(objs, strt, r, o, b);
  }

  lemma {:induction false} NewInChain(objs: Objs, strt: seq<seq<Ref>>, r: Ref, o: Obj, b: nat)
    requires StrtOk(objs, strt) && r !in objs && strt != [] && o.place.InTable? && b == Lmod(o.place.hash, |strt|)
        && o.kind == KString
    ensures StrtOk(objs[r := o], strt[b := [r] + strt[b]])
  {
    hide Lmod;
    assert r !in strt[b];
    assert forall q :: q in [r] + strt[b] <==> q == r || q in strt[b];
  }

  // ----- luaF_findupval -----

  function InsertAt(s: seq<Ref>, i: nat, r: Ref): seq<Ref>
    requires i <= |s|
  {
    s[..i] + [r] + s[i..]
  }

  lemma {:induction false} AllocOpenSwept(g: GcState, r: Ref, o: Obj, th: Ref, i: nat)
    requires Sane(g.mem) && NewOk(g.mem, g.white, r, o) && th in g.open && i <= |g.open[th]|
    requires Progress(g.mem, g.white, g.open, g.allgc, g.strt, g.phase, g.sweepstrgc, g.sweepgc)
    ensures Progress(Alloc(g.mem, g.white, r, o), g.white, g.open[th := InsertAt(g.open[th], i, r)], g.allgc, g.strt,
        g.phase, g.sweepstrgc, g.sweepgc)
  {
    hide Sane, NewOk, SweptUpTo, AllWhite, Alloc;
    var m', open' := Alloc(g.mem, g.white, r, o), g.open[th := InsertAt(g.open[th], i, r)];
    AllocFresh(g.mem, g.white, r, o);
    AllocCol(g.mem, g.white, r, o);
    assert forall u | u in open'[th] :: u in g.open[th] || u == r;
    AllocSwept(g.mem, g.white, r, o, g.open, open', g.allgc, if g.sweepgc.Some? then g.sweepgc.value else |g.allgc|);
    forall j | 0 <= j < |g.strt| && AllWhite(g.mem, g.white, g.strt[j])
      ensures AllWhite(m', g.white, g.strt[j]) { AllocWhite(g.mem, g.white, r, o, g.strt[j]); }
  }

  /** A new open upvalue for slot `idx` of a live thread goes before the first entry of a lower slot. */
  lemma {:induction false} AllocOpenOk(g: GcState, r: Ref, th: Ref, idx: nat, i: nat)
    requires StateOk(g)
    requires NewOk(g.mem, g.white, r, Obj(KUpval, Open(th, idx), false, [])) && th in g.open && i <= |g.open[th]|
    requires forall j | 0 <= j < i ::
        g.open[th][j] in g.mem.objs && g.mem.objs[g.open[th][j]].place.Open?
          && g.mem.objs[g.open[th][j]].place.idx > idx
    requires forall j | i <= j < |g.open[th]| ::
        g.open[th][j] in g.mem.objs && g.mem.objs[g.open[th][j]].place.Open?
          && g.mem.objs[g.open[th][j]].place.idx < idx
    ensures StateOk(g.(mem := Alloc(g.mem, g.white, r, Obj(KUpval, Open(th, idx), false, [])),
                       open := g.open[th := InsertAt(g.open[th], i, r)], uvhead := [r] + g.uvhead))
  {
    hide Linked, Safe, Tri, NewOk, SweptUpTo, AllWhite, Alloc;
    var o := Obj(KUpval, Open(th, idx), false, []);
    var m', open' := Alloc(g.mem, g.white, r, o), g.open[th := InsertAt(g.open[th], i, r)];
    AllocSafe(g.mem, g.white, g.roots, r, o);
    SafeSane(g.mem, g.white, g.roots);
    AllocFresh(g.mem, g.white, r, o);
    AllocCol(g.mem, g.white, r, o);
    LinkNewOpen(g.mem.objs, g.open, g.allgc, g.strt, g.uvhead, g.main, r, th, idx, i);
    if g.phase == Propagate { AllocTri(g.mem, g.white, g.gray, g.grayagain, g.roots, r, o); }
    if Sweeping(g.phase) { AllocOpenSwept(g, r, o, th, i); }
  }

  lemma {:induction false} LinkNewOpen(objs: Objs, open: map<Ref, seq<Ref>>, allgc: seq<Ref>, strt: seq<seq<Ref>>,
      uvhead: seq<Ref>, main: Ref, r: Ref, th: Ref, idx: nat, i: nat)
    requires Linked(objs, open, allgc, strt, uvhead, main, {}) && r !in objs && th in open && i <= |open[th]|
    requires forall j | 0 <= j < i ::
        open[th][j] in objs && objs[open[th][j]].place.Open? && objs[open[th][j]].place.idx > idx
    requires forall j | i <= j < |open[th]| ::
        open[th][j] in objs && objs[open[th][j]].place.Open? && objs[open[th][j]].place.idx < idx
    ensures Linked(objs[r := Obj(KUpval, Open(th, idx), false, [])], open[th := InsertAt(open[th], i, r)], allgc, strt,
        [r] + uvhead, main, {})
  {
    hide OpenOk;
    var o := Obj(KUpval, Open(th, idx), false, []);
    NewStrt(objs, strt, r, o);
    assert r !in uvhead;
    assert forall q :: q in [r] + uvhead <==> q == r || q in uvhead;
    InsertOpen(objs, open, r, th, idx, i);
  }

  lemma {:induction false} InsertOpen(objs: Objs, open: map<Ref, seq<Ref>>, r: Ref, th: Ref, idx: nat, i: nat)
    requires OpenOk(objs, open) && r !in objs && th in open && i <= |open[th]|
    requires forall j | 0 <= j < i ::
        open[th][j] in objs && objs[open[th][j]].place.Open? && objs[open[th][j]].place.idx > idx
    requires forall j | i <= j < |open[th]| ::
        open[th][j] in objs && objs[open[th][j]].place.Open? && objs[open[th][j]].place.idx < idx
    ensures OpenOk(objs[r := Obj(KUpval, Open(th, idx), false, [])], open[th := InsertAt(open[th], i, r)])
  {
    hide OpenList;
    var objs' := objs[r := Obj(KUpval, Open(th, idx), false, [])];
    InsertedList(objs, open[th], r, th, idx, i);
    forall t | t in open && t != th ensures OpenList(objs', t, open[t]) { OtherList(objs, open[t], r, t, th, idx); }
  }

  lemma {:induction false} OtherList(objs: Objs, l: seq<Ref>, r: Ref, t: Ref, th: Ref, idx: nat)
    requires OpenList(objs, t, l) && r !in objs && t != th
    ensures OpenList(objs[r := Obj(KUpval, Open(th, idx), false, [])], t, l)
  {
    assert r !in l;
  }

  lemma {:induction false} InsertedList(objs: Objs, l: seq<Ref>, r: Ref, th: Ref, idx: nat, i: nat)
    requires OpenList(objs, th, l) && r !in objs && i <= |l|
    requires forall j | 0 <= j < i :: l[j] in objs && objs[l[j]].place.Open? && objs[l[j]].place.idx > idx
    requires forall j | i <= j < |l| :: l[j] in objs && objs[l[j]].place.Open? && objs[l[j]].place.idx < idx
    ensures OpenList(objs[r := Obj(KUpval, Open(th, idx), false, [])], th, InsertAt(l, i, r))
  {
    var l', objs' := InsertAt(l, i, r), objs[r := Obj(KUpval, Open(th, idx), false, [])];
    assert r !in l;
    InsertMembers(l, i, r);
    forall a, b | 0 <= a < b < |l'|
      ensures l'[a] in objs' && l'[b] in objs' && objs'[l'[a]].place.Open? && objs'[l'[b]].place.Open?
          && objs'[l'[a]].place.idx > objs'[l'[b]].place.idx
    {
      InsertedPair(objs, l, r, th, idx, i, a, b);
    }
  }

  lemma {:induction false} InsertMembers(l: seq<Ref>, i: nat, r: Ref)
    requires i <= |l|
    ensures |InsertAt(l, i, r)| == |l| + 1 && forall q :: q in InsertAt(l, i, r) <==> q == r || q in l
  {
    assert l == l[..i] + l[i..];
  }

  /** Two upvalues of the new list are in order. */
  lemma {:induction false} InsertedPair(objs: Objs, l: seq<Ref>, r: Ref, th: Ref, idx: nat, i: nat, a: nat, b: nat)
    requires OpenList(objs, th, l) && r !in objs && i <= |l| && a < b <= |l|
    requires forall j | 0 <= j < i :: l[j] in objs && objs[l[j]].place.Open? && objs[l[j]].place.idx > idx
    requires forall j | i <= j < |l| :: l[j] in objs && objs[l[j]].place.Open? && objs[l[j]].place.idx < idx
    ensures |InsertAt(l, i, r)| == |l| + 1
    ensures var l', objs' := InsertAt(l, i, r), objs[r := Obj(KUpval, Open(th, idx), false, [])];
      l'[a] in objs' && l'[b] in objs' && objs'[l'[a]].place.Open? && objs'[l'[b]].place.Open?
          && objs'[l'[a]].place.idx > objs'[l'[b]].place.idx
  {
    hide OpenList, InsertAt;
    InsertIndex(l, i, r, a);
    InsertIndex(l, i, r, b);
    if a != i && b != i { OpenOrder(objs, th, l, if a < i then a else a - 1, if b < i then b else b - 1); }
  }

  lemma {:induction false} OpenOrder(objs: Objs, th: Ref, l: seq<Ref>, a: nat, b: nat)
    requires OpenList(objs, th, l) && a < b < |l|
    ensures l[a] in objs && l[b] in objs && objs[l[a]].place.Open? && objs[l[b]].place.Open?
        && objs[l[a]].place.idx > objs[l[b]].place.idx
  {
  }

  lemma {:induction false} InsertIndex(l: seq<Ref>, i: nat, r: Ref, a: nat)
    requires i <= |l| && a <= |l|
    ensures |InsertAt(l, i, r)| == |l| + 1 && InsertAt(l, i, r)[a] == if a < i then l[a] else if a == i then r
        else l[a - 1]
  {
  }

  // ----- Resurrection, caches, roots -----

  /** changewhite on a dead string or upvalue the program got hold of again. */
  lemma {:induction false} ReviveOk(g: GcState, r: Ref)
    requires StateOk(g)
    requires Dead(g.mem, g.white, r) && g.mem.objs[r].kind != KProto && forall k | PointsTo(g.mem, r, k) ::
        k in Live(g.mem, g.white)
    ensures StateOk(g.(mem := Paint(g.mem, r, WhiteOf(g.white))))
  {
    hide Linked, Safe, Tri, Progress;
    if g.phase == Propagate { NoneDead(g.mem, g.white, g.gray, g.grayagain, {}, Free(g.mem)); }
    ReviveSafe(g.mem, g.white, g.roots, r);
    if Sweeping(g.phase) { PaintProgress(g.mem, g.white, r, WhiteOf(g.white), g.open, g.allgc, g.strt, g.phase,
        g.sweepstrgc, g.sweepgc); }
  }

  lemma {:induction false} ReviveSafe(m: Mem, w: bool, roots: set<Ref>, r: Ref)
    requires Safe(m, w, roots) && Dead(m, w, r) && m.objs[r].kind != KProto && forall k | PointsTo(m, r, k) ::
        k in Live(m, w)
    ensures Safe(Paint(m, r, WhiteOf(w)), w, roots)
  {
    hide Slots;
    var m' := Paint(m, r, WhiteOf(w));
    assert m'.col.Keys == m.objs.Keys;
    assert Live(m', w) == Live(m, w) + {r};
    forall q, j: Ref ensures PointsTo(m', q, j) == PointsTo(m, q, j) { PointsSame(m, m', q, j); }
  }

  function SetCache(m: Mem, p: Ref, c: Ref): Mem {
    m.(cache := m.cache[p := c])
  }

  /** A prototype remembers its last closure; a black one only if that is marked. */
  lemma {:induction false} CacheOk(g: GcState, f: Ref, c: Ref)
    requires StateOk(g)
    requires IsKind(g.mem, f, KProto) && c != NIL && c in Live(g.mem, g.white) && f in g.mem.col
        && (g.phase == Propagate && g.mem.col[f] == Black ==> Marked(g.mem, c))
    ensures StateOk(g.(mem := SetCache(g.mem, f, c)))
  {
    hide Linked, Safe, Tri, Progress;
    CacheSafe(g.mem, g.white, g.roots, f, c);
    CacheProgress(g.mem, g.white, f, c, g.open, g.allgc, g.strt, g.phase, g.sweepstrgc, g.sweepgc);
    if g.phase == Propagate { CacheTri(g.mem, g.white, g.gray, g.grayagain, g.roots, f, c); }
  }

  lemma {:induction false} CacheProgress(m: Mem, w: bool, f: Ref, c: Ref, open: map<Ref, seq<Ref>>, allgc: seq<Ref>,
      strt: seq<seq<Ref>>, phase: Phase, n: nat, p: Option<nat>)
    ensures Progress(SetCache(m, f, c), w, open, allgc, strt, phase, n, p) <==> Progress(m, w, open, allgc, strt, phase,
        n, p)
  {
    var m' := SetCache(m, f, c);
    forall r ensures Swept(m', w, open, r) <==> Swept(m, w, open, r) {}
    forall l ensures AllWhite(m', w, l) <==> AllWhite(m, w, l) {}
  }

  lemma {:induction false} CacheSane(m: Mem, f: Ref, c: Ref)
    requires Sane(m) && IsKind(m, f, KProto) && c != NIL
    ensures Sane(SetCache(m, f, c))
  {
    forall r | r in m.objs ensures SaneObj(SetCache(m, f, c), r) { assert SaneObj(m, r); }
  }

  lemma {:induction false} CacheSafe(m: Mem, w: bool, roots: set<Ref>, f: Ref, c: Ref)
    requires Safe(m, w, roots) && IsKind(m, f, KProto) && c != NIL && c in Live(m, w)
    ensures Safe(SetCache(m, f, c), w, roots)
  {
    hide Sane, Slots;
    var m' := SetCache(m, f, c);
    CacheSane(m, f, c);
    assert Live(m', w) == Live(m, w);
    forall q, j: Ref ensures PointsTo(m', q, j) == PointsTo(m, q, j) { PointsSame(m, m', q, j); }
  }

  lemma {:induction false} CacheTri(m: Mem, w: bool, gray: seq<Ref>, grayagain: seq<Ref>, roots: set<Ref>, f: Ref,
      c: Ref)
    requires Tri(m, w, gray, grayagain, {}, Free(m)) && Safe(m, w, roots) && IsKind(m, f, KProto) && c != NIL
        && c in m.objs
    requires f in m.col && m.col[f] == Black ==> Marked(m, c)
    ensures Tri(SetCache(m, f, c), w, gray, grayagain, {}, Free(m))
  {
    hide NoDup, Closed, CachesIn, Done, Safe;
    var m' := SetCache(m, f, c);
    SettleSane(m, m.objs.Keys);
    CacheBounded(m, f, c);
    SettleSane(m', m.objs.Keys);
    forall q | Done(m, q) && (q == f ==> Marked(m, c)) ensures Done(m', q) { CacheDone(m, f, c, q); }
    forall q | q in m'.objs ensures ObjOk(m', w, gray, grayagain, {}, Free(m), q) {
      assert ObjOk(m, w, gray, grayagain, {}, Free(m), q);
    }
  }

  lemma {:induction false} CacheDone(m: Mem, f: Ref, c: Ref, q: Ref)
    requires Done(m, q) && (q == f ==> Marked(m, c))
    ensures Done(SetCache(m, f, c), q)
  {
    forall k | PointsTo(SetCache(m, f, c), q, k) ensures Marked(m, k) { PointsSame(m, SetCache(m, f, c), q, k); }
  }

  lemma {:induction false} CacheBounded(m: Mem, f: Ref, c: Ref)
    requires Bounded(m, m.objs.Keys) && IsKind(m, f, KProto) && c != NIL && c in m.objs
    ensures Bounded(SetCache(m, f, c), m.objs.Keys)
  {
    hide Sane, Slots;
    CacheSane(m, f, c);
    forall q, j: Ref
      ensures PointsTo(SetCache(m, f, c), q, j) == PointsTo(m, q, j) { PointsSame(m, SetCache(m, f, c), q, j); }
  }

  lemma {:induction false} RootsOk(g: GcState, roots': set<Ref>)
    requires StateOk(g) && roots' <= Live(g.mem, g.white)
    ensures StateOk(g.(roots := roots'))
  {
  }

  // ----- luaF_close between collector steps -----

  lemma {:induction false} CloseOk(g: GcState, g': GcState, th: Ref)
    requires StateOk(g) && Linked(g'.mem.objs, g'.open, g'.allgc, g.strt, g'.uvhead, g.main, {})
    requires g' == g.(mem := g'.mem, gray := g'.gray, open := g'.open, allgc := g'.allgc, uvhead := g'.uvhead,
        sweepgc := g'.sweepgc)
    requires g.phase == Propagate ==> Tri(g'.mem, g.white, g'.gray, g.grayagain, {}, Free(g.mem))
    requires Closing(g.mem, g'.mem, g.white, g.open, g'.open, g.allgc, g'.allgc, g.sweepgc, g'.sweepgc, th, g.phase
        == Propagate)
    ensures StateOk(g')
  {
    hide Linked, Tri, Safe, SameLive, Advanced, SweptUpTo, Sane, LostUpvals, Pushed;
    var m, m', w, p := g.mem, g'.mem, g.white, g.sweepgc;
    if g.phase == Propagate {
      NoneDead(m, w, g.gray, g.grayagain, {}, Free(m));
      NoneDead(m', w, g'.gray, g.grayagain, {}, Free(m));
      SameLiveKeys(m, m', w);
      RootsThere(m, w, g.roots);
      TriSafe(m', w, g'.gray, g.grayagain, {}, Free(m), g.roots);
    } else {
      AdvancedSafe(m, m', w, g.open, g'.open, g.roots);
      if Sweeping(g.phase) {
        PushedLength(g.allgc, g'.allgc);
        SweptStrings(m, m', w, g.open, g'.open, g.strt);
        SweptPushed(m, m', w, g.open, g'.open, g.allgc, g'.allgc, if p.Some? then p.value else |g.allgc|);
      } else {
        StaysWhite(m, m', w, g.open, g'.open);
      }
    }
  }

  lemma {:induction false} StaysWhite(m: Mem, m': Mem, w: bool, open: map<Ref, seq<Ref>>, open': map<Ref, seq<Ref>>)
    requires Advanced(m, m', w, open, open') && forall r | r in m.objs :: r in m.col && m.col[r] == WhiteOf(w)
    ensures forall r | r in m'.objs :: r in m'.col && m'.col[r] == WhiteOf(w)
  {
    hide SameLive, Sane;
  }

  // ----- What the methods of the program need -----

  lemma {:induction false} Colours(g: GcState)
    requires StateOk(g)
    ensures g.mem.col.Keys == g.mem.objs.Keys && forall r | r in g.mem.objs ::
        SaneObj(g.mem, r) && (White(g.mem, r) || Marked(g.mem, r))
  {
    hide Linked, Closed, CachesIn, PhaseOk;
  }

  lemma {:induction false} ForwardStart(g: GcState, o: Ref, s: seq<Ref>, v: Ref)
    requires StateOk(g) && g.phase == Propagate
    requires o in g.mem.objs && Edit(g.mem, o, s, v) && v in g.mem.objs && White(g.mem, v)
    ensures Tri(SetSlots(g.mem, o, s), g.white, g.gray, g.grayagain, {o}, Free(g.mem))
        && v in SetSlots(g.mem, o, s).objs && White(SetSlots(g.mem, o, s), v) && v in Free(g.mem).reach
  {
    hide Linked, Safe, Tri, Edit;
    EditTri(g.mem, g.white, g.gray, g.grayagain, o, s, v);
    EditCol(g.mem, o, s);
  }

  lemma {:induction false} LiveThere(m: Mem, w: bool, v: Ref)
    ensures v in Live(m, w) ==> v in m.objs && !Dead(m, w, v)
  {
  }

  lemma {:induction false} DarkerCache(m: Mem, m': Mem)
    requires Darker(m, m')
    ensures m'.objs == m.objs && m'.cache == m.cache
  {
  }

  lemma {:induction false} StateSafe(g: GcState)
    requires StateOk(g)
    ensures Safe(g.mem, g.white, g.roots) && Sane(g.mem)
  {
  }

  lemma {:induction false} StringInTable(g: GcState, b: nat, i: nat)
    requires StateOk(g) && b < |g.strt| && i < |g.strt[b]|
    ensures g.strt[b][i] in g.mem.objs && g.mem.objs[g.strt[b][i]].kind == KString && forall k ::
        !PointsTo(g.mem, g.strt[b][i], k)
  {
    hide AllgcOk, OpenOk, UvheadOk, MainOk, PhaseOk;
    assert g.strt[b][i] in g.strt[b];
    assert SaneObj(g.mem, g.strt[b][i]);
  }

  /** The open upvalues of a thread, each for a slot of its own. */
  lemma {:induction false} OpenOfCurrent(g: GcState, th: Ref)
    requires StateOk(g) && IsKind(g.mem, th, KThread)
    ensures th in g.open && forall j | 0 <= j < |g.open[th]| ::
        g.open[th][j] in g.mem.objs && g.mem.objs[g.open[th][j]].kind == KUpval && g.mem.objs[g.open[th][j]].place.Open?
          && g.mem.objs[g.open[th][j]].place.th == th
    ensures forall i, j | 0 <= i < j < |g.open[th]| ::
        g.mem.objs[g.open[th][i]].place.idx > g.mem.objs[g.open[th][j]].place.idx
    ensures forall q | q in g.mem.objs && g.mem.objs[q].place.Open? && g.mem.objs[q].place.th == th :: q in g.open[th]
  {
    hide AllgcOk, StrtOk, UvheadOk, MainOk, PhaseOk;
    assert OpenList(g.mem.objs, th, g.open[th]);
    forall j | 0 <= j < |g.open[th]|
      ensures g.open[th][j] in g.mem.objs && g.mem.objs[g.open[th][j]].kind == KUpval
        && g.mem.objs[g.open[th][j]].place.Open? && g.mem.objs[g.open[th][j]].place.th == th
    {
      assert g.open[th][j] in g.open[th];
      assert SaneObj(g.mem, g.open[th][j]);
    }
  }

  /** A stack slot of a live thread holds something alive. */
  lemma {:induction false} SlotsAlive(g: GcState, th: Ref, u: Ref)
    requires StateOk(g) && th in g.roots && IsKind(g.mem, th, KThread)
    requires u in g.mem.objs && g.mem.objs[u].place.Open? && g.mem.objs[u].place.th == th
    ensures forall k | PointsTo(g.mem, u, k) :: k in Live(g.mem, g.white)
  {
    hide Linked, PhaseOk;
    assert SaneObj(g.mem, th);
    forall k | PointsTo(g.mem, u, k) ensures k in Live(g.mem, g.white) { assert PointsTo(g.mem, th, k); }
  }

  lemma {:induction false} CurrentAlive(g: GcState, th: Ref)
    requires StateOk(g) && th in g.roots && IsKind(g.mem, th, KThread)
    ensures th in Live(g.mem, g.white) && Safe(g.mem, g.white, g.roots) && Sane(g.mem)
    ensures forall k | k in g.mem.objs[th].slots && k != NIL :: k in Live(g.mem, g.white)
  {
    hide Linked, PhaseOk;
    assert SaneObj(g.mem, th);
    forall k | k in g.mem.objs[th].slots && k != NIL
      ensures k in Live(g.mem, g.white) { assert PointsTo(g.mem, th, k); }
  }

  lemma {:induction false} CanClose(g: GcState, th: Ref)
    requires StateOk(g) && IsKind(g.mem, th, KThread)
    ensures Linked(g.mem.objs, g.open, g.allgc, g.strt, g.uvhead, g.main, {}) && Sane(g.mem) && th in g.open
        && th !in g.open[th]
    ensures g.phase == Propagate ==> Tri(g.mem, g.white, g.gray, g.grayagain, {}, Free(g.mem))
  {
    hide Safe, Tri, Linked;
    SafeSane(g.mem, g.white, g.roots);
    assert SaneObj(g.mem, th);
    ThreadsOnly(g.mem.objs, g.open, g.allgc, g.strt, g.uvhead, g.main, {}, th);
    NotOpenIn(g.mem.objs, g.open, g.allgc, g.strt, g.uvhead, g.main, {}, th, th);
  }

  lemma {:induction false} ClosedThread(m: Mem, m': Mem, w: bool, open: map<Ref, seq<Ref>>, open': map<Ref, seq<Ref>>,
      l: seq<Ref>, l': seq<Ref>, p: Option<nat>, p': Option<nat>, th: Ref, marking: bool)
    requires Closing(m, m', w, open, open', l, l', p, p', th, marking) && th in open && th in m.objs && th !in open[th]
    ensures th in m'.objs && m'.objs[th] == m.objs[th] && SameLive(m, m', w)
  {
    hide Sane, SameLive, Advanced, SweptUpTo;
  }

  /** A field of something alive is nil or alive. */
  lemma {:induction false} FieldAlive(g: GcState, o: Ref, i: nat)
    requires StateOk(g) && o in g.mem.objs && o in Live(g.mem, g.white) && i < |Slots(g.mem, o)|
    ensures Slots(g.mem, o)[i] == NIL || Slots(g.mem, o)[i] in Live(g.mem, g.white)
  {
    hide Linked, PhaseOk, Sane;
    if Slots(g.mem, o)[i] != NIL { assert PointsTo(g.mem, o, Slots(g.mem, o)[i]); }
  }

  /** The stack an open upvalue lives in may be written through it. */
  lemma {:induction false} UpvalHome(g: GcState, u: Ref, v: Ref)
    requires StateOk(g) && u in g.mem.objs && IsOpen(g.mem.objs[u])
    ensures IsKind(g.mem, g.mem.objs[u].place.th, KThread)
        && g.mem.objs[u].place.idx < |g.mem.objs[g.mem.objs[u].place.th].slots|
    ensures Edit(g.mem, g.mem.objs[u].place.th, g.mem.objs[g.mem.objs[u].place.th].slots[g.mem.objs[u].place.idx := v],
        v) && g.mem.objs[u].place.th != u
    ensures g.mem.objs[u].kind == KUpval && |Slots(g.mem, u)| == 1
  {
    hide Linked, PhaseOk, Closed, CachesIn;
    assert SaneObj(g.mem, u);
    var th, idx := g.mem.objs[u].place.th, g.mem.objs[u].place.idx;
    assert SaneObj(g.mem, th);
    forall q | q in g.mem.objs && IsOpen(g.mem.objs[q]) && g.mem.objs[q].place.th == th
      ensures g.mem.objs[q].place.idx < |g.mem.objs[th].slots| { assert SaneObj(g.mem, q); }
  }

  lemma {:induction false} EditOk(g: GcState, o: Ref, i: nat, v: Ref)
    requires StateOk(g) && o in g.mem.objs && !IsOpen(g.mem.objs[o]) && g.mem.objs[o].kind != KString
        && i <= |g.mem.objs[o].slots|
    ensures Edit(g.mem, o, if i < |g.mem.objs[o].slots| then g.mem.objs[o].slots[i := v] else g.mem.objs[o].slots + [v],
        v)
  {
    hide Linked, PhaseOk, Closed, CachesIn;
    forall q | q in g.mem.objs && IsOpen(g.mem.objs[q]) && g.mem.objs[q].place.th == o
      ensures g.mem.objs[q].place.idx < |g.mem.objs[o].slots| { assert SaneObj(g.mem, q); }
  }

  /** Writing back the same contents, for barriers that do not follow a write to a slot. */
  lemma {:induction false} SameEdit(m: Mem, o: Ref, v: Ref)
    requires Sane(m) && IsKind(m, o, KProto)
    ensures Edit(m, o, m.objs[o].slots, v) && SetSlots(m, o, m.objs[o].slots) == m
  {
    forall q | q in m.objs && IsOpen(m.objs[q]) && m.objs[q].place.th == o
      ensures m.objs[q].place.idx < |m.objs[o].slots| { assert SaneObj(m, q); }
    assert SaneObj(m, o);
    assert m.objs[o := m.objs[o]] == m.objs;
  }
}
