/** What sweeping does to the heap: it frees dead objects, closes the upvalues
    of dead threads and turns the rest white, and the live part stays. */
module LuaGcSweep {
  import opened Common
  import opened LuaGcHeap
  import opened LuaGcMark
  import opened LuaGcLinks

  function Remove(m: Mem, u: Ref): Mem {
    Mem(m.objs - {u}, m.col - {u}, m.cache - {u})
  }

  /** Objects of the current white stay so, and no thread gains an upvalue. */
  ghost predicate Advanced(m: Mem, m': Mem, w: bool, open: map<Ref, seq<Ref>>, open': map<Ref, seq<Ref>>) {
    && Sane(m') && SameLive(m, m', w)
    && (forall r | r in m.col && m.col[r] == WhiteOf(w) :: r in m'.col && m'.col[r] == WhiteOf(w))
    && (forall r | r in m'.objs :: r in m.objs && m'.objs[r].kind == m.objs[r].kind)
    && (forall t | t in open' :: t in open && forall u | u in open'[t] :: u in open[t])
  }

  /** The sweeper has passed `r`: it and the upvalues of its stack are white. */
  ghost predicate Swept(m: Mem, w: bool, open: map<Ref, seq<Ref>>, r: Ref) {
    && r in m.col && m.col[r] == WhiteOf(w)
    && (r in open ==> forall u | u in open[r] :: u in m.col && m.col[u] == WhiteOf(w))
  }

  lemma {:induction false} AdvancedSame(m: Mem, w: bool, open: map<Ref, seq<Ref>>)
    requires Sane(m)
    ensures Advanced(m, m, w, open, open)
  {
  }

  lemma {:induction false} AdvancedTwice(a: Mem, b: Mem, c: Mem, w: bool, o1: map<Ref, seq<Ref>>, o2: map<Ref,
      seq<Ref>>, o3: map<Ref, seq<Ref>>)
    requires Advanced(a, b, w, o1, o2) && Advanced(b, c, w, o2, o3)
    ensures Advanced(a, c, w, o1, o3)
  {
    hide Sane, SameLive;
    SameLiveTwice(a, b, c, w);
  }

  lemma {:induction false} SweptStays(m: Mem, m': Mem, w: bool, open: map<Ref, seq<Ref>>, open': map<Ref, seq<Ref>>,
      r: Ref)
    requires Advanced(m, m', w, open, open') && Swept(m, w, open, r)
    ensures Swept(m', w, open', r)
  {
    hide Sane, SameLive;
  }

  lemma {:induction false} AdvancedSafe(m: Mem, m': Mem, w: bool, open: map<Ref, seq<Ref>>, open': map<Ref, seq<Ref>>,
      roots: set<Ref>)
    requires Safe(m, w, roots) && Advanced(m, m', w, open, open')
    ensures Safe(m', w, roots)
  {
    hide Sane, Slots, Dead;
    forall r, k | r in Live(m', w) && PointsTo(m', r, k) ensures k in Live(m', w) { assert PointsTo(m, r, k); }
  }

  /** Freeing a dead object no open upvalue lives in. */
  lemma {:induction false} Freed(m: Mem, w: bool, open: map<Ref, seq<Ref>>, open': map<Ref, seq<Ref>>, u: Ref)
    requires Sane(m) && Dead(m, w, u) && forall q | q in m.objs && IsOpen(m.objs[q]) :: m.objs[q].place.th != u
    requires forall t | t in open' :: t in open && forall q | q in open'[t] :: q in open[t]
    ensures Advanced(m, Remove(m, u), w, open, open')
  {
    hide Sane, Slots, PointsTo;
    var m' := Remove(m, u);
    forall r | r in m.objs && r != u ensures Slots(m', r) == Slots(m, r) { FreedSlots(m, u, r); }
    FreedSane(m, u);
    assert Live(m', w) == Live(m, w);
  }

  lemma {:induction false} FreedSlots(m: Mem, u: Ref, r: Ref)
    requires r in m.objs && r != u && (IsOpen(m.objs[r]) ==> m.objs[r].place.th != u)
    ensures Slots(Remove(m, u), r) == Slots(m, r)
  {
  }

  lemma {:induction false} FreedSane(m: Mem, u: Ref)
    requires Sane(m) && forall q | q in m.objs && IsOpen(m.objs[q]) :: m.objs[q].place.th != u
    ensures Sane(Remove(m, u))
  {
    var m' := Remove(m, u);
    assert m'.col.Keys == m'.objs.Keys;
  }

  /** makewhite on an object that is not dead. */
  lemma {:induction false} Whitened(m: Mem, w: bool, open: map<Ref, seq<Ref>>, r: Ref)
    requires Sane(m) && r in m.objs && !Dead(m, w, r)
    ensures Advanced(m, Paint(m, r, WhiteOf(w)), w, open, open)
  {
    hide Sane, Slots, PointsTo;
    var m' := Paint(m, r, WhiteOf(w));
    WhitenedSane(m, w, r);
    forall q | q in m.objs ensures Slots(m', q) == Slots(m, q) { SlotsSame(m, m', q); }
    assert Live(m', w) == Live(m, w);
  }

  lemma {:induction false} WhitenedSane(m: Mem, w: bool, r: Ref)
    requires Sane(m) && r in m.objs
    ensures Sane(Paint(m, r, WhiteOf(w)))
  {
    assert Paint(m, r, WhiteOf(w)).col.Keys == m.objs.Keys;
  }

  /** luaF_close on an upvalue that is not dead. */
  lemma {:induction false} ClosedAdvanced(m: Mem, w: bool, open: map<Ref, seq<Ref>>, open': map<Ref, seq<Ref>>, u: Ref)
    requires Sane(m) && u in m.objs && IsOpen(m.objs[u])
    requires forall t | t in open' :: t in open && forall q | q in open'[t] :: q in open[t]
    ensures Advanced(m, ClosedUpval(m, u), w, open, open')
  {
    hide ClosedUpval, Slots, PointsTo, Sane;
    var m' := ClosedUpval(m, u);
    ClosedSane(m, u);
    ClosedSame(m, u);
    SaneKeys(m);
    forall q | q in m.objs ensures Slots(m', q) == Slots(m, q) { ClosedSlots(m, u, q); }
    assert Live(m', w) == Live(m, w);
  }

  /** Some objects may be gone; the others are the same. */
  ghost predicate OnlyFreed(m: Mem, m': Mem) {
    forall r | r in m'.objs :: r in m.objs && m'.objs[r] == m.objs[r]
  }

  // ----- luaF_close -----

  /** Only open upvalues of `th` were closed or freed, from the top down. */
  ghost predicate LostUpvals(m: Mem, m': Mem, open: map<Ref, seq<Ref>>, open': map<Ref, seq<Ref>>, th: Ref) {
    && (forall q | q in m.objs && (th in open ==> q !in open[th]) :: q in m'.objs && m'.objs[q] == m.objs[q])
    && (forall q | q in m'.objs :: q in m.objs && m'.objs[q].kind == m.objs[q].kind)
    && open'.Keys == open.Keys
    && (forall t | t in open && t != th :: open'[t] == open[t])
    && (th in open ==> forall u | u in open'[th] :: u in open[th])
  }

  lemma {:induction false} LostTwice(a: Mem, b: Mem, c: Mem, o1: map<Ref, seq<Ref>>, o2: map<Ref, seq<Ref>>,
      o3: map<Ref, seq<Ref>>, th: Ref)
    requires LostUpvals(a, b, o1, o2, th) && LostUpvals(b, c, o2, o3, th)
    ensures LostUpvals(a, c, o1, o3, th)
  {
    assert th in o1 <==> th in o2;
  }

  /** New objects were linked at the front of `allgc`. */
  ghost predicate Pushed(l: seq<Ref>, l': seq<Ref>) {
    |l| <= |l'| && l'[|l'| - |l|..] == l
  }

  lemma {:induction false} PushedTwice(a: seq<Ref>, b: seq<Ref>, c: seq<Ref>)
    requires Pushed(a, b) && Pushed(b, c)
    ensures Pushed(a, c)
  {
    var i, j := |c| - |a|, |c| - |b|;
    assert c[i..] == c[j..][i - j..];
  }

  /** The objects pushed, and the first `n` behind them, have been swept. */
  ghost predicate SweptUpTo(m: Mem, w: bool, open: map<Ref, seq<Ref>>, allgc: seq<Ref>, n: nat) {
    n <= |allgc| && forall i | 0 <= i < n :: Swept(m, w, open, allgc[i])
  }

  lemma {:induction false} SweptPushed(m: Mem, m': Mem, w: bool, open: map<Ref, seq<Ref>>, open': map<Ref, seq<Ref>>,
      l: seq<Ref>, l': seq<Ref>, n: nat)
    requires Advanced(m, m', w, open, open') && Pushed(l, l') && SweptUpTo(m, w, open, l, n)
        && SweptUpTo(m', w, open', l', |l'| - |l|)
    ensures SweptUpTo(m', w, open', l', |l'| - |l| + n)
  {
    hide Advanced, Swept;
    var k := |l'| - |l|;
    forall i | 0 <= i < k + n ensures Swept(m', w, open', l'[i]) {
      if i >= k {
        assert l'[i] == l'[k..][i - k];
        SweptStays(m, m', w, open, open', l[i - k]);
      }
    }
  }

  /** What luaF_close does: upvalues of `th` go, all that is live stays. While
      marking, marked objects stay marked; else the sweeper's work is kept. */
  ghost predicate Closing(m: Mem, m': Mem, w: bool, open: map<Ref, seq<Ref>>, open': map<Ref, seq<Ref>>, l: seq<Ref>,
      l': seq<Ref>, p: Option<nat>, p': Option<nat>, th: Ref, marking: bool)
  {
    && Sane(m') && SameLive(m, m', w) && LostUpvals(m, m', open, open', th) && Pushed(l, l')
    && p' == (if p.Some? then Some(p.value + |l'| - |l|) else None)
    && (marking ==> forall r | Marked(m, r) :: Marked(m', r))
    && (!marking ==> Advanced(m, m', w, open, open') && SweptUpTo(m', w, open', l', |l'| - |l|))
  }

  lemma {:induction false} ClosingTwice(a: Mem, b: Mem, c: Mem, w: bool, o1: map<Ref, seq<Ref>>, o2: map<Ref, seq<Ref>>,
      o3: map<Ref, seq<Ref>>, l1: seq<Ref>, l2: seq<Ref>, l3: seq<Ref>, p1: Option<nat>, p2: Option<nat>,
      p3: Option<nat>, th: Ref, marking: bool)
    requires Closing(a, b, w, o1, o2, l1, l2, p1, p2, th, marking) && Closing(b, c, w, o2, o3, l2, l3, p2, p3, th,
        marking)
    ensures Closing(a, c, w, o1, o3, l1, l3, p1, p3, th, marking)
  {
    hide Sane, SameLive, LostUpvals, Advanced, SweptUpTo, Pushed;
    PushedLength(l1, l2);
    PushedLength(l2, l3);
    SameLiveTwice(a, b, c, w);
    LostTwice(a, b, c, o1, o2, o3, th);
    PushedTwice(l1, l2, l3);
    if !marking {
      SweptPushed(b, c, w, o2, o3, l2, l3, |l2| - |l1|);
      AdvancedTwice(a, b, c, w, o1, o2, o3);
    }
  }

  lemma {:induction false} ClosingSame(m: Mem, w: bool, open: map<Ref, seq<Ref>>, l: seq<Ref>, p: Option<nat>, th: Ref,
      marking: bool)
    requires Sane(m)
    ensures Closing(m, m, w, open, open, l, l, p, p, th, marking)
  {
    hide Sane;
    LoopStarts(m, w, open, l, th);
  }

  lemma {:induction false} ClosedLost(m: Mem, open: map<Ref, seq<Ref>>, th: Ref)
    requires Sane(m) && th in open && open[th] != [] && open[th][0] in m.objs
    ensures LostUpvals(m, ClosedUpval(m, open[th][0]), open, open[th := open[th][1..]], th)
  {
    hide ClosedUpval, Sane;
    ClosedSame(m, open[th][0]);
  }

  lemma {:induction false} FreedLost(m: Mem, open: map<Ref, seq<Ref>>, th: Ref)
    requires th in open && open[th] != []
    ensures LostUpvals(m, Remove(m, open[th][0]), open, open[th := open[th][1..]], th)
  {
  }

  /** What becomes of an upvalue luaF_close takes off the list of its thread: it
      is freed if dead, else moved to `allgc` with the value of its slot. */
  ghost predicate ClosedOrFreed(m: Mem, m': Mem, w: bool, l': seq<Ref>, u: Ref)
    requires u in m.objs
  {
    if Dead(m, w, u) then u !in m'.objs
    else u in l' && u in m'.objs && m'.objs[u] == m.objs[u].(place := Allgc, slots := Slots(m, u))
  }

  /** Some open upvalues of `th` were closed, from the top of its stack down to
      `level`, and nothing else was touched but the stack itself. */
  ghost predicate ClosedSome(m: Mem, m': Mem, w: bool, open: map<Ref, seq<Ref>>, open': map<Ref, seq<Ref>>,
      l': seq<Ref>, th: Ref, level: nat)
  {
    && th in open && open'.Keys == open.Keys && (forall t | t in open && t != th :: open'[t] == open[t])
        && Pushed(open'[th], open[th])
    && (forall u | u in open[th] :: u in m.objs && IsOpen(m.objs[u]))
    && (forall u | u in open[th] && u !in open'[th] :: m.objs[u].place.idx >= level && ClosedOrFreed(m, m', w, l', u))
    && (forall q | q in m.objs && q != th && (q in open[th] ==> q in open'[th]) ::
        q in m'.objs && m'.objs[q] == m.objs[q])
    && (forall q | q in m'.objs :: q in m.objs)
  }

  /** luaF_close: exactly the open upvalues of `th` at `level` or above were closed. */
  ghost predicate ClosedAbove(m: Mem, m': Mem, w: bool, open: map<Ref, seq<Ref>>, open': map<Ref, seq<Ref>>,
      l': seq<Ref>, th: Ref, level: nat)
  {
    && ClosedSome(m, m', w, open, open', l', th, level)
    && forall u | u in open[th] :: u in open'[th] <==> m.objs[u].place.idx < level
  }

  /** One round of luaF_close. */
  ghost predicate OneClosed(m: Mem, m': Mem, w: bool, open: map<Ref, seq<Ref>>, open': map<Ref, seq<Ref>>, l': seq<Ref>,
      th: Ref)
  {
    && th in open && open[th] != [] && open' == open[th := open[th][1..]]
    && var u := open[th][0];
      u in m.objs && m'.objs.Keys == (if Dead(m, w, u) then m.objs.Keys - {u} else m.objs.Keys)
          && ClosedOrFreed(m, m', w, l', u)
      && forall q | q in m.objs && q != u :: q in m'.objs && m'.objs[q] == m.objs[q]
  }

  lemma {:induction false} NoneClosed(m: Mem, w: bool, open: map<Ref, seq<Ref>>, l: seq<Ref>, th: Ref, level: nat)
    requires OpenOk(m.objs, open) && th in open
    ensures ClosedSome(m, m, w, open, open, l, th, level)
  {
    assert OpenList(m.objs, th, open[th]);
  }

  lemma {:induction false} OneMoreClosed(m: Mem, m1: Mem, m2: Mem, w: bool, open: map<Ref, seq<Ref>>, open1: map<Ref,
      seq<Ref>>, open2: map<Ref, seq<Ref>>, l1: seq<Ref>, l2: seq<Ref>, th: Ref, level: nat)
    requires ClosedSome(m, m1, w, open, open1, l1, th, level) && OneClosed(m1, m2, w, open1, open2, l2, th)
    requires SameLive(m, m1, w) && Pushed(l1, l2) && OpenOk(m1.objs, open1) && m1.objs[open1[th][0]].place.Open?
        && m1.objs[open1[th][0]].place.idx >= level
    requires open1[th][0] != th
    ensures ClosedSome(m, m2, w, open, open2, l2, th, level)
  {
    hide Slots, SameLive, ClosedOrFreed, Pushed, Dead, OpenOk;
    var u := open1[th][0];
    TopOfList(m1.objs, open1, th);
    TailPushed(open1[th]);
    PushedTwice(open2[th], open1[th], open[th]);
    PushedIn(open1[th], open[th]);
    assert m1.objs[u] == m.objs[u];
    forall q | q in open[th] && q !in open2[th] ensures m.objs[q].place.idx >= level && ClosedOrFreed(m, m2, w, l2, q) {
      if q == u { NowClosed(m, m1, m2, w, l2, u); } else { StillClosed(m, m1, m2, w, l1, l2, u, q); }
    }
  }

  lemma {:induction false} TopOfList(objs: Objs, open: map<Ref, seq<Ref>>, th: Ref)
    requires OpenOk(objs, open) && th in open && open[th] != []
    ensures open[th][0] !in open[th][1..] && forall q :: q in open[th] <==> q == open[th][0] || q in open[th][1..]
  {
    SortedNoDup(objs, th, open[th]);
    assert open[th] == [open[th][0]] + open[th][1..];
  }

  lemma {:induction false} TailPushed(l: seq<Ref>)
    requires l != []
    ensures Pushed(l[1..], l)
  {
  }

  lemma {:induction false} NowClosed(m: Mem, m1: Mem, m2: Mem, w: bool, l2: seq<Ref>, u: Ref)
    requires SameLive(m, m1, w) && u in m.objs && u in m1.objs && m1.objs[u] == m.objs[u]
        && ClosedOrFreed(m1, m2, w, l2, u)
    ensures ClosedOrFreed(m, m2, w, l2, u)
  {
    hide SameLive, Dead, Slots;
    SameSlots(m, m1, w, u);
  }

  lemma {:induction false} StillClosed(m: Mem, m1: Mem, m2: Mem, w: bool, l1: seq<Ref>, l2: seq<Ref>, u: Ref, q: Ref)
    requires q in m.objs && ClosedOrFreed(m, m1, w, l1, q) && Pushed(l1, l2) && q != u
    requires m2.objs.Keys <= m1.objs.Keys && forall r | r in m1.objs && r != u ::
        r in m2.objs && m2.objs[r] == m1.objs[r]
    ensures ClosedOrFreed(m, m2, w, l2, q)
  {
    hide Dead, Slots, Pushed;
    PushedIn(l1, l2);
  }

  /** A thread is no upvalue. */
  lemma {:induction false} NotUpval(m: Mem, open: map<Ref, seq<Ref>>, th: Ref)
    requires OpenOk(m.objs, open) && th in open && Sane(m)
    ensures th !in open[th]
  {
    assert OpenList(m.objs, th, open[th]);
    assert th in m.objs ==> SaneObj(m, th);
  }

  lemma {:induction false} PushedIn(l: seq<Ref>, l': seq<Ref>)
    requires Pushed(l, l')
    ensures forall q | q in l :: q in l'
  {
    assert l' == l'[..|l'| - |l|] + l;
  }

  lemma {:induction false} SameSlots(m: Mem, m': Mem, w: bool, u: Ref)
    requires SameLive(m, m', w) && u in m.objs && u in m'.objs
    ensures Dead(m', w, u) <==> Dead(m, w, u)
    ensures !Dead(m, w, u) ==> Slots(m', u) == Slots(m, u)
  {
    assert u in Live(m, w) <==> u in Live(m', w);
  }

  lemma {:induction false} AllClosed(m: Mem, m': Mem, w: bool, open: map<Ref, seq<Ref>>, open': map<Ref, seq<Ref>>,
      l': seq<Ref>, th: Ref, level: nat)
    requires ClosedSome(m, m', w, open, open', l', th, level) && th !in open[th]
    requires forall u | u in open'[th] :: u in m'.objs && IsOpen(m'.objs[u]) && m'.objs[u].place.idx < level
    ensures ClosedAbove(m, m', w, open, open', l', th, level)
  {
    hide Dead, Slots;
    forall u | u in open[th] && u in open'[th] ensures m.objs[u].place.idx < level { assert m'.objs[u] == m.objs[u]; }
  }

  /** While marking nothing is dead, so nothing can be freed. */
  lemma {:induction false} NoneDead(m: Mem, w: bool, gray: seq<Ref>, grayagain: seq<Ref>, x: set<Ref>, c: Scope)
    requires Tri(m, w, gray, grayagain, x, c)
    ensures Live(m, w) == m.objs.Keys && forall r :: !Dead(m, w, r)
  {
    hide GrayOk, Done, GrayLists, AgainDone, Closed, CachesIn;
    forall r | r in m.objs ensures !Dead(m, w, r) { assert ObjOk(m, w, gray, grayagain, x, c, r); }
  }

  /** Marking changes colours only. */
  lemma {:induction false} RecolouredLive(m: Mem, m1: Mem, m2: Mem, w: bool)
    requires SameLive(m, m1, w) && m2.objs == m1.objs && m2.cache == m1.cache && Live(m2, w) == Live(m1, w)
    ensures SameLive(m, m2, w)
  {
    hide Slots;
    forall r | r in m1.objs ensures Slots(m2, r) == Slots(m1, r) { SlotsSame(m1, m2, r); }
  }

  lemma {:induction false} TriSafe(m: Mem, w: bool, gray: seq<Ref>, grayagain: seq<Ref>, x: set<Ref>, c: Scope,
      roots: set<Ref>)
    requires Tri(m, w, gray, grayagain, x, c) && roots <= m.objs.Keys
    ensures Safe(m, w, roots)
  {
    hide AllOk, GrayLists, AgainDone;
    NoneDead(m, w, gray, grayagain, x, c);
  }

  lemma {:induction false} AdvancedFacts(m: Mem, m': Mem, w: bool, open: map<Ref, seq<Ref>>, open': map<Ref, seq<Ref>>)
    requires Advanced(m, m', w, open, open')
    ensures Sane(m') && SameLive(m, m', w)
  {
  }

  lemma {:induction false} TriSane(m: Mem, w: bool, gray: seq<Ref>, grayagain: seq<Ref>, x: set<Ref>, c: Scope)
    requires Tri(m, w, gray, grayagain, x, c)
    ensures Sane(m)
  {
  }

  lemma {:induction false} LostRecoloured(m: Mem, m1: Mem, m2: Mem, open: map<Ref, seq<Ref>>, open': map<Ref, seq<Ref>>,
      th: Ref)
    requires LostUpvals(m, m1, open, open', th) && m2.objs == m1.objs
    ensures LostUpvals(m, m2, open, open', th)
  {
  }

  lemma {:induction false} ThreadsOnly(objs: Objs, open: map<Ref, seq<Ref>>, allgc: seq<Ref>, strt: seq<seq<Ref>>,
      uvhead: seq<Ref>, main: Ref, out: set<Ref>, u: Ref)
    requires Linked(objs, open, allgc, strt, uvhead, main, out)
    ensures u in open <==> u in objs && objs[u].kind == KThread
  {
    hide AllgcOk, StrtOk, MainOk, UvheadOk;
  }

  lemma {:induction false} PushedOne(l: seq<Ref>, u: Ref)
    ensures Pushed(l, [u] + l)
  {
  }

  lemma {:induction false} KeptMarking(m0: Mem, m1: Mem, m2: Mem, w: bool, gray0: seq<Ref>, gray: seq<Ref>,
      grayagain: seq<Ref>, c: Scope)
    requires Tri(m0, w, gray0, grayagain, {}, c) && Tri(m2, w, gray, grayagain, {}, c)
    requires SameLive(m0, m1, w) && m1.objs.Keys == m0.objs.Keys && m2.objs == m1.objs && m2.cache == m1.cache
    ensures Sane(m2) && SameLive(m0, m2, w)
  {
    hide Tri, SameLive;
    TriSane(m2, w, gray, grayagain, {}, c);
    NoneDead(m0, w, gray0, grayagain, {}, c);
    NoneDead(m2, w, gray, grayagain, {}, c);
    SameLiveKeys(m0, m1, w);
    RecolouredLive(m0, m1, m2, w);
  }

  lemma {:induction false} SameLiveKeys(m0: Mem, m1: Mem, w: bool)
    requires SameLive(m0, m1, w)
    ensures Live(m1, w) == Live(m0, w)
  {
  }

  lemma {:induction false} KeptSweeping(m0: Mem, m1: Mem, m2: Mem, w: bool, open: map<Ref, seq<Ref>>, open': map<Ref,
      seq<Ref>>, u: Ref)
    requires Advanced(m0, m1, w, open, open') && u in m1.objs && u in m1.col && !Dead(m1, w, u)
    requires m2 == if m1.col[u] == Gray then Paint(m1, u, WhiteOf(w)) else m1
    ensures Advanced(m0, m2, w, open, open') && Sane(m2) && SameLive(m0, m2, w)
  {
    hide Advanced, SameLive, Sane;
    AdvancedFacts(m0, m1, w, open, open');
    if m1.col[u] == Gray { Whitened(m1, w, open', u); } else { AdvancedSame(m1, w, open'); }
    AdvancedTwice(m0, m1, m2, w, open, open', open');
    AdvancedFacts(m0, m2, w, open, open');
  }

  /** The topmost open upvalue of `th` closes: the lists, and all that stays. */
  lemma {:induction false} UpvalCloses(m: Mem, w: bool, open: map<Ref, seq<Ref>>, allgc: seq<Ref>, strt: seq<seq<Ref>>,
      uvhead: seq<Ref>, main: Ref, out: set<Ref>, th: Ref)
    requires Linked(m.objs, open, allgc, strt, uvhead, main, out) && Sane(m) && th in open && open[th] != []
    requires open[th][0] in m.objs && IsOpen(m.objs[open[th][0]])
    ensures Linked(ClosedUpval(m, open[th][0]).objs, open[th := open[th][1..]], [open[th][0]] + allgc, strt,
        Unlink(uvhead, open[th][0]), main, out)
    ensures Advanced(m, ClosedUpval(m, open[th][0]), w, open, open[th := open[th][1..]])
    ensures Sane(ClosedUpval(m, open[th][0])) && SameLive(m, ClosedUpval(m, open[th][0]), w)
    ensures LostUpvals(m, ClosedUpval(m, open[th][0]), open, open[th := open[th][1..]], th)
    ensures ClosedUpval(m, open[th][0]).objs.Keys == m.objs.Keys && ClosedUpval(m, open[th][0]).col == m.col
    ensures ClosedUpval(m, open[th][0]).cache == m.cache
    ensures ClosedUpval(m, open[th][0]).objs[open[th][0]] == m.objs[open[th][0]].(place := Allgc,
        slots := Slots(m, open[th][0]))
    ensures open[th][0] !in open
  {
    hide Linked, Sane, Advanced, SameLive, LostUpvals, ClosedUpval, Slots;
    var u := open[th][0];
    OpenKind(m, u);
    LinkClose(m.objs, open, allgc, strt, uvhead, main, out, th, Slots(m, u));
    ClosedSane(m, u);
    ClosedSame(m, u);
    ClosedLost(m, open, th);
    ClosedAdvanced(m, w, open, open[th := open[th][1..]], u);
    AdvancedFacts(m, ClosedUpval(m, u), w, open, open[th := open[th][1..]]);
    ThreadsOnly(m.objs, open, allgc, strt, uvhead, main, out, u);
  }

  lemma {:induction false} SweptOne(m: Mem, w: bool, open: map<Ref, seq<Ref>>, allgc: seq<Ref>, u: Ref)
    requires u in m.col && m.col[u] == WhiteOf(w) && u !in open
    ensures SweptUpTo(m, w, open, [u] + allgc, 1)
  {
  }

  lemma {:induction false} SaneKeys(m: Mem)
    requires Sane(m)
    ensures m.col.Keys == m.objs.Keys && NIL !in m.objs
  {
  }

  /** The list of a thread is ordered: below the first entry under `level` all are. */
  lemma {:induction false} BelowLevel(objs: Objs, open: map<Ref, seq<Ref>>, th: Ref, level: nat)
    requires OpenOk(objs, open) && th in open
    requires open[th] != [] && open[th][0] in objs && IsOpen(objs[open[th][0]]) ==> objs[open[th][0]].place.idx < level
    ensures forall u | u in open[th] :: u in objs && IsOpen(objs[u]) && objs[u].place.idx < level
  {
    assert OpenList(objs, th, open[th]);
    assert open[th] != [] ==> open[th][0] in open[th];
  }

  lemma {:induction false} NoHome(objs: Objs, open: map<Ref, seq<Ref>>, r: Ref)
    requires OpenOk(objs, open) && (r in open ==> open[r] == []) && forall q | q in objs && IsOpen(objs[q]) ::
        objs[q].place.th in objs && objs[objs[q].place.th].kind == KThread
    ensures forall q | q in objs && IsOpen(objs[q]) :: objs[q].place.th != r
  {
    forall q | q in objs && IsOpen(objs[q]) ensures objs[q].place.th != r {
      var th := objs[q].place.th;
      assert th in open && OpenList(objs, th, open[th]);
      assert q in open[th];
    }
  }

  /** Freeing a dead object that is in no list any more. */
  lemma {:induction false} FreedOut(m: Mem, w: bool, open: map<Ref, seq<Ref>>, allgc: seq<Ref>, strt: seq<seq<Ref>>,
      uvhead: seq<Ref>, main: Ref, out: set<Ref>, r: Ref)
    requires Linked(m.objs, open, allgc, strt, uvhead, main, out) && Sane(m) && r in out && Dead(m, w, r)
        && m.objs[r].place == Allgc
    requires r in open ==> open[r] == []
    ensures Linked(m.objs - {r}, open - {r}, allgc, strt, uvhead, main, out - {r})
    ensures Advanced(m, Remove(m, r), w, open, open - {r})
  {
    hide AllgcOk, StrtOk, MainOk, OpenOk, UvheadOk;
    LinkFreeOut(m.objs, open, allgc, strt, uvhead, main, out, r);
    NoHome(m.objs, open, r);
    Freed(m, w, open, open - {r}, r);
  }

  lemma {:induction false} StillDead(m: Mem, m': Mem, w: bool, open: map<Ref, seq<Ref>>, open': map<Ref, seq<Ref>>,
      th: Ref, r: Ref)
    requires Advanced(m, m', w, open, open') && LostUpvals(m, m', open, open', th) && Dead(m, w, r) && (th in open
        ==> r !in open[th])
    ensures Dead(m', w, r) && m'.objs[r] == m.objs[r]
  {
    hide Sane;
    assert r !in Live(m, w);
  }

  lemma {:induction false} NotOpenIn(objs: Objs, open: map<Ref, seq<Ref>>, allgc: seq<Ref>, strt: seq<seq<Ref>>,
      uvhead: seq<Ref>, main: Ref, out: set<Ref>, th: Ref, r: Ref)
    requires Linked(objs, open, allgc, strt, uvhead, main, out) && th in open && r in objs && !IsOpen(objs[r])
    ensures r !in open[th]
  {
    hide AllgcOk, StrtOk, MainOk, UvheadOk;
    assert OpenList(objs, th, open[th]);
  }

  lemma {:induction false} PushedLength(l: seq<Ref>, l': seq<Ref>)
    requires Pushed(l, l')
    ensures |l| <= |l'|
  {
  }

  lemma {:induction false} LoopStarts(m: Mem, w: bool, open: map<Ref, seq<Ref>>, allgc: seq<Ref>, th: Ref)
    requires Sane(m)
    ensures SameLive(m, m, w) && LostUpvals(m, m, open, open, th) && Advanced(m, m, w, open, open)
    ensures Pushed(allgc, allgc) && SweptUpTo(m, w, open, allgc, 0)
  {
  }

  // ----- sweeplist -----

  /** Freeing element `i` of the list of open upvalues of a live thread. */
  lemma {:induction false} OpenFreed(m: Mem, w: bool, open: map<Ref, seq<Ref>>, allgc: seq<Ref>, strt: seq<seq<Ref>>,
      uvhead: seq<Ref>, main: Ref, out: set<Ref>, th: Ref, i: nat)
    requires Linked(m.objs, open, allgc, strt, uvhead, main, out) && Sane(m) && th in open && i < |open[th]|
        && Dead(m, w, open[th][i])
    ensures var u, open' := open[th][i], open[th := RemoveAt(open[th], i)];
      Linked(Remove(m, u).objs, open', allgc, strt, Unlink(uvhead, u), main, out) && Advanced(m, Remove(m, u), w, open,
          open') && Sane(Remove(m, u))
  {
    hide AllgcOk, StrtOk, MainOk, OpenOk, UvheadOk, Advanced, Sane, OpenList;
    var u, open' := open[th][i], open[th := RemoveAt(open[th], i)];
    assert u in open[th];
    OpenMember(m.objs, open, th, u);
    OpenKind(m, u);
    LinkFreeOpen(m.objs, open, allgc, strt, uvhead, main, out, th, i);
    assert out - {u} == out by { NotOut(m.objs, allgc, out, u); }
    HomesAreThreads(m);
    Freed(m, w, open, open', u);
    AdvancedFacts(m, Remove(m, u), w, open, open');
  }

  lemma {:induction false} NotOut(objs: Objs, allgc: seq<Ref>, out: set<Ref>, u: Ref)
    requires AllgcOk(objs, allgc, out) && u in objs && objs[u].place != Allgc
    ensures u !in out
  {
  }

  lemma {:induction false} HomesAreThreads(m: Mem)
    requires Sane(m)
    ensures forall q | q in m.objs && IsOpen(m.objs[q]) ::
        m.objs[q].kind == KUpval && m.objs[q].place.th in m.objs && m.objs[m.objs[q].place.th].kind == KThread
  {
  }

  /** Freeing element `i` of a bucket of the string table. */
  lemma {:induction false} StringFreed(m: Mem, w: bool, open: map<Ref, seq<Ref>>, allgc: seq<Ref>, strt: seq<seq<Ref>>,
      uvhead: seq<Ref>, main: Ref, out: set<Ref>, b: nat, i: nat)
    requires Linked(m.objs, open, allgc, strt, uvhead, main, out) && Sane(m) && b < |strt| && i < |strt[b]|
        && Dead(m, w, strt[b][i])
    ensures var u := strt[b][i];
      Linked(Remove(m, u).objs, open, allgc, strt[b := RemoveAt(strt[b], i)], uvhead, main, out)
          && Advanced(m, Remove(m, u), w, open, open) && Sane(Remove(m, u))
  {
    hide AllgcOk, StrtOk, MainOk, OpenOk, UvheadOk, Advanced, Sane, OpenList;
    var u := strt[b][i];
    LinkFreeString(m.objs, open, allgc, strt, uvhead, main, out, b, i);
    assert out - {u} == out by { NotOut(m.objs, allgc, out, u); }
    HomesAreThreads(m);
    Freed(m, w, open, open, u);
    AdvancedFacts(m, Remove(m, u), w, open, open);
  }

  /** Every object in the list has been swept. */
  ghost predicate AllWhite(m: Mem, w: bool, l: seq<Ref>) {
    forall u | u in l :: u in m.col && m.col[u] == WhiteOf(w)
  }

  lemma {:induction false} WhiteStays(m: Mem, m': Mem, w: bool, open: map<Ref, seq<Ref>>, open': map<Ref, seq<Ref>>,
      l: seq<Ref>)
    requires Advanced(m, m', w, open, open') && AllWhite(m, w, l)
    ensures AllWhite(m', w, l)
  {
    hide Sane, SameLive;
  }

  lemma {:induction false} OneWhiter(m: Mem, w: bool, l: seq<Ref>, i: nat)
    requires Sane(m) && i < |l| && AllWhite(m, w, l[..i])
    ensures AllWhite(Paint(m, l[i], WhiteOf(w)), w, l[..i + 1])
  {
    hide Sane;
    assert forall u | u in l[..i + 1] :: u in l[..i] || u == l[i];
  }

  lemma {:induction false} NoneWhite(m: Mem, w: bool, l: seq<Ref>)
    ensures AllWhite(m, w, l[..0])
  {
  }

  lemma {:induction false} RemoveAtPrefix(l: seq<Ref>, i: nat)
    requires i < |l|
    ensures RemoveAt(l, i)[..i] == l[..i]
  {
  }

  lemma {:induction false} ElementThere(objs: Objs, open: map<Ref, seq<Ref>>, allgc: seq<Ref>, strt: seq<seq<Ref>>,
      uvhead: seq<Ref>, main: Ref, out: set<Ref>, th: Ref, i: nat)
    requires Linked(objs, open, allgc, strt, uvhead, main, out) && th in open && i < |open[th]|
    ensures open[th][i] in objs
  {
    assert open[th][i] in open[th];
    OpenMember(objs, open, th, open[th][i]);
  }

  lemma {:induction false} StringThere(objs: Objs, open: map<Ref, seq<Ref>>, allgc: seq<Ref>, strt: seq<seq<Ref>>,
      uvhead: seq<Ref>, main: Ref, out: set<Ref>, b: nat, i: nat)
    requires Linked(objs, open, allgc, strt, uvhead, main, out) && b < |strt| && i < |strt[b]|
    ensures strt[b][i] in objs
  {
    assert strt[b][i] in strt[b];
  }

  lemma {:induction false} SweptPrefixStays(m: Mem, m': Mem, w: bool, open: map<Ref, seq<Ref>>, open': map<Ref,
      seq<Ref>>, l: seq<Ref>, n: nat)
    requires Advanced(m, m', w, open, open') && SweptUpTo(m, w, open, l, n)
    ensures SweptUpTo(m', w, open', l, n)
  {
    hide Advanced, Swept;
    forall i | 0 <= i < n ensures Swept(m', w, open', l[i]) { SweptStays(m, m', w, open, open', l[i]); }
  }

  lemma {:induction false} AdvancedSize(m: Mem, m': Mem, w: bool, open: map<Ref, seq<Ref>>, open': map<Ref, seq<Ref>>)
    requires Advanced(m, m', w, open, open')
    ensures |m'.objs| <= |m.objs| && (m'.objs.Keys != m.objs.Keys ==> |m'.objs| < |m.objs|)
  {
    hide Sane, SameLive;
    SubsetSize(m'.objs.Keys, m.objs.Keys);
  }

  /** The prefix swept so far, once the next object has been taken out. */
  lemma {:induction false} SweptTakenOut(m: Mem, w: bool, open: map<Ref, seq<Ref>>, l: seq<Ref>, p: nat)
    requires p < |l| && SweptUpTo(m, w, open, l, p)
    ensures SweptUpTo(m, w, open, RemoveAt(l, p), p)
  {
    hide Swept;
    forall i | 0 <= i < p ensures Swept(m, w, open, RemoveAt(l, p)[i]) { assert RemoveAt(l, p)[i] == l[i]; }
  }

  lemma {:induction false} StillLive(m: Mem, m': Mem, w: bool, open: map<Ref, seq<Ref>>, open': map<Ref, seq<Ref>>,
      r: Ref)
    requires Advanced(m, m', w, open, open') && r in m.objs && !Dead(m, w, r)
    ensures r in m'.objs && !Dead(m', w, r)
  {
    hide Sane, Advanced;
    AdvancedFacts(m, m', w, open, open');
    assert r in Live(m, w);
  }

  /** A live object turns white after the upvalues of its stack did. */
  lemma {:induction false} SweptNext(m: Mem, w: bool, open: map<Ref, seq<Ref>>, l: seq<Ref>, p: nat)
    requires Sane(m) && p < |l| && SweptUpTo(m, w, open, l, p) && l[p] in m.objs && !Dead(m, w, l[p])
    requires l[p] in open ==> AllWhite(m, w, open[l[p]])
    ensures Advanced(m, Paint(m, l[p], WhiteOf(w)), w, open, open) && Sane(Paint(m, l[p], WhiteOf(w)))
    ensures SweptUpTo(Paint(m, l[p], WhiteOf(w)), w, open, l, p + 1)
  {
    hide Advanced, Sane, Slots;
    var m' := Paint(m, l[p], WhiteOf(w));
    Whitened(m, w, open, l[p]);
    AdvancedFacts(m, m', w, open, open);
    SweptPrefixStays(m, m', w, open, open, l, p);
    if l[p] in open { WhiteStays(m, m', w, open, open, open[l[p]]); }
  }

  lemma {:induction false} SweptLength(m: Mem, w: bool, open: map<Ref, seq<Ref>>, l: seq<Ref>, n: nat)
    requires SweptUpTo(m, w, open, l, n)
    ensures n <= |l|
  {
  }

  lemma {:induction false} SweptNone(m: Mem, w: bool, open: map<Ref, seq<Ref>>, l: seq<Ref>)
    ensures SweptUpTo(m, w, open, l, 0)
  {
  }

  /** With every list swept, every object is white. */
  lemma {:induction false} AllSwept(m: Mem, w: bool, open: map<Ref, seq<Ref>>, allgc: seq<Ref>, strt: seq<seq<Ref>>,
      uvhead: seq<Ref>, main: Ref)
    requires Linked(m.objs, open, allgc, strt, uvhead, main, {}) && Sane(m) && SweptUpTo(m, w, open, allgc, |allgc|)
    requires (forall b | 0 <= b < |strt| :: AllWhite(m, w, strt[b])) && Swept(m, w, open, main)
    ensures forall r | r in m.objs :: r in m.col && m.col[r] == WhiteOf(w)
  {
    hide Slots;
    HomesAreThreads(m);
    forall r | r in m.objs ensures r in m.col && m.col[r] == WhiteOf(w) {
      match m.objs[r].place
      case Allgc => InAllgc(m, w, open, allgc, r);
      case InTable(hash) => assert r in strt[Lmod(hash, |strt|)] && AllWhite(m, w, strt[Lmod(hash, |strt|)]);
      case Main => assert r == main;
      case Open(th, _) =>
        assert th in open && OpenList(m.objs, th, open[th]) && r in open[th];
        if m.objs[th].place == Allgc { InAllgc(m, w, open, allgc, th); }
    }
  }

  lemma {:induction false} InAllgc(m: Mem, w: bool, open: map<Ref, seq<Ref>>, allgc: seq<Ref>, r: Ref)
    requires AllgcOk(m.objs, allgc, {}) && r in m.objs && m.objs[r].place == Allgc && SweptUpTo(m, w, open, allgc,
        |allgc|)
    ensures Swept(m, w, open, r)
  {
    assert r in allgc;
  }

  datatype Phase = Propagate | Atomic | SweepString | SweepUdata | Sweep | Pause

  predicate Sweeping(p: Phase) {
    p == SweepString || p == SweepUdata || p == Sweep
  }

  /** How far the sweeper got; new objects are linked in front of `sweepgc`. */
  ghost predicate Progress(m: Mem, w: bool, open: map<Ref, seq<Ref>>, allgc: seq<Ref>, strt: seq<seq<Ref>>, p: Phase,
      sweepstrgc: nat, sweepgc: Option<nat>)
  {
    && SweptUpTo(m, w, open, allgc, if sweepgc.Some? then sweepgc.value else |allgc|)
    && (sweepgc.Some? ==> 0 < sweepgc.value)
    && forall b | 0 <= b < |strt| && (p == SweepString ==> b < sweepstrgc) :: AllWhite(m, w, strt[b])
  }

  /** What holds in each phase of the collector. */
  ghost predicate PhaseOk(m: Mem, w: bool, gray: seq<Ref>, grayagain: seq<Ref>, open: map<Ref, seq<Ref>>,
      allgc: seq<Ref>, strt: seq<seq<Ref>>, p: Phase, sweepstrgc: nat, sweepgc: Option<nat>, main: Ref)
  {
    && p != Atomic
    && (p == Propagate
        ==> Tri(m, w, gray, grayagain, {}, Scope([], m.objs.Keys, false, m.objs.Keys)) && Marked(m, main))
    && (Sweeping(p) ==> Progress(m, w, open, allgc, strt, p, sweepstrgc, sweepgc))
    && (p == Pause ==> forall r | r in m.objs :: r in m.col && m.col[r] == WhiteOf(w))
  }

  /** A whole state of the collector, and the roots of the program. */
  datatype GcState = GcState(mem: Mem, white: bool, gray: seq<Ref>, grayagain: seq<Ref>, open: map<Ref, seq<Ref>>,
      allgc: seq<Ref>, strt: seq<seq<Ref>>,
                             uvhead: seq<Ref>, phase: Phase, sweepstrgc: nat, sweepgc: Option<nat>, main: Ref,
                                 roots: set<Ref>)

  /** All that holds between two steps of the program or the collector. */
  ghost predicate StateOk(g: GcState) {
    && Linked(g.mem.objs, g.open, g.allgc, g.strt, g.uvhead, g.main, {}) && Safe(g.mem, g.white, g.roots)
    && PhaseOk(g.mem, g.white, g.gray, g.grayagain, g.open, g.allgc, g.strt, g.phase, g.sweepstrgc, g.sweepgc, g.main)
  }

  /** Nothing but what is reachable, and fixed strings, will outlive the cycle. */
  ghost predicate Exact(m: Mem, w: bool, p: Phase, roots: set<Ref>) {
    if p == Propagate then forall r | Marked(m, r) :: r in ReachSet(m, roots)
    else forall r | r in Live(m, w) :: r in ReachSet(m, roots) || m.objs[r].fixed
  }

  lemma {:induction false} ExactStays(m: Mem, m': Mem, w: bool, p: Phase, roots: set<Ref>)
    requires Safe(m, w, roots) && SameLive(m, m', w) && p != Propagate && Exact(m, w, p, roots)
    ensures Exact(m', w, p, roots)
  {
    SameLiveReach(m, m', w, roots);
  }

  // ----- What the single steps need -----

  lemma {:induction false} RootsThere(m: Mem, w: bool, roots: set<Ref>)
    requires Safe(m, w, roots)
    ensures roots <= m.objs.Keys && NIL !in m.objs && Sane(m)
  {
    hide Sane, Closed, CachesIn;
    SaneKeys(m);
  }

  /** The invariant between two steps of marking, from the one inside them. */
  lemma {:induction false} PropagateOk(m: Mem, w: bool, gray: seq<Ref>, grayagain: seq<Ref>, ups: set<Ref>,
      reach: set<Ref>, roots: set<Ref>)
    requires Tri(m, w, gray, grayagain, {}, Scope([], ups, false, reach)) && ups <= m.objs.Keys && roots <= m.objs.Keys
    ensures Tri(m, w, gray, grayagain, {}, Scope([], m.objs.Keys, false, m.objs.Keys))
    ensures Safe(m, w, roots) && forall r | Marked(m, r) :: r in reach
  {
    hide AllOk, GrayLists, AgainDone, Safe, Closed, CachesIn, Sane;
    var c := Scope([], ups, false, reach);
    AllKeys(m, reach);
    Rescope(m, w, gray, grayagain, c, m.objs.Keys);
    MoreUps(m, w, gray, grayagain, c.(reach := m.objs.Keys), m.objs.Keys);
    TriSafe(m, w, gray, grayagain, {}, c, roots);
  }

  /** The set marking may stay in: what is reachable, if nothing else is marked yet. */
  ghost function Bound(m: Mem, roots: set<Ref>): set<Ref> {
    if forall r | Marked(m, r) :: r in ReachSet(m, roots) then ReachSet(m, roots) else m.objs.Keys
  }

  lemma {:induction false} BoundOk(m: Mem, w: bool, gray: seq<Ref>, grayagain: seq<Ref>, roots: set<Ref>)
    requires Tri(m, w, gray, grayagain, {}, Scope([], m.objs.Keys, false, m.objs.Keys)) && Safe(m, w, roots)
    ensures Tri(m, w, gray, grayagain, {}, Scope([], m.objs.Keys, false, Bound(m, roots)))
    ensures roots <= Bound(m, roots) && roots <= m.objs.Keys
    ensures Exact(m, w, Propagate, roots) ==> Bound(m, roots) == ReachSet(m, roots)
  {
    hide Tri, Safe, ReachSet;
    RootsThere(m, w, roots);
    ReachClosed(m, w, roots);
    if Bound(m, roots) == ReachSet(m, roots) && (forall r | Marked(m, r) :: r in ReachSet(m, roots)) {
      Rescope(m, w, gray, grayagain, Scope([], m.objs.Keys, false, m.objs.Keys), ReachSet(m, roots));
    }
  }

  lemma {:induction false} PhaseMarking(m: Mem, w: bool, gray: seq<Ref>, grayagain: seq<Ref>, open: map<Ref, seq<Ref>>,
      allgc: seq<Ref>, strt: seq<seq<Ref>>, sweepstrgc: nat, sweepgc: Option<nat>, main: Ref, ups: set<Ref>,
      reach: set<Ref>, roots: set<Ref>)
    requires Tri(m, w, gray, grayagain, {}, Scope([], ups, false, reach)) && ups <= m.objs.Keys && roots <= m.objs.Keys
        && Marked(m, main)
    ensures PhaseOk(m, w, gray, grayagain, open, allgc, strt, Propagate, sweepstrgc, sweepgc, main)
    ensures Safe(m, w, roots) && (reach == ReachSet(m, roots) ==> Exact(m, w, Propagate, roots))
  {
    hide Tri, Safe, ReachSet;
    PropagateOk(m, w, gray, grayagain, ups, reach, roots);
  }

  lemma {:induction false} SafeSane(m: Mem, w: bool, roots: set<Ref>)
    requires Safe(m, w, roots)
    ensures Sane(m)
  {
  }

  lemma {:induction false} PhaseSwept(m0: Mem, m: Mem, w: bool, gray: seq<Ref>, grayagain: seq<Ref>, open0: map<Ref,
      seq<Ref>>, open: map<Ref, seq<Ref>>, allgc: seq<Ref>, strt: seq<seq<Ref>>, phase: Phase, n: nat, p: Option<nat>,
      main: Ref, roots: set<Ref>)
    requires Safe(m0, w, roots) && Advanced(m0, m, w, open0, open)
    requires phase == Pause || Sweeping(phase)
    requires if phase == Pause then forall r | r in m.objs :: r in m.col && m.col[r] == WhiteOf(w)
        else Progress(m, w, open, allgc, strt, phase, n, p)
    ensures Safe(m, w, roots) && SameLive(m0, m, w) && SameReach(m0, m, roots)
    ensures PhaseOk(m, w, gray, grayagain, open, allgc, strt, phase, n, p, main)
  {
    hide Safe, ReachSet, Progress, Advanced, SameLive, SameReach;
    AdvancedFacts(m0, m, w, open0, open);
    AdvancedSafe(m0, m, w, open0, open, roots);
    SameLiveSameReach(m0, m, w, roots);
  }
  lemma {:induction false} SweptStrings(m: Mem, m': Mem, w: bool, open: map<Ref, seq<Ref>>, open': map<Ref, seq<Ref>>,
      strt: seq<seq<Ref>>)
    requires Advanced(m, m', w, open, open')
    ensures forall b | 0 <= b < |strt| && AllWhite(m, w, strt[b]) :: AllWhite(m', w, strt[b])
  {
    hide Advanced, AllWhite;
    forall b | 0 <= b < |strt| && AllWhite(m, w, strt[b]) ensures AllWhite(m', w, strt[b]) {
      WhiteStays(m, m', w, open, open', strt[b]);
    }
  }

  lemma {:induction false} MainAlive(m: Mem, w: bool, roots: set<Ref>, main: Ref)
    requires Safe(m, w, roots) && main in roots
    ensures main in m.objs && !Dead(m, w, main)
  {
    hide Sane, Closed, CachesIn;
  }

  /** The last step: the main thread turns white, and so all objects are. */
  lemma {:induction false} MainSwept(m0: Mem, m: Mem, w: bool, open0: map<Ref, seq<Ref>>, open: map<Ref, seq<Ref>>,
      allgc: seq<Ref>, strt: seq<seq<Ref>>, uvhead: seq<Ref>, main: Ref)
    requires Linked(m.objs, open, allgc, strt, uvhead, main, {}) && Advanced(m0, m, w, open0, open) && main in m.objs
        && !Dead(m, w, main)
    requires SweptUpTo(m0, w, open0, allgc, |allgc|) && forall b | 0 <= b < |strt| :: AllWhite(m0, w, strt[b])
    requires main in open && AllWhite(m, w, open[main])
    ensures Advanced(m, Paint(m, main, WhiteOf(w)), w, open, open)
    ensures var m' := Paint(m, main, WhiteOf(w)); forall r | r in m'.objs :: r in m'.col && m'.col[r] == WhiteOf(w)
  {
    hide Linked, Advanced, SweptUpTo, Slots, Sane;
    var m' := Paint(m, main, WhiteOf(w));
    AdvancedFacts(m0, m, w, open0, open);
    Whitened(m, w, open, main);
    AdvancedTwice(m0, m, m', w, open0, open, open);
    AdvancedFacts(m0, m', w, open0, open);
    SweptPrefixStays(m0, m', w, open0, open, allgc, |allgc|);
    SweptStrings(m0, m', w, open0, open, strt);
    WhiteStays(m, m', w, open, open, open[main]);
    AllSwept(m', w, open, allgc, strt, uvhead, main);
  }

  /** What the phase of a sweeping step says about its lists. */
  lemma {:induction false} PhaseProgress(m: Mem, w: bool, gray: seq<Ref>, grayagain: seq<Ref>, open: map<Ref, seq<Ref>>,
      allgc: seq<Ref>, strt: seq<seq<Ref>>, phase: Phase, n: nat, p: Option<nat>, main: Ref, roots: set<Ref>)
    requires PhaseOk(m, w, gray, grayagain, open, allgc, strt, phase, n, p, main) && Sweeping(phase)
        && Safe(m, w, roots)
    ensures SweptUpTo(m, w, open, allgc, if p.Some? then p.value else |allgc|) && (p.Some? ==> 0 < p.value)
    ensures (forall b | 0 <= b < |strt| && (phase == SweepString ==> b < n) :: AllWhite(m, w, strt[b])) && Sane(m)
  {
  }

  lemma {:induction false} ProgressAdvanced(m0: Mem, m: Mem, w: bool, open0: map<Ref, seq<Ref>>, open: map<Ref,
      seq<Ref>>, allgc: seq<Ref>, strt: seq<seq<Ref>>, n: nat, p: Option<nat>, phase: Phase)
    requires Advanced(m0, m, w, open0, open) && SweptUpTo(m, w, open, allgc, if p.Some? then p.value else |allgc|)
        && (p.Some? ==> 0 < p.value)
    requires forall b | 0 <= b < |strt| && (phase == SweepString ==> b < n) :: AllWhite(m0, w, strt[b])
    ensures Progress(m, w, open, allgc, strt, phase, n, p)
  {
    hide Advanced, SweptUpTo, AllWhite;
    SweptStrings(m0, m, w, open0, open, strt);
  }

  lemma {:induction false} AtomicExact(m: Mem, w: bool, roots: set<Ref>, reach: set<Ref>)
    requires reach == ReachSet(m, roots) && forall r | r in Live(m, w) :: r in reach || m.objs[r].fixed
    ensures Exact(m, w, SweepString, roots)
  {
    hide ReachSet;
  }

  // ----- Progress of a cycle -----

  function Rank(p: Phase): nat {
    match p
    case Atomic => 5
    case Propagate => 4
    case SweepString => 3
    case SweepUdata => 2
    case Sweep => 1
    case Pause => 0
  }

  /** What is left to do in a phase: white objects while marking, then chains
      of the string table, then objects. */
  function Left(m: Mem, strt: seq<seq<Ref>>, p: Phase, sweepstrgc: nat): nat {
    match p
    case Propagate => |Whites(m)|
    case SweepString => if sweepstrgc < |strt| then |strt| - sweepstrgc else 0
    case Sweep => |m.objs|
    case _ => 0
  }

  /** ... and the gray list, or the rest of `allgc`. */
  function Rest(p: Phase, gray: seq<Ref>, allgc: seq<Ref>, sweepgc: Option<nat>): nat {
    if p == Propagate then |gray|
    else if p == Sweep && sweepgc.Some? && sweepgc.value < |allgc| then |allgc| - sweepgc.value + 1
    else if p == Sweep && sweepgc.Some? then 1
    else 0
  }

  lemma {:induction false} ExactSame(m: Mem, m': Mem, w: bool, p: Phase, p': Phase, roots: set<Ref>)
    requires Safe(m, w, roots) && SameLive(m, m', w) && p != Propagate && p' != Propagate
    ensures Exact(m, w, p, roots) ==> Exact(m', w, p', roots)
  {
    if Exact(m, w, p, roots) { ExactStays(m, m', w, p, roots); }
  }

  /** At the end of an exact cycle the survivors are known. */
  lemma {:induction false} Survivors(m: Mem, w: bool, roots: set<Ref>)
    requires Exact(m, w, Pause, roots) && forall r | r in m.objs :: r in m.col && m.col[r] == WhiteOf(w)
    ensures m.objs.Keys == ReachSet(m, roots) + FixedSet(m)
  {
    assert forall r | r in m.objs :: r in Live(m, w);
  }

  lemma {:induction false} TopFreed(m: Mem, w: bool, open: map<Ref, seq<Ref>>, allgc: seq<Ref>, p: Option<nat>, th: Ref)
    requires Sane(m) && th in open && open[th] != [] && Dead(m, w, open[th][0]) && forall q | q in m.objs
        && IsOpen(m.objs[q]) :: m.objs[q].place.th != open[th][0]
    ensures Sane(Remove(m, open[th][0]))
    ensures Closing(m, Remove(m, open[th][0]), w, open, open[th := open[th][1..]], allgc, allgc, p, p, th, false)
  {
    hide Sane, SameLive, Advanced, LostUpvals;
    FreedLost(m, open, th);
    Freed(m, w, open, open[th := open[th][1..]], open[th][0]);
    AdvancedFacts(m, Remove(m, open[th][0]), w, open, open[th := open[th][1..]]);
  }

  lemma {:induction false} FreedOne(m: Mem, w: bool, open: map<Ref, seq<Ref>>, l: seq<Ref>, th: Ref)
    requires th in open && open[th] != [] && Dead(m, w, open[th][0])
    ensures OneClosed(m, Remove(m, open[th][0]), w, open, open[th := open[th][1..]], l, th)
  {
    hide Slots;
  }

  lemma {:induction false} MovedOne(m: Mem, m': Mem, w: bool, open: map<Ref, seq<Ref>>, l: seq<Ref>, th: Ref)
    requires th in open && open[th] != [] && open[th][0] in m.objs && !Dead(m, w, open[th][0])
        && m'.objs == ClosedUpval(m, open[th][0]).objs
    ensures OneClosed(m, m', w, open, open[th := open[th][1..]], [open[th][0]] + l, th)
  {
    hide Slots, Dead;
  }

  /** One upvalue closed, and then coloured as luaC_checkupvalcolor does. */
  lemma {:induction false} KeptClosing(m: Mem, m': Mem, w: bool, gray: seq<Ref>, gray': seq<Ref>, grayagain: seq<Ref>,
      open: map<Ref, seq<Ref>>, allgc: seq<Ref>, strt: seq<seq<Ref>>, uvhead: seq<Ref>, main: Ref, out: set<Ref>,
      p: Option<nat>, th: Ref, marking: bool, c: Scope)
    requires Linked(m.objs, open, allgc, strt, uvhead, main, out) && Sane(m) && th in open && open[th] != []
    requires open[th][0] in m.objs && IsOpen(m.objs[open[th][0]]) && open[th][0] in m.col && !Dead(m, w, open[th][0])
    requires m'.objs == ClosedUpval(m, open[th][0]).objs && m'.cache == m.cache
    requires marking
        ==> Tri(m, w, gray, grayagain, {}, c) && Tri(m', w, gray', grayagain, {}, c) && forall r | Marked(m, r) ::
          Marked(m', r)
    requires var m1, u := ClosedUpval(m, open[th][0]), open[th][0];
      !marking ==> m' == (if m.col[u] == Gray then Paint(m1, u,
          WhiteOf(w)) else m1) && u in m'.col && m'.col[u] == WhiteOf(w)
    ensures var u, open' := open[th][0], open[th := open[th][1..]];
      && OneClosed(m, m', w, open, open', [u] + allgc, th) && Sane(m')
      && Closing(m, m', w, open, open', allgc, [u] + allgc, p, if p.Some? then Some(p.value + 1) else None, th, marking)
  {
    hide Tri, Sane, Done, Linked, Advanced, SameLive, LostUpvals, ClosedUpval, Live, Slots, Pushed, SweptUpTo, IsOpen,
        OneClosed, Marked, Dead;
    var u, m1, open' := open[th][0], ClosedUpval(m, open[th][0]), open[th := open[th][1..]];
    UpvalCloses(m, w, open, allgc, strt, uvhead, main, out, th);
    PushedOne(allgc, u);
    MovedOne(m, m', w, open, allgc, th);
    LostRecoloured(m, m1, m', open, open', th);
    if marking {
      KeptMarking(m, m1, m', w, gray, gray', grayagain, c);
    } else {
      SameDead(m, m1, w, u);
      KeptSweeping(m, m1, m', w, open, open', u);
      SweptOne(m', w, open', allgc, u);
    }
  }

  lemma {:induction false} SameMarked(m: Mem, m': Mem)
    requires m'.col == m.col
    ensures forall r :: Marked(m', r) == Marked(m, r)
  {
  }

  lemma {:induction false} SameDead(m: Mem, m': Mem, w: bool, u: Ref)
    requires u in m.objs && u in m'.objs && m'.col == m.col && m'.objs[u].fixed == m.objs[u].fixed
    ensures Dead(m', w, u) == Dead(m, w, u)
  {
  }

  lemma {:induction false} ClosedRound(a: Mem, b: Mem, c: Mem, w: bool, o1: map<Ref, seq<Ref>>, o2: map<Ref, seq<Ref>>,
      o3: map<Ref, seq<Ref>>, l1: seq<Ref>, l2: seq<Ref>, l3: seq<Ref>, p1: Option<nat>, p2: Option<nat>,
      p3: Option<nat>, th: Ref, level: nat, marking: bool)
    requires Closing(a, b, w, o1, o2, l1, l2, p1, p2, th, marking) && Closing(b, c, w, o2, o3, l2, l3, p2, p3, th,
        marking)
    requires ClosedSome(a, b, w, o1, o2, l2, th, level) && OneClosed(b, c, w, o2, o3, l3, th)
    requires OpenOk(b.objs, o2) && o2[th][0] != th && b.objs[o2[th][0]].place.Open?
        && b.objs[o2[th][0]].place.idx >= level
    ensures ClosedSome(a, c, w, o1, o3, l3, th, level)
  {
    hide Sane, SameLive, LostUpvals, Advanced, SweptUpTo, Pushed, ClosedSome, OneClosed, OpenOk;
    OneMoreClosed(a, b, c, w, o1, o2, o3, l2, l3, th, level);
  }

  /** A state with a main thread only is sound. */
  lemma {:induction false} NewState(main: Ref, strt: seq<seq<Ref>>)
    requires main != NIL && strt != [] && forall b | 0 <= b < |strt| :: strt[b] == []
    ensures StateOk(GcState(Mem(map[main := Obj(KThread, Main, false, [])], map[main := White0], map[]), false, [], [],
        map[main := []], [], strt, [],
                            Pause, 0, None, main, {main}))
  {
    var m := Mem(map[main := Obj(KThread, Main, false, [])], map[main := White0], map[]);
    assert OpenList(m.objs, main, []);
    assert SaneObj(m, main);
  }
}
