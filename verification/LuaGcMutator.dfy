/** The program the collector is interleaved with: stack writes, stores with
    their barriers, new objects, upvalues, closures, strings, coroutines. */
module LuaGcMutator {
  import opened Common
  import opened LuaGcHeap
  import opened LuaGcLinks
  import opened LuaGcMark
  import opened LuaGcSweep
  import opened LuaGcWrite
  import opened LuaGcResize
  import opened LuaGcCollector
  import opened LuaUvRing

  /** The running thread is a thread, beside all the collector keeps. */
  ghost predicate Ready(c: Collector)
    reads c
  {
    c.Valid() && IsKind(c.mem, c.current, KThread)
  }

  /** What the program may handle: nil, or an object that is alive. */
  ghost predicate Usable(c: Collector, v: Ref)
    reads c
  {
    v == NIL || v in Live(c.mem, c.white)
  }

  /** The state was sound before `s` was written to `o`, which made `o` hold `v`. */
  ghost predicate Written(c: Collector, m0: Mem, o: Ref, s: seq<Ref>, v: Ref)
    reads c
  {
    && StateOk(c.State().(mem := m0))
    && o in m0.objs && o in m0.col && Edit(m0, o, s, v) && v in Live(m0, c.white) && c.mem == SetSlots(m0, o, s)
    && m0.col[o] == Black && RingOk(c.ring, c.uvhead)
  }

  /** luaC_barrierback_: the table will be traversed again. */
  method BarrierBack(c: Collector, o: Ref, ghost m0: Mem, ghost s: seq<Ref>, ghost v: Ref)
    requires Written(c, m0, o, s, v) && Listed(m0.objs[o].kind)
    modifies c`mem, c`grayagain
    ensures o in c.mem.col && c.mem.col[o] == Gray
    ensures c.Valid() && c.mem.objs == old(c.mem).objs && c.mem.cache == old(c.mem).cache && Live(c.mem, c.white)
        == Live(m0, c.white)
  {
    hide StateOk, RingOk, Edit, Live;
    BackOk(c.State().(mem := m0), o, s, v);
    c.mem := Paint(c.mem, o, Gray);
    c.grayagain := [o] + c.grayagain;
  }

  /** luaC_barrier_: the white object is marked; while sweeping, `o` turns white instead. */
  method Barrier(c: Collector, o: Ref, v: Ref, ghost m0: Mem, ghost s: seq<Ref>)
    requires Written(c, m0, o, s, v) && White(m0, v)
    modifies c`mem, c`gray
    ensures c.gcstate == Propagate ==> Marked(c.mem, v)
    ensures c.Valid() && c.mem.objs == old(c.mem).objs && c.mem.cache == old(c.mem).cache && Live(c.mem, c.white)
        == Live(m0, c.white)
  {
    hide StateOk, RingOk, Edit, Live, Tri, Darker;
    LiveThere(m0, c.white, v);
    if c.gcstate == Propagate {
      ghost var gray0, m1 := c.gray, c.mem;
      ForwardStart(c.State().(mem := m0), o, s, v);
      c.ReallyMark(v, {o}, Free(m0));
      DarkerGrown(m1, c.mem);
      DarkerCache(m1, c.mem);
      ForwardOk(c.State().(mem := m0, gray := gray0), c.mem, c.gray, o, s, v);
    } else {
      WriteOk(c.State().(mem := m0), o, s, v);
      EditCol(m0, o, s);
      SweepBarrierOk(c.State(), o);
      c.mem := Paint(c.mem, o, WhiteOf(c.white));
    }
  }

  /** Writing `s`, which holds `v`, as the contents of `o`, and then the barrier for the kind of `o`. */
  method Put(c: Collector, o: Ref, s: seq<Ref>, v: Ref)
    requires Ready(c) && o in c.mem.objs && Edit(c.mem, o, s, v) && Usable(c, v)
    modifies c`mem, c`gray, c`grayagain
    ensures Ready(c) && c.mem.objs == old(c.mem).objs[o := old(c.mem).objs[o].(slots := s)]
        && c.mem.cache == old(c.mem).cache
    ensures Live(c.mem, c.white) == old(Live(c.mem, c.white))
  {
    hide StateOk, RingOk, Edit, Live;
    ghost var m0 := c.mem;
    Colours(c.State());
    LiveThere(m0, c.white, v);
    EditCol(m0, o, s);
    c.mem := SetSlots(c.mem, o, s);
    if c.mem.col[o] == Black && v != NIL && White(c.mem, v) {
      if c.mem.objs[o].kind == KTable {
        BarrierBack(c, o, m0, s, v);
      } else {
        Barrier(c, o, v, m0, s);
      }
    } else {
      WriteOk(c.State().(mem := m0), o, s, v);
    }
  }

  // ----- New objects -----

  /** malloc: some address that is not in use. */
  lemma {:induction false} FreshExists(s: set<Ref>) returns (r: Ref)
    ensures r != NIL && forall q | q in s :: q < r
    decreases |s|
  {
    if s == {} {
      r := 1;
    } else {
      var x :| x in s;
      r := FreshExists(s - {x});
      r := if x < r then r else x + 1;
      forall q | q in s ensures q < r { assert q == x || q in s - {x}; }
    }
  }

  method Malloc(c: Collector) returns (r: Ref)
    ensures r != NIL && r !in c.mem.objs
  {
    ghost var b := FreshExists(c.mem.objs.Keys);
    assert b != NIL && b !in c.mem.objs;
    r :| r != NIL && r !in c.mem.objs;
  }

  /** The object is linked in front of `allgc`, and before what is still to be swept. */
  method LinkObj(c: Collector, r: Ref, o: Obj)
    modifies c`mem, c`open, c`allgc, c`sweepgc
    ensures c.State() == Allocated(old(c.State()), r, o)
    ensures c.mem == Alloc(old(c.mem), c.white, r, o) && c.allgc == [r] + old(c.allgc)
    ensures c.open == if o.kind == KThread then old(c.open)[r := []] else old(c.open)
  {
    c.mem := Alloc(c.mem, c.white, r, o);
    if o.kind == KThread { c.open := c.open[r := []]; }
    c.allgc := [r] + c.allgc;
    if c.sweepgc.Some? { c.sweepgc := Some(c.sweepgc.value + 1); }
  }

  function Nils(n: nat): seq<Ref> {
    seq(n, _ => NIL)
  }

  lemma {:induction false} NilOk(m: Mem, w: bool, r: Ref, kind: Kind, n: nat)
    requires r !in m.objs && r != NIL && (kind == KString ==> n == 0)
    ensures NewOk(m, w, r, Obj(kind, Allgc, false, Nils(n)))
  {
  }

  /** luaC_newobj in `allgc`; the fields of the new object are nil. */
  method NewObj(c: Collector, kind: Kind, n: nat) returns (r: Ref)
    requires Ready(c) && (kind == KString ==> n == 0)
    modifies c`mem, c`open, c`allgc, c`sweepgc
    ensures Ready(c) && r !in old(c.mem).objs && r != NIL
    ensures c.mem.objs == old(c.mem).objs[r := Obj(kind, Allgc, false, Nils(n))] && c.mem.cache == old(c.mem).cache
    ensures c.mem.col == old(c.mem).col[r := WhiteOf(c.white)]
    ensures c.allgc == [r] + old(c.allgc) && c.open == if kind == KThread then old(c.open)[r := []] else old(c.open)
    ensures Live(c.mem, c.white) == old(Live(c.mem, c.white)) + {r}
  {
    hide StateOk, RingOk, Live, Alloc, Allocated, Collector.Roots, NewOk, Dead, Nils;
    r := Malloc(c);
    var o := Obj(kind, Allgc, false, Nils(n));
    assert NewOk(c.mem, c.white, r, o) by { NilOk(c.mem, c.white, r, kind, n); }
    AllocOk(c.State(), r, o);
    StateSafe(c.State());
    AllocSafe(c.mem, c.white, c.Roots(), r, o);
    AllocCol(c.mem, c.white, r, o);
    LinkObj(c, r, o);
  }

  /** A new short string at the front of chain `b`. */
  method LinkString(c: Collector, b: nat, hash: nat, fixed: bool) returns (r: Ref)
    requires Ready(c) && c.strt != [] && b == Lmod(hash, |c.strt|)
    modifies c`mem, c`strt
    ensures Ready(c) && r !in old(c.mem).objs && r != NIL
    ensures c.mem.objs == old(c.mem).objs[r := Obj(KString, InTable(hash), fixed, [])]
        && c.mem.cache == old(c.mem).cache
    ensures c.strt == old(c.strt)[b := [r] + old(c.strt)[b]]
    ensures Live(c.mem, c.white) == old(Live(c.mem, c.white)) + {r}
  {
    hide StateOk, RingOk, Live, Alloc, Collector.Roots, Lmod;
    r := Malloc(c);
    var o := Obj(KString, InTable(hash), fixed, []);
    AllocStringOk(c.State(), r, o, b);
    StateSafe(c.State());
    AllocSafe(c.mem, c.white, c.Roots(), r, o);
    AllocCol(c.mem, c.white, r, o);
    c.mem := Alloc(c.mem, c.white, r, o);
    c.strt := c.strt[b := [r] + c.strt[b]];
  }

  /** There are as many strings as chains, and the table can still be doubled. */
  predicate Crowded(strt: seq<seq<Ref>>) {
    InUse(strt) >= |strt| && |strt| <= MAX_INT / 2
  }

  /** The live part of the heap: its objects, and what prototypes remember. */
  ghost predicate LiveKept(m: Mem, m': Mem, w: bool) {
    forall q | q in Live(m, w) :: q in m'.objs && (q in m.cache ==> q in m'.cache && m'.cache[q] == m.cache[q])
  }

  /** A crowded table is doubled; if its strings are being swept, that is finished
      first, which frees dead ones. */
  method Room(c: Collector)
    requires Ready(c)
    modifies c`mem, c`strt, c`sweepstrgc, c`gcstate
    ensures Ready(c) && c.strt != [] && |c.strt| == if Crowded(old(c.strt)) then 2 * |old(c.strt)| else |old(c.strt)|
    ensures Live(c.mem, c.white) == old(Live(c.mem, c.white)) && OnlyFreed(old(c.mem), c.mem)
        && LiveKept(old(c.mem), c.mem, c.white)
    ensures !Crowded(old(c.strt)) ==> c.mem == old(c.mem) && c.strt == old(c.strt)
  {
    hide StateOk, RingOk, Collector.Roots, StrtOk;
    CurrentRoot(c);
    StateSafe(c.State());
    TableOk(c.State());
    StrtSize(c.mem.objs, c.strt);
    LiveThere(c.mem, c.white, c.current);
    if InUse(c.strt) >= |c.strt| && |c.strt| <= MAX_INT / 2 {
      c.Resize(2 * |c.strt|);
    }
  }

  /** The new string `r` is first in the chain of its hash. If the table was crowded
      it has twice the size, and dead strings may be gone. */
  ghost predicate Interned(m: Mem, strt: seq<seq<Ref>>, m': Mem, strt': seq<seq<Ref>>, w: bool, r: Ref, hash: nat,
      fixed: bool)
  {
    && r != NIL && r !in Live(m, w) && r in m'.objs && m'.objs[r] == Obj(KString, InTable(hash), fixed, [])
    && (forall q | q in m'.objs && q != r :: q in m.objs && m'.objs[q] == m.objs[q])
    && LiveKept(m, m', w)
    && strt' != [] && |strt'| == (if Crowded(strt) then 2 * |strt| else |strt|)
    && var b := Lmod(hash, |strt'|);
      && strt'[b] != [] && strt'[b][0] == r
      && (!Crowded(strt) ==>
            && r !in m.objs && m'.objs == m.objs[r := m'.objs[r]] && m'.cache == m.cache
            && strt' == strt[b := [r] + strt[b]])
  }

  /** newshrstr: the string goes into the chain of its hash, after a crowded table
      was doubled; luaS_fix may fix it. */
  method NewString(c: Collector, hash: nat, fixed: bool) returns (r: Ref)
    requires Ready(c)
    modifies c`mem, c`strt, c`sweepstrgc, c`gcstate
    ensures Ready(c) && Live(c.mem, c.white) == old(Live(c.mem, c.white)) + {r}
    ensures Interned(old(c.mem), old(c.strt), c.mem, c.strt, c.white, r, hash, fixed)
  {
    hide Ready, Live, Crowded, Lmod, LiveKept;
    ghost var m0, strt0 := c.mem, c.strt;
    Room(c);
    ghost var m1, strt1 := c.mem, c.strt;
    LiveInHeap(m1, c.white);
    r := LinkString(c, Lmod(hash, |c.strt|), hash, fixed);
    LinkedIsInterned(m0, strt0, m1, strt1, c.mem, c.white, r, hash, fixed);
  }

  lemma {:induction false} LinkedIsInterned(m0: Mem, strt0: seq<seq<Ref>>, m1: Mem, strt1: seq<seq<Ref>>, m: Mem,
      w: bool, r: Ref, hash: nat, fixed: bool)
    requires strt1 != [] && |strt1| == if Crowded(strt0) then 2 * |strt0| else |strt0|
    requires Live(m1, w) == Live(m0, w) && OnlyFreed(m0, m1) && LiveKept(m0, m1, w)
        && (!Crowded(strt0) ==> m1 == m0 && strt1 == strt0)
    requires r !in m1.objs && r != NIL && m.objs == m1.objs[r := Obj(KString, InTable(hash), fixed, [])]
        && m.cache == m1.cache
    ensures Interned(m0, strt0, m, var b := Lmod(hash, |strt1|); strt1[b := [r] + strt1[b]], w, r, hash, fixed)
  {
    hide Lmod, Crowded;
    assert forall q | q in Live(m0, w) :: q in Live(m1, w);
    LiveInHeap(m1, w);
  }

  lemma {:induction false} LiveInHeap(m: Mem, w: bool)
    ensures forall q | q in Live(m, w) :: q in m.objs
  {
  }

  /** An object the program got hold of again is resurrected if it is dead. */
  method Revive(c: Collector, r: Ref)
    requires Ready(c) && r in c.mem.objs && c.mem.objs[r].kind != KProto
    requires forall k | PointsTo(c.mem, r, k) :: k in Live(c.mem, c.white)
    modifies c`mem
    ensures Ready(c) && r in Live(c.mem, c.white) && c.mem.objs == old(c.mem).objs && c.mem.cache == old(c.mem).cache
    ensures old(Live(c.mem, c.white)) <= Live(c.mem, c.white)
    ensures forall q | q in old(c.mem).col && !Dead(old(c.mem), c.white, q) ::
        q in c.mem.col && c.mem.col[q] == old(c.mem).col[q]
  {
    hide StateOk, RingOk, Collector.Roots;
    if Dead(c.mem, c.white, r) {
      ReviveOk(c.State(), r);
      c.mem := Paint(c.mem, r, WhiteOf(c.white));
    }
  }

  /** internshrstr found the string it wants at position `i` of chain `b`; it
      may be dead but not yet collected. */
  method FindString(c: Collector, b: nat, i: nat) returns (r: Ref)
    requires Ready(c) && b < |c.strt| && i < |c.strt[b]|
    modifies c`mem
    ensures Ready(c) && r == c.strt[b][i] && r in Live(c.mem, c.white) && c.mem.objs == old(c.mem).objs
        && c.mem.cache == old(c.mem).cache
    ensures old(Live(c.mem, c.white)) <= Live(c.mem, c.white)
  {
    hide StateOk, RingOk, Live, Collector.Roots;
    r := c.strt[b][i];
    StringInTable(c.State(), b, i);
    Revive(c, r);
  }

  // ----- Upvalues -----

  lemma {:induction false} CurrentRoot(c: Collector)
    requires Ready(c)
    ensures c.current in c.Roots()
  {
    hide RingOk, PhaseOk, Linked, Closed, CachesIn;
    assert c.current in [c.mainthread, c.current, c.registry] + c.mt;
  }

  /** luaF_findupval: the one open upvalue for slot `idx` of the running
      thread, found, resurrected or made. */
  method FindUpval(c: Collector, idx: nat) returns (u: Ref)
    requires Ready(c) && idx < |c.mem.objs[c.current].slots|
    modifies c`mem, c`open, c`uvhead, c`ring
    ensures Ready(c) && u in Live(c.mem, c.white) && u in c.mem.objs && c.mem.objs[u].place == Open(c.current, idx)
    ensures forall q | q in c.mem.objs && c.mem.objs[q].place == Open(c.current, idx) :: q == u
    ensures c.mem.objs == old(c.mem).objs || (u !in old(c.mem).objs && c.mem.objs == old(c.mem).objs[u := Obj(KUpval,
        Open(c.current, idx), false, [])])
    ensures c.mem.cache == old(c.mem).cache && old(Live(c.mem, c.white)) <= Live(c.mem, c.white)
    ensures forall q | q in old(c.mem).col && !Dead(old(c.mem), c.white, q) ::
        q in c.mem.col && c.mem.col[q] == old(c.mem).col[q]
  {
    hide StateOk, RingOk, Alloc, Slots, Collector.Roots, Live, Dead, PointsTo;
    CurrentRoot(c);
    var th := c.current;
    OpenOfCurrent(c.State(), th);
    var i := 0;
    while i < |c.open[th]| && c.mem.objs[c.open[th][i]].place.idx >= idx
      invariant i <= |c.open[th]|
      invariant forall j | 0 <= j < i :: c.mem.objs[c.open[th][j]].place.idx > idx
    {
      u := c.open[th][i];
      if c.mem.objs[u].place.idx == idx {
        SlotsAlive(c.State(), th, u);
        Revive(c, u);
        return;
      }
      i := i + 1;
    }
    u := NewUpval(c, idx, i);
  }

  lemma {:induction false} OpenIsNew(g: GcState, u: Ref, th: Ref, idx: nat)
    requires StateOk(g) && th in g.roots && IsKind(g.mem, th, KThread) && idx < |g.mem.objs[th].slots| && u != NIL
        && u !in g.mem.objs
    ensures NewOk(g.mem, g.white, u, Obj(KUpval, Open(th, idx), false, []))
  {
    hide StateOk, Safe, Sane, Dead;
    CurrentAlive(g, th);
  }

  /** ... made, before the first open upvalue of a lower slot. */
  method NewUpval(c: Collector, idx: nat, i: nat) returns (u: Ref)
    requires Ready(c) && idx < |c.mem.objs[c.current].slots| && c.current in c.open && i <= |c.open[c.current]|
    requires var l := c.open[c.current];
        forall j | 0 <= j < i :: l[j] in c.mem.objs && c.mem.objs[l[j]].place.Open? && c.mem.objs[l[j]].place.idx > idx
    requires var l := c.open[c.current];
        forall j | i <= j < |l| ::
          l[j] in c.mem.objs && c.mem.objs[l[j]].place.Open? && c.mem.objs[l[j]].place.idx < idx
    modifies c`mem, c`open, c`uvhead, c`ring
    ensures Ready(c) && u in Live(c.mem, c.white) && u !in old(c.mem).objs
    ensures c.mem.objs == old(c.mem).objs[u := Obj(KUpval, Open(c.current, idx), false, [])]
        && c.mem.cache == old(c.mem).cache
    ensures u !in old(c.mem).col && c.mem.col == old(c.mem).col[u := WhiteOf(c.white)]
    ensures old(Live(c.mem, c.white)) <= Live(c.mem, c.white)
  {
    hide StateOk, RingOk, Alloc, Slots, Collector.Roots, Live, Dead, InsertAt, Sane, Safe, WhiteOf, PointsTo, Linked,
        PhaseOk, NewOk;
    CurrentRoot(c);
    var th := c.current;
    u := Malloc(c);
    var o := Obj(KUpval, Open(th, idx), false, []);
    CurrentAlive(c.State(), th);
    OpenIsNew(c.State(), u, th, idx);
    AllocOpenOk(c.State(), u, th, idx, i);
    AllocSafe(c.mem, c.white, c.Roots(), u, o);
    AllocCol(c.mem, c.white, u, o);
    SaneKeys(c.mem);
    c.NotInRing(u);
    c.mem := Alloc(c.mem, c.white, u, o);
    c.open := c.open[th := InsertAt(c.open[th], i, u)];
    c.LinkUpval(u);
  }

  /** luaF_close on the running thread: exactly the open upvalues at `level` or
      above are freed, if dead, or take their values along; what is alive, every
      upvalue included, has the same contents afterwards. */
  method Close(c: Collector, level: nat)
    requires Ready(c)
    modifies c`mem, c`gray, c`open, c`uvhead, c`ring, c`allgc, c`sweepgc
    ensures Ready(c) && SameLive(old(c.mem), c.mem, c.white)
    ensures ClosedAbove(old(c.mem), c.mem, c.white, old(c.open), c.open, c.allgc, c.current, level)
    ensures c.mem.objs[c.current] == old(c.mem).objs[c.current]
    ensures forall q | q in c.mem.objs && c.mem.objs[q].place.Open? && c.mem.objs[q].place.th == c.current ::
        c.mem.objs[q].place.idx < level
  {
    hide StateOk, RingOk, SameLive, Tri, Linked, Sane, Collector.Roots, ClosedAbove;
    ghost var g := c.State();
    var th := c.current;
    CanClose(c.State(), th);
    c.CloseUpvals(th, level, Free(c.mem), {});
    CloseOk(g, c.State(), th);
    ClosedThread(g.mem, c.mem, c.white, g.open, c.open, g.allgc, c.allgc, g.sweepgc, c.sweepgc, th, c.gcstate
        == Propagate);
    OpenOfCurrent(c.State(), th);
  }

  // ----- The running program -----

  /** The slots of the stack of the running thread. */
  function Stack(c: Collector): seq<Ref>
    requires c.current in c.mem.objs
    reads c
  {
    c.mem.objs[c.current].slots
  }

  lemma {:induction false} StackUsable(c: Collector)
    requires Ready(c)
    ensures forall i | 0 <= i < |Stack(c)| :: Usable(c, Stack(c)[i])
    ensures c.current in Live(c.mem, c.white) && !IsOpen(c.mem.objs[c.current])
    ensures forall q | q in c.mem.objs && IsOpen(c.mem.objs[q]) && c.mem.objs[q].place.th == c.current ::
        c.mem.objs[q].place.idx < |Stack(c)|
  {
    hide StateOk, RingOk, Collector.Roots, Live, PointsTo;
    CurrentRoot(c);
    CurrentAlive(c.State(), c.current);
  }

  function Placed(s: seq<Ref>, i: nat, v: Ref): seq<Ref> {
    if i < |s| then s[i := v] else s + [v]
  }

  /** The objects with slot `i` of the stack of `th` changed. */
  function OnStack(objs: Objs, th: Ref, i: nat, v: Ref): Objs
    requires th in objs
  {
    objs[th := objs[th].(slots := Placed(objs[th].slots, i, v))]
  }

  /** setobj to slot `i` of the stack, or one past its end: the stack is never black and needs no barrier. */
  method SetStack(c: Collector, i: nat, v: Ref)
    requires Ready(c) && i <= |Stack(c)| && Usable(c, v)
    modifies c`mem, c`gray, c`grayagain
    ensures Ready(c) && c.current in c.mem.objs && c.mem.cache == old(c.mem).cache && Live(c.mem, c.white)
        == old(Live(c.mem, c.white))
    ensures c.mem.objs == OnStack(old(c.mem).objs, c.current, i, v)
    ensures |Stack(c)| == (if i < |old(Stack(c))| then |old(Stack(c))| else i + 1) && Stack(c)[i] == v
    ensures forall j | 0 <= j < |old(Stack(c))| && j != i :: Stack(c)[j] == old(Stack(c))[j]
    ensures c.mem.objs.Keys == old(c.mem).objs.Keys
        && forall q | q in c.mem.objs && q != c.current :: c.mem.objs[q] == old(c.mem).objs[q]
  {
    hide StateOk, RingOk, Live, Collector.Roots;
    StackUsable(c);
    Put(c, c.current, Placed(Stack(c), i, v), v);
  }

  /** Leaving a block or function: exactly its upvalues are closed and its slots
      dropped; all else that is alive has the same contents afterwards. */
  method Pop(c: Collector, level: nat)
    requires Ready(c) && level <= |Stack(c)|
    modifies c`mem, c`gray, c`grayagain, c`open, c`uvhead, c`ring, c`allgc, c`sweepgc
    ensures Ready(c) && Stack(c) == old(Stack(c))[..level]
    ensures ClosedAbove(old(c.mem), c.mem, c.white, old(c.open), c.open, c.allgc, c.current, level)
    ensures SameButStack(old(c.mem), c.mem, c.white, c.current)
  {
    hide StateOk, RingOk, Live, Collector.Roots, SameLive, ClosedAbove, SameButStack, Slots;
    ghost var m0, open0 := c.mem, c.open;
    NoUpval(c);
    Close(c, level);
    ghost var m1 := c.mem;
    StackUsable(c);
    Put(c, c.current, Stack(c)[..level], NIL);
    ClosedAndCut(m0, m1, c.mem, c.white, open0, c.open, c.allgc, c.current, level);
    SameAndCut(m0, m1, c.mem, c.white, c.current, level);
  }

  lemma {:induction false} NoUpval(c: Collector)
    requires Ready(c)
    ensures c.current in c.open && c.current !in c.open[c.current]
  {
    hide StateOk, RingOk, Collector.Roots;
    CanClose(c.State(), c.current);
  }

  /** What is alive stays so, with the same contents but for the stack of `th`. */
  ghost predicate SameButStack(m: Mem, m': Mem, w: bool, th: Ref) {
    && Live(m', w) == Live(m, w) && m'.cache.Keys * Live(m, w) == m.cache.Keys * Live(m, w)
    && forall r | r in Live(m, w) ::
         && r in m'.objs && (r != th ==> Slots(m', r) == Slots(m, r)) && m'.objs[r].kind == m.objs[r].kind
         && (r in m.cache && r in m'.cache ==> m'.cache[r] == m.cache[r])
  }

  lemma {:induction false} ClosedAndCut(m: Mem, m1: Mem, m2: Mem, w: bool, open: map<Ref, seq<Ref>>, open': map<Ref,
      seq<Ref>>, l: seq<Ref>, th: Ref, level: nat)
    requires ClosedAbove(m, m1, w, open, open', l, th, level) && th !in open[th] && th in m1.objs && th in m2.objs
        && m2.objs == m1.objs[th := m2.objs[th]]
    ensures ClosedAbove(m, m2, w, open, open', l, th, level)
  {
    hide Dead, Slots, Pushed;
    forall u | u in open[th] && u !in open'[th]
      ensures ClosedOrFreed(m, m2, w, l, u) { assert ClosedOrFreed(m, m1, w, l, u); }
  }

  lemma {:induction false} SameAndCut(m: Mem, m1: Mem, m2: Mem, w: bool, th: Ref, level: nat)
    requires SameLive(m, m1, w) && th in m1.objs && level <= |m1.objs[th].slots| && !IsOpen(m1.objs[th])
    requires m2.objs == m1.objs[th := m1.objs[th].(slots := m1.objs[th].slots[..level])] && m2.cache == m1.cache
        && Live(m2, w) == Live(m1, w)
    requires forall q | q in m1.objs && IsOpen(m1.objs[q]) && m1.objs[q].place.th == th :: m1.objs[q].place.idx < level
    ensures SameButStack(m, m2, w, th)
  {
    hide Live;
    forall r | r in m1.objs && r != th ensures Slots(m2, r) == Slots(m1, r) {}
    assert forall r | r in Live(m, w) :: r in m1.objs;
  }

  /** Reading field `i` of the object in slot `src`: of a table, userdata,
      closure or prototype, of another stack, or the value of an upvalue. */
  method Load(c: Collector, dst: nat, src: nat, i: nat)
    requires Ready(c) && dst <= |Stack(c)| && src < |Stack(c)| && Stack(c)[src] in c.mem.objs
        && i < |Slots(c.mem, Stack(c)[src])|
    modifies c`mem, c`gray, c`grayagain
    ensures Ready(c) && c.mem.objs == OnStack(old(c.mem).objs, c.current, dst, old(Slots(c.mem, Stack(c)[src])[i]))
        && c.mem.cache == old(c.mem).cache
  {
    hide StateOk, RingOk, Live, Collector.Roots;
    StackUsable(c);
    StateSafe(c.State());
    FieldAlive(c.State(), Stack(c)[src], i);
    SetStack(c, dst, Slots(c.mem, Stack(c)[src])[i]);
  }

  /** The objects after a write to a field of `t`, which for an open upvalue is a
      slot of the stack it lives in. */
  function Wrote(m: Mem, t: Ref, i: nat, v: Ref): map<Ref, Obj>
    requires t in m.objs
  {
    var o := m.objs[t];
    if IsOpen(o) then
      if o.place.th in m.objs then m.objs[o.place.th := m.objs[o.place.th].(slots := Placed(m.objs[o.place.th].slots,
          o.place.idx, v))] else m.objs
    else m.objs[t := o.(slots := Placed(o.slots, i, v))]
  }

  /** Writing slot `src` of the stack to field `i` of the object in slot `dst`,
      or one past the last field. An open upvalue passes the write to its stack. */
  method Store(c: Collector, dst: nat, i: nat, src: nat)
    requires Ready(c) && dst < |Stack(c)| && src < |Stack(c)| && Stack(c)[dst] in c.mem.objs
    requires c.mem.objs[Stack(c)[dst]].kind != KString && i <= |Slots(c.mem, Stack(c)[dst])|
    requires c.mem.objs[Stack(c)[dst]].kind == KUpval ==> i < |Slots(c.mem, Stack(c)[dst])|
    modifies c`mem, c`gray, c`grayagain
    ensures Ready(c) && old(Stack(c)[dst]) in c.mem.objs && i < |Slots(c.mem, old(Stack(c)[dst]))|
    ensures Slots(c.mem, old(Stack(c)[dst]))[i] == old(Stack(c)[src])
    ensures c.mem.objs == Wrote(old(c.mem), old(Stack(c)[dst]), i, old(Stack(c)[src]))
        && c.mem.cache == old(c.mem).cache
  {
    hide StateOk, RingOk, Live, Collector.Roots;
    StackUsable(c);
    var o, v := Stack(c)[dst], Stack(c)[src];
    LiveThere(c.mem, c.white, o);
    if IsOpen(c.mem.objs[o]) {
      var home := c.mem.objs[o].place;
      UpvalHome(c.State(), o, v);
      Put(c, home.th, c.mem.objs[home.th].slots[home.idx := v], v);
    } else {
      var s := c.mem.objs[o].slots;
      EditOk(c.State(), o, i, v);
      Put(c, o, if i < |s| then s[i := v] else s + [v], v);
    }
  }

  /** The registry and the metatables of basic types change without barriers. */
  method SetRegistry(c: Collector, src: nat)
    requires Ready(c) && src < |Stack(c)|
    modifies c`registry
    ensures Ready(c) && c.registry == Stack(c)[src]
  {
    hide StateOk, RingOk, Live;
    NewRoots(c, c.current, Stack(c)[src], c.mt);
    c.registry := Stack(c)[src];
  }

  method SetMetatable(c: Collector, t: nat, src: nat)
    requires Ready(c) && t < |c.mt| && src < |Stack(c)|
    modifies c`mt
    ensures Ready(c) && c.mt == old(c.mt)[t := Stack(c)[src]]
  {
    hide StateOk, RingOk, Live;
    NewRoots(c, c.current, c.registry, c.mt[t := Stack(c)[src]]);
    c.mt := c.mt[t := Stack(c)[src]];
  }

  /** Another coroutine runs: one on the stack, or the main thread again. */
  method Resume(c: Collector, th: Ref)
    requires Ready(c) && (th == c.mainthread || th in Stack(c)) && IsKind(c.mem, th, KThread)
    modifies c`current
    ensures Ready(c) && c.current == th
  {
    hide StateOk, RingOk, Live;
    NewRoots(c, th, c.registry, c.mt);
    c.current := th;
  }

  /** Roots may change to anything on the stack. */
  lemma {:induction false} NewRoots(c: Collector, current: Ref, registry: Ref, mt: seq<Ref>)
    requires Ready(c) && (current == c.current || current == c.mainthread || current in Stack(c))
    requires (registry == c.registry || registry in Stack(c)) && forall t | t in mt :: t in c.mt || t in Stack(c)
    ensures StateOk(c.State().(roots := set r | r in [c.mainthread, current, registry] + mt && r != NIL))
  {
    hide StateOk, RingOk, Live;
    var roots := set r | r in [c.mainthread, current, registry] + mt && r != NIL;
    StackUsable(c);
    StateSafe(c.State());
    assert roots <= Live(c.mem, c.white) by {
      assert c.Roots() <= Live(c.mem, c.white);
      forall r | r in roots ensures r in Live(c.mem, c.white) {
        if r in Stack(c) {
        } else {
          assert r in [c.mainthread, c.current, c.registry] + c.mt;
          assert r in c.Roots();
        }
      }
    }
    RootsOk(c.State(), roots);
  }

  // ----- Closures -----

  /** What an upvalue of a new closure is: a local variable of the running
      function, or an upvalue of the closure in slot `cl`. */
  datatype Capture = InStack(idx: nat) | Enclosing(cl: nat, i: nat)

  predicate CaptureOk(m: Mem, stack: seq<Ref>, u: Capture) {
    match u
    case InStack(idx) => idx < |stack|
    case Enclosing(cl, i) => cl < |stack| && stack[cl] in m.objs && i < |Slots(m, stack[cl])|
  }

  function Outer(m: Mem, stack: seq<Ref>, u: Capture): Ref
    requires CaptureOk(m, stack, u)
  {
    match u
    case InStack(_) => NIL
    case Enclosing(cl, i) => Slots(m, stack[cl])[i]
  }

  /** luaC_barrierproto: the back barrier for a black prototype that has a cached
      closure already, the forward one for one that has none. */
  method ProtoBarrier(c: Collector, f: Ref, ncl: Ref)
    requires Ready(c) && IsKind(c.mem, f, KProto) && ncl in Live(c.mem, c.white)
    modifies c`mem, c`gray, c`grayagain
    ensures Ready(c) && c.mem.objs == old(c.mem).objs && c.mem.cache == old(c.mem).cache && Live(c.mem, c.white)
        == old(Live(c.mem, c.white))
    ensures f in c.mem.col && (c.gcstate == Propagate && c.mem.col[f] == Black ==> Marked(c.mem, ncl))
  {
    hide StateOk, RingOk, Live, Edit;
    Colours(c.State());
    StateSafe(c.State());
    LiveThere(c.mem, c.white, ncl);
    ghost var m0 := c.mem;
    if c.mem.col[f] == Black {
      SameEdit(c.mem, f, ncl);
      if f in c.mem.cache {
        BarrierBack(c, f, m0, m0.objs[f].slots, ncl);
      } else if White(c.mem, ncl) {
        Barrier(c, f, ncl, m0, m0.objs[f].slots);
      }
      Colours(c.State());
    }
  }

  /** The prototype remembers the new closure `ncl`. */
  method SetProtoCache(c: Collector, f: Ref, ncl: Ref)
    requires Ready(c) && IsKind(c.mem, f, KProto) && ncl in Live(c.mem, c.white)
    modifies c`mem, c`gray, c`grayagain
    ensures Ready(c) && c.mem.objs == old(c.mem).objs && c.mem.cache == old(c.mem).cache[f := ncl]
  {
    hide StateOk, RingOk, Live;
    ProtoBarrier(c, f, ncl);
    ReadyCurrent(c);
    LiveThere(c.mem, c.white, ncl);
    CacheOk(c.State(), f, ncl);
    c.mem := SetCache(c.mem, f, ncl);
  }

  /** `v` is the open upvalue of the captured slot, or the one given. */
  ghost predicate Filled(m: Mem, th: Ref, u: Capture, outer: Ref, v: Ref) {
    if u.InStack? then v in m.objs && m.objs[v].place == Open(th, u.idx) else v == outer
  }

  ghost predicate Closure(m: Mem, ncl: Ref, n: nat) {
    IsKind(m, ncl, KLClosure) && m.objs[ncl].place == Allgc && |m.objs[ncl].slots| == n
  }

  method FillField(c: Collector, ncl: Ref, i: nat, v: Ref)
    requires Ready(c) && Usable(c, v) && IsKind(c.mem, ncl, KLClosure) && !IsOpen(c.mem.objs[ncl])
        && i < |c.mem.objs[ncl].slots|
    modifies c`mem, c`gray, c`grayagain
    ensures Ready(c)
        && c.mem.objs == old(c.mem).objs[ncl := old(c.mem).objs[ncl].(slots := old(c.mem).objs[ncl].slots[i := v])]
        && c.mem.cache == old(c.mem).cache
    ensures Live(c.mem, c.white) == old(Live(c.mem, c.white))
  {
    hide StateOk, RingOk, Live, Collector.Roots, Slots;
    EditOk(c.State(), ncl, i, v);
    Put(c, ncl, c.mem.objs[ncl].slots[i := v], v);
  }

  /** luaF_newLclosure, with its prototype, anchored in slot `dst` of the stack. */
  method NewClosure(c: Collector, dst: nat, f: Ref, n: nat) returns (ncl: Ref)
    requires Ready(c) && dst < |Stack(c)| && f in Stack(c) && f != NIL
    modifies c`mem, c`open, c`allgc, c`sweepgc, c`gray, c`grayagain
    ensures Ready(c) && c.current in c.mem.objs && Stack(c) == old(Stack(c))[dst := ncl]
    ensures ncl !in old(c.mem).objs && ncl != c.current && Closure(c.mem, ncl, 1 + n) && c.mem.objs[ncl].slots[0] == f
    ensures ncl in Live(c.mem, c.white) && old(Live(c.mem, c.white)) <= Live(c.mem, c.white)
        && f in Live(c.mem, c.white)
    ensures c.mem.cache == old(c.mem).cache
    ensures forall q | q in old(c.mem).objs && q != c.current :: q in c.mem.objs && c.mem.objs[q] == old(c.mem).objs[q]
  {
    hide StateOk, RingOk, Live, Collector.Roots, Slots, Edit, Dead;
    StackUsable(c);
    assert Usable(c, f);
    ncl := NewObj(c, KLClosure, 1 + n);
    FillField(c, ncl, 0, f);
    SetStack(c, dst, ncl);
  }

  method FillUpval(c: Collector, ncl: Ref, i: nat, capture: Capture, outer: Ref)
    requires Ready(c) && ncl != c.current && IsKind(c.mem, ncl, KLClosure) && c.mem.objs[ncl].place == Allgc
        && 1 + i < |c.mem.objs[ncl].slots|
    requires if capture.InStack? then capture.idx < |Stack(c)| else Usable(c, outer)
    modifies c`mem, c`open, c`uvhead, c`ring, c`gray, c`grayagain
    ensures Ready(c) && Stack(c) == old(Stack(c)) && c.mem.cache == old(c.mem).cache
        && old(Live(c.mem, c.white)) <= Live(c.mem, c.white)
    ensures ncl in c.mem.objs && |c.mem.objs[ncl].slots| == |old(c.mem).objs[ncl].slots|
    ensures c.mem.objs[ncl] == old(c.mem).objs[ncl].(slots := old(c.mem).objs[ncl].slots[1
        + i := c.mem.objs[ncl].slots[1 + i]])
    ensures forall q | q in old(c.mem).objs && q != ncl :: q in c.mem.objs && c.mem.objs[q] == old(c.mem).objs[q]
    ensures Filled(c.mem, c.current, capture, outer, c.mem.objs[ncl].slots[1 + i])
  {
    hide StateOk, RingOk, Live, Collector.Roots, Slots, Dead;
    var u := outer;
    if capture.InStack? { u := FindUpval(c, capture.idx); }
    FillField(c, ncl, 1 + i, u);
  }

  /** The upvalues of a new closure: of its own function's variables, or from `outer`. */
  method FillUpvals(c: Collector, ncl: Ref, captures: seq<Capture>, outer: seq<Ref>)
    requires Ready(c) && ncl != c.current && Closure(c.mem, ncl, 1 + |captures|) && |outer| == |captures|
    requires forall j | 0 <= j < |captures| :: if captures[j].InStack? then captures[j].idx < |Stack(c)|
        else Usable(c, outer[j])
    modifies c`mem, c`open, c`uvhead, c`ring, c`gray, c`grayagain
    ensures Ready(c) && Stack(c) == old(Stack(c)) && c.mem.cache == old(c.mem).cache
        && old(Live(c.mem, c.white)) <= Live(c.mem, c.white)
    ensures Closure(c.mem, ncl, 1 + |captures|) && c.mem.objs[ncl].slots[0] == old(c.mem).objs[ncl].slots[0]
    ensures forall q | q in old(c.mem).objs && q != ncl :: q in c.mem.objs && c.mem.objs[q] == old(c.mem).objs[q]
    ensures forall j | 0 <= j < |captures| :: Filled(c.mem, c.current, captures[j], outer[j],
        c.mem.objs[ncl].slots[1 + j])
  {
    hide StateOk, RingOk, Live, Collector.Roots, Slots, Ready;
    ReadyCurrent(c);
    for i := 0 to |captures|
      invariant Ready(c) && c.current in c.mem.objs && Stack(c) == old(Stack(c)) && c.mem.cache == old(c.mem).cache
          && old(Live(c.mem, c.white)) <= Live(c.mem, c.white)
      invariant Closure(c.mem, ncl, 1 + |captures|) && c.mem.objs[ncl].slots[0] == old(c.mem).objs[ncl].slots[0]
      invariant forall q | q in old(c.mem).objs && q != ncl :: q in c.mem.objs && c.mem.objs[q] == old(c.mem).objs[q]
      invariant forall j | 0 <= j < i :: Filled(c.mem, c.current, captures[j], outer[j], c.mem.objs[ncl].slots[1 + j])
    {
      ghost var m1 := c.mem;
      FillUpval(c, ncl, i, captures[i], outer[i]);
      forall j | 0 <= j < i ensures Filled(c.mem, c.current, captures[j], outer[j], c.mem.objs[ncl].slots[1 + j]) {
        assert Filled(m1, c.current, captures[j], outer[j], m1.objs[ncl].slots[1 + j]);
      }
      ReadyCurrent(c);
    }
  }

  lemma {:induction false} ReadyCurrent(c: Collector)
    requires Ready(c)
    ensures IsKind(c.mem, c.current, KThread) && NIL !in c.mem.objs
  {
    hide RingOk, PhaseOk, Linked, Closed;
  }

  /** pushclosure: a new closure of prototype `f`, put on the stack before its
      upvalues are filled in, and remembered by `f`. */
  method MakeClosure(c: Collector, dst: nat, f: Ref, captures: seq<Capture>) returns (ncl: Ref)
    requires Ready(c) && dst < |Stack(c)| && f in Stack(c) && IsKind(c.mem, f, KProto)
    requires forall u | u in captures :: CaptureOk(c.mem, Stack(c), u)
    modifies c`mem, c`open, c`allgc, c`sweepgc, c`uvhead, c`ring, c`gray, c`grayagain
    ensures Ready(c) && c.current in c.mem.objs && Stack(c) == old(Stack(c))[dst := ncl]
    ensures ncl !in old(c.mem).objs && Closure(c.mem, ncl, 1 + |captures|)
    ensures c.mem.objs[ncl].slots[0] == f && c.mem.cache == old(c.mem).cache[f := ncl]
    ensures forall q | q in old(c.mem).objs && q != c.current :: q in c.mem.objs && c.mem.objs[q] == old(c.mem).objs[q]
    ensures forall j | 0 <= j < |captures| :: Filled(c.mem, c.current, captures[j],
        old(Outers(c.mem, Stack(c), captures)[j]), c.mem.objs[ncl].slots[1 + j])
  {
    hide Ready, Live, Slots, Dead;
    ReadyCurrent(c);
    var outer := Outers(c.mem, Stack(c), captures);
    OuterUsable(c, captures);
    ncl := NewClosure(c, dst, f, |captures|);
    FillUpvals(c, ncl, captures, outer);
    SetProtoCache(c, f, ncl);
  }

  function Outers(m: Mem, stack: seq<Ref>, captures: seq<Capture>): (r: seq<Ref>)
    requires forall u | u in captures :: CaptureOk(m, stack, u)
    ensures |r| == |captures|
  {
    seq(|captures|, j requires 0 <= j < |captures| => assert captures[j] in captures; Outer(m, stack, captures[j]))
  }

  /** The stack and the upvalues of a closure on it are at the program's disposal. */
  lemma {:induction false} OuterUsable(c: Collector, captures: seq<Capture>)
    requires Ready(c) && forall u | u in captures :: CaptureOk(c.mem, Stack(c), u)
    ensures forall j | 0 <= j < |captures| :: if captures[j].InStack? then captures[j].idx < |Stack(c)|
        else Usable(c, Outers(c.mem, Stack(c), captures)[j])
  {
    hide StateOk, RingOk, Live, Collector.Roots, Slots;
    StackUsable(c);
    StateSafe(c.State());
    forall j | 0 <= j < |captures|
      ensures if captures[j].InStack? then captures[j].idx < |Stack(c)|
        else Usable(c, Outers(c.mem, Stack(c), captures)[j])
    {
      var u := captures[j];
      assert u in captures;
      if u.Enclosing? { FieldAlive(c.State(), Stack(c)[u.cl], u.i); }
    }
  }

  // ----- Whole runs -----

  /** One step of the program, on slots of the stack of the running thread, or
      of the collector. A step whose operands do not exist does nothing. */
  datatype Action =
    | Collect
    | FullCollect
    | Copy(dst: nat, src: nat)
    | Clear(dst: nat)
    | Leave(level: nat)
    | New(dst: nat, kind: Kind, size: nat)
    | Intern(dst: nat, hash: nat, fixed: bool)
    | Reuse(dst: nat, chain: nat, pos: nat)
    | Read(dst: nat, src: nat, field: nat)
    | Write(dst: nat, field: nat, src: nat)
    | MakeLua(dst: nat, src: nat, captures: seq<Capture>)
    | Cached(dst: nat, src: nat)
    | Registry(src: nat)
    | Metatable(tag: nat, src: nat)
    | Switch(src: nat)
    | Yield

  /** The state as the program can see it, with the lists luaF_close and new objects change. */
  datatype Shot = Shot(mem: Mem, white: bool, open: map<Ref, seq<Ref>>, allgc: seq<Ref>, strt: seq<seq<Ref>>,
      mt: seq<Ref>, registry: Ref, main: Ref, current: Ref) {
    ghost predicate Ok() {
      current in mem.objs
    }

    function Stack(): seq<Ref>
      requires Ok()
    {
      mem.objs[current].slots
    }

    function Roots(): set<Ref> {
      set r | r in [main, current, registry] + mt && r != NIL
    }
  }

  ghost function Now(c: Collector): Shot
    reads c
  {
    Shot(c.mem, c.white, c.open, c.allgc, c.strt, c.mt, c.registry, c.mainthread, c.current)
  }

  /** What a step does, from state `s` to `t`. If its operands do not exist it
      does nothing. A step of the collector changes nothing the program can reach. */
  ghost predicate Did(a: Action, s: Shot, t: Shot)
    requires s.Ok()
  {
    match a
    case Collect => Collected(s, t)
    case FullCollect => Collected(s, t)
    case Copy(dst, src) => if dst <= |s.Stack()| && src < |s.Stack()| then Moved(s, t, dst, s.Stack()[src]) else t == s
    case Clear(dst) => if dst <= |s.Stack()| then Moved(s, t, dst, NIL) else t == s
    case Leave(level) => if level <= |s.Stack()| then Left(s, t, level) else t == s
    case New(dst, kind, size) => if dst <= |s.Stack()| then IsNew(s, t, dst, kind, size) else t == s
    case Intern(dst, hash, fixed) => if dst <= |s.Stack()| then IsString(s, t, dst, hash, fixed) else t == s
    case Reuse(dst, chain, pos) =>
      if dst <= |s.Stack()| && chain < |s.strt| && pos < |s.strt[chain]| then Moved(s, t, dst, s.strt[chain][pos])
          else t == s
    case Read(dst, src, field) =>
      if dst <= |s.Stack()| && src < |s.Stack()| && s.Stack()[src] in s.mem.objs
          && field < |Slots(s.mem, s.Stack()[src])|
      then Moved(s, t, dst, Slots(s.mem, s.Stack()[src])[field]) else t == s
    case Write(dst, field, src) =>
      if dst < |s.Stack()| && src < |s.Stack()| && MayWrite(s.mem, s.Stack()[dst], field) then HasWritten(s, t,
          s.Stack()[dst], field, s.Stack()[src]) else t == s
    case MakeLua(dst, src, captures) =>
      if dst < |s.Stack()| && src < |s.Stack()| && IsKind(s.mem, s.Stack()[src], KProto) && (forall u | u in captures ::
          CaptureOk(s.mem, s.Stack(), u))
      then HasClosure(s, t, dst, s.Stack()[src], captures) else t == s
    case Cached(dst, src) =>
      if dst <= |s.Stack()| && src < |s.Stack()| && s.Stack()[src] in s.mem.cache && s.Stack()[src] in s.mem.objs
      then Moved(s, t, dst, s.mem.cache[s.Stack()[src]]) else t == s
    case Registry(src) => t == if src < |s.Stack()| then s.(registry := s.Stack()[src]) else s
    case Metatable(tag, src) => t == if tag < |s.mt| && src < |s.Stack()| then s.(mt := s.mt[tag := s.Stack()[src]])
        else s
    case Switch(src) => t == if src < |s.Stack()| && IsKind(s.mem, s.Stack()[src],
        KThread) then s.(current := s.Stack()[src]) else s
    case Yield => t == s.(current := s.main)
  }

  /** The roots, and what is reachable from them, are as they were. */
  ghost predicate Collected(s: Shot, t: Shot)
    requires s.Ok()
  {
    && t.Ok() && t.Stack() == s.Stack() && t.current == s.current && t.main == s.main && t.registry == s.registry
        && t.mt == s.mt
    && SameReach(s.mem, t.mem, s.Roots())
  }

  /** Slot `dst` of the stack has `v`, and no other object changed. */
  ghost predicate Moved(s: Shot, t: Shot, dst: nat, v: Ref)
    requires s.Ok()
  {
    t == s.(mem := t.mem) && t.mem.cache == s.mem.cache && t.mem.objs == OnStack(s.mem.objs, s.current, dst, v)
  }

  ghost predicate Left(s: Shot, t: Shot, level: nat)
    requires s.Ok() && level <= |s.Stack()|
  {
    && t == s.(mem := t.mem, open := t.open, allgc := t.allgc) && t.Ok() && t.Stack() == s.Stack()[..level]
    && ClosedAbove(s.mem, t.mem, s.white, s.open, t.open, t.allgc, s.current, level)
        && SameButStack(s.mem, t.mem, s.white, s.current)
  }

  /** The new object `r` is in the heap, and in slot `dst` of the stack. */
  ghost predicate Made(s: Shot, t: Shot, dst: nat, r: Ref, o: Obj)
    requires s.Ok()
  {
    && r !in s.mem.objs && r != NIL && t.mem.cache == s.mem.cache
    && t.mem.objs == OnStack(s.mem.objs[r := o], s.current, dst, r)
  }

  ghost predicate IsNew(s: Shot, t: Shot, dst: nat, kind: Kind, size: nat)
    requires s.Ok() && dst <= |s.Stack()|
  {
    && t.Ok() && dst < |t.Stack()|
    && var r := t.Stack()[dst];
      && Made(s, t, dst, r, Obj(kind, Allgc, false, Nils(if kind == KString then 0 else size)))
      && t == s.(mem := t.mem, allgc := [r] + s.allgc, open := if kind == KThread then s.open[r := []] else s.open)
  }

  /** The string in slot `dst` is new, as it was interned in memory `m`. */
  ghost predicate IsString(s: Shot, t: Shot, dst: nat, hash: nat, fixed: bool)
    requires s.Ok() && dst <= |s.Stack()|
  {
    exists m: Mem, r: Ref ::
      && Interned(s.mem, s.strt, m, t.strt, s.white, r, hash, fixed) && s.current in m.objs && m.objs[s.current]
          == s.mem.objs[s.current]
      && t == s.(mem := t.mem, strt := t.strt) && t.mem.cache == m.cache && t.mem.objs == OnStack(m.objs, s.current,
          dst, r)
  }

  ghost predicate HasWritten(s: Shot, t: Shot, o: Ref, field: nat, v: Ref)
    requires s.Ok() && o in s.mem.objs
  {
    && t == s.(mem := t.mem) && t.mem.cache == s.mem.cache && t.mem.objs == Wrote(s.mem, o, field, v)
    && o in t.mem.objs && field < |Slots(t.mem, o)| && Slots(t.mem, o)[field] == v
  }

  /** The closure in slot `dst` is new, of prototype `f`, which remembers it; each
      upvalue is that of its slot, or of the enclosing closure. */
  ghost predicate HasClosure(s: Shot, t: Shot, dst: nat, f: Ref, captures: seq<Capture>)
    requires s.Ok() && dst < |s.Stack()| && forall u | u in captures :: CaptureOk(s.mem, s.Stack(), u)
  {
    && t == s.(mem := t.mem, open := t.open, allgc := t.allgc) && t.Ok() && dst < |t.Stack()|
    && var ncl := t.Stack()[dst];
      && t.Stack() == s.Stack()[dst := ncl] && ncl !in s.mem.objs && Closure(t.mem, ncl, 1 + |captures|)
      && t.mem.objs[ncl].slots[0] == f && t.mem.cache == s.mem.cache[f := ncl]
      && (forall q | q in s.mem.objs && q != s.current :: q in t.mem.objs && t.mem.objs[q] == s.mem.objs[q])
      && forall j | 0 <= j < |captures| :: Filled(t.mem, s.current, captures[j], Outers(s.mem, s.Stack(), captures)[j],
          t.mem.objs[ncl].slots[1 + j])
  }

  /** A field of an object, or one past the last; an upvalue has one only. */
  predicate MayWrite(m: Mem, t: Ref, field: nat) {
    t in m.objs && m.objs[t].kind != KString && field < |Slots(m, t)| + (if m.objs[t].kind == KUpval then 0 else 1)
  }

  // ----- What the steps come to, slot by slot -----

  /** Steps that move a value to the stack: it has that value in slot `dst`, is one
      slot longer if `dst` was its top, and nothing else changed. */
  lemma {:induction false} MoveEffect(a: Action, s: Shot, t: Shot, v: Ref)
    requires s.Ok() && Did(a, s, t)
    requires (a.Copy? && a.src < |s.Stack()| && v == s.Stack()[a.src]) || (a.Clear? && v == NIL)
        || (a.Reuse? && a.chain < |s.strt| && a.pos < |s.strt[a.chain]| && v == s.strt[a.chain][a.pos])
        || (a.Read? && a.src < |s.Stack()| && s.Stack()[a.src] in s.mem.objs
            && a.field < |Slots(s.mem, s.Stack()[a.src])| && v == Slots(s.mem, s.Stack()[a.src])[a.field])
        || (a.Cached? && a.src < |s.Stack()| && s.Stack()[a.src] in s.mem.cache && s.Stack()[a.src] in s.mem.objs
            && v == s.mem.cache[s.Stack()[a.src]])
    requires a.dst <= |s.Stack()|
    ensures t == s.(mem := t.mem) && t.mem.cache == s.mem.cache && t.mem.objs.Keys == s.mem.objs.Keys
    ensures |t.Stack()| == (if a.dst < |s.Stack()| then |s.Stack()| else a.dst + 1) && t.Stack()[a.dst] == v
    ensures forall j | 0 <= j < |s.Stack()| && j != a.dst :: t.Stack()[j] == s.Stack()[j]
    ensures t.mem.objs[s.current] == s.mem.objs[s.current].(slots := t.Stack())
    ensures forall q | q in s.mem.objs && q != s.current :: t.mem.objs[q] == s.mem.objs[q]
  {
    hide Collected, Left, IsNew, IsString, HasWritten, HasClosure, Slots, IsKind, MayWrite;
  }

  /** A new object: empty fields, an address not in use before, in slot `dst`. */
  lemma {:induction false} NewEffect(s: Shot, t: Shot, dst: nat, kind: Kind, size: nat)
    requires s.Ok() && dst <= |s.Stack()| && Did(New(dst, kind, size), s, t)
    ensures t.Ok() && |t.Stack()| == (if dst < |s.Stack()| then |s.Stack()| else dst + 1)
    ensures forall j | 0 <= j < |s.Stack()| && j != dst :: t.Stack()[j] == s.Stack()[j]
    ensures var r := t.Stack()[dst];
      && r != NIL && r !in s.mem.objs && t.mem.objs.Keys == s.mem.objs.Keys + {r} && t.allgc == [r] + s.allgc
      && t.mem.objs[r].kind == kind && t.mem.objs[r].place == Allgc && !t.mem.objs[r].fixed
      && |t.mem.objs[r].slots| == (if kind == KString then 0 else size)
      && (forall k | k in t.mem.objs[r].slots :: k == 0)
      && forall q | q in s.mem.objs && q != s.current :: t.mem.objs[q] == s.mem.objs[q]
  {
    hide Collected, Left, Moved, IsString, HasWritten, HasClosure, Slots, IsKind, MayWrite;
  }

  /** A new string, in slot `dst` and first in the chain of its hash: what was alive is as
      it was, and the table is doubled if there are as many strings as chains. */
  lemma {:induction false} StringEffect(s: Shot, t: Shot, dst: nat, hash: nat, fixed: bool)
    requires s.Ok() && dst <= |s.Stack()| && IsKind(s.mem, s.current, KThread) && Did(Intern(dst, hash, fixed), s, t)
    requires StrtOk(s.mem.objs, s.strt)
    ensures var n := |set r | r in s.mem.objs && s.mem.objs[r].place.InTable?|;
      |t.strt| == if n >= |s.strt| && |s.strt| <= 0x3FFF_FFFF then 2 * |s.strt| else |s.strt|
    ensures |t.strt| > 0 && dst < |t.Stack()| && t.strt[hash % |t.strt|] != []
        && t.strt[hash % |t.strt|][0] == t.Stack()[dst]
    ensures t.Ok() && |t.Stack()| == (if dst < |s.Stack()| then |s.Stack()| else dst + 1)
    ensures forall j | 0 <= j < |s.Stack()| && j != dst :: t.Stack()[j] == s.Stack()[j]
    ensures var r := t.Stack()[dst];
      && r != NIL && r !in Live(s.mem, s.white) && r in t.mem.objs
      && t.mem.objs[r] == Obj(KString, InTable(hash), fixed, [])
      && (forall q | q in Live(s.mem, s.white) :: q in t.mem.objs)
      && forall q | q in t.mem.objs && q != s.current && q != r :: q in s.mem.objs && t.mem.objs[q] == s.mem.objs[q]
  {
    hide Collected, Left, Moved, IsNew, HasWritten, HasClosure, Slots, MayWrite, Live, InUse, StrtOk;
    InUseIs(s.mem.objs, s.strt);
  }

  /** A write: the field has the value, the object is one field longer if the field
      was one past its last, and nothing else changed. The value of an open upvalue
      is in the slot of the stack it names; the upvalue itself does not change. */
  lemma {:induction false} WriteEffect(s: Shot, t: Shot, dst: nat, field: nat, src: nat)
    requires s.Ok() && dst < |s.Stack()| && src < |s.Stack()| && Did(Write(dst, field, src), s, t)
    requires var o := s.Stack()[dst];
      && o in s.mem.objs && s.mem.objs[o].kind != KString
      && if IsOpen(s.mem.objs[o]) then
           var p := s.mem.objs[o].place; field == 0 && p.th in s.mem.objs && p.idx < |s.mem.objs[p.th].slots|
         else field < |s.mem.objs[o].slots| + if s.mem.objs[o].kind == KUpval then 0 else 1
    ensures t == s.(mem := t.mem) && t.mem.cache == s.mem.cache && t.mem.objs.Keys == s.mem.objs.Keys
    ensures var o, v := s.Stack()[dst], s.Stack()[src];
      var home := if IsOpen(s.mem.objs[o]) then s.mem.objs[o].place.th else o;
      var i := if IsOpen(s.mem.objs[o]) then s.mem.objs[o].place.idx else field;
      && home in s.mem.objs
      && var was, now := s.mem.objs[home].slots, t.mem.objs[home].slots;
         && |now| == (if i < |was| then |was| else i + 1) && now[i] == v
         && (forall j | 0 <= j < |was| && j != i :: now[j] == was[j])
         && t.mem.objs[home] == s.mem.objs[home].(slots := now)
         && forall q | q in s.mem.objs && q != home :: t.mem.objs[q] == s.mem.objs[q]
  {
    hide Collected, Left, Moved, IsNew, IsString, HasClosure, IsKind;
  }

  /** A new closure: its prototype first, then for each captured variable the open
      upvalue of its slot, or what the closure in slot `cl` has in its field `i`. */
  lemma {:induction false} ClosureEffect(s: Shot, t: Shot, dst: nat, src: nat, captures: seq<Capture>)
    requires s.Ok() && dst < |s.Stack()| && src < |s.Stack()| && Did(MakeLua(dst, src, captures), s, t)
    requires IsKind(s.mem, s.Stack()[src], KProto)
    requires forall j | 0 <= j < |captures| ::
      match captures[j]
      case InStack(idx) => idx < |s.Stack()|
      case Enclosing(cl, i) =>
        && cl < |s.Stack()| && s.Stack()[cl] in s.mem.objs && !IsOpen(s.mem.objs[s.Stack()[cl]])
        && i < |s.mem.objs[s.Stack()[cl]].slots|
    ensures t.Ok() && |t.Stack()| == |s.Stack()|
        && forall j | 0 <= j < |s.Stack()| && j != dst :: t.Stack()[j] == s.Stack()[j]
    ensures var r := t.Stack()[dst];
      && r !in s.mem.objs && r in t.mem.objs && t.mem.objs[r].kind == KLClosure
      && |t.mem.objs[r].slots| == 1 + |captures| && t.mem.objs[r].slots[0] == s.Stack()[src]
      && s.Stack()[src] in t.mem.cache && t.mem.cache[s.Stack()[src]] == r
      && (forall f | f in s.mem.cache && f != s.Stack()[src] :: f in t.mem.cache && t.mem.cache[f] == s.mem.cache[f])
      && (forall q | q in s.mem.objs && q != s.current :: q in t.mem.objs && t.mem.objs[q] == s.mem.objs[q])
      && forall j | 0 <= j < |captures| ::
           var v := t.mem.objs[r].slots[1 + j];
           match captures[j]
           case InStack(idx) => v in t.mem.objs && t.mem.objs[v].place == Open(s.current, idx)
           case Enclosing(cl, i) => v == s.mem.objs[s.Stack()[cl]].slots[i]
  {
    hide Collected, Left, Moved, IsNew, IsString, HasWritten;
    assert forall u | u in captures :: CaptureOk(s.mem, s.Stack(), u);
    var r := t.Stack()[dst];
    forall j | 0 <= j < |captures|
      ensures CaptureOk(s.mem, s.Stack(), captures[j])
      ensures Filled(t.mem, s.current, captures[j], Outer(s.mem, s.Stack(), captures[j]), t.mem.objs[r].slots[1 + j])
    {
      assert captures[j] in captures;
      assert Filled(t.mem, s.current, captures[j], Outers(s.mem, s.Stack(), captures)[j], t.mem.objs[r].slots[1 + j]);
    }
  }

  /** Leaving a block: its slots are gone, an upvalue that was open in one of them has
      the value itself if it is alive and is gone if not, and one in a lower slot is as
      it was. */
  lemma {:induction false} LeaveEffect(s: Shot, t: Shot, level: nat, u: Ref, idx: nat)
    requires s.Ok() && level <= |s.Stack()| && Did(Leave(level), s, t)
    requires s.current in s.open && s.current !in s.open[s.current] && u in s.open[s.current] && u in s.mem.objs
        && s.mem.objs[u].place == Open(s.current, idx) && idx < |s.Stack()|
    ensures t.Ok() && |t.Stack()| == level && forall j | 0 <= j < level :: t.Stack()[j] == s.Stack()[j]
    ensures forall q | q in s.mem.objs && q != s.current && q !in s.open[s.current] ::
        q in t.mem.objs && t.mem.objs[q] == s.mem.objs[q]
    ensures s.current in t.open && (u in t.open[s.current] <==> idx < level)
    ensures idx < level ==> u in t.mem.objs && t.mem.objs[u] == s.mem.objs[u]
    ensures idx >= level && Dead(s.mem, s.white, u) ==> u !in t.mem.objs
    ensures idx >= level && !Dead(s.mem, s.white, u) ==>
      u in t.mem.objs && t.mem.objs[u].place == Allgc && t.mem.objs[u].slots == [s.Stack()[idx]] && u in t.allgc
  {
    hide Collected, Moved, IsNew, IsString, HasWritten, HasClosure, Pushed, Dead;
    assert idx >= level ==> ClosedOrFreed(s.mem, t.mem, s.white, t.allgc, u);
  }

  /** A step of the collector, or a whole collection: an object at the end of a way from
      a root, field by field, is there afterwards, with the same in its fields. */
  lemma {:induction false} CollectEffect(a: Action, s: Shot, t: Shot, p: seq<Ref>)
    requires s.Ok() && Did(a, s, t) && (a.Collect? || a.FullCollect?)
    requires p != [] && p[0] in [s.main, s.current, s.registry] + s.mt
    requires forall i | 0 <= i < |p| :: p[i] != 0 && p[i] in s.mem.objs && !s.mem.objs[p[i]].place.Open?
    requires forall i | 0 <= i < |p| - 1 :: p[i + 1] in s.mem.objs[p[i]].slots
    ensures var r := p[|p| - 1];
      && r in t.mem.objs && t.mem.objs[r].kind == s.mem.objs[r].kind && Slots(t.mem, r) == s.mem.objs[r].slots
    ensures t.Ok() && t.Stack() == s.Stack() && t.registry == s.registry && t.mt == s.mt && t.current == s.current
  {
    hide Left, Moved, IsNew, IsString, HasWritten, HasClosure;
    var r := p[|p| - 1];
    assert r in ReachSet(s.mem, s.Roots()) by {
      assert p[0] in s.Roots();
      forall i | 0 <= i < |p| - 1 ensures PointsTo(s.mem, p[i], p[i + 1]) {}
      assert IsPath(s.mem, s.Roots(), p);
    }
    hide ReachSet;
  }

  /** Steps that change a root. */
  lemma {:induction false} RootEffect(a: Action, s: Shot, t: Shot)
    requires s.Ok() && Did(a, s, t) && (a.Registry? || a.Metatable? || a.Switch? || a.Yield?)
    ensures t == s.(registry := t.registry, mt := t.mt, current := t.current) && |t.mt| == |s.mt|
    ensures a.Registry? && a.src < |s.Stack()| ==>
      t.registry == s.Stack()[a.src] && t.mt == s.mt && t.current == s.current
    ensures a.Metatable? && a.src < |s.Stack()| && a.tag < |s.mt| ==>
      && t.registry == s.registry && t.current == s.current && t.mt[a.tag] == s.Stack()[a.src]
      && forall i | 0 <= i < |s.mt| && i != a.tag :: t.mt[i] == s.mt[i]
    ensures a.Switch? && a.src < |s.Stack()| && IsKind(s.mem, s.Stack()[a.src], KThread) ==>
      t.current == s.Stack()[a.src] && t.registry == s.registry && t.mt == s.mt
    ensures a.Yield? ==> t.current == s.main && t.registry == s.registry && t.mt == s.mt
  {
    hide Collected, Left, Moved, IsNew, IsString, HasWritten, HasClosure;
  }

  /** Every step of the program or the collector, in any state, keeps the whole
      invariant and does what it should and no more. */
  method Step(c: Collector, a: Action)
    requires Ready(c)
    modifies c
    ensures Ready(c) && old(Now(c)).Ok() && Did(a, old(Now(c)), Now(c))
  {
    hide Ready, SameReach, Slots, SameLive, Moved, Left, IsNew, IsString, HasWritten, HasClosure, Collected, Closure,
        Filled, Outers;
    ReadyCurrent(c);
    match a {
      case Collect => Tick(c, false);
      case FullCollect => Tick(c, true);
      case Leave(level) => if level <= |Stack(c)| { StepLeave(c, level); }
      case MakeLua(dst, src, captures) =>
        if dst < |Stack(c)| && src < |Stack(c)| && IsKind(c.mem, Stack(c)[src], KProto) && forall u | u in captures ::
            CaptureOk(c.mem, Stack(c), u) {
          StepClosure(c, dst, Stack(c)[src], captures);
        }
      case New(dst, kind, size) => if dst <= |Stack(c)| { StepNew(c, dst, kind, size); }
      case Intern(dst, hash, fixed) => if dst <= |Stack(c)| { StepString(c, dst, hash, fixed); }
      case Reuse(dst, chain, pos) => if dst <= |Stack(c)| && chain < |c.strt|
          && pos < |c.strt[chain]| { StepReuse(c, dst, chain, pos); }
      case Registry(_) => StepRoots(c, a);
      case Metatable(_, _) => StepRoots(c, a);
      case Switch(_) => StepRoots(c, a);
      case Yield => StepRoots(c, a);
      case Copy(_, _) => StepMove(c, a);
      case Clear(_) => StepMove(c, a);
      case Read(_, _, _) => StepField(c, a);
      case Write(_, _, _) => StepField(c, a);
      case Cached(_, _) => StepMove(c, a);
    }
  }

  method StepLeave(c: Collector, level: nat)
    requires Ready(c) && level <= |Stack(c)|
    modifies c`mem, c`gray, c`grayagain, c`open, c`uvhead, c`ring, c`allgc, c`sweepgc
    ensures Ready(c) && Left(old(Now(c)), Now(c), level)
  {
    hide Ready, ClosedAbove, SameButStack;
    ReadyCurrent(c);
    Pop(c, level);
    ReadyCurrent(c);
  }

  method StepClosure(c: Collector, dst: nat, f: Ref, captures: seq<Capture>)
    requires Ready(c) && dst < |Stack(c)| && f in Stack(c) && IsKind(c.mem, f, KProto)
    requires forall u | u in captures :: CaptureOk(c.mem, Stack(c), u)
    modifies c`mem, c`open, c`allgc, c`sweepgc, c`uvhead, c`ring, c`gray, c`grayagain
    ensures Ready(c) && HasClosure(old(Now(c)), Now(c), dst, f, captures)
  {
    hide Ready, Slots, Closure, Filled;
    ReadyCurrent(c);
    var ncl := MakeClosure(c, dst, f, captures);
  }

  method Tick(c: Collector, full: bool)
    requires Ready(c)
    modifies c
    ensures Ready(c) && Collected(old(Now(c)), Now(c))
  {
    hide StateOk, RingOk, Collector.Valid, ReachSet, FixedSet;
    CurrentReached(c);
    StackSlots(c);
    if full { c.FullGC(); } else { c.SingleStep(); }
    StackSlots(c);
  }

  /** A thread is no upvalue: it refers to what is in its own slots. */
  lemma {:induction false} StackSlots(c: Collector)
    requires Ready(c)
    ensures Slots(c.mem, c.current) == Stack(c)
  {
    hide RingOk, PhaseOk, Linked, Closed, CachesIn;
    assert SaneObj(c.mem, c.current);
  }

  lemma {:induction false} CurrentReached(c: Collector)
    requires Ready(c)
    ensures c.current in ReachSet(c.mem, c.Roots())
  {
    hide StateOk, RingOk, ReachSet, Collector.Roots;
    CurrentRoot(c);
    StateSafe(c.State());
    ReachClosed(c.mem, c.white, c.Roots());
  }

  lemma {:induction false} MainIsThread(c: Collector)
    requires Ready(c)
    ensures IsKind(c.mem, c.mainthread, KThread)
  {
    hide RingOk, PhaseOk, Safe;
  }

  /** A new object, a new string or one found in the table is put on the stack. */
  method StepNew(c: Collector, dst: nat, kind: Kind, size: nat)
    requires Ready(c) && dst <= |Stack(c)|
    modifies c`mem, c`open, c`allgc, c`sweepgc, c`gray, c`grayagain
    ensures Ready(c) && IsNew(old(Now(c)), Now(c), dst, kind, size)
  {
    hide Ready, Live, Slots, Dead;
    ReadyCurrent(c);
    StackUsable(c);
    var r := NewObj(c, kind, if kind == KString then 0 else size);
    SetStack(c, dst, r);
  }

  method StepString(c: Collector, dst: nat, hash: nat, fixed: bool)
    requires Ready(c) && dst <= |Stack(c)|
    modifies c`mem, c`strt, c`sweepstrgc, c`gcstate, c`gray, c`grayagain
    ensures Ready(c) && IsString(old(Now(c)), Now(c), dst, hash, fixed)
  {
    hide Ready, Live, Slots, Dead, Interned;
    ReadyCurrent(c);
    StackUsable(c);
    ghost var s := Now(c);
    var r := NewString(c, hash, fixed);
    ghost var m := c.mem;
    CurrentKept(s, m, c.strt, r, hash, fixed);
    SetStack(c, dst, r);
  }

  lemma {:induction false} CurrentKept(s: Shot, m: Mem, strt: seq<seq<Ref>>, r: Ref, hash: nat, fixed: bool)
    requires s.current in Live(s.mem, s.white) && Interned(s.mem, s.strt, m, strt, s.white, r, hash, fixed)
    ensures s.current in s.mem.objs && s.current in m.objs && m.objs[s.current] == s.mem.objs[s.current] && r != NIL
  {
    hide Live, Lmod, Crowded;
    LiveInHeap(s.mem, s.white);
  }

  method StepReuse(c: Collector, dst: nat, chain: nat, pos: nat)
    requires Ready(c) && dst <= |Stack(c)| && chain < |c.strt| && pos < |c.strt[chain]|
    modifies c`mem, c`gray, c`grayagain
    ensures Ready(c) && Moved(old(Now(c)), Now(c), dst, old(c.strt[chain][pos]))
  {
    hide Ready, Live, Slots, Dead;
    ReadyCurrent(c);
    StackUsable(c);
    var r := FindString(c, chain, pos);
    SetStack(c, dst, r);
  }

  /** Steps that change a slot of the stack. */
  method StepMove(c: Collector, a: Action)
    requires Ready(c) && (a.Copy? || a.Clear? || a.Cached?)
    modifies c`mem, c`gray, c`grayagain
    ensures Ready(c) && Did(a, old(Now(c)), Now(c))
  {
    hide Ready, Live, Slots, Dead;
    ReadyCurrent(c);
    StackUsable(c);
    if a.Clear? {
      if a.dst <= |Stack(c)| { SetStack(c, a.dst, NIL); }
    } else if a.dst <= |Stack(c)| && a.src < |Stack(c)| {
      var o := Stack(c)[a.src];
      if a.Copy? {
        SetStack(c, a.dst, o);
      } else if o in c.mem.cache && o in c.mem.objs {
        CacheAlive(c, o);
        SetStack(c, a.dst, c.mem.cache[o]);
      }
    }
  }

  /** Steps that read or write a field of an object. */
  method StepField(c: Collector, a: Action)
    requires Ready(c) && (a.Read? || a.Write?)
    modifies c`mem, c`gray, c`grayagain
    ensures Ready(c) && Did(a, old(Now(c)), Now(c))
  {
    hide Ready, Live, Slots;
    ReadyCurrent(c);
    if a.dst <= |Stack(c)| && a.src < |Stack(c)| {
      if a.Read? {
        var o := Stack(c)[a.src];
        if o in c.mem.objs && a.field < |Slots(c.mem, o)| { Load(c, a.dst, a.src, a.field); }
      } else if a.dst < |Stack(c)| {
        var t := Stack(c)[a.dst];
        if MayWrite(c.mem, t, a.field) { Store(c, a.dst, a.field, a.src); }
      }
    }
  }

  /** Steps that change a root. */
  method StepRoots(c: Collector, a: Action)
    requires Ready(c) && (a.Registry? || a.Metatable? || a.Switch? || a.Yield?)
    modifies c`registry, c`mt, c`current
    ensures Ready(c) && old(Now(c)).Ok() && Did(a, old(Now(c)), Now(c))
  {
    hide Ready, Live, Slots, Dead, SameReach, Moved, Left, IsNew, IsString, HasWritten, HasClosure, Collected;
    ReadyCurrent(c);
    if a.Registry? {
      if a.src < |Stack(c)| { SetRegistry(c, a.src); }
    } else if a.Metatable? {
      if a.tag < |c.mt| && a.src < |Stack(c)| { SetMetatable(c, a.tag, a.src); }
    } else if a.Switch? {
      if a.src < |Stack(c)| && IsKind(c.mem, Stack(c)[a.src], KThread) { Resume(c, Stack(c)[a.src]); }
    } else {
      MainIsThread(c);
      Resume(c, c.mainthread);
    }
  }

  lemma {:induction false} CacheAlive(c: Collector, f: Ref)
    requires Ready(c) && Usable(c, f) && f in c.mem.objs && f in c.mem.cache
    ensures Usable(c, c.mem.cache[f])
  {
    hide RingOk, PhaseOk, Linked, Closed;
  }

  /** Whatever the program does and whenever the collector runs, everything
      reachable is there, and alive: no step ever freed it. */
  method Run(c: Collector, actions: seq<Action>)
    requires Ready(c)
    modifies c
    ensures Ready(c)
    ensures forall r | Reachable(c.mem, c.Roots(), r) :: r in c.mem.objs && !Dead(c.mem, c.white, r)
    ensures forall r | r in [c.mainthread, c.current, c.registry] + c.mt && r != NIL ::
        r in c.mem.objs && !Dead(c.mem, c.white, r)
    ensures forall r, k | r in c.mem.objs && !Dead(c.mem, c.white, r) && !c.mem.objs[r].place.Open?
        && k in c.mem.objs[r].slots && k != NIL :: k in c.mem.objs && !Dead(c.mem, c.white, k)
    ensures forall r | r in c.mem.objs && !Dead(c.mem, c.white, r) && c.mem.objs[r].place.Open? ::
        var p := c.mem.objs[r].place;
        && p.th in c.mem.objs && p.idx < |c.mem.objs[p.th].slots|
        && var k := c.mem.objs[p.th].slots[p.idx]; k != NIL ==> k in c.mem.objs && !Dead(c.mem, c.white, k)
    ensures c.gcstate == Propagate ==> NoBlackToWhite(c.mem)
  {
    hide StateOk, RingOk, Live, Collector.Roots, Collector.Valid, Dead, NoBlackToWhite;
    for i := 0 to |actions|
      invariant Ready(c)
    {
      Step(c, actions[i]);
    }
    ReachedAlive(c);
    PartsAlive(c);
    BlackMarked(c);
  }

  /** Roots are alive, and so is what live objects have in their fields. */
  lemma {:induction false} PartsAlive(c: Collector)
    requires Ready(c)
    ensures forall r | r in [c.mainthread, c.current, c.registry] + c.mt && r != NIL ::
        r in c.mem.objs && !Dead(c.mem, c.white, r)
    ensures forall r, k | r in c.mem.objs && !Dead(c.mem, c.white, r) && !c.mem.objs[r].place.Open?
        && k in c.mem.objs[r].slots && k != NIL :: k in c.mem.objs && !Dead(c.mem, c.white, k)
    ensures forall r | r in c.mem.objs && !Dead(c.mem, c.white, r) && c.mem.objs[r].place.Open? ::
        var p := c.mem.objs[r].place;
        && p.th in c.mem.objs && p.idx < |c.mem.objs[p.th].slots|
        && var k := c.mem.objs[p.th].slots[p.idx]; k != NIL ==> k in c.mem.objs && !Dead(c.mem, c.white, k)
  {
    hide RingOk, PhaseOk, Linked, Dead;
    forall r | r in [c.mainthread, c.current, c.registry] + c.mt && r != NIL
      ensures r in c.mem.objs && !Dead(c.mem, c.white, r)
    {
      assert r in c.Roots();
    }
    forall r, k | r in c.mem.objs && !Dead(c.mem, c.white, r) && !c.mem.objs[r].place.Open?
        && k in c.mem.objs[r].slots && k != NIL
      ensures k in c.mem.objs && !Dead(c.mem, c.white, k)
    {
      assert PointsTo(c.mem, r, k);
    }
    forall r | r in c.mem.objs && !Dead(c.mem, c.white, r) && c.mem.objs[r].place.Open?
      ensures var p := c.mem.objs[r].place;
        && p.th in c.mem.objs && p.idx < |c.mem.objs[p.th].slots|
        && var k := c.mem.objs[p.th].slots[p.idx]; k != NIL ==> k in c.mem.objs && !Dead(c.mem, c.white, k)
    {
      assert SaneObj(c.mem, r);
      var p := c.mem.objs[r].place;
      var k := c.mem.objs[p.th].slots[p.idx];
      assert k != NIL ==> PointsTo(c.mem, r, k);
    }
  }

  /** The invariant of lgc.h: a black object never points to a white one. */
  ghost predicate NoBlackToWhite(m: Mem) {
    forall r, k | r in m.col && m.col[r] == Black && PointsTo(m, r, k) :: Marked(m, k)
  }

  lemma {:induction false} BlackMarked(c: Collector)
    requires Ready(c)
    ensures c.gcstate == Propagate ==> NoBlackToWhite(c.mem)
  {
    hide Linked, Safe, GrayLists, GrayOk, AgainDone, Collector.Roots;
    if c.gcstate == Propagate {
      forall r, k | r in c.mem.col && c.mem.col[r] == Black && PointsTo(c.mem, r, k) ensures Marked(c.mem, k) {
        assert ObjOk(c.mem, c.white, c.gray, c.grayagain, {}, Scope([], c.mem.objs.Keys, false, c.mem.objs.Keys), r);
      }
    }
  }

  lemma {:induction false} ReachedAlive(c: Collector)
    requires Ready(c)
    ensures forall r | Reachable(c.mem, c.Roots(), r) :: r in c.mem.objs && !Dead(c.mem, c.white, r)
  {
    hide RingOk, PhaseOk, Linked, Sane, Collector.Roots;
    ReachableStays(c.mem, c.Roots(), Live(c.mem, c.white));
  }
}
