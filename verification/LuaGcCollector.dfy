/** The collector of modules/lua/lgc.c: marking, the atomic phase, sweeping
    and the single steps they are made of. */
module LuaGcCollector {
  import opened Common
  import opened LuaGcHeap
  import opened LuaGcMark
  import opened LuaGcLinks
  import opened LuaGcSweep
  import opened LuaUvRing
  import opened LuaGcResize

  /** Objects swept in one step: a quarter of 100 short strings' worth, for
      strings of 16 bytes. */
  const GCSWEEPMAX: nat := 80

  /** The number of chains of a new string table, and the largest int. */
  const MINSTRTABSIZE: nat := 32

  const MAX_INT: nat := 0x7FFF_FFFF

  class Collector {
    var mem: Mem
    var white: bool
    var gcstate: Phase
    var gray: seq<Ref>
    var grayagain: seq<Ref>
    /** The links of `uvhead`, and the open upvalues in the order of the ring. */
    var ring: Ring
    ghost var uvhead: seq<Ref>
    var open: map<Ref, seq<Ref>>
    var allgc: seq<Ref>
    var strt: seq<seq<Ref>>
    var sweepstrgc: nat
    var sweepgc: Option<nat>
    var mainthread: Ref
    var registry: Ref
    var mt: seq<Ref>
    var current: Ref

    /** lua_newstate: a main thread, an empty string table, and `tags` basic types
        without metatables. */
    constructor (main: Ref, tags: nat)
      requires main != NIL
      ensures Valid() && mem.objs == map[main := Obj(KThread, Main, false, [])] && mainthread == current == main
          && gcstate == Pause
    {
      hide RingOk, StateOk;
      mem := Mem(map[main := Obj(KThread, Main, false, [])], map[main := White0], map[]);
      white := false;
      gcstate := Pause;
      gray, grayagain, allgc := [], [], [];
      ring, uvhead := EMPTY, [];
      open := map[main := []];
      strt := seq(MINSTRTABSIZE, _ => []);
      sweepstrgc, sweepgc := 0, None;
      mainthread, current, registry := main, main, NIL;
      mt := seq(tags, _ => NIL);
      new;
      assert Roots() == {main};
      NewState(main, strt);
      EmptyOk();
    }

    // ----- Marking -----

    method MarkObject(k: Ref, ghost x: set<Ref>, ghost c: Scope)
      requires Tri(mem, white, gray, grayagain, x, c)
      requires k != NIL ==> k in mem.objs && k in c.reach
      modifies `mem, `gray
      ensures Tri(mem, white, gray, grayagain, x, c) && Darker(old(mem), mem)
      ensures k != NIL ==> Marked(mem, k)
      ensures Whites(mem) < old(Whites(mem)) || (mem == old(mem) && gray == old(gray))
      decreases Whites(mem), 2
    {
      hide Tri, ObjOk, Darker;
      if k != NIL {
        MarkedOrWhite(mem, white, gray, grayagain, x, c, k);
        if White(mem, k) {
          ReallyMark(k, x, c);
        }
      }
      DarkerSame(mem);
    }

    method MarkSlots(s: seq<Ref>, ghost x: set<Ref>, ghost c: Scope)
      requires Tri(mem, white, gray, grayagain, x, c)
      requires forall k | k in s && k != NIL :: k in mem.objs && k in c.reach
      modifies `mem, `gray
      ensures Tri(mem, white, gray, grayagain, x, c) && Darker(old(mem), mem)
      ensures forall k | k in s && k != NIL :: Marked(mem, k)
      ensures Whites(mem) < old(Whites(mem)) || (mem == old(mem) && gray == old(gray))
      decreases Whites(mem), 3
    {
      hide Tri, ObjOk;
      for i := 0 to |s|
        invariant Tri(mem, white, gray, grayagain, x, c) && Darker(old(mem), mem)
        invariant forall k | k in s[..i] && k != NIL :: Marked(mem, k)
        invariant Whites(mem) < old(Whites(mem)) || (mem == old(mem) && gray == old(gray))
      {
        ghost var m0 := mem;
        assert s[i] in s;
        MarkObject(s[i], x, c);
        DarkerTwice(old(mem), m0, mem);
        forall k | k in s[..i + 1] && k != NIL ensures Marked(mem, k) {
          if k != s[i] { assert k in s[..i] && Marked(m0, k); }
        }
      }
      assert s[..|s|] == s;
    }

    method ReallyMark(o: Ref, ghost x: set<Ref>, ghost c: Scope)
      requires Tri(mem, white, gray, grayagain, x, c)
      requires o in mem.objs && White(mem, o) && o in c.reach
      modifies `mem, `gray
      ensures Tri(mem, white, gray, grayagain, x, c) && Darker(old(mem), mem)
      ensures Marked(mem, o)
      ensures Whites(mem) < old(Whites(mem))
      decreases Whites(mem), 1
    {
      hide Tri, ObjOk, Darker, Sane, Done;
      ghost var m0 := mem;
      WhiteUnlisted(mem, white, gray, grayagain, x, c, o);
      Shade(mem, white, gray, grayagain, x, c, o, Gray);
      ShadeWhites(mem, o, Gray);
      mem := Paint(mem, o, Gray);
      var kind := mem.objs[o].kind;
      if kind == KString || kind == KUserdata || kind == KUpval {
        ghost var m1, g1 := mem, gray;
        SlotsBounded(mem, white, gray, grayagain, x + {o}, c, o);
        MarkSlots(Slots(mem, o), x + {o}, c);
        ghost var m2 := mem;
        Traversed(m1, mem, white, gray, grayagain, x + {o}, c, o);
        if IsOpen(mem.objs[o]) {
          SettleOpen(mem, white, gray, grayagain, x, c, o);
          DarkerTwice(m0, m1, mem);
          return;
        }
        WasUnlisted(mem, white, gray, grayagain, x + {o}, c, o);
        Shade(mem, white, gray, grayagain, x + {o}, c, o, Black);
        mem := Paint(mem, o, Black);
        SettleBlack(m2, mem, white, gray, grayagain, x, c, o);
        DarkerBlack(m0, m2, o);
      } else {
        PushGray(mem, white, gray, grayagain, x + {o}, c, o);
        gray := [o] + gray;
        SettleListed(mem, white, gray, grayagain, x, c, o);
      }
    }

    // ----- Propagation -----

    method PropagateMark(ghost c: Scope)
      requires Tri(mem, white, gray, grayagain, {}, c) && gray != []
      modifies `mem, `gray, `grayagain
      ensures Tri(mem, white, gray, grayagain, {}, c) && Grown(old(mem), mem)
      ensures Whites(mem) < old(Whites(mem)) || (Whites(mem) == old(Whites(mem)) && |gray| < old(|gray|))
    {
      hide Tri, ObjOk, Darker, Sane, Done, Grown;
      var o := gray[0];
      ghost var m0 := mem;
      HeadIsGray(mem, white, gray, grayagain, {}, c);
      PopGray(mem, white, gray, grayagain, {}, c);
      ghost var none: set<Ref> := {};
      assert none + {o} == {o};
      gray := gray[1..];
      SlotsBounded(mem, white, gray, grayagain, {o}, c, o);
      var slots := Slots(mem, o);
      if mem.objs[o].kind == KThread {
        PushAgain(mem, white, gray, grayagain, {o}, c, o);
        grayagain := [o] + grayagain;
        MarkSlots(slots, {o}, c);
        Traversed(m0, mem, white, gray, grayagain, {o}, c, o);
        SettleThread(mem, white, gray, grayagain, {}, c, o);
        DarkerGrown(m0, mem);
        DarkerWhites(m0, mem);
      } else {
        Shade(mem, white, gray, grayagain, {o}, c, o, Black);
        mem := Paint(mem, o, Black);
        assert {o} + {o} == {o};
        BlackGrown(m0, o);
        ghost var m1 := mem;
        if mem.objs[o].kind == KProto && o in mem.cache && White(mem, mem.cache[o]) {
          ClearCache(mem, white, gray, grayagain, {o}, c, o);
          mem := mem.(cache := mem.cache - {o});
        }
        ghost var m2 := mem;
        CacheMarked(m1, m2, white, gray, grayagain, {o}, c, o);
        GrownTwice(m0, m1, m2);
        MarkSlots(slots, {o}, c);
        DarkerGrown(m2, mem);
        DarkerWhites(m2, mem);
        GrownTwice(m0, m2, mem);
        SettleTraversed(m0, m2, mem, white, gray, grayagain, {}, c, o);
      }
    }

    method PropagateAll(ghost c: Scope)
      requires Tri(mem, white, gray, grayagain, {}, c)
      modifies `mem, `gray, `grayagain
      ensures Tri(mem, white, gray, grayagain, {}, c) && Grown(old(mem), mem) && gray == []
    {
      hide Tri, Grown;
      GrownSame(mem);
      while gray != []
        invariant Tri(mem, white, gray, grayagain, {}, c) && Grown(old(mem), mem)
        decreases Whites(mem), |gray|
      {
        ghost var m0 := mem;
        PropagateMark(c);
        GrownTwice(old(mem), m0, mem);
      }
    }

    // ----- The atomic phase -----

    ghost function Roots(): set<Ref>
      reads `mainthread, `current, `registry, `mt
    {
      set r | r in [mainthread, current, registry] + mt && r != NIL
    }

    /** markroot's three roots; `markmt` walks the metatables of basic types. */
    method MarkRoots(thread: Ref, ghost c: Scope)
      requires Tri(mem, white, gray, grayagain, {}, c)
      requires forall k | k in [thread, registry] + mt && k != NIL :: k in mem.objs && k in c.reach
      modifies `mem, `gray
      ensures Tri(mem, white, gray, grayagain, {}, c) && Grown(old(mem), mem)
      ensures forall k | k in [thread, registry] + mt && k != NIL :: Marked(mem, k)
    {
      hide Tri, Grown, Darker, Marked;
      ghost var m0 := mem;
      assert thread in [thread, registry] + mt && registry in [thread, registry] + mt;
      assert forall k | k in mt :: k in [thread, registry] + mt;
      MarkObject(thread, {}, c);
      ghost var m1 := mem;
      DarkerGrown(m0, m1);
      GrownObjs(m0, m1);
      MarkObject(registry, {}, c);
      ghost var m2 := mem;
      DarkerGrown(m1, m2);
      GrownObjs(m1, m2);
      MarkSlots(mt, {}, c);
      DarkerGrown(m2, mem);
      GrownTwice(m1, m2, mem);
      GrownTwice(m0, m1, mem);
      if thread != NIL { GrownMarked(m1, mem, thread); }
      if registry != NIL { GrownMarked(m2, mem, registry); }
    }

    /** remarkupvals, around the ring: the value of a marked open upvalue may have changed. */
    method RemarkUpvals(ghost c: Scope)
      requires Tri(mem, white, gray, grayagain, {}, c) && RingOk(ring, uvhead)
      requires forall r | r in mem.objs :: IsOpen(mem.objs[r]) <==> r in uvhead
      modifies `mem, `gray
      ensures Tri(mem, white, gray, grayagain, {}, c.(ups := {})) && Grown(old(mem), mem)
    {
      hide Tri, Grown, Darker, Done, RingOk, ObjOk, Marked, Sane;
      ghost var ups := c.ups;
      GrownSame(mem);
      assert c.(ups := ups) == c;
      RingStart(ring, uvhead);
      var uv := ring.next[HEAD];
      ghost var i := 0;
      while uv != HEAD
        invariant 0 <= i <= |uvhead| && uv == (if i < |uvhead| then uvhead[i] else HEAD)
        invariant Tri(mem, white, gray, grayagain, {}, c.(ups := ups)) && Grown(old(mem), mem)
            && mem.objs == old(mem.objs)
        invariant forall r | r in uvhead[..i] :: r !in ups
        decreases |uvhead| - i
      {
        ghost var m0 := mem;
        if uv in mem.col && mem.col[uv] == Gray {
          UpvalBounded(mem, white, gray, grayagain, {}, c.(ups := ups), uv);
          MarkSlots(Slots(mem, uv), {}, c.(ups := ups));
          DarkerGrown(m0, mem);
          GrownObjs(m0, mem);
          GrownTwice(old(mem), m0, mem);
          UpvalDone(m0, mem, white, gray, grayagain, {}, c.(ups := ups), uv);
        }
        DropUp(mem, white, gray, grayagain, {}, c.(ups := ups), uv);
        ups := ups - {uv};
        assert c.(ups := ups + {uv}).(ups := ups) == c.(ups := ups);
        assert forall r | r in uvhead[..i + 1] :: r in uvhead[..i] || r == uv;
        RingOn(ring, uvhead, i);
        uv := ring.next[uv];
        i := i + 1;
      }
      NoneIsHead(ring, uvhead);
      assert uvhead[..|uvhead|] == uvhead;
      DropUps(mem, white, gray, grayagain, {}, c.(ups := ups));
    }

    /** retraversegrays: with nothing gray, the objects in `grayagain` are traversed
        once more, as a list of its own. */
    method RetraverseGrays(ghost c: Scope)
      requires Tri(mem, white, gray, grayagain, {}, c) && gray == [] && c.hold == [] && !c.again && c.ups == {}
      modifies `mem, `gray, `grayagain
      ensures Tri(mem, white, gray, grayagain, {}, c.(again := true)) && Grown(old(mem), mem) && gray == []
    {
      hide Tri, Grown;
      ghost var m0 := mem;
      var saved := grayagain;
      SaveAgain(mem, white, saved, c);
      grayagain := [];
      ghost var c2 := c.(hold := saved, again := true);
      PropagateAll(c2);
      ghost var m1 := mem;
      RestoreHold(mem, white, grayagain, c2);
      gray := saved;
      assert c2.(hold := []) == c.(again := true);
      PropagateAll(c.(again := true));
      GrownTwice(m0, m1, mem);
    }

    /** After the atomic phase what is marked is closed and holds the roots;
        all else, fixed strings apart, has become dead. */
    method AtomicPhase(ghost c: Scope)
      requires Tri(mem, white, gray, grayagain, {}, c) && c.hold == [] && !c.again && RingOk(ring, uvhead)
      requires forall r | r in mem.objs :: IsOpen(mem.objs[r]) <==> r in uvhead
      requires mainthread != NIL && Marked(mem, mainthread) && Roots() <= mem.objs.Keys * c.reach
      modifies `mem, `gray, `grayagain, `white
      ensures white == !old(white) && Safe(mem, white, Roots())
      ensures mem.objs == old(mem.objs)
      ensures forall r | r in Live(mem, white) :: r in c.reach || mem.objs[r].fixed
      ensures forall p | p in mem.cache :: p in old(mem.cache) && mem.cache[p] == old(mem.cache[p])
    {
      hide Tri, Grown, Done, Safe, Marked;
      ghost var m0 := mem;
      assert forall k | k in [current, registry] + mt && k != NIL :: k in Roots() by {
        assert forall k | k in [current, registry] + mt :: k in [mainthread, current, registry] + mt;
      }
      MarkRoots(current, c);
      ghost var m1 := mem;
      GrownObjs(m0, m1);
      RemarkUpvals(c);
      ghost var m2 := mem;
      GrownTwice(m0, m1, m2);
      ghost var c1 := c.(ups := {});
      PropagateAll(c1);
      GrownTwice(m0, m2, mem);
      ghost var m3 := mem;
      RetraverseGrays(c1);
      ghost var c3 := c1.(again := true);
      GrownTwice(m0, m3, mem);
      GrownTwice(m1, m2, m3);
      GrownTwice(m1, m3, mem);
      GrownObjs(m0, mem);
      forall r | r in Roots() ensures Marked(mem, r) {
        if r == mainthread { GrownMarked(m0, mem, r); } else { GrownMarked(m1, mem, r); }
      }
      MarkedClosed(mem, white, grayagain, c3, Roots());
      white := !white;
    }

    // ----- Closing upvalues (modules/lua/lfunc.c) -----

    ghost predicate Lists(out: set<Ref>)
      reads this
    {
      Linked(mem.objs, open, allgc, strt, uvhead, mainthread, out) && RingOk(ring, uvhead)
    }

    /** luaC_checkupvalcolor: a gray upvalue that was just closed. */
    method CheckUpvalColor(uv: Ref, ghost c: Scope)
      requires Sane(mem) && uv in mem.objs && mem.objs[uv].kind == KUpval && mem.objs[uv].place == Allgc
      requires mem.col[uv] != Black && !Dead(mem, white, uv)
      requires gcstate == Propagate ==> Tri(mem, white, gray, grayagain, {uv}, c)
      modifies `mem, `gray
      ensures mem.objs == old(mem.objs) && mem.cache == old(mem.cache)
      ensures gcstate == Propagate ==> Tri(mem, white, gray, grayagain, {}, c) && forall r | Marked(old(mem), r) ::
          Marked(mem, r)
      ensures gcstate != Propagate ==>
        && mem == old(if mem.col[uv] == Gray then Paint(mem, uv, WhiteOf(white)) else mem)
        && mem.col[uv] == WhiteOf(white)
    {
      hide Tri, Sane, Done;
      SaneCol(mem, uv);
      if mem.col[uv] == Gray {
        if gcstate == Propagate {
          ghost var none: set<Ref> := {};
          assert none + {uv} == {uv} && {uv} + {uv} == {uv};
          WasUnlisted(mem, white, gray, grayagain, {uv}, c, uv);
          GrayInReach(mem, white, gray, grayagain, {uv}, c, uv);
          Shade(mem, white, gray, grayagain, {uv}, c, uv, Black);
          mem := Paint(mem, uv, Black);
          ghost var m1 := mem;
          SlotsBounded(mem, white, gray, grayagain, {uv}, c, uv);
          MarkSlots(Slots(mem, uv), {uv}, c);
          Traversed(m1, mem, white, gray, grayagain, {uv}, c, uv);
          WasUnlisted(mem, white, gray, grayagain, {uv}, c, uv);
          SettleOne(mem, white, gray, grayagain, {}, c, uv);
        } else {
          mem := Paint(mem, uv, WhiteOf(white));
        }
      } else {
        if gcstate == Propagate { SettleWhite(mem, white, gray, grayagain, c, uv); }
      }
    }

    /** luaF_findupval links a new upvalue behind the sentinel. */
    method LinkUpval(u: Ref)
      requires RingOk(ring, uvhead) && u !in uvhead && u != HEAD
      modifies `ring, `uvhead
      ensures RingOk(ring, uvhead) && uvhead == [u] + old(uvhead)
    {
      FirstLinked(ring, uvhead, u);
      ghost var k := LinkFirst(ring, u);
      Consistent(ring, uvhead, HEAD);
      ring := ring.(prev := ring.prev[u := HEAD]);
      ring := ring.(next := ring.next[u := ring.next[HEAD]]);
      ring := ring.(prev := ring.prev[ring.next[u] := u]);
      ring := ring.(next := ring.next[HEAD := u]);
      assert ring == k;
      uvhead := [u] + uvhead;
    }

    /** unlinkupval: its neighbours in the ring are linked to each other. */
    method UnlinkUpval(u: Ref)
      requires RingOk(ring, uvhead) && u in uvhead
      modifies `ring, `uvhead
      ensures RingOk(ring, uvhead) && uvhead == Unlink(old(uvhead), u)
    {
      Bypassed(ring, uvhead, u);
      Consistent(ring, uvhead, u);
      ghost var k := Bypass(ring, u);
      assert ring.prev[ring.next[u]] == u && ring.next[ring.prev[u]] == u;
      ring := ring.(prev := ring.prev[ring.next[u] := ring.prev[u]]);
      ring := ring.(next := ring.next[ring.prev[u] := ring.next[u]]);
      assert ring == k;
      uvhead := Unlink(uvhead, u);
    }

    lemma InRing(u: Ref, out: set<Ref>)
      requires Lists(out) && u in mem.objs && IsOpen(mem.objs[u])
      ensures RingOk(ring, uvhead) && u in uvhead
    {
      hide AllgcOk, StrtOk, OpenOk, MainOk, RingOk;
    }

    lemma NotInRing(u: Ref)
      requires Valid() && u !in mem.objs
      ensures RingOk(ring, uvhead) && u !in uvhead
    {
      hide AllgcOk, StrtOk, OpenOk, MainOk, RingOk, Safe, PhaseOk;
    }

    /** One round of luaF_close: the topmost open upvalue of `th` is freed if
        dead, else it takes its value along and moves to `allgc`. */
    method CloseFirst(th: Ref, ghost c: Scope, ghost out: set<Ref>)
      requires Lists(out) && Sane(mem) && th in open && open[th] != []
      requires gcstate == Propagate ==> Tri(mem, white, gray, grayagain, {}, c)
      modifies `mem, `gray, `open, `uvhead, `ring, `allgc, `sweepgc
      ensures Lists(out) && Sane(mem) && open == old(open[th := open[th][1..]])
      ensures gcstate == Propagate ==> Tri(mem, white, gray, grayagain, {}, c)
      ensures OneClosed(old(mem), mem, white, old(open), open, allgc, th)
      ensures Closing(old(mem), mem, white, old(open), open, old(allgc), allgc, old(sweepgc), sweepgc, th, gcstate
          == Propagate)
    {
      hide Tri, Sane, Done, Linked, Advanced, SameLive, LostUpvals, ClosedUpval, Live, Slots, Swept;
      TopIsOpen(out, th);
      if gcstate == Propagate { NoneDead(mem, white, gray, grayagain, {}, c); }
      var uv := open[th][0];
      if Dead(mem, white, uv) {
        assert RemoveAt(open[th], 0) == open[th][1..];
        LinkFreeOpen(mem.objs, open, allgc, strt, uvhead, mainthread, out, th, 0);
        assert out - {uv} == out;
        TopFreed(mem, white, open, allgc, sweepgc, th);
        FreedOne(mem, white, open, allgc, th);
        InRing(uv, out);
        open := open[th := open[th][1..]];
        UnlinkUpval(uv);
        mem := Remove(mem, uv);
      } else {
        KeepUpval(th, c, out);
      }
    }

    /** The value moves into the upvalue, the upvalue from the open lists to the front of `allgc`. */
    method MoveUpval(th: Ref)
      requires th in open && open[th] != [] && open[th][0] in mem.objs && RingOk(ring, uvhead) && open[th][0] in uvhead
      modifies `mem, `open, `uvhead, `ring, `allgc, `sweepgc
      ensures RingOk(ring, uvhead)
      ensures mem == ClosedUpval(old(mem), old(open[th][0])) && allgc == [old(open[th][0])] + old(allgc)
      ensures open == old(open[th := open[th][1..]]) && uvhead == Unlink(old(uvhead), old(open[th][0]))
      ensures sweepgc == if old(sweepgc).Some? then Some(old(sweepgc.value) + 1) else None
    {
      var uv := open[th][0];
      open := open[th := open[th][1..]];
      UnlinkUpval(uv);
      mem := ClosedUpval(mem, uv);
      allgc := [uv] + allgc;
      if sweepgc.Some? { sweepgc := Some(sweepgc.value + 1); }
    }

    method KeepUpval(th: Ref, ghost c: Scope, ghost out: set<Ref>)
      requires Lists(out) && Sane(mem) && th in open && open[th] != []
      requires open[th][0] in mem.objs && IsOpen(mem.objs[open[th][0]]) && mem.objs[open[th][0]].kind == KUpval
      requires open[th][0] in mem.col && mem.col[open[th][0]] != Black
      requires gcstate == Propagate ==> Tri(mem, white, gray, grayagain, {}, c)
      requires !Dead(mem, white, open[th][0])
      modifies `mem, `gray, `open, `uvhead, `ring, `allgc, `sweepgc
      ensures Lists(out) && Sane(mem) && open == old(open[th := open[th][1..]])
      ensures gcstate == Propagate ==> Tri(mem, white, gray, grayagain, {}, c)
      ensures OneClosed(old(mem), mem, white, old(open), open, allgc, th)
      ensures Closing(old(mem), mem, white, old(open), open, old(allgc), allgc, old(sweepgc), sweepgc, th, gcstate
          == Propagate)
    {
      hide Tri, Sane, Done, Linked, Advanced, SameLive, LostUpvals, ClosedUpval, Live, Slots, Pushed, SweptUpTo, IsOpen,
          RingOk, OneClosed, Closing, Marked, Dead;
      ghost var m0, open0, gray0, allgc0, uvhead0, p0 := mem, open, gray, allgc, uvhead, sweepgc;
      var uv := open[th][0];
      InRing(uv, out);
      UpvalCloses(mem, white, open, allgc, strt, uvhead, mainthread, out, th);
      SameDead(mem, ClosedUpval(mem, uv), white, uv);
      SameMarked(mem, ClosedUpval(mem, uv));
      if gcstate == Propagate { ClosedTri(mem, white, gray, grayagain, c, uv); }
      MoveUpval(th);
      CheckUpvalColor(uv, c);
      KeptClosing(m0, mem, white, gray0, gray, grayagain, open0, allgc0, strt, uvhead0, mainthread, out, p0, th, gcstate
          == Propagate, c);
    }

    lemma ListsOpen(out: set<Ref>)
      requires Lists(out)
      ensures OpenOk(mem.objs, open)
    {
    }

    /** The topmost open upvalue of a thread. */
    lemma TopIsOpen(out: set<Ref>, th: Ref)
      requires Lists(out) && Sane(mem) && th in open && open[th] != []
      ensures var uv := open[th][0]; uv in mem.objs && IsOpen(mem.objs[uv]) && mem.objs[uv].kind == KUpval && uv !in out
      ensures mem.objs[open[th][0]].place.Open? && open[th][0] in mem.col && mem.col[open[th][0]] != Black
          && !mem.objs[open[th][0]].fixed
      ensures forall q | q in mem.objs && IsOpen(mem.objs[q]) :: mem.objs[q].place.th != open[th][0]
    {
      hide StrtOk, MainOk, UvheadOk;
      assert open[th][0] in open[th];
      OpenMember(mem.objs, open, th, open[th][0]);
    }

    /** luaF_close: exactly the open upvalues of `th` at `level` or above are closed. */
    method CloseUpvals(th: Ref, level: nat, ghost c: Scope, ghost out: set<Ref>)
      requires Lists(out) && Sane(mem) && th in open
      requires gcstate == Propagate ==> Tri(mem, white, gray, grayagain, {}, c)
      modifies `mem, `gray, `open, `uvhead, `ring, `allgc, `sweepgc
      ensures Lists(out) && Sane(mem) && th in open
      ensures forall u | u in open[th] :: u in mem.objs && IsOpen(mem.objs[u]) && mem.objs[u].place.idx < level
      ensures level == 0 ==> open[th] == []
      ensures gcstate == Propagate ==> Tri(mem, white, gray, grayagain, {}, c)
      ensures ClosedAbove(old(mem), mem, white, old(open), open, allgc, th, level)
      ensures Closing(old(mem), mem, white, old(open), open, old(allgc), allgc, old(sweepgc), sweepgc, th, gcstate
          == Propagate)
    {
      hide Tri, Sane, Linked, Closing, AllgcOk, StrtOk, OpenOk, UvheadOk, MainOk;
      ClosingSame(mem, white, open, allgc, sweepgc, th, gcstate == Propagate);
      NoneClosed(mem, white, open, allgc, th, level) by { ListsOpen(out); }
      NotUpval(mem, open, th) by { ListsOpen(out); }
      while true
        invariant Lists(out) && Sane(mem) && th in open
        invariant gcstate == Propagate ==> Tri(mem, white, gray, grayagain, {}, c)
        invariant Closing(old(mem), mem, white, old(open), open, old(allgc), allgc, old(sweepgc), sweepgc, th, gcstate
            == Propagate)
        invariant ClosedSome(old(mem), mem, white, old(open), open, allgc, th, level)
        decreases |open[th]|
      {
        if open[th] == [] { break; }
        TopIsOpen(out, th);
        if mem.objs[open[th][0]].place.idx < level { break; }
        ghost var m0, open0, allgc0, p0 := mem, open, allgc, sweepgc;
        ListsOpen(out);
        CloseFirst(th, c, out);
        ClosedRound(old(mem), m0, mem, white, old(open), open0, open, old(allgc), allgc0, allgc, old(sweepgc), p0,
            sweepgc, th, level, gcstate == Propagate);
        ClosingTwice(old(mem), m0, mem, white, old(open), open0, open, old(allgc), allgc0, allgc, old(sweepgc), p0,
            sweepgc, th, gcstate == Propagate);
      }
      BelowLevel(mem.objs, open, th, level) by { ListsOpen(out); }
      AllClosed(old(mem), mem, white, old(open), open, allgc, th, level);
    }

    // ----- Sweeping -----

    /** sweepthread: the open upvalues of a live thread. */
    method SweepThread(th: Ref, ghost out: set<Ref>)
      requires Lists(out) && Sane(mem) && th in open
      modifies `mem, `open, `uvhead, `ring
      ensures Lists(out) && Sane(mem) && Advanced(old(mem), mem, white, old(open), open)
      ensures th in open && AllWhite(mem, white, open[th])
    {
      hide Sane, Linked, Advanced, AllWhite, Slots;
      LoopStarts(mem, white, open, allgc, th);
      NoneWhite(mem, white, open[th]);
      var i := 0;
      while i < |open[th]|
        invariant th in open && i <= |open[th]|
        invariant Lists(out) && Sane(mem) && Advanced(old(mem), mem, white, old(open), open)
        invariant AllWhite(mem, white, open[th][..i])
        decreases |open[th]| - i
      {
        ghost var m0, open0 := mem, open;
        var u := open[th][i];
        assert u in open[th];
        OpenMember(mem.objs, open, th, u) by { ListsOpen(out); }
        if Dead(mem, white, u) {
          OpenFreed(mem, white, open, allgc, strt, uvhead, mainthread, out, th, i);
          RemoveAtPrefix(open[th], i);
          InRing(u, out);
          UnlinkUpval(u);
          open := open[th := RemoveAt(open[th], i)];
          mem := Remove(mem, u);
          WhiteStays(m0, mem, white, open0, open, open0[th][..i]);
        } else {
          ElementThere(mem.objs, open, allgc, strt, uvhead, mainthread, out, th, i);
          Whitened(mem, white, open, u);
          OneWhiter(mem, white, open[th], i);
          mem := Paint(mem, u, WhiteOf(white));
          AdvancedFacts(m0, mem, white, open, open);
          i := i + 1;
        }
        AdvancedTwice(old(mem), m0, mem, white, old(open), open0, open);
      }
      assert open[th][..i] == open[th];
    }

    /** sweeplist on one chain of the string table. */
    method SweepBucket(b: nat)
      requires Lists({}) && Sane(mem) && b < |strt|
      modifies `mem, `strt
      ensures Lists({}) && Sane(mem) && Advanced(old(mem), mem, white, open, open)
      ensures |strt| == |old(strt)| && AllWhite(mem, white, strt[b]) && forall j | 0 <= j < |strt| && j != b ::
          strt[j] == old(strt[j])
      ensures OnlyFreed(old(mem), mem)
    {
      hide Sane, Linked, Advanced, AllWhite, Slots;
      LoopStarts(mem, white, open, allgc, 0);
      NoneWhite(mem, white, strt[b]);
      var i := 0;
      while i < |strt[b]|
        invariant |strt| == |old(strt)| && i <= |strt[b]| && forall j | 0 <= j < |strt| && j != b ::
            strt[j] == old(strt[j])
        invariant Lists({}) && Sane(mem) && Advanced(old(mem), mem, white, open, open)
        invariant AllWhite(mem, white, strt[b][..i]) && OnlyFreed(old(mem), mem)
        decreases |strt[b]| - i
      {
        ghost var m0, strt0 := mem, strt;
        var u := strt[b][i];
        if Dead(mem, white, u) {
          StringFreed(mem, white, open, allgc, strt, uvhead, mainthread, {}, b, i);
          RemoveAtPrefix(strt[b], i);
          strt := strt[b := RemoveAt(strt[b], i)];
          mem := Remove(mem, u);
          WhiteStays(m0, mem, white, open, open, strt0[b][..i]);
        } else {
          StringThere(mem.objs, open, allgc, strt, uvhead, mainthread, {}, b, i);
          Whitened(mem, white, open, u);
          OneWhiter(mem, white, strt[b], i);
          mem := Paint(mem, u, WhiteOf(white));
          AdvancedFacts(m0, mem, white, open, open);
          i := i + 1;
        }
        AdvancedTwice(old(mem), m0, mem, white, open, open, open);
      }
      assert strt[b][..i] == strt[b];
    }

    /** freeobj on a dead object that was taken out of `allgc`. */
    method FreeObj(r: Ref, ghost out: set<Ref>)
      requires Lists(out) && Sane(mem) && gcstate != Propagate
      requires r in out && Dead(mem, white, r) && mem.objs[r].place == Allgc
      modifies `mem, `gray, `open, `uvhead, `ring, `allgc, `sweepgc
      ensures Lists(out - {r}) && Sane(mem) && Advanced(old(mem), mem, white, old(open), open)
      ensures r !in mem.objs
      ensures Pushed(old(allgc), allgc) && SweptUpTo(mem, white, open, allgc, |allgc| - |old(allgc)|)
    {
      hide Sane, Linked, Advanced, Pushed, SweptUpTo, Swept, Slots, SameLive, LostUpvals;
      ghost var m0, open0 := mem, open;
      ClosingSame(mem, white, open, allgc, sweepgc, r, false);
      ThreadsOnly(mem.objs, open, allgc, strt, uvhead, mainthread, out, r);
      if mem.objs[r].kind == KThread {
        NotOpenIn(mem.objs, open, allgc, strt, uvhead, mainthread, out, r, r);
        CloseUpvals(r, 0, Scope([], {}, false, {}), out);
        StillDead(m0, mem, white, open0, open, r, r);
      }
      ghost var m1, open1 := mem, open;
      FreedOut(mem, white, open, allgc, strt, uvhead, mainthread, out, r);
      mem := Remove(mem, r);
      open := open - {r};
      AdvancedFacts(m1, mem, white, open1, open);
      AdvancedTwice(m0, m1, mem, white, open0, open1, open);
      PushedLength(old(allgc), allgc);
      SweptPrefixStays(m1, mem, white, open1, open, allgc, |allgc| - |old(allgc)|);
    }

    /** What is left for the sweeper, from position `p` of `allgc`, has become less. */
    twostate predicate Closer(p: nat, q: nat)
      reads this
    {
      |mem.objs| < old(|mem.objs|) || (|mem.objs| == old(|mem.objs|) && |allgc| - q < old(|allgc|) - p)
    }

    /** sweeplist erases the dead object behind the link at position `p`. */
    method SweepDead(p: nat) returns (q: nat)
      requires Lists({}) && Sane(mem) && gcstate != Propagate && p < |allgc| && SweptUpTo(mem, white, open, allgc, p)
          && Dead(mem, white, allgc[p])
      modifies `mem, `gray, `open, `uvhead, `ring, `allgc, `sweepgc
      ensures Lists({}) && Sane(mem) && Advanced(old(mem), mem, white, old(open), open)
      ensures q <= |allgc| && SweptUpTo(mem, white, open, allgc, q) && (p > 0 ==> q > 0)
      ensures |mem.objs| < |old(mem.objs)|
    {
      hide Sane, Linked, Advanced, SweptUpTo, Slots, Pushed;
      ghost var m0, open0 := mem, open;
      var r := allgc[p];
      LinkTakeOut(mem.objs, open, allgc, strt, uvhead, mainthread, {}, p);
      SweptTakenOut(mem, white, open, allgc, p);
      allgc := RemoveAt(allgc, p);
      var l := allgc;
      ghost var none: set<Ref> := {};
      assert none + {r} == {r} && {r} - {r} == none;
      FreeObj(r, {r});
      PushedLength(l, allgc);
      AdvancedSize(m0, mem, white, open0, open);
      if p == 0 {
        SweptNone(mem, white, open, allgc);
        return 0;
      }
      SweptPushed(m0, mem, white, open0, open, l, allgc, p);
      q := p + (|allgc| - |l|);
      SweptLength(mem, white, open, allgc, q);
    }

    /** sweeplist turns the live object behind the link at position `p` white. */
    method SweepAlive(p: nat)
      requires Lists({}) && Sane(mem) && gcstate != Propagate && p < |allgc| && SweptUpTo(mem, white, open, allgc, p)
          && !Dead(mem, white, allgc[p])
      modifies `mem, `open, `uvhead, `ring
      ensures Lists({}) && Sane(mem) && Advanced(old(mem), mem, white, old(open), open)
      ensures SweptUpTo(mem, white, open, allgc, p + 1)
    {
      hide Sane, Linked, Advanced, SweptUpTo, Slots, Swept, AllWhite;
      ghost var m0, open0 := mem, open;
      var r := allgc[p];
      LinkTakeOut(mem.objs, open, allgc, strt, uvhead, mainthread, {}, p);
      ThreadsOnly(mem.objs, open, allgc, strt, uvhead, mainthread, {}, r);
      AdvancedSame(mem, white, open);
      if mem.objs[r].kind == KThread {
        SweepThread(r, {});
        StillLive(m0, mem, white, open0, open, r);
        SweptPrefixStays(m0, mem, white, open0, open, allgc, p);
      }
      ghost var m1, open1 := mem, open;
      SweptNext(mem, white, open, allgc, p);
      mem := Paint(mem, r, WhiteOf(white));
      AdvancedTwice(m0, m1, mem, white, open0, open1, open);
    }

    /** sweeplist on `allgc`, from the link at position `p0`: at most `count`
        objects. Links are positions, and move when objects are pushed in front. */
    method SweepList(p0: nat, count: nat) returns (q: Option<nat>)
      requires Lists({}) && Sane(mem) && gcstate != Propagate && SweptUpTo(mem, white, open, allgc, p0)
      modifies `mem, `gray, `open, `uvhead, `ring, `allgc, `sweepgc
      ensures Lists({}) && Sane(mem) && Advanced(old(mem), mem, white, old(open), open)
      ensures q.None? ==> SweptUpTo(mem, white, open, allgc, |allgc|)
      ensures q.Some? ==> q.value < |allgc| && SweptUpTo(mem, white, open, allgc, q.value) && (p0 > 0 ==> q.value > 0)
      ensures q.Some? && count > 0 ==> Closer(p0, q.value)
    {
      hide Sane, Linked, Advanced, SweptUpTo, Dead;
      LoopStarts(mem, white, open, allgc, 0);
      var p, n := p0, count;
      SweptLength(mem, white, open, allgc, p);
      while p < |allgc| && n > 0
        invariant 0 <= p <= |allgc| && n <= count && (p0 > 0 ==> p > 0)
        invariant Lists({}) && Sane(mem) && Advanced(old(mem), mem, white, old(open), open)
        invariant SweptUpTo(mem, white, open, allgc, p)
        invariant if n == count then p == p0 && |mem.objs| == old(|mem.objs|) && |allgc| == old(|allgc|)
            else Closer(p0, p)
        decreases n
      {
        ghost var m0, open0 := mem, open;
        n := n - 1;
        if Dead(mem, white, allgc[p]) {
          p := SweepDead(p);
        } else {
          SweepAlive(p);
          p := p + 1;
        }
        AdvancedTwice(old(mem), m0, mem, white, old(open), open0, open);
        AdvancedSize(m0, mem, white, open0, open);
      }
      return if p == |allgc| then None else Some(p);
    }

    // ----- Single steps -----

    ghost function State(): GcState
      reads this
    {
      GcState(mem, white, gray, grayagain, open, allgc, strt, uvhead, gcstate, sweepstrgc, sweepgc, mainthread, Roots())
    }

    ghost predicate Valid()
      reads this
    {
      StateOk(State()) && RingOk(ring, uvhead)
    }

    /** What no collector step changes: the roots, and all that is reachable. */
    twostate predicate Frame()
      reads this
    {
      && mainthread == old(mainthread) && registry == old(registry) && mt == old(mt) && current == old(current)
      && |strt| <= |old(strt)| && SameReach(old(mem), mem, Roots())
    }

    lemma CycleCanStart()
      requires Valid() && gcstate == Pause
      ensures Tri(mem, white, [], [], {}, Scope([], mem.objs.Keys, false, ReachSet(mem, Roots())))
      ensures forall k | k in [mainthread, registry] + mt && k != NIL :: k in mem.objs && k in ReachSet(mem, Roots())
      ensures mainthread != NIL && Roots() <= mem.objs.Keys
    {
      hide Tri, Safe, Slots, Linked, ReachSet;
      ReachClosed(mem, white, Roots());
      RootsThere(mem, white, Roots());
      MainThere();
      TriStarts(mem, white, Roots(), Scope([], mem.objs.Keys, false, ReachSet(mem, Roots())));
    }

    /** markroot, from a pause. */
    method StartCycle()
      requires Valid() && gcstate == Pause
      modifies `mem, `gray, `grayagain, `gcstate
      ensures Valid() && gcstate == Propagate && Frame()
      ensures mem.objs == old(mem.objs) && Exact(mem, white, gcstate, Roots())
    {
      hide Tri, Safe, Grown, Linked, ReachSet, SameReach, Roots, Marked, PhaseOk, Exact;
      CycleCanStart();
      gray, grayagain := [], [];
      ghost var m0 := mem;
      ghost var c := Scope([], mem.objs.Keys, false, ReachSet(mem, Roots()));
      assert mainthread in [mainthread, registry] + mt;
      MarkRoots(mainthread, c);
      GrownObjs(m0, mem);
      ReachSame(m0, mem, Roots());
      RecolouredSameReach(m0, mem, Roots());
      PhaseMarking(mem, white, gray, grayagain, open, allgc, strt, sweepstrgc, sweepgc, mainthread, mem.objs.Keys,
          c.reach, Roots());
      gcstate := Propagate;
    }

    lemma MainThere()
      requires Lists({}) && Sane(mem)
      ensures mainthread in mem.objs && mem.objs[mainthread].kind == KThread && mainthread in mem.col
          && mainthread != NIL
      ensures mainthread in Roots()
      ensures forall k | k in [mainthread, registry] + mt && k != NIL :: k in Roots()
      ensures forall r | r in mem.objs :: IsOpen(mem.objs[r]) <==> r in uvhead
    {
      hide AllgcOk, StrtOk, OpenOk;
      assert forall k | k in [mainthread, registry] + mt :: k in [mainthread, current, registry] + mt;
      assert mainthread in [mainthread, current, registry] + mt;
    }

    /** A step of the propagate phase with gray objects left. */
    method StepPropagate()
      requires Valid() && gcstate == Propagate && gray != []
      modifies `mem, `gray, `grayagain
      ensures Valid() && Frame() && mem.objs == old(mem.objs)
      ensures old(Exact(mem, white, gcstate, Roots())) ==> Exact(mem, white, gcstate, Roots())
      ensures Whites(mem) < old(Whites(mem)) || (Whites(mem) == old(Whites(mem)) && |gray| < old(|gray|))
    {
      hide Tri, Safe, Grown, Slots, Linked, ReachSet, SameReach, Progress;
      ghost var m0 := mem;
      BoundOk(mem, white, gray, grayagain, Roots());
      ghost var c := Scope([], mem.objs.Keys, false, Bound(mem, Roots()));
      PropagateMark(c);
      GrownObjs(m0, mem);
      GrownMarked(m0, mem, mainthread);
      ReachSame(m0, mem, Roots());
      RecolouredSameReach(m0, mem, Roots());
      PhaseMarking(mem, white, gray, grayagain, open, allgc, strt, sweepstrgc, sweepgc, mainthread, mem.objs.Keys,
          c.reach, Roots());
    }

    /** sweeptolive from the head of `allgc`: to its first live object. */
    method SweepToLive() returns (p: Option<nat>)
      requires Lists({}) && Sane(mem) && gcstate != Propagate
      modifies `mem, `gray, `open, `uvhead, `ring, `allgc, `sweepgc
      ensures Lists({}) && Advanced(old(mem), mem, white, old(open), open)
      ensures SweptUpTo(mem, white, open, allgc, if p.Some? then p.value else |allgc|) && (p.Some? ==> 0 < p.value)
    {
      hide Linked, SweptUpTo, Advanced, Sane, Dead;
      ghost var m0, open0 := mem, open;
      AdvancedSame(mem, white, open);
      SweptNone(mem, white, open, allgc);
      p := SweepList(0, 1);
      while p == Some(0)
        invariant Lists({}) && Sane(mem)
        invariant Advanced(m0, mem, white, open0, open)
        invariant p.None? ==> SweptUpTo(mem, white, open, allgc, |allgc|)
        invariant p.Some? ==> 0 <= p.value < |allgc| && SweptUpTo(mem, white, open, allgc, p.value)
        decreases |mem.objs|, if p.Some? then |allgc| - p.value + 1 else 0
      {
        ghost var m1, open1 := mem, open;
        p := SweepList(0, 1);
        AdvancedTwice(m0, m1, mem, white, open0, open1, open);
        AdvancedSize(m1, mem, white, open1, open);
      }
    }

    /** Sweeping that changed nothing for the live objects keeps all that holds between steps. */
    twostate lemma SweepKept()
      requires Lists({}) && old(Safe(mem, white, Roots())) && Advanced(old(mem), mem, white, old(open), open)
      requires white == old(white) && mainthread == old(mainthread) && registry == old(registry) && mt == old(mt)
      requires current == old(current) && |strt| <= |old(strt)| && (gcstate == Pause || Sweeping(gcstate))
      requires if gcstate == Pause then forall r | r in mem.objs :: r in mem.col && mem.col[r] == WhiteOf(white)
               else Progress(mem, white, open, allgc, strt, gcstate, sweepstrgc, sweepgc)
      ensures Valid() && Frame() && SameLive(old(mem), mem, white)
    {
      hide Safe, Linked, ReachSet, SameReach, SweptUpTo, Advanced, SameLive, Roots, PhaseOk, Progress, RingOk;
      PhaseSwept(old(mem), mem, white, gray, grayagain, old(open), open, allgc, strt, gcstate, sweepstrgc, sweepgc,
          mainthread, Roots());
    }

    /** entersweep: sweeps to the first live object, so that objects created
        from now on are linked before the part of `allgc` still to be swept. */
    method EnterSweep()
      requires Lists({}) && Safe(mem, white, Roots())
      modifies `mem, `gray, `open, `uvhead, `ring, `allgc, `sweepgc, `gcstate, `sweepstrgc
      ensures Valid() && Frame() && gcstate == SweepString && SameLive(old(mem), mem, white)
    {
      hide Safe, Linked, ReachSet, SameReach, SweptUpTo, Advanced, SameLive, AllWhite, PhaseOk, Sane, Dead, Progress,
          RingOk, Roots;
      gcstate := SweepString;
      sweepstrgc := 0;
      ghost var m0, open0 := mem, open;
      SafeSane(mem, white, Roots());
      var p := SweepToLive();
      ProgressAdvanced(m0, mem, white, open0, open, allgc, strt, 0, p, SweepString);
      sweepgc := p;
      SweepKept();
    }

    lemma AtomicCanStart()
      requires Valid() && gcstate == Propagate && gray == []
      ensures Tri(mem, white, gray, grayagain, {}, Scope([], mem.objs.Keys, false, Bound(mem, Roots())))
      ensures forall r | r in mem.objs :: IsOpen(mem.objs[r]) <==> r in uvhead
      ensures mainthread != NIL && Marked(mem, mainthread) && Roots() <= mem.objs.Keys * Bound(mem, Roots())
      ensures Exact(mem, white, Propagate, Roots()) ==> Bound(mem, Roots()) == ReachSet(mem, Roots())
    {
      hide Tri, Safe, Linked, ReachSet, Progress, Roots;
      BoundOk(mem, white, gray, grayagain, Roots());
      SafeSane(mem, white, Roots());
      MainThere();
    }

    /** The end of the propagate phase: the atomic step, which makes all that is
        not marked dead, and the first step of sweeping. */
    method StepAtomic()
      requires Valid() && gcstate == Propagate && gray == []
      modifies `mem, `gray, `grayagain, `white, `open, `uvhead, `ring, `allgc, `sweepgc, `gcstate, `sweepstrgc
      ensures Valid() && Frame() && gcstate == SweepString
      ensures old(Exact(mem, white, gcstate, Roots())) ==> Exact(mem, white, gcstate, Roots())
    {
      hide Tri, Safe, Linked, ReachSet, SameReach, SameLive, Roots, PhaseOk, IsOpen, Marked, Live;
      AtomicCanStart();
      ghost var m0, w0 := mem, white;
      ghost var c := Scope([], mem.objs.Keys, false, Bound(mem, Roots()));
      gcstate := Atomic;
      AtomicPhase(c);
      ghost var m1 := mem;
      ReachSame(m0, m1, Roots());
      RecolouredSameReach(m0, m1, Roots());
      EnterSweep();
      SameReachTwice(m0, m1, mem, Roots());
      if Exact(m0, w0, Propagate, Roots()) {
        AtomicExact(m1, white, Roots(), c.reach);
        ExactStays(m1, mem, white, SweepString, Roots());
      }
    }

    /** Sweeping at most GCSWEEPMAX chains of the string table. */
    method SweepStrings() returns (i: nat)
      requires Lists({}) && Sane(mem)
      requires forall b | 0 <= b < sweepstrgc && b < |strt| :: AllWhite(mem, white, strt[b])
      modifies `mem, `strt
      ensures Lists({}) && Sane(mem) && Advanced(old(mem), mem, white, open, open) && |strt| == |old(strt)|
      ensures forall b | 0 <= b < sweepstrgc + i && b < |strt| :: AllWhite(mem, white, strt[b])
      ensures (i > 0 ==> sweepstrgc + i <= |strt|) && (i > 0 || sweepstrgc >= |strt|) && OnlyFreed(old(mem), mem)
    {
      hide Linked, Advanced, AllWhite, Sane;
      AdvancedSame(mem, white, open);
      i := 0;
      while i < GCSWEEPMAX && sweepstrgc + i < |strt|
        invariant Lists({}) && Sane(mem) && Advanced(old(mem), mem, white, open, open) && |strt| == |old(strt)|
        invariant forall b | 0 <= b < sweepstrgc + i && b < |strt| :: AllWhite(mem, white, strt[b])
        invariant i <= GCSWEEPMAX && (i > 0 ==> sweepstrgc + i <= |strt|) && OnlyFreed(old(mem), mem)
      {
        ghost var m1, strt1 := mem, strt;
        SweepBucket(sweepstrgc + i);
        SweptStrings(m1, mem, white, open, open, strt1);
        AdvancedTwice(old(mem), m1, mem, white, open, open, open);
        i := i + 1;
      }
    }

    /** A step of sweeping strings. */
    method StepSweepString()
      requires Valid() && gcstate == SweepString
      modifies `mem, `strt, `sweepstrgc, `gcstate
      ensures Valid() && Frame() && SameLive(old(mem), mem, white)
      ensures gcstate == SweepUdata || (gcstate == SweepString && old(sweepstrgc) < sweepstrgc < |strt|)
      ensures OnlyFreed(old(mem), mem) && |strt| == old(|strt|)
    {
      hide Safe, Linked, ReachSet, SameReach, SweptUpTo, Advanced, SameLive, AllWhite, PhaseOk, Sane, RingOk, Roots;
      ghost var m0 := mem;
      PhaseProgress(mem, white, gray, grayagain, open, allgc, strt, gcstate, sweepstrgc, sweepgc, mainthread, Roots());
      var i := SweepStrings();
      SweptPrefixStays(m0, mem, white, open, open, allgc, if sweepgc.Some? then sweepgc.value else |allgc|);
      sweepstrgc := sweepstrgc + i;
      if sweepstrgc >= |strt| { gcstate := SweepUdata; }
      SweepKept();
    }

    /** The main thread is swept last. */
    method SweepMain()
      requires Lists({}) && Sane(mem) && mainthread in mem.objs && !Dead(mem, white, mainthread) && mainthread in open
      requires SweptUpTo(mem, white, open, allgc, |allgc|) && forall b | 0 <= b < |strt| ::
          AllWhite(mem, white, strt[b])
      modifies `mem, `open, `uvhead, `ring
      ensures Lists({}) && Advanced(old(mem), mem, white, old(open), open)
      ensures forall r | r in mem.objs :: r in mem.col && mem.col[r] == WhiteOf(white)
    {
      hide Linked, SweptUpTo, Advanced, AllWhite, Sane, Slots;
      ghost var m0, open0 := mem, open;
      SweepThread(mainthread, {});
      StillLive(m0, mem, white, open0, open, mainthread);
      ghost var m1, open1 := mem, open;
      MainSwept(m0, m1, white, open0, open, allgc, strt, uvhead, mainthread);
      mem := Paint(mem, mainthread, WhiteOf(white));
      AdvancedTwice(m0, m1, mem, white, open0, open1, open);
    }

    /** A step of sweeping `allgc`, with objects left to sweep ... */
    method StepSweep()
      requires Valid() && gcstate == Sweep && sweepgc.Some?
      modifies `mem, `gray, `open, `uvhead, `ring, `allgc, `sweepgc
      ensures Valid() && Frame() && SameLive(old(mem), mem, white)
      ensures (sweepgc.Some? ==> Closer(old(sweepgc.value), sweepgc.value)) && |mem.objs| <= |old(mem.objs)|
    {
      hide Safe, Linked, ReachSet, SameReach, SweptUpTo, Advanced, SameLive, AllWhite, PhaseOk, Sane, Dead, Progress,
          RingOk, Roots;
      ghost var m0, open0 := mem, open;
      PhaseProgress(mem, white, gray, grayagain, open, allgc, strt, gcstate, sweepstrgc, sweepgc, mainthread, Roots());
      var p := SweepList(sweepgc.value, GCSWEEPMAX);
      ProgressAdvanced(m0, mem, white, open0, open, allgc, strt, sweepstrgc, p, Sweep);
      AdvancedSize(m0, mem, white, open0, open);
      sweepgc := p;
      SweepKept();
    }

    /** luaS_resize, one chain: it is emptied, and its strings are put where they belong. */
    method RehashChain(prev: nat, size: nat, i: nat)
      requires Spread(mem.objs, strt, prev, size, i, []) && i < |strt|
      modifies `strt
      ensures Spread(mem.objs, strt, prev, size, i + 1, [])
    {
      hide Spread, Lmod, Drained, Home;
      var s := strt[i];
      SpreadSize(mem.objs, strt, prev, size, i, []);
      ChainHolds(mem.objs, strt, prev, size, i);
      DrainStarts(mem.objs, strt, prev, size, i);
      ghost var n := |strt|;
      strt := strt[i := []];
      for k := 0 to |s|
        invariant |strt| == n && Drained(mem.objs, strt, prev, size, i, s, k)
      {
        DrainOne(mem.objs, strt, prev, size, i, s, k);
        var h := Lmod(mem.objs[s[k]].place.hash, size);
        strt := strt[h := [s[k]] + strt[h]];
      }
      DrainEnds(mem.objs, strt, prev, size, i, s);
    }

    /** luaS_resize, once no strings are being swept: every string goes to the chain
        its hash has in the new size, and no object changes. */
    method Rehash(size: nat)
      requires StrtOk(mem.objs, strt) && size > 0
      modifies `strt
      ensures StrtOk(mem.objs, strt) && |strt| == size
    {
      hide Spread, StrtOk;
      var prev := |strt|;
      ghost var strt0 := strt;
      StrtSize(mem.objs, strt);
      var more: seq<seq<Ref>> := if size > prev then seq(size - prev, _ => []) else [];
      NothingMoved(mem.objs, strt, more, size);
      strt := strt + more;
      for i := 0 to prev
        invariant Spread(mem.objs, strt, prev, size, i, [])
      {
        SpreadSize(mem.objs, strt, prev, size, i, []);
        RehashChain(prev, size, i);
      }
      SpreadSize(mem.objs, strt, prev, size, prev, []);
      AllMoved(mem.objs, strt, prev, size);
      strt := strt[..size];
    }

    /** luaS_resize in any phase: first the sweep of strings is finished. */
    method Resize(size: nat)
      requires Valid() && size > 0
      modifies `mem, `strt, `sweepstrgc, `gcstate
      ensures Valid() && |strt| == size && SameLive(old(mem), mem, white) && OnlyFreed(old(mem), mem)
      ensures old(gcstate) != SweepString
          ==> mem == old(mem) && gcstate == old(gcstate) && sweepstrgc == old(sweepstrgc)
      ensures gcstate == if old(gcstate) == SweepString then SweepUdata else old(gcstate)
    {
      hide StateOk, SameLive, Roots, RingOk;
      SameItself(mem, white, Roots());
      ghost var m0 := mem;
      while gcstate == SweepString
        invariant Valid() && SameLive(m0, mem, white) && OnlyFreed(m0, mem)
        invariant gcstate == old(gcstate) || (old(gcstate) == SweepString && gcstate == SweepUdata)
        invariant old(gcstate) != SweepString ==> mem == old(mem) && sweepstrgc == old(sweepstrgc)
        decreases if gcstate == SweepString then 1 else 0, |strt| - sweepstrgc
      {
        ghost var m1 := mem;
        StepSweepString();
        SameLiveTwice(m0, m1, mem, white);
      }
      ghost var g := State();
      TableOk(g);
      Rehash(size);
      RehashedOk(g, strt);
    }

    /** checkSizes: a table of which less than half is in use is halved. */
    method CheckSizes()
      requires Lists({})
      modifies `strt
      ensures Lists({}) && |strt| == if InUse(old(strt)) < old(|strt|) / 2 then old(|strt|) / 2 else old(|strt|)
    {
      hide AllgcOk, OpenOk, UvheadOk, MainOk, RingOk, StrtOk;
      var hs := |strt| / 2;
      if InUse(strt) < hs {
        Rehash(hs);
      }
    }

    /** The main thread is swept, and the string table may be halved. */
    method EndSweep()
      requires Lists({}) && Sane(mem) && mainthread in mem.objs && !Dead(mem, white, mainthread) && mainthread in open
      requires SweptUpTo(mem, white, open, allgc, |allgc|) && forall b | 0 <= b < |strt| ::
          AllWhite(mem, white, strt[b])
      modifies `mem, `open, `uvhead, `ring, `strt
      ensures Lists({}) && Advanced(old(mem), mem, white, old(open), open) && |strt| <= old(|strt|)
      ensures forall r | r in mem.objs :: r in mem.col && mem.col[r] == WhiteOf(white)
    {
      hide Linked, SweptUpTo, Advanced, AllWhite, Sane, RingOk;
      SweepMain();
      CheckSizes();
    }

    /** ... and with none: the cycle ends. */
    method FinishCycle()
      requires Valid() && gcstate == Sweep && sweepgc.None?
      modifies `mem, `open, `uvhead, `ring, `strt, `gcstate
      ensures Valid() && Frame() && SameLive(old(mem), mem, white) && gcstate == Pause
    {
      hide Safe, Linked, ReachSet, SameReach, SweptUpTo, Advanced, SameLive, AllWhite, PhaseOk, Sane, Dead, Progress,
          RingOk, Roots;
      PhaseProgress(mem, white, gray, grayagain, open, allgc, strt, gcstate, sweepstrgc, sweepgc, mainthread, Roots());
      MainThere();
      MainAlive(mem, white, Roots(), mainthread);
      ThreadsOnly(mem.objs, open, allgc, strt, uvhead, mainthread, {}, mainthread);
      EndSweep();
      gcstate := Pause;
      SweepKept();
    }

    /** Later in the cycle than before. */
    twostate predicate Nearer()
      reads this
    {
      var r0, r1 := old(Rank(gcstate)), Rank(gcstate);
      var a0, a1 := old(Left(mem, strt, gcstate, sweepstrgc)), Left(mem, strt, gcstate, sweepstrgc);
      r1 < r0 || (r1 == r0 && (a1 < a0 || (a1 == a0 && Rest(gcstate, gray, allgc, sweepgc) < old(Rest(gcstate, gray,
          allgc, sweepgc)))))
    }

    /** singlestep, in every phase: it keeps the invariant, and what is
        reachable stays as it is. From a pause on, a cycle is exact. */
    method SingleStep()
      requires Valid()
      modifies this
      ensures Valid() && Frame()
      ensures old(gcstate) == Pause || old(Exact(mem, white, gcstate, Roots())) ==> Exact(mem, white, gcstate, Roots())
      ensures if old(gcstate) == Pause then gcstate == Propagate else Nearer()
    {
      hide Valid, Exact, SameReach, SameLive, Roots, ReachSet, Whites;
      if gcstate == Pause {
        StartCycle();
      } else if gcstate == Propagate {
        if gray != [] {
          StepPropagate();
          SubsetSize(Whites(mem), old(Whites(mem)));
        } else {
          StepAtomic();
        }
      } else {
        StepSweeping();
      }
    }

    /** The sweep phases of singlestep. */
    method StepSweeping()
      requires Valid() && gcstate != Pause && gcstate != Propagate
      modifies this
      ensures Valid() && Frame()
      ensures old(Exact(mem, white, gcstate, Roots())) ==> Exact(mem, white, gcstate, Roots())
      ensures Nearer()
    {
      hide Exact, SameReach, SameLive, Roots, ReachSet, Linked, Safe, SweptUpTo, AllWhite;
      ghost var m0 := mem;
      NotAtomic();
      if gcstate == SweepString {
        StepSweepString();
        ExactSame(m0, mem, white, SweepString, gcstate, Roots());
      } else if gcstate == SweepUdata {
        SameItself(mem, white, Roots());
        ExactSame(m0, mem, white, SweepUdata, Sweep, Roots());
        gcstate := Sweep;
      } else if sweepgc.Some? {
        SweepgcInside();
        StepSweep();
        if sweepgc.Some? { SweepgcInside(); }
        ExactSame(m0, mem, white, Sweep, gcstate, Roots());
      } else {
        FinishCycle();
        ExactSame(m0, mem, white, Sweep, Pause, Roots());
      }
    }

    lemma NotAtomic()
      requires Valid()
      ensures gcstate != Atomic && Safe(mem, white, Roots())
    {
    }

    lemma SweepgcInside()
      requires Valid() && gcstate == Sweep && sweepgc.Some?
      ensures sweepgc.value <= |allgc|
    {
    }

    /** luaC_runtilstate to the end of the cycle. */
    method RunToPause()
      requires Valid()
      modifies this
      ensures Valid() && Frame() && gcstate == Pause
      ensures old(Exact(mem, white, gcstate, Roots())) ==> Exact(mem, white, gcstate, Roots())
    {
      hide Valid, Exact, SameReach, Roots, ReachSet;
      RecolouredSameReach(mem, mem, Roots());
      while gcstate != Pause
        invariant Valid() && Frame()
        invariant old(Exact(mem, white, gcstate, Roots())) ==> Exact(mem, white, gcstate, Roots())
        decreases Rank(gcstate), Left(mem, strt, gcstate, sweepstrgc), Rest(gcstate, gray, allgc, sweepgc)
      {
        ghost var m0 := mem;
        SingleStep();
        SameReachTwice(old(mem), m0, mem, Roots());
      }
    }

    /** luaC_fullgc: whatever the collector was doing, it terminates, and what
        is left is what is reachable and the fixed strings, as it was. */
    method FullGC()
      requires Valid()
      modifies this
      ensures Valid() && Frame() && gcstate == Pause
      ensures mem.objs.Keys == old(ReachSet(mem, Roots()) + FixedSet(mem))
      ensures forall r | r in mem.objs :: r in mem.col && mem.col[r] == WhiteOf(white)
    {
      hide Exact, SameReach, SameLive, Roots, ReachSet, Linked, Safe, Tri, Progress, FixedSet;
      ghost var m0 := mem;
      RecolouredSameReach(mem, mem, Roots());
      if gcstate == Propagate {
        EnterSweep();
      }
      ghost var m1 := mem;
      RunToPause();
      SameReachTwice(m0, m1, mem, Roots());
      ghost var m2 := mem;
      SingleStep();
      SameReachTwice(m0, m2, mem, Roots());
      ghost var m3 := mem;
      RunToPause();
      SameReachTwice(m0, m3, mem, Roots());
      Survivors(mem, white, Roots());
      SameReachSets(m0, mem, Roots());
    }
  }
}
