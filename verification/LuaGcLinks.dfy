/** The lists of the collector: `allgc`, the buckets of the string table, the
    open upvalues of each thread and of all threads (modules/lua/lstate.h). */
module LuaGcLinks {
  import opened Common
  import opened LuaGcHeap

  type Objs = map<Ref, Obj>

  function RemoveAt(s: seq<Ref>, i: nat): seq<Ref>
    requires i < |s|
  {
    s[..i] + s[i + 1..]
  }

  /** unlinkupval, on the list the links of `uvhead` stand for. */
  function Unlink(s: seq<Ref>, u: Ref): seq<Ref> {
    if s == [] then [] else if s[0] == u then s[1..] else [s[0]] + Unlink(s[1..], u)
  }

  lemma {:induction false} RemoveAtMembers(s: seq<Ref>, i: nat)
    requires NoDup(s) && i < |s|
    ensures NoDup(RemoveAt(s, i)) && forall r :: r in RemoveAt(s, i) <==> r in s && r != s[i]
  {
    var t := RemoveAt(s, i);
    assert forall j | 0 <= j < |t| :: t[j] == s[if j < i then j else j + 1];
    forall r ensures r in t <==> r in s && r != s[i] {
      if r in s && r != s[i] {
        var j :| 0 <= j < |s| && s[j] == r;
        assert t[if j < i then j else j - 1] == r;
      }
    }
  }

  lemma {:induction false} UnlinkMembers(s: seq<Ref>, u: Ref)
    requires NoDup(s)
    ensures NoDup(Unlink(s, u)) && forall r :: r in Unlink(s, u) <==> r in s && r != u
    decreases |s|
  {
    if s != [] {
      var t := s[1..];
      assert s == [s[0]] + t;
      assert NoDup(t) && s[0] !in t;
      UnlinkMembers(t, u);
      assert forall r :: r in s <==> r == s[0] || r in t;
      assert forall r :: r in [s[0]] + Unlink(t, u) <==> r == s[0] || r in Unlink(t, u);
    }
  }

  ghost predicate AllgcOk(objs: Objs, allgc: seq<Ref>, out: set<Ref>) {
    && NoDup(allgc) && (forall r :: r in allgc <==> r in objs && objs[r].place == Allgc && r !in out)
    && forall r | r in out :: r in objs && objs[r].place == Allgc
  }

  /** lmod: the chain of a hash. */
  function Lmod(hash: nat, size: nat): (b: nat)
    requires size > 0
    ensures b < size
  {
    hash % size
  }

  ghost predicate StrtOk(objs: Objs, strt: seq<seq<Ref>>) {
    && strt != [] && (forall b | 0 <= b < |strt| :: NoDup(strt[b]))
    && (forall b: nat, r | b < |strt| ::
          r in strt[b] <==> r in objs && objs[r].place.InTable? && Lmod(objs[r].place.hash, |strt|) == b)
    && (forall r | r in objs :: objs[r].place.InTable? ==> objs[r].kind == KString)
  }

  /** The open upvalues of a thread, from the top of its stack down. */
  ghost predicate OpenList(objs: Objs, th: Ref, l: seq<Ref>) {
    && (forall u :: u in l <==> u in objs && objs[u].place.Open? && objs[u].place.th == th)
    && (forall i, j | 0 <= i < j < |l| ::
        l[i] in objs && l[j] in objs && objs[l[i]].place.Open? && objs[l[j]].place.Open?
          && objs[l[i]].place.idx > objs[l[j]].place.idx)
  }

  ghost predicate OpenOk(objs: Objs, open: map<Ref, seq<Ref>>) {
    && (forall th :: th in open <==> th in objs && objs[th].kind == KThread)
    && (forall th | th in open :: OpenList(objs, th, open[th]))
  }

  ghost predicate UvheadOk(objs: Objs, uvhead: seq<Ref>) {
    NoDup(uvhead) && forall u :: u in uvhead <==> u in objs && IsOpen(objs[u])
  }

  ghost predicate MainOk(objs: Objs, main: Ref) {
    && main in objs && objs[main].kind == KThread && objs[main].place == Main
    && forall r | r in objs :: objs[r].place == Main ==> r == main
  }

  /** Every object is in the one list its place names; those in `out` have
      been taken out of `allgc` and are about to be freed. */
  ghost predicate Linked(objs: Objs, open: map<Ref, seq<Ref>>, allgc: seq<Ref>, strt: seq<seq<Ref>>, uvhead: seq<Ref>,
      main: Ref, out: set<Ref>)
  {
    && AllgcOk(objs, allgc, out) && StrtOk(objs, strt) && OpenOk(objs, open) && UvheadOk(objs, uvhead)
        && MainOk(objs, main)
    && forall r | r in objs && objs[r].kind == KThread :: objs[r].place == Allgc || r == main
  }

  /** Freeing an upvalue that is still open. */
  lemma {:induction false} LinkFreeOpen(objs: Objs, open: map<Ref, seq<Ref>>, allgc: seq<Ref>, strt: seq<seq<Ref>>,
      uvhead: seq<Ref>, main: Ref, out: set<Ref>, th: Ref, i: nat)
    requires Linked(objs, open, allgc, strt, uvhead, main, out) && th in open && i < |open[th]|
        && objs[open[th][i]].kind == KUpval
    ensures var u := open[th][i]; u in objs && Linked(objs - {u}, open[th := RemoveAt(open[th], i)], allgc, strt,
        Unlink(uvhead, u), main, out - {u})
  {
    hide AllgcOk, StrtOk, MainOk, OpenOk, OpenList, UvheadOk;
    var u := open[th][i];
    assert u in open[th];
    OpenMember(objs, open, th, u);
    FreeOpenOpen(objs, open, th, i);
    FreeAllgc(objs, allgc, out, u);
    FreeStrt(objs, strt, u);
    FreeUvhead(objs, uvhead, u);
    FreeMain(objs, main, u);
  }

  lemma {:induction false} OpenMember(objs: Objs, open: map<Ref, seq<Ref>>, th: Ref, u: Ref)
    requires OpenOk(objs, open) && th in open && u in open[th]
    ensures u in objs && IsOpen(objs[u]) && objs[u].place.th == th && th in objs && objs[th].kind == KThread
  {
    assert OpenList(objs, th, open[th]);
  }

  lemma {:induction false} FreeAllgc(objs: Objs, allgc: seq<Ref>, out: set<Ref>, u: Ref)
    requires AllgcOk(objs, allgc, out) && u in objs && (objs[u].place != Allgc || u in out)
    ensures AllgcOk(objs - {u}, allgc, out - {u})
  {
  }

  lemma {:induction false} FreeStrt(objs: Objs, strt: seq<seq<Ref>>, u: Ref)
    requires StrtOk(objs, strt) && u in objs && !objs[u].place.InTable?
    ensures StrtOk(objs - {u}, strt)
  {
  }

  lemma {:induction false} FreeUvhead(objs: Objs, uvhead: seq<Ref>, u: Ref)
    requires UvheadOk(objs, uvhead)
    ensures UvheadOk(objs - {u}, Unlink(uvhead, u))
  {
    UnlinkMembers(uvhead, u);
  }

  lemma {:induction false} FreeMain(objs: Objs, main: Ref, u: Ref)
    requires MainOk(objs, main) && u in objs && objs[u].place != Main
    ensures MainOk(objs - {u}, main)
  {
  }

  lemma {:induction false} SortedNoDup(objs: Objs, th: Ref, l: seq<Ref>)
    requires OpenList(objs, th, l)
    ensures NoDup(l)
  {
  }

  lemma {:induction false} FreeOpenOpen(objs: Objs, open: map<Ref, seq<Ref>>, th: Ref, i: nat)
    requires OpenOk(objs, open) && th in open && i < |open[th]| && open[th][i] in objs
        && objs[open[th][i]].kind != KThread
    requires objs[open[th][i]].place.Open? && objs[open[th][i]].place.th == th
    ensures OpenOk(objs - {open[th][i]}, open[th := RemoveAt(open[th], i)])
  {
    hide OpenList;
    var u, l := open[th][i], open[th];
    var objs' := objs - {u};
    RemoveOpen(objs, th, l, i);
    forall t | t in open && t != th ensures OpenList(objs', t, open[t]) { OtherOpen(objs, th, t, u, open[t]); }
  }

  lemma {:induction false} RemoveOpen(objs: Objs, th: Ref, l: seq<Ref>, i: nat)
    requires OpenList(objs, th, l) && i < |l|
    ensures OpenList(objs - {l[i]}, th, RemoveAt(l, i))
  {
    var l', objs' := RemoveAt(l, i), objs - {l[i]};
    SortedNoDup(objs, th, l);
    RemoveAtMembers(l, i);
    forall a, b | 0 <= a < b < |l'|
      ensures l'[a] in objs' && l'[b] in objs' && objs'[l'[a]].place.Open? && objs'[l'[b]].place.Open?
          && objs'[l'[a]].place.idx > objs'[l'[b]].place.idx
    {
      assert l'[a] in l' && l'[b] in l';
      var a0, b0 := if a < i then a else a + 1, if b < i then b else b + 1;
      assert l'[a] == l[a0] && l'[b] == l[b0] && a0 < b0;
    }
  }

  lemma {:induction false} OtherOpen(objs: Objs, th: Ref, t: Ref, u: Ref, l: seq<Ref>)
    requires OpenList(objs, t, l) && u in objs && objs[u].place.Open? && objs[u].place.th == th && t != th
    ensures OpenList(objs - {u}, t, l)
  {
    assert u !in l;
  }

  /** Closing the topmost open upvalue of a thread moves it to `allgc`. */
  lemma {:induction false} LinkClose(objs: Objs, open: map<Ref, seq<Ref>>, allgc: seq<Ref>, strt: seq<seq<Ref>>,
      uvhead: seq<Ref>, main: Ref, out: set<Ref>, th: Ref, slots: seq<Ref>)
    requires Linked(objs, open, allgc, strt, uvhead, main, out) && th in open && open[th] != []
    requires open[th][0] in objs && objs[open[th][0]].kind == KUpval
    ensures var u := open[th][0];
      Linked(objs[u := objs[u].(place := Allgc, slots := slots)], open[th := open[th][1..]], [u] + allgc, strt,
          Unlink(uvhead, u), main, out)
  {
    hide AllgcOk, StrtOk, MainOk, OpenOk, OpenList, UvheadOk;
    var u := open[th][0];
    var objs' := objs[u := objs[u].(place := Allgc, slots := slots)];
    assert u in open[th];
    OpenMember(objs, open, th, u);
    CloseAllgc(objs, allgc, out, u, slots);
    CloseOpen(objs, open, th, slots);
    assert StrtOk(objs', strt) by { CloseStrt(objs, strt, u, slots); }
    assert UvheadOk(objs', Unlink(uvhead, u)) by { CloseUvhead(objs, uvhead, u, slots); }
    assert MainOk(objs', main) by { CloseMain(objs, main, u, slots); }
  }

  lemma {:induction false} CloseAllgc(objs: Objs, allgc: seq<Ref>, out: set<Ref>, u: Ref, slots: seq<Ref>)
    requires AllgcOk(objs, allgc, out) && u in objs && IsOpen(objs[u])
    ensures AllgcOk(objs[u := objs[u].(place := Allgc, slots := slots)], [u] + allgc, out)
  {
    assert u !in allgc;
    assert forall r :: r in [u] + allgc <==> r == u || r in allgc;
  }

  lemma {:induction false} CloseStrt(objs: Objs, strt: seq<seq<Ref>>, u: Ref, slots: seq<Ref>)
    requires StrtOk(objs, strt) && u in objs && IsOpen(objs[u])
    ensures StrtOk(objs[u := objs[u].(place := Allgc, slots := slots)], strt)
  {
  }

  lemma {:induction false} CloseUvhead(objs: Objs, uvhead: seq<Ref>, u: Ref, slots: seq<Ref>)
    requires UvheadOk(objs, uvhead) && u in objs
    ensures UvheadOk(objs[u := objs[u].(place := Allgc, slots := slots)], Unlink(uvhead, u))
  {
    UnlinkMembers(uvhead, u);
  }

  lemma {:induction false} CloseMain(objs: Objs, main: Ref, u: Ref, slots: seq<Ref>)
    requires MainOk(objs, main) && u in objs && IsOpen(objs[u])
    ensures MainOk(objs[u := objs[u].(place := Allgc, slots := slots)], main)
  {
  }

  lemma {:induction false} CloseOpen(objs: Objs, open: map<Ref, seq<Ref>>, th: Ref, slots: seq<Ref>)
    requires OpenOk(objs, open) && th in open && open[th] != [] && open[th][0] in objs && objs[open[th][0]].kind
        == KUpval
    requires objs[open[th][0]].place.Open? && objs[open[th][0]].place.th == th
    ensures var u := open[th][0]; OpenOk(objs[u := objs[u].(place := Allgc, slots := slots)], open[th := open[th][1..]])
  {
    hide OpenList;
    var u := open[th][0];
    var objs' := objs[u := objs[u].(place := Allgc, slots := slots)];
    var open' := open[th := open[th][1..]];
    forall t | t in open' ensures OpenList(objs', t, open'[t]) { CloseOne(objs, open, th, t, slots); }
  }

  lemma {:induction false} CloseOne(objs: Objs, open: map<Ref, seq<Ref>>, th: Ref, t: Ref, slots: seq<Ref>)
    requires th in open && open[th] != [] && open[th][0] in objs && t in open && OpenList(objs, t, open[t])
    requires objs[open[th][0]].place.Open? && objs[open[th][0]].place.th == th
    ensures var u := open[th][0]; OpenList(objs[u := objs[u].(place := Allgc, slots := slots)], t,
        if t == th then open[t][1..] else open[t])
  {
    var u, l := open[th][0], open[t];
    if t == th {
      SortedNoDup(objs, t, l);
      assert l == [u] + l[1..];
      assert forall r :: r in l <==> r == u || r in l[1..];
    } else {
      assert u !in l;
    }
  }

  /** Freeing an object already taken out of `allgc`; a thread must have closed its upvalues. */
  lemma {:induction false} LinkFreeOut(objs: Objs, open: map<Ref, seq<Ref>>, allgc: seq<Ref>, strt: seq<seq<Ref>>,
      uvhead: seq<Ref>, main: Ref, out: set<Ref>, r: Ref)
    requires Linked(objs, open, allgc, strt, uvhead, main, out) && r in out && r in objs && objs[r].place == Allgc
    requires r in open ==> open[r] == []
    ensures Linked(objs - {r}, open - {r}, allgc, strt, uvhead, main, out - {r})
  {
    hide AllgcOk, StrtOk, MainOk, OpenOk, OpenList, UvheadOk;
    FreeAllgc(objs, allgc, out, r);
    FreeStrt(objs, strt, r);
    FreeMain(objs, main, r);
    assert UvheadOk(objs - {r}, uvhead) by { FreeOther(objs, uvhead, r); }
    FreeThread(objs, open, r);
  }

  lemma {:induction false} FreeOther(objs: Objs, uvhead: seq<Ref>, r: Ref)
    requires UvheadOk(objs, uvhead) && r in objs && !IsOpen(objs[r])
    ensures UvheadOk(objs - {r}, uvhead)
  {
  }

  lemma {:induction false} FreeThread(objs: Objs, open: map<Ref, seq<Ref>>, r: Ref)
    requires OpenOk(objs, open) && r in objs && !IsOpen(objs[r]) && (r in open ==> open[r] == [])
    ensures OpenOk(objs - {r}, open - {r})
  {
    forall t | t in open && t != r ensures OpenList(objs - {r}, t, open[t]) {
      assert OpenList(objs, t, open[t]) && r !in open[t];
    }
  }

  /** A dead object is taken out of `allgc` ... */
  lemma {:induction false} LinkTakeOut(objs: Objs, open: map<Ref, seq<Ref>>, allgc: seq<Ref>, strt: seq<seq<Ref>>,
      uvhead: seq<Ref>, main: Ref, out: set<Ref>, i: nat)
    requires Linked(objs, open, allgc, strt, uvhead, main, out) && i < |allgc|
    ensures Linked(objs, open, RemoveAt(allgc, i), strt, uvhead, main, out + {allgc[i]}) && allgc[i] in objs
        && objs[allgc[i]].place == Allgc
  {
    hide StrtOk, MainOk, OpenOk, UvheadOk;
    assert allgc[i] in allgc;
    RemoveAtMembers(allgc, i);
  }

  /** ... or out of a chain of the string table, and freed. */
  lemma {:induction false} LinkFreeString(objs: Objs, open: map<Ref, seq<Ref>>, allgc: seq<Ref>, strt: seq<seq<Ref>>,
      uvhead: seq<Ref>, main: Ref, out: set<Ref>, b: nat, i: nat)
    requires Linked(objs, open, allgc, strt, uvhead, main, out) && b < |strt| && i < |strt[b]|
    ensures strt[b][i] in objs && objs[strt[b][i]].place.InTable? && objs[strt[b][i]].kind == KString
    ensures Linked(objs - {strt[b][i]}, open, allgc, strt[b := RemoveAt(strt[b], i)], uvhead, main, out - {strt[b][i]})
  {
    hide AllgcOk, MainOk, OpenOk, UvheadOk, Lmod;
    var r := strt[b][i];
    assert r in strt[b];
    RemoveAtMembers(strt[b], i);
    FreeAllgc(objs, allgc, out, r);
    FreeMain(objs, main, r);
    FreeOther(objs, uvhead, r);
    FreePlain(objs, open, r);
  }

  lemma {:induction false} FreePlain(objs: Objs, open: map<Ref, seq<Ref>>, r: Ref)
    requires OpenOk(objs, open) && r in objs && !IsOpen(objs[r]) && objs[r].kind != KThread
    ensures OpenOk(objs - {r}, open)
  {
    FreeThread(objs, open, r);
    assert r !in open && open - {r} == open;
  }
}
