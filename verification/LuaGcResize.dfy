/** Resizing the string table (modules/lua/lstring.c) between steps of the
    collector: every string moves, in place, to the chain its hash has in the new size. */
module LuaGcResize {
  import opened Common
  import opened LuaGcHeap
  import opened LuaGcLinks
  import opened LuaGcSweep

  /** The number of strings in the table. */
  function InUse(strt: seq<seq<Ref>>): nat {
    if strt == [] then 0 else |strt[0]| + InUse(strt[1..])
  }

  ghost function ChainSet(l: seq<Ref>): set<Ref> {
    set r | r in l
  }

  ghost function Members(strt: seq<seq<Ref>>): set<Ref> {
    if strt == [] then {} else ChainSet(strt[0]) + Members(strt[1..])
  }

  lemma {:induction false} MemberOf(strt: seq<seq<Ref>>, r: Ref)
    ensures r in Members(strt) <==> exists b :: 0 <= b < |strt| && r in strt[b]
    decreases |strt|
  {
    if strt != [] {
      var rest := strt[1..];
      MemberOf(rest, r);
      if b :| 0 <= b < |strt| && r in strt[b] { assert b > 0 ==> r in rest[b - 1]; }
      if b :| 0 <= b < |rest| && r in rest[b] { assert r in strt[b + 1]; }
    }
  }

  lemma {:induction false} ChainSize(l: seq<Ref>)
    requires NoDup(l)
    ensures |ChainSet(l)| == |l|
    decreases |l|
  {
    if l != [] {
      var t := l[1..];
      forall i, j | 0 <= i < j < |t| ensures t[i] != t[j] { assert l[i + 1] != l[j + 1]; }
      assert l[0] !in t;
      ChainSize(t);
      forall r ensures r in ChainSet(l) <==> r == l[0] || r in ChainSet(t) { assert r in l <==> r == l[0] || r in t; }
      assert ChainSet(l) == {l[0]} + ChainSet(t) && l[0] !in ChainSet(t);
    }
  }

  /** No string is in two chains. */
  ghost predicate Separate(strt: seq<seq<Ref>>) {
    forall a, b, r: Ref | 0 <= a < b < |strt| && r in strt[a] :: r !in strt[b]
  }

  lemma {:induction false} InUseMembers(strt: seq<seq<Ref>>)
    requires (forall b | 0 <= b < |strt| :: NoDup(strt[b])) && Separate(strt)
    ensures InUse(strt) == |Members(strt)|
    decreases |strt|
  {
    hide NoDup, ChainSet;
    if strt != [] {
      var rest := strt[1..];
      assert forall b | 0 <= b < |rest| :: rest[b] == strt[b + 1];
      InUseMembers(rest);
      ChainSize(strt[0]);
      FirstApart(strt);
    }
  }

  lemma {:induction false} FirstApart(strt: seq<seq<Ref>>)
    requires Separate(strt) && strt != []
    ensures ChainSet(strt[0]) * Members(strt[1..]) == {}
  {
    forall r | r in ChainSet(strt[0]) ensures r !in Members(strt[1..]) { MemberOf(strt[1..], r); }
  }

  /** The strings in the table. */
  lemma {:induction false} InUseIs(objs: Objs, strt: seq<seq<Ref>>)
    requires StrtOk(objs, strt)
    ensures InUse(strt) == |set r | r in objs && objs[r].place.InTable?|
  {
    hide Lmod, NoDup;
    forall a: nat, b: nat, r: Ref | a < b < |strt| && r in strt[a] ensures r !in strt[b] {
      assert Lmod(objs[r].place.hash, |strt|) == a;
    }
    InUseMembers(strt);
    forall r ensures r in Members(strt) <==> r in objs && objs[r].place.InTable? {
      MemberOf(strt, r);
      if r in objs && objs[r].place.InTable? { assert r in strt[Lmod(objs[r].place.hash, |strt|)]; }
    }
    assert Members(strt) == set r | r in objs && objs[r].place.InTable?;
  }

  /** The chain of a hash when, on the way from `prev` to `size` chains, those
      before `i` have been done. */
  function Home(hash: nat, prev: nat, size: nat, i: nat): nat
    requires prev > 0 && size > 0
  {
    if Lmod(hash, prev) < i then Lmod(hash, size) else Lmod(hash, prev)
  }

  /** Every string is in one chain, once: those in `done` where they belong in the
      new size, the others where the rehash has them. */
  ghost predicate Spread(objs: Objs, strt: seq<seq<Ref>>, prev: nat, size: nat, i: nat, done: seq<Ref>) {
    && prev > 0 && size > 0 && |strt| == (if prev < size then size else prev)
    && (forall b | 0 <= b < |strt| :: NoDup(strt[b]))
    && (forall b: nat, r | b < |strt| ::
          r in strt[b] <==>
            r in objs && objs[r].place.InTable? && Due(objs[r].place.hash, prev, size, i, r in done) == b)
    && (forall r | r in objs :: objs[r].place.InTable? ==> objs[r].kind == KString)
  }

  function Due(hash: nat, prev: nat, size: nat, i: nat, done: bool): nat
    requires prev > 0 && size > 0
  {
    if done then Lmod(hash, size) else Home(hash, prev, size, i)
  }

  /** luaM_reallocvector: new chains are empty, and nothing has moved. */
  lemma {:induction false} NothingMoved(objs: Objs, strt: seq<seq<Ref>>, more: seq<seq<Ref>>, size: nat)
    requires StrtOk(objs, strt) && size > 0 && |strt + more| == (if |strt| < size then size else |strt|)
    requires forall b | 0 <= b < |more| :: more[b] == []
    ensures Spread(objs, strt + more, |strt|, size, 0, [])
  {
    hide Lmod;
    var t := strt + more;
    forall b: nat, r | b < |t|
      ensures r in t[b]
          <==> r in objs && objs[r].place.InTable? && Due(objs[r].place.hash, |strt|, size, 0, false) == b
    {
      assert t[b] == if b < |strt| then strt[b] else more[b - |strt|];
    }
  }

  /** Element `k` of chain `i` goes to the front of chain `h`. */
  function Move(strt: seq<seq<Ref>>, i: nat, k: nat, h: nat): seq<seq<Ref>>
    requires i < |strt| && k < |strt[i]| && h < |strt|
  {
    var t := strt[i := RemoveAt(strt[i], k)];
    t[h := [strt[i][k]] + t[h]]
  }

  lemma {:induction false} MoveMembers(strt: seq<seq<Ref>>, i: nat, k: nat, h: nat, b: nat)
    requires i < |strt| && k < |strt[i]| && h < |strt| && b < |strt| && NoDup(strt[i]) && NoDup(strt[b])
        && (b != i ==> strt[i][k] !in strt[b])
    ensures |Move(strt, i, k, h)| == |strt| && NoDup(Move(strt, i, k, h)[b])
    ensures forall q :: q in Move(strt, i, k, h)[b] <==> if q == strt[i][k] then b == h else q in strt[b]
  {
    var r, t := strt[i][k], strt[i := RemoveAt(strt[i], k)];
    RemoveAtMembers(strt[i], k);
    assert forall q :: q in [r] + t[b] <==> q == r || q in t[b];
  }

  /** Moving one string of a chain keeps every string in one chain. */
  lemma {:induction false} OneMoved(objs: Objs, strt: seq<seq<Ref>>, prev: nat, size: nat, i: nat, done: seq<Ref>,
      k: nat)
    requires Spread(objs, strt, prev, size, i, done) && i < |strt| && k < |strt[i]|
    ensures strt[i][k] in objs && objs[strt[i][k]].place.InTable? && Lmod(objs[strt[i][k]].place.hash, size) < |strt|
    ensures Spread(objs, Move(strt, i, k, Lmod(objs[strt[i][k]].place.hash, size)), prev, size, i, done + [strt[i][k]])
  {
    hide Move, Lmod, Home;
    var r := strt[i][k];
    assert r in strt[i];
    var h := Lmod(objs[r].place.hash, size);
    var t := Move(strt, i, k, h);
    forall b: nat | b < |strt|
      ensures |t| == |strt| && NoDup(t[b]) && forall q :: q in t[b] <==> if q == r then b == h else q in strt[b]
    {
      MoveMembers(strt, i, k, h, b);
    }
    forall b: nat, q | b < |t|
      ensures q in t[b]
          <==> q in objs && objs[q].place.InTable? && Due(objs[q].place.hash, prev, size, i, q in done + [r]) == b
    {
      assert q in done + [r] <==> q in done || q == r;
    }
  }

  /** When all strings of chain `i` have moved it is done. */
  lemma {:induction false} ChainMoved(objs: Objs, strt: seq<seq<Ref>>, prev: nat, size: nat, i: nat, done: seq<Ref>)
    requires Spread(objs, strt, prev, size, i, done)
    requires forall r ::
      r in done <==> r in objs && objs[r].place.InTable? && Home(objs[r].place.hash, prev, size, i) == i
    ensures Spread(objs, strt, prev, size, i + 1, [])
  {
    hide Lmod;
    forall r | r in objs && objs[r].place.InTable?
      ensures Due(objs[r].place.hash, prev, size, i, r in done) == Due(objs[r].place.hash, prev, size, i + 1, r in [])
    {
    }
  }

  /** When all chains are done every string is where its hash says, and the chains
      to be cut off are empty. */
  lemma {:induction false} AllMoved(objs: Objs, strt: seq<seq<Ref>>, prev: nat, size: nat)
    requires Spread(objs, strt, prev, size, prev, [])
    ensures StrtOk(objs, strt[..size]) && forall b | size <= b < |strt| :: strt[b] == []
  {
    hide Lmod;
    forall b: nat, r | b < |strt|
      ensures r in strt[b] <==> r in objs && objs[r].place.InTable? && Lmod(objs[r].place.hash, size) == b
    {
      assert r in strt[b]
          <==> r in objs && objs[r].place.InTable? && Due(objs[r].place.hash, prev, size, prev, false) == b;
    }
    forall b | size <= b < |strt| ensures strt[b] == [] {
      forall r ensures r !in strt[b] { assert r in objs && objs[r].place.InTable?
          ==> Lmod(objs[r].place.hash, size) < size; }
      NoMembers(strt[b]);
    }
  }

  lemma {:induction false} NoMembers(s: seq<Ref>)
    ensures (forall r :: r !in s) ==> s == []
  {
    if s != [] { assert s[0] in s; }
  }

  /** The contents of a chain when its turn comes. */
  lemma {:induction false} ChainHolds(objs: Objs, strt: seq<seq<Ref>>, prev: nat, size: nat, i: nat)
    requires Spread(objs, strt, prev, size, i, []) && i < |strt|
    ensures forall r ::
      r in strt[i] <==> r in objs && objs[r].place.InTable? && Home(objs[r].place.hash, prev, size, i) == i
  {
    hide Lmod, Home;
    forall r ensures r in strt[i]
        <==> r in objs && objs[r].place.InTable? && Home(objs[r].place.hash, prev, size, i) == i {
      assert r in strt[i]
          <==> r in objs && objs[r].place.InTable? && Due(objs[r].place.hash, prev, size, i, false) == i;
    }
  }

  /** Taking the first of the strings that are left of chain `i`. */
  lemma {:induction false} MoveIs(strt: seq<seq<Ref>>, i: nat, r: Ref, rest: seq<Ref>, h: nat)
    requires i < |strt| && h < |strt|
    ensures var full, t := strt[i := strt[i] + ([r] + rest)], strt[h := [r] + strt[h]];
      Move(full, i, |strt[i]|, h) == t[i := t[i] + rest] && full[i][|strt[i]|] == r
  {
    var full, t := strt[i := strt[i] + ([r] + rest)], strt[h := [r] + strt[h]];
    assert RemoveAt(full[i], |strt[i]|) == strt[i] + rest;
    assert [r] + (strt[i] + rest) == ([r] + strt[i]) + rest;
    assert forall b | 0 <= b < |strt| :: Move(full, i, |strt[i]|, h)[b] == t[i := t[i] + rest][b];
  }

  /** The first `k` strings of chain `i`, which held `s`, have moved. */
  ghost predicate Drained(objs: Objs, strt: seq<seq<Ref>>, prev: nat, size: nat, i: nat, s: seq<Ref>, k: nat) {
    i < |strt| && k <= |s| && Spread(objs, strt[i := strt[i] + s[k..]], prev, size, i, s[..k])
  }

  lemma {:induction false} DrainStarts(objs: Objs, strt: seq<seq<Ref>>, prev: nat, size: nat, i: nat)
    requires Spread(objs, strt, prev, size, i, []) && i < |strt|
    ensures Drained(objs, strt[i := []], prev, size, i, strt[i], 0)
  {
    hide Spread;
    assert [] + strt[i][0..] == strt[i];
    assert strt[i := []][i := strt[i]] == strt;
  }

  lemma {:induction false} DrainOne(objs: Objs, strt: seq<seq<Ref>>, prev: nat, size: nat, i: nat, s: seq<Ref>, k: nat)
    requires Drained(objs, strt, prev, size, i, s, k) && k < |s| && size > 0
    ensures s[k] in objs && objs[s[k]].place.InTable? && Lmod(objs[s[k]].place.hash, size) < |strt|
    ensures var h := Lmod(objs[s[k]].place.hash, size); Drained(objs, strt[h := [s[k]] + strt[h]], prev, size, i, s,
        k + 1)
  {
    hide Spread, Lmod, Move;
    var full := strt[i := strt[i] + s[k..]];
    assert s[k..] == [s[k]] + s[k + 1..];
    OneMoved(objs, full, prev, size, i, s[..k], |strt[i]|);
    MoveIs(strt, i, s[k], s[k + 1..], Lmod(objs[s[k]].place.hash, size));
    assert s[..k] + [s[k]] == s[..k + 1];
  }

  /** When all its strings have moved the chain is done. */
  lemma {:induction false} DrainEnds(objs: Objs, strt: seq<seq<Ref>>, prev: nat, size: nat, i: nat, s: seq<Ref>)
    requires Drained(objs, strt, prev, size, i, s, |s|) && prev > 0 && size > 0
    requires forall r :: r in s <==> r in objs && objs[r].place.InTable? && Home(objs[r].place.hash, prev, size, i) == i
    ensures Spread(objs, strt, prev, size, i + 1, [])
  {
    hide Spread, Home;
    assert s[|s|..] == [] && s[..|s|] == s && strt[i] + [] == strt[i] && strt[i := strt[i]] == strt;
    ChainMoved(objs, strt, prev, size, i, s);
  }

  lemma {:induction false} SpreadSize(objs: Objs, strt: seq<seq<Ref>>, prev: nat, size: nat, i: nat, done: seq<Ref>)
    requires Spread(objs, strt, prev, size, i, done)
    ensures prev > 0 && size > 0 && prev <= |strt| && size <= |strt|
  {
  }

  lemma {:induction false} StrtSize(objs: Objs, strt: seq<seq<Ref>>)
    requires StrtOk(objs, strt)
    ensures strt != []
  {
  }

  lemma {:induction false} TableOk(g: GcState)
    requires StateOk(g)
    ensures StrtOk(g.mem.objs, g.strt)
  {
    hide StrtOk, AllgcOk, OpenOk, UvheadOk, MainOk, Safe, PhaseOk;
  }

  /** The rehash matters to no phase but that of sweeping strings. */
  lemma {:induction false} RehashedOk(g: GcState, strt: seq<seq<Ref>>)
    requires StateOk(g) && g.phase != SweepString && StrtOk(g.mem.objs, strt)
    ensures StateOk(g.(strt := strt))
  {
    hide Safe, SweptUpTo, AllgcOk, OpenOk, UvheadOk, MainOk, Lmod;
    if Sweeping(g.phase) { RehashedWhite(g.mem, g.white, g.strt, strt); }
  }

  lemma {:induction false} RehashedWhite(m: Mem, w: bool, strt: seq<seq<Ref>>, strt': seq<seq<Ref>>)
    requires StrtOk(m.objs, strt) && StrtOk(m.objs, strt') && forall b | 0 <= b < |strt| :: AllWhite(m, w, strt[b])
    ensures forall b | 0 <= b < |strt'| :: AllWhite(m, w, strt'[b])
  {
    hide Lmod;
    forall b, r | 0 <= b < |strt'| && r in strt'[b] ensures r in m.col && m.col[r] == WhiteOf(w) {
      var b0 := Lmod(m.objs[r].place.hash, |strt|);
      assert r in strt[b0] && AllWhite(m, w, strt[b0]);
    }
  }
}
