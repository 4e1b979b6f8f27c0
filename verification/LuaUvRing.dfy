/** The doubly linked list of all open upvalues (modules/lua/lfunc.c,
    modules/lua/lstate.h): a ring of links through the sentinel `uvhead`. */
module LuaUvRing {
  import opened Common
  import opened LuaGcHeap
  import opened LuaGcLinks

  /** The sentinel, which lies in the global state: no object has its address. */
  const HEAD: Ref := NIL

  /** The fields `u.l.next` and `u.l.prev` of the sentinel and of open upvalues. */
  datatype Ring = Ring(next: map<Ref, Ref>, prev: map<Ref, Ref>)

  /** Around the ring once, from the sentinel to the sentinel. */
  function Cycle(s: seq<Ref>): seq<Ref> {
    [HEAD] + s + [HEAD]
  }

  predicate Joined(k: Ring, a: Ref, b: Ref) {
    a in k.next && k.next[a] == b && b in k.prev && k.prev[b] == a
  }

  /** The links go around through `s`, forwards and backwards. */
  ghost predicate RingOk(k: Ring, s: seq<Ref>) {
    && HEAD !in s && NoDup(s)
    && forall i | 0 <= i <= |s| :: Joined(k, Cycle(s)[i], Cycle(s)[i + 1])
  }

  /** lua_newstate: the sentinel is linked to itself. */
  const EMPTY: Ring := Ring(map[HEAD := HEAD], map[HEAD := HEAD])

  lemma {:induction false} EmptyOk()
    ensures RingOk(EMPTY, [])
  {
  }

  /** Where an upvalue, or the sentinel, is on the way around. */
  lemma {:induction false} PlaceOf(s: seq<Ref>, u: Ref) returns (i: nat)
    requires u == HEAD || u in s
    ensures i <= |s| && Cycle(s)[i] == u && (u != HEAD ==> i > 0)
  {
    if u == HEAD { return 0; }
    var j: nat :| j < |s| && s[j] == u;
    return j + 1;
  }

  /** What lfunc.c asserts: `u->next->prev == u` and `u->prev->next == u`. */
  lemma {:induction false} Consistent(k: Ring, s: seq<Ref>, u: Ref)
    requires RingOk(k, s) && (u == HEAD || u in s)
    ensures u in k.next && k.next[u] in k.prev && k.prev[k.next[u]] == u
    ensures u in k.prev && k.prev[u] in k.next && k.next[k.prev[u]] == u
    ensures k.next[u] == HEAD || k.next[u] in s
  {
    var i := PlaceOf(s, u);
    assert Joined(k, Cycle(s)[i], Cycle(s)[i + 1]);
    var j := if i == 0 then |s| else i - 1;
    assert Joined(k, Cycle(s)[j], Cycle(s)[j + 1]);
  }

  /** The link from position `i` of the way around leads to position `i + 1`. */
  lemma {:induction false} NextOf(k: Ring, s: seq<Ref>, i: nat)
    requires RingOk(k, s) && i <= |s|
    ensures Cycle(s)[i] in k.next && k.next[Cycle(s)[i]] == if i < |s| then s[i] else HEAD
  {
    assert Joined(k, Cycle(s)[i], Cycle(s)[i + 1]);
  }

  /** Linking a new upvalue behind the sentinel, as luaF_findupval does. */
  function LinkFirst(k: Ring, u: Ref): Ring
    requires HEAD in k.next
  {
    var first := k.next[HEAD];
    Ring(k.next[u := first][HEAD := u], k.prev[u := HEAD][first := u])
  }

  lemma {:induction false} FirstLinked(k: Ring, s: seq<Ref>, u: Ref)
    requires RingOk(k, s) && u !in s && u != HEAD
    ensures HEAD in k.next && RingOk(LinkFirst(k, u), [u] + s)
  {
    Consistent(k, s, HEAD);
    NextOf(k, s, 0);
    var k', t, c := LinkFirst(k, u), [u] + s, Cycle(s);
    forall i | 0 <= i <= |t| ensures Joined(k', Cycle(t)[i], Cycle(t)[i + 1]) {
      if i >= 2 {
        assert Joined(k, c[i - 1], c[i]) && Cycle(t)[i] == c[i - 1] && Cycle(t)[i + 1] == c[i];
        assert c[i - 1] == s[i - 2] && c[i] == (if i <= |s| then s[i - 1] else HEAD);
      }
    }
  }

  /** unlinkupval: the neighbours of `u` are linked to each other. */
  function Bypass(k: Ring, u: Ref): Ring
    requires u in k.next && u in k.prev
  {
    Ring(k.next[k.prev[u] := k.next[u]], k.prev[k.next[u] := k.prev[u]])
  }

  lemma {:induction false} Bypassed(k: Ring, s: seq<Ref>, u: Ref)
    requires RingOk(k, s) && u in s
    ensures u in k.next && u in k.prev && RingOk(Bypass(k, u), Unlink(s, u))
  {
    hide Joined, Bypass, Unlink;
    Consistent(k, s, u);
    var j: nat :| j < |s| && s[j] == u;
    var c, t := Cycle(s), Unlink(s, u);
    UnlinkAt(s, j);
    UnlinkMembers(s, u);
    forall i | 0 <= i <= |t| ensures Joined(Bypass(k, u), Cycle(t)[i], Cycle(t)[i + 1]) {
      assert Cycle(t)[i] == c[if i <= j then i else i + 1] && Cycle(t)[i + 1] == c[if i < j then i + 1 else i + 2];
      if i == j { MiddleLink(k, s, j); } else { OtherLink(k, s, j, if i < j then i else i + 1); }
    }
  }

  /** The new link. */
  lemma {:induction false} MiddleLink(k: Ring, s: seq<Ref>, j: nat)
    requires RingOk(k, s) && j < |s| && s[j] in k.next && s[j] in k.prev
    ensures Joined(Bypass(k, s[j]), Cycle(s)[j], Cycle(s)[j + 2])
  {
    var c := Cycle(s);
    assert Joined(k, c[j], c[j + 1]) && Joined(k, c[j + 1], c[j + 2]);
  }

  /** The links away from it stay. */
  lemma {:induction false} OtherLink(k: Ring, s: seq<Ref>, j: nat, a: nat)
    requires RingOk(k, s) && j < |s| && a <= |s| && a != j && a != j + 1 && s[j] in k.next && s[j] in k.prev
    ensures Joined(Bypass(k, s[j]), Cycle(s)[a], Cycle(s)[a + 1])
  {
    var c := Cycle(s);
    assert Joined(k, c[a], c[a + 1]) && Joined(k, c[j], c[j + 1]) && Joined(k, c[j + 1], c[j + 2]);
    Apart(s, a, j);
  }

  /** Neither end of another link is an end of the two links of `s[j]` on the same side. */
  lemma {:induction false} Apart(s: seq<Ref>, a: nat, j: nat)
    requires NoDup(s) && HEAD !in s && a <= |s| && j < |s| && a != j && a != j + 1
    ensures Cycle(s)[a] != Cycle(s)[j] && Cycle(s)[a + 1] != Cycle(s)[j + 2]
  {
    assert a > 0 ==> s[a - 1] in s;
    assert a < |s| ==> s[a] in s;
    assert j > 0 ==> s[j - 1] in s;
    assert j + 1 < |s| ==> s[j + 1] in s;
  }

  lemma {:induction false} UnlinkAt(s: seq<Ref>, j: nat)
    requires NoDup(s) && j < |s|
    ensures Unlink(s, s[j]) == RemoveAt(s, j)
    decreases |s|
  {
    if j > 0 { UnlinkAt(s[1..], j - 1); }
  }

  // ----- Going around -----

  lemma {:induction false} RingStart(k: Ring, s: seq<Ref>)
    requires RingOk(k, s)
    ensures HEAD in k.next && k.next[HEAD] == if s == [] then HEAD else s[0]
  {
    NextOf(k, s, 0);
  }

  lemma {:induction false} RingOn(k: Ring, s: seq<Ref>, i: nat)
    requires RingOk(k, s) && i < |s|
    ensures s[i] in k.next && k.next[s[i]] == if i + 1 < |s| then s[i + 1] else HEAD
  {
    NextOf(k, s, i + 1);
  }

  lemma {:induction false} NoneIsHead(k: Ring, s: seq<Ref>)
    requires RingOk(k, s)
    ensures forall i | 0 <= i < |s| :: s[i] != HEAD
  {
    forall i | 0 <= i < |s| ensures s[i] != HEAD { assert s[i] in s; }
  }
}
