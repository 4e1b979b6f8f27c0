/** Cluster chains: the table as a set of disjoint lists of clusters, and what
    allocating and freeing do to it. */
module FatChains {

  /** All entries from 2 on are in a table `t` with `|t|` numbered entries. */
  predicate InRange(t: seq<nat>, c: nat) {
    2 <= c < |t|
  }

  /** A chain: distinct clusters, each entry naming the next, the last an end mark. */
  ghost predicate Chain(t: seq<nat>, s: seq<nat>) {
    && s != []
    && (forall i | 0 <= i < |s| :: InRange(t, s[i]))
    && (forall i, j | 0 <= i < j < |s| :: s[i] != s[j])
    && (forall i | 0 <= i < |s| - 1 :: t[s[i]] == s[i + 1])
    && t[s[|s| - 1]] >= |t|
  }

  /** The table is made of disjoint chains; all other entries are free. */
  ghost predicate Chained(t: seq<nat>, chains: set<seq<nat>>) {
    AllChains(t, chains) && Disjoint(chains) && Covered(t, chains)
  }

  ghost predicate AllChains(t: seq<nat>, chains: set<seq<nat>>) {
    forall s | s in chains :: Chain(t, s)
  }

  ghost predicate Disjoint(chains: set<seq<nat>>) {
    forall s, r, c: nat | s in chains && r in chains && c in s && c in r :: s == r
  }

  ghost predicate Covered(t: seq<nat>, chains: set<seq<nat>>) {
    forall c: nat | InRange(t, c) && t[c] != 0 :: exists s :: s in chains && c in s
  }

  ghost function FreeSet(t: seq<nat>): set<nat> {
    set c: nat | c < |t| && InRange(t, c) && t[c] == 0
  }

  ghost function UsedSet(t: seq<nat>): set<nat> {
    set c: nat | c < |t| && InRange(t, c) && t[c] != 0
  }

  /** No entry of a chained table is 1, and a free one is in no chain. */
  lemma {:induction false} ChainedEntries(t: seq<nat>, chains: set<seq<nat>>)
    requires Chained(t, chains)
    ensures forall c: nat | InRange(t, c) :: t[c] != 1 && (t[c] == 0 ==> forall s | s in chains :: c !in s)
  {
    forall c: nat | InRange(t, c) ensures t[c] != 1 && (t[c] == 0 ==> forall s | s in chains :: c !in s) {
      forall s | s in chains && c in s ensures t[c] >= 2 { MemberEntry(t, s, c); }
    }
  }

  lemma {:induction false} MemberEntry(t: seq<nat>, s: seq<nat>, c: nat)
    requires Chain(t, s) && c in s
    ensures t[c] >= 2 && InRange(t, c)
  {
    var i :| 0 <= i < |s| && s[i] == c;
    if i < |s| - 1 { assert InRange(t, s[i + 1]); }
  }

  /** Following entries from a cluster and freeing them, as remove_chain does on any table. */
  function Freed(t: seq<nat>, c: nat): (r: seq<nat>)
    ensures |r| == |t|
    decreases UsedSet(t)
  {
    if InRange(t, c) && t[c] > 1 then
      assert c in UsedSet(t) && UsedSet(t[c := 0]) == UsedSet(t) - {c};
      Freed(t[c := 0], t[c])
    else t
  }

  /** A way through the table on which each entry names the next: it may end in an end
      mark, in a free entry or a bad one, or in itself. */
  ghost predicate Trail(t: seq<nat>, s: seq<nat>) {
    && s != []
    && (forall i | 0 <= i < |s| :: InRange(t, s[i]) && t[s[i]] > 1)
    && (forall i, j | 0 <= i < j < |s| :: s[i] != s[j])
    && (forall i | 0 <= i < |s| - 1 :: t[s[i]] == s[i + 1])
  }

  /** ... to its end. */
  ghost predicate WholeTrail(t: seq<nat>, s: seq<nat>) {
    Trail(t, s) && var e := t[s[|s| - 1]]; !InRange(t, e) || t[e] <= 1 || e in s
  }

  lemma {:induction false} RestOfTrail(t: seq<nat>, s: seq<nat>)
    requires WholeTrail(t, s) && |s| > 1
    ensures WholeTrail(t[s[0] := 0], s[1..]) && forall c :: c in s <==> c == s[0] || c in s[1..]
    ensures t[s[0] := 0][s[|s| - 1]] == t[s[|s| - 1]] && s[1..][|s| - 2] == s[|s| - 1]
  {
    var t', r := t[s[0] := 0], s[1..];
    assert s == [s[0]] + r;
    forall i | 0 <= i < |r| ensures InRange(t', r[i]) && t'[r[i]] == t[s[i + 1]] { assert InRange(t, s[i + 1]); }
  }

  /** On any table just the entries on the way are freed. */
  lemma {:induction false} FreedTrail(t: seq<nat>, s: seq<nat>)
    requires WholeTrail(t, s)
    ensures forall c | 0 <= c < |t| :: Freed(t, s[0])[c] == if c in s then 0 else t[c]
    decreases |s|
  {
    var t' := t[s[0] := 0];
    assert InRange(t, s[0]);
    if |s| > 1 {
      RestOfTrail(t, s);
      FreedTrail(t', s[1..]);
    } else {
      assert Freed(t', t[s[0]]) == t';
      assert s == [s[0]];
    }
  }

  lemma {:induction false} ChainTrail(t: seq<nat>, s: seq<nat>)
    requires Chain(t, s)
    ensures WholeTrail(t, s) && t[s[|s| - 1]] >= |t|
  {
    forall i | 0 <= i < |s| ensures t[s[i]] > 1 { MemberEntry(t, s, s[i]); }
  }

  /** On a table of chains exactly the one is freed. */
  lemma {:induction false} FreedChain(t: seq<nat>, s: seq<nat>)
    requires Chain(t, s)
    ensures forall c | 0 <= c < |t| :: Freed(t, s[0])[c] == if c in s then 0 else t[c]
  {
    ChainTrail(t, s);
    FreedTrail(t, s);
  }

  /** Freeing the entries of a chain leaves the others. */
  lemma {:induction false} ChainFreed(t: seq<nat>, t': seq<nat>, chains: set<seq<nat>>, s: seq<nat>)
    requires Chained(t, chains) && s in chains && |t'| == |t|
    requires forall c | 0 <= c < |t| :: t'[c] == if c in s then 0 else t[c]
    ensures Chained(t', chains - {s})
  {
    forall r | r in chains - {s} ensures Chain(t', r) { OtherChain(t, t', r); }
    forall c: nat | InRange(t', c) && t'[c] != 0 ensures exists r :: r in chains - {s} && c in r {
      assert InRange(t, c);
      var r :| r in chains && c in r;
      assert r in chains - {s};
    }
  }

  /** A chain stays one when none of its entries changes. */
  lemma {:induction false} OtherChain(t: seq<nat>, t': seq<nat>, r: seq<nat>)
    requires Chain(t, r) && |t'| == |t| && forall c | c in r && 0 <= c < |t| :: t'[c] == t[c]
    ensures Chain(t', r)
  {
    forall i | 0 <= i < |r| ensures InRange(t', r[i]) { assert InRange(t, r[i]); }
    forall i | 0 <= i < |r| ensures t'[r[i]] == t[r[i]] { assert r[i] in r && InRange(t, r[i]); }
  }

  /** A free cluster becomes a chain of its own ... */
  lemma {:induction false} ChainStarted(t: seq<nat>, chains: set<seq<nat>>, n: nat, eoc: nat)
    requires Chained(t, chains) && InRange(t, n) && t[n] == 0 && eoc >= |t|
    ensures Chained(t[n := eoc], chains + {[n]})
  {
    hide Chain;
    var t' := t[n := eoc];
    ChainedEntries(t, chains);
    assert Chain(t', [n]) by { OneChain(t', n); }
    forall r | r in chains ensures Chain(t', r) { OtherChain(t, t', r); }
    forall c: nat | InRange(t', c) && t'[c] != 0 ensures exists r :: r in chains + {[n]} && c in r {
      if c == n { assert c in [n] && [n] in chains + {[n]}; } else {
        assert InRange(t, c);
        var r :| r in chains && c in r;
        assert r in chains + {[n]};
      }
    }
    assert Disjoint(chains + {[n]}) by { assert forall c | c in [n] :: c == n; }
  }

  lemma {:induction false} OneChain(t: seq<nat>, n: nat)
    requires InRange(t, n) && t[n] >= |t|
    ensures Chain(t, [n])
  {
  }

  /** ... or the new end of one. */
  lemma {:induction false} ChainStretched(t: seq<nat>, chains: set<seq<nat>>, s: seq<nat>, n: nat, eoc: nat)
    requires Chained(t, chains) && s in chains && s != [] && InRange(t, n) && t[n] == 0 && eoc >= |t|
        && s[|s| - 1] < |t|
    ensures Chained(t[n := eoc][s[|s| - 1] := n], chains - {s} + {s + [n]})
  {
    hide Chain;
    var last := s[|s| - 1];
    var t' := t[n := eoc][last := n];
    var s' := s + [n];
    ChainedEntries(t, chains);
    assert last in s;
    LongerChain(t, s, n, eoc);
    assert forall c :: c in s' <==> c in s || c == n;
    forall r | r in chains - {s} ensures Chain(t', r) && n !in r && last !in r { OtherChain(t, t', r); }
    forall c: nat | InRange(t', c) && t'[c] != 0 ensures exists r :: r in chains - {s} + {s'} && c in r {
      if c == n || c in s { assert s' in chains - {s} + {s'} && c in s'; } else {
        assert InRange(t, c);
        var r :| r in chains && c in r;
        assert r in chains - {s} + {s'};
      }
    }
  }

  lemma {:induction false} LongerChain(t: seq<nat>, s: seq<nat>, n: nat, eoc: nat)
    requires Chain(t, s) && n !in s && InRange(t, n) && eoc >= |t|
    ensures s[|s| - 1] < |t| && Chain(t[n := eoc][s[|s| - 1] := n], s + [n])
  {
    var last := s[|s| - 1];
    assert last in s && InRange(t, last);
    var t' := t[n := eoc][last := n];
    var s' := s + [n];
    forall i | 0 <= i < |s'| ensures InRange(t', s'[i]) { if i < |s| { assert InRange(t, s[i]); } }
    forall i | 0 <= i < |s'| - 1
      ensures t'[s'[i]] == s'[i + 1] { if i < |s| - 1 { assert s[i] != last && s[i] in s && InRange(t, s[i]); } }
    forall i, j | 0 <= i < j < |s'| ensures s'[i] != s'[j] { if j == |s| { assert s[i] in s; } }
  }

  /** An end mark in the middle cuts a chain in two. */
  lemma {:induction false} ChainCut(t: seq<nat>, chains: set<seq<nat>>, s: seq<nat>, k: nat, eoc: nat)
    requires Chained(t, chains) && s in chains && k < |s| - 1 && eoc >= |t|
    ensures InRange(t, s[k]) && Chained(t[s[k] := eoc], chains - {s} + {s[..k + 1], s[k + 1..]})
    ensures s[k + 1..] !in chains - {s} && s[..k + 1] != s[k + 1..]
  {
    hide Chain;
    var a, b := s[..k + 1], s[k + 1..];
    ChainFacts(t, s);
    assert s == a + b && InRange(t, s[k]);
    var t' := t[s[k] := eoc];
    var chains' := chains - {s} + {a, b};
    CutHalves(t, s, k, eoc);
    assert s[k] in s && b[0] in b && b[0] in s;
    forall r | r in chains - {s} ensures Chain(t', r) { OtherChain(t, t', r); }
    assert forall c :: c in s <==> c in a || c in b;
    forall c ensures !(c in a && c in b) { HalvesApart(s, k, c); }
    assert Disjoint(chains') by {
      forall r, q, c: nat | r in chains' && q in chains' && c in r && c in q ensures r == q {
        if c in s {
          assert r in chains - {s} ==> r == s;
          assert q in chains - {s} ==> q == s;
        }
      }
    }
    forall c: nat | InRange(t', c) && t'[c] != 0 ensures exists r :: r in chains' && c in r {
      assert InRange(t, c) && t[c] != 0 by { if c == s[k] { MemberEntry(t, s, c); } }
      var r :| r in chains && c in r;
      if r == s { assert a in chains' && b in chains'; } else { assert r in chains'; }
    }
  }

  lemma {:induction false} ChainFacts(t: seq<nat>, s: seq<nat>)
    requires Chain(t, s)
    ensures s != [] && (forall i | 0 <= i < |s| :: InRange(t, s[i])) && forall i, j | 0 <= i < j < |s| :: s[i] != s[j]
  {
  }

  lemma {:induction false} HalvesApart(s: seq<nat>, k: nat, c: nat)
    requires k < |s| - 1 && forall i, j | 0 <= i < j < |s| :: s[i] != s[j]
    ensures !(c in s[..k + 1] && c in s[k + 1..])
  {
  }

  lemma {:induction false} CutHalves(t: seq<nat>, s: seq<nat>, k: nat, eoc: nat)
    requires Chain(t, s) && k < |s| - 1 && eoc >= |t| && InRange(t, s[k])
    ensures Chain(t[s[k] := eoc], s[..k + 1]) && Chain(t[s[k] := eoc], s[k + 1..])
  {
    var t', a, b := t[s[k] := eoc], s[..k + 1], s[k + 1..];
    forall i | 0 <= i < |s| ensures InRange(t', s[i]) { assert InRange(t, s[i]); }
    forall i | 0 <= i < |a| - 1 ensures t'[a[i]] == a[i + 1] { assert s[i] != s[k]; }
    forall i | 0 <= i < |b| - 1 ensures t'[b[i]] == b[i + 1] { assert s[k] != s[k + 1 + i]; }
    assert s[k] != s[|s| - 1];
  }

  // ----- Counting -----

  ghost function Elems(s: seq<nat>): set<nat> {
    set c | c in s
  }

  lemma {:induction false} ElemsSize(s: seq<nat>)
    requires forall i, j | 0 <= i < j < |s| :: s[i] != s[j]
    ensures |Elems(s)| == |s|
  {
    if s != [] {
      ElemsSize(s[1..]);
      assert Elems(s) == Elems(s[1..]) + {s[0]};
    }
  }

  /** The chains but `s` are those of the other set but `s'`. */
  ghost predicate SameOthers(chains: set<seq<nat>>, chains': set<seq<nat>>, s: seq<nat>, s': seq<nat>) {
    chains - {s} == chains' - {s'}
  }

  /** A chain, or none. */
  ghost predicate Own(chains: set<seq<nat>>, s: seq<nat>) {
    s == [] || s in chains
  }

  /** The other chains when one is cut in two and the rest freed. */
  lemma {:induction false} CutOthers(t: seq<nat>, chains: set<seq<nat>>, s: seq<nat>, k: nat)
    requires k < |s| - 1 && Chained(t, chains) && s in chains
    ensures SameOthers(chains, chains - {s} + {s[..k + 1], s[k + 1..]} - {s[k + 1..]}, s, s[..k + 1])
  {
    var a, b := s[..k + 1], s[k + 1..];
    assert a[0] in a && a[0] in s && b[0] in b && b[0] in s;
    assert a !in chains && b !in chains;
  }

  /** Clusters are conserved: when one chain changes, those it gains were free and
      those it loses are. */
  lemma {:induction false} Conserved(t: seq<nat>, t': seq<nat>, chains: set<seq<nat>>, chains': set<seq<nat>>,
      s: seq<nat>, s': seq<nat>)
    requires Chained(t, chains) && Chained(t', chains') && |t| == |t'| && Own(chains, s) && Own(chains', s')
    requires SameOthers(chains, chains', s, s')
    ensures FreeSet(t) + Elems(s) == FreeSet(t') + Elems(s')
    ensures |FreeSet(t)| + |s| == |FreeSet(t')| + |s'|
  {
    hide FreeSet, Chained;
    forall c ensures c in FreeSet(t) + Elems(s) <==> c in FreeSet(t') + Elems(s') {
      OwnOrFree(t, chains, s, c);
      OwnOrFree(t', chains', s', c);
      assert forall r :: r in chains - {s} <==> r in chains' - {s'};
    }
    assert FreeSet(t) + Elems(s) == FreeSet(t') + Elems(s');
    OwnSize(t, chains, s);
    OwnSize(t', chains', s');
  }

  /** A cluster is in the chain or free exactly if it is in no other chain. */
  lemma {:induction false} OwnOrFree(t: seq<nat>, chains: set<seq<nat>>, s: seq<nat>, c: nat)
    requires Chained(t, chains) && Own(chains, s)
    ensures c in FreeSet(t) || c in s <==> InRange(t, c) && forall r | r in chains - {s} :: c !in r
  {
    ChainedEntries(t, chains);
    if c in s { MemberEntry(t, s, c); }
  }

  lemma {:induction false} OwnSize(t: seq<nat>, chains: set<seq<nat>>, s: seq<nat>)
    requires Chained(t, chains) && Own(chains, s)
    ensures |FreeSet(t) + Elems(s)| == |FreeSet(t)| + |s|
  {
    ChainedEntries(t, chains);
    ElemsSize(s);
    assert FreeSet(t) !! Elems(s);
  }

  lemma {:induction false} CountFreed(t: seq<nat>, c: nat)
    requires InRange(t, c) && t[c] != 0
    ensures |FreeSet(t[c := 0])| == |FreeSet(t)| + 1
  {
    assert FreeSet(t[c := 0]) == FreeSet(t) + {c} && c !in FreeSet(t);
  }

  lemma {:induction false} CountUsed(t: seq<nat>, c: nat, v: nat)
    requires InRange(t, c) && t[c] == 0 && v != 0
    ensures |FreeSet(t[c := v])| == |FreeSet(t)| - 1
  {
    assert FreeSet(t) == FreeSet(t[c := v]) + {c} && c !in FreeSet(t[c := v]);
  }

  lemma {:induction false} CountSame(t: seq<nat>, c: nat, v: nat)
    requires InRange(t, c) && t[c] != 0 && v != 0
    ensures FreeSet(t[c := v]) == FreeSet(t)
  {
  }
}
