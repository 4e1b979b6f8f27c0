/** Allocating and freeing clusters (modules/fatfs/ff.c): remove_chain,
    create_chain and the count of free clusters. */
module FatAlloc {
  import opened Common
  import opened FatVolume
  import opened FatWindow
  import opened FatChains

  const END_MARK: nat := 0x0FFF_FFFF

  /** What create_chain gives for a bad entry, and for a failing drive. */
  const CHAIN_ERROR: nat := 1

  const DRIVE_ERROR: nat := 0xFFFF_FFFF

  ghost function Tab(fs: FatFs): (t: seq<nat>)
    requires fs.WinOk()
    reads fs`disk, fs`winsect, fs`wflag, fs.win
    ensures |t| == fs.vol.maxClust
  {
    HasTab(fs);
    Table(fs.See(), fs.vol)
  }

  lemma {:induction false} HasTab(fs: FatFs)
    requires fs.WinOk()
    ensures HasTable(fs.See(), fs.vol)
  {
    fs.VolumeHasTable();
  }

  lemma {:induction false} VolOk(fs: FatFs)
    requires fs.WinOk()
    ensures fs.vol.Ok() && |fs.See()| == fs.vol.size && 2 < fs.vol.maxClust <= 0x0FFF_FFF7 && fs.win.Length == SS
        && |fs.disk| == fs.vol.size
  {
    hide Times;
  }

  /** The window is sound. A count of free clusters that was right stays so; one
      that was not is of no consequence. */
  ghost predicate FsOk(fs: FatFs)
    reads fs, fs.win
  {
    fs.WinOk() && (fs.counted ==> fs.freeClust == UNKNOWN || fs.freeClust == |FreeSet(Tab(fs))|)
  }

  /** Nothing outside the table changed. */
  twostate predicate TableOnly(fs: FatFs)
    requires fs.WinOk() && old(fs.WinOk())
    reads fs`disk, fs`winsect, fs`wflag, fs.win
  {
    forall s | 0 <= s < fs.vol.size && !fs.vol.InTable(s) :: fs.See()[s] == old(fs.See())[s]
  }

  /** What remove_chain reports: an entry 1 on the way is an error. */
  function FreedResult(t: seq<nat>, c: nat): FResult
    decreases UsedSet(t)
  {
    if !InRange(t, c) || t[c] == 0 then Ok
    else if t[c] == 1 then IntErr
    else
      assert c in UsedSet(t) && UsedSet(t[c := 0]) == UsedSet(t) - {c};
      FreedResult(t[c := 0], t[c])
  }

  /** The only error met on the way is an entry 1 at its end. */
  lemma {:induction false} TrailResult(t: seq<nat>, s: seq<nat>)
    requires WholeTrail(t, s)
    ensures FreedResult(t, s[0]) == var e := t[s[|s| - 1]]; if InRange(t, e) && t[e] == 1 then IntErr else Ok
    decreases |s|
  {
    var t' := t[s[0] := 0];
    assert InRange(t, s[0]);
    if |s| > 1 {
      RestOfTrail(t, s);
      TrailResult(t', s[1..]);
      assert s[0] in s && t[s[0]] > 1;
    } else {
      assert s == [s[0]];
    }
  }

  lemma {:induction false} ChainFreedOk(t: seq<nat>, s: seq<nat>)
    requires Chain(t, s)
    ensures InRange(t, s[0]) && FreedResult(t, s[0]) == Ok
  {
    assert InRange(t, s[0]);
    ChainTrail(t, s);
    TrailResult(t, s);
  }

  /** remove_chain: it follows and frees entries on any table, cyclic ones included. */
  method RemoveChain(fs: FatFs, clst0: nat) returns (res: FResult)
    requires FsOk(fs)
    modifies fs`disk, fs`wflag, fs`winsect, fs`freeClust, fs`fsiFlag, fs.win
    ensures FsOk(fs) && TableOnly(fs)
    ensures Tab(fs) == Freed(old(Tab(fs)), clst0)
    ensures res == if InRange(old(Tab(fs)), clst0) then FreedResult(old(Tab(fs)), clst0) else IntErr
  {
    hide Table, FreeSet, FatFs.WinOk, FatFs.See, Volume.Ok;
    VolOk(fs);
    if clst0 < 2 || clst0 >= fs.vol.maxClust { return IntErr; }
    ghost var t0 := Tab(fs);
    var clst := clst0;
    while clst < fs.vol.maxClust
      invariant FsOk(fs) && TableOnly(fs) && 2 <= clst
      invariant Freed(Tab(fs), clst) == Freed(t0, clst0) && FreedResult(Tab(fs), clst) == FreedResult(t0, clst0)
      decreases UsedSet(Tab(fs))
    {
      ghost var t := Tab(fs);
      var nxt := fs.GetFat(clst);
      if nxt == 0 { return Ok; }
      if nxt == 1 { return IntErr; }
      assert clst in UsedSet(t) && UsedSet(t[clst := 0]) == UsedSet(t) - {clst};
      CountFreed(t, clst);
      FewFree(t);
      MaskFacts(fs.vol, 0);
      res := fs.PutFat(clst, 0);
      if res != Ok { return; }
      assert Tab(fs) == t[clst := 0];
      if fs.freeClust != UNKNOWN {
        fs.freeClust := (fs.freeClust + 1) % 0x1_0000_0000;
        fs.fsiFlag := true;
      }
      clst := nxt;
    }
    return Ok;
  }

  /** Clusters and end marks fit an entry; an end mark is no cluster. */
  lemma {:induction false} MaskFacts(vol: Volume, n: nat)
    requires vol.Ok()
    ensures n < vol.maxClust ==> n % vol.Mask() == n
    ensures vol.maxClust <= END_MARK % vol.Mask() && 0 % vol.Mask() == 0
  {
    hide Times;
  }

  /** An entry with all its bits set: a proper end mark, and none of the marks for bad clusters. */
  function AllBits(ft: FatType): nat {
    match ft case Fat12 => 0xFFF case Fat16 => 0xFFFF case Fat32 => 0x0FFF_FFFF
  }

  lemma {:induction false} EndMark(vol: Volume)
    ensures END_MARK % vol.Mask() == AllBits(vol.fatType)
    ensures vol.fatType == Fat12 ==> END_MARK % vol.Mask() == 4095
    ensures vol.fatType == Fat16 ==> END_MARK % vol.Mask() == 65535
    ensures vol.fatType == Fat32 ==> END_MARK % vol.Mask() == 268435455
  {
  }

  lemma {:induction false} FewFree(t: seq<nat>)
    ensures |FreeSet(t)| <= |t|
  {
    CountBelow(|t|);
    assert FreeSet(t) <= Below(|t|);
    SubsetSize(FreeSet(t), Below(|t|));
  }

  ghost function Below(n: nat): set<nat> {
    if n == 0 then {} else Below(n - 1) + {n - 1}
  }

  lemma {:induction false} CountBelow(n: nat)
    ensures |Below(n)| == n && forall c: nat :: c in Below(n) <==> c < n
  {
    if n > 0 { CountBelow(n - 1); }
  }

  /** The first entry of at most 1 among those from `lo` up to `hi`, or `hi`. */
  function Search(t: seq<nat>, lo: nat, hi: nat): (c: nat)
    requires lo <= hi <= |t|
    ensures lo <= c <= hi && (c < hi ==> t[c] <= 1) && forall d | lo <= d < c :: t[d] > 1
    decreases hi - lo
  {
    if lo == hi || t[lo] <= 1 then lo else Search(t, lo + 1, hi)
  }

  /** The first free cluster from behind `scl` and around to it; 1 if an entry 1
      comes first, and 0 if there is neither. */
  function Found(t: seq<nat>, scl: nat): nat
    requires 1 <= scl < |t|
  {
    var a, b := Search(t, scl + 1, |t|), Search(t, 2, scl + 1);
    if a < |t| then if t[a] == 0 then a else 1
    else if b <= scl then if t[b] == 0 then b else 1
    else 0
  }

  lemma {:induction false} FoundWhat(t: seq<nat>, scl: nat)
    requires 1 <= scl < |t|
    ensures Found(t, scl) == 0 <==> forall c: nat | InRange(t, c) :: t[c] > 1
    ensures Found(t, scl) == 1 ==> exists c: nat :: InRange(t, c) && t[c] == 1
    ensures Found(t, scl) >= 2 ==> InRange(t, Found(t, scl)) && t[Found(t, scl)] == 0
  {
    var a, b := Search(t, scl + 1, |t|), Search(t, 2, scl + 1);
    assert a < |t| ==> InRange(t, a);
    assert b <= scl ==> InRange(t, b);
    if Found(t, scl) == 0 {
      forall c: nat | InRange(t, c) ensures t[c] > 1 {}
    }
  }

  /** It is the first of its kind: all entries on the way there, from behind `scl` to the
      end and on from 2, name clusters or are end marks. */
  lemma {:induction false} FoundFirst(t: seq<nat>, scl: nat) returns (c: nat)
    requires 1 <= scl < |t| && Found(t, scl) != 0
    ensures InRange(t, c) && t[c] <= 1 && Found(t, scl) == if t[c] == 0 then c else 1
    ensures forall d: nat | InRange(t, d) && (if c > scl then scl < d < c else d > scl || d < c) :: t[d] > 1
  {
    var a, b := Search(t, scl + 1, |t|), Search(t, 2, scl + 1);
    c := if a < |t| then a else b;
  }

  /** On a table of chains the search misses no free cluster and meets no error. */
  lemma {:induction false} FoundChained(t: seq<nat>, chains: set<seq<nat>>, scl: nat)
    requires Chained(t, chains) && 1 <= scl < |t|
    ensures Found(t, scl) != 1 && (Found(t, scl) == 0 <==> FreeSet(t) == {})
    ensures Found(t, scl) != 0 ==> InRange(t, Found(t, scl)) && t[Found(t, scl)] == 0
  {
    hide Found;
    FoundWhat(t, scl);
    ChainedEntries(t, chains);
    forall c: nat | InRange(t, c) ensures t[c] > 1 <==> c !in FreeSet(t) {}
  }

  /** The search of create_chain, on any table. */
  method FindFree(fs: FatFs, scl: nat) returns (ncl: nat)
    requires FsOk(fs) && 1 <= scl < fs.vol.maxClust
    modifies fs`disk, fs`wflag, fs`winsect, fs.win
    ensures FsOk(fs) && fs.See() == old(fs.See()) && ncl == Found(Tab(fs), scl)
  {
    hide Table, FatFs.WinOk, FatFs.See, Volume.Ok, FreeSet;
    ghost var t := Tab(fs);
    VolOk(fs);
    var mcl := fs.vol.maxClust;
    ncl := scl;
    ghost var wrapped := false;
    while true
      invariant FsOk(fs) && fs.See() == old(fs.See()) && mcl == |t|
      invariant if wrapped then 2 <= ncl < scl && forall c | scl < c < mcl :: t[c] > 1 else scl <= ncl < mcl
      invariant forall c | (if wrapped then 2 else scl + 1) <= c <= ncl :: t[c] > 1
      decreases !wrapped, mcl - ncl
    {
      ncl := ncl + 1;
      if ncl >= mcl {
        ncl := 2;
        if ncl > scl { return 0; }
        wrapped := true;
      }
      var cs := fs.GetFat(ncl);
      if cs == 0 { return ncl; }
      if cs == DRIVE_ERROR || cs == 1 { return cs; }
      if ncl == scl { return 0; }
    }
  }

  /** What create_chain gives for a cluster to be stretched, or 0 for a new chain:
      the next cluster, a free one, 0 if there is none, or 1 for a bad entry. */
  function NextOrNew(t: seq<nat>, clst: nat, last: nat): nat
    requires |t| > 2
  {
    if clst == 0 then Found(t, if last == 0 || last >= |t| then 1 else last)
    else if !InRange(t, clst) || t[clst] < 2 then 1
    else if t[clst] < |t| then t[clst]
    else Found(t, clst)
  }

  /** A cluster is allocated: there is no next one, but a free one. */
  predicate Allocates(t: seq<nat>, clst: nat, last: nat)
    requires |t| > 2
  {
    (clst == 0 || (InRange(t, clst) && t[clst] >= |t|)) && NextOrNew(t, clst, last) >= 2
  }

  /** The table with cluster `ncl` as an end, linked behind `clst` if that is not 0. */
  function Linking(t: seq<nat>, clst: nat, ncl: nat, eoc: nat): (r: seq<nat>)
    requires InRange(t, ncl) && (clst == 0 || InRange(t, clst))
    ensures |r| == |t|
  {
    if clst == 0 then t[ncl := eoc] else t[ncl := eoc][clst := ncl]
  }

  lemma {:induction false} LinkingIs(t: seq<nat>, clst: nat, ncl: nat, eoc: nat)
    requires InRange(t, ncl) && (clst == 0 || InRange(t, clst)) && clst != ncl
    ensures var r := Linking(t, clst, ncl, eoc);
      && r == (if clst == 0 then t[ncl := eoc] else t[ncl := eoc][clst := ncl])
      && |r| == |t| && r[ncl] == eoc && (clst != 0 ==> r[clst] == ncl)
      && forall c | 0 <= c < |t| && c != ncl && c != clst :: r[c] == t[c]
  {
  }

  lemma {:induction false} AllocatesFree(t: seq<nat>, clst: nat, last: nat)
    requires |t| > 2 && Allocates(t, clst, last)
    ensures InRange(t, NextOrNew(t, clst, last)) && t[NextOrNew(t, clst, last)] == 0
  {
    FoundWhat(t, if clst != 0 then clst else if last == 0 || last >= |t| then 1 else last);
  }

  lemma {:induction false} CountLinking(t: seq<nat>, clst: nat, ncl: nat, eoc: nat)
    requires InRange(t, ncl) && t[ncl] == 0 && (clst == 0 || (InRange(t, clst) && t[clst] != 0)) && eoc != 0
    ensures |FreeSet(Linking(t, clst, ncl, eoc))| == |FreeSet(t)| - 1
  {
    hide FreeSet;
    CountUsed(t, ncl, eoc);
    if clst != 0 { CountSame(t[ncl := eoc], clst, ncl); }
  }

  /** The second half of create_chain: the free cluster becomes an end, and is linked. */
  method Allocate(fs: FatFs, clst: nat, ncl0: nat) returns (ncl: nat)
    requires FsOk(fs) && |Tab(fs)| == fs.vol.maxClust && InRange(Tab(fs), ncl0) && Tab(fs)[ncl0] == 0 && clst != ncl0
    requires clst != 0 ==> InRange(Tab(fs), clst) && Tab(fs)[clst] != 0
    modifies fs`disk, fs`wflag, fs`winsect, fs`freeClust, fs`fsiFlag, fs`lastClust, fs.win
    ensures FsOk(fs) && TableOnly(fs) && ncl == ncl0 == fs.lastClust
    ensures Tab(fs) == Linking(old(Tab(fs)), clst, ncl, END_MARK % fs.vol.Mask())
    ensures Tab(fs)[ncl] == AllBits(fs.vol.fatType) && (clst != 0 ==> Tab(fs)[clst] == ncl)
    ensures forall c | 0 <= c < |Tab(fs)| && c != ncl && c != clst :: Tab(fs)[c] == old(Tab(fs))[c]
  {
    hide Table, FatFs.WinOk, FatFs.See, Volume.Ok, FreeSet, Linking, AllBits;
    ghost var t := Tab(fs);
    VolOk(fs);
    ncl := ncl0;
    MaskFacts(fs.vol, ncl);
    EndMark(fs.vol);
    ghost var eoc := END_MARK % fs.vol.Mask();
    CountLinking(t, clst, ncl, eoc);
    LinkingIs(t, clst, ncl, eoc);
    FewFree(t);
    var r := fs.PutFat(ncl, END_MARK);
    if r != Ok { return DRIVE_ERROR; }
    if clst != 0 {
      r := fs.PutFat(clst, ncl);
      if r != Ok { return DRIVE_ERROR; }
    }
    fs.lastClust := ncl;
    if fs.freeClust != UNKNOWN {
      fs.freeClust := (fs.freeClust - 1) % 0x1_0000_0000;
      fs.fsiFlag := true;
    }
  }

  /** create_chain, on any table: it changes only if a cluster is allocated, and
      then by linking that cluster. A count of free clusters that was right stays so. */
  method CreateChain(fs: FatFs, clst: nat) returns (ncl: nat)
    requires FsOk(fs)
    modifies fs`disk, fs`wflag, fs`winsect, fs`freeClust, fs`fsiFlag, fs`lastClust, fs.win
    ensures FsOk(fs) && TableOnly(fs) && |Tab(fs)| > 2
    ensures ncl == NextOrNew(old(Tab(fs)), clst, old(fs.lastClust))
    ensures if Allocates(old(Tab(fs)), clst, old(fs.lastClust))
            then InRange(old(Tab(fs)), ncl) && Tab(fs) == Linking(old(Tab(fs)), clst, ncl, END_MARK % fs.vol.Mask())
                && fs.lastClust == ncl
            else fs.See() == old(fs.See()) && fs.lastClust == old(fs.lastClust)
    ensures Allocates(old(Tab(fs)), clst, old(fs.lastClust)) ==>
              && old(Tab(fs))[ncl] == 0 && Tab(fs)[ncl] == AllBits(fs.vol.fatType)
              && (clst != 0 ==> Tab(fs)[clst] == ncl)
              && forall c | 0 <= c < |Tab(fs)| && c != ncl && c != clst :: Tab(fs)[c] == old(Tab(fs))[c]
  {
    hide Table, FatFs.WinOk, FatFs.See, Volume.Ok, FreeSet, Found, Linking, AllBits;
    ghost var t := Tab(fs);
    VolOk(fs);
    var mcl := fs.vol.maxClust;
    var scl: nat;
    if clst == 0 {
      scl := fs.lastClust;
      if scl == 0 || scl >= mcl { scl := 1; }
    } else {
      var cs := fs.GetFat(clst);
      if cs < 2 { return CHAIN_ERROR; }
      if cs < mcl { return cs; }
      scl := clst;
    }
    ncl := FindFree(fs, scl);
    if ncl < 2 { return; }
    AllocatesFree(t, clst, fs.lastClust);
    ncl := Allocate(fs, clst, ncl);
  }

  /** create_chain on a table of chains: 0 exactly if no cluster is free; the next
      cluster if there is one; else a free cluster, which becomes a new chain or
      the end of `s`. */
  method GrowChain(fs: FatFs, clst: nat, ghost chains: set<seq<nat>>, ghost s: seq<nat>)
    returns (ncl: nat, ghost chains': set<seq<nat>>, ghost s': seq<nat>)
    requires FsOk(fs) && Chained(Tab(fs), chains) && (clst != 0 ==> s in chains && clst in s)
    modifies fs`disk, fs`wflag, fs`winsect, fs`freeClust, fs`fsiFlag, fs`lastClust, fs.win
    ensures FsOk(fs) && TableOnly(fs) && Chained(Tab(fs), chains')
    ensures clst != 0 ==> s != []
    ensures clst != 0 && s[|s| - 1] != clst ==>
              fs.See() == old(fs.See()) && chains' == chains && s' == s && forall i | 0 <= i < |s| - 1
                  && s[i] == clst :: ncl == s[i + 1]
    ensures clst == 0 || s[|s| - 1] == clst ==> (ncl == 0 <==> FreeSet(old(Tab(fs))) == {})
    ensures ncl == 0 ==> fs.See() == old(fs.See()) && chains' == chains && s' == s
    ensures clst == 0 && ncl != 0 ==> chains' == chains + {[ncl]} && s' == [ncl]
    ensures clst != 0 && ncl != 0 && s[|s| - 1] == clst ==> chains' == chains - {s} + {s + [ncl]} && s' == s + [ncl]
    ensures ncl != 0 ==> InRange(Tab(fs), ncl)
    ensures ncl != 0 && (clst == 0 || s[|s| - 1] == clst) ==> old(Tab(fs))[ncl] == 0
  {
    hide Table, FatFs.WinOk, FatFs.See, Volume.Ok, Chained, FreeSet, Found;
    ghost var t, last := Tab(fs), fs.lastClust;
    VolOk(fs);
    chains', s' := chains, s;
    if clst != 0 { LinkOf(t, chains, s, clst); }
    ncl := CreateChain(fs, clst);
    VolOk(fs);
    if clst == 0 || t[clst] >= |t| {
      FoundChained(t, chains, if clst != 0 then clst else if last == 0 || last >= |t| then 1 else last);
      MaskFacts(fs.vol, ncl);
      ghost var eoc := END_MARK % fs.vol.Mask();
      if ncl == 0 {
      } else if clst != 0 {
        ChainStretched(t, chains, s, ncl, eoc);
        chains', s' := chains - {s} + {s + [ncl]}, s + [ncl];
      } else {
        ChainStarted(t, chains, ncl, eoc);
        chains', s' := chains + {[ncl]}, [ncl];
      }
    }
  }

  /** The entry of a cluster in a chain. */
  lemma {:induction false} LinkOf(t: seq<nat>, chains: set<seq<nat>>, s: seq<nat>, clst: nat)
    requires Chained(t, chains) && s in chains && clst in s
    ensures InRange(t, clst) && s != [] && t[clst] >= 2 && s[|s| - 1] < |t|
    ensures t[clst] >= |t| <==> s[|s| - 1] == clst
    ensures forall i | 0 <= i < |s| - 1 && s[i] == clst :: t[clst] == s[i + 1]
  {
    assert Chain(t, s);
    MemberEntry(t, s, clst);
    var i :| 0 <= i < |s| && s[i] == clst;
    assert InRange(t, s[|s| - 1]);
    if i < |s| - 1 { assert InRange(t, s[i + 1]); }
  }

  // ----- f_getfree -----

  /** Zero entries among those from `lo` up to `hi`. */
  ghost function Zeros(t: seq<nat>, lo: nat, hi: nat): nat
    requires hi <= |t|
    decreases hi
  {
    if hi <= lo then 0 else Zeros(t, lo, hi - 1) + if t[hi - 1] == 0 then 1 else 0
  }

  lemma {:induction false} ZerosFree(t: seq<nat>, hi: nat)
    requires hi <= |t|
    ensures Zeros(t, 2, hi) == |set c: nat | c < hi && c in FreeSet(t)|
  {
    var now := set c: nat | c < hi && c in FreeSet(t);
    if hi > 2 {
      ZerosFree(t, hi - 1);
      var before := set c: nat | c < hi - 1 && c in FreeSet(t);
      assert now == before + (if t[hi - 1] == 0 then {hi - 1} else {});
    } else {
      assert now == {};
    }
  }

  lemma {:induction false} ZerosSplit(t: seq<nat>, hi: nat)
    requires 2 <= hi <= |t|
    ensures Zeros(t, 0, hi) == Zeros(t, 2, hi) + Zeros(t, 0, 2)
  {
    if hi > 2 { ZerosSplit(t, hi - 1); }
  }

  lemma {:induction false} CountFree(t: seq<nat>)
    requires |t| >= 2
    ensures Zeros(t, 2, |t|) == |FreeSet(t)|
    ensures Zeros(t, 0, |t|) == |FreeSet(t)| + (if t[0] == 0 then 1 else 0) + (if t[1] == 0 then 1 else 0)
  {
    ZerosFree(t, |t|);
    ZerosSplit(t, |t|);
    assert (set c: nat | c < |t| && c in FreeSet(t)) == FreeSet(t);
    assert Zeros(t, 0, 2) == Zeros(t, 0, 1) + (if t[1] == 0 then 1 else 0) && Zeros(t, 0, 1) == Zeros(t, 0, 0) + if t[0]
        == 0 then 1 else 0;
  }

  /** Bytes before entry `c`, with 16- or 32-bit entries. */
  function Ahead(ft: FatType, c: nat): nat {
    if ft == Fat16 then 2 * c else 4 * c
  }

  /** The scan of a table with 16- or 32-bit entries, sector by sector, from entry 0. */
  method Scan(fs: FatFs) returns (n: nat)
    requires fs.WinOk() && fs.vol.fatType != Fat12
    modifies fs`disk, fs`wflag, fs`winsect, fs.win
    ensures fs.WinOk() && fs.See() == old(fs.See()) && n == Zeros(Tab(fs), 0, |Tab(fs)|)
  {
    hide Table, FatFs.WinOk, FatFs.See, Volume.Ok;
    VolOk(fs);
    ghost var t := Tab(fs);
    var clst, sect, i, p := fs.vol.maxClust, fs.vol.fatbase, 0, 0;
    n := 0;
    while clst > 0
      invariant fs.WinOk() && fs.See() == old(fs.See()) && 0 <= clst <= fs.vol.maxClust == |t|
      invariant 0 <= i <= SS && i % 4 % Ahead(fs.vol.fatType, 1) == 0 && (sect - fs.vol.fatbase) * SS
          == Ahead(fs.vol.fatType, fs.vol.maxClust - clst) + i
      invariant fs.vol.fatbase <= sect && (i > 0 ==> p == SS - i && fs.winsect == sect - 1)
      invariant n == Zeros(t, 0, fs.vol.maxClust - clst)
      decreases clst
    {
      ghost var c := fs.vol.maxClust - clst;
      WidthFits(fs.vol, c);
      if i == 0 {
        NextSector(fs.vol, sect, c);
        fs.MoveWindow(sect);
        sect := sect + 1;
        p := 0;
        i := SS;
      }
      Inside(fs.vol, sect - 1, c, i);
      var zero := ReadEntry(fs, p, c);
      if zero { n := n + 1; }
      if fs.vol.fatType == Fat16 { p, i := p + 2, i - 2; } else { p, i := p + 4, i - 4; }
      clst := clst - 1;
    }
  }

  /** LD_WORD or LD_DWORD at `p` of the window, which shows entry `c` there. */
  method ReadEntry(fs: FatFs, p: nat, ghost c: nat) returns (zero: bool)
    requires fs.WinOk() && fs.vol.fatType != Fat12 && c < fs.vol.maxClust
    requires p + Ahead(fs.vol.fatType, 1) <= SS && Ahead(fs.vol.fatType, c + 1) <= fs.vol.sectsFat * SS
    requires fs.winsect == fs.vol.fatbase + Ahead(fs.vol.fatType, c) / SS && p == Ahead(fs.vol.fatType, c) % SS
    ensures zero <==> Tab(fs)[c] == 0
  {
    hide FatFs.WinOk, FatFs.See, Volume.Ok, TableByte, Entry;
    VolOk(fs);
    HasTab(fs);
    if fs.vol.fatType == Fat16 {
      SameSector2(c);
      fs.Peek(2 * c);
      fs.Peek(2 * c + 1);
      var b0: nat, b1: nat := fs.win[p], fs.win[p + 1];
      zero := b0 + 0x100 * b1 == 0;
      Entry16(fs.See(), fs.vol, c);
    } else {
      SameSector4(c, 0);
      SameSector4(c, 1);
      SameSector4(c, 2);
      SameSector4(c, 3);
      fs.Peek(4 * c);
      fs.Peek(4 * c + 1);
      fs.Peek(4 * c + 2);
      fs.Peek(4 * c + 3);
      var b0: nat, b1: nat, b2: nat, b3: nat := fs.win[p], fs.win[p + 1], fs.win[p + 2], fs.win[p + 3];
      zero := (b0 + 0x100 * b1 + 0x1_0000 * b2 + 0x100_0000 * b3) % 0x1000_0000 == 0;
      Entry32(fs.See(), fs.vol, c);
    }
  }

  lemma {:induction false} WidthFits(vol: Volume, c: nat)
    requires vol.Ok() && vol.fatType != Fat12 && c < vol.maxClust
    ensures Ahead(vol.fatType, c + 1) <= vol.sectsFat * SS
  {
    hide Times;
    TableFits(vol);
  }

  lemma {:induction false} NextSector(vol: Volume, sect: nat, c: nat)
    requires vol.Ok() && vol.fatbase <= sect && (sect - vol.fatbase) * SS == Ahead(vol.fatType, c)
        && Ahead(vol.fatType, c + 1) <= vol.sectsFat * SS
    ensures sect < vol.size && !vol.InCopies(sect) && sect != 0
  {
    hide Times;
  }

  /** Where entry `c` is, `i` bytes before the end of sector `sect`. */
  lemma {:induction false} Inside(vol: Volume, sect: nat, c: nat, i: nat)
    requires vol.fatbase <= sect && 0 < i <= SS && (sect + 1 - vol.fatbase) * SS == Ahead(vol.fatType, c) + i
        && i % 4 % Ahead(vol.fatType, 1) == 0
    ensures sect == vol.fatbase + Ahead(vol.fatType, c) / SS && SS - i == Ahead(vol.fatType, c) % SS
        && Ahead(vol.fatType, 1) <= i
  {
    ModMultiple(sect - vol.fatbase, SS - i);
  }

  /** The reserved entries that a scan of a table with 16- or 32-bit entries takes for free. */
  ghost function Extra(ft: FatType, t: seq<nat>): nat
    requires |t| >= 2
  {
    if ft == Fat12 then 0 else (if t[0] == 0 then 1 else 0) + (if t[1] == 0 then 1 else 0)
  }

  /** An entry 1, which no cluster of a sound table has. */
  ghost predicate HasBad(t: seq<nat>) {
    exists c: nat :: InRange(t, c) && t[c] == 1
  }

  /** The scan of a table with 12-bit entries, through get_fat. */
  method Scan12(fs: FatFs) returns (res: FResult, n: nat)
    requires fs.WinOk()
    modifies fs`disk, fs`wflag, fs`winsect, fs.win
    ensures fs.WinOk() && fs.See() == old(fs.See()) && |Tab(fs)| > 2
    ensures if HasBad(Tab(fs)) then res == IntErr else res == Ok && n == Zeros(Tab(fs), 2, |Tab(fs)|)
  {
    hide Table, FatFs.WinOk, FatFs.See, Volume.Ok;
    VolOk(fs);
    ghost var t := Tab(fs);
    n := 0;
    var clst := 2;
    while clst < fs.vol.maxClust
      invariant 2 <= clst <= fs.vol.maxClust && fs.WinOk() && fs.See() == old(fs.See()) && n == Zeros(t, 2, clst)
      invariant forall c: nat | 2 <= c < clst :: t[c] != 1
    {
      var stat := fs.GetFat(clst);
      if stat == DRIVE_ERROR { return DiskErr, n; }
      if stat == 1 {
        assert InRange(t, clst) && t[clst] == 1;
        return IntErr, n;
      }
      if stat == 0 { n := n + 1; }
      clst := clst + 1;
    }
    return Ok, n;
  }

  /** f_getfree: a recorded count that can be one is returned as it is. Otherwise
      the entries are counted; on a 12-bit table an entry 1 is an error, and with
      16- or 32-bit entries the two reserved ones are counted too. */
  method GetFree(fs: FatFs) returns (res: FResult, n: nat)
    requires FsOk(fs)
    modifies fs`disk, fs`wflag, fs`winsect, fs`freeClust, fs`fsiFlag, fs`counted, fs.win
    ensures FsOk(fs) && fs.See() == old(fs.See())
    ensures old(fs.freeClust) <= fs.vol.maxClust - 2 ==>
              && res == Ok && n == fs.freeClust == old(fs.freeClust)
              && (n == |FreeSet(Tab(fs))| <==> old(fs.freeClust) == |FreeSet(Tab(fs))|)
    ensures old(fs.freeClust) > fs.vol.maxClust - 2 ==>
              && (res == IntErr <==> fs.vol.fatType == Fat12 && HasBad(Tab(fs)))
              && (res == Ok ==> n == fs.freeClust == |FreeSet(Tab(fs))| + Extra(fs.vol.fatType, Tab(fs)))
              && (res == Ok
                  ==> (n == |FreeSet(Tab(fs))| <==> fs.vol.fatType == Fat12 || (Tab(fs)[0] != 0 && Tab(fs)[1] != 0)))
    ensures res == Ok || res == IntErr
    ensures res == Ok ==> (fs.counted <==> n == |FreeSet(Tab(fs))|)
    ensures res == IntErr ==> fs.freeClust == old(fs.freeClust) && fs.counted == old(fs.counted)
  {
    hide Table, FatFs.WinOk, FatFs.See, Volume.Ok, FreeSet, HasBad;
    VolOk(fs);
    ghost var t := Tab(fs);
    CountFree(t);
    FewFree(t);
    if fs.freeClust <= fs.vol.maxClust - 2 {
      fs.counted := fs.freeClust == |FreeSet(t)|;
      return Ok, fs.freeClust;
    }
    if fs.vol.fatType == Fat12 {
      res, n := Scan12(fs);
      if res != Ok { return; }
    } else {
      n := Scan(fs);
    }
    ZerosAtMost(t, if fs.vol.fatType == Fat12 then 2 else 0, |t|);
    fs.freeClust := n;
    if fs.vol.fatType == Fat32 { fs.fsiFlag := true; }
    fs.counted := n == |FreeSet(t)|;
    return Ok, n;
  }

  lemma {:induction false} ZerosAtMost(t: seq<nat>, lo: nat, hi: nat)
    requires hi <= |t|
    ensures Zeros(t, lo, hi) <= hi
    decreases hi
  {
    if hi > lo { ZerosAtMost(t, lo, hi - 1); }
  }

  // ----- Volumes on which the answer is wrong -----

  /** A drive with one table and room for 4085 clusters of one sector, as a boot
      sector describes it: entries of 16 bits. */
  const SMALL: Volume := Volume(Fat16, 1, 1, 16, 4087, 1, 17, 4102)

  lemma {:induction false} SmallTable(v: View)
    requires |v| == 4102 && v[1] == BLANK
    ensures SMALL.Ok() && HasTable(v, SMALL) && Table(v, SMALL)[0] == 0 && Table(v, SMALL)[1] == 0
  {
    hide Times;
    TimesIs(4085, 1);
    TimesIs(1, 16);
    TableFits(SMALL);
  }

  /** Whatever its boot sector and its data are: if the first sector of the table
      is blank and the count not known, two clusters more are reported than are free. */
  method CountBlank(disk: seq<Sector>) returns (fs: FatFs, n: nat)
    requires |disk| == 4102 && disk[1] == BLANK
    ensures fs.WinOk() && fs.vol == SMALL && fs.See() == Look(disk, SMALL, BLANK, 0, false) && n == |FreeSet(Tab(fs))|
        + 2
  {
    hide Times, Table, FreeSet, Volume.Ok;
    SmallTable(disk);
    fs := new FatFs(SMALL, disk, 0, UNKNOWN);
    SmallSeen(disk);
    SmallTable(fs.See());
    var res;
    res, n := GetFree(fs);
  }

  lemma {:induction false} SmallSeen(disk: seq<Sector>)
    requires |disk| == 4102
    ensures Look(disk, SMALL, BLANK, 0, false)[1] == disk[1]
  {
    hide Times;
    TimesIs(1, 16);
  }

  /** A drive with room for 65525 clusters: entries of 32 bits, and a recorded count. */
  const LARGE: Volume := Volume(Fat32, 1, 1, 512, 65527, 32, 544, 66069)

  lemma {:induction false} LargeTable(v: View)
    requires |v| == 66069 && v[32][8..12] == [0, 0, 0, 0]
    ensures LARGE.Ok() && HasTable(v, LARGE) && InRange(Table(v, LARGE), 2) && Table(v, LARGE)[2] == 0
  {
    hide Times;
    TimesIs(65525, 1);
    TimesIs(1, 512);
    TableFits(LARGE);
    Entry32(v, LARGE, 2);
    forall k | 8 <= k < 12 ensures TableByte(v, LARGE, k) == 0 { assert v[32][k] == v[32][8..12][k - 8]; }
    assert Entry(v, LARGE, 2) == 0;
  }

  lemma {:induction false} LargeSeen(disk: seq<Sector>)
    requires |disk| == 66069
    ensures Look(disk, LARGE, BLANK, 0, false)[32] == disk[32]
  {
    hide Times;
    TimesIs(1, 512);
  }

  /** If it records that no cluster is free, that is reported, though cluster 2 is. */
  method CountStale(disk: seq<Sector>, last: DWord) returns (fs: FatFs, n: nat)
    requires |disk| == 66069 && disk[32][8..12] == [0, 0, 0, 0]
    ensures fs.WinOk() && fs.vol == LARGE && fs.See() == Look(disk, LARGE, BLANK, 0, false) && n == 0
        && 2 in FreeSet(Tab(fs))
  {
    hide Times, Table, Volume.Ok;
    LargeTable(disk);
    fs := new FatFs(LARGE, disk, last, 0);
    LargeSeen(disk);
    LargeTable(fs.See());
    var res;
    res, n := GetFree(fs);
  }
}
