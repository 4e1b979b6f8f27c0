/** Where the bytes of a file are: sector `q` of a file with a given chain. */
module FatData {
  import opened Common
  import opened FatVolume

  /** The cluster, and the sector in it, of sector `q` of a file. */
  function Clu(vol: Volume, q: nat): nat
    requires vol.csize > 0
  {
    q / vol.csize
  }

  function Off(vol: Volume, q: nat): nat
    requires vol.csize > 0
  {
    q % vol.csize
  }

  lemma {:induction false} DivParts(vol: Volume, q: nat)
    requires vol.csize > 0
    ensures Off(vol, q) < vol.csize && (q == 0 ==> Clu(vol, q) == 0 && Off(vol, q) == 0)
    ensures q == Times(Clu(vol, q), vol.csize) + Off(vol, q)
  {
  }

  lemma {:induction false} DivOf(vol: Volume, k: nat, i: nat)
    requires i < vol.csize
    ensures Clu(vol, Times(k, vol.csize) + i) == k && Off(vol, Times(k, vol.csize) + i) == i
  {
    var q := k * vol.csize + i;
    assert q / vol.csize == k && q % vol.csize == i by { DivModUnique(q, vol.csize, k, i); }
  }

  /** The sectors that follow in the same cluster, and the first of the next. */
  lemma {:induction false} DivNext(vol: Volume, q: nat, j: nat)
    requires vol.csize > 0 && Off(vol, q) + j < vol.csize
    ensures Clu(vol, q + j) == Clu(vol, q) && Off(vol, q + j) == Off(vol, q) + j
  {
    hide Clu, Off, Times;
    DivParts(vol, q);
    DivOf(vol, Clu(vol, q), Off(vol, q) + j);
  }

  lemma {:induction false} DivCross(vol: Volume, q: nat)
    requires vol.csize > 0 && Off(vol, q) + 1 == vol.csize
    ensures Clu(vol, q + 1) == Clu(vol, q) + 1 && Off(vol, q + 1) == 0
  {
    hide Clu, Off, Times;
    DivParts(vol, q);
    TimesStep(Clu(vol, q), vol.csize);
    DivOf(vol, Clu(vol, q) + 1, 0);
  }

  lemma {:induction false} DivMono(vol: Volume, p: nat, q: nat)
    requires vol.csize > 0 && p <= q
    ensures Clu(vol, p) <= Clu(vol, q)
  {
    hide Clu, Off, Times;
    DivParts(vol, p);
    DivParts(vol, q);
    if Clu(vol, p) > Clu(vol, q) { TimesMono(Clu(vol, q) + 1, Clu(vol, p), vol.csize);
        TimesStep(Clu(vol, q), vol.csize); }
  }

  /** The chain reaches to sector `q` of the file. */
  predicate Has(vol: Volume, chain: seq<nat>, q: nat)
    requires vol.csize > 0
  {
    Clu(vol, q) < |chain|
  }

  /** The sector of the volume that is sector `q` of the file. */
  function FileSector(vol: Volume, chain: seq<nat>, q: nat): nat
    requires vol.csize > 0 && Has(vol, chain, q)
  {
    vol.ClusterSector(chain[Clu(vol, q)]) + Off(vol, q)
  }

  ghost predicate Clusters(vol: Volume, chain: seq<nat>) {
    && (forall i | 0 <= i < |chain| :: 2 <= chain[i] < vol.maxClust)
    && forall i, j | 0 <= i < j < |chain| :: chain[i] != chain[j]
  }

  /** Sectors of files are in the data area. */
  lemma {:induction false} SectorInData(vol: Volume, chain: seq<nat>, q: nat)
    requires vol.Ok() && Clusters(vol, chain) && Has(vol, chain, q)
    ensures var s := FileSector(vol, chain, q);
        vol.database <= s < vol.size && s != 0 && vol.fatbase <= s && !vol.InTable(s) && !vol.InCopies(s)
    ensures FileSector(vol, chain, q) + vol.csize - Off(vol, q) <= vol.size
  {
    hide Clu, Off, Times;
    var c := chain[Clu(vol, q)];
    DivParts(vol, q);
    TimesStep(c - 2, vol.csize);
    TimesMono(c - 1, vol.maxClust - 2, vol.csize);
  }

  /** Different sectors of a file are different sectors of the volume. */
  lemma {:induction false} SectorsApart(vol: Volume, chain: seq<nat>, p: nat, q: nat)
    requires vol.Ok() && Clusters(vol, chain) && Has(vol, chain, p) && Has(vol, chain, q) && p != q
    ensures FileSector(vol, chain, p) != FileSector(vol, chain, q)
  {
    hide Clu, Off, Times;
    DivParts(vol, p);
    DivParts(vol, q);
    var c, d := chain[Clu(vol, p)], chain[Clu(vol, q)];
    if c < d {
      TimesStep(c - 2, vol.csize);
      TimesMono(c - 1, d - 2, vol.csize);
    } else if d < c {
      TimesStep(d - 2, vol.csize);
      TimesMono(d - 1, c - 2, vol.csize);
    }
  }

  /** Sectors that follow in the same cluster follow on the volume. */
  lemma {:induction false} SectorsFollow(vol: Volume, chain: seq<nat>, q: nat, j: nat)
    requires vol.csize > 0 && Has(vol, chain, q) && Off(vol, q) + j < vol.csize
    ensures Has(vol, chain, q + j) && FileSector(vol, chain, q + j) == FileSector(vol, chain, q) + j
  {
    hide Clu, Off, Times;
    DivNext(vol, q, j);
  }

  /** Byte `p` of a file. */
  function DataByte(v: View, vol: Volume, chain: seq<nat>, p: nat): Byte
    requires vol.csize > 0 && Has(vol, chain, p / SS) && FileSector(vol, chain, p / SS) < |v|
  {
    v[FileSector(vol, chain, p / SS)][p % SS]
  }

  /** Where byte `p` is: in its cluster of the chain, counted from the start of the
      data area, in its sector of the cluster, in its place in the sector. */
  lemma {:induction false} BytePlace(v: View, vol: Volume, chain: seq<nat>, p: nat)
    requires vol.Ok() && Clusters(vol, chain) && Has(vol, chain, p / SS) && FileSector(vol, chain, p / SS) < |v|
    ensures var k := p / (512 * vol.csize);
      && 0 <= k < |chain| && 2 <= chain[k] < vol.maxClust
      && var s := vol.database + (chain[k] - 2) * vol.csize + p / 512 % vol.csize;
         FileSector(vol, chain, p / SS) == s && 0 <= s < |v| && DataByte(v, vol, chain, p) == v[s][p % 512]
  {
    var k := Clu(vol, p / SS);
    DivDiv(p, 512, vol.csize);
    ClusterPlace(vol, chain[k]);
  }

  /** The chain of a file has room for `n` bytes. */
  ghost predicate Room(vol: Volume, chain: seq<nat>, n: nat) {
    vol.csize > 0 && (n > 0 ==> Has(vol, chain, (n - 1) / SS))
  }

  lemma {:induction false} RoomFor(vol: Volume, chain: seq<nat>, n: nat, p: nat)
    requires Room(vol, chain, n) && p < n
    ensures Has(vol, chain, p / SS)
  {
    hide Clu, Off;
    DivMono(vol, p / SS, (n - 1) / SS);
  }

  // ----- How many clusters a number of bytes needs -----

  /** Clusters of `b` bytes needed for `n` bytes. */
  function Need(b: nat, n: nat): nat
    requires b > 0
  {
    if n == 0 then 0 else (n - 1) / b + 1
  }

  function ClusterBytes(vol: Volume): nat {
    vol.csize * SS
  }

  /** `k` clusters are enough for as many bytes as they have. */
  lemma {:induction false} NeedAtMost(b: nat, n: nat, k: nat)
    requires b > 0
    ensures Need(b, n) <= k <==> n <= k * b
  {
    if n == 0 {
      assert k * b >= 0;
    } else {
      DivModOf(n - 1, b);
      var d := (n - 1) / b;
      assert (k - d) * b == k * b - d * b;
      AwayFromZero(k - d, b);
    }
  }

  /** Clusters needed: the quotient, rounded up. */
  lemma {:induction false} NeedUp(b: nat, n: nat)
    requires b > 0
    ensures Need(b, n) == (n + b - 1) / b
  {
    if n > 0 {
      DivModOf(n - 1, b);
      DivModUnique(n + b - 1, b, (n - 1) / b + 1, (n - 1) % b);
    } else {
      DivModUnique(b - 1, b, 0, b - 1);
    }
  }

  lemma {:induction false} NeedMono(b: nat, n: nat, m: nat)
    requires b > 0 && n <= m
    ensures Need(b, n) <= Need(b, m)
  {
    hide Need;
    NeedAtMost(b, m, Need(b, m));
    NeedAtMost(b, n, Need(b, m));
  }

  /** Having room is having the clusters needed. */
  lemma {:induction false} RoomNeed(vol: Volume, chain: seq<nat>, n: nat)
    requires vol.csize > 0
    ensures Room(vol, chain, n) <==> Need(ClusterBytes(vol), n) <= |chain|
  {
    hide Clu;
    if n > 0 { ClusterOf(vol, n - 1); }
  }

  /** The bytes of the file are those of `img`. */
  ghost predicate Holds(v: View, vol: Volume, chain: seq<nat>, img: seq<Byte>) {
    && vol.Ok() && Clusters(vol, chain) && |v| == vol.size && Room(vol, chain, |img|)
    && forall p: nat | p < |img| :: Has(vol, chain, p / SS) && FileSector(vol, chain, p / SS) < |v|
        && DataByte(v, vol, chain, p) == img[p]
  }

  /** `data` written over `img` at `at`, which it may extend. */
  function Overwrite(img: seq<Byte>, at: nat, data: seq<Byte>): seq<Byte>
    requires at <= |img|
  {
    img[..at] + data + if at + |data| < |img| then img[at + |data|..] else []
  }

  /** ... byte by byte. */
  lemma {:induction false} OverwriteAt(img: seq<Byte>, at: nat, data: seq<Byte>)
    requires at <= |img|
    ensures var r := Overwrite(img, at, data);
      && |r| == (if at + |data| <= |img| then |img| else at + |data|)
      && forall j | 0 <= j < |r| :: r[j] == if at <= j < at + |data| then data[j - at] else img[j]
  {
  }

  lemma {:induction false} OverwriteTwice(img: seq<Byte>, at: nat, a: seq<Byte>, b: seq<Byte>)
    requires at <= |img|
    ensures at + |a| <= |Overwrite(img, at, a)| && Overwrite(Overwrite(img, at, a), at + |a|, b) == Overwrite(img, at,
        a + b)
  {
  }

  // ----- The position of a file -----

  /** How `curr_clust`, `csect` and `dsect` follow from the position: they are
      about the sector with the last byte before it. */
  ghost predicate At(vol: Volume, chain: seq<nat>, fptr: nat, curr: nat, csect: nat, dsect: nat) {
    && vol.csize > 0
    && (fptr == 0 ==> csect == 255)
    && (fptr > 0 ==>
          var q := (fptr - 1) / SS;
          && Has(vol, chain, q) && curr == chain[Clu(vol, q)] && csect == Off(vol, q) + 1
          && (fptr % SS != 0 ==> dsect == FileSector(vol, chain, q)))
  }

  /** ... once a transfer at a sector boundary has found the next sector. */
  ghost predicate Before(vol: Volume, chain: seq<nat>, fptr: nat, curr: nat, csect: nat) {
    vol.csize > 0 && fptr % SS == 0 && Has(vol, chain, fptr / SS) && curr == chain[Clu(vol, fptr / SS)]
        && csect == Off(vol, fptr / SS)
  }

  lemma {:induction false} InCluster(vol: Volume, chain: seq<nat>, fptr: nat, curr: nat, csect: nat, dsect: nat)
    requires vol.Ok() && At(vol, chain, fptr, curr, csect, dsect) && fptr % SS == 0 && csect < vol.csize
    ensures Before(vol, chain, fptr, curr, csect)
  {
    hide Clu, Off, Times;
    assert (fptr - 1) / SS + 1 == fptr / SS;
    DivNext(vol, (fptr - 1) / SS, 1);
  }

  /** At a cluster boundary the next sector is the first of the next cluster. */
  lemma {:induction false} AtBoundary(vol: Volume, chain: seq<nat>, fptr: nat, curr: nat, csect: nat, dsect: nat)
    requires vol.Ok() && At(vol, chain, fptr, curr, csect, dsect) && fptr % SS == 0 && csect >= vol.csize
    ensures Off(vol, fptr / SS) == 0
    ensures fptr == 0 ==> Clu(vol, fptr / SS) == 0
    ensures fptr > 0 ==> var k := Clu(vol, fptr / SS); 0 < k <= |chain| && curr == chain[k - 1]
  {
    hide Clu, Off, Times;
    DivParts(vol, fptr / SS);
    if fptr > 0 {
      assert (fptr - 1) / SS + 1 == fptr / SS;
      DivParts(vol, (fptr - 1) / SS);
      DivCross(vol, (fptr - 1) / SS);
    }
  }

  /** After `cc` whole sectors of one cluster ... */
  lemma {:induction false} AfterRun(vol: Volume, chain: seq<nat>, fptr: nat, curr: nat, csect: nat, dsect: nat, cc: nat)
    requires vol.Ok() && Before(vol, chain, fptr, curr, csect) && 0 < cc && csect + cc <= vol.csize
    ensures At(vol, chain, fptr + cc * SS, curr, csect + cc, dsect)
  {
    hide Clu, Off, Times;
    assert (fptr + cc * SS - 1) / SS == fptr / SS + (cc - 1);
    DivNext(vol, fptr / SS, cc - 1);
  }

  /** ... or after `n` bytes of one sector. */
  lemma {:induction false} AfterPart(vol: Volume, chain: seq<nat>, fptr: nat, curr: nat, csect: nat, dsect: nat, n: nat)
    requires vol.Ok() && 0 < n <= SS - fptr % SS
    requires if fptr % SS == 0 then csect > 0 && Before(vol, chain, fptr, curr, csect - 1)
        && dsect == FileSector(vol, chain, fptr / SS)
             else At(vol, chain, fptr, curr, csect, dsect)
    ensures At(vol, chain, fptr + n, curr, csect, dsect) && Has(vol, chain, fptr / SS)
        && dsect == FileSector(vol, chain, fptr / SS)
  {
    hide Clu, Off, Times;
    assert (fptr + n - 1) / SS == fptr / SS;
    if fptr % SS != 0 { assert (fptr - 1) / SS == fptr / SS; }
  }

  // ----- Transfers of whole sectors -----

  /** `cc` sectors of `v` from `sect` on, as bytes. */
  function Run(v: View, sect: nat, cc: nat): (r: seq<Byte>)
    requires sect + cc <= |v|
    ensures |r| == cc * SS
  {
    seq(cc * SS, p requires 0 <= p < cc * SS => v[sect + p / SS][p % SS])
  }

  function WriteRun(v: View, sect: nat, data: seq<Byte>): (r: View)
    requires |data| % SS == 0 && sect + |data| / SS <= |v|
    ensures |r| == |v|
  {
    seq(|v|, s requires 0 <= s < |v| => if sect <= s < sect + |data| / SS then data[(s - sect) * SS..(s - sect
        + 1) * SS] else v[s])
  }

  /** The bytes of a file in a run of its sectors. */
  lemma {:induction false} RunBytes(v: View, vol: Volume, chain: seq<nat>, img: seq<Byte>, fptr: nat, curr: nat,
      csect: nat, cc: nat)
    requires Holds(v, vol, chain, img) && Before(vol, chain, fptr, curr, csect) && csect + cc <= vol.csize
        && fptr + cc * SS <= |img|
    ensures vol.ClusterSector(curr) + csect + cc <= |v| && Run(v, vol.ClusterSector(curr) + csect, cc)
        == img[fptr..fptr + cc * SS]
  {
    hide Clu, Off, Times;
    var sect := vol.ClusterSector(curr) + csect;
    SectorInData(vol, chain, fptr / SS);
    forall p | 0 <= p < cc * SS ensures Run(v, sect, cc)[p] == img[fptr + p] {
      assert (fptr + p) / SS == fptr / SS + p / SS && (fptr + p) % SS == p % SS;
      SectorsFollow(vol, chain, fptr / SS, p / SS);
      assert DataByte(v, vol, chain, fptr + p) == img[fptr + p];
    }
  }

  /** Writing a run of sectors of the file. */
  lemma {:induction false} RunWritten(v: View, vol: Volume, chain: seq<nat>, img: seq<Byte>, fptr: nat, curr: nat,
      csect: nat, data: seq<Byte>)
    requires Holds(v, vol, chain, img) && Before(vol, chain, fptr, curr, csect) && |data| % SS == 0 && |data| > 0
        && csect + |data| / SS <= vol.csize && fptr <= |img|
    ensures vol.ClusterSector(curr) + csect + |data| / SS <= |v|
    ensures Holds(WriteRun(v, vol.ClusterSector(curr) + csect, data), vol, chain, Overwrite(img, fptr, data))
  {
    hide Clu, Off, Times;
    var sect, q, cc := vol.ClusterSector(curr) + csect, fptr / SS, |data| / SS;
    SectorInData(vol, chain, q);
    var v', img' := WriteRun(v, sect, data), Overwrite(img, fptr, data);
    SectorsFollow(vol, chain, q, cc - 1);
    assert (fptr + |data| - 1) / SS == q + (cc - 1);
    assert Room(vol, chain, |img'|);
    forall p: nat | p < |img'|
      ensures Has(vol, chain, p / SS) && FileSector(vol, chain, p / SS) < |v| && DataByte(v', vol, chain, p)
        == img'[p]
    {
      RoomFor(vol, chain, |img'|, p);
      SectorInData(vol, chain, p / SS);
      if fptr <= p < fptr + |data| {
        InRun(v, vol, chain, fptr, curr, csect, data, p);
      } else {
        assert p < |img| && img'[p] == img[p] && DataByte(v, vol, chain, p) == img[p];
        NotInRun(vol, chain, q, cc, p / SS);
      }
    }
  }

  lemma {:induction false} InRun(v: View, vol: Volume, chain: seq<nat>, fptr: nat, curr: nat, csect: nat,
      data: seq<Byte>, p: nat)
    requires vol.Ok() && Clusters(vol, chain) && |v| == vol.size && Before(vol, chain, fptr, curr, csect)
        && |data| % SS == 0 && csect + |data| / SS <= vol.csize
    requires fptr <= p < fptr + |data| && vol.ClusterSector(curr) + csect + |data| / SS <= |v|
        && Has(vol, chain, p / SS) && FileSector(vol, chain, p / SS) < |v|
    ensures DataByte(WriteRun(v, vol.ClusterSector(curr) + csect, data), vol, chain, p) == data[p - fptr]
  {
    hide Clu, Off, Times;
    var q := fptr / SS;
    var j := p / SS - q;
    SectorsFollow(vol, chain, q, j);
    assert p - fptr == j * SS + p % SS;
  }

  /** Other sectors of the file are not in the run. */
  lemma {:induction false} NotInRun(vol: Volume, chain: seq<nat>, q: nat, cc: nat, r: nat)
    requires vol.Ok() && Clusters(vol, chain) && Has(vol, chain, q) && Has(vol, chain, r)
        && Off(vol, q) + cc <= vol.csize && !(q <= r < q + cc)
    ensures !(FileSector(vol, chain, q) <= FileSector(vol, chain, r) < FileSector(vol, chain, q) + cc)
  {
    hide Clu, Off, Times;
    var j := FileSector(vol, chain, r) - FileSector(vol, chain, q);
    if 0 <= j < cc {
      SectorsFollow(vol, chain, q, j);
      SectorsApart(vol, chain, q + j, r);
    }
  }

  /** Writing `data` in one sector of the file; what is past the end may change. */
  lemma {:induction false} PartWritten(v: View, v': View, vol: Volume, chain: seq<nat>, img: seq<Byte>, fptr: nat,
      data: seq<Byte>)
    requires Holds(v, vol, chain, img) && fptr <= |img| && Has(vol, chain, fptr / SS) && |data| > 0
        && fptr % SS + |data| <= SS
    requires |v'| == |v| && FileSector(vol, chain, fptr / SS) < |v|
    requires forall s | 0 <= s < |v| && s != FileSector(vol, chain, fptr / SS) :: v'[s] == v[s]
    requires var s := FileSector(vol, chain, fptr / SS); forall i | 0 <= i < SS ::
      (fptr % SS <= i < fptr % SS + |data| ==> v'[s][i] == data[i - fptr % SS])
      && (!(fptr % SS <= i < fptr % SS + |data|) && fptr - fptr % SS + i < |img| ==> v'[s][i] == v[s][i])
    ensures Holds(v', vol, chain, Overwrite(img, fptr, data))
  {
    hide Clu, Off, Times;
    var q := fptr / SS;
    var img' := Overwrite(img, fptr, data);
    assert (fptr + |data| - 1) / SS == q;
    assert Room(vol, chain, |img'|);
    forall p: nat | p < |img'|
      ensures Has(vol, chain, p / SS) && FileSector(vol, chain, p / SS) < |v| && DataByte(v', vol, chain, p)
        == img'[p]
    {
      RoomFor(vol, chain, |img'|, p);
      SectorInData(vol, chain, p / SS);
      if fptr <= p < fptr + |data| {
        assert p / SS == q && p % SS == fptr % SS + (p - fptr);
      } else {
        assert p < |img| && img'[p] == img[p] && DataByte(v, vol, chain, p) == img[p];
        if p / SS == q { assert fptr - fptr % SS + p % SS == p; } else { SectorsApart(vol, chain, p / SS, q); }
      }
    }
  }

  /** Bytes of a file depend on its sectors only, and not on how the chain goes on. */
  lemma {:induction false} HoldsSame(v: View, v': View, vol: Volume, chain: seq<nat>, chain': seq<nat>, img: seq<Byte>)
    requires Holds(v, vol, chain, img) && |v'| == |v| && Clusters(vol, chain') && chain <= chain'
    requires forall s | 0 <= s < |v| && !vol.InTable(s) :: v'[s] == v[s]
    ensures Holds(v', vol, chain', img)
  {
    hide Clu, Off, Times;
    forall p: nat | p < |img|
      ensures Has(vol, chain', p / SS) && FileSector(vol, chain', p / SS) < |v'| && DataByte(v', vol, chain', p)
        == img[p]
    {
      assert DataByte(v, vol, chain, p) == img[p];
      SectorInData(vol, chain, p / SS);
    }
    if |img| > 0 { assert Has(vol, chain', (|img| - 1) / SS); }
  }

  // ----- Seeking -----

  /** Cluster `x / bcs` holds byte `x`. */
  lemma {:induction false} ClusterOf(vol: Volume, x: nat)
    requires vol.csize > 0
    ensures x / (vol.csize * SS) == Clu(vol, x / SS)
  {
    hide Clu, Off, Times;
    var q := x / SS;
    DivParts(vol, q);
    TimesIs(Clu(vol, q), vol.csize);
    var k, i := Clu(vol, q), Off(vol, q);
    assert x == q * SS + x % SS;
    MulAssoc(k, vol.csize);
    DivModUnique(x, vol.csize * SS, k, i * SS + x % SS);
  }

  lemma {:induction false} MulAssoc(k: nat, n: nat)
    ensures k * (n * SS) == k * n * SS && k * n >= 0
  {
  }

  lemma {:induction false} SectorsOf(q: nat, ofs: nat)
    requires ofs > 0
    ensures (q * SS + ofs - 1) / SS == q + (ofs - 1) / SS && (q * SS + ofs) % SS == ofs % SS
  {
  }

  /** A position up to the end of cluster `k`, counted from its start. */
  lemma {:induction false} InClusterAt(vol: Volume, k: nat, ofs: nat)
    requires vol.csize > 0 && 0 < ofs <= vol.csize * SS
    ensures var p := k * (vol.csize * SS) + ofs;
        Clu(vol, (p - 1) / SS) == k && Off(vol, (p - 1) / SS) == (ofs - 1) / SS && p % SS == ofs % SS
  {
    hide Clu, Off, Times;
    MulAssoc(k, vol.csize);
    SectorsOf(k * vol.csize, ofs);
    TimesIs(k, vol.csize);
    DivOf(vol, k, (ofs - 1) / SS);
  }

  /** f_lseek's last step gives a position in cluster `k`. */
  lemma {:induction false} SeekEnds(vol: Volume, chain: seq<nat>, k: nat, curr: nat, ofs: nat, csect: nat, dsect: nat)
    requires vol.csize > 0 && 0 < ofs <= vol.csize * SS && k < |chain| && curr == chain[k]
    requires csect == ofs / SS + (if ofs % SS == 0 then 0 else 1)
    requires ofs % SS != 0 ==> dsect == vol.ClusterSector(curr) + ofs / SS
    ensures At(vol, chain, k * (vol.csize * SS) + ofs, curr, csect, dsect)
        && Room(vol, chain, k * (vol.csize * SS) + ofs)
  {
    hide Clu, Off, Times;
    InClusterAt(vol, k, ofs);
    assert (ofs - 1) / SS + 1 == ofs / SS + (if ofs % SS == 0 then 0 else 1);
  }

  /** Growing a file to bytes its chain has room for. */
  lemma {:induction false} HoldsMore(v: View, vol: Volume, chain: seq<nat>, img: seq<Byte>, n: nat)
    returns (more: seq<Byte>)
    requires Holds(v, vol, chain, img) && |img| <= n && Room(vol, chain, n)
    ensures |more| == n && img <= more && Holds(v, vol, chain, more)
  {
    forall p: nat | p < n ensures Has(vol, chain, p / SS) && FileSector(vol, chain, p / SS) < |v| {
      RoomFor(vol, chain, n, p);
      SectorInData(vol, chain, p / SS);
    }
    more := seq(n, p requires 0 <= p < n => DataByte(v, vol, chain, p));
  }
}
