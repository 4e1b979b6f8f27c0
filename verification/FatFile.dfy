/** Open files (modules/fatfs/ff.c): f_read, f_write, f_lseek and f_truncate
    work on them as on arrays of bytes with a position. */
module FatFile {
  import opened Common
  import opened FatVolume
  import opened FatWindow
  import opened FatChains
  import opened FatAlloc
  import opened FatData

  /** The first `n` bytes of a file. */
  ghost function Bytes(v: View, vol: Volume, chain: seq<nat>, n: nat): (r: seq<Byte>)
    requires vol.Ok() && Clusters(vol, chain) && |v| == vol.size && Room(vol, chain, n)
    ensures |r| == n
  {
    seq(n, p requires 0 <= p < n => assert Has(vol, chain, p / SS) && FileSector(vol, chain, p / SS) < |v| by {
      RoomFor(vol, chain, n, p);
      SectorInData(vol, chain, p / SS);
    } DataByte(v, vol, chain, p))
  }

  lemma {:induction false} BytesHold(v: View, vol: Volume, chain: seq<nat>, n: nat)
    requires vol.Ok() && Clusters(vol, chain) && |v| == vol.size && Room(vol, chain, n)
    ensures Holds(v, vol, chain, Bytes(v, vol, chain, n))
  {
    hide Clu, Off, Times, DataByte, FileSector;
    forall p: nat | p < n ensures Has(vol, chain, p / SS) && FileSector(vol, chain, p / SS) < |v| {
      RoomFor(vol, chain, n, p);
      SectorInData(vol, chain, p / SS);
    }
  }

  lemma {:induction false} HoldsBytes(v: View, vol: Volume, chain: seq<nat>, img: seq<Byte>)
    requires Holds(v, vol, chain, img)
    ensures img == Bytes(v, vol, chain, |img|)
  {
    hide Clu, Off, Times, DataByte, FileSector;
    forall p: nat | p < |img|
      ensures img[p] == Bytes(v, vol, chain, |img|)[p] { assert DataByte(v, vol, chain, p) == img[p]; }
  }

  lemma {:induction false} ChainClusters(t: seq<nat>, vol: Volume, chain: seq<nat>)
    requires |t| == vol.maxClust && (chain == [] || Chain(t, chain))
    ensures Clusters(vol, chain)
  {
    forall i | 0 <= i < |chain| ensures 2 <= chain[i] < vol.maxClust { assert InRange(t, chain[i]); }
  }

  lemma {:induction false} ByteSeen(v: View, vol: Volume, chain: seq<nat>, n: nat, p: nat, k: int, s: int)
    requires vol.Ok() && Clusters(vol, chain) && |v| == vol.size && Room(vol, chain, n) && p < n
    requires k == p / (512 * vol.csize)
    requires 0 <= k < |chain| ==> s == vol.database + (chain[k] - 2) * vol.csize + p / 512 % vol.csize
    ensures 0 <= k < |chain| && vol.database <= s < vol.size && !vol.InCopies(s)
    ensures Bytes(v, vol, chain, n)[p] == v[s][p % 512]
  {
    RoomFor(vol, chain, n, p);
    SectorInData(vol, chain, p / SS);
    BytePlace(v, vol, chain, p);
    hide Clu, Off, Times, Has, FileSector, Clusters, Volume.Ok, Room;
  }

  /** A sector of the data area, on the drive or in the window. */
  lemma {:induction false} SectorSeen(fs: FatFs, s: nat)
    requires fs.WinOk() && s < fs.vol.size && !fs.vol.InCopies(s)
    ensures |fs.disk| == |fs.See()| == fs.vol.size && fs.win.Length == 512
    ensures fs.See()[s] == if fs.wflag && s == fs.winsect then fs.win[..] else fs.disk[s]
  {
    hide Times, Volume.Ok, Volume.InCopies;
  }

  /** Whole sectors written to the data area leave the copies of the table alone ... */
  lemma {:induction false} CopiesUntouched(d0: seq<Sector>, vol: Volume, sect: nat, data: seq<Byte>)
    requires vol.Ok() && |d0| == vol.size && CopiesAgree(d0, vol)
    requires vol.database <= sect && |data| % SS == 0 && sect + |data| / SS <= |d0|
    ensures CopiesAgree(WriteRun(d0, sect, data), vol)
  {
    hide Times;
    var d := WriteRun(d0, sect, data);
    forall s: nat | s < vol.size && vol.InCopies(s) ensures d[s] == d[s - vol.sectsFat] {
      assert d0[s] == d0[s - vol.sectsFat];
    }
  }

  /** ... and are seen, with the window over one of them clean and the same as the drive. */
  lemma {:induction false} RunSeen(d0: seq<Sector>, vol: Volume, w0: Sector, w: Sector, winsect: nat, flag0: bool,
      flag: bool, sect: nat, data: seq<Byte>)
    requires vol.Ok() && |d0| == vol.size && vol.database <= sect && |data| % SS == 0 && sect + |data| / SS <= |d0|
    requires winsect < vol.size && (!flag0 && winsect != 0 ==> w0 == d0[winsect])
    requires if sect <= winsect < sect + |data| / SS
             then !flag && w == data[(winsect - sect) * SS..(winsect - sect) * SS + SS] else flag == flag0 && w == w0
    ensures var d := WriteRun(d0, sect, data);
      && Look(d, vol, w, winsect, flag) == WriteRun(Look(d0, vol, w0, winsect, flag0), sect, data)
      && (!flag && winsect != 0 ==> w == d[winsect])
  {
    hide Times;
    var d := WriteRun(d0, sect, data);
    var v, v0 := Look(d, vol, w, winsect, flag), Look(d0, vol, w0, winsect, flag0);
    forall s | 0 <= s < |d0| ensures v[s] == WriteRun(v0, sect, data)[s] {}
  }

  class Fil {
    const fs: FatFs
    const canRead: bool
    const canWrite: bool
    var fptr: nat
    var fsize: nat
    var orgClust: nat
    var currClust: nat
    var csect: nat
    var dsect: nat
    var written: bool
    /** FA__ERROR: an operation was given up. */
    var error: bool
    /** The clusters of this file, and the chains of all files. */
    ghost var chain: seq<nat>
    ghost var chains: set<seq<nat>>

    /** f_open, once the directory entry has given the first cluster and the size. */
    constructor (fs: FatFs, canRead: bool, canWrite: bool, org: nat, size: nat, ghost chain: seq<nat>,
        ghost chains: set<seq<nat>>)
      requires FsOk(fs) && Chained(Tab(fs), chains)
          && (if chain == [] then org == 0 else chain in chains && org == chain[0])
      requires Room(fs.vol, chain, size)
      ensures Valid() && this.fs == fs && fptr == 0 && fsize == size && !error && this.canRead == canRead
          && this.canWrite == canWrite
      ensures this.chain == chain && this.chains == chains
    {
      this.fs, this.canRead, this.canWrite := fs, canRead, canWrite;
      fptr, fsize, orgClust, currClust, csect, dsect, written, error := 0, size, org, 0, 255, 0, false, false;
      this.chain, this.chains := chain, chains;
    }

    /** The chain of the file is one of the chains of the volume. */
    ghost predicate Linked()
      reads `orgClust, `chain, `chains, fs, fs.win
    {
      && FsOk(fs) && Chained(Tab(fs), chains)
      && if chain == [] then orgClust == 0 else chain in chains && orgClust == chain[0]
    }

    lemma LinkedFacts()
      requires Linked()
      ensures fs.WinOk() && fs.vol.Ok() && |fs.See()| == fs.vol.size && Clusters(fs.vol, chain) && (chain != []
          ==> Chain(Tab(fs), chain))
    {
      hide Times, Table, FatFs.See, FatFs.WinOk;
      VolOk(fs);
      ChainClusters(Tab(fs), fs.vol, chain);
    }

    ghost predicate Valid()
      reads this, fs, fs.win
    {
      && Linked() && Room(fs.vol, chain, fsize) && fptr <= fsize
      && At(fs.vol, chain, fptr, currClust, csect, dsect)
    }

    /** The array of bytes a file is. */
    ghost function Content(): (r: seq<Byte>)
      requires Valid()
      reads this, fs, fs.win
      ensures |r| == fsize
    {
      LinkedFacts();
      Bytes(fs.See(), fs.vol, chain, fsize)
    }

    /** Byte `p` of the file, on the drive, or in the window if that is dirty and shows
        its sector. */
    lemma ContentByte(p: nat, k: int, s: int)
      requires Valid() && p < fsize && fs.vol.csize > 0 && k == p / (512 * fs.vol.csize)
      requires 0 <= k < |chain| ==> s == fs.vol.database + (chain[k] - 2) * fs.vol.csize + p / 512 % fs.vol.csize
      ensures 0 <= k < |chain| && 0 <= s < |fs.disk| && fs.win.Length == 512
      ensures Content()[p] == if fs.wflag && s == fs.winsect then fs.win[p % 512] else fs.disk[s][p % 512]
    {
      hide Clu, Off, Times, Has, FileSector, Clusters, Room, Linked, At, Volume.Ok, FatFs.See;
      LinkedFacts();
      ByteSeen(fs.See(), fs.vol, chain, fsize, p, k, s);
      SectorSeen(fs, s);
    }

    /** The clusters of the file: the first one is recorded with the file, each next one
        is the table entry of the one before, and the last entry is no cluster. */
    lemma ChainLinks()
      requires Valid() && chain != []
      ensures |fs.See()| == fs.vol.size && fs.vol.Ok() && HasTable(fs.See(), fs.vol) && orgClust == chain[0]
      ensures forall i | 0 <= i < |chain| :: 2 <= chain[i] < fs.vol.maxClust
      ensures forall i | 0 <= i < |chain| - 1 :: Entry(fs.See(), fs.vol, chain[i]) == chain[i + 1]
      ensures Entry(fs.See(), fs.vol, chain[|chain| - 1]) >= fs.vol.maxClust
    {
      LinkedFacts();
      HasTab(fs);
      forall i | 0 <= i < |chain| ensures 2 <= chain[i] < fs.vol.maxClust { assert InRange(Tab(fs), chain[i]); }
      forall i | 0 <= i < |chain| ensures Tab(fs)[chain[i]] == Entry(fs.See(), fs.vol, chain[i]) {}
    }

    /** The state inside a transfer: `img` is the contents, and the position is in it. */
    ghost predicate Shape(img: seq<Byte>)
      reads `fptr, `orgClust, `currClust, `csect, `dsect, `chain, `chains, fs, fs.win
    {
      Linked() && Holds(fs.See(), fs.vol, chain, img) && At(fs.vol, chain, fptr, currClust, csect, dsect)
          && fptr <= |img|
    }

    /** The sector at the position, after f_read's step to the next cluster. */
    method NextRead(ghost img: seq<Byte>) returns (res: FResult)
      requires Shape(img) && fptr % SS == 0 && fptr < |img|
      modifies `currClust, `csect, fs`disk, fs`wflag, fs`winsect, fs.win
      ensures res == Ok && Linked() && fs.See() == old(fs.See()) && Before(fs.vol, chain, fptr, currClust, csect)
    {
      hide Clu, Off, Times, Table, FatFs.See, FatFs.WinOk, Volume.Ok, Chained;
      LinkedFacts();
      RoomFor(fs.vol, chain, |img|, fptr);
      if csect >= fs.vol.csize {
        AtBoundary(fs.vol, chain, fptr, currClust, csect, dsect);
        LinkAt(Tab(fs), chains, chain, Clu(fs.vol, fptr / SS));
        var clst: nat;
        if fptr == 0 { clst := orgClust; } else { clst := fs.GetFat(currClust); }
        if clst <= 1 { return IntErr; }
        currClust := clst;
        csect := 0;
      } else {
        InCluster(fs.vol, chain, fptr, currClust, csect, dsect);
      }
      return Ok;
    }

    /** One round of f_read: whole sectors straight from the drive, with the
        dirty window copied over its sector, or part of one through the window. */
    method ReadChunk(btr: nat, ghost img: seq<Byte>) returns (res: FResult, data: seq<Byte>)
      requires Shape(img) && 0 < btr <= |img| - fptr
      modifies `fptr, `currClust, `csect, `dsect, fs`disk, fs`wflag, fs`winsect, fs.win
      ensures res == Ok && Shape(img) && fs.See() == old(fs.See())
      ensures 0 < |data| <= btr && fptr == old(fptr) + |data| && data == img[old(fptr)..fptr]
    {
      hide Clu, Off, Times, Table, FatFs.See, FatFs.WinOk, Volume.Ok, Chained, Has, FileSector, FreeSet;
      LinkedFacts();
      data := [];
      if fptr % SS == 0 {
        res := NextRead(img);
        if res != Ok { return; }
        var sect := fs.vol.ClusterSector(currClust);
        SectorFound(fs.vol, chain, fptr, currClust, csect);
        if sect == 0 { return IntErr, []; }
        sect := sect + csect;
        if btr / SS > 0 {
          data := ReadSectors(btr / SS, sect, img);
          return Ok, data;
        }
        dsect := sect;
        csect := csect + 1;
      }
      data := ReadPart(btr, img);
      return Ok, data;
    }

    /** Sectors straight from the drive, at most to the end of the cluster. */
    method ReadSectors(cc0: nat, sect: nat, ghost img: seq<Byte>) returns (data: seq<Byte>)
      requires Linked() && Holds(fs.See(), fs.vol, chain, img) && 0 < cc0 && fptr + cc0 * SS <= |img|
      requires Before(fs.vol, chain, fptr, currClust, csect) && sect == fs.vol.ClusterSector(currClust) + csect
      modifies `fptr, `csect
      ensures Shape(img) && 0 < |data| <= cc0 * SS && fptr == old(fptr) + |data| && data == img[old(fptr)..fptr]
    {
      hide Clu, Off, Times, Table, FatFs.See, FatFs.WinOk, Volume.Ok, Chained, Has, FileSector, FreeSet, Holds, At,
          Clusters, Run, Volume.ClusterSector, FsOk;
      LinkedFacts();
      SectorFound(fs.vol, chain, fptr, currClust, csect);
      var cc := cc0;
      if csect + cc > fs.vol.csize { cc := fs.vol.csize - csect; }
      data := DirectRead(sect, cc);
      RunBytes(fs.See(), fs.vol, chain, img, fptr, currClust, csect, cc);
      AfterRun(fs.vol, chain, fptr, currClust, csect, dsect, cc);
      csect := csect + cc;
      fptr := fptr + SS * cc;
    }

    /** Part of the sector `dsect`. */
    method ReadPart(btr: nat, ghost img: seq<Byte>) returns (data: seq<Byte>)
      requires Linked() && Holds(fs.See(), fs.vol, chain, img) && 0 < btr <= |img| - fptr
      requires if fptr % SS == 0 then csect > 0 && Before(fs.vol, chain, fptr, currClust, csect - 1)
          && dsect == FileSector(fs.vol, chain, fptr / SS)
               else At(fs.vol, chain, fptr, currClust, csect, dsect)
      modifies `fptr, fs`disk, fs`wflag, fs`winsect, fs.win
      ensures Shape(img) && fs.See() == old(fs.See())
      ensures 0 < |data| <= btr && fptr == old(fptr) + |data| && data == img[old(fptr)..fptr]
    {
      hide Clu, Off, Times, Table, FatFs.See, FatFs.WinOk, Volume.Ok, Chained, Has, FileSector, FreeSet;
      LinkedFacts();
      var rcnt := SS - fptr % SS;
      if rcnt > btr { rcnt := btr; }
      AfterPart(fs.vol, chain, fptr, currClust, csect, dsect, rcnt);
      SectorInData(fs.vol, chain, fptr / SS);
      WinInDrive(fs, dsect);
      fs.MoveWindow(dsect);
      data := fs.win[fptr % SS..fptr % SS + rcnt];
      PartBytes(fs.See(), fs.vol, chain, img, fptr, rcnt);
      fptr := fptr + rcnt;
    }

    method DirectRead(sect: nat, cc: nat) returns (data: seq<Byte>)
      requires fs.WinOk() && fs.vol.database <= sect && sect + cc <= fs.vol.size
      ensures sect + cc <= |fs.See()| && data == Run(fs.See(), sect, cc)
    {
      hide Times;
      data := Run(fs.disk, sect, cc);
      if fs.wflag && fs.winsect >= sect && fs.winsect - sect < cc {
        data := Overwrite(data, (fs.winsect - sect) * SS, fs.win[..]);
      }
      ghost var v := fs.See();
      forall p | 0 <= p < cc * SS ensures data[p] == v[sect + p / SS][p % SS] {
        assert v[sect + p / SS] == if fs.wflag && sect + p / SS == fs.winsect then fs.win[..]
            else fs.disk[sect + p / SS];
      }
    }

    /** f_read: the bytes from the position on, as many as there are. */
    method Read(btr0: nat) returns (res: FResult, data: seq<Byte>)
      requires Valid()
      modifies `fptr, `currClust, `csect, `dsect, `error, fs`disk, fs`wflag, fs`winsect, fs.win
      ensures Valid() && fsize == old(fsize) && Content() == old(Content()) && fs.See() == old(fs.See())
          && chain == old(chain)
      ensures error == old(error) && res == if error then IntErr else if canRead then Ok else Denied
      ensures res == Ok ==> fptr == if old(fptr) + btr0 <= fsize then old(fptr) + btr0 else fsize
      ensures res == Ok ==> data == old(Content())[old(fptr)..fptr]
      ensures res != Ok ==> data == [] && fptr == old(fptr)
    {
      hide Clu, Off, Times, Table, FatFs.See, FatFs.WinOk, Volume.Ok, Chained, Has, At, Bytes;
      data := [];
      if error { return IntErr, []; }
      if !canRead { return Denied, []; }
      ghost var img := Content();
      LinkedFacts();
      BytesHold(fs.See(), fs.vol, chain, fsize);
      var remain := fsize - fptr;
      var btr := if btr0 > remain then remain else btr0;
      while btr > 0
        invariant Shape(img) && fs.See() == old(fs.See()) && old(fptr) <= fptr && 0 <= btr <= |img| - fptr && !error
        invariant fptr + btr == old(fptr) + (if btr0 > remain then remain else btr0)
        invariant data == img[old(fptr)..fptr]
      {
        ghost var p := fptr;
        var r, chunk := ReadChunk(btr, img);
        error := r != Ok;
        if error { return r, data; }
        data := data + chunk;
        assert img[old(fptr)..p] + img[p..fptr] == img[old(fptr)..fptr];
        btr := btr - |chunk|;
      }
      HoldsBytes(fs.See(), fs.vol, chain, img);
      return Ok, data;
    }

    lemma ValidShape()
      requires Valid()
      ensures Linked() && Shape(Content()) && |Content()| == fsize && fptr <= fsize && fs.WinOk()
          && MineOnly(fs.See(), fs.See(), fs.vol, chain, chain, chains, chains)
    {
      hide Clu, Off, Times, Table, FatFs.See, FatFs.WinOk, Volume.Ok, Chained, Has, FreeSet, At, Bytes, Mine;
      LinkedFacts();
      BytesHold(fs.See(), fs.vol, chain, fsize);
    }

    lemma ShapeValid(img: seq<Byte>)
      requires Shape(img) && |img| == fsize
      ensures Valid() && Content() == img
    {
      hide Clu, Off, Times, Table, FatFs.See, FatFs.WinOk, Volume.Ok, Chained, Has, FreeSet, At, Bytes, Mine;
      LinkedFacts();
      HoldsBytes(fs.See(), fs.vol, chain, img);
    }

    // ----- f_write -----

    /** Only sectors of this file, and the table, changed; other files keep their chains. */
    twostate predicate OnlyMine()
      reads this, fs, fs.win
    {
      Linked() && old(Linked()) && MineOnly(old(fs.See()), fs.See(), fs.vol, old(chain), chain, old(chains), chains)
    }

    /** The file gained what the drive lost. */
    twostate lemma ClustersKept()
      requires Linked() && old(Linked()) && SameOthers(old(chains), chains, old(chain), chain)
      ensures fs.WinOk() && old(fs.WinOk()) && |chain| + |FreeSet(Tab(fs))| == |old(chain)| + |FreeSet(old(Tab(fs)))|
    {
      hide FreeSet, Chained, Tab;
      Conserved(old(Tab(fs)), Tab(fs), old(chains), chains, old(chain), chain);
    }

    twostate lemma MineKept()
      requires OnlyMine()
      ensures fs.WinOk() && old(fs.WinOk()) && |chain| + |FreeSet(Tab(fs))| == |old(chain)| + |FreeSet(old(Tab(fs)))|
    {
      hide FreeSet, Linked, Tab;
      ClustersKept();
    }

    lemma ShapeFacts(img: seq<Byte>)
      requires Shape(img)
      ensures Linked() && fs.WinOk() && fptr <= |img|
      ensures MineOnly(fs.See(), fs.See(), fs.vol, chain, chain, chains, chains)
    {
      hide FatFs.See, FatFs.WinOk, Chained;
    }

    /** The chain is as long as it was, or as the position needs. */
    lemma ChainGrown(img: seq<Byte>, c0: nat, p0: nat)
      requires Shape(img) && c0 <= |chain| <= c0 + 1
      requires |chain| > c0 ==> p0 == c0 * ClusterBytes(fs.vol) && p0 < fptr
      ensures fs.vol.csize > 0 && |chain| == Most(c0, Need(ClusterBytes(fs.vol), fptr))
    {
      hide Need, Clu, Times, Linked, At;
      assert Room(fs.vol, chain, |img|);
      RoomNeed(fs.vol, chain, |img|);
      NeedMono(ClusterBytes(fs.vol), fptr, |img|);
      NeedAtMost(ClusterBytes(fs.vol), fptr, c0);
    }

    /** The cluster after the current one, or the first: found or allocated. */
    method NextCluster(ghost img: seq<Byte>, ghost k: nat) returns (clst: nat)
      requires Linked() && Holds(fs.See(), fs.vol, chain, img)
      requires if fptr == 0 then k == 0 else 0 < k <= |chain| && currClust == chain[k - 1]
      modifies `orgClust, `chain, `chains
      modifies fs`disk, fs`wflag, fs`winsect, fs`freeClust, fs`fsiFlag, fs`lastClust, fs.win
      ensures OnlyMine() && Holds(fs.See(), fs.vol, chain, img)
      ensures clst != 0 ==> k < |chain| && chain[k] == clst
      ensures clst == 0 ==> fs.See() == old(fs.See()) && chain == old(chain) && k == |chain| && FreeSet(Tab(fs)) == {}
      ensures |chain| == if k < |old(chain)| || clst == 0 then |old(chain)| else k + 1
      ensures clst != CHAIN_ERROR && clst < DRIVE_ERROR
    {
      hide Times, Table, FatFs.See, FatFs.WinOk, Volume.Ok, Chained, FreeSet, Holds;
      LinkedFacts();
      if chain != [] { LinkAt(Tab(fs), chains, chain, if k < |chain| then k else |chain| - 1); }
      ghost var v, t, chain0, chains0 := fs.See(), Tab(fs), chain, chains;
      if fptr == 0 {
        clst := orgClust;
        if clst == 0 {
          clst, chains, chain := GrowChain(fs, 0, chains, chain);
          orgClust := clst;
          Started(t, chains0, chain0, chains, chain, clst);
        }
      } else {
        clst, chains, chain := GrowChain(fs, currClust, chains, chain);
        Stretched(t, chains0, chain0, chains, chain, k, clst);
      }
      LinkedFacts();
      SizeStays(v, fs.vol, chain0, img);
      HoldsSame(v, fs.See(), fs.vol, chain0, chain, img);
    }

    /** f_write's step to the next sector: a cluster more is taken only at the end
        of the chain, and the drive is full if there is none. */
    method NextWrite(ghost img: seq<Byte>) returns (res: FResult, full: bool)
      requires Shape(img) && fptr % SS == 0
      modifies `orgClust, `currClust, `csect, `chain, `chains
      modifies fs`disk, fs`wflag, fs`winsect, fs`freeClust, fs`fsiFlag, fs`lastClust, fs.win
      ensures OnlyMine() && Holds(fs.See(), fs.vol, chain, img)
      ensures res == Ok && (!full ==> Before(fs.vol, chain, fptr, currClust, csect))
      ensures full ==> Shape(img) && fs.See() == old(fs.See()) && chain == old(chain) && FreeSet(Tab(fs)) == {}
      ensures full || |chain| > |old(chain)| ==> fptr == |old(chain)| * ClusterBytes(fs.vol)
      ensures |old(chain)| <= |chain| <= |old(chain)| + 1
    {
      hide Clu, Off, Times, Table, FatFs.See, FatFs.WinOk, Volume.Ok, Chained, FileSector, FreeSet, Holds, FsOk;
      LinkedFacts();
      if csect < fs.vol.csize {
        InCluster(fs.vol, chain, fptr, currClust, csect, dsect);
        return Ok, false;
      }
      AtBoundary(fs.vol, chain, fptr, currClust, csect, dsect);
      BoundaryAt(fs.vol, fptr);
      var clst := NextCluster(img, Clu(fs.vol, fptr / SS));
      if clst == 0 { return Ok, true; }
      if clst == CHAIN_ERROR { return IntErr, false; }
      if clst == DRIVE_ERROR { return DiskErr, false; }
      currClust := clst;
      csect := 0;
      return Ok, false;
    }

    /** Sectors straight to the drive; the window is refilled if it shows one of them. */
    method DirectWrite(sect: nat, data: seq<Byte>)
      requires fs.WinOk() && fs.vol.database <= sect && |data| % SS == 0 && sect + |data| / SS <= fs.vol.size
      modifies fs`disk, fs`wflag, fs.win
      ensures fs.WinOk() && sect + |data| / SS <= |old(fs.See())| && fs.See() == WriteRun(old(fs.See()), sect, data)
    {
      hide Times, Volume.Ok, WriteRun, CopiesAgree, Look;
      VolOk(fs);
      var cc := |data| / SS;
      ghost var d0, w0, flag0 := fs.disk, fs.win[..], fs.wflag;
      fs.disk := WriteRun(fs.disk, sect, data);
      if fs.winsect >= sect && fs.winsect - sect < cc {
        var at := (fs.winsect - sect) * SS;
        forall i | 0 <= i < SS { fs.win[i] := data[at + i]; }
        assert fs.win[..] == data[at..at + SS];
        fs.wflag := false;
      }
      if CopiesAgree(d0, fs.vol) { CopiesUntouched(d0, fs.vol, sect, data); }
      RunSeen(d0, fs.vol, w0, fs.win[..], fs.winsect, flag0, fs.wflag, sect, data);
    }

    /** f_write, whole sectors: at most to the end of the cluster. */
    method WriteSectors(data: seq<Byte>, sect: nat, ghost img: seq<Byte>) returns (wcnt: nat)
      requires Linked() && Holds(fs.See(), fs.vol, chain, img) && |data| >= SS && fptr <= |img|
      requires Before(fs.vol, chain, fptr, currClust, csect) && sect == fs.vol.ClusterSector(currClust) + csect
      modifies `fptr, `csect, fs`disk, fs`wflag, fs.win
      ensures 0 < wcnt <= |data| && fptr == old(fptr) + wcnt && OnlyMine()
      ensures Shape(Overwrite(img, old(fptr), data[..wcnt]))
    {
      hide Clu, Off, Times, Table, FatFs.See, FatFs.WinOk, Volume.Ok, Chained, Has, FileSector, FreeSet, Holds, Before,
          At, WriteRun, Overwrite, Mine;
      LinkedFacts();
      SectorFound(fs.vol, chain, fptr, currClust, csect);
      var cc := |data| / SS;
      if csect + cc > fs.vol.csize { cc := fs.vol.csize - csect; }
      wcnt := SS * cc;
      SectorsWritten(fs.See(), fs.vol, chain, img, fptr, currClust, csect, dsect, data[..wcnt]);
      DirectWrite(sect, data[..wcnt]);
      csect := csect + cc;
      fptr := fptr + wcnt;
    }

    /** Bytes of the sector `sect` are written in the window. At the growing edge
        the sector is not read first: what is in the window stays behind the data. */
    method WriteWindow(sect: nat, at: nat, data: seq<Byte>, grow: bool)
      requires fs.WinOk() && fs.vol.database <= sect < fs.vol.size && at + |data| <= SS
      modifies fs`disk, fs`wflag, fs`winsect, fs.win
      ensures fs.WinOk() && |fs.See()| == |old(fs.See())|
      ensures forall s | 0 <= s < fs.vol.size && s != sect :: fs.See()[s] == old(fs.See())[s]
      ensures forall i | at <= i < at + |data| :: fs.See()[sect][i] == data[i - at]
      ensures !grow ==> forall i | 0 <= i < SS && !(at <= i < at + |data|) ::
          fs.See()[sect][i] == old(fs.See())[sect][i]
    {
      hide Times;
      ghost var v := fs.See();
      DatabaseNotZero(fs.vol);
      TableBefore(fs.vol);
      if grow {
        fs.MoveWindow(0);
        fs.winsect := sect;
      } else {
        fs.MoveWindow(sect);
      }
      forall i | 0 <= i < |data| { fs.win[at + i] := data[i]; }
      fs.wflag := true;
      assert fs.See()[sect] == fs.win[..];
    }

    /** f_write, part of the sector `dsect`. */
    method WritePart(data: seq<Byte>, grow: bool, ghost img: seq<Byte>) returns (wcnt: nat)
      requires Linked() && Holds(fs.See(), fs.vol, chain, img) && |data| > 0 && fptr <= |img|
          && (grow ==> fptr == |img| && fptr % SS == 0)
      requires if fptr % SS == 0 then csect > 0 && Before(fs.vol, chain, fptr, currClust, csect - 1)
          && dsect == FileSector(fs.vol, chain, fptr / SS)
               else At(fs.vol, chain, fptr, currClust, csect, dsect)
      modifies `fptr, fs`disk, fs`wflag, fs`winsect, fs.win
      ensures 0 < wcnt <= |data| && fptr == old(fptr) + wcnt && OnlyMine()
      ensures Shape(Overwrite(img, old(fptr), data[..wcnt]))
    {
      hide Clu, Off, Times, Table, FatFs.See, FatFs.WinOk, Volume.Ok, Chained, Has, FileSector, FreeSet, Holds, Before,
          At, Overwrite, Mine;
      LinkedFacts();
      wcnt := SS - fptr % SS;
      if wcnt > |data| { wcnt := |data|; }
      PartPlace(fs.See(), fs.vol, chain, img, fptr, currClust, csect, dsect, wcnt);
      ghost var v := fs.See();
      WriteWindow(dsect, fptr % SS, data[..wcnt], grow);
      PartFits(v, fs.See(), fs.vol, chain, img, fptr, dsect, data[..wcnt], grow);
      fptr := fptr + wcnt;
    }

    /** Bytes from a sector boundary on: whole sectors straight to the drive, or
        part of one through the window, which is written back first if it shows `dsect`. */
    method WriteNext(data: seq<Byte>, ghost img: seq<Byte>) returns (res: FResult, wcnt: nat)
      requires Linked() && Holds(fs.See(), fs.vol, chain, img) && |data| > 0 && fptr <= |img|
          && |img| == (if fsize < fptr then fptr else fsize)
      requires fptr % SS == 0 && Before(fs.vol, chain, fptr, currClust, csect)
      modifies `fptr, `csect, `dsect, fs`disk, fs`wflag, fs`winsect, fs.win
      ensures res == Ok && 0 < wcnt <= |data| && fptr == old(fptr) + wcnt && fs.WinOk() && OnlyMine()
      ensures Shape(Overwrite(img, old(fptr), data[..wcnt]))
    {
      hide Clu, Off, Times, Table, FatFs.See, FatFs.WinOk, Volume.Ok, Chained, Has, FileSector, FreeSet, Holds, At,
          Before, MineOnly, Overwrite;
      LinkedFacts();
      wcnt := 0;
      if fs.winsect == dsect { TableBefore(fs.vol); fs.MoveWindow(0); }
      var sect := fs.vol.ClusterSector(currClust);
      SectorFound(fs.vol, chain, fptr, currClust, csect);
      if sect == 0 { return IntErr, wcnt; }
      sect := sect + csect;
      if |data| / SS > 0 {
        wcnt := WriteSectors(data, sect, img);
      } else {
        dsect := sect;
        csect := csect + 1;
        wcnt := WritePart(data, fptr >= fsize, img);
      }
      return Ok, wcnt;
    }

    /** One round of f_write. The chain grows only if the bytes need it to; no
        byte is written exactly at the end of the last cluster of a full drive. */
    method WriteChunk(data: seq<Byte>, ghost img: seq<Byte>) returns (res: FResult, wcnt: nat)
      requires Shape(img) && |data| > 0 && |img| == (if fsize < fptr then fptr else fsize)
      modifies `fptr, `orgClust, `currClust, `csect, `dsect, `chain, `chains
      modifies fs`disk, fs`wflag, fs`winsect, fs`freeClust, fs`fsiFlag, fs`lastClust, fs.win
      ensures res == Ok && wcnt <= |data| && fptr == old(fptr) + wcnt && fs.WinOk() && OnlyMine()
      ensures Shape(Overwrite(img, old(fptr), data[..wcnt]))
      ensures fs.vol.csize > 0 && |chain| == Most(|old(chain)|, Need(ClusterBytes(fs.vol), fptr))
      ensures wcnt == 0 ==> FreeSet(Tab(fs)) == {} && fptr == |chain| * ClusterBytes(fs.vol)
    {
      hide Clu, Off, Times, Table, FatFs.See, FatFs.WinOk, Volume.Ok, Chained, Has, FileSector, FreeSet, Holds, At,
          Before, MineOnly, Overwrite;
      res := Ok;
      if fptr % SS != 0 {
        wcnt := WritePart(data, false, img);
        ChainGrown(Overwrite(img, old(fptr), data[..wcnt]), |chain|, old(fptr));
        return;
      }
      var full;
      wcnt := 0;
      res, full := NextWrite(img);
      if res != Ok { return; }
      if full {
        OverwriteNone(img, fptr, data);
        ChainGrown(img, |chain|, fptr);
        return;
      }
      ghost var v1, chain1, chains1 := fs.See(), chain, chains;
      res, wcnt := WriteNext(data, img);
      MineTwice(old(fs.See()), v1, fs.See(), fs.vol, old(chain), chain1, chain, old(chains), chains1, chains);
      ChainGrown(Overwrite(img, old(fptr), data[..wcnt]), |old(chain)|, old(fptr));
    }

    /** f_write's loop: rounds until all bytes are written or the drive is full. */
    method WriteAll(data: seq<Byte>, ghost img0: seq<Byte>) returns (res: FResult, bw: nat)
      requires Shape(img0) && fsize == |img0|
      modifies `fptr, `orgClust, `currClust, `csect, `dsect, `chain, `chains
      modifies fs`disk, fs`wflag, fs`winsect, fs`freeClust, fs`fsiFlag, fs`lastClust, fs.win
      ensures res == Ok && bw <= |data| && fptr == old(fptr) + bw && fs.WinOk() && OnlyMine()
      ensures old(fptr) <= |img0| && Shape(Overwrite(img0, old(fptr), data[..bw]))
      ensures fs.vol.csize > 0 && |chain| == Most(|old(chain)|, Need(ClusterBytes(fs.vol), fptr))
      ensures bw < |data| ==> FreeSet(Tab(fs)) == {} && fptr == |chain| * ClusterBytes(fs.vol)
    {
      hide FatFs.See, FatFs.WinOk, FreeSet, Linked, Shape, FsOk, MineOnly, Overwrite, Need, Tab;
      ghost var img := img0;
      res, bw := Ok, 0;
      ShapeFacts(img0);
      OverwriteNone(img0, fptr, data);
      ChainGrown(img0, |chain|, fptr);
      ghost var b := ClusterBytes(fs.vol);
      while bw < |data|
        invariant res == Ok && bw <= |data| && fptr == old(fptr) + bw && old(fptr) <= |img0| && fs.WinOk() && OnlyMine()
        invariant img == Overwrite(img0, old(fptr), data[..bw]) && Shape(img)
            && |img| == (if fsize < fptr then fptr else fsize)
        invariant |chain| == Most(|old(chain)|, Need(b, fptr))
      {
        ghost var p, v1, chain1, chains1 := fptr, fs.See(), chain, chains;
        var wcnt;
        res, wcnt := WriteChunk(data[bw..], img);
        if res != Ok { return; }
        NeedMono(b, p, fptr);
        MineTwice(old(fs.See()), v1, fs.See(), fs.vol, old(chain), chain1, chain, old(chains), chains1, chains);
        OverwriteStep(img0, old(fptr), data, bw, wcnt);
        img := Overwrite(img, p, data[bw..][..wcnt]);
        bw := bw + wcnt;
        if wcnt == 0 { break; }
      }
    }

    /** f_write: the bytes replace those from the position on and extend the file.
        All are written exactly if the size stays below 4G and the clusters needed
        beyond those of the file are free. If the size does not, none are written;
        if too few clusters are free, the bytes end with the last of them. */
    method Write(data: seq<Byte>) returns (res: FResult, bw: nat)
      requires Valid() && |data| < 0x1_0000_0000 && fsize < 0x1_0000_0000
      modifies this
      modifies fs`disk, fs`wflag, fs`winsect, fs`freeClust, fs`fsiFlag, fs`lastClust, fs.win
      ensures Valid() && fsize < 0x1_0000_0000 && OnlyMine() && fs.vol.csize > 0
      ensures error == old(error) && res == if error then IntErr else if canWrite then Ok else Denied
      ensures bw <= |data| && fptr == old(fptr) + bw && Content() == Overwrite(old(Content()), old(fptr), data[..bw])
      ensures bw == |data| <==>
                (data == [] || (res == Ok && old(fsize) + |data| < 0x1_0000_0000
                                && Need(ClusterBytes(fs.vol), old(fptr) + |data|) <= |old(chain)|
                                    + |FreeSet(old(Tab(fs)))|))
      ensures res != Ok || old(fsize) + |data| >= 0x1_0000_0000 ==> bw == 0
      ensures bw < |data| && res == Ok && old(fsize) + |data| < 0x1_0000_0000
          ==> FreeSet(Tab(fs)) == {} && fptr == |chain| * ClusterBytes(fs.vol)
      ensures |chain| == Most(|old(chain)|, Need(ClusterBytes(fs.vol), fptr))
      ensures |chain| + |FreeSet(Tab(fs))| == |old(chain)| + |FreeSet(old(Tab(fs)))|
    {
      hide FatFs.See, FatFs.WinOk, FreeSet, Linked, Shape, Valid, Content, FsOk, MineOnly, Overwrite, Need, Tab;
      ValidShape();
      ghost var img0, free0 := Content(), |FreeSet(Tab(fs))|;
      bw := 0;
      OverwriteNone(img0, fptr, data);
      ChainGrown(img0, |chain|, fptr);
      ghost var b := ClusterBytes(fs.vol);
      if error { return IntErr, 0; }
      if !canWrite { return Denied, 0; }
      var btw := if (fsize + |data|) % 0x1_0000_0000 < fsize then 0 else |data|;
      res, bw := WriteAll(data[..btw], img0);
      error := res != Ok;
      if error { return; }
      assert data[..btw][..bw] == data[..bw];
      OverwriteLength(img0, old(fptr), data[..bw]);
      if fptr > fsize { fsize := fptr; }
      written := true;
      ShapeValid(Overwrite(img0, old(fptr), data[..bw]));
      MineKept();
      if btw == |data| { WriteEnds(b, |old(chain)|, free0, old(fptr), |data|, bw, |chain|, |FreeSet(Tab(fs))|); }
    }

    // ----- f_truncate -----

    /** f_truncate: the file ends at the position, and the clusters behind it are free. */
    method Truncate() returns (res: FResult)
      requires Valid()
      modifies this
      modifies fs`disk, fs`wflag, fs`winsect, fs`freeClust, fs`fsiFlag, fs.win
      ensures Valid() && fptr == old(fptr) && fs.vol.csize > 0
      ensures error == old(error) && res == if error then IntErr else if canWrite then Ok else Denied
      ensures Content() == if res == Ok then old(Content())[..fptr] else old(Content())
      ensures forall s | 0 <= s < fs.vol.size && !fs.vol.InTable(s) :: fs.See()[s] == old(fs.See())[s]
      ensures chain <= old(chain) && |chain| == if res == Ok && fptr < old(fsize) then Need(ClusterBytes(fs.vol), fptr)
          else |old(chain)|
      ensures SameOthers(old(chains), chains, old(chain), chain)
      ensures |chain| + |FreeSet(Tab(fs))| == |old(chain)| + |FreeSet(old(Tab(fs)))|
    {
      hide Times, FatFs.See, FatFs.WinOk, FreeSet, Linked, Shape, Valid, Content, Need, Tab;
      ValidShape();
      LinkedFacts();
      if error { return IntErr; }
      if !canWrite { return Denied; }
      res := Ok;
      if fsize > fptr {
        ghost var img := Content();
        fsize := fptr;
        written := true;
        res := Shorten(img);
        ShapeValid(img[..fptr]);
        LinkedFacts();
        ClustersKept();
      }
      error := res != Ok;
    }

    /** Truncating to nothing. */
    method RemoveAll() returns (res: FResult)
      requires Linked() && chain != []
      modifies `orgClust, `chain, `chains, fs`disk, fs`wflag, fs`winsect, fs`freeClust, fs`fsiFlag, fs.win
      ensures res == Ok && Linked() && chain == [] && SameOthers(old(chains), chains, old(chain), chain)
          && TableOnly(fs)
    {
      hide Table, FatFs.See, FatFs.WinOk, Volume.Ok, Chained, FreeSet, FreedResult, Freed, TableOnly;
      LinkedFacts();
      ghost var t := Tab(fs);
      FreedChain(t, chain);
      ChainFreedOk(t, chain);
      NoneEmpty(t, chains);
      res := RemoveChain(fs, orgClust);
      ChainFreed(t, Tab(fs), chains, chain);
      orgClust := 0;
      chains, chain := chains - {chain}, [];
    }

    /** Cutting the chain behind cluster `k`, the current one, and freeing the rest. */
    method CutChain(ghost k: nat) returns (res: FResult)
      requires Linked() && k < |chain| && chain[k] == currClust
      modifies `chain, `chains, fs`disk, fs`wflag, fs`winsect, fs`freeClust, fs`fsiFlag, fs.win
      ensures res == Ok && Linked() && chain == old(chain)[..k + 1] && SameOthers(old(chains), chains, old(chain),
          chain)
      ensures forall s | 0 <= s < fs.vol.size && !fs.vol.InTable(s) :: fs.See()[s] == old(fs.See())[s]
    {
      hide Table, FatFs.See, FatFs.WinOk, Volume.Ok, Chained, FreeSet, FreedResult, Freed;
      LinkedFacts();
      ghost var t, s := Tab(fs), chain;
      assert currClust in s;
      LinkOf(t, chains, s, currClust);
      ChainFacts(t, s);
      var ncl := fs.GetFat(currClust);
      res := Ok;
      if ncl == DRIVE_ERROR { res := DiskErr; }
      if ncl == 1 { res := IntErr; }
      if res == Ok && ncl < fs.vol.maxClust {
        MaskFacts(fs.vol, 0);
        ghost var eoc := END_MARK % fs.vol.Mask();
        ChainCut(t, chains, s, k, eoc);
        CutOthers(t, chains, s, k);
        CountSame(t, currClust, eoc);
        res := fs.PutFat(currClust, END_MARK);
        ghost var t1, rest := Tab(fs), s[k + 1..];
        chains := chains - {s} + {s[..k + 1], rest};
        RestChain(t1, chains, rest);
        FreedChain(t1, rest);
        ChainFreedOk(t1, rest);
        if res == Ok { res := RemoveChain(fs, ncl); }
        ChainFreed(t1, Tab(fs), chains, rest);
        chain := s[..k + 1];
        chains := chains - {rest};
      } else {
        assert s[..k + 1] == s;
      }
    }

    /** The clusters that the bytes before the position do not need are freed. */
    method Shorten(ghost img: seq<Byte>) returns (res: FResult)
      requires Shape(img) && fptr < |img|
      modifies `orgClust, `chain, `chains, fs`disk, fs`wflag, fs`winsect, fs`freeClust, fs`fsiFlag, fs.win
      ensures Linked() && res == Ok && Shape(img[..fptr]) && fs.vol.csize > 0 && |chain| == Need(ClusterBytes(fs.vol),
          fptr)
      ensures chain <= old(chain) && SameOthers(old(chains), chains, old(chain), chain)
      ensures forall s | 0 <= s < fs.vol.size && !fs.vol.InTable(s) :: fs.See()[s] == old(fs.See())[s]
    {
      hide Clu, Off, Times, Table, FatFs.See, FatFs.WinOk, Volume.Ok, Chained, Has, FreeSet, At, Bytes, Holds,
          FreedResult, Freed, FsOk;
      LinkedFacts();
      CsizePos(fs.vol);
      ghost var v, chain0 := fs.See(), chain;
      KeptRoom(v, fs.vol, chain, img, fptr, currClust, csect, dsect);
      if fptr == 0 {
        res := RemoveAll();
      } else {
        res := CutChain(Clu(fs.vol, (fptr - 1) / SS));
        ClusterOf(fs.vol, fptr - 1);
      }
      LinkedFacts();
      PrefixHolds(v, fs.See(), fs.vol, chain0, chain, img, fptr);
    }

    // ----- f_lseek -----

    /** The cluster after cluster `k` of the file, allocated if there is none. */
    method Stretch(ghost img: seq<Byte>, ghost k: nat, clst0: nat) returns (clst: nat)
      requires Linked() && Holds(fs.See(), fs.vol, chain, img) && k < |chain| && clst0 == chain[k]
      modifies `chain, `chains, fs`disk, fs`wflag, fs`winsect, fs`freeClust, fs`fsiFlag, fs`lastClust, fs.win
      ensures OnlyMine() && Holds(fs.See(), fs.vol, chain, img)
      ensures clst != 0 ==> k + 1 < |chain| && chain[k + 1] == clst
      ensures clst == 0
          ==> fs.See() == old(fs.See()) && chain == old(chain) && k + 1 == |chain| && FreeSet(Tab(fs)) == {}
      ensures k + 1 < |old(chain)| ==> clst != 0 && fs.See() == old(fs.See()) && chain == old(chain)
      ensures |chain| == if k + 1 < |old(chain)| || clst == 0 then |old(chain)| else k + 2
    {
      hide Times, Table, FatFs.See, FatFs.WinOk, Volume.Ok, Chained, FreeSet, Holds;
      LinkedFacts();
      LinkAt(Tab(fs), chains, chain, k);
      if k + 1 < |chain| { LinkAt(Tab(fs), chains, chain, k + 1); }
      ghost var v, t, chain0, chains0 := fs.See(), Tab(fs), chain, chains;
      clst, chains, chain := GrowChain(fs, clst0, chains, chain);
      Stretched(t, chains0, chain0, chains, chain, k + 1, clst);
      LinkedFacts();
      SizeStays(v, fs.vol, chain0, img);
      HoldsSame(v, fs.See(), fs.vol, chain0, chain, img);
    }

    /** One step of f_lseek along the chain, which is extended if the file may be written. */
    method Forward(ghost img: seq<Byte>, ghost k: nat, clst0: nat) returns (clst: nat)
      requires Linked() && Holds(fs.See(), fs.vol, chain, img) && k < |chain| && clst0 == chain[k] && (!canWrite
          ==> k + 1 < |chain|)
      modifies `chain, `chains, fs`disk, fs`wflag, fs`winsect, fs`freeClust, fs`fsiFlag, fs`lastClust, fs.win
      ensures OnlyMine() && Holds(fs.See(), fs.vol, chain, img)
      ensures clst != 0 ==> k + 1 < |chain| && chain[k + 1] == clst && 1 < clst < fs.vol.maxClust < DRIVE_ERROR
      ensures clst == 0
          ==> canWrite && fs.See() == old(fs.See()) && chain == old(chain) && k + 1 == |chain| && FreeSet(Tab(fs)) == {}
      ensures k + 1 < |old(chain)| ==> clst != 0 && fs.See() == old(fs.See()) && chain == old(chain)
      ensures |chain| == if k + 1 < |old(chain)| || clst == 0 then |old(chain)| else k + 2
    {
      hide Times, Table, FatFs.See, FatFs.WinOk, Volume.Ok, Chained, FreeSet, Holds, MineOnly;
      LinkedFacts();
      VolOk(fs);
      if canWrite {
        clst := Stretch(img, k, clst0);
      } else {
        LinkAt(Tab(fs), chains, chain, k + 1);
        MineSame(fs.See(), fs.vol, chain, chains);
        clst := fs.GetFat(clst0);
      }
      if clst != 0 { LinkAt(Tab(fs), chains, chain, k + 1); }
    }

    /** f_lseek's walk along the chain, from the start of cluster `k0`: it ends in
        the cluster of the target, or at the end of the last if the drive is full. */
    method Walk(ofs0: nat, clst0: nat, ghost k0: nat, ghost img: seq<Byte>)
      returns (res: FResult, ofs: nat, clst: nat, ghost k: nat)
      requires Linked() && Holds(fs.See(), fs.vol, chain, img) && 0 < ofs0 && k0 < |chain| && clst0 == currClust
          == chain[k0]
      requires fptr == k0 * (fs.vol.csize * SS) && (!canWrite ==> fptr + ofs0 <= |img|)
      modifies `fptr, `currClust, `chain, `chains, fs`disk, fs`wflag, fs`winsect, fs`freeClust, fs`fsiFlag,
          fs`lastClust, fs.win
      ensures res == Ok && OnlyMine() && Holds(fs.See(), fs.vol, chain, img)
      ensures k < |chain| && currClust == chain[k] && fptr == k * (fs.vol.csize * SS) && 0 < ofs <= fs.vol.csize * SS
      ensures fptr + ofs <= old(fptr) + ofs0 && (clst == currClust || (clst == 0 && ofs % SS == 0))
      ensures fptr + ofs < old(fptr) + ofs0
          ==> FreeSet(Tab(fs)) == {} && fptr + ofs >= |img| && k + 1 == |chain| && ofs == fs.vol.csize * SS
      ensures old(fptr) + ofs0 <= |img| ==> fs.See() == old(fs.See()) && chain == old(chain)
      ensures k0 <= k && |chain| == Most(|old(chain)|, k + 1)
    {
      hide Times, Table, FatFs.See, FatFs.WinOk, Volume.Ok, Chained, FreeSet, Holds, MineOnly, Clu, Off;
      LinkedFacts();
      CsizePos(fs.vol);
      var bcs := fs.vol.csize * SS;
      ofs, clst, k := ofs0, clst0, k0;
      MineSame(fs.See(), fs.vol, chain, chains);
      while ofs > bcs
        invariant OnlyMine() && Holds(fs.See(), fs.vol, chain, img)
        invariant k0 <= k < |chain| && clst == currClust == chain[k] && fptr == k * bcs && 0 < ofs
            && fptr + ofs == old(fptr) + ofs0
        invariant |chain| == Most(|old(chain)|, k + 1)
        invariant old(fptr) + ofs0 <= |img| ==> fs.See() == old(fs.See()) && chain == old(chain)
        decreases ofs
      {
        ghost var v1, chain1, chains1 := fs.See(), chain, chains;
        NextInside(fs.See(), fs.vol, chain, img, k, ofs);
        clst := Forward(img, k, clst);
        MineTwice(old(fs.See()), v1, fs.See(), fs.vol, old(chain), chain1, chain, old(chains), chains1, chains);
        if canWrite && clst == 0 {
          ofs := bcs;
          break;
        }
        if clst == DRIVE_ERROR { return DiskErr, ofs, clst, k; }
        if clst <= 1 || clst >= fs.vol.maxClust { return IntErr, ofs, clst, k; }
        currClust := clst;
        assert (k + 1) * bcs == k * bcs + bcs;
        fptr := fptr + bcs;
        ofs := ofs - bcs;
        k := k + 1;
      }
      return Ok, ofs, clst, k;
    }

    /** The first cluster of the file, allocated if there is none. */
    method FirstCluster(ghost img: seq<Byte>) returns (clst: nat)
      requires Linked() && Holds(fs.See(), fs.vol, chain, img)
      modifies `orgClust, `chain, `chains, fs`disk, fs`wflag, fs`winsect, fs`freeClust, fs`fsiFlag, fs`lastClust, fs.win
      ensures fs.WinOk() && OnlyMine() && Holds(fs.See(), fs.vol, chain, img)
      ensures clst != 0 ==> chain != [] && chain[0] == clst
      ensures clst == 0 ==> chain == [] && FreeSet(Tab(fs)) == {}
      ensures old(chain) != [] || clst == 0 ==> fs.See() == old(fs.See()) && chain == old(chain)
      ensures old(chain) != [] ==> clst != 0
      ensures |chain| == if clst == 0 then 0 else Most(|old(chain)|, 1)
      ensures clst != CHAIN_ERROR && clst < DRIVE_ERROR
    {
      hide Times, Table, FatFs.See, FatFs.WinOk, Volume.Ok, Chained, FreeSet, Holds, MineOnly, Clu, Off, FileSector;
      LinkedFacts();
      VolOk(fs);
      MineSame(fs.See(), fs.vol, chain, chains);
      clst := orgClust;
      if chain != [] { LinkAt(Tab(fs), chains, chain, 0); }
      if clst == 0 {
        ghost var v, t, chain0, chains0 := fs.See(), Tab(fs), chain, chains;
        clst, chains, chain := GrowChain(fs, 0, chains, chain);
        orgClust := clst;
        Started(t, chains0, chain0, chains, chain, clst);
        LinkedFacts();
        SizeStays(v, fs.vol, chain0, img);
        HoldsSame(v, fs.See(), fs.vol, chain0, chain, img);
        NewOnly(v, fs.See(), fs.vol, chain0, chain, chains0, chains);
      }
    }

    /** The cluster a walk to `ofs` starts from, and what is left to go: the
        current cluster if the target is not before it, else the first. */
    method SeekStart(ofs0: nat, ifptr: nat, ghost img: seq<Byte>)
      returns (res: FResult, ofs: nat, clst: nat, ghost k: nat)
      requires Shape(img) && ifptr == fptr && 0 < ofs0
      modifies `fptr, `orgClust, `currClust, `csect, `chain, `chains, fs`disk, fs`wflag, fs`winsect, fs`freeClust,
          fs`fsiFlag, fs`lastClust, fs.win
      ensures res == Ok && fs.WinOk() && OnlyMine() && Holds(fs.See(), fs.vol, chain, img) && csect == 255
      ensures clst != 0 ==>
        && k < |chain| && clst == currClust == chain[k]
        && 0 < ofs && fptr == k * (fs.vol.csize * SS) && fptr + ofs == ofs0
      ensures clst == 0 ==> fptr == 0 && chain == [] && FreeSet(Tab(fs)) == {}
      ensures old(chain) != [] ==> clst != 0 && chain == old(chain) && fs.See() == old(fs.See())
      ensures |chain| == if clst == 0 then 0 else Most(|old(chain)|, k + 1)
    {
      hide Times, Table, FatFs.See, FatFs.WinOk, Volume.Ok, Chained, FreeSet, Holds, MineOnly, Clu, Off, FileSector,
          FsOk;
      LinkedFacts();
      CsizePos(fs.vol);
      MineSame(fs.See(), fs.vol, chain, chains);
      res, fptr, csect, ofs, k := Ok, 0, 255, ofs0, 0;
      var bcs := fs.vol.csize * SS;
      if ifptr > 0 && (ofs0 - 1) / bcs >= (ifptr - 1) / bcs {
        StartHere(fs.vol, chain, ofs0, ifptr, currClust, old(csect), dsect, bcs);
        LinkAt(Tab(fs), chains, chain, (ifptr - 1) / bcs);
        clst, k := currClust, (ifptr - 1) / bcs;
        fptr := (ifptr - 1) / bcs * bcs;
        ofs := ofs - fptr;
        return;
      }
      clst := FirstCluster(img);
      if clst == CHAIN_ERROR { return IntErr, ofs, clst, k; }
      if clst == DRIVE_ERROR { return DiskErr, ofs, clst, k; }
      currClust := clst;
    }

    /** f_lseek to a position that is not 0. */
    method SeekTo(target: nat, ghost img: seq<Byte>) returns (res: FResult)
      requires Shape(img) && 0 < target && (!canWrite ==> target <= |img|)
      modifies `fptr, `orgClust, `currClust, `csect, `dsect, `chain, `chains
      modifies fs`disk, fs`wflag, fs`winsect, fs`freeClust, fs`fsiFlag, fs`lastClust, fs.win
      ensures res == Ok && OnlyMine() && Holds(fs.See(), fs.vol, chain, img)
      ensures At(fs.vol, chain, fptr, currClust, csect, dsect) && Room(fs.vol, chain, fptr)
      ensures fptr <= target
          && (fptr < target ==> FreeSet(Tab(fs)) == {} && fptr >= |img| && fptr == |chain| * ClusterBytes(fs.vol))
      ensures target <= |img| ==> fs.See() == old(fs.See()) && chain == old(chain)
      ensures fs.vol.csize > 0 && |chain| == Most(|old(chain)|, Need(ClusterBytes(fs.vol), fptr))
    {
      hide Times, Table, FatFs.See, FatFs.WinOk, Volume.Ok, Chained, FreeSet, Holds, MineOnly, Clu, Off, FileSector,
          FsOk;
      LinkedFacts();
      CsizePos(fs.vol);
      NotEmpty(fs.See(), fs.vol, chain, img);
      var ifptr := fptr;
      var ofs, clst;
      ghost var k;
      res, ofs, clst, k := SeekStart(target, ifptr, img);
      if res != Ok { return; }
      LinkedFacts();
      if clst == 0 {
        AtZero(fs.vol, chain, currClust, dsect);
        return Ok;
      }
      ghost var v1, chain1, chains1 := fs.See(), chain, chains;
      res, ofs, clst, k := Walk(ofs, clst, k, img);
      LinkedFacts();
      MineTwice(old(fs.See()), v1, fs.See(), fs.vol, old(chain), chain1, chain, old(chains), chains1, chains);
      if res != Ok { return; }
      res := Land(ofs, clst, k);
    }

    /** The end of a seek: the position is `ofs` bytes into cluster `k`. */
    method Land(ofs: nat, clst: nat, ghost k: nat) returns (res: FResult)
      requires fs.vol.Ok() && Clusters(fs.vol, chain) && k < |chain| && currClust == chain[k]
          && fptr == k * (fs.vol.csize * SS) && 0 < ofs <= fs.vol.csize * SS
      requires clst == currClust || (clst == 0 && ofs % SS == 0)
      modifies `fptr, `csect, `dsect
      ensures res == Ok && fptr == old(fptr) + ofs && At(fs.vol, chain, fptr, currClust, csect, dsect)
          && Room(fs.vol, chain, fptr)
      ensures fs.vol.csize > 0 && Need(ClusterBytes(fs.vol), fptr) == k + 1
      ensures ofs == fs.vol.csize * SS ==> fptr == (k + 1) * ClusterBytes(fs.vol)
    {
      hide Times, Clu, Off, At, Room, Need;
      SeekEnds(fs.vol, chain, k, currClust, ofs, ofs / SS + (if ofs % SS == 0 then 0 else 1), if ofs % SS
          == 0 then dsect else fs.vol.ClusterSector(currClust) + ofs / SS);
      NeedInside(ClusterBytes(fs.vol), k, ofs);
      csect := ofs / SS;
      fptr := fptr + ofs;
      if ofs % SS != 0 {
        var nsect := fs.vol.ClusterSector(clst);
        assert nsect != 0 by { DatabaseNotZero(fs.vol); }
        if nsect == 0 { return IntErr; }
        nsect := nsect + csect;
        csect := csect + 1;
        if nsect != dsect { dsect := nsect; }
      }
      return Ok;
    }

    /** f_lseek: the position moves to `ofs`, within the file or past its end;
        then the file grows, by bytes that are not specified. The position falls
        short exactly if too few clusters are free, and is the end of the last then. */
    method Seek(ofs0: nat) returns (res: FResult)
      requires Valid()
      modifies this
      modifies fs`disk, fs`wflag, fs`winsect, fs`freeClust, fs`fsiFlag, fs`lastClust, fs.win
      ensures Valid() && OnlyMine() && fs.vol.csize > 0
      ensures error == old(error) && res == if error then IntErr else Ok
      ensures res != Ok ==> fptr == old(fptr) && fsize == old(fsize) && fs.See() == old(fs.See()) && chain == old(chain)
      ensures res == Ok ==> fsize == (if fptr > old(fsize) then fptr else old(fsize))
      ensures res == Ok ==>
        var target := if ofs0 > old(fsize) && !canWrite then old(fsize) else ofs0;
        && fptr <= target
        && (fptr == target <==> Need(ClusterBytes(fs.vol), target) <= |old(chain)| + |FreeSet(old(Tab(fs)))|)
        && (fptr < target ==> fptr >= old(fsize) && FreeSet(Tab(fs)) == {} && fptr == |chain| * ClusterBytes(fs.vol))
        && (target <= old(fsize) ==> fptr == target && fs.See() == old(fs.See()) && chain == old(chain))
      ensures |chain| == Most(|old(chain)|, Need(ClusterBytes(fs.vol), fptr))
      ensures |chain| + |FreeSet(Tab(fs))| == |old(chain)| + |FreeSet(old(Tab(fs)))|
      ensures old(Content()) <= Content()
    {
      hide Times, Table, FatFs.See, FatFs.WinOk, Volume.Ok, Chained, FreeSet, Holds, MineOnly, Clu, Off, FileSector,
          Bytes, Linked, Content, Room, FsOk, Need, Tab;
      ValidShape();
      ghost var img, free0 := Content(), |FreeSet(Tab(fs))|;
      ghost var b := ClusterBytes(fs.vol);
      ChainGrown(img, |chain|, fptr);
      if error { return IntErr; }
      var target := if ofs0 > fsize && !canWrite then fsize else ofs0;
      res := Ok;
      if target > 0 {
        res := SeekTo(target, img);
        error := res != Ok;
        if error { return; }
      } else {
        fptr, csect := 0, 255;
        AtZero(fs.vol, chain, currClust, dsect);
        NeedAtMost(b, 0, 0);
      }
      MineKept();
      WriteEnds(b, |old(chain)|, free0, 0, target, fptr, |chain|, |FreeSet(Tab(fs))|);
      if fptr > fsize {
        fsize := fptr;
        written := true;
        LinkedFacts();
        ghost var more := HoldsMore(fs.See(), fs.vol, chain, img, fptr);
        ShapeValid(more);
      } else {
        ShapeValid(img);
      }
    }
  }

  /** The larger of two numbers. */
  function Most(a: nat, b: nat): nat {
    if a < b then b else a
  }

  /** A transfer of `n` bytes at `at` that may end early only at the end of the
      last cluster of a full drive: it does exactly if too few clusters are free.
      The file has `c0` clusters before it and `c` after it, `f0` and `f` are free. */
  lemma {:induction false} WriteEnds(b: nat, c0: nat, f0: nat, at: nat, n: nat, done: nat, c: nat, f: nat)
    requires b > 0 && done <= n && c == Most(c0, Need(b, at + done)) && c + f == c0 + f0
    requires done < n ==> n == 0 || (f == 0 && at + done == c * b)
    ensures done == n <==> Need(b, at + n) <= c0 + f0
  {
    hide Need;
    if done < n { NeedAtMost(b, at + n, c); }
  }

  /** A position in cluster `k` needs the clusters up to it. */
  lemma {:induction false} NeedInside(b: nat, k: nat, ofs: nat)
    requires 0 < ofs <= b
    ensures Need(b, k * b + ofs) == k + 1
    ensures ofs == b ==> k * b + ofs == (k + 1) * b
  {
    hide Need;
    assert (k + 1) * b == k * b + b;
    NeedAtMost(b, k * b + ofs, k);
    NeedAtMost(b, k * b + ofs, k + 1);
  }

  /** A position at the start of a cluster. */
  lemma {:induction false} BoundaryAt(vol: Volume, fptr: nat)
    requires vol.csize > 0 && fptr % SS == 0 && Off(vol, fptr / SS) == 0
    ensures fptr == Clu(vol, fptr / SS) * ClusterBytes(vol)
  {
    hide Clu, Off, Times;
    DivParts(vol, fptr / SS);
    TimesIs(Clu(vol, fptr / SS), vol.csize);
    MulAssoc(Clu(vol, fptr / SS), vol.csize);
  }

  lemma {:induction false} NoneEmpty(t: seq<nat>, chains: set<seq<nat>>)
    requires Chained(t, chains)
    ensures [] !in chains
  {
    assert [] in chains ==> Chain(t, []);
  }

  lemma {:induction false} AtZero(vol: Volume, chain: seq<nat>, curr: nat, dsect: nat)
    requires vol.csize > 0
    ensures At(vol, chain, 0, curr, 255, dsect) && Room(vol, chain, 0)
  {
  }

  lemma {:induction false} NotEmpty(v: View, vol: Volume, chain: seq<nat>, img: seq<Byte>)
    requires Holds(v, vol, chain, img)
    ensures |img| > 0 ==> chain != []
  {
    hide Clu, Times;
  }

  /** Only the table changes when a cluster is allocated. */
  lemma {:induction false} NewOnly(v: View, v': View, vol: Volume, chain: seq<nat>, chain': seq<nat>,
      chains: set<seq<nat>>, chains': set<seq<nat>>)
    requires |v| == |v'| && chain <= chain' && (forall s | 0 <= s < |v| && !vol.InTable(s) :: v'[s] == v[s])
    requires SameOthers(chains, chains', chain, chain')
    ensures MineOnly(v, v', vol, chain, chain', chains, chains')
  {
  }

  /** Seeking forward starts in the current cluster. */
  lemma {:induction false} StartHere(vol: Volume, chain: seq<nat>, target: nat, fptr: nat, curr: nat, csect: nat,
      dsect: nat, bcs: nat)
    requires vol.csize > 0 && 0 < fptr && 0 < target && At(vol, chain, fptr, curr, csect, dsect)
        && bcs == vol.csize * SS
    requires (target - 1) / bcs >= (fptr - 1) / bcs
    ensures 0 <= (fptr - 1) / bcs < |chain| && chain[(fptr - 1) / bcs] == curr && 0 <= (fptr - 1) / bcs * bcs < target
  {
    hide Clu, Off, Times;
    ClusterOf(vol, fptr - 1);
    DivDown(target - 1, fptr - 1, bcs);
    TimesIs((fptr - 1) / bcs, bcs);
    TimesMono(0, (fptr - 1) / bcs, bcs);
  }

  lemma {:induction false} DivDown(a: nat, b: nat, n: nat)
    requires n > 0 && a / n >= b / n
    ensures a >= b / n * n
  {
    DivModOf(a, n);
    TimesIs(a / n, n);
    TimesIs(b / n, n);
    TimesMono(b / n, a / n, n);
  }

  lemma {:induction false} CsizePos(vol: Volume)
    requires vol.Ok()
    ensures 1 <= vol.csize <= 128
  {
    hide Times;
  }

  lemma {:induction false} MineSame(v: View, vol: Volume, chain: seq<nat>, chains: set<seq<nat>>)
    ensures MineOnly(v, v, vol, chain, chain, chains, chains)
  {
  }

  /** A byte of the file behind cluster `k` is in a cluster further on. */
  lemma {:induction false} NextInside(v: View, vol: Volume, chain: seq<nat>, img: seq<Byte>, k: nat, ofs: nat)
    requires Holds(v, vol, chain, img) && ofs > vol.csize * SS
    ensures k * (vol.csize * SS) + ofs <= |img| ==> k + 1 < |chain|
    ensures k + 1 == |chain| ==> |img| <= k * (vol.csize * SS) + vol.csize * SS
  {
    hide Clu, Off, Times;
    var p := k * (vol.csize * SS) + vol.csize * SS;
    assert p == (k + 1) * (vol.csize * SS);
    if p < |img| {
      RoomFor(vol, chain, |img|, p);
      InClusterAt(vol, k + 1, 1);
    }
  }

  lemma {:induction false} RestChain(t: seq<nat>, chains: set<seq<nat>>, s: seq<nat>)
    requires Chained(t, chains) && s in chains
    ensures Chain(t, s)
  {
  }

  /** A shorter file needs no more than the clusters up to the current one. */
  lemma {:induction false} KeptRoom(v: View, vol: Volume, chain: seq<nat>, img: seq<Byte>, fptr: nat, curr: nat,
      csect: nat, dsect: nat)
    requires Holds(v, vol, chain, img) && At(vol, chain, fptr, curr, csect, dsect) && fptr < |img|
    ensures chain != []
        && (fptr > 0 ==> var k := Clu(vol, (fptr - 1) / SS);
          k < |chain| && chain[k] == curr && At(vol, chain[..k + 1], fptr, curr, csect, dsect))
    ensures fptr == 0 ==> At(vol, [], fptr, curr, csect, dsect)
  {
    hide Clu, Off, Times;
    assert Has(vol, chain, (|img| - 1) / SS);
  }

  lemma {:induction false} PrefixHolds(v: View, v': View, vol: Volume, chain: seq<nat>, chain': seq<nat>,
      img: seq<Byte>, n: nat)
    requires Holds(v, vol, chain, img) && n <= |img| && |v'| == |v| && forall s | 0 <= s < |v| && !vol.InTable(s) ::
        v'[s] == v[s]
    requires chain' == if n == 0 then [] else if Clu(vol, (n - 1) / SS) < |chain| then chain[..Clu(vol, (n - 1) / SS)
        + 1] else chain
    ensures Holds(v', vol, chain', img[..n])
  {
    hide Clu, Off, Times;
    forall p: nat | p < n
      ensures Has(vol, chain', p / SS) && FileSector(vol, chain', p / SS) < |v'| && DataByte(v', vol, chain', p)
        == img[p]
    {
      assert DataByte(v, vol, chain, p) == img[p];
      DivMono(vol, p / SS, (n - 1) / SS);
      SectorInData(vol, chain, p / SS);
    }
    if n > 0 {
      assert DataByte(v, vol, chain, n - 1) == img[n - 1];
    }
  }

  lemma {:induction false} OverwriteLength(img: seq<Byte>, at: nat, data: seq<Byte>)
    requires at <= |img|
    ensures |Overwrite(img, at, data)| == if |img| < at + |data| then at + |data| else |img|
  {
  }

  /** One round of f_write more. */
  lemma {:induction false} OverwriteStep(img: seq<Byte>, at: nat, data: seq<Byte>, bw: nat, n: nat)
    requires at <= |img| && bw + n <= |data|
    ensures at + bw <= |Overwrite(img, at, data[..bw])|
    ensures Overwrite(Overwrite(img, at, data[..bw]), at + bw, data[bw..][..n]) == Overwrite(img, at, data[..bw + n])
    ensures |Overwrite(img, at, data[..bw + n])| == if |img| < at + bw + n then at + bw + n else |img|
  {
    OverwriteTwice(img, at, data[..bw], data[bw..][..n]);
    assert data[..bw] + data[bw..][..n] == data[..bw + n];
  }

  lemma {:induction false} OverwriteNone(img: seq<Byte>, at: nat, data: seq<Byte>)
    requires at <= |img|
    ensures Overwrite(img, at, data[..0]) == img
  {
  }

  lemma {:induction false} TableBefore(vol: Volume)
    requires vol.Ok()
    ensures vol.fatbase < vol.database <= vol.size && 0 < vol.size && !vol.InCopies(0)
        && forall s: nat | vol.database <= s :: !vol.InCopies(s) && !vol.InTable(s)
  {
    hide Times;
    TimesAtLeast(vol.nFats, vol.sectsFat);
    TableFits(vol);
  }

  lemma {:induction false} PartPlace(v: View, vol: Volume, chain: seq<nat>, img: seq<Byte>, fptr: nat, curr: nat,
      csect: nat, dsect: nat, n: nat)
    requires Holds(v, vol, chain, img) && 0 < n <= SS - fptr % SS
    requires if fptr % SS == 0 then csect > 0 && Before(vol, chain, fptr, curr, csect - 1)
        && dsect == FileSector(vol, chain, fptr / SS)
             else At(vol, chain, fptr, curr, csect, dsect)
    ensures At(vol, chain, fptr + n, curr, csect, dsect) && Has(vol, chain, fptr / SS)
        && dsect == FileSector(vol, chain, fptr / SS)
    ensures vol.database <= dsect < vol.size && Mine(vol, chain, dsect)
  {
    hide Clu, Off, Times;
    AfterPart(vol, chain, fptr, curr, csect, dsect, n);
    SectorInData(vol, chain, fptr / SS);
  }

  lemma {:induction false} PartFits(v: View, v': View, vol: Volume, chain: seq<nat>, img: seq<Byte>, fptr: nat,
      dsect: nat, data: seq<Byte>, grow: bool)
    requires Holds(v, vol, chain, img) && fptr <= |img| && Has(vol, chain, fptr / SS) && |data| > 0
        && fptr % SS + |data| <= SS
    requires |v'| == |v| && dsect == FileSector(vol, chain, fptr / SS) && vol.database <= dsect < vol.size
        && Mine(vol, chain, dsect)
    requires forall s | 0 <= s < |v| && s != dsect :: v'[s] == v[s]
    requires forall i | fptr % SS <= i < fptr % SS + |data| :: v'[dsect][i] == data[i - fptr % SS]
    requires !grow ==> forall i | 0 <= i < SS && !(fptr % SS <= i < fptr % SS + |data|) :: v'[dsect][i] == v[dsect][i]
    requires grow ==> fptr == |img| && fptr % SS == 0
    ensures Holds(v', vol, chain, Overwrite(img, fptr, data)) && fptr + |data| <= |Overwrite(img, fptr, data)|
    ensures HasTable(v, vol) && HasTable(v', vol) && Table(v', vol) == Table(v, vol)
    ensures forall s | 0 <= s < |v| && !Mine(vol, chain, s) :: v'[s] == v[s]
  {
    hide Clu, Off, Times, Table, Volume.Ok, Has, FileSector, Holds, Mine;
    SizeStays(v, vol, chain, img);
    PartWritten(v, v', vol, chain, img, fptr, data);
    DataOnly(v, v', vol);
  }

  lemma {:induction false} SectorsWritten(v: View, vol: Volume, chain: seq<nat>, img: seq<Byte>, fptr: nat, curr: nat,
      csect: nat, dsect: nat, data: seq<Byte>)
    requires Holds(v, vol, chain, img) && Before(vol, chain, fptr, curr, csect) && |data| % SS == 0 && |data| > 0
        && csect + |data| / SS <= vol.csize && fptr <= |img|
    ensures vol.ClusterSector(curr) + csect + |data| / SS <= |v|
    ensures var v' := WriteRun(v, vol.ClusterSector(curr) + csect, data);
      Holds(v', vol, chain, Overwrite(img, fptr, data)) && HasTable(v, vol) && HasTable(v', vol)
          && Table(v', vol) == Table(v, vol)
    ensures var v' := WriteRun(v, vol.ClusterSector(curr) + csect, data); forall s | 0 <= s < |v|
        && !Mine(vol, chain, s) :: v'[s] == v[s]
    ensures fptr + |data| <= |Overwrite(img, fptr, data)| && At(vol, chain, fptr + |data|, curr, csect + |data| / SS,
        dsect)
  {
    hide Clu, Off, Times, Table, Volume.Ok, Has, FileSector, Mine, Holds, At;
    SizeStays(v, vol, chain, img);
    HoldsClusters(v, vol, chain, img);
    RunWritten(v, vol, chain, img, fptr, curr, csect, data);
    SectorFound(vol, chain, fptr, curr, csect);
    DataOnly(v, WriteRun(v, vol.ClusterSector(curr) + csect, data), vol);
    RunIsMine(vol, chain, fptr, curr, csect, |data| / SS);
    AfterRun(vol, chain, fptr, curr, csect, dsect, |data| / SS);
  }

  /** A table is in its own sectors. */
  lemma {:induction false} DataOnly(v: View, v': View, vol: Volume)
    requires vol.Ok() && |v| == |v'| == vol.size && forall s | 0 <= s < vol.database :: v'[s] == v[s]
    ensures HasTable(v, vol) && HasTable(v', vol) && Table(v', vol) == Table(v, vol)
  {
    hide Times, Entry;
    TableFits(vol);
    forall c | 0 <= c < vol.maxClust ensures Entry(v', vol, c) == Entry(v, vol, c) { EntryOfTable(v, v', vol, c); }
  }

  lemma {:induction false} EntryOfTable(v: View, v': View, vol: Volume, c: nat)
    requires vol.Ok() && |v| == |v'| == vol.size && HasTable(v, vol) && HasTable(v', vol) && c < vol.maxClust
    requires forall s | 0 <= s < vol.database :: v'[s] == v[s]
    ensures Entry(v', vol, c) == Entry(v, vol, c)
  {
    hide Times;
    TableFits(vol);
  }

  /** A run of sectors in a cluster of the file. */
  lemma {:induction false} RunIsMine(vol: Volume, chain: seq<nat>, fptr: nat, curr: nat, csect: nat, cc: nat)
    requires vol.Ok() && Before(vol, chain, fptr, curr, csect) && csect + cc <= vol.csize
    ensures forall s | vol.ClusterSector(curr) + csect <= s < vol.ClusterSector(curr) + csect + cc ::
        Mine(vol, chain, s)
  {
    hide Clu, Off, Times;
    var sect := vol.ClusterSector(curr) + csect;
    forall s | sect <= s < sect + cc ensures Mine(vol, chain, s) {
      SectorsFollow(vol, chain, fptr / SS, s - sect);
    }
  }

  lemma {:induction false} HoldsClusters(v: View, vol: Volume, chain: seq<nat>, img: seq<Byte>)
    requires Holds(v, vol, chain, img)
    ensures Clusters(vol, chain)
  {
  }

  lemma {:induction false} SizeStays(v: View, vol: Volume, chain: seq<nat>, img: seq<Byte>)
    requires Holds(v, vol, chain, img)
    ensures |v| == vol.size && vol.Ok()
  {
  }

  ghost predicate MineOnly(v: View, v': View, vol: Volume, chain: seq<nat>, chain': seq<nat>, chains: set<seq<nat>>,
      chains': set<seq<nat>>)
  {
    && |v| == |v'| && chain <= chain'
    && (forall s | 0 <= s < |v| && !vol.InTable(s) && !Mine(vol, chain', s) :: v'[s] == v[s])
    && SameOthers(chains, chains', chain, chain')
  }

  lemma {:induction false} MineTwice(v1: View, v2: View, v3: View, vol: Volume, c1: seq<nat>, c2: seq<nat>,
      c3: seq<nat>, cs1: set<seq<nat>>, cs2: set<seq<nat>>, cs3: set<seq<nat>>)
    requires MineOnly(v1, v2, vol, c1, c2, cs1, cs2) && MineOnly(v2, v3, vol, c2, c3, cs2, cs3)
    ensures MineOnly(v1, v3, vol, c1, c3, cs1, cs3)
  {
    hide Mine;
    forall s | Mine(vol, c2, s) ensures Mine(vol, c3, s) { MineGrows(vol, c2, c3, s); }
  }

  lemma {:induction false} MineGrows(vol: Volume, chain: seq<nat>, chain': seq<nat>, s: nat)
    requires Mine(vol, chain, s) && chain <= chain'
    ensures Mine(vol, chain', s)
  {
    hide Clu, Off, Times;
    var q: nat :| Has(vol, chain, q) && FileSector(vol, chain, q) == s;
    assert Has(vol, chain', q) && FileSector(vol, chain', q) == s;
  }

  /** A sector of the file. */
  ghost predicate Mine(vol: Volume, chain: seq<nat>, s: nat) {
    vol.csize > 0 && exists q: nat :: Has(vol, chain, q) && FileSector(vol, chain, q) == s
  }

  /** Sectors of different clusters are different. */
  lemma {:induction false} ClustersApart(vol: Volume, c: nat, d: nat, i: nat, j: nat)
    requires vol.Ok() && 2 <= c < d < vol.maxClust && i < vol.csize && j < vol.csize
    ensures vol.ClusterSector(c) + i < vol.ClusterSector(d) + j
  {
    TimesStep(c - 2, vol.csize);
    TimesMono(c - 1, d - 2, vol.csize);
    hide Times, Volume.Ok;
  }

  lemma {:induction false} NotMine(t: seq<nat>, vol: Volume, chains: set<seq<nat>>, chain: seq<nat>, o: seq<nat>,
      q: nat)
    requires vol.Ok() && |t| == vol.maxClust && Chained(t, chains) && (chain == [] || chain in chains)
    requires o in chains && o != chain && Has(vol, o, q)
    ensures Clusters(vol, o) && !Mine(vol, chain, FileSector(vol, o, q))
  {
    ChainClusters(t, vol, o);
    ChainClusters(t, vol, chain);
    if r: nat :| Has(vol, chain, r) && FileSector(vol, chain, r) == FileSector(vol, o, q) {
      var c, d := chain[Clu(vol, r)], o[Clu(vol, q)];
      assert c in chain && d in o;
      assert c != d;
      if c < d { ClustersApart(vol, c, d, Off(vol, r), Off(vol, q)); }
      else { ClustersApart(vol, d, c, Off(vol, q), Off(vol, r)); }
    }
  }

  /** An operation on one file leaves every byte of every other file where it is. */
  lemma {:induction false} OtherFileKept(v: View, v': View, vol: Volume, t': seq<nat>, chain: seq<nat>,
      chain': seq<nat>, chains: set<seq<nat>>, chains': set<seq<nat>>, o: seq<nat>, p: nat, k: int, s: int)
    requires vol.Ok() && |v| == vol.size && |t'| == vol.maxClust && Chained(t', chains')
        && (chain' == [] || chain' in chains')
    requires MineOnly(v, v', vol, chain, chain', chains, chains') && o in chains && o != chain && Has(vol, o, p / SS)
    requires k == p / (512 * vol.csize)
    requires 0 <= k < |o| ==> s == vol.database + (o[k] - 2) * vol.csize + p / 512 % vol.csize
    ensures o in chains' && o != chain' && 0 <= k < |o| && 0 <= s < |v| == |v'| && v'[s] == v[s]
  {
    hide Mine, Clu, Off, Times, Has, FileSector, Clusters, Chained, Volume.Ok;
    assert o in chains - {chain} && o in chains' - {chain'};
    NotMine(t', vol, chains', chain', o, p / SS);
    SectorInData(vol, o, p / SS);
    BytePlace(v, vol, o, p);
  }

  /** A first cluster for a file that had none ... */
  lemma {:induction false} Started(t: seq<nat>, chains0: set<seq<nat>>, chain0: seq<nat>, chains: set<seq<nat>>,
      chain: seq<nat>, clst: nat)
    requires Chained(t, chains0) && chain0 == [] && (clst != 0 ==> InRange(t, clst) && t[clst] == 0)
    requires if clst == 0 then chains == chains0 && chain == chain0 else chains == chains0 + {[clst]} && chain == [clst]
    ensures clst != 0 ==> chain in chains && chain0 <= chain && chain[0] == clst
    ensures SameOthers(chains0, chains, chain0, chain)
  {
    NoneEmpty(t, chains0);
    if clst != 0 {
      ChainedEntries(t, chains0);
      assert clst in chain;
    }
  }

  /** ... or the next cluster of one that had. */
  lemma {:induction false} Stretched(t: seq<nat>, chains0: set<seq<nat>>, chain0: seq<nat>, chains: set<seq<nat>>,
      chain: seq<nat>, k: nat, clst: nat)
    requires Chained(t, chains0) && chain0 in chains0 && 0 < k <= |chain0|
    requires if clst == 0 then chains == chains0 && chain == chain0
             else if k < |chain0| then chains == chains0 && chain == chain0 && clst == chain0[k]
             else chains == chains0 - {chain0} + {chain0 + [clst]} && chain == chain0 + [clst]
    ensures chain in chains && chain0 <= chain && chain[0] == chain0[0]
    ensures clst != 0 ==> k < |chain| && chain[k] == clst
    ensures SameOthers(chains0, chains, chain0, chain)
  {
    hide Chain;
    assert chain0[0] in chain0 && chain0[0] == chain[0] && chain[0] in chain;
  }

  lemma {:induction false} SectorFound(vol: Volume, chain: seq<nat>, fptr: nat, curr: nat, csect: nat)
    requires vol.Ok() && Clusters(vol, chain) && Before(vol, chain, fptr, curr, csect)
    ensures vol.ClusterSector(curr) != 0 && vol.database <= vol.ClusterSector(curr) + csect && vol.ClusterSector(curr)
        + csect == FileSector(vol, chain, fptr / SS)
    ensures csect < vol.csize && vol.ClusterSector(curr) + vol.csize <= vol.size
  {
    hide Clu, Off, Times;
    SectorInData(vol, chain, fptr / SS);
    DivParts(vol, fptr / SS);
    assert Clusters(vol, chain) && 2 <= curr < vol.maxClust;
    assert vol.database != 0 by { DatabaseNotZero(vol); }
  }

  lemma {:induction false} DatabaseNotZero(vol: Volume)
    requires vol.Ok()
    ensures vol.database > 0
  {
    hide Times;
  }

  lemma {:induction false} WinInDrive(fs: FatFs, s: nat)
    requires fs.WinOk()
    ensures |fs.See()| == fs.vol.size && fs.win.Length == SS
  {
    hide Times;
  }

  /** Bytes of one sector of the file. */
  lemma {:induction false} PartBytes(v: View, vol: Volume, chain: seq<nat>, img: seq<Byte>, fptr: nat, n: nat)
    requires Holds(v, vol, chain, img) && 0 < n <= SS - fptr % SS && fptr + n <= |img| && Has(vol, chain, fptr / SS)
    ensures FileSector(vol, chain, fptr / SS) < |v|
    ensures v[FileSector(vol, chain, fptr / SS)][fptr % SS..fptr % SS + n] == img[fptr..fptr + n]
  {
    hide Clu, Off, Times, Has, FileSector;
    var s := FileSector(vol, chain, fptr / SS);
    assert DataByte(v, vol, chain, fptr) == img[fptr];
    var a, b := v[s][fptr % SS..fptr % SS + n], img[fptr..fptr + n];
    forall j | 0 <= j < n ensures a[j] == b[j] {
      assert (fptr + j) / SS == fptr / SS && (fptr + j) % SS == fptr % SS + j;
      assert DataByte(v, vol, chain, fptr + j) == img[fptr + j];
    }
  }

  /** The entry of one cluster of a chain names the next. */
  lemma {:induction false} LinkAt(t: seq<nat>, chains: set<seq<nat>>, s: seq<nat>, k: nat)
    requires Chained(t, chains) && s in chains && k < |s|
    ensures s != [] && InRange(t, s[0]) && InRange(t, s[k]) && (k > 0 ==> InRange(t, s[k - 1]) && t[s[k - 1]] == s[k])
  {
    assert Chain(t, s) && InRange(t, s[0]) && InRange(t, s[k]);
    if k > 0 { assert InRange(t, s[k - 1]); }
  }
}
