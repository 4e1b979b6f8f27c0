/** The one sector buffer of a volume (modules/fatfs/ff.c, tiny configuration):
    all sectors are seen through it, and the table is changed in it. */
module FatWindow {
  import opened Common
  import opened FatVolume
  import opened FatChains

  datatype FResult = Ok | DiskErr | IntErr | Denied

  /** The other copies of the table repeat the first. */
  ghost predicate CopiesAgree(disk: seq<Sector>, vol: Volume)
    requires |disk| == vol.size
  {
    forall s: nat | s < vol.size && vol.InCopies(s) :: disk[s] == disk[s - vol.sectsFat]
  }

  /** Where sector `w` of the table is in the first `n` copies. */
  ghost function Places(vol: Volume, w: nat, n: nat): set<nat> {
    set i: nat | i < n :: w + Times(i, vol.sectsFat)
  }

  /** One place in each copy, and no others. */
  lemma {:induction false} PlacesAre(vol: Volume, w: nat, n: nat, i: nat, s: nat) returns (j: nat)
    ensures i < n ==> w + i * vol.sectsFat in Places(vol, w, n)
    ensures s in Places(vol, w, n) ==> j < n && s == w + j * vol.sectsFat
  {
    j := 0;
    TimesIs(i, vol.sectsFat);
    if s in Places(vol, w, n) {
      j :| j < n && s == w + Times(j, vol.sectsFat);
      TimesIs(j, vol.sectsFat);
    }
    hide Times;
  }

  lemma {:induction false} NextPlace(vol: Volume, w: nat, n: nat)
    ensures Places(vol, w, n + 1) == Places(vol, w, n) + {w + Times(n, vol.sectsFat)}
    ensures Times(0, vol.sectsFat) == 0 && Places(vol, w, 0) == {}
  {
    assert Times(0, vol.sectsFat) == 0;
    hide Times;
  }

  /** Copies that agree do so after a sector was written to all its places. */
  lemma {:induction false} AgreeAfter(d0: seq<Sector>, d: seq<Sector>, vol: Volume, win: Sector, w: nat)
    requires vol.Ok() && |d0| == |d| == vol.size && CopiesAgree(d0, vol) && vol.InTable(w)
    requires forall s | 0 <= s < vol.size :: d[s] == if s in Places(vol, w, vol.nFats) then win else d0[s]
    ensures CopiesAgree(d, vol)
  {
    assert Times(0, vol.sectsFat) == 0;
    hide Times;
    forall s: nat | s < vol.size && vol.InCopies(s) ensures d[s] == d[s - vol.sectsFat] {
      assert d0[s] == d0[s - vol.sectsFat];
      var q := s - vol.sectsFat;
      if s in Places(vol, w, vol.nFats) {
        var i: nat :| i < vol.nFats && s == w + Times(i, vol.sectsFat);
        TimesStep(i - 1, vol.sectsFat);
        assert q == w + Times(i - 1, vol.sectsFat);
      }
      if q in Places(vol, w, vol.nFats) {
        var i: nat :| i < vol.nFats && q == w + Times(i, vol.sectsFat);
        TimesStep(i, vol.sectsFat);
        assert i + 1 == vol.nFats ==> s >= vol.TableEnd();
        assert s == w + Times(i + 1, vol.sectsFat);
      }
    }
  }

  lemma {:induction false} FirstPlace(vol: Volume, w: nat)
    requires vol.Ok()
    ensures w in Places(vol, w, vol.nFats)
  {
    assert w == w + Times(0, vol.sectsFat);
  }

  lemma {:induction false} PlaceInDrive(vol: Volume, w: nat, n: nat)
    requires vol.Ok() && vol.InTable(w) && n < vol.nFats
    ensures w + Times(n, vol.sectsFat) < vol.TableEnd() && w + Times(n, vol.sectsFat) < vol.size
    ensures n > 0 ==> vol.InCopies(w + Times(n, vol.sectsFat))
  {
    TimesMono(n + 1, vol.nFats, vol.sectsFat);
    TimesStep(n, vol.sectsFat);
    if n > 0 { TimesAtLeast(n, vol.sectsFat); }
    hide Times;
  }

  /** All places but the first are in the other copies. */
  lemma {:induction false} PlacesHidden(vol: Volume, w: nat)
    requires vol.Ok() && vol.InTable(w)
    ensures forall s | s in Places(vol, w, vol.nFats) && s != w :: vol.InCopies(s)
  {
    assert Times(0, vol.sectsFat) == 0;
    hide Times;
    forall i: nat | i < vol.nFats
      ensures i > 0 ==> vol.InCopies(w + Times(i, vol.sectsFat)) { PlaceInDrive(vol, w, i); }
  }

  const BLANK: Sector := seq(SS, _ => 0)

  /** What the program sees: a dirty window hides its sector. Copies of the
      table are not looked at. */
  function Look(disk: seq<Sector>, vol: Volume, win: Sector, winsect: nat, wflag: bool): (v: View)
    ensures |v| == |disk|
  {
    seq(|disk|, s requires 0 <= s < |disk| => if vol.InCopies(s) then BLANK else if wflag
        && s == winsect then win else disk[s])
  }

  /** free_clust when it is not known. */
  const UNKNOWN: DWord := 0xFFFF_FFFF

  /** The count of free clusters is not known or the true one. */
  ghost predicate CountOk(v: View, vol: Volume, free: DWord)
    requires vol.Ok() && HasTable(v, vol)
  {
    free == UNKNOWN || free == |FreeSet(Table(v, vol))|
  }

  class FatFs {
    const vol: Volume
    const win: array<Byte>
    var disk: seq<Sector>
    var winsect: nat
    var wflag: bool
    var lastClust: DWord
    var freeClust: DWord
    var fsiFlag: bool
    /** All copies of the table agreed when the volume was mounted. */
    ghost const mirrored: bool
    /** The count was right when it was recorded last, at mounting or by f_getfree. */
    ghost var counted: bool

    /** Mounting: nothing is in the window yet, and nothing known of free clusters
        but what `last` and `free` say, right or wrong. The copies of the table are
        not compared. */
    constructor (vol: Volume, disk: seq<Sector>, last: DWord, free: DWord)
      requires vol.Ok() && |disk| == vol.size
      ensures mirrored == CopiesAgree(disk, vol)
      ensures WinOk() && See() == Look(disk, vol, BLANK, 0, false) && lastClust == last && freeClust == free
          && this.vol == vol && fresh(win)
      ensures HasTable(See(), vol) && counted == CountOk(See(), vol, free)
    {
      this.vol := vol;
      win := new Byte[SS];
      this.disk := disk;
      winsect, wflag := 0, false;
      lastClust, freeClust, fsiFlag := last, free, false;
      mirrored := CopiesAgree(disk, vol);
      new;
      VolumeHasTable();
      counted := CountOk(See(), vol, free);
    }

    ghost predicate WinOk()
      reads this`disk, this`winsect, this`wflag, win
    {
      && vol.Ok() && |disk| == vol.size && win.Length == SS && winsect < vol.size && !vol.InCopies(winsect)
      && (wflag ==> vol.fatbase <= winsect)
      && (!wflag && winsect != 0 ==> win[..] == disk[winsect])
      && (mirrored ==> CopiesAgree(disk, vol))
    }

    /** The contents of the volume. */
    ghost function See(): (v: View)
      reads this`disk, this`winsect, this`wflag, win
      requires WinOk()
      ensures |v| == |disk|
    {
      Look(disk, vol, win[..], winsect, wflag)
    }

    /** A changed sector of the table is written to all other copies. */
    method Reflect()
      requires vol.Ok() && |disk| == vol.size && win.Length == SS && vol.InTable(winsect) && disk[winsect] == win[..]
      modifies `disk
      ensures |disk| == vol.size
      ensures forall s | 0 <= s < vol.size :: disk[s] == if s in Places(vol, winsect, vol.nFats) then win[..]
          else old(disk)[s]
    {
      NextPlace(vol, winsect, 0);
      hide Times, Places;
      TimesStep(0, vol.sectsFat);
      var wsect, nf := winsect, vol.nFats;
      while nf > 1
        invariant 1 <= nf <= vol.nFats && wsect == winsect + Times(vol.nFats - nf, vol.sectsFat) && |disk| == vol.size
        invariant forall s | 0 <= s < vol.size :: disk[s] == if s in Places(vol, winsect, vol.nFats - nf
            + 1) then win[..] else old(disk)[s]
      {
        ghost var n := vol.nFats - nf + 1;
        TimesStep(n - 1, vol.sectsFat);
        PlaceInDrive(vol, winsect, n);
        NextPlace(vol, winsect, n);
        wsect := wsect + vol.sectsFat;
        disk := disk[wsect := win[..]];
        nf := nf - 1;
      }
    }

    /** Writing back a dirty window: to its sector, and to the places of this
        sector in all copies if it is one of the table. Copies that agree still do. */
    method FlushWindow()
      requires WinOk() && wflag
      modifies `disk, `wflag
      ensures WinOk() && !wflag && See() == old(See())
      ensures forall s | 0 <= s < vol.size ::
                disk[s] == if s == winsect || (vol.InTable(winsect)
                    && s in Places(vol, winsect, vol.nFats)) then win[..] else old(disk)[s]
    {
      hide Times, Places;
      ghost var d0 := disk;
      FirstPlace(vol, winsect);
      disk := disk[winsect := win[..]];
      wflag := false;
      if winsect < vol.fatbase + vol.sectsFat {
        Reflect();
        if mirrored { AgreeAfter(d0, disk, vol, win[..], winsect); }
        PlacesHidden(vol, winsect);
      } else {
        forall s: nat | s < vol.size && vol.InCopies(s)
          ensures disk[s] == d0[s] && disk[s - vol.sectsFat] == d0[s - vol.sectsFat] {}
      }
      assert See() == old(See());
    }

    /** Writes back a dirty window if another sector is wanted, and shows that sector. */
    method MoveWindow(sector: nat)
      requires WinOk() && sector < vol.size && !vol.InCopies(sector)
      modifies this`disk, this`wflag, this`winsect, win
      ensures WinOk() && See() == old(See())
      ensures sector != 0 ==> winsect == sector && win[..] == See()[sector]
      ensures sector == 0 ==> winsect == old(winsect) && !wflag && win[..] == old(win[..])
      ensures sector == old(winsect) ==> wflag == old(wflag)
      ensures sector != old(winsect) ==> !wflag
    {
      if winsect != sector {
        if wflag {
          FlushWindow();
        }
        if sector != 0 {
          ghost var v := See();
          forall i | 0 <= i < SS { win[i] := disk[sector][i]; }
          assert win[..] == disk[sector];
          winsect := sector;
          assert See() == v;
        }
      }
    }

    /** A byte of the table that the window shows is changed in the window. */
    method Poke(k: nat, b: Byte)
      requires WinOk() && k < vol.sectsFat * SS && winsect == vol.fatbase + k / SS
      modifies `wflag, win
      ensures WinOk() && See() == PutByte(old(See()), vol, k, b)
    {
      hide Times;
      ByteSector(vol, k);
      ghost var v := See();
      win[k % SS] := b;
      wflag := true;
      assert win[..] == v[winsect][k % SS := b];
    }

    lemma Peek(k: nat)
      requires WinOk() && k < vol.sectsFat * SS && winsect == vol.fatbase + k / SS
      ensures HasTable(See(), vol) && win[k % SS] == TableByte(See(), vol, k)
    {
      hide Times;
      ByteSector(vol, k);
      assert win[k % SS] == win[..][k % SS];
    }

    /** Byte `k` of the table, brought into the window. */
    method Fetch(k: nat) returns (b: Byte)
      requires WinOk() && k < vol.sectsFat * SS
      modifies this`disk, this`wflag, this`winsect, win
      ensures WinOk() && See() == old(See()) && HasTable(See(), vol)
      ensures winsect == vol.fatbase + k / SS && b == TableByte(See(), vol, k)
    {
      hide Times, Volume.Ok;
      ByteSector(vol, k);
      MoveWindow(vol.fatbase + k / SS);
      Peek(k);
      b := win[k % SS];
    }

    /** get_fat: 1 for a cluster number out of range, else the entry. */
    method GetFat(clst: nat) returns (r: nat)
      requires WinOk()
      modifies this`disk, this`wflag, this`winsect, win
      ensures WinOk() && See() == old(See()) && HasTable(See(), vol)
      ensures r == (if 2 <= clst < vol.maxClust then Table(See(), vol)[clst] else 1) && r < 0x1000_0000
    {
      hide Times, Volume.Ok, Entry;
      VolumeHasTable();
      if clst < 2 || clst >= vol.maxClust { return 1; }
      match vol.fatType {
        case Fat12 => r := GetFat12(clst);
        case Fat16 => r := GetFat16(clst);
        case Fat32 => r := GetFat32(clst);
      }
    }

    method GetFat12(clst: nat) returns (r: nat)
      requires WinOk() && vol.fatType == Fat12 && clst < vol.maxClust
      modifies this`disk, this`wflag, this`winsect, win
      ensures WinOk() && See() == old(See()) && HasTable(See(), vol) && r == Entry(See(), vol, clst) && r < 0x1000_0000
    {
      hide Times, Volume.Ok, TableByte, Entry;
      VolumeHasTable();
      Get12(See(), vol, clst);
      var bc := clst + clst / 2;
      var lo: nat := Fetch(bc);
      var hi: nat := Fetch(bc + 1);
      var wc := lo + 256 * hi;
      r := if clst % 2 == 1 then wc / 16 else wc % 0x1000;
    }

    method GetFat16(clst: nat) returns (r: nat)
      requires WinOk() && vol.fatType == Fat16 && clst < vol.maxClust
      modifies this`disk, this`wflag, this`winsect, win
      ensures WinOk() && See() == old(See()) && HasTable(See(), vol) && r == Entry(See(), vol, clst) && r < 0x1000_0000
    {
      hide Times, Volume.Ok, TableByte, Entry;
      TableFits(vol);
      SameSector2(clst);
      ByteSector(vol, 2 * clst);
      MoveWindow(vol.fatbase + clst / (SS / 2));
      Peek(2 * clst);
      Peek(2 * clst + 1);
      var i := clst % 0x1_0000 * 2 % SS;
      var b0: nat, b1: nat := win[i], win[i + 1];
      r := b0 + 0x100 * b1;
      Entry16(See(), vol, clst);
    }

    method GetFat32(clst: nat) returns (r: nat)
      requires WinOk() && vol.fatType == Fat32 && clst < vol.maxClust
      modifies this`disk, this`wflag, this`winsect, win
      ensures WinOk() && See() == old(See()) && HasTable(See(), vol) && r == Entry(See(), vol, clst) && r < 0x1000_0000
    {
      hide Times, Volume.Ok, TableByte, Entry;
      TableFits(vol);
      SameSector4(clst, 0);
      SameSector4(clst, 1);
      SameSector4(clst, 2);
      SameSector4(clst, 3);
      ByteSector(vol, 4 * clst);
      MoveWindow(vol.fatbase + clst / (SS / 4));
      Peek(4 * clst);
      Peek(4 * clst + 1);
      Peek(4 * clst + 2);
      Peek(4 * clst + 3);
      var i := clst % 0x1_0000 * 4 % SS;
      var b0: nat, b1: nat, b2: nat, b3: nat := win[i], win[i + 1], win[i + 2], win[i + 3];
      r := (b0 + 0x100 * b1 + 0x1_0000 * b2 + 0x100_0000 * b3) % 0x1000_0000;
      Entry32(See(), vol, clst);
    }

    lemma VolumeHasTable()
      requires WinOk()
      ensures HasTable(See(), vol)
    {
      hide Times;
    }

    /** put_fat: one entry of the table changes, whatever the width of entries. */
    method PutFat(clst: nat, val: nat) returns (res: FResult)
      requires WinOk() && val < 0x1_0000_0000
      modifies this`disk, this`wflag, this`winsect, win
      ensures WinOk() && HasTable(See(), vol) && HasTable(old(See()), vol)
      ensures res == if 2 <= clst < vol.maxClust then Ok else IntErr
      ensures res == IntErr ==> See() == old(See())
      ensures res == Ok ==> Table(See(), vol) == Table(old(See()), vol)[clst := val % vol.Mask()]
      ensures forall s | 0 <= s < vol.size && !vol.InTable(s) :: See()[s] == old(See())[s]
    {
      hide Times, Volume.Ok, TableByte, PutByte, Table, Put12, Put16, Put32;
      VolumeHasTable();
      if clst < 2 || clst >= vol.maxClust { return IntErr; }
      ghost var v := See();
      match vol.fatType {
        case Fat12 => PutFat12(clst, val);
        case Fat16 => PutFat16(clst, val);
        case Fat32 => PutFat32(clst, val);
      }
      PutEntry(v, vol, clst, val);
      return Ok;
    }

    method PutFat12(clst: nat, val: nat)
      requires WinOk() && vol.fatType == Fat12 && clst < vol.maxClust
      modifies this`disk, this`wflag, this`winsect, win
      ensures WinOk() && HasTable(old(See()), vol) && See() == Put12(old(See()), vol, clst, val)
    {
      hide Times, Volume.Ok, TableByte, PutByte;
      VolumeHasTable();
      TableFits(vol);
      var bc := clst + clst / 2;
      var p := Fetch(bc);
      Poke(bc, if clst % 2 == 1 then p % 16 + val % 16 * 16 else val % 256);
      bc := bc + 1;
      p := Fetch(bc);
      Poke(bc, if clst % 2 == 1 then val / 16 % 256 else p / 16 * 16 + val / 256 % 16);
    }

    method PutFat16(clst: nat, val: nat)
      requires WinOk() && vol.fatType == Fat16 && clst < vol.maxClust
      modifies this`disk, this`wflag, this`winsect, win
      ensures WinOk() && HasTable(old(See()), vol) && See() == Put16(old(See()), vol, clst, val)
    {
      hide Times, Volume.Ok, TableByte, PutByte;
      VolumeHasTable();
      TableFits(vol);
      SameSector2(clst);
      ByteSector(vol, 2 * clst);
      MoveWindow(vol.fatbase + clst / (SS / 2));
      Poke(2 * clst, val % 256);
      Poke(2 * clst + 1, val / 256 % 256);
    }

    method PutFat32(clst: nat, val: nat)
      requires WinOk() && vol.fatType == Fat32 && clst < vol.maxClust
      modifies this`disk, this`wflag, this`winsect, win
      ensures WinOk() && HasTable(old(See()), vol) && See() == Put32(old(See()), vol, clst, val)
    {
      hide Times, Volume.Ok, TableByte, PutByte;
      VolumeHasTable();
      TableFits(vol);
      SameSector4(clst, 0);
      SameSector4(clst, 1);
      SameSector4(clst, 2);
      SameSector4(clst, 3);
      ByteSector(vol, 4 * clst);
      MoveWindow(vol.fatbase + clst / (SS / 4));
      Poke(4 * clst, val % 256);
      Poke(4 * clst + 1, val / 0x100 % 256);
      Poke(4 * clst + 2, val / 0x1_0000 % 256);
      Poke(4 * clst + 3, val / 0x100_0000 % 256);
    }
  }

  lemma {:induction false} Entry16(v: View, vol: Volume, c: nat)
    requires vol.Ok() && HasTable(v, vol) && vol.fatType == Fat16 && c < vol.maxClust && 2 * c + 1 < vol.sectsFat * SS
    ensures Entry(v, vol, c) == TableByte(v, vol, 2 * c) + 0x100 * TableByte(v, vol, 2 * c + 1)
  {
  }

  lemma {:induction false} Entry32(v: View, vol: Volume, c: nat)
    requires vol.Ok() && HasTable(v, vol) && vol.fatType == Fat32 && c < vol.maxClust && 4 * c + 3 < vol.sectsFat * SS
    ensures Entry(v, vol, c) == (TableByte(v, vol, 4 * c) + 0x100 * TableByte(v, vol, 4 * c + 1)
        + 0x1_0000 * TableByte(v, vol, 4 * c + 2)
                                 + 0x100_0000 * TableByte(v, vol, 4 * c + 3)) % 0x1000_0000
  {
  }
}
