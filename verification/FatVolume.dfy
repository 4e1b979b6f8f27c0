/** The layout of a FAT volume (modules/fatfs/ff.c): sectors, the three kinds of
    file allocation table, and cluster chains. */
module FatVolume {
  import opened Common

  type DWord = n: int | 0 <= n < 0x1_0000_0000

  const SS: nat := 512

  type Sector = s: seq<Byte> | |s| == 512 witness seq(512, _ => 0)

  datatype FatType = Fat12 | Fat16 | Fat32

  function Times(n: nat, k: nat): nat {
    n * k
  }

  lemma {:induction false} TimesStep(n: nat, k: nat)
    ensures Times(n + 1, k) == Times(n, k) + k && Times(1, k) == k
  {
  }

  lemma {:induction false} TimesIs(n: nat, k: nat)
    ensures Times(n, k) == n * k
  {
  }

  lemma {:induction false} TimesAtLeast(n: nat, k: nat)
    requires n > 0
    ensures Times(n, k) >= k
  {
    assert n * k == (n - 1) * k + k;
  }

  lemma {:induction false} TimesMono(a: nat, b: nat, k: nat)
    requires a <= b
    ensures Times(a, k) <= Times(b, k)
  {
    assert b * k == a * k + (b - a) * k;
  }

  /** What mounting reads from the boot sector, on a drive of `size` sectors. */
  datatype Volume = Volume(fatType: FatType, csize: nat, nFats: nat, sectsFat: nat, maxClust: nat, fatbase: nat,
      database: nat, size: nat) {

    /** The sub-type follows from the number of clusters, the table has room
        for all of them, and the areas of the volume lie one after the other. */
    ghost predicate Ok() {
      && 2 < maxClust && 1 <= csize <= 128 && 1 <= nFats && 1 <= fatbase
      && fatType == (if maxClust >= 0xFFF7 then Fat32 else if maxClust >= 0xFF7 then Fat16 else Fat12)
      && maxClust <= 0x0FFFFFF7
      && TableBytes() <= sectsFat * SS
      && TableEnd() <= database && fatbase + sectsFat <= TableEnd()
      && database + Times(maxClust - 2, csize) <= size
    }

    function TableBytes(): nat {
      match fatType
      case Fat12 => (3 * maxClust + 1) / 2
      case Fat16 => 2 * maxClust
      case Fat32 => 4 * maxClust
    }

    /** The end of all copies of the table. */
    function TableEnd(): nat {
      fatbase + Times(nFats, sectsFat)
    }

    /** A sector of the first copy of the table. */
    predicate InTable(s: nat) {
      fatbase <= s < fatbase + sectsFat
    }

    /** A sector of one of the other copies. */
    predicate InCopies(s: nat) {
      fatbase + sectsFat <= s < TableEnd()
    }

    /** Values are kept to 12, 16 or 28 bits. */
    function Mask(): nat {
      match fatType
      case Fat12 => 0x1000
      case Fat16 => 0x1_0000
      case Fat32 => 0x1000_0000
    }

    /** clust2sect */
    function ClusterSector(c: nat): nat {
      if 2 <= c < maxClust then Times(c - 2, csize) + database else 0
    }
  }

  /** The first cluster lies where the data area starts, and each next one a cluster
      further on. */
  lemma {:induction false} ClusterPlace(vol: Volume, c: nat)
    requires vol.Ok()
    ensures vol.ClusterSector(2) == vol.database && vol.ClusterSector(0) == vol.ClusterSector(1) == 0
    ensures 2 <= c < vol.maxClust ==> vol.ClusterSector(c) == vol.database + (c - 2) * vol.csize
    ensures 2 <= c < vol.maxClust - 1 ==> vol.ClusterSector(c + 1) == vol.ClusterSector(c) + vol.csize
    ensures c >= vol.maxClust ==> vol.ClusterSector(c) == 0
  {
    TimesIs(0, vol.csize);
    if 2 <= c {
      TimesIs(c - 2, vol.csize);
      TimesStep(c - 2, vol.csize);
    }
    hide Times;
  }

  /** Contents of all sectors, as the program sees them. */
  type View = seq<Sector>

  predicate HasTable(v: View, vol: Volume) {
    vol.fatbase + vol.sectsFat <= |v|
  }

  /** Byte `k` of the table. */
  function TableByte(v: View, vol: Volume, k: nat): Byte
    requires HasTable(v, vol) && k < vol.sectsFat * SS
  {
    v[vol.fatbase + k / SS][k % SS]
  }

  /** Half a byte of the table, the low one first. */
  function Nibble(v: View, vol: Volume, k: nat): nat
    requires HasTable(v, vol) && k / 2 < vol.sectsFat * SS
  {
    if k % 2 == 0 then TableByte(v, vol, k / 2) % 16 else TableByte(v, vol, k / 2) / 16
  }

  /** Entry `c`: three nibbles, two bytes, or 28 bits of four bytes, low parts first. */
  function Entry(v: View, vol: Volume, c: nat): nat
    requires vol.Ok() && HasTable(v, vol) && c < vol.maxClust
  {
    match vol.fatType
    case Fat12 => Nibble(v, vol, 3 * c) + 16 * Nibble(v, vol, 3 * c + 1) + 256 * Nibble(v, vol, 3 * c + 2)
    case Fat16 => TableByte(v, vol, 2 * c) + 0x100 * TableByte(v, vol, 2 * c + 1)
    case Fat32 => (TableByte(v, vol, 4 * c) + 0x100 * TableByte(v, vol, 4 * c + 1) + 0x1_0000 * TableByte(v, vol,
        4 * c + 2)
                   + 0x100_0000 * TableByte(v, vol, 4 * c + 3)) % 0x1000_0000
  }

  /** The table as an array of entries. */
  function Table(v: View, vol: Volume): (t: seq<nat>)
    requires vol.Ok() && HasTable(v, vol)
    ensures |t| == vol.maxClust
  {
    seq(vol.maxClust, c requires 0 <= c < vol.maxClust => Entry(v, vol, c))
  }

  /** Writing byte `k` of the table. */
  function PutByte(v: View, vol: Volume, k: nat, b: Byte): (r: View)
    requires HasTable(v, vol) && k < vol.sectsFat * SS
    ensures |r| == |v|
  {
    v[vol.fatbase + k / SS := v[vol.fatbase + k / SS][k % SS := b]]
  }

  lemma {:induction false} PutByteSame(v: View, vol: Volume, k: nat, b: Byte, j: nat)
    requires HasTable(v, vol) && k < vol.sectsFat * SS && j < vol.sectsFat * SS
    ensures HasTable(PutByte(v, vol, k, b), vol)
    ensures TableByte(PutByte(v, vol, k, b), vol, j) == if j == k then b else TableByte(v, vol, j)
  {
    if j != k && j / SS == k / SS { assert j % SS != k % SS; }
  }

  /** put_fat on a 12-bit table: the two bytes that hold entry `c`. */
  function Put12(v: View, vol: Volume, c: nat, val: nat): View
    requires vol.Ok() && HasTable(v, vol) && vol.fatType == Fat12 && c < vol.maxClust
  {
    var bc := c + c / 2;
    var b0 := TableByte(v, vol, bc);
    var v1 := PutByte(v, vol, bc, if c % 2 == 1 then b0 % 16 + val % 16 * 16 else val % 256);
    var b1 := TableByte(v1, vol, bc + 1);
    PutByte(v1, vol, bc + 1, if c % 2 == 1 then val / 16 % 256 else b1 / 16 * 16 + val / 256 % 16)
  }

  /** ST_WORD and ST_DWORD. */
  function Put16(v: View, vol: Volume, c: nat, val: nat): View
    requires vol.Ok() && HasTable(v, vol) && vol.fatType == Fat16 && c < vol.maxClust
  {
    PutByte(PutByte(v, vol, 2 * c, val % 256), vol, 2 * c + 1, val / 256 % 256)
  }

  function Put32(v: View, vol: Volume, c: nat, val: nat): View
    requires vol.Ok() && HasTable(v, vol) && vol.fatType == Fat32 && c < vol.maxClust
  {
    PutByte(PutByte(PutByte(PutByte(v, vol, 4 * c, val % 256), vol, 4 * c + 1, val / 0x100 % 256),
                    vol, 4 * c + 2, val / 0x1_0000 % 256), vol, 4 * c + 3, val / 0x100_0000 % 256)
  }

  function Put(v: View, vol: Volume, c: nat, val: nat): View
    requires vol.Ok() && HasTable(v, vol) && c < vol.maxClust
  {
    match vol.fatType
    case Fat12 => Put12(v, vol, c, val)
    case Fat16 => Put16(v, vol, c, val)
    case Fat32 => Put32(v, vol, c, val)
  }

  /** Writing an entry changes it, and no other: also when two entries share a
      byte or one lies in two sectors. */
  lemma {:induction false} PutEntry(v: View, vol: Volume, c: nat, val: nat)
    requires vol.Ok() && HasTable(v, vol) && c < vol.maxClust && val < 0x1_0000_0000
    ensures |Put(v, vol, c, val)| == |v| && Table(Put(v, vol, c, val), vol) == Table(v, vol)[c := val % vol.Mask()]
    ensures forall s | 0 <= s < |v| && !vol.InTable(s) :: Put(v, vol, c, val)[s] == v[s]
  {
    var v' := Put(v, vol, c, val);
    forall j | 0 <= j < vol.maxClust
      ensures Entry(v', vol, j) == if j == c then val % vol.Mask() else Entry(v, vol, j)
    {
      match vol.fatType
      case Fat12 => PutEntry12(v, vol, c, val, j);
      case Fat16 => PutEntry16(v, vol, c, val, j);
      case Fat32 => PutEntry32(v, vol, c, val, j);
    }
  }

  lemma {:induction false} TableFits(vol: Volume)
    requires vol.Ok()
    ensures vol.TableBytes() <= vol.sectsFat * SS
  {
  }

  lemma {:induction false} PutEntry16(v: View, vol: Volume, c: nat, val: nat, j: nat)
    requires vol.Ok() && HasTable(v, vol) && vol.fatType == Fat16 && c < vol.maxClust && j < vol.maxClust
    ensures Entry(Put16(v, vol, c, val), vol, j) == if j == c then val % 0x1_0000 else Entry(v, vol, j)
  {
    hide PutByte, TableByte, Volume.Ok;
    TableFits(vol);
    var v1 := PutByte(v, vol, 2 * c, val % 256);
    forall k: nat | k == 2 * j || k == 2 * j + 1 ensures TableByte(Put16(v, vol, c, val), vol, k)
        == if k == 2 * c then val % 256 else if k == 2 * c + 1 then val / 256 % 256 else TableByte(v, vol, k) {
      PutByteSame(v, vol, 2 * c, val % 256, k);
      PutByteSame(v1, vol, 2 * c + 1, val / 256 % 256, k);
    }
  }

  lemma {:induction false} PutEntry32(v: View, vol: Volume, c: nat, val: nat, j: nat)
    requires vol.Ok() && HasTable(v, vol) && vol.fatType == Fat32 && c < vol.maxClust && j < vol.maxClust
        && val < 0x1_0000_0000
    ensures Entry(Put32(v, vol, c, val), vol, j) == if j == c then val % 0x1000_0000 else Entry(v, vol, j)
  {
    hide PutByte, TableByte, Volume.Ok;
    TableFits(vol);
    FourBytes(v, vol, c, val, 4 * j);
    FourBytes(v, vol, c, val, 4 * j + 1);
    FourBytes(v, vol, c, val, 4 * j + 2);
    FourBytes(v, vol, c, val, 4 * j + 3);
    Split4(val);
  }

  lemma {:induction false} FourBytes(v: View, vol: Volume, c: nat, val: nat, k: nat)
    requires vol.Ok() && HasTable(v, vol) && vol.fatType == Fat32 && c < vol.maxClust && k < vol.sectsFat * SS
    ensures HasTable(Put32(v, vol, c, val), vol)
    ensures TableByte(Put32(v, vol, c, val), vol, k)
      == if k == 4 * c then val % 256 else if k == 4 * c + 1 then val / 0x100 % 256
         else if k == 4 * c + 2 then val / 0x1_0000 % 256 else if k == 4 * c + 3 then val / 0x100_0000 % 256
             else TableByte(v, vol, k)
  {
    hide PutByte, TableByte, Volume.Ok;
    TableFits(vol);
    var v1 := PutByte(v, vol, 4 * c, val % 256);
    var v2 := PutByte(v1, vol, 4 * c + 1, val / 0x100 % 256);
    var v3 := PutByte(v2, vol, 4 * c + 2, val / 0x1_0000 % 256);
    PutByteSame(v, vol, 4 * c, val % 256, k);
    PutByteSame(v1, vol, 4 * c + 1, val / 0x100 % 256, k);
    PutByteSame(v2, vol, 4 * c + 2, val / 0x1_0000 % 256, k);
    PutByteSame(v3, vol, 4 * c + 3, val / 0x100_0000 % 256, k);
  }

  lemma {:induction false} Split4(val: nat)
    requires val < 0x1_0000_0000
    ensures val % 256 + 0x100 * (val / 0x100 % 256) + 0x1_0000 * (val / 0x1_0000 % 256)
        + 0x100_0000 * (val / 0x100_0000 % 256) == val
  {
  }

  lemma {:induction false} PutEntry12(v: View, vol: Volume, c: nat, val: nat, j: nat)
    requires vol.Ok() && HasTable(v, vol) && vol.fatType == Fat12 && c < vol.maxClust && j < vol.maxClust
    ensures Entry(Put12(v, vol, c, val), vol, j) == if j == c then val % 0x1000 else Entry(v, vol, j)
  {
    hide Put12, Nibble, Volume.Ok;
    TableFits(vol);
    PutNibble(v, vol, c, val, 3 * j);
    PutNibble(v, vol, c, val, 3 * j + 1);
    PutNibble(v, vol, c, val, 3 * j + 2);
    if j == c { Split3(val); } else { assert 3 * j + 2 < 3 * c || 3 * j > 3 * c + 2; }
  }

  lemma {:induction false} Split3(val: nat)
    ensures val % 16 + 16 * (val / 16 % 16) + 256 * (val / 256 % 16) == val % 0x1000
  {
    var q1 := val / 16;
    Quarters(val);
    assert q1 / 16 == val / 256 && val / 256 / 16 == val / 0x1000;
    assert val == 16 * q1 + val % 16 && q1 == 16 * (val / 256) + q1 % 16 && val / 256 == 16 * (val / 0x1000)
        + val / 256 % 16;
  }

  lemma {:induction false} Quarters(n: nat)
    ensures n / 16 / 16 == n / 256 && n / 256 / 16 == n / 0x1000
  {
  }

  /** Halves of the bytes put_fat composes. */
  lemma {:induction false} Halves(b: Byte, val: nat)
    ensures (b % 16 + val % 16 * 16) % 16 == b % 16 && (b % 16 + val % 16 * 16) / 16 == val % 16
    ensures val % 256 % 16 == val % 16 && val % 256 / 16 == val / 16 % 16
    ensures val / 16 % 256 % 16 == val / 16 % 16 && val / 16 % 256 / 16 == val / 256 % 16
    ensures (b / 16 * 16 + val / 256 % 16) % 16 == val / 256 % 16 && (b / 16 * 16 + val / 256 % 16) / 16 == b / 16
  {
    var x, y := val / 16, val / 256;
    assert x / 16 == y;
  }

  /** Of all nibbles, exactly the three of entry `c` are written. */
  lemma {:induction false} PutNibble(v: View, vol: Volume, c: nat, val: nat, k: nat)
    requires vol.Ok() && HasTable(v, vol) && vol.fatType == Fat12 && c < vol.maxClust && k < 3 * vol.maxClust
    ensures HasTable(Put12(v, vol, c, val), vol) && k / 2 < vol.sectsFat * SS
    ensures Nibble(Put12(v, vol, c, val), vol, k) == if k == 3 * c then val % 16
        else if k == 3 * c + 1 then val / 16 % 16
                                                      else if k == 3 * c + 2 then val / 256 % 16 else Nibble(v, vol, k)
  {
    hide PutByte, TableByte, Put12, Volume.Ok;
    TableFits(vol);
    var bc := c + c / 2;
    TwoBytes(v, vol, c, val, k / 2);
    Halves(TableByte(v, vol, bc), val);
    Halves(TableByte(v, vol, bc + 1), val);
    WhichNibble(c, k);
  }

  /** Entry `c` starts at the low half of its first byte if `c` is even, else at the high one. */
  lemma {:induction false} WhichNibble(c: nat, k: nat)
    ensures var bc := c + c / 2; if c % 2 == 0 then 3 * c == 2 * bc else 3 * c == 2 * bc + 1
    ensures k / 2 == c + c / 2 <==> k == 2 * (c + c / 2) || k == 2 * (c + c / 2) + 1
    ensures k / 2 == c + c / 2 + 1 <==> k == 2 * (c + c / 2) + 2 || k == 2 * (c + c / 2) + 3
  {
  }

  lemma {:induction false} TwoBytes(v: View, vol: Volume, c: nat, val: nat, k: nat)
    requires vol.Ok() && HasTable(v, vol) && vol.fatType == Fat12 && c < vol.maxClust && k < vol.sectsFat * SS
    ensures c + c / 2 + 1 < vol.sectsFat * SS && HasTable(Put12(v, vol, c, val), vol)
    ensures TableByte(Put12(v, vol, c, val), vol, k)
      == if k == c + c / 2 then (if c % 2 == 1 then TableByte(v, vol, k) % 16 + val % 16 * 16 else val % 256)
         else if k == c + c / 2
             + 1 then (if c % 2 == 1 then val / 16 % 256 else TableByte(v, vol, k) / 16 * 16 + val / 256 % 16)
         else TableByte(v, vol, k)
  {
    hide PutByte, TableByte, Volume.Ok;
    TableFits(vol);
    var bc := c + c / 2;
    var b0 := TableByte(v, vol, bc);
    var n0: Byte := if c % 2 == 1 then b0 % 16 + val % 16 * 16 else val % 256;
    var v1 := PutByte(v, vol, bc, n0);
    PutByteSame(v, vol, bc, n0, k);
    PutByteSame(v, vol, bc, n0, bc + 1);
    var b1 := TableByte(v1, vol, bc + 1);
    var n1: Byte := if c % 2 == 1 then val / 16 % 256 else b1 / 16 * 16 + val / 256 % 16;
    PutByteSame(v1, vol, bc + 1, n1, k);
  }

  /** get_fat on a 12-bit table reads two bytes and keeps half of one. */
  lemma {:induction false} Get12(v: View, vol: Volume, c: nat)
    requires vol.Ok() && HasTable(v, vol) && vol.fatType == Fat12 && c < vol.maxClust
    ensures c + c / 2 + 1 < vol.sectsFat * SS
    ensures Entry(v, vol, c) == var wc := TableByte(v, vol, c + c / 2) + 256 * TableByte(v, vol, c + c / 2 + 1);
      if c % 2 == 1 then wc / 16 else wc % 0x1000
  {
    hide TableByte, Volume.Ok;
    TableFits(vol);
    var b0: int, b1: int := TableByte(v, vol, c + c / 2), TableByte(v, vol, c + c / 2 + 1);
    WhichNibble(c, 3 * c);
    WhichNibble(c, 3 * c + 1);
    WhichNibble(c, 3 * c + 2);
    assert (b0 + 256 * b1) / 16 == b0 / 16 + 16 * b1;
    assert (b0 + 256 * b1) % 0x1000 == b0 + 256 * (b1 % 16);
  }

  /** An entry by the bytes of the sectors that hold it: one and a half bytes ... */
  lemma {:induction false} Bytes12(v: View, vol: Volume, c: nat)
    requires vol.Ok() && HasTable(v, vol) && c < vol.maxClust && vol.fatType == Fat12
    ensures var k := c + c / 2;
      && (k + 1) / 512 < vol.sectsFat
      && var b0: int, b1: int := v[vol.fatbase + k / 512][k % 512], v[vol.fatbase + (k + 1) / 512][(k + 1) % 512];
         Entry(v, vol, c) == if c % 2 == 0 then b0 + 0x100 * (b1 % 0x10) else b0 / 0x10 + 0x10 * b1
  {
    hide Volume.Ok, Entry, TableByte;
    Get12(v, vol, c);
    TableByteAt(v, vol, c + c / 2);
    TableByteAt(v, vol, c + c / 2 + 1);
    Word12(TableByte(v, vol, c + c / 2), TableByte(v, vol, c + c / 2 + 1));
  }

  /** ... two ... */
  lemma {:induction false} Bytes16(v: View, vol: Volume, c: nat)
    requires vol.Ok() && HasTable(v, vol) && c < vol.maxClust && vol.fatType == Fat16
    ensures var s, o := c / 256, c % 256 * 2;
      && s < vol.sectsFat
      && var b0: int, b1: int := v[vol.fatbase + s][o], v[vol.fatbase + s][o + 1];
         Entry(v, vol, c) == b0 + 0x100 * b1
  {
    hide Volume.Ok;
    TableFits(vol);
    SameSector2(c);
    assert 2 * c == 512 * (c / 256) + c % 256 * 2;
    ModMultiple(c / 256, c % 256 * 2);
    ModMultiple(c / 256, c % 256 * 2 + 1);
  }

  /** ... or four, of which the top four bits are not its own. */
  lemma {:induction false} Bytes32(v: View, vol: Volume, c: nat)
    requires vol.Ok() && HasTable(v, vol) && c < vol.maxClust && vol.fatType == Fat32
    ensures var s, o := c / 128, c % 128 * 4;
      && s < vol.sectsFat
      && var b := v[vol.fatbase + s];
         var b0: int, b1: int, b2: int, b3: int := b[o], b[o + 1], b[o + 2], b[o + 3];
         Entry(v, vol, c) == b0 + 0x100 * b1 + 0x1_0000 * b2 + 0x100_0000 * (b3 % 0x10)
  {
    hide Volume.Ok, TableByte;
    TableFits(vol);
    Quad(c, 0);
    Quad(c, 1);
    Quad(c, 2);
    Quad(c, 3);
    TableByteAt(v, vol, 4 * c);
    TableByteAt(v, vol, 4 * c + 1);
    TableByteAt(v, vol, 4 * c + 2);
    TableByteAt(v, vol, 4 * c + 3);
    TopBits(TableByte(v, vol, 4 * c), TableByte(v, vol, 4 * c + 1), TableByte(v, vol, 4 * c + 2),
      TableByte(v, vol, 4 * c + 3));
  }

  lemma {:induction false} Word12(b0: int, b1: int)
    requires 0 <= b0 < 256 && 0 <= b1 < 256
    ensures (b0 + 256 * b1) / 16 == b0 / 16 + 16 * b1 && (b0 + 256 * b1) % 0x1000 == b0 + 256 * (b1 % 16)
  {
  }

  lemma {:induction false} Quad(c: nat, i: nat)
    requires i < 4
    ensures (4 * c + i) / 512 == c / 128 && (4 * c + i) % 512 == c % 128 * 4 + i
  {
    assert 4 * c + i == 512 * (c / 128) + (c % 128 * 4 + i);
    ModMultiple(c / 128, c % 128 * 4 + i);
  }

  lemma {:induction false} TableByteAt(v: View, vol: Volume, k: nat)
    requires HasTable(v, vol) && k < vol.sectsFat * SS
    ensures k / 512 < vol.sectsFat && TableByte(v, vol, k) == v[vol.fatbase + k / 512][k % 512]
  {
  }

  lemma {:induction false} TopBits(b0: Byte, b1: Byte, b2: Byte, b3: Byte)
    ensures (b0 + 0x100 * b1 + 0x1_0000 * b2 + 0x100_0000 * b3) % 0x1000_0000
        == b0 + 0x100 * b1 + 0x1_0000 * b2 + 0x100_0000 * (b3 % 0x10)
  {
    var low, hi := b0 + 0x100 * b1 + 0x1_0000 * b2 + 0x100_0000 * (b3 % 0x10), b3 / 0x10;
    assert b0 + 0x100 * b1 + 0x1_0000 * b2 + 0x100_0000 * b3 == low + 0x1000_0000 * hi;
  }

  /** Where a byte of the table is. */
  lemma {:induction false} ByteSector(vol: Volume, k: nat)
    requires vol.Ok() && k < vol.sectsFat * SS
    ensures vol.InTable(vol.fatbase + k / SS) && vol.fatbase + k / SS < vol.size && !vol.InCopies(vol.fatbase + k / SS)
        && vol.fatbase + k / SS != 0
  {
    hide Times;
    assert k / SS < vol.sectsFat;
  }

  lemma {:induction false} ModMultiple(a: nat, m: nat)
    ensures (SS * a + m) % SS == m % SS && (SS * a + m) / SS == a + m / SS
  {
  }

  /** Entries of two and four bytes lie in one sector; indices are taken to 16 bits first. */
  lemma {:induction false} SameSector2(c: nat)
    ensures (2 * c) / SS == c / (SS / 2) && (2 * c + 1) / SS == c / (SS / 2)
    ensures (c % 0x1_0000 * 2) % SS == 2 * c % SS && (2 * c + 1) % SS == 2 * c % SS + 1
  {
    var q, r := c / 256, c % 256;
    assert 2 * c == SS * q + 2 * r && 2 * c + 1 == SS * q + (2 * r + 1);
    ModMultiple(q, 2 * r);
    ModMultiple(q, 2 * r + 1);
    var x, y := c / 0x1_0000, c % 0x1_0000;
    assert 2 * c == SS * (x * 256) + y * 2;
    ModMultiple(x * 256, y * 2);
  }

  lemma {:induction false} SameSector4(c: nat, i: nat)
    requires i < 4
    ensures (4 * c + i) / SS == c / (SS / 4) && (4 * c + i) % SS == 4 * c % SS + i
    ensures (c % 0x1_0000 * 4) % SS == 4 * c % SS
  {
    var q, r := c / 128, c % 128;
    assert 4 * c + i == SS * q + (4 * r + i);
    ModMultiple(q, 4 * r + i);
    ModMultiple(q, 4 * r);
    var x, y := c / 0x1_0000, c % 0x1_0000;
    assert 4 * c == SS * (x * 512) + y * 4;
    ModMultiple(x * 512, y * 4);
  }
}
