/** Long file names in directory entries (modules/fatfs/ff.c; Microsoft FAT32 File
    System Specification 1.03, section "FAT Long Directory Entries"). */
module FatLfn {
  import opened Common

  type Word = x: int | 0 <= x < 0x1_0000

  /** _MAX_LFN: the working buffer has one place more. */
  const MAX_LFN: nat := 30
  const FILL: Word := 0xFFFF
  const AM_LFN: Byte := 0x0F

  /** LfnOfs: where the characters of an entry lie. */
  function Ofs(s: nat): nat {
    if s < 5 then 1 + 2 * s else if s < 11 then 14 + 2 * (s - 5) else 28 + 2 * (s - 11)
  }

  function LdWord(d: seq<Byte>, o: nat): Word
    requires o + 1 < |d|
  {
    var lo: int, hi: int := d[o], d[o + 1];
    lo + 256 * hi
  }

  /** Character `s` of an entry. */
  function Char(d: seq<Byte>, s: nat): Word
    requires |d| == 32 && s < 13
  {
    LdWord(d, Ofs(s))
  }

  /** The order an entry gives, and whether it is the last segment. */
  function Order(b: Byte): nat {
    var x: int := b;
    x % 64
  }

  /** cmp_lfn looks at the top bit of the order too. */
  function CmpOrder(b: Byte): nat {
    var x: int := b;
    x % 64 + x / 128 * 128
  }

  predicate IsLast(b: Byte) {
    var x: int := b;
    x / 64 % 2 == 1
  }

  /** The places of the characters, and the bits of the order. */
  lemma {:induction false} Places(d: seq<Byte>, n: nat)
    requires |d| == 32 && n < 64
    ensures [Ofs(0), Ofs(1), Ofs(2), Ofs(3), Ofs(4), Ofs(5), Ofs(6)] == [1, 3, 5, 7, 9, 14, 16]
    ensures [Ofs(7), Ofs(8), Ofs(9), Ofs(10), Ofs(11), Ofs(12)] == [18, 20, 22, 24, 28, 30]
    ensures Char(d, 0) == (d[1] as int) + 256 * (d[2] as int) && Char(d, 12) == (d[30] as int) + 256 * (d[31] as int)
    ensures Order(n) == Order(n + 64) == Order(n + 128) == Order(n + 192) == n
    ensures CmpOrder(n) == CmpOrder(n + 64) == n && CmpOrder(n + 128) == CmpOrder(n + 192) == n + 128
    ensures !IsLast(n) && IsLast(n + 64) && !IsLast(n + 128) && IsLast(n + 192)
  {
  }

  // ----- Names and their segments -----

  /** No unit of a name is a terminator or a filler. */
  predicate Name(name: seq<Word>) {
    name != [] && forall i | 0 <= i < |name| :: name[i] != 0 && name[i] != FILL
  }

  /** A name in the working buffer; what follows the terminator is stale. */
  predicate Holds(buf: seq<Word>, name: seq<Word>) {
    |name| < |buf| && (forall i | 0 <= i < |name| :: buf[i] == name[i]) && buf[|name|] == 0
  }

  /** The name, a terminator, and fillers. */
  function Unit(name: seq<Word>, i: nat): Word {
    if i < |name| then name[i] else if i == |name| then 0 else FILL
  }

  function Segments(name: seq<Word>): nat {
    (|name| + 12) / 13
  }

  /** The entry holds segment `ord` of the name, counted from 1. */
  predicate Segment(d: seq<Byte>, name: seq<Word>, ord: nat, sum: Byte) {
    && |d| == 32 && 1 <= ord <= Segments(name) && ord < 64
    && d[0] == (if ord == Segments(name) then ord + 64 else ord) && d[11] == AM_LFN && d[12] == 0 && d[13] == sum
        && d[26] == 0 && d[27] == 0
    && forall s | 0 <= s < 13 :: Char(d, s) == Unit(name, (ord - 1) * 13 + s)
  }

  /** Byte by byte: order, five characters, attribute, type, checksum, six characters, no
      cluster, two characters; the name, then a zero, then all ones. */
  lemma {:induction false} SegmentBytes(d: seq<Byte>, name: seq<Word>, ord: nat, sum: Byte, s: nat)
    requires Segment(d, name, ord, sum) && s < 13
    ensures |d| == 32 && d[0] == (if 13 * ord >= |name| then 0x40 + ord else ord)
    ensures d[11] == 0x0F && d[12] == 0 && d[13] == sum && d[26] == 0 && d[27] == 0
    ensures var o, i := [1, 3, 5, 7, 9, 14, 16, 18, 20, 22, 24, 28, 30][s], 13 * (ord - 1) + s;
      (d[o] as int) + 256 * (d[o + 1] as int) == if i < |name| then name[i] else if i == |name| then 0 else 0xFFFF
  {
    assert Char(d, s) == Unit(name, (ord - 1) * 13 + s);
  }

  // ----- Writing -----

  /** ST_WORD at the place of character `s`. */
  method StChar(dir: array<Byte>, s: nat, w: Word)
    requires dir.Length == 32 && s < 13
    modifies dir
    ensures Char(dir[..], s) == w && forall t | 0 <= t < 13 && t != s :: Char(dir[..], t) == Char(old(dir[..]), t)
    ensures forall j | 0 <= j < 32 && (j == 0 || 11 <= j < 14 || 26 <= j < 28) :: dir[j] == old(dir[j])
  {
    dir[Ofs(s)] := w % 256;
    dir[Ofs(s) + 1] := w / 256;
  }

  /** fit_lfn */
  method FitLfn(lfnbuf: array<Word>, dir: array<Byte>, ord: nat, sum: Byte, ghost name: seq<Word>)
    requires Name(name) && Holds(lfnbuf[..], name) && 1 <= ord <= Segments(name) && ord < 64 && dir.Length == 32
    modifies dir
    ensures Segment(dir[..], name, ord, sum)
  {
    hide Char, Ofs, LdWord;
    dir[13], dir[11], dir[12], dir[26], dir[27] := sum, AM_LFN, 0, 0, 0;
    var i := (ord - 1) * 13;
    ghost var start := i;
    var s, wc := 0, 0;
    while s < 13
      invariant 0 <= s <= 13 && i == if start + s <= |name| then start + s else |name| + 1
      invariant s == 0 ==> wc == 0
      invariant s > 0 ==> wc == if start + s - 1 >= |name| then FILL else name[start + s - 1]
      invariant forall t | 0 <= t < s :: Char(dir[..], t) == Unit(name, start + t)
      invariant dir[13] == sum && dir[11] == AM_LFN && dir[12] == 0 && dir[26] == 0 && dir[27] == 0
    {
      if wc != FILL {
        wc := lfnbuf[i];
        i := i + 1;
      }
      StChar(dir, s, wc);
      if wc == 0 { wc := FILL; }
      s := s + 1;
    }
    ghost var before := dir[..];
    var last := wc == FILL || lfnbuf[i] == 0;
    dir[0] := if last then ord + 64 else ord;
    OnlyOrd(before, dir[..]);
  }

  lemma {:induction false} OnlyOrd(d: seq<Byte>, d': seq<Byte>)
    requires |d| == |d'| == 32 && forall j | 1 <= j < 32 :: d'[j] == d[j]
    ensures forall t | 0 <= t < 13 :: Char(d', t) == Char(d, t)
  {
  }

  // ----- Reading -----

  /** The first terminator in an entry, or 13. */
  function Terminator(d: seq<Byte>, s: nat): (t: nat)
    requires |d| == 32 && s <= 13
    ensures s <= t <= 13 && (t < 13 ==> Char(d, t) == 0) && forall j | s <= j < t :: Char(d, j) != 0
    decreases 13 - s
  {
    if s == 13 || Char(d, s) == 0 then s else Terminator(d, s + 1)
  }

  /** Nothing but fillers behind the terminator. */
  predicate Filled(d: seq<Byte>, t: nat)
    requires |d| == 32
  {
    forall j | t < j < 13 :: Char(d, j) == FILL
  }

  /** What becomes of an entry: an answer, or an access below the buffer, which
      nothing is promised about. */
  datatype Outcome = Outside | Done(ok: bool)

  /** pick_lfn: characters and terminator go to their place in the buffer, if
      they all fit, the terminator behind a last entry included. The place for an
      entry of order 0, which a damaged directory can have, is below the buffer. */
  method PickLfn(lfnbuf: array<Word>, dir: seq<Byte>) returns (r: Outcome)
    requires lfnbuf.Length == MAX_LFN + 1 && |dir| == 32
    modifies lfnbuf
    ensures r == Outside <==> Order(dir[0]) == 0
    ensures r == Outside ==> lfnbuf[..] == old(lfnbuf[..])
    ensures r.Done? ==>
      var start, t := (Order(dir[0]) - 1) * 13, Terminator(dir, 0);
      var n, last := if t < 13 then t + 1 else 13, IsLast(dir[0]);
      && (r.ok <==> Filled(dir, t) && start + n <= MAX_LFN && (last ==> start + n < MAX_LFN))
      && (r.ok ==> forall j | 0 <= j < MAX_LFN + 1 ::
            lfnbuf[j] == if start <= j < start + n then Char(dir, j - start) else if last && j == start + n then 0
                else old(lfnbuf[j]))
  {
    hide Char, Order, CmpOrder, IsLast, Terminator;
    if Order(dir[0]) == 0 { return Outside; }
    var i := (Order(dir[0]) - 1) * 13;
    ghost var start, t := i, Terminator(dir, 0);
    var s, wc: Word := 0, 1;
    while s < 13
      invariant 0 <= s <= 13 && (wc != 0 <==> s <= t) && i == (if s <= t then start + s else start + t + 1)
          && (s > 0 ==> i <= MAX_LFN)
      invariant forall j | t < j < s :: Char(dir, j) == FILL
      invariant forall j | 0 <= j < MAX_LFN + 1 :: lfnbuf[j] == if start <= j < i then Char(dir, j - start)
          else old(lfnbuf[j])
    {
      var uc := Char(dir, s);
      if wc != 0 {
        if i >= MAX_LFN { return Done(false); }
        wc := uc;
        lfnbuf[i] := uc;
        i := i + 1;
      } else if uc != FILL {
        return Done(false);
      }
      s := s + 1;
    }
    if IsLast(dir[0]) {
      if i >= MAX_LFN { return Done(false); }
      lfnbuf[i] := 0;
    }
    return Done(true);
  }

  /** ff_wtoupper: any conversion that keeps the terminator apart. */
  ghost predicate Upper(up: Word -> Word) {
    forall w: Word :: up(w) == 0 <==> w == 0
  }

  /** cmp_lfn: the entry against its place in the buffer. */
  method CmpLfn(lfnbuf: array<Word>, dir: seq<Byte>, up: Word -> Word) returns (r: Outcome)
    requires lfnbuf.Length == MAX_LFN + 1 && |dir| == 32 && Upper(up)
    ensures r == Outside <==> CmpOrder(dir[0]) == 0
    ensures r.Done? ==>
      var start, t := (CmpOrder(dir[0]) - 1) * 13, Terminator(dir, 0);
      var n, last := if t < 13 then t + 1 else 13, IsLast(dir[0]);
      r.ok <==> (Filled(dir, t) && start + n <= MAX_LFN && (forall j | start <= j < start + n && j < lfnbuf.Length ::
          up(Char(dir, j - start)) == up(lfnbuf[j]))
              && (last && t == 13 ==> start + n < lfnbuf.Length && lfnbuf[start + n] == 0))
  {
    hide Char, Order, CmpOrder, IsLast, Terminator;
    if CmpOrder(dir[0]) == 0 { return Outside; }
    var i := (CmpOrder(dir[0]) - 1) * 13;
    ghost var start, t := i, Terminator(dir, 0);
    var s, wc: Word := 0, 1;
    while s < 13
      invariant 0 <= s <= 13 && (wc != 0 <==> s <= t) && i == (if s <= t then start + s else start + t + 1)
          && (s > 0 ==> i <= MAX_LFN)
      invariant forall j | t < j < s :: Char(dir, j) == FILL
      invariant forall j | start <= j < i && j < lfnbuf.Length :: up(Char(dir, j - start)) == up(lfnbuf[j])
    {
      var uc := Char(dir, s);
      if wc != 0 {
        wc := up(uc);
        if i >= MAX_LFN { return Done(false); }
        var same := wc == up(lfnbuf[i]);
        i := i + 1;
        if !same {
          assert start <= i - 1 < start + (if t < 13 then t + 1 else 13);
          return Done(false);
        }
      } else if uc != FILL {
        return Done(false);
      }
      s := s + 1;
    }
    if IsLast(dir[0]) && wc != 0 && lfnbuf[i] != 0 { return Done(false); }
    return Done(true);
  }

  // ----- Whole names -----

  /** How much of an entry belongs to the name, its terminator included. */
  lemma {:induction false} SegmentEnd(d: seq<Byte>, name: seq<Word>, ord: nat, sum: Byte)
    requires Name(name) && Segment(d, name, ord, sum)
    ensures var t := Terminator(d, 0);
      && t == (if 13 * ord <= |name| then 13 else |name| - 13 * (ord - 1)) && Filled(d, t)
      && (ord < Segments(name) ==> t == 13)
    ensures Order(d[0]) == CmpOrder(d[0]) == ord && (IsLast(d[0]) <==> ord == Segments(name))
  {
    hide Char;
    var start, t := (ord - 1) * 13, Terminator(d, 0);
    assert t < 13 ==> Char(d, t) == Unit(name, start + t);
    if start + 13 > |name| { assert Char(d, |name| - start) == Unit(name, |name|); }
  }

  /** What dir_register stores: one entry a segment, the last one first. */
  ghost predicate Stored(entries: seq<seq<Byte>>, name: seq<Word>, sum: Byte) {
    |entries| == Segments(name) && forall k | 0 <= k < |entries| :: Segment(entries[k], name, Segments(name) - k, sum)
  }

  /** The LFN entries of dir_register. */
  method WriteName(lfnbuf: array<Word>, sum: Byte, ghost name: seq<Word>) returns (entries: seq<seq<Byte>>)
    requires Name(name) && Holds(lfnbuf[..], name) && Segments(name) < 64
    ensures Stored(entries, name, sum)
  {
    hide Segment;
    var ne := 0;
    while lfnbuf[ne] != 0
      invariant 0 <= ne <= |name|
      decreases |name| - ne
    {
      ne := ne + 1;
    }
    ne := (ne + 25) / 13;
    ne := ne - 1;
    entries := [];
    var dir := new Byte[32];
    while ne > 0
      invariant 0 <= ne && |entries| == Segments(name) - ne
      invariant forall k | 0 <= k < |entries| :: Segment(entries[k], name, Segments(name) - k, sum)
    {
      FitLfn(lfnbuf, dir, ne, sum, name);
      entries := entries + [dir[..]];
      ne := ne - 1;
    }
  }

  /** How dir_read and dir_find follow a run of LFN entries: the orders must
      count down from a last entry, with one checksum. */
  method NextOrder(dir: seq<Byte>, ord0: int, sum0: Byte) returns (inOrder: bool, ord: int, sum: Byte)
    requires |dir| == 32
    ensures sum == if IsLast(dir[0]) then dir[13] else sum0
    ensures inOrder <==> (IsLast(dir[0]) || dir[0] == ord0) && sum == dir[13]
    ensures inOrder ==> ord == if IsLast(dir[0]) then CmpOrder(dir[0]) else dir[0]
  {
    var c: int := dir[0];
    ord, sum := ord0, sum0;
    if IsLast(dir[0]) {
      sum := dir[13];
      c := CmpOrder(dir[0]);
      ord := c;
    }
    inOrder := c == ord && sum == dir[13];
  }

  /** An entry that starts with 0x40 is taken for the last one of a name, and is of order 0. */
  method ReadDamaged(lfnbuf: array<Word>, dir: seq<Byte>, ord0: int, sum0: Byte) returns (r: Outcome)
    requires lfnbuf.Length == MAX_LFN + 1 && |dir| == 32 && dir[0] == 0x40
    modifies lfnbuf
    ensures r == Outside
  {
    var inOrder, ord, sum := NextOrder(dir, ord0, sum0);
    if !inOrder { return Done(false); }
    r := PickLfn(lfnbuf, dir);
  }

  /** Lengths that pick_lfn gets back: the terminator, and one more behind a
      last entry that is not full, must be inside _MAX_LFN. */
  predicate Readable(n: nat) {
    n + 1 < MAX_LFN || (n % 13 == 0 && n < MAX_LFN)
  }

  /** The LFN entries of dir_read: the name comes back exactly if its length allows it. */
  method ReadName(lfnbuf: array<Word>, entries: seq<seq<Byte>>, sfnSum: Byte, ghost name: seq<Word>) returns (ok: bool)
    requires Name(name) && Segments(name) < 64 && Stored(entries, name, sfnSum) && lfnbuf.Length == MAX_LFN + 1
    modifies lfnbuf
    ensures ok <==> Readable(|name|)
    ensures ok ==> Holds(lfnbuf[..], name)
  {
    hide Segment, Filled, Char, Order, CmpOrder, IsLast, Terminator, Readable;
    var ord, sum: Byte := 0xFF, 0xFF;
    ghost var n := Segments(name);
    for k := 0 to |entries|
      invariant k > 0 ==> sum == sfnSum
      invariant k > 0 ==> ord == if Readable(|name|) then n - k else 0xFF
      invariant k == 0 ==> ord == 0xFF
      invariant k > 0 && Readable(|name|) ==> forall j | (n - k) * 13 <= j <= |name| && j < lfnbuf.Length ::
          lfnbuf[j] == Unit(name, j)
    {
      var dir := entries[k];
      ghost var buf := lfnbuf[..];
      SegmentEnd(dir, name, n - k, sfnSum);
      SegmentSum(dir, name, n - k, sfnSum);
      var inOrder, o, s := NextOrder(dir, ord, sum);
      sum := s;
      var picked := false;
      if inOrder {
        var r := PickLfn(lfnbuf, dir);
        picked := r == Done(true);
      }
      if inOrder && Readable(|name|) { Picked(buf, lfnbuf[..], dir, name, n - k, sfnSum, picked); }
      if inOrder && !Readable(|name|) { NotPicked(dir, name, n - k, sfnSum, picked); }
      ord := if picked then o - 1 else 0xFF;
    }
    ok := ord == 0 && sum == sfnSum;
    if ok { InBuffer(name); }
  }

  lemma {:induction false} SegmentSum(d: seq<Byte>, name: seq<Word>, ord: nat, sum: Byte)
    requires Segment(d, name, ord, sum)
    ensures |d| == 32 && d[13] == sum && (ord < Segments(name) ==> d[0] == ord) && d[0] < 128
  {
  }

  lemma {:induction false} InBuffer(name: seq<Word>)
    requires Readable(|name|)
    ensures |name| < MAX_LFN
  {
  }

  lemma {:induction false} Picked(buf: seq<Word>, buf': seq<Word>, d: seq<Byte>, name: seq<Word>, ord: nat, sum: Byte,
      ok: bool)
    requires Name(name) && Segment(d, name, ord, sum) && Readable(|name|) && |buf| == |buf'| == MAX_LFN + 1
    requires forall j | ord * 13 <= j <= |name| && j < |buf| && ord < Segments(name) :: buf[j] == Unit(name, j)
    requires var start, t := (ord - 1) * 13, Terminator(d, 0);
      var n, last := if t < 13 then t + 1 else 13, IsLast(d[0]);
      && (ok <==> Filled(d, t) && start + n <= MAX_LFN && (last ==> start + n < MAX_LFN))
      && (ok ==> forall j | 0 <= j < MAX_LFN + 1 :: buf'[j] == if start <= j < start + n then Char(d,
          j - start) else if last && j == start + n then 0 else buf[j])
    ensures ok && forall j | (ord - 1) * 13 <= j <= |name| && j < |buf| :: buf'[j] == Unit(name, j)
  {
    hide Char, Terminator, Order, CmpOrder, Filled;
    SegmentEnd(d, name, ord, sum);
    var start := (ord - 1) * 13;
    assert forall s | 0 <= s < 13 :: Char(d, s) == Unit(name, start + s);
  }

  lemma {:induction false} NotPicked(d: seq<Byte>, name: seq<Word>, ord: nat, sum: Byte, ok: bool)
    requires Name(name) && Segment(d, name, ord, sum) && !Readable(|name|) && ord == Segments(name)
    requires var start, t := (ord - 1) * 13, Terminator(d, 0);
      ok ==> start + (if t < 13 then t + 1 else 13) < MAX_LFN
    ensures !ok
  {
    hide Char, Terminator, Order, CmpOrder, Filled;
    SegmentEnd(d, name, ord, sum);
  }

  /** Equal but for case. */
  ghost predicate Same(a: seq<Word>, b: seq<Word>, up: Word -> Word) {
    |a| == |b| && forall i | 0 <= i < |a| :: up(a[i]) == up(b[i])
  }

  /** Lengths that cmp_lfn gets through: the terminator must be inside _MAX_LFN. */
  predicate Findable(n: nat) {
    n < MAX_LFN || (n % 13 == 0 && n <= MAX_LFN)
  }

  /** What cmp_lfn answers for a segment of a name. */
  ghost predicate SegmentSame(buf: seq<Word>, name: seq<Word>, ord: nat, up: Word -> Word)
    requires |buf| == MAX_LFN + 1 && ord >= 1
  {
    var start := (ord - 1) * 13;
    var n := if ord * 13 <= |name| then 13 else |name| + 1 - start;
    && start + n <= MAX_LFN && (forall j | start <= j < start + n && j < |buf| :: up(Unit(name, j)) == up(buf[j]))
    && (ord * 13 == |name| ==> ord * 13 < |buf| && buf[ord * 13] == 0)
  }

  /** The LFN entries of dir_find: a stored name is found exactly if it is the
      probe but for case and its length allows it. */
  method FindName(lfnbuf: array<Word>, entries: seq<seq<Byte>>, sfnSum: Byte, up: Word -> Word, ghost name: seq<Word>,
      ghost probe: seq<Word>) returns (ok: bool)
    requires Name(name) && Segments(name) < 64 && Stored(entries, name, sfnSum) && lfnbuf.Length == MAX_LFN + 1
    requires Upper(up) && Name(probe) && Holds(lfnbuf[..], probe)
    ensures ok <==> Same(name, probe, up) && Findable(|name|)
  {
    hide Segment, Filled, Char, Order, CmpOrder, IsLast, Terminator, SegmentSame, Upper, Name, Holds;
    SomeSegment(name);
    var ord, sum: Byte := 0xFF, 0xFF;
    ghost var n, all := Segments(name), true;
    for k := 0 to |entries|
      invariant k > 0 ==> sum == sfnSum && ord == if all then n - k else 0xFF
      invariant k == 0 ==> ord == 0xFF && all
      invariant all <==> forall o: nat | n - k < o <= n :: SegmentSame(lfnbuf[..], name, o, up)
    {
      var dir := entries[k];
      SegmentEnd(dir, name, n - k, sfnSum);
      SegmentSum(dir, name, n - k, sfnSum);
      var inOrder, o, s := NextOrder(dir, ord, sum);
      sum := s;
      var same := false;
      if inOrder {
        var r := CmpLfn(lfnbuf, dir, up);
        same := r == Done(true);
        Compared(lfnbuf[..], dir, name, n - k, sfnSum, up, same);
      }
      all := all && SegmentSame(lfnbuf[..], name, n - k, up);
      ord := if same then o - 1 else 0xFF;
    }
    ok := ord == 0 && sum == sfnSum;
    SegmentsSame(lfnbuf[..], name, probe, up);
  }

  lemma {:induction false} SomeSegment(name: seq<Word>)
    requires Name(name)
    ensures Segments(name) > 0
  {
  }

  lemma {:induction false} Compared(buf: seq<Word>, d: seq<Byte>, name: seq<Word>, ord: nat, sum: Byte,
      up: Word -> Word, ok: bool)
    requires Name(name) && Segment(d, name, ord, sum) && |buf| == MAX_LFN + 1
    requires var start, t := (ord - 1) * 13, Terminator(d, 0);
      var n, last := if t < 13 then t + 1 else 13, IsLast(d[0]);
      ok <==> Filled(d, t) && start + n <= MAX_LFN && (forall j | start <= j < start + n && j < |buf| ::
          up(Char(d, j - start)) == up(buf[j]))
              && (last && t == 13 ==> start + n < |buf| && buf[start + n] == 0)
    ensures ok <==> SegmentSame(buf, name, ord, up)
  {
    hide Char, Terminator, Order, CmpOrder, Filled;
    SegmentEnd(d, name, ord, sum);
    var start := (ord - 1) * 13;
    assert forall s | 0 <= s < 13 :: Char(d, s) == Unit(name, start + s);
    assert forall j | start <= j < start + 13 :: Char(d, j - start) == Unit(name, j);
  }

  /** All segments together. */
  lemma {:induction false} SegmentsSame(buf: seq<Word>, name: seq<Word>, probe: seq<Word>, up: Word -> Word)
    requires Name(name) && Name(probe) && |buf| == MAX_LFN + 1 && Holds(buf, probe) && Upper(up)
    ensures (forall o: nat | 0 < o <= Segments(name) :: SegmentSame(buf, name, o, up))
        <==> Same(name, probe, up) && Findable(|name|)
  {
    if forall o: nat | 0 < o <= Segments(name) :: SegmentSame(buf, name, o, up) { AllSame(buf, name, probe, up); }
    if Same(name, probe, up) && Findable(|name|) {
      forall o: nat | 0 < o <= Segments(name) ensures SegmentSame(buf, name, o, up) {}
    }
  }

  lemma {:induction false} AllSame(buf: seq<Word>, name: seq<Word>, probe: seq<Word>, up: Word -> Word)
    requires Name(name) && Name(probe) && |buf| == MAX_LFN + 1 && Holds(buf, probe) && Upper(up)
    requires forall o: nat | 0 < o <= Segments(name) :: SegmentSame(buf, name, o, up)
    ensures Same(name, probe, up) && Findable(|name|)
  {
    var n := Segments(name);
    assert SegmentSame(buf, name, n, up);
    forall j | 0 <= j < |name| ensures j < |buf| && up(name[j]) == up(buf[j]) && buf[j] != 0 {
      var o := j / 13 + 1;
      assert SegmentSame(buf, name, o, up);
      assert (o - 1) * 13 <= j < (o - 1) * 13 + 13;
      assert up(Unit(name, j)) == up(buf[j]);
    }
    assert |name| < |buf| && buf[|name|] == 0 by {
      if n * 13 != |name| { assert up(Unit(name, |name|)) == up(buf[|name|]); }
    }
    assert |probe| >= |name|;
  }

  /** A name goes out to directory entries and comes back, exactly if its length
      allows it; a name that is found is the probe but for case. */
  method RoundTrip(lfnbuf: array<Word>, back: array<Word>, sum: Byte, ghost name: seq<Word>) returns (ok: bool)
    requires Name(name) && |name| <= MAX_LFN && Holds(lfnbuf[..], name) && back.Length == MAX_LFN + 1 && back != lfnbuf
    modifies back
    ensures ok <==> Readable(|name|)
    ensures ok ==> Holds(back[..], name)
  {
    hide Stored, Name, Holds, Readable;
    var entries := WriteName(lfnbuf, sum, name);
    ok := ReadName(back, entries, sum, name);
  }

  function Letters(n: nat): (name: seq<Word>)
    ensures |name| == n && (n > 0 ==> Name(name))
  {
    seq(n, i => 97)
  }

  /** Names of 29 and 30 units are accepted by create_name, but do not come back. */
  lemma {:induction false} LongNames(n: nat)
    requires 1 <= n <= MAX_LFN
    ensures Readable(n) <==> n <= 28
    ensures Name(Letters(29)) && |Letters(29)| <= MAX_LFN && !Readable(|Letters(29)|)
    ensures Findable(n) <==> n <= 29
  {
    assert n % 13 == 0 ==> n == 13 || n == 26;
  }
}
