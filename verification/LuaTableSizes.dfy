/** How big the parts of a rehashed table get (modules/lua/ltable.c):
    luaO_ceillog2, the counts by powers of two, and computesizes. */
module LuaTableSizes {
  import opened Common
  import opened LuaTableNodes

  const MAXBITS: nat := 30

  const MAXASIZE: nat := 0x4000_0000

  lemma {:induction false} PowMono(a: nat, b: nat)
    requires a <= b
    ensures Pow(a) <= Pow(b)
    decreases b
  {
    if a < b { PowMono(a, b - 1); }
  }

  lemma {:induction false} PowMax()
    ensures Pow(MAXBITS) == MAXASIZE && Pow(8) == 256
  {
    assert Pow(8) == 256;
    assert Pow(16) == 0x1_0000;
    assert Pow(24) == 0x100_0000;
    assert Pow(30) == 0x4000_0000;
  }

  lemma {:induction false} PowAdd(a: nat, b: nat)
    ensures Pow(a + b) == Pow(a) * Pow(b)
    decreases b
  {
    if b > 0 { PowAdd(a, b - 1); }
  }

  /** What the 256-entry table of luaO_ceillog2 holds. */
  function Log2Entry(x: nat): (l: nat)
    requires x < 256
  {
    if x == 0 then 0 else if x == 1 then 1 else if x < 4 then 2 else if x < 8 then 3 else if x < 16 then 4
    else if x < 32 then 5 else if x < 64 then 6 else if x < 128 then 7 else 8
  }

  /** luaO_ceillog2: the least power of two that is not below `x0`. */
  method CeilLog2(x0: nat) returns (l: nat)
    requires x0 > 0
    ensures x0 <= Pow(l) && (l > 0 ==> Pow(l - 1) < x0)
  {
    l := 0;
    var x := x0 - 1;
    ghost var low: nat := 0;
    while x >= 256
      invariant x0 - 1 == x * Pow(l) + low && 0 <= low < Pow(l) && (l > 0 ==> x > 0)
      decreases x
    {
      ShiftByte(x, l, low);
      low := x % 256 * Pow(l) + low;
      l := l + 8;
      x := x / 256;
    }
    Leading(x, l, low, Log2Entry(x));
    l := l + Log2Entry(x);
  }

  lemma {:induction false} ShiftByte(x: nat, l: nat, low: nat)
    requires low < Pow(l)
    ensures x % 256 * Pow(l) >= 0 && x % 256 * Pow(l) + low < Pow(l + 8) && x * Pow(l) + low == x / 256 * Pow(l + 8)
        + (x % 256 * Pow(l) + low)
  {
    hide Pow;
    PowAdd(l, 8);
    PowMax();
    Scaled(x % 256, 256, Pow(l));
    Split256(x / 256, x % 256, Pow(l));
    assert x == 256 * (x / 256) + x % 256;
  }

  lemma {:induction false} Split256(q: nat, r: nat, k: nat)
    ensures (256 * q + r) * k == q * (k * 256) + r * k && r * k >= 0
  {
  }

  lemma {:induction false} MulLe(a: nat, b: nat, k: nat)
    requires a <= b
    ensures a * k <= b * k
  {
    assert b * k == a * k + (b - a) * k;
  }

  lemma {:induction false} Leading(x: nat, l: nat, low: nat, e: nat)
    requires x < 256 && low < Pow(l) && e == Log2Entry(x) && (l > 0 ==> x > 0)
    ensures x * Pow(l) + low + 1 <= Pow(l + e)
    ensures l + e > 0 ==> Pow(l + e - 1) < x * Pow(l) + low + 1
  {
    hide Pow, Log2Entry;
    EntryRight(x);
    PowAdd(l, e);
    Scaled(x, Pow(e), Pow(l));
    if e > 0 {
      PowAdd(l, e - 1);
      MulLe(Pow(e - 1), x, Pow(l));
      Swap(Pow(l), Pow(e - 1));
    }
  }

  lemma {:induction false} Scaled(x: nat, b: nat, k: nat)
    requires x < b
    ensures x * k + k <= k * b
  {
    MulLe(x + 1, b, k);
    assert (x + 1) * k == x * k + k && b * k == k * b;
  }

  lemma {:induction false} Swap(a: nat, b: nat)
    ensures a * b == b * a
  {
  }

  lemma {:induction false} EntryRight(x: nat)
    requires x < 256
    ensures x + 1 <= Pow(Log2Entry(x)) && (Log2Entry(x) > 0 ==> Pow(Log2Entry(x) - 1) <= x)
        && (x > 0 ==> Log2Entry(x) > 0)
  {
    assert Pow(0) == 1 && Pow(1) == 2 && Pow(2) == 4 && Pow(3) == 8;
    assert Pow(4) == 16 && Pow(5) == 32 && Pow(6) == 64 && Pow(7) == 128 && Pow(8) == 256;
  }

  // ----- Counting integer keys -----

  /** Slice `l` holds the integers above `Lo(l)` up to `Pow(l)`. */
  function Lo(l: nat): nat {
    if l == 0 then 0 else Pow(l - 1)
  }

  predicate InSlice(k: Key, lo: nat, hi: nat) {
    k.KInt? && lo < k.i <= hi
  }

  function One(k: Key, lo: nat, hi: nat): nat {
    if InSlice(k, lo, hi) then 1 else 0
  }

  /** Entries of the array part with an index above `lo` up to `hi`. */
  ghost function CountArr(arr: seq<Value>, lo: nat, hi: nat): nat
    decreases hi
  {
    if hi <= lo then 0 else CountArr(arr, lo, hi - 1) + (if hi <= |arr| && arr[hi - 1] != VNil then 1 else 0)
  }

  /** Entries of the nodes from `j` on with an integer key above `lo` up to `hi`. */
  ghost function CountNodes(node: seq<Node>, j: nat, lo: nat, hi: nat): nat
    decreases |node| - j
  {
    if j >= |node| then 0 else CountNodes(node, j + 1, lo, hi) + if node[j].val != VNil then One(node[j].key, lo, hi)
        else 0
  }

  lemma {:induction false} ArrSplit(arr: seq<Value>, lo: nat, mid: nat, hi: nat)
    requires lo <= mid <= hi
    ensures CountArr(arr, lo, hi) == CountArr(arr, lo, mid) + CountArr(arr, mid, hi)
    decreases hi
  {
    if hi > mid { ArrSplit(arr, lo, mid, hi - 1); }
  }

  lemma {:induction false} ArrBeyond(arr: seq<Value>, lo: nat, hi: nat)
    requires lo >= |arr|
    ensures CountArr(arr, lo, hi) == 0
    decreases hi
  {
    if hi > lo { ArrBeyond(arr, lo, hi - 1); }
  }

  lemma {:induction false} ArrAtMost(arr: seq<Value>, lo: nat, hi: nat)
    requires lo <= hi
    ensures CountArr(arr, lo, hi) <= hi - lo
    decreases hi
  {
    if hi > lo { ArrAtMost(arr, lo, hi - 1); }
  }

  lemma {:induction false} NodesSplit(node: seq<Node>, j: nat, lo: nat, mid: nat, hi: nat)
    requires lo <= mid <= hi
    ensures CountNodes(node, j, lo, hi) == CountNodes(node, j, lo, mid) + CountNodes(node, j, mid, hi)
    decreases |node| - j
  {
    if j < |node| { NodesSplit(node, j + 1, lo, mid, hi); }
  }

  /** The non-nil entries with an index from `i0` to `lim`. */
  method CountRange(arr: seq<Value>, i0: nat, lim: nat) returns (lc: nat)
    requires 0 < i0 <= lim + 1 && lim <= |arr|
    ensures lc == CountArr(arr, i0 - 1, lim)
  {
    lc := 0;
    for i := i0 to lim + 1
      invariant lc == CountArr(arr, i0 - 1, i - 1)
    {
      if arr[i - 1] != VNil { lc := lc + 1; }
    }
  }

  /** numusearray, slice by slice. */
  method NumUseArray(arr: seq<Value>, nums: array<nat>) returns (ause: nat)
    requires nums.Length == MAXBITS + 1 && |arr| <= MAXASIZE
    modifies nums
    ensures forall l | 0 <= l <= MAXBITS :: nums[l] == old(nums[l]) + CountArr(arr, Lo(l), Pow(l))
    ensures ause == CountArr(arr, 0, MAXASIZE)
  {
    hide Pow, CountArr;
    PowStep(0);
    ArrNone(arr);
    ause := 0;
    var lg, ttlg, i := 0, 1, 1;
    while lg <= MAXBITS
      invariant lg <= MAXBITS + 1 && ttlg == Pow(lg)
      invariant i == (if Lo(lg) <= |arr| then Lo(lg) else |arr|) + 1
      invariant ause == CountArr(arr, 0, Lo(lg))
      invariant forall l | 0 <= l <= MAXBITS :: nums[l] == old(nums[l]) + if l < lg then CountArr(arr, Lo(l), Pow(l))
          else 0
    {
      PowStep(lg);
      var lim := ttlg;
      if lim > |arr| {
        lim := |arr|;
        if i > lim {
          NoMore(arr, lg);
          return;
        }
      }
      var lc := CountRange(arr, i, lim);
      i := lim + 1;
      SliceDone(arr, lg, lim);
      nums[lg] := nums[lg] + lc;
      ause := ause + lc;
      lg, ttlg := lg + 1, ttlg * 2;
    }
    PowMax();
  }

  lemma {:induction false} ArrNone(arr: seq<Value>)
    ensures CountArr(arr, 0, 0) == 0
  {
  }

  lemma {:induction false} SliceDone(arr: seq<Value>, lg: nat, lim: nat)
    requires lim == if Pow(lg) > |arr| then |arr| else Pow(lg)
    requires Lo(lg) <= lim
    ensures CountArr(arr, Lo(lg), lim) == CountArr(arr, Lo(lg), Pow(lg))
    ensures CountArr(arr, 0, Pow(lg)) == CountArr(arr, 0, Lo(lg)) + CountArr(arr, Lo(lg), Pow(lg))
  {
    hide Pow, CountArr;
    PowStep(lg);
    ArrSplit(arr, Lo(lg), lim, Pow(lg));
    if lim < Pow(lg) { ArrBeyond(arr, lim, Pow(lg)); } else { ArrEmpty(arr, lim); }
    ArrSplit(arr, 0, Lo(lg), Pow(lg));
  }

  lemma {:induction false} ArrEmpty(arr: seq<Value>, n: nat)
    ensures CountArr(arr, n, n) == 0
  {
  }

  /** Beyond the array part there is nothing to count. */
  lemma {:induction false} NoMore(arr: seq<Value>, lg: nat)
    requires lg <= MAXBITS && Lo(lg) >= |arr|
    ensures forall l | lg <= l <= MAXBITS :: CountArr(arr, Lo(l), Pow(l)) == 0
    ensures CountArr(arr, 0, MAXASIZE) == CountArr(arr, 0, Lo(lg))
  {
    hide Pow, CountArr;
    forall l | lg <= l <= MAXBITS
      ensures CountArr(arr, Lo(l), Pow(l)) == 0 { LoMono(lg, l); ArrBeyond(arr, Lo(l), Pow(l)); }
    PowMax();
    LoMono(lg, MAXBITS + 1);
    ArrSplit(arr, 0, Lo(lg), MAXASIZE);
    ArrBeyond(arr, Lo(lg), MAXASIZE);
  }

  lemma {:induction false} PowStep(l: nat)
    ensures Pow(l + 1) == 2 * Pow(l) && Pow(0) == 1 && Lo(l) < Pow(l)
  {
  }

  lemma {:induction false} LoMono(a: nat, b: nat)
    requires a <= b
    ensures Lo(a) <= Lo(b)
  {
    if a > 0 { PowMono(a - 1, b - 1); }
  }

  /** countint: an integer key that fits an array counts in its slice. */
  method CountInt(k: Key, nums: array<nat>) returns (r: nat)
    requires nums.Length == MAXBITS + 1
    modifies nums
    ensures forall l | 0 <= l <= MAXBITS :: nums[l] == old(nums[l]) + One(k, Lo(l), Pow(l))
    ensures r == One(k, 0, MAXASIZE)
  {
    hide Pow;
    PowMax();
    if k.KInt? && 0 < k.i <= MAXASIZE {
      var l := CeilLog2(k.i);
      OneSlice(k.i, l);
      nums[l] := nums[l] + 1;
      return 1;
    }
    forall l | 0 <= l <= MAXBITS ensures One(k, Lo(l), Pow(l)) == 0 { PowMono(l, MAXBITS); }
    return 0;
  }

  /** An integer is in one slice only. */
  lemma {:induction false} OneSlice(k: nat, l: nat)
    requires 0 < k <= MAXASIZE && k <= Pow(l) && (l > 0 ==> Pow(l - 1) < k)
    ensures l <= MAXBITS && forall j: nat | j <= MAXBITS :: One(KInt(k), Lo(j), Pow(j)) == if j == l then 1 else 0
  {
    hide Pow;
    PowMax();
    if l > MAXBITS { PowMono(MAXBITS, l - 1); }
    forall j: nat | j <= MAXBITS ensures One(KInt(k), Lo(j), Pow(j)) == if j == l then 1 else 0 {
      if j < l { PowMono(j, l - 1); } else if j > l { PowMono(l, j - 1); }
    }
  }

  /** numusehash: all entries, and those with an integer key that fits an array. */
  method NumUseHash(node: seq<Node>, nums: array<nat>) returns (totaluse: nat, ause: nat)
    requires nums.Length == MAXBITS + 1
    modifies nums
    ensures forall l | 0 <= l <= MAXBITS :: nums[l] == old(nums[l]) + CountNodes(node, 0, Lo(l), Pow(l))
    ensures ause == CountNodes(node, 0, 0, MAXASIZE) && totaluse == LiveNodes(node, 0)
  {
    hide Pow;
    totaluse, ause := 0, 0;
    var i := |node|;
    while i > 0
      invariant 0 <= i <= |node| && totaluse == LiveNodes(node, i) && ause == CountNodes(node, i, 0, MAXASIZE)
      invariant forall l | 0 <= l <= MAXBITS :: nums[l] == old(nums[l]) + CountNodes(node, i, Lo(l), Pow(l))
    {
      i := i - 1;
      if node[i].val != VNil {
        var r := CountInt(node[i].key, nums);
        ause := ause + r;
        totaluse := totaluse + 1;
      }
    }
  }

  ghost function LiveNodes(node: seq<Node>, j: nat): nat
    decreases |node| - j
  {
    if j >= |node| then 0 else LiveNodes(node, j + 1) + if node[j].val != VNil then 1 else 0
  }

  /** `cum[l]` keys are at most `Pow(l)`, and there are no more than there can be. */
  ghost predicate Cumulative(cum: seq<nat>) {
    && |cum| == MAXBITS + 1
    && (forall l | 0 <= l <= MAXBITS :: cum[l] <= Pow(l))
    && (forall a, b | 0 <= a <= b <= MAXBITS :: cum[a] <= cum[b])
  }

  lemma {:induction false} CumulativeAt(cum: seq<nat>, l: nat)
    requires Cumulative(cum) && l <= MAXBITS
    ensures |cum| == MAXBITS + 1 && cum[l] <= Pow(l)
  {
  }

  /** computesizes: the largest power of two such that more than half of the
      indices up to it are in use, and how many of them are. */
  method ComputeSizes(nums: array<nat>, narray: nat, ghost cum: seq<nat>) returns (n: nat, na: nat)
    requires nums.Length == MAXBITS + 1 && Cumulative(cum) && narray == cum[MAXBITS]
    requires forall l | 0 <= l <= MAXBITS :: nums[l] + (if l == 0 then 0 else cum[l - 1]) == cum[l]
    ensures (n == 0 && na == 0 && forall j | 0 <= j <= MAXBITS :: 2 * cum[j] <= Pow(j))
         || exists l :: 0 <= l <= MAXBITS && n == Pow(l) && na == cum[l] && 2 * na > n && forall j | l < j <= MAXBITS ::
             2 * cum[j] <= Pow(j)
  {
    hide Pow, Cumulative;
    n, na := 0, 0;
    var a, i, twotoi := 0, 0, 1;
    ghost var best := -1;
    PowStep(0);
    CumulativeAt(cum, 0);
    while twotoi / 2 < narray
      invariant 0 <= i <= MAXBITS && twotoi == Pow(i) && a == (if i == 0 then 0 else cum[i - 1])
      invariant -1 <= best < i && (best == -1 ==> n == 0 && na == 0)
      invariant best >= 0 ==> n == Pow(best) && na == cum[best] && 2 * na > n
      invariant forall j | best < j < i :: 2 * cum[j] <= Pow(j)
      decreases MAXBITS - i
    {
      PowStep(i);
      if i > 0 { PowStep(i - 1); CumulativeAt(cum, i - 1); }
      if nums[i] > 0 {
        a := a + nums[i];
        if a > twotoi / 2 {
          n := twotoi;
          na := a;
          best := i;
        }
      }
      if a == narray {
        Rest(cum, i, narray);
        break;
      }
      i, twotoi := i + 1, twotoi * 2;
    }
    if twotoi / 2 >= narray { Rest0(cum, i, narray); }
  }

  lemma {:induction false} Rest(cum: seq<nat>, i: nat, narray: nat)
    requires Cumulative(cum) && i <= MAXBITS && cum[i] == narray == cum[MAXBITS]
    ensures forall j | i < j <= MAXBITS :: 2 * cum[j] <= Pow(j)
  {
    hide Pow;
    PowStep(i);
    forall j | i < j <= MAXBITS ensures 2 * cum[j] <= Pow(j) { PowMono(i + 1, j); }
  }

  lemma {:induction false} Rest0(cum: seq<nat>, i: nat, narray: nat)
    requires Cumulative(cum) && i <= MAXBITS && Pow(i) / 2 >= narray == cum[MAXBITS]
    ensures forall j | i <= j <= MAXBITS :: 2 * cum[j] <= Pow(j)
  {
    hide Pow;
    forall j | i <= j <= MAXBITS ensures 2 * cum[j] <= Pow(j) { PowMono(i, j); }
  }

  /** setnodevector: nodes for `n` keys; none, or a power of two. */
  method NodeCount(n: nat) returns (size: nat)
    ensures if n == 0 then size == 0 else n <= size < 2 * n && exists l: nat :: size == Pow(l)
  {
    if n == 0 { return 0; }
    var l := CeilLog2(n);
    return Pow(l);
  }

  /** Live entries of the nodes before `j` whose key is not in 1..na. */
  ghost function Outside(node: seq<Node>, j: nat, na: nat): nat
    requires j <= |node|
  {
    if j == 0 then 0 else Outside(node, j - 1, na) + if node[j - 1].val != VNil && !InSlice(node[j - 1].key, 0,
        na) then 1 else 0
  }

  lemma {:induction false} OutsideCount(node: seq<Node>, j: nat, na: nat)
    requires j <= |node|
    ensures Outside(node, |node|, na) == Outside(node, j, na) + (LiveNodes(node, j) - CountNodes(node, j, 0, na))
    decreases |node| - j
  {
    if j < |node| { OutsideCount(node, j + 1, na); }
  }

  // ----- No more keys than there can be -----

  predicate InUse(arr: seq<Value>, i: int) {
    1 <= i <= |arr| && arr[i - 1] != VNil
  }

  ghost function ArrKeys(arr: seq<Value>, hi: nat): set<int> {
    set i: int | 1 <= i <= hi && InUse(arr, i)
  }

  ghost function NodeKeys(node: seq<Node>, j: nat, hi: nat): set<int> {
    set i: nat | j <= i < |node| && node[i].val != VNil && InSlice(node[i].key, 0, hi) :: node[i].key.i
  }

  lemma {:induction false} ArrKeysCount(arr: seq<Value>, hi: nat)
    ensures |ArrKeys(arr, hi)| == CountArr(arr, 0, hi)
    decreases hi
  {
    if hi > 0 {
      ArrKeysCount(arr, hi - 1);
      assert ArrKeys(arr, hi) == ArrKeys(arr, hi - 1) + (if hi <= |arr| && arr[hi - 1] != VNil then {hi} else {});
    } else {
      assert ArrKeys(arr, hi) == {};
    }
  }

  lemma {:induction false} NodeKeysCount(node: seq<Node>, j: nat, hi: nat)
    requires forall a, b | 0 <= a < b < |node| && node[a].key != KNil :: node[a].key != node[b].key
    ensures |NodeKeys(node, j, hi)| == CountNodes(node, j, 0, hi)
    decreases |node| - j
  {
    if j < |node| {
      NodeKeysCount(node, j + 1, hi);
      var one: set<int> := if node[j].val != VNil && InSlice(node[j].key, 0, hi) then {node[j].key.i} else {};
      assert NodeKeys(node, j, hi) == NodeKeys(node, j + 1, hi) + one;
      assert NodeKeys(node, j + 1, hi) * one == {};
    } else {
      assert NodeKeys(node, j, hi) == {};
    }
  }

  lemma {:induction false} RangeSize(s: set<int>, hi: nat)
    requires forall i | i in s :: 1 <= i <= hi
    ensures |s| <= hi
    decreases hi
  {
    if hi > 0 {
      RangeSize(s - {hi}, hi - 1);
      assert s <= s - {hi} + {hi};
      assert |s| <= |s - {hi}| + 1;
    } else {
      assert forall i: int :: i !in s;
      assert s == {};
    }
  }

  /** Keys of the table, and the new one, that are at most `hi`. */
  ghost function Keys1(arr: seq<Value>, node: seq<Node>, ek: Key, hi: nat): nat {
    CountArr(arr, 0, hi) + CountNodes(node, 0, 0, hi) + One(ek, 0, hi)
  }

  ghost function AllKeys(arr: seq<Value>, node: seq<Node>, ek: Key, hi: nat): set<int> {
    ArrKeys(arr, hi) + NodeKeys(node, 0, hi) + if InSlice(ek, 0, hi) then {ek.i} else {}
  }

  /** No key is counted twice. */
  lemma {:induction false} KeysOnce(arr: seq<Value>, node: seq<Node>, ek: Key, hi: nat)
    requires forall a, b | 0 <= a < b < |node| && node[a].key != KNil :: node[a].key != node[b].key
    requires forall a | 0 <= a < |node| :: node[a].key != ek && !InSlice(node[a].key, 0, |arr|)
    requires !InSlice(ek, 0, |arr|)
    ensures Keys1(arr, node, ek, hi) == |AllKeys(arr, node, ek, hi)|
  {
    ArrKeysCount(arr, hi);
    NodeKeysCount(node, 0, hi);
    var a, b := ArrKeys(arr, hi), NodeKeys(node, 0, hi);
    var e: set<int> := if InSlice(ek, 0, hi) then {ek.i} else {};
    assert a * b == {} && (a + b) * e == {};
  }

  lemma {:induction false} KeysAtMost(arr: seq<Value>, node: seq<Node>, ek: Key, hi: nat)
    requires forall a, b | 0 <= a < b < |node| && node[a].key != KNil :: node[a].key != node[b].key
    requires forall a | 0 <= a < |node| :: node[a].key != ek && !InSlice(node[a].key, 0, |arr|)
    requires !InSlice(ek, 0, |arr|)
    ensures Keys1(arr, node, ek, hi) <= hi
  {
    hide Keys1, CountArr, CountNodes;
    KeysOnce(arr, node, ek, hi);
    RangeSize(AllKeys(arr, node, ek, hi), hi);
  }

  /** What computesizes finds in slice `l`. */
  ghost predicate SliceOk(arr: seq<Value>, node: seq<Node>, ek: Key, cum: seq<nat>, l: nat)
    requires l < |cum|
  {
    CountArr(arr, Lo(l), Pow(l)) + CountNodes(node, 0, Lo(l), Pow(l)) + One(ek, Lo(l), Pow(l))
        + (if l == 0 then 0 else cum[l - 1]) == cum[l]
  }

  /** The counts by slices, as computesizes gets them. */
  lemma {:induction false} SliceCounts(arr: seq<Value>, node: seq<Node>, ek: Key) returns (cum: seq<nat>)
    requires forall a, b | 0 <= a < b < |node| && node[a].key != KNil :: node[a].key != node[b].key
    requires forall a | 0 <= a < |node| :: node[a].key != ek && !InSlice(node[a].key, 0, |arr|)
    requires !InSlice(ek, 0, |arr|)
    ensures Cumulative(cum) && forall l | 0 <= l <= MAXBITS :: cum[l] == Keys1(arr, node, ek, Pow(l))
    ensures forall l | 0 <= l <= MAXBITS :: SliceOk(arr, node, ek, cum, l)
  {
    hide Pow, CountArr, CountNodes, Keys1, One, SliceOk;
    cum := seq(MAXBITS + 1, l requires 0 <= l <= MAXBITS => Keys1(arr, node, ek, Pow(l)));
    forall l | 0 <= l <= MAXBITS ensures cum[l] <= Pow(l) { KeysAtMost(arr, node, ek, Pow(l)); }
    forall a, b | 0 <= a <= b <= MAXBITS ensures cum[a] <= cum[b] {
      PowMono(a, b);
      KeysSplit(arr, node, ek, Pow(a), Pow(b));
    }
    forall l | 0 <= l <= MAXBITS ensures SliceOk(arr, node, ek, cum, l) { OneSliceOk(arr, node, ek, cum, l); }
  }

  lemma {:induction false} OneSliceOk(arr: seq<Value>, node: seq<Node>, ek: Key, cum: seq<nat>, l: nat)
    requires l < |cum| && forall j | 0 <= j < |cum| :: cum[j] == Keys1(arr, node, ek, Pow(j))
    ensures SliceOk(arr, node, ek, cum, l)
  {
    hide Pow, CountArr, CountNodes;
    PowStep(l);
    KeysSplit(arr, node, ek, Lo(l), Pow(l));
    if l == 0 { KeysNone(arr, node, 0); }
  }

  lemma {:induction false} KeysSplit(arr: seq<Value>, node: seq<Node>, ek: Key, lo: nat, hi: nat)
    requires lo <= hi
    ensures Keys1(arr, node, ek, hi) == Keys1(arr, node, ek, lo) + CountArr(arr, lo, hi) + CountNodes(node, 0, lo, hi)
        + One(ek, lo, hi)
  {
    ArrSplit(arr, 0, lo, hi);
    NodesSplit(node, 0, 0, lo, hi);
  }

  lemma {:induction false} KeysNone(arr: seq<Value>, node: seq<Node>, j: nat)
    ensures CountArr(arr, 0, 0) == 0 && CountNodes(node, j, 0, 0) == 0
    decreases |node| - j
  {
    if j < |node| { KeysNone(arr, node, j + 1); }
  }
}
