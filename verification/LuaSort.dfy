/** table.sort (modules/lua/ltablib.c): a quicksort that recurses on the smaller
    part. Place 0 of the array is not used, as in a Lua table. */
module LuaSort {
  import opened Common

  /** What the comparison has to be for its answers to make sense. */
  ghost predicate StrictWeak<T(!new)>(lt: (T, T) -> bool) {
    && (forall x: T :: !lt(x, x))
    && (forall x: T, y: T :: lt(x, y) ==> !lt(y, x))
    && (forall x: T, y: T, z: T :: !lt(x, y) && !lt(y, z) ==> !lt(x, z))
  }

  /** Less is such an order on numbers, by any key too; at most is not. */
  lemma {:induction false} KeysOrdered<T(!new)>(key: T -> int, x: T)
    ensures StrictWeak((a: T, b: T) => key(a) < key(b)) && !StrictWeak((a: T, b: T) => key(a) <= key(b))
  {
    var atMost := (a: T, b: T) => key(a) <= key(b);
    assert atMost(x, x);
  }

  ghost predicate Sorted<T>(s: seq<T>, lt: (T, T) -> bool, l: int, u: int)
    requires 0 <= l && u < |s|
  {
    forall x, y | l <= x < y <= u :: !lt(s[y], s[x])
  }

  /** The comparison takes two elements from `l` to `u`, or one and itself, both ways. */
  ghost predicate BothWays<T>(s: seq<T>, lt: (T, T) -> bool, l: int, u: int) {
    exists x, y :: 0 <= l <= x <= u < |s| && l <= y <= u && lt(s[x], s[y]) && lt(s[y], s[x])
  }

  /** ... and all of them, as `<=` does with equal elements. */
  ghost predicate AllLess<T>(s: seq<T>, lt: (T, T) -> bool, l: int, u: int)
    requires 0 <= l && u < |s|
  {
    forall x, y | l <= x <= u && l <= y <= u :: lt(s[x], s[y])
  }

  /** `t` is `s` with the elements from `l` to `u` in some order. */
  ghost predicate Rearranged<T>(s: seq<T>, t: seq<T>, l: int, u: int) {
    && |t| == |s| && 0 <= l <= u + 1 <= |s|
    && s[..l] == t[..l] && s[u + 1..] == t[u + 1..] && multiset(s[l..u + 1]) == multiset(t[l..u + 1])
  }

  lemma {:induction false} RearrangedTwice<T>(s: seq<T>, t: seq<T>, v: seq<T>, l: int, u: int)
    requires Rearranged(s, t, l, u) && Rearranged(t, v, l, u)
    ensures Rearranged(s, v, l, u)
  {
  }

  lemma {:induction false} RearrangedWider<T>(s: seq<T>, t: seq<T>, l: int, u: int, l': int, u': int)
    requires Rearranged(s, t, l, u) && 0 <= l' <= l && u <= u' < |s|
    ensures Rearranged(s, t, l', u')
  {
    Cut(s, l', l, u, u');
    Cut(t, l', l, u, u');
    assert s[..l'] == s[..l][..l'] && t[..l'] == t[..l][..l'];
    assert s[l'..l] == s[..l][l'..] && t[l'..l] == t[..l][l'..];
    assert s[u' + 1..] == s[u + 1..][u' - u..] && t[u' + 1..] == t[u + 1..][u' - u..];
    assert s[u + 1..u' + 1] == s[u + 1..][..u' - u] && t[u + 1..u' + 1] == t[u + 1..][..u' - u];
  }

  lemma {:induction false} Cut<T>(s: seq<T>, l': int, l: int, u: int, u': int)
    requires 0 <= l' <= l <= u + 1 <= u' + 1 <= |s|
    ensures s[l'..u' + 1] == s[l'..l] + s[l..u + 1] + s[u + 1..u' + 1]
  {
  }

  lemma {:induction false} RearrangedAt<T>(s: seq<T>, t: seq<T>, l: int, u: int, k: int)
    requires Rearranged(s, t, l, u) && 0 <= k < |s|
    ensures (k < l || k > u) ==> t[k] == s[k]
    ensures l <= k <= u ==> exists j :: l <= j <= u && t[k] == s[j]
  {
    if k < l {
      assert t[..l][k] == s[..l][k];
    } else if k > u {
      assert t[u + 1..][k - (u + 1)] == s[u + 1..][k - (u + 1)];
    } else {
      assert t[k] == t[l..u + 1][k - l];
      assert t[k] in multiset(s[l..u + 1]);
      var j :| 0 <= j < |s[l..u + 1]| && s[l..u + 1][j] == t[k];
      assert s[l + j] == t[k];
    }
  }

  lemma {:induction false} BothWaysBefore<T>(s: seq<T>, t: seq<T>, lt: (T, T) -> bool, l: int, u: int, l': int, u': int)
    requires Rearranged(s, t, l, u) && BothWays(t, lt, l', u') && l <= l' && u' <= u
    ensures BothWays(s, lt, l, u)
  {
    hide Rearranged;
    assert |t| == |s| && 0 <= l && u < |s| by { SameLength(s, t, l, u); }
    var x, y :| 0 <= l' <= x <= u' < |t| && l' <= y <= u' && lt(t[x], t[y]) && lt(t[y], t[x]);
    RearrangedAt(s, t, l, u, x);
    RearrangedAt(s, t, l, u, y);
    var i :| l <= i <= u && t[x] == s[i];
    var j :| l <= j <= u && t[y] == s[j];
    assert lt(s[i], s[j]) && lt(s[j], s[i]);
  }

  lemma {:induction false} AllLessAfter<T>(s: seq<T>, t: seq<T>, lt: (T, T) -> bool, l: int, u: int)
    requires Rearranged(s, t, l, u) && 0 <= l && u < |s| && AllLess(s, lt, l, u)
    ensures |t| == |s| && AllLess(t, lt, l, u)
  {
    hide Rearranged;
    SameLength(s, t, l, u);
    forall x, y | l <= x <= u && l <= y <= u ensures lt(t[x], t[y]) {
      RearrangedAt(s, t, l, u, x);
      RearrangedAt(s, t, l, u, y);
    }
  }

  lemma {:induction false} SwapRearranged<T>(s: seq<T>, i: int, j: int)
    requires 0 <= i <= j < |s|
    ensures Rearranged(s, s[i := s[j]][j := s[i]], i, j)
  {
    var t := s[i := s[j]][j := s[i]];
    if i < j {
      var mid := s[i + 1..j];
      assert s[i..j + 1] == [s[i]] + mid + [s[j]];
      assert t[i..j + 1] == [s[j]] + mid + [s[i]];
    } else {
      assert t == s;
    }
  }

  lemma {:induction false} RearrangedSelf<T>(s: seq<T>, l: int, u: int)
    requires 0 <= l <= u + 1 <= |s|
    ensures Rearranged(s, s, l, u)
  {
  }

  /** set2 */
  method Swap<T>(a: array<T>, i: int, j: int, ghost s: seq<T>, ghost l: int, ghost u: int)
    requires 0 <= l <= i <= u < a.Length && l <= j <= u && Rearranged(s, a[..], l, u)
    modifies a
    ensures a[i] == old(a[j]) && a[j] == old(a[i]) && (forall k | 0 <= k < a.Length && k != i && k != j ::
        a[k] == old(a[k]))
    ensures Rearranged(s, a[..], l, u)
  {
    hide Rearranged;
    ghost var before := a[..];
    a[i], a[j] := a[j], a[i];
    assert a[..] == before[i := before[j]][j := before[i]] == before[j := before[i]][i := before[j]];
    if i <= j { SwapRearranged(before, i, j); } else { SwapRearranged(before, j, i); }
    RearrangedWider(before, a[..], if i <= j then i else j, if i <= j then j else i, l, u);
    RearrangedTwice(s, before, a[..], l, u);
  }

  lemma {:induction false} NotBoth<T(!new)>(lt: (T, T) -> bool, x: T, y: T)
    requires StrictWeak(lt)
    ensures !(lt(x, y) && lt(y, x))
  {
  }

  lemma {:induction false} Through<T(!new)>(lt: (T, T) -> bool, x: T, y: T, z: T)
    requires StrictWeak(lt) && !lt(x, y) && !lt(y, z)
    ensures !lt(x, z)
  {
  }

  /** The ends and, with more than two elements, the middle in order. */
  method OrderEnds<T(!new)>(a: array<T>, l: int, u: int, lt: (T, T) -> bool) returns (i: int)
    requires 0 <= l < u < a.Length
    modifies a
    ensures Rearranged(old(a[..]), a[..], l, u) && i == (l + u) / 2
    ensures StrictWeak(lt) ==> !lt(a[u], a[l])
    ensures StrictWeak(lt) && u - l > 1 ==> !lt(a[i], a[l]) && !lt(a[u], a[i])
    ensures u - l > 1 && lt(a[i], a[l]) ==> lt(a[l], a[i])
  {
    hide Rearranged, StrictWeak;
    ghost var s := a[..];
    RearrangedSelf(s, l, u);
    if StrictWeak(lt) { NotBoth(lt, a[u], a[l]); }
    if lt(a[u], a[l]) { Swap(a, l, u, s, l, u); }
    i := (l + u) / 2;
    if u - l == 1 { return; }
    if StrictWeak(lt) { NotBoth(lt, a[i], a[l]); NotBoth(lt, a[u], a[i]); }
    ghost var before := a[..];
    if lt(a[i], a[l]) {
      Swap(a, i, l, s, l, u);
    } else if lt(a[u], a[i]) {
      Swap(a, i, u, s, l, u);
    }
    if StrictWeak(lt) { ThreeOrdered(before, a[..], lt, l, i, u); }
  }

  lemma {:induction false} ThreeOrdered<T(!new)>(s: seq<T>, t: seq<T>, lt: (T, T) -> bool, l: int, i: int, u: int)
    requires 0 <= l < i < u < |s| == |t| && StrictWeak(lt) && !lt(s[u], s[l])
    requires if lt(s[i], s[l]) then t[i] == s[l] && t[l] == s[i] && t[u] == s[u]
             else if lt(s[u], s[i]) then t[i] == s[u]
                 && t[u] == s[i] && t[l] == s[l] else t[i] == s[i] && t[u] == s[u] && t[l] == s[l]
    ensures !lt(t[u], t[l]) && !lt(t[i], t[l]) && !lt(t[u], t[i])
  {
    hide StrictWeak;
    NotBoth(lt, s[i], s[l]);
    NotBoth(lt, s[u], s[i]);
    Through(lt, t[u], t[i], t[l]);
  }

  ghost predicate AtMost<T>(s: seq<T>, l: int, u: int, p: T, lt: (T, T) -> bool)
    requires 0 <= l && u < |s|
  {
    forall k | l <= k <= u :: !lt(p, s[k])
  }

  ghost predicate AtLeast<T>(s: seq<T>, l: int, u: int, p: T, lt: (T, T) -> bool)
    requires 0 <= l && u < |s|
  {
    forall k | l <= k <= u :: !lt(s[k], p)
  }

  /** Up to the next element that is not less than the pivot. */
  method ScanUp<T>(a: array<T>, i0: int, u: int, p: T, lt: (T, T) -> bool) returns (ok: bool, i: int)
    requires 0 <= i0 < u < a.Length
    ensures i0 < i <= u && (forall k | i0 < k < i :: lt(a[k], p)) && (ok <==> !lt(a[i], p)) && (!ok ==> i == u)
  {
    i := i0 + 1;
    while lt(a[i], p)
      invariant i0 < i <= u && forall k | i0 < k < i :: lt(a[k], p)
      decreases u - i
    {
      if i >= u { return false, i; }
      i := i + 1;
    }
    return true, i;
  }

  /** Down to the next element that is not greater than the pivot. */
  method ScanDown<T>(a: array<T>, l: int, j0: int, p: T, lt: (T, T) -> bool) returns (ok: bool, j: int)
    requires 0 <= l < j0 < a.Length
    ensures l <= j < j0 && (forall k | j < k < j0 :: lt(p, a[k])) && (ok <==> !lt(p, a[j])) && (!ok ==> j == l)
  {
    j := j0 - 1;
    while lt(p, a[j])
      invariant l <= j < j0 && forall k | j < k < j0 :: lt(p, a[k])
      decreases j
    {
      if j <= l { return false, j; }
      j := j - 1;
    }
    return true, j;
  }

  /** What has been seen is on the right side of the pivot. */
  ghost predicate Split<T(!new)>(s: seq<T>, l: int, u: int, i: int, j: int, p: T, lt: (T, T) -> bool)
    requires 0 <= l <= i && j <= u && l < j && i < u < |s|
  {
    AtMost(s, l, i, p, lt) && AtLeast(s, j, u, p, lt) && s[u - 1] == p
  }

  /** With a strict weak order a scan stops at the pivot at the latest. */
  lemma {:induction false} UpScanned<T(!new)>(s: seq<T>, l: int, u: int, i0: int, j0: int, i: int, p: T,
      lt: (T, T) -> bool)
    requires 0 <= l <= i0 < i <= u < |s| && i0 < u - 1 && l < j0 <= u && StrictWeak(lt) && Split(s, l, u, i0, j0, p, lt)
    requires (forall k | i0 < k < i :: lt(s[k], p)) && (lt(s[i], p) ==> i == u)
    ensures i < u && !lt(s[i], p) && AtMost(s, l, i - 1, p, lt)
  {
    hide StrictWeak;
    NotBoth(lt, p, p);
    forall k | i0 < k < i ensures !lt(p, s[k]) { NotBoth(lt, p, s[k]); }
  }

  lemma {:induction false} DownScanned<T(!new)>(s: seq<T>, l: int, u: int, i0: int, j0: int, j: int, p: T,
      lt: (T, T) -> bool)
    requires 0 <= l <= i0 < u < |s| && l <= j < j0 <= u && StrictWeak(lt) && Split(s, l, u, i0, j0, p, lt)
    requires (forall k | j < k < j0 :: lt(p, s[k])) && (lt(p, s[j]) ==> j == l)
    ensures !lt(p, s[j]) && AtLeast(s, j + 1, u, p, lt)
  {
    hide StrictWeak;
    forall k | j < k < j0 ensures !lt(s[k], p) { NotBoth(lt, s[k], p); }
    if j == l { assert !lt(p, s[l]); }
  }

  lemma {:induction false} FirstSplit<T(!new)>(s: seq<T>, l: int, u: int, p: T, lt: (T, T) -> bool)
    requires 0 <= l && l + 3 <= u < |s| && StrictWeak(lt) && s[u - 1] == p && !lt(p, s[l]) && !lt(s[u], p)
    ensures Split(s, l, u, l, u - 1, p, lt)
  {
    NotBoth(lt, p, p);
  }

  lemma {:induction false} SplitOn<T(!new)>(s: seq<T>, t: seq<T>, l: int, u: int, i: int, j: int, p: T,
      lt: (T, T) -> bool)
    requires 0 <= l < i <= j < u - 1 && u < |s| == |t| && AtMost(s, l, i - 1, p, lt) && AtLeast(s, j + 1, u, p, lt)
        && s[u - 1] == p
    requires !lt(s[i], p) && !lt(p, s[j])
    requires t[i] == s[j] && t[j] == s[i] && forall k | 0 <= k < |s| && k != i && k != j :: t[k] == s[k]
    ensures Split(t, l, u, i, j, p, lt)
  {
  }

  lemma {:induction false} PivotPlaced<T(!new)>(s: seq<T>, t: seq<T>, l: int, u: int, i: int, j: int, p: T,
      lt: (T, T) -> bool)
    requires 0 <= l < i < u < |s| == |t| && l <= j < i && AtMost(s, l, i - 1, p, lt) && AtLeast(s, j + 1, u, p, lt)
        && s[u - 1] == p
    requires t[i] == p && t[u - 1] == s[i] && forall k | 0 <= k < |s| && k != i && k != u - 1 :: t[k] == s[k]
    ensures AtMost(t, l, i - 1, t[i], lt) && AtLeast(t, i + 1, u, t[i], lt)
  {
  }

  lemma {:induction false} PairBothWays<T>(s: seq<T>, lt: (T, T) -> bool, l: int, u: int, x: int, y: int)
    requires 0 <= l <= x <= u < |s| && l <= y <= u && lt(s[x], s[y]) && lt(s[y], s[x])
    ensures BothWays(s, lt, l, u)
  {
  }

  lemma {:induction false} PairLess<T>(s: seq<T>, t: seq<T>, lt: (T, T) -> bool, l: int, u: int, x: int, y: int)
    requires Rearranged(s, t, l, u) && 0 <= l && u < |s| && AllLess(s, lt, l, u) && l <= x <= u && l <= y <= u
    ensures |t| == |s| && lt(t[x], t[y])
  {
    hide Rearranged;
    AllLessAfter(s, t, lt, l, u);
  }

  /** The two scans of a round, or an error if one runs past the end of the range. */
  method Scans<T(!new)>(a: array<T>, l: int, u: int, i0: int, j0: int, p: T, lt: (T, T) -> bool, ghost s: seq<T>)
    returns (ok: bool, i: int, j: int)
    requires 0 <= l <= i0 < u - 1 && u < a.Length == |s| && i0 <= j0 < u && l < j0 && a[u - 1] == p
    requires Rearranged(s, a[..], l, u) && (lt(p, a[l]) ==> lt(a[l], p))
    requires StrictWeak(lt) ==> Split(a[..], l, u, i0, j0, p, lt)
    ensures i0 < i <= u && l <= j < u && (ok ==> j < j0)
    ensures !ok ==> BothWays(a[..], lt, l, u)
    ensures AllLess(s, lt, l, u) ==> !ok
    ensures StrictWeak(lt) ==>
      && ok && i < u && !lt(a[i], p) && AtMost(a[..], l, i - 1, p, lt)
      && !lt(p, a[j]) && AtLeast(a[..], j + 1, u, p, lt)
  {
    hide Rearranged, StrictWeak, AtMost, AtLeast, Split, BothWays, AllLess;
    ghost var t := a[..];
    j := l;
    ok, i := ScanUp(a, i0, u, p, lt);
    if !ok { PairBothWays(t, lt, l, u, u - 1, u - 1); }
    if StrictWeak(lt) { UpScanned(t, l, u, i0, j0, i, p, lt); }
    if AllLess(s, lt, l, u) { PairLess(s, t, lt, l, u, i, u - 1); }
    if !ok { return; }
    ok, j := ScanDown(a, l, j0, p, lt);
    if !ok { PairBothWays(t, lt, l, u, u - 1, l); }
    if StrictWeak(lt) { DownScanned(t, l, u, i0, j0, j, p, lt); }
  }

  /** The pivot goes to its final place, with nothing greater before and nothing
      less behind it. No place outside is touched, whatever the comparison. */
  method Partition<T(!new)>(a: array<T>, l: int, u: int, m: int, lt: (T, T) -> bool) returns (ok: bool, i: int)
    requires 0 <= l && l + 3 <= u < a.Length && m == (l + u) / 2
    requires StrictWeak(lt) ==> !lt(a[m], a[l]) && !lt(a[u], a[m])
    requires lt(a[m], a[l]) ==> lt(a[l], a[m])
    modifies a
    ensures Rearranged(old(a[..]), a[..], l, u) && l < i <= u
    ensures !ok ==> BothWays(a[..], lt, l, u)
    ensures AllLess(old(a[..]), lt, l, u) ==> !ok
    ensures StrictWeak(lt) ==> ok && i < u && AtMost(a[..], l, i - 1, a[i], lt) && AtLeast(a[..], i + 1, u, a[i], lt)
  {
    hide Rearranged, StrictWeak, AtMost, AtLeast, Split, BothWays, AllLess;
    ghost var s := a[..];
    RearrangedSelf(s, l, u);
    var p := a[m];
    Swap(a, m, u - 1, s, l, u);
    if StrictWeak(lt) { FirstSplit(a[..], l, u, p, lt); }
    i := l;
    var j := u - 1;
    while true
      invariant l <= i <= j < u && (j < u - 1 ==> l < i) && (j == u - 1 ==> i == l)
      invariant Rearranged(s, a[..], l, u) && a[u - 1] == p && (lt(p, a[l]) ==> lt(a[l], p))
      invariant StrictWeak(lt) ==> Split(a[..], l, u, i, j, p, lt)
      decreases u - i
    {
      ghost var before := a[..];
      ok, i, j := Scans(a, l, u, i, j, p, lt, s);
      if !ok { return; }
      if j < i { break; }
      Swap(a, i, j, s, l, u);
      if StrictWeak(lt) { SplitOn(before, a[..], l, u, i, j, p, lt); }
    }
    ghost var before := a[..];
    Swap(a, u - 1, i, s, l, u);
    if StrictWeak(lt) { PivotPlaced(before, a[..], l, u, i, j, p, lt); }
  }

  /** In order, but for pairs inside `l` to `u`. */
  ghost predicate Outer<T>(s: seq<T>, lt: (T, T) -> bool, l0: int, u0: int, l: int, u: int)
    requires 0 <= l0 && u0 < |s|
  {
    forall x, y | l0 <= x < y <= u0 && (x < l || y > u) :: !lt(s[y], s[x])
  }

  lemma {:induction false} OuterRearranged<T>(s: seq<T>, t: seq<T>, lt: (T, T) -> bool, l0: int, u0: int, l: int,
      u: int)
    requires 0 <= l0 <= l && u <= u0 < |s| && Rearranged(s, t, l, u) && Outer(s, lt, l0, u0, l, u)
    ensures Outer(t, lt, l0, u0, l, u)
  {
    hide Rearranged;
    assert |t| == |s| by { SameLength(s, t, l, u); }
    forall x, y | l0 <= x < y <= u0 && (x < l || y > u) ensures !lt(t[y], t[x]) {
      RearrangedAt(s, t, l, u, x);
      RearrangedAt(s, t, l, u, y);
    }
  }

  lemma {:induction false} SameLength<T>(s: seq<T>, t: seq<T>, l: int, u: int)
    requires Rearranged(s, t, l, u)
    ensures |t| == |s| && 0 <= l <= u + 1 <= |s|
  {
  }

  /** A part on one side of the pivot is sorted: the other side is left to do. */
  lemma {:induction false} OuterOn<T(!new)>(s: seq<T>, t: seq<T>, lt: (T, T) -> bool, l0: int, u0: int, l: int, u: int,
      i: int, left: bool)
    requires 0 <= l0 <= l < i < u <= u0 < |s| && StrictWeak(lt) && Outer(s, lt, l0, u0, l, u)
    requires AtMost(s, l, i - 1, s[i], lt) && AtLeast(s, i + 1, u, s[i], lt)
    requires if left then Rearranged(s, t, l, i - 1)
        && Sorted(t, lt, l, i - 1) else Rearranged(s, t, i + 1, u) && Sorted(t, lt, i + 1, u)
    ensures if left then Outer(t, lt, l0, u0, i + 1, u) else Outer(t, lt, l0, u0, l, i - 1)
  {
    hide Rearranged, StrictWeak;
    var a, b := if left then l else i + 1, if left then i - 1 else u;
    SameLength(s, t, a, b);
    RearrangedWider(s, t, a, b, l, u);
    OuterRearranged(s, t, lt, l0, u0, l, u);
    RearrangedAt(s, t, a, b, i);
    forall k | l <= k <= u
      ensures (k < i ==> !lt(t[i], t[k])) && (k > i ==> !lt(t[k], t[i])) { RearrangedAt(s, t, a, b, k); }
    var l', u' := if left then i + 1 else l, if left then u else i - 1;
    forall x, y | l0 <= x < y <= u0 && (x < l' || y > u') ensures !lt(t[y], t[x]) {
      if l <= x < i < y <= u { Through(lt, t[y], t[i], t[x]); }
    }
  }

  lemma {:induction false} OuterSorted<T>(s: seq<T>, lt: (T, T) -> bool, l0: int, u0: int, l: int, u: int)
    requires 0 <= l0 && u0 < |s| && Outer(s, lt, l0, u0, l, u)
    requires u - l <= 2 && (l < u ==> l0 <= l && u <= u0 && !lt(s[u], s[l]))
        && (u - l == 2 ==> !lt(s[l + 1], s[l]) && !lt(s[u], s[l + 1]))
    ensures Sorted(s, lt, l0, u0)
  {
    forall x, y | l0 <= x < y <= u0 ensures !lt(s[y], s[x]) {
      if l <= x && y <= u { assert (x == l || x == l + 1) && (y == u || y == l + 1); }
    }
  }

  /** auxsort: whatever the comparison, it ends, rearranges the elements from `l0`
      to `u0` and touches no others; with a strict weak order it raises no error
      and leaves them sorted. There is an error only if the comparison takes some two
      elements both ways, and always if it takes all so and they are more than three.
      Fewer than 2^d elements take at most `d` nested calls. */
  method AuxSort<T(!new)>(a: array<T>, l0: int, u0: int, lt: (T, T) -> bool, ghost d: nat) returns (ok: bool)
    requires 0 <= l0 <= u0 + 1 <= a.Length && u0 - l0 + 1 < Pow(d)
    modifies a
    ensures Rearranged(old(a[..]), a[..], l0, u0)
    ensures StrictWeak(lt) ==> ok && Sorted(a[..], lt, l0, u0)
    ensures !ok ==> BothWays(old(a[..]), lt, l0, u0)
    ensures AllLess(old(a[..]), lt, l0, u0) ==> (ok <==> u0 - l0 < 3)
    decreases d
  {
    hide Rearranged, StrictWeak, Outer, Sorted, AtMost, AtLeast, BothWays, AllLess;
    ghost var s := a[..];
    RearrangedSelf(s, l0, u0);
    var l, u := l0, u0;
    OuterAll(s, lt, l0, u0);
    while l < u
      invariant l0 <= l <= u + 1 <= u0 + 1 && Rearranged(s, a[..], l0, u0)
      invariant StrictWeak(lt) ==> Outer(a[..], lt, l0, u0, l, u)
      invariant AllLess(s, lt, l0, u0) ==> l == l0 && u == u0
      decreases u - l
    {
      ghost var s1 := a[..];
      var i := OrderEnds(a, l, u, lt);
      Steps(s, s1, a[..], lt, l0, u0, l, u);
      if u - l == 1 || u - l == 2 { break; }
      ghost var s2 := a[..];
      ok, i := Partition(a, l, u, i, lt);
      if AllLess(s, lt, l0, u0) { AllLessAfter(s, s2, lt, l0, u0); }
      Steps(s, s2, a[..], lt, l0, u0, l, u);
      if !ok { BothWaysBefore(s, a[..], lt, l0, u0, l, u); }
      if !ok { return; }
      var j: int;
      ghost var s3, l1, u1, i1 := a[..], l, u, i;
      if i - l < u - i {
        j, i, l := l, i - 1, i + 1;
      } else {
        j, i, u := i + 1, u, i - 1;
      }
      ok := AuxSort(a, j, i, lt, d - 1);
      if !ok { BothWaysBefore(s, s3, lt, l0, u0, j, i); }
      Steps(s, s3, a[..], lt, l0, u0, j, i);
      if !ok { return; }
      if StrictWeak(lt) { OuterOn(s3, a[..], lt, l0, u0, l1, u1, i1, j == l1); }
    }
    if StrictWeak(lt) { OuterSorted(a[..], lt, l0, u0, l, u); }
    return true;
  }

  lemma {:induction false} OuterAll<T>(s: seq<T>, lt: (T, T) -> bool, l0: int, u0: int)
    requires 0 <= l0 && u0 < |s|
    ensures Outer(s, lt, l0, u0, l0, u0)
  {
  }

  lemma {:induction false} Steps<T(!new)>(s: seq<T>, t: seq<T>, v: seq<T>, lt: (T, T) -> bool, l0: int, u0: int, l: int,
      u: int)
    requires Rearranged(s, t, l0, u0) && Rearranged(t, v, l, u) && 0 <= l0 <= l && u <= u0 < |t|
    ensures Rearranged(s, v, l0, u0) && |v| == |t|
    ensures Outer(t, lt, l0, u0, l, u) ==> Outer(v, lt, l0, u0, l, u)
  {
    hide Rearranged, Outer;
    RearrangedWider(t, v, l, u, l0, u0);
    RearrangedTwice(s, t, v, l0, u0);
    SameLength(t, v, l, u);
    if Outer(t, lt, l0, u0, l, u) { OuterRearranged(t, v, lt, l0, u0, l, u); }
  }

  /** sort, of the list in places 1 to `n`. */
  method Sort<T(!new)>(a: array<T>, lt: (T, T) -> bool, ghost d: nat) returns (ok: bool)
    requires 1 <= a.Length <= Pow(d)
    modifies a
    ensures a[0] == old(a[0]) && multiset(a[1..]) == multiset(old(a[1..]))
    ensures StrictWeak(lt) ==> ok && forall x, y | 1 <= x < y < a.Length :: !lt(a[y], a[x])
    ensures !ok ==>
      exists x, y ::
        && 1 <= x < a.Length && 1 <= y < a.Length && lt(old(a[x]), old(a[y])) && lt(old(a[y]), old(a[x]))
    ensures (forall x, y | 1 <= x < a.Length && 1 <= y < a.Length :: lt(old(a[x]), old(a[y])))
        ==> (ok <==> a.Length <= 4)
  {
    ghost var s := a[..];
    ok := AuxSort(a, 1, a.Length - 1, lt, d);
    RearrangedAt(s, a[..], 1, a.Length - 1, 0);
    assert s[1..a.Length] == s[1..] && a[..][1..a.Length] == a[1..];
  }
}
