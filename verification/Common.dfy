/** What several models share: options, bytes, lists without duplicates, sizes
    of sets and powers of two. */
module Common {

  datatype Option<+T> = None | Some(value: T)

  type Byte = b: int | 0 <= b < 256

  ghost predicate NoDup(l: seq<int>) {
    forall i, j | 0 <= i < j < |l| :: l[i] != l[j]
  }

  lemma {:induction false} SubsetSize<T>(a: set<T>, b: set<T>)
    requires a <= b
    ensures |a| <= |b|
    ensures a != b ==> |a| < |b|
  {
    assert b == a + (b - a);
    if a != b { assert b - a != {}; }
  }

  function Pow(l: nat): (p: nat)
    ensures p >= 1
  {
    if l == 0 then 1 else 2 * Pow(l - 1)
  }

  lemma {:induction false} AwayFromZero(d: int, n: int)
    requires n > 0
    ensures d >= 1 ==> d * n >= n
    ensures d <= -1 ==> d * n <= -n
  {
    assert d * n == (d - 1) * n + n == (d + 1) * n - n;
  }

  lemma {:induction false} DivModUnique(q: nat, n: nat, k: nat, i: nat)
    requires i < n && q == k * n + i
    ensures q / n == k && q % n == i
  {
    DivModOf(q, n);
    var a, b := q / n, q % n;
    assert (a - k) * n == a * n - k * n;
    AwayFromZero(a - k, n);
  }

  lemma {:induction false} DivModOf(q: nat, n: nat)
    requires n > 0
    ensures q == q / n * n + q % n && 0 <= q % n < n
  {
  }

  lemma {:induction false} DivDiv(p: nat, m: nat, n: nat)
    requires m > 0 && n > 0
    ensures m * n > 0 && p / m / n == p / (m * n)
  {
    var q, r := p / m / n, p / m % n;
    DivModOf(p / m, n);
    DivModOf(p, m);
    var k := r * m + p % m;
    assert (q * n + r) * m == q * (m * n) + r * m;
    assert r * m + m == (r + 1) * m;
    ProductAtMost(r + 1, n, m);
    ProductAtMost(1, n, m);
    DivModUnique(p, m * n, q, k);
  }

  lemma {:induction false} ProductAtMost(a: nat, b: nat, n: nat)
    requires a <= b
    ensures a * n <= b * n && b * n == n * b
  {
    assert b * n == a * n + (b - a) * n;
  }
}
