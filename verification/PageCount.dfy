/** How many pages of a size hold a number of entries: feed pages and search pages
    alike. */
module PageCount {

  /** How many pages of the given size hold n entries. */
  function Pages(n: nat, limit: nat): nat
    requires limit > 0
  {
    if n == 0 then 0 else if n <= limit then 1 else 1 + Pages(n - limit, limit)
  }

  lemma {:induction false} PagesIsCeiling(n: nat, limit: nat)
    requires limit > 0
    ensures limit * Pages(n, limit) >= n
    ensures n > 0 ==> limit * (Pages(n, limit) - 1) < n
  {
    if n > limit {
      PagesIsCeiling(n - limit, limit);
    }
  }

  lemma Times(d: nat, a: nat, b: nat)
    requires a <= b
    ensures d * a <= d * b
  {
    assert d * (b - a) >= 0;
  }

  /** (n + size - 1) / size is the number of pages of the size that hold n rows. */
  lemma PagesIsDivision(n: nat, size: nat)
    requires size >= 1
    ensures (n + size - 1) / size == Pages(n, size)
  {
    PagesIsCeiling(n, size);
    var k := Pages(n, size);
    if n > 0 {
      assert size * (k - 1) < n <= size * k;
      Quotient(n + size - 1, size, k);
    } else {
      Quotient(size - 1, size, 0);
    }
  }

  lemma Quotient(m: nat, d: nat, k: nat)
    requires d >= 1 && d * k <= m < d * (k + 1)
    ensures m / d == k
  {
    var q, r := m / d, m % d;
    assert m == d * q + r;
    if q < k {
      Times(d, q + 1, k);
    } else if q > k {
      Times(d, k + 1, q);
    }
  }
}
