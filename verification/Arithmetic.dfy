/** Facts about quotients by a size that is not a constant. */
module Arithmetic {

  lemma Multiple(a: int, size: nat)
    ensures a >= 1 ==> a * size >= size
    ensures a <= -1 ==> a * size <= -(size as int)
  {
  }

  lemma NextMultiple(size: nat, q: nat, n: nat)
    requires q * size < n * size
    ensures (q + 1) * size <= n * size
  {
  }

  lemma SameMultiple(size: nat, p: nat, q: nat)
    requires size * p <= size * q < size * p + size
    ensures p == q
  {
    assert (q - p) * size == size * q - size * p;
    Multiple(q - p, size);
  }

  lemma Below(k: nat, n: nat, size: nat)
    requires k < n
    ensures k * size <= (k + 1) * size == k * size + size <= n * size
  {
    if n == k + 1 {
    } else {
      assert (n - k - 1) * size == n * size - (k + 1) * size;
      Multiple(n - k - 1, size);
    }
  }

  lemma PartsFit(n: nat, parts: nat)
    requires parts > 0
    ensures parts * (n / parts) <= n
  {
    assert n == parts * (n / parts) + n % parts;
  }

  lemma Quotient(size: nat, k: nat, r: nat)
    requires r < size
    ensures (k * size + r) / size == k && (k * size + r) % size == r
  {
    var x := k * size + r;
    var q := x / size;
    assert x == q * size + x % size;
    assert (q - k) * size == r - x % size;
    Multiple(q - k, size);
  }
}
