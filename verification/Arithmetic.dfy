/** Facts about products, apart from the proofs that need them. */
module Arithmetic {
  lemma Distribute(a: int, b: int, c: int)
    ensures (a + b) * c == a * c + b * c
  {
  }

  lemma Mono(a: int, b: int, c: nat)
    requires a <= b
    ensures a * c <= b * c
  {
    Distribute(a, b - a, c);
  }

  /** One more term of a sum in which none is more than `gap` below `w`. */
  lemma OneMore(k: nat, w: int, sum: int, last: int, times: int, gap: int, more: nat)
    requires k * w <= sum + times * gap && w <= last + more * gap && more <= 1
    ensures (k + 1) * w <= sum + last + (times + more) * gap
  {
    Distribute(k, 1, w);
    Distribute(times, more, gap);
  }

  lemma Ceiling(total: int, m: nat, q: int)
    requires m > 0 && total >= 0 && (q - 1) * m < total <= q * m
    ensures (total + m - 1) / m == q
  {
    Distribute(q, -1, m);
    var d := (total + m - 1) / m;
    assert d * m <= total + m - 1 < (d + 1) * m by { Distribute(d, 1, m); }
    if d < q { Mono(d + 1, q, m); }
    if d > q { Mono(q + 1, d, m); Distribute(q, 1, m); }
  }
}
