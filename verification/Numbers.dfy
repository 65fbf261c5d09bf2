/** The larger and the smaller of two whole numbers. */
module Numbers {
  function Max(x: int, y: int): (m: int)
    ensures m >= x && m >= y && (m == x || m == y)
  {
    if x >= y then x else y
  }

  lemma OneTimeMore(n: nat, m: nat)
    ensures (n + 1) * m == n * m + m
  {
  }

  function Min(x: int, y: int): (m: int)
    ensures m <= x && m <= y && (m == x || m == y)
  {
    if x <= y then x else y
  }
}
