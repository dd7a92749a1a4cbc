/** What several of the models share. */
module Basics {

  /** The number of values of a 32-bit word. */
  const TWO_TO_32: int := 0x1_0000_0000

  const ENOMEM: int := 4

  /** A sequence with the item at `k` taken out. */
  function Without<T>(xs: seq<T>, k: nat): seq<T>
    requires k < |xs|
  {
    xs[..k] + xs[k + 1..]
  }

  /** The numbers below `n`. */
  ghost function Below(n: nat): (r: set<nat>)
    ensures |r| == n && forall i: nat :: i in r <==> i < n
  {
    if n == 0 then {} else Below(n - 1) + {n - 1}
  }

  // -------------------------------------------------------------- remainders

  /** A quotient and a remainder that fit are the quotient and the remainder. */
  lemma ModIs(x: int, s: nat, q: int, m: int)
    requires s > 0 && x == q * s + m && 0 <= m < s
    ensures x % s == m && x / s == q
  {
    Quotients(q, x / s, m, x % s, s);
  }

  lemma Quotients(q: int, d: int, m: int, n: int, s: nat)
    requires q * s + m == d * s + n && 0 <= m < s && 0 <= n < s
    ensures m == n && q == d
  {
    Distribute(q, d, s);
    Distribute(d, q, s);
    if q > d {
      AtLeast(q - d, s);
    } else if q < d {
      AtLeast(d - q, s);
    }
  }

  lemma Distribute(q: int, d: int, s: int)
    ensures (q - d) * s == q * s - d * s
  {
  }

  lemma AtLeast(e: nat, s: nat)
    requires e >= 1
    ensures e * s >= s
  {
  }

  /** Going on from a remainder. */
  lemma ModAdd(x: nat, y: nat, s: nat)
    requires s > 0 && y < s
    ensures (x + y) % s == if x % s + y < s then x % s + y else x % s + y - s
  {
    var q, m := x / s, x % s;
    Distribute(q + 1, 1, s);
    if m + y < s {
      ModIs(x + y, s, q, m + y);
    } else {
      ModIs(x + y, s, q + 1, m + y - s);
    }
  }
}
