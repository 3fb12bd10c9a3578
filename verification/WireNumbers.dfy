/** 24-bit packet sequence numbers and the ring slots chosen by them. */
module WireNumbers {

  const PSN_SPACE: nat := 0x100_0000
  const HALF_SPACE: nat := 0x80_0000

  function Wire(q: nat): nat {
    q % PSN_SPACE
  }

  /** How far the wire number w is ahead of sequence number q, modulo the PSN space. */
  function Ahead(w: nat, q: nat): (d: nat)
    ensures d < PSN_SPACE
  {
    (w - q) % PSN_SPACE
  }

  lemma SmallMultiple(d: int, n: nat)
    requires 0 - n < d * n < n
    ensures d == 0
  {
    assert d >= 1 ==> d * n >= n;
    assert d <= -1 ==> d * n <= 0 - n;
  }

  lemma Quotient(x: nat, n: nat, q: int, r: nat)
    requires n > 0 && r < n && x == q * n + r
    ensures x % n == r
  {
    var q', r' := x / n, x % n;
    assert x == q' * n + r';
    assert (q - q') * n == q * n - q' * n;
    SmallMultiple(q - q', n);
  }

  lemma AddMultiple(r: nat, n: nat, t: nat)
    requires n > 0
    ensures (r + n * t) % n == r % n
  {
    var q := r / n;
    assert r == q * n + r % n;
    assert (q + t) * n == q * n + n * t;
    assert n * t >= 0;
    Quotient(r + n * t, n, q + t, r % n);
  }

  /** A ring of n slots gives the truncated number the same slot as the number itself. */
  predicate SameSlot(p: nat, space: nat, n: nat)
    requires space > 0 && n > 0
  {
    (p % space) % n == p % n
  }

  lemma DivisorKeepsSlot(p: nat, space: nat, n: nat)
    requires space > 0 && n > 0 && space % n == 0
    ensures SameSlot(p, space, n)
  {
    var m, k := space / n, p / space;
    assert space == n * m;
    assert p == p % space + space * k;
    assert space * k == n * (m * k);
    assert m * k >= 0;
    AddMultiple(p % space, n, m * k);
  }

  /** Slots survive the wrap of the sequence number exactly when the ring size divides the space. */
  lemma SlotsSurviveWrapIff(space: nat, n: nat)
    requires space > 0 && n > 0
    ensures (forall p: nat :: SameSlot(p, space, n)) <==> space % n == 0
  {
    if space % n == 0 {
      forall p: nat
        ensures SameSlot(p, space, n)
      {
        DivisorKeepsSlot(p, space, n);
      }
    } else {
      assert space % space == 0 by { Quotient(space, space, 1, 0); }
      assert !SameSlot(space, space, n);
    }
  }

  /** Serial-number comparison is exact within half the space. */
  lemma AheadIsExact(p: nat, q: nat)
    requires p < q + HALF_SPACE && q <= p + HALF_SPACE
    ensures Ahead(Wire(p), q) == if p >= q then p - q else PSN_SPACE - (q - p)
  {
    var k := p / PSN_SPACE;
    assert Wire(p) - q == p - q - PSN_SPACE * k;
  }
}
