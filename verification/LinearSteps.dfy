/** Shift registers whose step is linear over some addition: what the register held and each item shifted in
    contribute independently.  Nothing here is about bits; module Crc32 puts in 32-bit words and exclusive or.

    The laws are stated through named instances, which the proofs ask for one by one.
 */
module LinearSteps {

  /** The register after n zeros have been shifted in. */
  function Zeros<G>(f: G -> G, c: G, n: nat): G
    decreases n
  {
    if n == 0 then c else Zeros(f, f(c), n - 1)
  }

  /** The register after a string of data, each item added to it and then shifted in by `f`. */
  function Register<G>(f: G -> G, plus: (G, G) -> G, c: G, data: seq<G>): G
    decreases |data|
  {
    if data == [] then c else Register(f, plus, f(plus(c, data[0])), data[1..])
  }

  // ----- Laws

  ghost predicate Associate<G>(plus: (G, G) -> G, a: G, b: G, c: G) {
    plus(plus(a, b), c) == plus(a, plus(b, c))
  }

  ghost predicate Commute<G>(plus: (G, G) -> G, a: G, b: G) {
    plus(a, b) == plus(b, a)
  }

  ghost predicate Neutral<G>(plus: (G, G) -> G, zero: G, a: G) {
    plus(a, zero) == a
  }

  /** Addition is associative and commutative, with a zero. */
  ghost predicate Adds<G(!new)>(plus: (G, G) -> G, zero: G) {
    && (forall a, b, c :: Associate(plus, a, b, c))
    && (forall a, b :: Commute(plus, a, b))
    && (forall a :: Neutral(plus, zero, a))
  }

  ghost predicate Distributes<G>(f: G -> G, plus: (G, G) -> G, a: G, b: G) {
    f(plus(a, b)) == plus(f(a), f(b))
  }

  ghost predicate Linear<G(!new)>(f: G -> G, plus: (G, G) -> G, zero: G) {
    f(zero) == zero && forall a, b :: Distributes(f, plus, a, b)
  }

  // ----- Linearity over whole strings

  lemma {:induction false} OneZeroMore<G>(f: G -> G, c: G, n: nat)
    ensures Zeros(f, c, n + 1) == f(Zeros(f, c, n))
    decreases n
  {
    if n > 0 {
      OneZeroMore(f, f(c), n - 1);
    }
  }

  lemma {:induction false} RegisterOfConcat<G>(f: G -> G, plus: (G, G) -> G, c: G, a: seq<G>, b: seq<G>)
    ensures Register(f, plus, c, a + b) == Register(f, plus, Register(f, plus, c, a), b)
    decreases |a|
  {
    if a == [] {
      assert a + b == b;
    } else {
      assert (a + b)[1..] == a[1..] + b;
      RegisterOfConcat(f, plus, f(plus(c, a[0])), a[1..], b);
    }
  }

  lemma {:induction false} ZerosAreLinear<G(!new)>(f: G -> G, plus: (G, G) -> G, zero: G, a: G, b: G, n: nat)
    requires Linear(f, plus, zero)
    ensures Zeros(f, plus(a, b), n) == plus(Zeros(f, a, n), Zeros(f, b, n))
    decreases n
  {
    if n > 0 {
      assert Distributes(f, plus, a, b);
      ZerosAreLinear(f, plus, zero, f(a), f(b), n - 1);
    }
  }

  lemma {:induction false} ZerosOfZero<G(!new)>(f: G -> G, plus: (G, G) -> G, zero: G, n: nat)
    requires Linear(f, plus, zero)
    ensures Zeros(f, zero, n) == zero
    decreases n
  {
    if n > 0 {
      ZerosOfZero(f, plus, zero, n - 1);
    }
  }

  /** The register's own contents and the data contribute independently. */
  lemma {:induction false} RegisterIsLinear<G(!new)>(f: G -> G, plus: (G, G) -> G, zero: G, a: G, b: G, data: seq<G>)
    requires Adds(plus, zero) && Linear(f, plus, zero)
    ensures Register(f, plus, plus(a, b), data) == plus(Zeros(f, a, |data|), Register(f, plus, b, data))
    decreases |data|
  {
    if data != [] {
      var d := data[0];
      assert Associate(plus, a, b, d);
      assert Distributes(f, plus, a, plus(b, d));
      RegisterIsLinear(f, plus, zero, f(a), f(plus(b, d)), data[1..]);
    }
  }

  /** An item contributes as if alone, followed by as many zeros as there are items after it. */
  lemma FirstItem<G(!new)>(f: G -> G, plus: (G, G) -> G, zero: G, data: seq<G>)
    requires Adds(plus, zero) && Linear(f, plus, zero) && data != []
    ensures Register(f, plus, zero, data) == plus(Zeros(f, data[0], |data|), Register(f, plus, zero, data[1..]))
  {
    var d := data[0];
    assert Commute(plus, zero, d) && Neutral(plus, zero, d) && Neutral(plus, zero, f(d));
    RegisterIsLinear(f, plus, zero, f(d), zero, data[1..]);
  }

  /** The sum of a string of terms, from the right. */
  function Sum<G>(plus: (G, G) -> G, terms: seq<G>): G
    requires |terms| > 0
  {
    if |terms| == 1 then terms[0] else plus(terms[0], Sum(plus, terms[1..]))
  }

  /** What each of a string of items contributes to the register. */
  function Contributions<G>(f: G -> G, data: seq<G>): (r: seq<G>)
    ensures |r| == |data| && forall i :: 0 <= i < |data| ==> r[i] == Zeros(f, data[i], |data| - i)
  {
    seq(|data|, i requires 0 <= i < |data| => Zeros(f, data[i], |data| - i))
  }

  /** The register after a string of items, started at zero, is the sum of what they contribute. */
  lemma {:induction false} RegisterIsSum<G(!new)>(f: G -> G, plus: (G, G) -> G, zero: G, data: seq<G>)
    requires Adds(plus, zero) && Linear(f, plus, zero) && |data| > 0
    ensures Register(f, plus, zero, data) == Sum(plus, Contributions(f, data))
  {
    FirstItem(f, plus, zero, data);
    if |data| == 1 {
      assert Neutral(plus, zero, Zeros(f, data[0], 1));
    } else {
      RegisterIsSum(f, plus, zero, data[1..]);
      assert Contributions(f, data)[1..] == Contributions(f, data[1..]);
    }
  }

  // ----- A register taken apart

  ghost predicate SplitsAt<G>(f: G -> G, plus: (G, G) -> G, low: G -> G, high: G -> G, c: G) {
    f(c) == plus(high(c), f(low(c)))
  }

  /** `low` and `high` split a register so that a step only moves the high part down. */
  ghost predicate Splits<G(!new)>(f: G -> G, plus: (G, G) -> G, low: G -> G, high: G -> G) {
    forall c :: SplitsAt(f, plus, low, high, c)
  }

  /** The low part needs one zero more than the rest. */
  lemma LowPartFirst<G(!new)>(f: G -> G, plus: (G, G) -> G, zero: G, low: G -> G, high: G -> G, c: G, n: nat)
    requires Linear(f, plus, zero) && Splits(f, plus, low, high) && n > 0
    ensures Zeros(f, c, n) == plus(Zeros(f, high(c), n - 1), Zeros(f, low(c), n))
  {
    assert SplitsAt(f, plus, low, high, c);
    ZerosAreLinear(f, plus, zero, high(c), f(low(c)), n - 1);
  }

  lemma FourParts<G(!new)>(f: G -> G, plus: (G, G) -> G, zero: G, low: G -> G, high: G -> G, c: G)
    requires Linear(f, plus, zero) && Splits(f, plus, low, high)
    ensures Zeros(f, c, 8)
         == plus(plus(plus(Zeros(f, high(high(high(c))), 5), Zeros(f, low(high(high(c))), 6)),
                      Zeros(f, low(high(c)), 7)), Zeros(f, low(c), 8))
  {
    LowPartFirst(f, plus, zero, low, high, c, 8);
    LowPartFirst(f, plus, zero, low, high, high(c), 7);
    LowPartFirst(f, plus, zero, low, high, high(high(c)), 6);
  }

  // ----- A block of eight items, the first four of them meeting the four parts of the register

  lemma Exchange<G(!new)>(plus: (G, G) -> G, zero: G, x: G, c: G, d: G, rest: G)
    requires Adds(plus, zero)
    ensures plus(plus(x, c), plus(d, rest)) == plus(plus(x, rest), plus(d, c))
  {
    assert Commute(plus, d, rest) && Commute(plus, c, plus(rest, d)) && Commute(plus, c, d);
    assert Associate(plus, x, c, plus(rest, d)) && Associate(plus, rest, d, c) && Associate(plus, x, rest, plus(d, c));
  }

  lemma Backwards<G(!new)>(plus: (G, G) -> G, zero: G, a: G, b: G, c: G, d: G)
    requires Adds(plus, zero)
    ensures plus(a, plus(b, plus(c, d))) == plus(plus(plus(d, c), b), a)
  {
    assert Commute(plus, c, d) && Commute(plus, b, plus(d, c)) && Commute(plus, a, plus(plus(d, c), b));
  }

  lemma {:induction false} SumTail<G>(plus: (G, G) -> G, t: seq<G>, k: nat)
    requires k + 1 < |t|
    ensures Sum(plus, t[k..]) == plus(t[k], Sum(plus, t[k + 1..]))
  {
    assert t[k..][1..] == t[k + 1..];
  }

  lemma EightTerms<G>(plus: (G, G) -> G, t: seq<G>)
    requires |t| == 8
    ensures Sum(plus, t)
         == plus(t[0], plus(t[1], plus(t[2], plus(t[3], plus(t[4], plus(t[5], plus(t[6], t[7])))))))
  {
    assert t[0..] == t;
    SumTail(plus, t, 0);
    SumTail(plus, t, 1);
    SumTail(plus, t, 2);
    SumTail(plus, t, 3);
    SumTail(plus, t, 4);
    SumTail(plus, t, 5);
    SumTail(plus, t, 6);
    assert Sum(plus, t[7..]) == t[7];
  }

  lemma BlockOrder<G(!new)>(plus: (G, G) -> G, zero: G, c0: G, c1: G, c2: G, c3: G, t: seq<G>)
    requires Adds(plus, zero) && |t| == 8
    ensures plus(plus(plus(plus(c3, c2), c1), c0), Sum(plus, t))
         == plus(plus(plus(plus(plus(plus(plus(t[7], t[6]), t[5]), t[4]), plus(t[3], c3)), plus(t[2], c2)),
                      plus(t[1], c1)), plus(t[0], c0))
  {
    var r4 := plus(t[4], plus(t[5], plus(t[6], t[7])));
    var r3 := plus(t[3], r4);
    var r2 := plus(t[2], r3);
    var r1 := plus(t[1], r2);
    EightTerms(plus, t);
    Exchange(plus, zero, plus(plus(c3, c2), c1), c0, t[0], r1);
    Exchange(plus, zero, plus(c3, c2), c1, t[1], r2);
    Exchange(plus, zero, c3, c2, t[2], r3);
    assert Commute(plus, t[3], r4) && Commute(plus, c3, plus(r4, t[3])) && Associate(plus, r4, t[3], c3);
    Backwards(plus, zero, t[4], t[5], t[6], t[7]);
  }

  /** One block: each part of the register can be added to its item before anything is looked up. */
  lemma RegisterAfterBlock<G(!new)>(f: G -> G, plus: (G, G) -> G, zero: G, low: G -> G, high: G -> G, c: G, d: seq<G>)
    requires Adds(plus, zero) && Linear(f, plus, zero) && Splits(f, plus, low, high) && |d| == 8
    ensures Register(f, plus, c, d)
         == plus(plus(plus(plus(plus(plus(plus(Zeros(f, d[7], 1), Zeros(f, d[6], 2)), Zeros(f, d[5], 3)),
              Zeros(f, d[4], 4)),
              Zeros(f, plus(d[3], high(high(high(c)))), 5)), Zeros(f, plus(d[2], low(high(high(c)))), 6)),
              Zeros(f, plus(d[1], low(high(c))), 7)), Zeros(f, plus(d[0], low(c)), 8))
  {
    var c3, c2, c1, c0 := high(high(high(c))), low(high(high(c))), low(high(c)), low(c);
    assert Neutral(plus, zero, c);
    RegisterIsLinear(f, plus, zero, c, zero, d);
    FourParts(f, plus, zero, low, high, c);
    RegisterIsSum(f, plus, zero, d);
    ZerosAreLinear(f, plus, zero, d[3], c3, 5);
    ZerosAreLinear(f, plus, zero, d[2], c2, 6);
    ZerosAreLinear(f, plus, zero, d[1], c1, 7);
    ZerosAreLinear(f, plus, zero, d[0], c0, 8);
    BlockOrder(plus, zero, Zeros(f, c0, 8), Zeros(f, c1, 7), Zeros(f, c2, 6), Zeros(f, c3, 5), Contributions(f, d));
  }
}
