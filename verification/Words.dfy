/** 32-bit payload words and their word-wise sums modulo 2^32.

    Every switch in the system adds the payload words of its children in
    unsigned 32-bit arithmetic, in whatever order the packets arrive.  This module
    gives the order-free meaning of such a sum.
 */
module Words {

  const MODULUS := 0x1_0000_0000

  type Word = x: int | 0 <= x < MODULUS

  type Payload = seq<Word>

  function AddWord(a: Word, b: Word): Word {
    (a + b) % MODULUS
  }

  function AddPayload(a: Payload, b: Payload): (r: Payload)
    requires |a| == |b|
    ensures |r| == |a|
    ensures forall k :: 0 <= k < |a| ==> r[k] == AddWord(a[k], b[k])
  {
    seq(|a|, k requires 0 <= k < |a| => AddWord(a[k], b[k]))
  }

  function Zero(len: nat): (r: Payload)
    ensures |r| == len
    ensures forall k :: 0 <= k < len ==> r[k] == 0
  {
    seq(len, k => 0)
  }

  predicate Uniform(loads: seq<Payload>, len: nat) {
    forall i :: 0 <= i < |loads| ==> |loads[i]| == len
  }

  /** The ports 0, ..., n-1. */
  function Ports(n: nat): (r: set<nat>)
    ensures forall i: nat :: i in r <==> i < n
  {
    if n == 0 then {} else Ports(n - 1) + {n - 1}
  }

  lemma {:induction false} PortsCount(n: nat)
    ensures |Ports(n)| == n
  {
    if n > 0 {
      PortsCount(n - 1);
    }
  }

  /** A set of ports as large as the fan-in is all of them. */
  lemma AllPorts(n: nat, who: set<nat>)
    requires who <= Ports(n)
    ensures |who| <= n
    ensures |who| == n <==> who == Ports(n)
  {
    PortsCount(n);
    assert Ports(n) == who + (Ports(n) - who);
    assert |Ports(n)| == |who| + |Ports(n) - who|;
  }

  /** The sum, word by word and modulo 2^32, of the payloads of the ports in `who`. */
  function SumOf(loads: seq<Payload>, who: set<nat>, len: nat): (r: Payload)
    requires Uniform(loads, len)
    ensures |r| == len
  {
    if loads == [] then Zero(len)
    else
      var last := |loads| - 1;
      var rest := SumOf(loads[..last], who, len);
      if last in who then AddPayload(rest, loads[last]) else rest
  }

  function Total(loads: seq<Payload>, len: nat): (r: Payload)
    requires Uniform(loads, len)
    ensures |r| == len
  {
    SumOf(loads, Ports(|loads|), len)
  }

  /** Reference definition: the unbounded integer sum of word k over the ports in `who`. */
  function NatSum(loads: seq<Payload>, who: set<nat>, len: nat, k: nat): nat
    requires Uniform(loads, len) && k < len
  {
    if loads == [] then 0
    else
      var last := |loads| - 1;
      NatSum(loads[..last], who, len, k) + if last in who then loads[last][k] else 0
  }

  /** Each word of a payload sum is the integer sum of the contributions, reduced once. */
  lemma {:induction false} SumIsNatSumModulo(loads: seq<Payload>, who: set<nat>, len: nat, k: nat)
    requires Uniform(loads, len) && k < len
    ensures SumOf(loads, who, len)[k] == NatSum(loads, who, len, k) % 0x1_0000_0000
  {
    if loads != [] {
      SumIsNatSumModulo(loads[..|loads| - 1], who, len, k);
    }
  }

  lemma {:induction false} SumOfNobody(loads: seq<Payload>, len: nat)
    requires Uniform(loads, len)
    ensures SumOf(loads, {}, len) == Zero(len)
  {
    if loads != [] {
      SumOfNobody(loads[..|loads| - 1], len);
    }
  }

  /** Contributors beyond the last port do not count. */
  lemma {:induction false} SumDependsOnMembers(loads: seq<Payload>, who: set<nat>, who': set<nat>, len: nat)
    requires Uniform(loads, len)
    requires forall i: nat :: i < |loads| ==> (i in who <==> i in who')
    ensures SumOf(loads, who, len) == SumOf(loads, who', len)
  {
    if loads != [] {
      SumDependsOnMembers(loads[..|loads| - 1], who, who', len);
    }
  }

  lemma SwapLastTwo(a: Payload, b: Payload, c: Payload)
    requires |a| == |b| == |c|
    ensures AddPayload(AddPayload(a, b), c) == AddPayload(AddPayload(a, c), b)
  {
    forall k | 0 <= k < |a|
      ensures AddPayload(AddPayload(a, b), c)[k] == AddPayload(AddPayload(a, c), b)[k]
    {
      SwapLastTwoWords(a[k], b[k], c[k]);
    }
  }

  lemma SwapLastTwoWords(a: Word, b: Word, c: Word)
    ensures AddWord(AddWord(a, b), c) == AddWord(AddWord(a, c), b)
  {
  }

  /** A new contributor adds its payload, whatever its place in the order of the ports. */
  lemma {:induction false} SumWithNewContributor(loads: seq<Payload>, who: set<nat>, len: nat, i: nat)
    requires Uniform(loads, len) && i < |loads| && i !in who
    ensures SumOf(loads, who + {i}, len) == AddPayload(SumOf(loads, who, len), loads[i])
  {
    var last := |loads| - 1;
    var front := loads[..last];
    if i == last {
      SumDependsOnMembers(front, who + {i}, who, len);
    } else {
      SumWithNewContributor(front, who, len, i);
      if last in who {
        SwapLastTwo(SumOf(front, who, len), loads[i], loads[last]);
      }
    }
  }

  /** The first contributor's payload is the sum of that contributor alone. */
  lemma SumOfOne(loads: seq<Payload>, len: nat, i: nat)
    requires Uniform(loads, len) && i < |loads|
    ensures SumOf(loads, {i}, len) == loads[i]
  {
    SumWithNewContributor(loads, {}, len, i);
    SumOfNobody(loads, len);
    assert {} + {i} == {i};
    assert AddPayload(Zero(len), loads[i]) == loads[i];
  }
}
