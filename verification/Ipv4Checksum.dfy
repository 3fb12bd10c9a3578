/** The IPv4 header checksum (`util.c`), against one's-complement addition as section 1 of RFC 1071 describes it
    and section 3.1 of RFC 791 requires it.  Headers are 16-bit words in network order.
 */
module Ipv4Checksum {

  const WORD: nat := 0x1_0000
  const MAX: nat := 0xFFFF

  type Half = x: int | 0 <= x < 0x1_0000

  /** The checksum field is word 5 of the header. */
  const CHECKSUM: nat := 5

  /** The header's length in 16-bit words, from the low half of its first byte. */
  function Words(first: Half): (n: nat)
    ensures n <= 30
  {
    (first / 256) % 16 * 4 / 2
  }

  // ----- One's-complement addition

  /** Addition with the carry brought round. */
  function OnesAdd(a: Half, b: Half): Half {
    if a + b > MAX then a + b - MAX else a + b
  }

  function OnesSum(ws: seq<Half>): Half {
    if ws == [] then 0 else OnesAdd(OnesSum(ws[..|ws| - 1]), ws[|ws| - 1])
  }

  function PlainSum(ws: seq<Half>): nat {
    if ws == [] then 0 else PlainSum(ws[..|ws| - 1]) + ws[|ws| - 1]
  }

  /** The one 16-bit number that a sum comes to once its carries have been brought round. */
  function Folded(sum: nat): Half {
    if sum == 0 then 0 else (sum - 1) % MAX + 1
  }

  /** All carries may be brought round at the end. */
  lemma {:induction false} FoldAtTheEnd(ws: seq<Half>)
    ensures Folded(PlainSum(ws)) == OnesSum(ws)
  {
    if ws != [] {
      var front, last := ws[..|ws| - 1], ws[|ws| - 1];
      FoldAtTheEnd(front);
      FoldOneMore(PlainSum(front), last);
    }
  }

  lemma FoldOneMore(sum: nat, last: Half)
    ensures Folded(sum + last) == OnesAdd(Folded(sum), last)
  {
    if sum > 0 {
      var q := (sum - 1) / MAX;
      assert sum == q * MAX + Folded(sum);
      FoldOf(q, Folded(sum) + last);
    } else {
      FoldOf(0, last);
    }
    FoldOf(0, Folded(sum) + last);
  }

  /** Whole multiples of 65535 do not matter, unless they are all there is. */
  lemma FoldOf(q: nat, r: nat)
    requires r < 2 * MAX + 1
    ensures r > 0 ==> Folded(q * MAX + r) == if r > 2 * MAX then r - 2 * MAX else if r > MAX then r - MAX else r
    ensures r > 0 ==> Folded(q * MAX + r) == Folded(r)
    ensures r == 0 && q > 0 ==> Folded(q * MAX + r) == MAX
  {
    if r > 0 {
      SameResidue(r - 1, q);
    }
  }

  /** One round of bringing the carry down. */
  lemma CarryKeepsFold(sum: nat)
    requires sum >= WORD
    ensures 0 < sum % WORD + sum / WORD < sum
    ensures Folded(sum % WORD + sum / WORD) == Folded(sum)
  {
    var q := sum / WORD;
    var next := sum % WORD + q;
    assert sum == next + q * MAX;
    SameFold(next, q);
  }

  lemma SameResidue(r: nat, q: nat)
    ensures (r + q * MAX) % MAX == r % MAX
  {
  }

  lemma SameFold(r: nat, q: nat)
    requires r > 0
    ensures Folded(r + q * MAX) == Folded(r)
  {
    SameResidue(r - 1, q);
  }

  // ----- The checksum

  function Cleared(h: seq<Half>): seq<Half>
    requires |h| > CHECKSUM
  {
    h[CHECKSUM := 0]
  }

  /** The header's words as far as its own length goes. */
  function Covered(h: seq<Half>): seq<Half>
    requires |h| > CHECKSUM && |h| >= Words(h[0])
  {
    h[..Words(h[0])]
  }

  method AddWords(ip: array<Half>, n: nat) returns (sum: nat)
    requires n <= ip.Length
    ensures sum == PlainSum(ip[..n])
  {
    sum := 0;
    for i := 0 to n
      invariant sum == PlainSum(ip[..i])
    {
      assert ip[..i + 1][..i] == ip[..i];
      sum := sum + ip[i];
    }
  }

  /** Adds the carries to the low half until there are none. */
  method FoldCarries(total: nat) returns (sum: Half)
    ensures sum == Folded(total)
  {
    var s: nat := total;
    while s / WORD != 0
      invariant Folded(s) == Folded(total)
      decreases s
    {
      CarryKeepsFold(s);
      s := s % WORD + s / WORD;
    }
    SmallFold(s);
    sum := s;
  }

  /** The complement of the one's-complement sum, the checksum field counting as zero; the header is left as it
      was. */
  method Checksum(ip: array<Half>) returns (checksum: Half)
    requires ip.Length >= 10 && ip.Length >= Words(ip[0])
    modifies ip
    ensures ip[..] == old(ip[..])
    ensures checksum == MAX - OnesSum(Covered(Cleared(ip[..])))
  {
    var saved := ip[CHECKSUM];
    ip[CHECKSUM] := 0;
    ghost var cleared := ip[..];
    assert cleared == Cleared(old(ip[..]));
    var n := Words(ip[0]);
    var total := AddWords(ip, n);
    assert ip[..n] == Covered(cleared);
    var sum := FoldCarries(total);
    FoldAtTheEnd(Covered(cleared));
    ip[CHECKSUM] := saved;
    assert ip[..] == old(ip[..]);
    checksum := MAX - sum;
  }

  /** Bringing carries round keeps the sum modulo 65535, and only the zero sum folds to zero. */
  lemma FoldKeepsResidue(total: nat)
    ensures Folded(total) % MAX == total % MAX && (Folded(total) == 0 <==> total == 0)
  {
    if total > 0 {
      var q := (total - 1) / MAX;
      assert total == Folded(total) + q * MAX;
      SameResidue(Folded(total), q);
    }
  }

  lemma SmallFold(sum: nat)
    requires sum <= MAX
    ensures Folded(sum) == sum
  {
  }

  /** Storing a number in the checksum field, if it is covered, adds it to the sum. */
  lemma {:induction false} SumWithField(h: seq<Half>, n: nat, c: Half)
    requires CHECKSUM < |h| && n <= |h|
    ensures PlainSum(h[CHECKSUM := c][..n]) == PlainSum(h[CHECKSUM := 0][..n]) + if CHECKSUM < n then c else 0
  {
    if n > 0 {
      SumWithField(h, n - 1, c);
      assert h[CHECKSUM := c][..n][..n - 1] == h[CHECKSUM := c][..n - 1];
      assert h[CHECKSUM := 0][..n][..n - 1] == h[CHECKSUM := 0][..n - 1];
    }
  }

  /** With the checksum stored, the one's-complement sum of the header is 0xFFFF, if and only if the header is
      long enough for the sum to cover the field, or the few words that it covers instead add up to a positive
      multiple of 65535. */
  lemma StoredChecksumIsRightIff(h: seq<Half>, c: Half)
    requires |h| >= 10 && |h| >= Words(h[0]) && c == MAX - OnesSum(Covered(Cleared(h)))
    ensures var sum := PlainSum(h[..Words(h[0])]);
            OnesSum(Covered(h[CHECKSUM := c])) == MAX
            <==> (h[0] / 256) % 16 >= 3 || (sum > 0 && sum % MAX == 0)
  {
    var n := Words(h[0]);
    SumWithField(h, n, c);
    FoldAtTheEnd(Covered(Cleared(h)));
    FoldAtTheEnd(Covered(h[CHECKSUM := c]));
    if CHECKSUM < n {
      ComplementFills(PlainSum(Covered(Cleared(h))), c);
    } else {
      assert Covered(h[CHECKSUM := c]) == h[..n];
      FoldKeepsResidue(PlainSum(h[..n]));
    }
  }

  lemma ComplementFills(sum: nat, c: Half)
    requires c == MAX - Folded(sum)
    ensures Folded(sum + c) == MAX
  {
    if sum > 0 {
      var q := (sum - 1) / MAX;
      assert sum == q * MAX + Folded(sum);
      FoldOf(q, MAX);
    }
  }
}
