/** CRC-32 (section 3.2.9 of IEEE 802.3, least significant bit first), eight bytes at a time from eight tables
    (`util.c`), against the bit-by-bit definition.
 */
module Crc32 {
  import opened LinearSteps

  const POLY: bv32 := 0xEDB88320

  function Xor(a: bv32, b: bv32): bv32 {
    a ^ b
  }

  /** One bit: shift right, and subtract the polynomial if a one falls out. */
  function Bit(c: bv32): bv32 {
    (c >> 1) ^ (if c & 1 == 1 then POLY else 0)
  }

  /** One byte, bit by bit. */
  function Byte(c: bv32): bv32 {
    Zeros(Bit, c, 8)
  }

  predicate IsByte(x: bv32) {
    x <= 0xFF
  }

  function Widened(data: seq<bv8>): (r: seq<bv32>)
    ensures |r| == |data|
    ensures forall i :: 0 <= i < |data| ==> r[i] == data[i] as bv32 && IsByte(r[i])
  {
    if data == [] then [] else Widened(data[..|data| - 1]) + [data[|data| - 1] as bv32]
  }

  /** The register after a string of bytes, each brought in whole and shifted out bit by bit. */
  function RegisterAfter(crc: bv32, data: seq<bv8>): bv32 {
    Register(Byte, Xor, crc, Widened(data))
  }

  /** CRC-32 of a string of bytes. */
  function Reference(data: seq<bv8>): bv32 {
    RegisterAfter(0xFFFFFFFF, data) ^ 0xFFFFFFFF
  }

  // ----- Linearity of a bit and of a byte

  lemma XorOfThree(a: bv32, b: bv32, c: bv32)
    ensures Xor(Xor(a, b), c) == Xor(a, Xor(b, c))
  {
  }

  lemma XorAssociates(a: bv32, b: bv32, c: bv32)
    ensures Associate(Xor, a, b, c)
  {
    XorOfThree(a, b, c);
  }

  lemma XorCommutes(a: bv32, b: bv32)
    ensures Commute(Xor, a, b)
  {
  }

  lemma XorAdds()
    ensures Adds(Xor, 0)
  {
    forall a, b, c
      ensures Associate(Xor, a, b, c)
    {
      XorAssociates(a, b, c);
    }
    forall a, b
      ensures Commute(Xor, a, b)
    {
      XorCommutes(a, b);
    }
  }

  lemma XorOfShifts(a: bv32, b: bv32)
    ensures (a ^ b) >> 1 == (a >> 1) ^ (b >> 1)
  {
  }

  lemma LowBitOfXor(a: bv32, b: bv32)
    ensures (a ^ b) & 1 == (a & 1) ^ (b & 1)
    ensures a & 1 == 0 || a & 1 == 1
  {
  }

  lemma XorOfFour(a: bv32, b: bv32, c: bv32, d: bv32)
    ensures (a ^ c) ^ (b ^ d) == (a ^ b) ^ (c ^ d)
  {
  }

  lemma BitOfXor(a: bv32, b: bv32)
    ensures Bit(a ^ b) == Bit(a) ^ Bit(b)
  {
    XorOfShifts(a, b);
    LowBitOfXor(a, b);
    LowBitOfXor(b, a);
    var p: bv32 := if a & 1 == 1 then POLY else 0;
    var q: bv32 := if b & 1 == 1 then POLY else 0;
    XorOfFour(a >> 1, b >> 1, p, q);
  }

  lemma BitIsLinear()
    ensures Linear(Bit, Xor, 0)
  {
    forall a, b
      ensures Distributes(Bit, Xor, a, b)
    {
      BitOfXor(a, b);
    }
  }

  lemma ByteOfXor(a: bv32, b: bv32)
    ensures Byte(Xor(a, b)) == Xor(Byte(a), Byte(b))
  {
    BitIsLinear();
    ZerosAreLinear(Bit, Xor, 0, a, b, 8);
  }

  lemma ByteIsLinear()
    ensures Linear(Byte, Xor, 0)
  {
    BitIsLinear();
    ZerosOfZero(Bit, Xor, 0, 8);
    forall a, b
      ensures Distributes(Byte, Xor, a, b)
    {
      ByteOfXor(a, b);
    }
  }

  // ----- A byte of the register at a time

  function Low(c: bv32): bv32 {
    c & 0xFF
  }

  function High(c: bv32): bv32 {
    c >> 8
  }

  lemma EightBits(c: bv32)
    ensures Byte(c) == Bit(Bit(Bit(Bit(Bit(Bit(Bit(Bit(c))))))))
  {
  }

  lemma EightShifts(c: bv32)
    ensures Bit(Bit(Bit(Bit(Bit(Bit(Bit(Bit((c >> 8) << 8)))))))) == c >> 8
  {
  }

  lemma SplitLowByte(c: bv32)
    ensures c == ((c >> 8) << 8) ^ (c & 0xFF)
  {
  }

  /** With nothing in the low byte, the polynomial is never subtracted. */
  lemma HighBytesMoveDown(c: bv32)
    ensures Byte((c >> 8) << 8) == c >> 8
  {
    EightBits((c >> 8) << 8);
    EightShifts(c);
  }

  /** The table step: one look-up replaces eight shifts. */
  lemma ByteByTable(c: bv32)
    ensures Byte(c) == Xor(High(c), Byte(Low(c)))
  {
    SplitLowByte(c);
    HighBytesMoveDown(c);
    ByteOfXor((c >> 8) << 8, c & 0xFF);
  }

  lemma ByteSplits()
    ensures Splits(Byte, Xor, Low, High)
  {
    forall c
      ensures SplitsAt(Byte, Xor, Low, High, c)
    {
      ByteByTable(c);
    }
  }

  // ----- Eight bytes at a time

  function CombinedLast(b4: bv32, b5: bv32, b6: bv32, b7: bv32): bv32 {
    Xor(Xor(Xor(Zeros(Byte, b7, 1), Zeros(Byte, b6, 2)), Zeros(Byte, b5, 3)), Zeros(Byte, b4, 4))
  }

  /** The tables' entries for eight bytes, added up. */
  function Combined(b0: bv32, b1: bv32, b2: bv32, b3: bv32, b4: bv32, b5: bv32, b6: bv32, b7: bv32): bv32 {
    Xor(Xor(Xor(Xor(CombinedLast(b4, b5, b6, b7), Zeros(Byte, b3, 5)), Zeros(Byte, b2, 6)), Zeros(Byte, b1, 7)),
        Zeros(Byte, b0, 8))
  }

  /** The register after a block. */
  lemma AfterBlock(c: bv32, d: seq<bv32>)
    requires |d| == 8
    ensures Register(Byte, Xor, c, d)
         == Combined(Xor(d[0], Low(c)), Xor(d[1], Low(High(c))), Xor(d[2], Low(High(High(c)))),
                     Xor(d[3], High(High(High(c)))), d[4], d[5], d[6], d[7])
  {
    XorAdds();
    ByteIsLinear();
    ByteSplits();
    RegisterAfterBlock(Byte, Xor, 0, Low, High, c, d);
  }

  /** The four bytes of the register, from `(crc >> 24) & 0xFF` down. */
  lemma BytesOfRegister(c: bv32)
    ensures High(High(High(c))) == (c >> 24) & 0xFF
    ensures Low(High(High(c))) == (c >> 16) & 0xFF
    ensures Low(High(c)) == (c >> 8) & 0xFF
  {
  }

  lemma {:induction false} WidenedConcat(a: seq<bv8>, b: seq<bv8>)
    ensures Widened(a + b) == Widened(a) + Widened(b)
  {
  }

  lemma RegisterAfterConcat(c: bv32, a: seq<bv8>, b: seq<bv8>)
    ensures RegisterAfter(c, a + b) == RegisterAfter(RegisterAfter(c, a), b)
  {
    WidenedConcat(a, b);
    RegisterOfConcat(Byte, Xor, c, Widened(a), Widened(b));
  }

  // ----- The tables

  lemma Index(x: bv32)
    requires x <= 0xFF
    ensures (x as int) < 256 && (x as int) as bv32 == x
  {
  }

  lemma LowIsByte(c: bv32)
    ensures IsByte(Low(c))
  {
  }

  /** The CRC of byte i followed by t zero bytes. */
  function Entry(t: nat, i: nat): bv32
    requires i < 256
  {
    Zeros(Byte, i as bv32, t + 1)
  }

  lemma EntryOf(t: nat, x: bv32)
    requires x <= 0xFF
    ensures (x as int) < 256 && Entry(t, x as int) == Zeros(Byte, x, t + 1)
  {
    Index(x);
  }

  lemma OneByte(x: bv32)
    ensures Zeros(Byte, x, 1) == Byte(x)
  {
  }

  lemma FirstTable(i: nat)
    requires i < 256
    ensures Entry(0, i) == Byte(i as bv32)
  {
    OneByte(i as bv32);
  }

  /** An entry of a later table, from the one before it and the first table. */
  lemma LaterTable(t: nat, i: nat, before: bv32)
    requires t > 0 && i < 256 && before == Entry(t - 1, i)
    ensures Xor(High(before), Zeros(Byte, Low(before), 1)) == Entry(t, i)
  {
    ByteByTable(before);
    OneByte(Low(before));
    OneZeroMore(Byte, i as bv32, t);
  }

  lemma SmallBytes(c: bv32, w: bv32)
    requires w <= 0xFF
    ensures w ^ (c & 0xFF) <= 0xFF
  {
  }

  /** The first four bytes of a block with the register added, lowest byte first. */
  method MixIn(crc: bv32, w: seq<bv32>) returns (b0: bv32, b1: bv32, b2: bv32, b3: bv32)
    requires |w| == 8 && forall i :: 0 <= i < 8 ==> IsByte(w[i])
    ensures b0 == Xor(w[0], Low(crc)) && b1 == Xor(w[1], Low(High(crc)))
    ensures b2 == Xor(w[2], Low(High(High(crc)))) && b3 == Xor(w[3], High(High(High(crc))))
    ensures IsByte(b0) && IsByte(b1) && IsByte(b2) && IsByte(b3)
  {
    BytesOfRegister(crc);
    SmallBytes(crc, w[0]);
    SmallBytes(crc >> 8, w[1]);
    SmallBytes(crc >> 16, w[2]);
    SmallBytes(crc >> 24, w[3]);
    b0 := w[0] ^ (crc & 0xFF);
    b1 := w[1] ^ ((crc >> 8) & 0xFF);
    b2 := w[2] ^ ((crc >> 16) & 0xFF);
    b3 := w[3] ^ ((crc >> 24) & 0xFF);
  }

  lemma AfterNothing(crc: bv32)
    ensures RegisterAfter(crc, []) == crc
  {
  }

  lemma AfterByte(crc: bv32, d: bv8)
    ensures RegisterAfter(crc, [d]) == Xor(High(crc), Zeros(Byte, Low(Xor(crc, d as bv32)), 1))
  {
    var x := Xor(crc, d as bv32);
    assert Widened([d]) == [d as bv32];
    RegisterOfOne(crc, d as bv32);
    ByteByTable(x);
    OneByte(Low(x));
    HighUnchanged(crc, d as bv32);
  }

  lemma RegisterOfOne(crc: bv32, w: bv32)
    ensures Register(Byte, Xor, crc, [w]) == Byte(Xor(crc, w))
  {
  }

  lemma HighUnchanged(crc: bv32, w: bv32)
    requires w <= 0xFF
    ensures High(Xor(crc, w)) == High(crc)
  {
  }

  /** Eight shifts. */
  method ShiftByte(x: bv32) returns (crc: bv32)
    ensures crc == Byte(x)
  {
    crc := x;
    for j := 0 to 8
      invariant crc == Zeros(Bit, x, j)
    {
      OneZeroMore(Bit, x, j);
      crc := Bit(crc);
    }
  }

  /** The eight look-up tables. */
  class Tables {
    const table: array2<bv32>

    ghost predicate Valid() {
      table.Length0 == 8 && table.Length1 == 256
    }

    /** The first t tables hold, for each byte, its CRC followed by as many zero bytes as the table's number. */
    ghost predicate Filled(t: nat)
      requires Valid() && t <= 8
      reads table
    {
      forall s, i :: 0 <= s < t && 0 <= i < 256 ==> table[s, i] == Entry(s, i)
    }

    constructor ()
      ensures Valid() && Filled(8)
    {
      table := new bv32[8, 256];
      new;
      InitFirst();
      for t := 1 to 8
        invariant Filled(t)
      {
        InitLater(t);
      }
    }

    method InitFirst()
      requires Valid()
      modifies table
      ensures Filled(1)
    {
      hide Entry, Byte, Zeros;
      for i := 0 to 256
        invariant forall k :: 0 <= k < i ==> table[0, k] == Entry(0, k)
      {
        FirstTable(i);
        var crc := ShiftByte(i as bv32);
        table[0, i] := crc;
      }
    }

    method InitLater(t: nat)
      requires Valid() && 1 <= t < 8 && Filled(t)
      modifies table
      ensures Filled(t + 1)
    {
      hide Entry, Byte, Zeros, Xor, High, Low;
      for i := 0 to 256
        invariant Filled(t)
        invariant forall k :: 0 <= k < i ==> table[t, k] == Entry(t, k)
      {
        var before := table[t - 1, i];
        LaterTable(t, i, before);
        LowIsByte(before);
        var first := LookUp(0, Low(before));
        table[t, i] := Xor(High(before), first);
      }
    }

    method LookUp(t: nat, x: bv32) returns (r: bv32)
      requires Valid() && t < 8 && Filled(t + 1) && IsByte(x)
      ensures r == Zeros(Byte, x, t + 1)
    {
      EntryOf(t, x);
      r := table[t, x as int];
    }

    /** The first four tables are for the second half of the block. */
    method CombineLast(b4: bv32, b5: bv32, b6: bv32, b7: bv32) returns (r: bv32)
      requires Valid() && Filled(8) && IsByte(b4) && IsByte(b5) && IsByte(b6) && IsByte(b7)
      ensures r == CombinedLast(b4, b5, b6, b7)
    {
      hide Zeros, Xor, IsByte;
      var t0 := LookUp(0, b7);
      var t1 := LookUp(1, b6);
      var t2 := LookUp(2, b5);
      var t3 := LookUp(3, b4);
      r := Xor(Xor(Xor(t0, t1), t2), t3);
    }

    /** One look-up in each table. */
    method Combine(b0: bv32, b1: bv32, b2: bv32, b3: bv32, b4: bv32, b5: bv32, b6: bv32, b7: bv32) returns (r: bv32)
      requires Valid() && Filled(8)
      requires IsByte(b0) && IsByte(b1) && IsByte(b2) && IsByte(b3)
      requires IsByte(b4) && IsByte(b5) && IsByte(b6) && IsByte(b7)
      ensures r == Combined(b0, b1, b2, b3, b4, b5, b6, b7)
    {
      hide Zeros, Xor, IsByte, CombinedLast;
      var last := CombineLast(b4, b5, b6, b7);
      var t4 := LookUp(4, b3);
      var t5 := LookUp(5, b2);
      var t6 := LookUp(6, b1);
      var t7 := LookUp(7, b0);
      r := Xor(Xor(Xor(Xor(last, t4), t5), t6), t7);
    }

    /** One block of eight bytes: the register is added to the first four. */
    method TakeBlock(crc: bv32, d: seq<bv8>) returns (r: bv32)
      requires Valid() && Filled(8) && |d| == 8
      ensures r == RegisterAfter(crc, d)
    {
      hide Combined, Zeros, Register, IsByte;
      var w := Widened(d);
      AfterBlock(crc, w);
      var b0, b1, b2, b3 := MixIn(crc, w);
      r := Combine(b0, b1, b2, b3, w[4], w[5], w[6], w[7]);
    }

    /** One byte of the rest. */
    method TakeByte(crc: bv32, d: bv8) returns (r: bv32)
      requires Valid() && Filled(8)
      ensures r == RegisterAfter(crc, [d])
    {
      hide Byte, Zeros, Register, IsByte;
      AfterByte(crc, d);
      var x := Low(Xor(crc, d as bv32));
      LowIsByte(Xor(crc, d as bv32));
      var first := LookUp(0, x);
      r := Xor(High(crc), first);
    }

    /** CRC-32 by tables is CRC-32 bit by bit, for every string of bytes. */
    method Crc(data: seq<bv8>) returns (crc: bv32)
      requires Valid() && Filled(8)
      ensures crc == Reference(data)
    {
      hide Byte, Zeros, Register, RegisterAfter, Widened, Xor;
      crc := 0xFFFFFFFF;
      var pos := 0;
      while |data| - pos >= 8
        invariant pos <= |data|
        invariant RegisterAfter(crc, data[pos..]) == RegisterAfter(0xFFFFFFFF, data)
      {
        RegisterAfterConcat(crc, data[pos..pos + 8], data[pos + 8..]);
        assert data[pos..pos + 8] + data[pos + 8..] == data[pos..];
        crc := TakeBlock(crc, data[pos..pos + 8]);
        pos := pos + 8;
      }
      while pos < |data|
        invariant pos <= |data|
        invariant RegisterAfter(crc, data[pos..]) == RegisterAfter(0xFFFFFFFF, data)
      {
        RegisterAfterConcat(crc, [data[pos]], data[pos + 1..]);
        assert [data[pos]] + data[pos + 1..] == data[pos..];
        crc := TakeByte(crc, data[pos]);
        pos := pos + 1;
      }
      assert data[pos..] == [];
      AfterNothing(crc);
      crc := crc ^ 0xFFFFFFFF;
    }
  }
}
