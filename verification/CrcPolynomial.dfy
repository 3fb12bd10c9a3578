/** What CRC-32 is: the remainder of a division of polynomials over the field of two elements, by the generator of
    section 3.2.9 of IEEE 802.3.  Nothing in the definition knows of registers, shifts or tables.
 */
module CrcPolynomial {
  import opened LinearSteps
  import opened Crc32

  // ----- Polynomials, as the sequence of their coefficients, highest power first

  /** The coefficient of x^k. */
  function Coeff(p: seq<bool>, k: nat): bool {
    k < |p| && p[|p| - 1 - k]
  }

  /** The powers of x in the generator. */
  predicate InGenerator(k: nat) {
    k in {32, 26, 23, 22, 16, 12, 11, 10, 8, 7, 5, 4, 2, 1, 0}
  }

  /** The coefficient of x^k in q times the generator. */
  function Product(q: seq<bool>, k: nat): bool
    decreases |q|
  {
    if q == [] then false
    else (k > 0 && Product(q[..|q| - 1], k - 1)) != (q[|q| - 1] && InGenerator(k))
  }

  /** p is q times the generator, plus r. */
  ghost predicate Divides(p: seq<bool>, q: seq<bool>, r: seq<bool>) {
    forall k: nat :: Coeff(p, k) == (Product(q, k) != Coeff(r, k))
  }

  /** r, of degree less than 32, is the remainder of p divided by the generator. */
  ghost predicate IsRemainder(p: seq<bool>, r: seq<bool>) {
    |r| == 32 && exists q: seq<bool> :: Divides(p, q, r)
  }

  lemma {:induction false} LeadingZero(q: seq<bool>, k: nat)
    ensures Product([false] + q, k) == Product(q, k)
    decreases |q|
  {
    if q == [] {
      assert [false] + q == [false];
    } else {
      assert ([false] + q)[..|q|] == [false] + q[..|q| - 1];
      if k > 0 {
        LeadingZero(q[..|q| - 1], k - 1);
      }
    }
  }

  /** Quotients of the same length whose products agree from x^32 on are the same. */
  lemma {:induction false} SameQuotient(q: seq<bool>, q': seq<bool>)
    requires |q| == |q'| && forall k: nat :: k >= 32 ==> Product(q, k) == Product(q', k)
    ensures q == q'
    decreases |q|
  {
    if q != [] {
      var f, f' := q[..|q| - 1], q'[..|q| - 1];
      forall k: nat | k >= 32
        ensures Product(f, k) == Product(f', k)
      {
        assert Product(q, k + 1) == Product(q', k + 1);
      }
      SameQuotient(f, f');
      assert Product(q, 32) == Product(q', 32);
    }
  }

  lemma {:induction false} SameProducts(q: seq<bool>, q': seq<bool>, k: nat)
    requires |q| <= |q'| && forall k: nat :: k >= 32 ==> Product(q, k) == Product(q', k)
    ensures Product(q, k) == Product(q', k)
    decreases |q'| - |q|
  {
    if |q| == |q'| {
      SameQuotient(q, q');
    } else {
      forall k: nat
        ensures Product([false] + q, k) == Product(q, k)
      {
        LeadingZero(q, k);
      }
      SameProducts([false] + q, q', k);
    }
  }

  /** There is only one remainder. */
  lemma RemainderIsUnique(p: seq<bool>, r: seq<bool>, r': seq<bool>)
    requires IsRemainder(p, r) && IsRemainder(p, r')
    ensures r == r'
  {
    var q :| Divides(p, q, r);
    var q' :| Divides(p, q', r');
    forall k: nat
      ensures k >= 32 ==> Product(q, k) == Product(q', k)
    {
      assert Coeff(p, k) == (Product(q, k) != Coeff(r, k));
      assert Coeff(p, k) == (Product(q', k) != Coeff(r', k));
    }
    forall j | 0 <= j < 32
      ensures r[j] == r'[j]
    {
      var k: nat := 31 - j;
      if |q| <= |q'| {
        SameProducts(q, q', k);
      } else {
        SameProducts(q', q, k);
      }
      assert Coeff(p, k) == (Product(q, k) != Coeff(r, k));
      assert Coeff(p, k) == (Product(q', k) != Coeff(r', k));
    }
  }

  // ----- Strings of bytes and registers as polynomials

  predicate Odd(c: bv32) {
    c & 1 == 1
  }

  function Half(c: bv32): bv32 {
    c >> 1
  }

  /** Bit j of a word, counted from the least significant. */
  function BitOf(c: bv32, j: nat): bool {
    if j == 0 then Odd(c) else BitOf(Half(c), j - 1)
  }

  /** The n lowest bits, the least significant first. */
  function LowBits(c: bv32, n: nat): (r: seq<bool>)
    ensures |r| == n && forall j :: 0 <= j < n ==> r[j] == BitOf(c, j)
  {
    if n == 0 then [] else LowBits(c, n - 1) + [BitOf(c, n - 1)]
  }

  /** The bits of a string of bytes, the least significant bit of each byte first. */
  function Bits(data: seq<bv8>): seq<bool> {
    if data == [] then [] else Bits(data[..|data| - 1]) + LowBits(data[|data| - 1] as bv32, 8)
  }

  /** A message times x^32, its first 32 coefficients complemented. */
  function Dividend(bits: seq<bool>): (p: seq<bool>)
    ensures |p| == |bits| + 32
  {
    seq(|bits| + 32, i requires 0 <= i < |bits| + 32 => (i < |bits| && bits[i]) != (i < 32))
  }

  /** A word as a polynomial, its least significant bit being the coefficient of x^31. */
  function Reflected(c: bv32): (p: seq<bool>)
    ensures |p| == 32
  {
    LowBits(c, 32)
  }

  // ----- Bits of words

  lemma OddOfXor(a: bv32, b: bv32)
    ensures Odd(Xor(a, b)) == (Odd(a) != Odd(b))
  {
    LowBitOfXor(a, b);
    LowBitOfXor(b, a);
  }

  lemma HalfOfXor(a: bv32, b: bv32)
    ensures Half(Xor(a, b)) == Xor(Half(a), Half(b))
  {
    XorOfShifts(a, b);
  }

  lemma {:induction false} BitOfXor(a: bv32, b: bv32, j: nat)
    ensures BitOf(Xor(a, b), j) == (BitOf(a, j) != BitOf(b, j))
    decreases j
  {
    hide Odd, Half, Xor;
    if j == 0 {
      OddOfXor(a, b);
    } else {
      HalfOfXor(a, b);
      BitOfXor(Half(a), Half(b), j - 1);
    }
  }

  function Quarter(c: bv32): bv32 {
    Half(Half(c))
  }

  function Sixteenth(c: bv32): bv32 {
    Quarter(Quarter(c))
  }

  lemma FourDown(c: bv32, j: nat)
    ensures BitOf(c, j + 4) == BitOf(Sixteenth(c), j)
  {
    hide Odd, Half;
    assert BitOf(c, j + 4) == BitOf(Half(c), j + 3) == BitOf(Quarter(c), j + 2);
    assert BitOf(Quarter(c), j + 2) == BitOf(Half(Quarter(c)), j + 1) == BitOf(Sixteenth(c), j);
  }

  /** Four bits at once. */
  function Four(c: bv32): (bool, bool, bool, bool) {
    (Odd(c), Odd(Half(c)), Odd(Quarter(c)), Odd(Half(Quarter(c))))
  }

  lemma FourBits(c: bv32)
    ensures Four(c) == (BitOf(c, 0), BitOf(c, 1), BitOf(c, 2), BitOf(c, 3))
  {
    hide Odd, Half;
    assert BitOf(c, 1) == BitOf(Half(c), 0);
    assert BitOf(c, 2) == BitOf(Half(c), 1) == BitOf(Quarter(c), 0);
    assert BitOf(c, 3) == BitOf(Half(c), 2) == BitOf(Quarter(c), 1) == BitOf(Half(Quarter(c)), 0);
  }

  lemma GeneratorDigits()
    ensures Four(POLY) == (false, false, false, false) && Sixteenth(POLY) == 0x0EDB8832
    ensures Four(0x0EDB8832) == (false, true, false, false) && Sixteenth(0x0EDB8832) == 0x00EDB883
    ensures Four(0x00EDB883) == (true, true, false, false) && Sixteenth(0x00EDB883) == 0x000EDB88
    ensures Four(0x000EDB88) == (false, false, false, true) && Sixteenth(0x000EDB88) == 0x0000EDB8
    ensures Four(0x0000EDB8) == (false, false, false, true) && Sixteenth(0x0000EDB8) == 0x00000EDB
    ensures Four(0x00000EDB) == (true, true, false, true) && Sixteenth(0x00000EDB) == 0x000000ED
    ensures Four(0x000000ED) == (true, false, true, true) && Sixteenth(0x000000ED) == 0x0000000E
    ensures Four(0x0000000E) == (false, true, true, true)
  {
  }

  /** A word's bits, given its lowest four and the rest. */
  lemma FourAtATime(c: bv32, rest: bv32, j: nat)
    requires Sixteenth(c) == rest
    ensures Four(c) == (BitOf(c, 0), BitOf(c, 1), BitOf(c, 2), BitOf(c, 3))
    ensures j >= 4 ==> BitOf(c, j) == BitOf(rest, j - 4)
  {
    hide Odd, Half, Quarter, Sixteenth, Four;
    FourBits(c);
    if j >= 4 {
      FourDown(c, j - 4);
    }
  }

  function Down(j: nat, n: nat): nat {
    if j < n then 0 else j - n
  }

  /** The constant of the code is the generator without its leading term, in reflected order. */
  lemma ConstantIsGenerator(j: nat)
    requires j < 32
    ensures BitOf(POLY, j) == InGenerator(31 - j)
  {
    hide Odd, Half, Quarter, Sixteenth, Four, BitOf;
    GeneratorDigits();
    FourAtATime(POLY, 0x0EDB8832, j);
    FourAtATime(0x0EDB8832, 0x00EDB883, Down(j, 4));
    FourAtATime(0x00EDB883, 0x000EDB88, Down(j, 8));
    FourAtATime(0x000EDB88, 0x0000EDB8, Down(j, 12));
    FourAtATime(0x0000EDB8, 0x00000EDB, Down(j, 16));
    FourAtATime(0x00000EDB, 0x000000ED, Down(j, 20));
    FourAtATime(0x000000ED, 0x0000000E, Down(j, 24));
    FourBits(0x0000000E);
  }

  /** Words have 32 bits. */
  lemma NoBitBeyond(c: bv32)
    ensures BitOf(c, 32) == false
  {
    hide Odd, Half, Quarter, Sixteenth;
    var c1 := Sixteenth(c);
    var c2 := Sixteenth(c1);
    var c3 := Sixteenth(c2);
    var c4 := Sixteenth(c3);
    var c5 := Sixteenth(c4);
    var c6 := Sixteenth(c5);
    var c7 := Sixteenth(c6);
    FourDown(c, 28);
    FourDown(c1, 24);
    FourDown(c2, 20);
    FourDown(c3, 16);
    FourDown(c4, 12);
    FourDown(c5, 8);
    FourDown(c6, 4);
    FourDown(c7, 0);
    AllOut(c);
  }

  lemma AllOut(c: bv32)
    ensures !Odd(Sixteenth(Sixteenth(Sixteenth(Sixteenth(Sixteenth(Sixteenth(Sixteenth(Sixteenth(c)))))))))
  {
  }

  lemma AllOnes(j: nat)
    requires j < 32
    ensures BitOf(0xFFFFFFFF, j)
  {
    hide Odd, Half, Quarter, Sixteenth, Four, BitOf;
    OnesDigits();
    FourAtATime(0xFFFFFFFF, 0x0FFFFFFF, j);
    FourAtATime(0x0FFFFFFF, 0x00FFFFFF, Down(j, 4));
    FourAtATime(0x00FFFFFF, 0x000FFFFF, Down(j, 8));
    FourAtATime(0x000FFFFF, 0x0000FFFF, Down(j, 12));
    FourAtATime(0x0000FFFF, 0x00000FFF, Down(j, 16));
    FourAtATime(0x00000FFF, 0x000000FF, Down(j, 20));
    FourAtATime(0x000000FF, 0x0000000F, Down(j, 24));
    FourBits(0x0000000F);
  }

  lemma OnesDigits()
    ensures Four(0xFFFFFFFF) == Four(0x0FFFFFFF) == Four(0x00FFFFFF) == Four(0x000FFFFF) == (true, true, true, true)
    ensures Four(0x0000FFFF) == Four(0x00000FFF) == Four(0x000000FF) == Four(0x0000000F) == (true, true, true, true)
    ensures Sixteenth(0xFFFFFFFF) == 0x0FFFFFFF && Sixteenth(0x0FFFFFFF) == 0x00FFFFFF
    ensures Sixteenth(0x00FFFFFF) == 0x000FFFFF && Sixteenth(0x000FFFFF) == 0x0000FFFF
    ensures Sixteenth(0x0000FFFF) == 0x00000FFF && Sixteenth(0x00000FFF) == 0x000000FF
    ensures Sixteenth(0x000000FF) == 0x0000000F
  {
  }

  // ----- One bit at a time

  /** The register after a string of bits, each added at the low end and shifted in. */
  function Serial(c: bv32, bits: seq<bool>): bv32 {
    if bits == [] then c else Bit(Xor(Serial(c, bits[..|bits| - 1]), Digit(bits[|bits| - 1])))
  }

  function Digit(b: bool): bv32 {
    if b then 1 else 0
  }

  lemma ShiftedOnce(c: bv32)
    ensures Bit(c) == Xor(Half(c), if Odd(c) then POLY else 0)
  {
    hide Bit, Xor, Half, Odd;
    if Odd(c) {
      OddShift(c);
    } else {
      EvenShift(c);
    }
  }

  lemma OddShift(c: bv32)
    requires Odd(c)
    ensures Bit(c) == Xor(Half(c), POLY)
  {
  }

  lemma EvenShift(c: bv32)
    requires !Odd(c)
    ensures Bit(c) == Xor(Half(c), 0)
  {
  }

  lemma OneDigit(b: bool, j: nat)
    ensures BitOf(Digit(b), j) == (j == 0 && b)
  {
    hide Odd, Half, Digit;
    DigitParts(b);
    if j > 0 {
      NoBits(j - 1);
    }
  }

  lemma DigitParts(b: bool)
    ensures Odd(Digit(b)) == b && Half(Digit(b)) == 0
  {
  }

  lemma {:induction false} NoBits(j: nat)
    ensures !BitOf(0, j)
  {
    if j > 0 {
      NoBits(j - 1);
    }
  }

  /** One more bit of the message: everything moves up a power, and the bit joins x^32. */
  lemma DividendNext(bits: seq<bool>, b: bool, k: nat)
    ensures Coeff(Dividend(bits + [b]), k) == ((k > 0 && Coeff(Dividend(bits), k - 1)) != (k == 32 && b))
  {
  }

  lemma RegisterBit(c: bv32, k: nat)
    ensures Coeff(Reflected(c), k) == (k < 32 && BitOf(c, 31 - k))
  {
    hide BitOf;
  }

  /** The same for the register, the generator being subtracted if x^32 comes up. */
  lemma RegisterNext(c: bv32, b: bool, k: nat)
    ensures var x := Xor(c, Digit(b));
            ((k > 0 && Coeff(Reflected(c), k - 1)) != (k == 32 && b))
            == ((Odd(x) && InGenerator(k)) != Coeff(Reflected(Bit(x)), k))
  {
    hide Odd, Half, Xor, Digit, Bit, BitOf, InGenerator, Reflected;
    var x := Xor(c, Digit(b));
    RegisterBit(Bit(x), k);
    if k < 32 {
      NextBit(x, 31 - k);
    }
    if k > 0 {
      RegisterBit(c, k - 1);
      if k <= 32 {
        BitOfXor(c, Digit(b), 32 - k);
        OneDigit(b, 32 - k);
      }
    }
    BitZero(x);
    GeneratorEnds(k);
  }

  lemma BitZero(x: bv32)
    ensures BitOf(x, 0) == Odd(x)
  {
  }

  lemma GeneratorEnds(k: nat)
    ensures k > 32 ==> !InGenerator(k)
    ensures InGenerator(32) && InGenerator(0)
  {
  }

  /** Bit j of the shifted register. */
  lemma NextBit(x: bv32, j: nat)
    requires j < 32
    ensures BitOf(Bit(x), j) == (BitOf(x, j + 1) != (Odd(x) && InGenerator(31 - j)))
    ensures j == 31 ==> !BitOf(x, j + 1)
  {
    hide Odd, Half, Xor, Bit, InGenerator;
    ShiftedOnce(x);
    BitOfXor(Half(x), if Odd(x) then POLY else 0, j);
    ConstantIsGenerator(j);
    NoBits(j);
    NoBitBeyond(x);
  }

  /** After any string of bits the register holds the remainder. */
  lemma {:induction false} SerialIsRemainder(bits: seq<bool>)
    ensures IsRemainder(Dividend(bits), Reflected(Serial(0xFFFFFFFF, bits)))
    decreases |bits|
  {
    hide Odd, Xor, Digit, Bit, InGenerator, Reflected, Coeff, Product, Dividend;
    if bits == [] {
      StartDivides();
    } else {
      var front, b := bits[..|bits| - 1], bits[|bits| - 1];
      SerialIsRemainder(front);
      var c := Serial(0xFFFFFFFF, front);
      var q :| Divides(Dividend(front), q, Reflected(c));
      assert bits == front + [b];
      DividesNext(front, b, c, q);
    }
  }

  lemma StartDivides()
    ensures Divides(Dividend([]), [], Reflected(0xFFFFFFFF))
  {
    hide BitOf;
    forall k: nat
      ensures Coeff(Dividend([]), k) == (Product([], k) != Coeff(Reflected(0xFFFFFFFF), k))
    {
      RegisterBit(0xFFFFFFFF, k);
      if k < 32 {
        AllOnes(31 - k);
      }
    }
  }

  lemma DividesNext(front: seq<bool>, b: bool, c: bv32, q: seq<bool>)
    requires Divides(Dividend(front), q, Reflected(c))
    ensures var x := Xor(c, Digit(b)); Divides(Dividend(front + [b]), q + [Odd(x)], Reflected(Bit(x)))
  {
    hide Odd, Xor, Digit, Bit, InGenerator, Reflected, Coeff, Dividend;
    var x := Xor(c, Digit(b));
    var q' := q + [Odd(x)];
    assert q'[..|q|] == q;
    forall k: nat
      ensures Coeff(Dividend(front + [b]), k) == (Product(q', k) != Coeff(Reflected(Bit(x)), k))
    {
      DividendNext(front, b, k);
      RegisterNext(c, b, k);
      if k > 0 {
        assert Coeff(Dividend(front), k - 1) == (Product(q, k - 1) != Coeff(Reflected(c), k - 1));
      }
    }
  }

  // ----- Bytes bit by bit

  /** What is left of a byte of which i bits have been taken. */
  function Rest(d: bv32, i: nat): bv32 {
    if i == 0 then d else Half(Rest(d, i - 1))
  }

  lemma {:induction false} BitOfRest(d: bv32, i: nat, j: nat)
    ensures BitOf(d, i + j) == BitOf(Rest(d, i), j)
    decreases i
  {
    hide Odd, Half;
    if i > 0 {
      BitOfRest(d, i - 1, j + 1);
    }
  }

  function Even(y: bv32): bv32 {
    y & 0xFFFFFFFE
  }

  lemma EvenPart(s: bv32, y: bv32)
    ensures Xor(s, y) == Xor(Xor(s, Digit(Odd(y))), Even(y))
  {
  }

  lemma ShiftEven(y: bv32)
    ensures Bit(Even(y)) == Half(y)
  {
  }

  lemma BitOfSum(a: bv32, b: bv32)
    ensures Bit(Xor(a, b)) == Xor(Bit(a), Bit(b))
  {
    hide Bit, Xor;
    BitIsLinear();
    assert Distributes(Bit, Xor, a, b);
  }

  lemma AddLowBit(s: bv32, y: bv32)
    ensures Bit(Xor(s, y)) == Xor(Bit(Xor(s, Digit(Odd(y)))), Half(y))
  {
    hide Odd, Half, Digit, Bit, Xor, Even;
    EvenPart(s, y);
    BitOfSum(Xor(s, Digit(Odd(y))), Even(y));
    ShiftEven(y);
  }

  /** A byte brought in whole and shifted out is its bits brought in one by one. */
  lemma {:induction false} SerialByte(c: bv32, d: bv32, i: nat)
    ensures Zeros(Bit, Xor(c, d), i) == Xor(Serial(c, LowBits(d, i)), Rest(d, i))
  {
    hide Odd, Half, Xor, Digit, Bit, BitOf;
    if i > 0 {
      SerialByte(c, d, i - 1);
      OneZeroMore(Bit, Xor(c, d), i - 1);
      AddLowBit(Serial(c, LowBits(d, i - 1)), Rest(d, i - 1));
      BitOfRest(d, i - 1, 0);
      BitZero(Rest(d, i - 1));
      assert LowBits(d, i)[..i - 1] == LowBits(d, i - 1);
    }
  }

  lemma NothingLeft(d: bv32)
    requires d <= 0xFF
    ensures Rest(d, 8) == 0
  {
    hide Half;
    assert Rest(d, 1) == Half(d) && Rest(d, 2) == Half(Rest(d, 1)) && Rest(d, 3) == Half(Rest(d, 2));
    assert Rest(d, 4) == Half(Rest(d, 3)) && Rest(d, 5) == Half(Rest(d, 4)) && Rest(d, 6) == Half(Rest(d, 5));
    assert Rest(d, 7) == Half(Rest(d, 6)) && Rest(d, 8) == Half(Rest(d, 7));
    EightHalves(d);
  }

  lemma EightHalves(d: bv32)
    requires d <= 0xFF
    ensures Half(Half(Half(Half(Half(Half(Half(Half(d)))))))) == 0
  {
  }

  lemma XorZero(c: bv32)
    ensures Xor(c, 0) == c
  {
  }

  lemma {:induction false} SerialOfConcat(c: bv32, a: seq<bool>, b: seq<bool>)
    ensures Serial(c, a + b) == Serial(Serial(c, a), b)
    decreases |b|
  {
    hide Xor, Digit, Bit;
    if b == [] {
      assert a + b == a;
    } else {
      assert (a + b)[..|a + b| - 1] == a + b[..|b| - 1];
      SerialOfConcat(c, a, b[..|b| - 1]);
    }
  }

  /** The bytes' register is the bits' register. */
  lemma {:induction false} RegisterIsSerial(c: bv32, data: seq<bv8>)
    ensures RegisterAfter(c, data) == Serial(c, Bits(data))
    decreases |data|
  {
    hide Xor, Digit, Bit, RegisterAfter, BitOf;
    if data == [] {
      AfterNothing(c);
    } else {
      var front, d := data[..|data| - 1], data[|data| - 1];
      assert data == front + [d];
      RegisterAfterConcat(c, front, [d]);
      RegisterIsSerial(c, front);
      SerialOfConcat(c, Bits(front), LowBits(d as bv32, 8));
      OneByteSerial(Serial(c, Bits(front)), d);
    }
  }

  lemma OneByteSerial(c: bv32, d: bv8)
    ensures RegisterAfter(c, [d]) == Serial(c, LowBits(d as bv32, 8))
  {
    hide Xor, Digit, Bit, BitOf, Zeros;
    assert Widened([d]) == [d as bv32];
    RegisterOfOne(c, d as bv32);
    SerialByte(c, d as bv32, 8);
    NothingLeft(d as bv32);
    XorZero(Serial(c, LowBits(d as bv32, 8)));
  }

  /** CRC-32 is the complement of the remainder of the message, least significant bit of each byte first, times x^32 and
      with the first 32 coefficients complemented, divided by the generator; its own least significant bit is the
      coefficient of x^31. */
  lemma ReferenceIsRemainder(data: seq<bv8>)
    ensures IsRemainder(Dividend(Bits(data)), Reflected(Xor(Reference(data), 0xFFFFFFFF)))
  {
    hide RegisterAfter, Reflected, Dividend, Reference, Serial, Xor;
    RegisterIsSerial(0xFFFFFFFF, data);
    SerialIsRemainder(Bits(data));
    Uncomplemented(data);
  }

  lemma Uncomplemented(data: seq<bv8>)
    ensures Xor(Reference(data), 0xFFFFFFFF) == RegisterAfter(0xFFFFFFFF, data)
  {
    hide RegisterAfter;
    TwiceComplemented(RegisterAfter(0xFFFFFFFF, data));
  }

  lemma TwiceComplemented(c: bv32)
    ensures Xor(c ^ 0xFFFFFFFF, 0xFFFFFFFF) == c
  {
  }

  // ----- The residue

  /** The four bytes of a word, the least significant first. */
  predicate AreBytesOf(b: seq<bv8>, c: bv32) {
    && |b| == 4 && b[0] as bv32 == Low(c) && b[1] as bv32 == Low(High(c)) && b[2] as bv32 == Low(High(High(c)))
    && b[3] as bv32 == High(High(High(c)))
  }

  function Upper(w: bv32): bv32 {
    (w >> 8) << 8
  }

  lemma UpperMovesDown(w: bv32)
    ensures Byte(Upper(w)) == High(w)
  {
    HighBytesMoveDown(w);
  }

  lemma TwoParts(x: bv32, w: bv32)
    ensures Xor(x, w) == Xor(Xor(x, Low(w)), Upper(w))
  {
  }

  lemma TwiceAdded(a: bv32, b: bv32)
    ensures Xor(Xor(a, b), b) == a
  {
  }

  /** Bringing in the low byte of a word, where the whole word could have been brought in at once. */
  lemma LowByteIn(x: bv32, w: bv32)
    ensures Byte(Xor(x, Low(w))) == Xor(Byte(Xor(x, w)), High(w))
  {
    hide Low, High, Upper, Xor, Byte;
    TwoParts(x, w);
    ByteOfXor(Xor(x, Low(w)), Upper(w));
    UpperMovesDown(w);
    TwiceAdded(Byte(Xor(x, Low(w))), High(w));
  }

  lemma NextByteIn(y: bv32, w: bv32)
    ensures Byte(Xor(Xor(y, w), Low(w))) == Xor(Byte(y), High(w))
  {
    hide Low, High, Xor, Byte;
    LowByteIn(Xor(y, w), w);
    TwiceAdded(y, w);
  }

  lemma TopByte(c: bv32)
    ensures Low(High(High(High(c)))) == High(High(High(c)))
  {
  }

  lemma NoFifthByte(c: bv32)
    ensures High(High(High(High(c)))) == 0
  {
  }

  lemma FourItems(c: bv32, d0: bv32, d1: bv32, d2: bv32, d3: bv32)
    ensures Register(Byte, Xor, c, [d0, d1, d2, d3]) == Byte(Xor(Byte(Xor(Byte(Xor(Byte(Xor(c, d0)), d1)), d2)), d3))
  {
    hide Xor, Byte;
    var c1 := Byte(Xor(c, d0));
    var c2 := Byte(Xor(c1, d1));
    assert [d0, d1, d2, d3][1..] == [d1, d2, d3] && [d1, d2, d3][1..] == [d2, d3] && [d2, d3][1..] == [d3];
    assert Register(Byte, Xor, c, [d0, d1, d2, d3]) == Register(Byte, Xor, c1, [d1, d2, d3]);
    assert Register(Byte, Xor, c1, [d1, d2, d3]) == Register(Byte, Xor, c2, [d2, d3]);
    assert Register(Byte, Xor, c2, [d2, d3]) == Register(Byte, Xor, Byte(Xor(c2, d2)), [d3]);
    RegisterOfOne(Byte(Xor(Byte(Xor(Byte(Xor(c, d0)), d1)), d2)), d3);
  }

  /** A word brought in byte by byte. */
  lemma PartsIn(r: bv32, c: bv32)
    ensures Register(Byte, Xor, r, [Low(c), Low(High(c)), Low(High(High(c))), High(High(High(c)))])
         == Byte(Byte(Byte(Byte(Xor(r, c)))))
  {
    hide Low, High, Xor, Byte, Register;
    FourItems(r, Low(c), Low(High(c)), Low(High(High(c))), High(High(High(c))));
    var y := Byte(Xor(r, c));
    LowByteIn(r, c);
    NextByteIn(y, High(c));
    NextByteIn(Byte(y), High(High(c)));
    NextByteIn(Byte(Byte(y)), High(High(High(c))));
    TopByte(c);
    NoFifthByte(c);
    XorZero(Byte(Byte(Byte(Byte(Xor(r, c))))));
  }

  lemma WidenedBytes(b: seq<bv8>, c: bv32)
    requires AreBytesOf(b, c)
    ensures Widened(b) == [Low(c), Low(High(c)), Low(High(High(c))), High(High(High(c)))]
  {
    hide Low, High;
  }

  lemma WordIn(r: bv32, c: bv32, b: seq<bv8>)
    requires AreBytesOf(b, c)
    ensures RegisterAfter(r, b) == Byte(Byte(Byte(Byte(Xor(r, c)))))
  {
    hide Low, High, Xor, Byte, Register, AreBytesOf, Widened;
    WidenedBytes(b, c);
    PartsIn(r, c);
  }

  lemma OnesThrough()
    ensures Byte(0xFFFFFFFF) == 0x2DFD1072 && Byte(0x2DFD1072) == 0xBE26ED00
    ensures Byte(0xBE26ED00) == 0x00BE26ED && Byte(0x00BE26ED) == 0xDEBB20E3
  {
    EightBits(0xFFFFFFFF);
    EightBits(0x2DFD1072);
    EightBits(0xBE26ED00);
    EightBits(0x00BE26ED);
  }

  lemma Complements(data: seq<bv8>)
    ensures Xor(RegisterAfter(0xFFFFFFFF, data), Reference(data)) == 0xFFFFFFFF
  {
    hide RegisterAfter;
    WithComplement(RegisterAfter(0xFFFFFFFF, data));
  }

  lemma WithComplement(r: bv32)
    ensures Xor(r, r ^ 0xFFFFFFFF) == 0xFFFFFFFF
  {
  }

  /** A string followed by its CRC, least significant byte first, always leaves the same register. */
  lemma Residue(data: seq<bv8>, crc: seq<bv8>)
    requires AreBytesOf(crc, Reference(data))
    ensures RegisterAfter(0xFFFFFFFF, data + crc) == 0xDEBB20E3
  {
    hide Xor, Byte, RegisterAfter, AreBytesOf, Reference;
    RegisterAfterConcat(0xFFFFFFFF, data, crc);
    WordIn(RegisterAfter(0xFFFFFFFF, data), Reference(data), crc);
    Complements(data);
    OnesThrough();
  }
}
