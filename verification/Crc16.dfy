/** CRC-16/XMODEM, as Appendix A of the Redis Cluster specification defines it, computed four bits at a time. */
module Crc16 {
  import opened LinearRegister

  /** What x^16 leaves when the divisor x^16 + x^12 + x^5 + 1 is taken away. */
  const POLY: bv16 := 0x1021

  const TABLE: seq<bv16> := [
    0x0000, 0x1021, 0x2042, 0x3063, 0x4084, 0x50a5, 0x60c6, 0x70e7,
    0x8108, 0x9129, 0xa14a, 0xb16b, 0xc18c, 0xd1ad, 0xe1ce, 0xf1ef ]

  /** Multiplication by x: what leaves the top comes back as x^12 + x^5 + 1. */
  function Shift(r: bv16): bv16 {
    (r << 1) ^ (r >> 15) ^ ((r >> 15) << 5) ^ ((r >> 15) << 12)
  }

  /** The low `k` bits of `v`, most significant first. */
  function ToBits(v: bv16, k: nat): (bits: seq<bool>)
    ensures |bits| == k
  {
    if k == 0 then [] else ToBits(v >> 1, k - 1) + [v & 1 != 0]
  }

  function LowByte(unit: bv16): bv16 {
    unit & 0xff
  }

  /** A string of 16-bit code units as a message: 8 bits of each. */
  function BitsOf(str: seq<bv16>): seq<bool> {
    if str == [] then [] else BitsOf(str[..|str| - 1]) + ToBits(LowByte(str[|str| - 1]), 8)
  }

  /** The message times x^16, divided bit by bit, from a zero register. */
  function CrcOf(str: seq<bv16>): bv16 {
    Remainder(Shift, BitsOf(str) + Zeros(16))
  }

  /** Four bits in one table look-up; the register keeps 16 bits, as masking with 0xffff does. */
  function Nibble(crc: bv16, n: bv16): bv16 {
    var index := ((crc >> 12) ^ n) & 0x0f;
    assert index < 16;
    (crc << 4) ^ TABLE[index as int]
  }

  method Crc16(str: seq<bv16>) returns (crc: bv16)
    ensures crc == CrcOf(str)
  {
    crc := 0;
    CrcOfEmpty();
    for i := 0 to |str|
      invariant crc == CrcOf(str[..i])
    {
      var byte := str[i];
      assert str[..i + 1] == str[..i] + [byte];
      CrcOfNext(str[..i], byte);
      TwoNibbles(crc, byte);
      crc := Nibble(crc, byte >> 4);
      crc := Nibble(crc, byte & 0x0f);
    }
    assert str[..|str|] == str;
  }

  // ----- The register -----

  /** The usual way to write one step. */
  lemma ShiftIsConditionalXor(r: bv16)
    ensures Shift(r) == if r & 0x8000 != 0 then (r << 1) ^ POLY else r << 1
  {
    if r & 0x8000 != 0 { assert r >> 15 == 1; } else { assert r >> 15 == 0; }
  }

  lemma ShiftXor(x: bv16, y: bv16)
    ensures Shift(x ^ y) == Shift(x) ^ Shift(y)
  {
  }

  lemma ShiftPlus(x: bv16, y: bv16)
    ensures Shift(Plus(x, y)) == Plus(Shift(x), Shift(y))
  {
    ShiftXor(x, y);
    var p := Plus(x, y);
    assert p == x ^ y;
    assert Shift(p) == Shift(x) ^ Shift(y);
  }

  lemma ShiftIsLinear()
    ensures Linear(Shift)
  {
    forall x, y ensures Shift(Plus(x, y)) == Plus(Shift(x), Shift(y)) {
      ShiftPlus(x, y);
    }
  }

  lemma ShiftDoubles(r: bv16)
    requires r < 0x8000
    ensures Shift(r) == r << 1
  {
    assert r >> 15 == 0;
  }

  lemma ShiftFour(r: bv16)
    ensures Iter(Shift, r, 4) == Shift(Shift(Shift(Shift(r))))
  {
    assert Iter(Shift, r, 1) == Shift(r);
    assert Iter(Shift, r, 2) == Shift(Shift(r));
    assert Iter(Shift, r, 3) == Shift(Shift(Shift(r)));
  }

  lemma LowFour(r: bv16)
    requires r <= 0xfff
    ensures Iter(Shift, r, 4) == r << 4
  {
    ShiftFour(r);
    ShiftDoubles(r);
    ShiftDoubles(r << 1);
    ShiftDoubles(r << 2);
    ShiftDoubles(r << 3);
    assert (r << 1) << 1 == r << 2 && (r << 2) << 1 == r << 3 && (r << 3) << 1 == r << 4;
  }

  lemma LowEight(r: bv16)
    requires r <= 0xff
    ensures Iter(Shift, r, 8) == r << 8
  {
    LowFour(r);
    LowFour(r << 4);
    IterTwice(Shift, r, 4, 4);
    assert (r << 4) << 4 == r << 8;
  }

  /** The table holds what four steps make of each top nibble. */
  lemma TableIsFourShifts(i: bv16)
    requires i < 16
    ensures TABLE[i as int] == Iter(Shift, i << 12, 4)
  {
    ShiftFour(i << 12);
    assert i == 0 || i == 1 || i == 2 || i == 3 || i == 4 || i == 5 || i == 6 || i == 7 || i == 8 || i == 9
        || i == 10 || i == 11 || i == 12 || i == 13 || i == 14 || i == 15;
  }

  lemma SplitTop(crc: bv16, n: bv16)
    ensures crc ^ ((n & 0x0f) << 12) == (crc & 0xfff) ^ ((((crc >> 12) ^ n) & 0x0f) << 12)
  {
  }

  lemma LowDropsTop(crc: bv16)
    ensures (crc & 0xfff) << 4 == crc << 4 && crc & 0xfff <= 0xfff
  {
  }

  lemma TopAndRest(crc: bv16, n: bv16)
    ensures Plus(crc, (n & 0x0f) << 12) == Plus(crc & 0xfff, (((crc >> 12) ^ n) & 0x0f) << 12)
  {
    SplitTop(crc, n);
  }

  lemma NibbleIsSum(crc: bv16, n: bv16, index: bv16)
    requires index == ((crc >> 12) ^ n) & 0x0f && index < 16
    ensures Nibble(crc, n) == Plus((crc & 0xfff) << 4, TABLE[index as int])
  {
    LowDropsTop(crc);
  }

  lemma NibbleIsFourShifts(crc: bv16, n: bv16)
    ensures Nibble(crc, n) == Iter(Shift, Plus(crc, (n & 0x0f) << 12), 4)
  {
    var index := ((crc >> 12) ^ n) & 0x0f;
    var low, top := crc & 0xfff, index << 12;
    assert index < 16;
    LowDropsTop(crc);
    TopAndRest(crc, n);
    NibbleIsSum(crc, n, index);
    LowFour(low);
    TableIsFourShifts(index);
    SplitIter(low, top, 4);
  }

  lemma SplitIter(low: bv16, top: bv16, n: nat)
    ensures Iter(Shift, Plus(low, top), n) == Plus(Iter(Shift, low, n), Iter(Shift, top, n))
  {
    ShiftIsLinear();
    IterPlus(Shift, low, top, n);
  }

  lemma BytePartsRaw(byte: bv16)
    ensures (((byte >> 4) & 0x0f) << 12) ^ ((byte & 0x0f) << 8) == (byte & 0xff) << 8
    ensures (byte & 0x0f) & 0x0f == byte & 0x0f && (byte & 0x0f) << 8 <= 0xfff
    ensures ((byte & 0x0f) << 8) << 4 == (byte & 0x0f) << 12
  {
  }

  function High(byte: bv16): bv16 {
    ((byte >> 4) & 0x0f) << 12
  }

  function Low(byte: bv16): bv16 {
    (byte & 0x0f) << 8
  }

  lemma ByteParts(byte: bv16)
    ensures Plus(High(byte), Low(byte)) == LowByte(byte) << 8
  {
    BytePartsRaw(byte);
  }

  lemma FirstNibble(crc: bv16, byte: bv16)
    ensures Nibble(crc, byte >> 4) == Iter(Shift, Plus(crc, High(byte)), 4)
  {
    NibbleIsFourShifts(crc, byte >> 4);
  }

  lemma SecondNibble(crc: bv16, byte: bv16)
    ensures Nibble(crc, byte & 0x0f) == Iter(Shift, Plus(crc, Iter(Shift, Low(byte), 4)), 4)
  {
    BytePartsRaw(byte);
    NibbleIsFourShifts(crc, byte & 0x0f);
    LowFour(Low(byte));
  }

  lemma HalfSteps(step: bv16 -> bv16, r: bv16, hi: bv16, lo: bv16, n: nat)
    requires Linear(step)
    ensures Iter(step, Plus(Iter(step, Plus(r, hi), n), Iter(step, lo, n)), n)
            == Iter(step, Plus(r, Plus(hi, lo)), n + n)
  {
    IterPlus(step, Plus(r, hi), lo, n);
    Assoc(r, hi, lo);
    IterTwice(step, Plus(r, Plus(hi, lo)), n, n);
  }

  lemma BothHalves(crc: bv16, first: bv16, second: bv16, hi: bv16, lo: bv16)
    requires first == Iter(Shift, Plus(crc, hi), 4) && second == Iter(Shift, Plus(first, Iter(Shift, lo, 4)), 4)
    ensures second == Iter(Shift, Plus(crc, Plus(hi, lo)), 8)
  {
    ShiftIsLinear();
    HalfSteps(Shift, crc, hi, lo, 4);
  }

  /** Two look-ups make eight single steps of the byte added at the top. */
  lemma TwoNibbles(crc: bv16, byte: bv16)
    ensures Nibble(Nibble(crc, byte >> 4), byte & 0x0f) == Iter(Shift, Plus(crc, LowByte(byte) << 8), 8)
  {
    var first := Nibble(crc, byte >> 4);
    var second := Nibble(first, byte & 0x0f);
    FirstNibble(crc, byte);
    SecondNibble(first, byte);
    BothHalves(crc, first, second, High(byte), Low(byte));
    ByteParts(byte);
  }

  // ----- One byte more -----

  lemma MovesLeft(step: bv16 -> bv16, r: bv16, v: bv16, n: nat)
    requires Linear(step)
    ensures Iter(step, Plus(Iter(step, r, n), v), n + n) == Plus(Iter(step, r, n + n + n), Iter(step, v, n + n))
  {
    IterPlus(step, Iter(step, r, n), v, n + n);
    IterTwice(step, r, n, n + n);
  }

  lemma MovesRight(step: bv16 -> bv16, r: bv16, v: bv16, n: nat)
    requires Linear(step)
    ensures Iter(step, Plus(Iter(step, r, n + n), Iter(step, v, n)), n)
            == Plus(Iter(step, r, n + n + n), Iter(step, v, n + n))
  {
    IterPlus(step, Iter(step, r, n + n), Iter(step, v, n), n);
    IterTwice(step, r, n + n, n);
    IterTwice(step, v, n, n);
  }

  predicate Fits(v: bv16, k: nat) {
    if k == 0 then v == 0 else Fits(v >> 1, k - 1)
  }

  lemma HalfAndBitRaw(v: bv16)
    ensures v >> 1 < 0x8000 && ((v >> 1) << 1) ^ (v & 1) == v
  {
  }

  lemma HalfPlusBit(v: bv16)
    ensures Plus((v >> 1) << 1, v & 1) == v
  {
    HalfAndBitRaw(v);
  }

  lemma OneIsBit(v: bv16)
    ensures One(v & 1 != 0) == v & 1
  {
  }

  lemma HalfAndBit(v: bv16)
    ensures Plus(Shift(v >> 1), One(v & 1 != 0)) == v
  {
    HalfAndBitRaw(v);
    ShiftDoubles(v >> 1);
    OneIsBit(v);
    HalfPlusBit(v);
  }

  /** A value of `k` bits is its own remainder. */
  lemma {:induction false} BitsReadBack(v: bv16, k: nat)
    requires Fits(v, k)
    ensures Remainder(Shift, ToBits(v, k)) == v
    decreases k
  {
    if k > 0 {
      var half, bit := v >> 1, v & 1 != 0;
      BitsReadBack(half, k - 1);
      RemainderLast(Shift, ToBits(half, k - 1), bit);
      HalfAndBit(v);
    }
  }

  lemma ByteFits(v: bv16)
    requires v <= 0xff
    ensures Fits(v, 8)
  {
    var a := v >> 1;
    var b := a >> 1;
    var c := b >> 1;
    var d := c >> 1;
    assert d <= 0xf;
    FourFit(d);
    assert Fits(c, 5) && Fits(b, 6) && Fits(a, 7);
  }

  lemma FourFit(v: bv16)
    requires v <= 0xf
    ensures Fits(v, 4)
  {
    var a := v >> 1;
    var b := a >> 1;
    var c := b >> 1;
    var d := c >> 1;
    assert d == 0;
    assert Fits(d, 0) && Fits(c, 1) && Fits(b, 2) && Fits(a, 3);
  }

  /** Appending the zeros moves the remainder up 16 places. */
  lemma CrcIsShifted(str: seq<bv16>)
    ensures CrcOf(str) == Iter(Shift, Remainder(Shift, BitsOf(str)), 16)
  {
    ShiftIsLinear();
    RemainderAppend(Shift, BitsOf(str), Zeros(16));
    RemainderOfZeros(Shift, 16);
    PlusZero(Iter(Shift, Remainder(Shift, BitsOf(str)), 16));
  }

  lemma BitsOfNext(str: seq<bv16>, unit: bv16)
    ensures BitsOf(str + [unit]) == BitsOf(str) + ToBits(LowByte(unit), 8)
  {
    assert (str + [unit])[..|str|] == str;
  }

  lemma LowByteIsByte(unit: bv16)
    ensures LowByte(unit) <= 0xff
  {
  }

  /** One more code unit: add its byte at the top and take eight steps. */
  lemma CrcOfNext(str: seq<bv16>, unit: bv16)
    ensures CrcOf(str + [unit]) == Iter(Shift, Plus(CrcOf(str), LowByte(unit) << 8), 8)
  {
    var v := LowByte(unit);
    BitsOfNext(str, unit);
    CrcIsShifted(str);
    CrcIsShifted(str + [unit]);
    ShiftIsLinear();
    LowByteIsByte(unit);
    RemainderAppend(Shift, BitsOf(str), ToBits(v, 8));
    ByteFits(v);
    BitsReadBack(v, 8);
    LowEight(v);
    MovesLeft(Shift, Remainder(Shift, BitsOf(str)), v, 8);
    MovesRight(Shift, Remainder(Shift, BitsOf(str)), v, 8);
  }

  lemma CrcOfEmpty()
    ensures CrcOf([]) == 0
  {
    ShiftIsLinear();
    RemainderOfZeros(Shift, 16);
    assert BitsOf([]) + Zeros(16) == Zeros(16);
  }
}
