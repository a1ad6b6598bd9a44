/** The checksum is the remainder of polynomial division: the only 16 bits that make the message divisible. */
module CrcDivision {
  import opened LinearRegister
  import opened Crc16

  /** x^16 + x^12 + x^5 + 1. */
  function Divisor(): (bits: seq<bool>)
    ensures |bits| == 17
  {
    [true] + ToBits(POLY, 16)
  }

  /** The product of a bit string and the divisor, by shifting and adding. */
  function Times(q: seq<bool>): (bits: seq<bool>)
    ensures |bits| == |q| + 16
  {
    if q == [] then Zeros(16)
    else
      var init := q[..|q| - 1];
      Xor(Times(init) + [false], Zeros(|init|) + (if q[|q| - 1] then Divisor() else Zeros(17)))
  }

  ghost predicate IsMultiple(bits: seq<bool>) {
    exists q :: bits == Times(q)
  }

  // ----- Every multiple leaves nothing -----

  lemma FourHalves(v: bv16)
    ensures (((v >> 1) >> 1) >> 1) >> 1 == v >> 4
  {
  }

  lemma FourMoreFit(v: bv16, k: nat)
    requires Fits(v >> 4, k)
    ensures Fits(v, k + 4)
  {
    FourHalves(v);
    var a := v >> 1;
    var b := a >> 1;
    var c := b >> 1;
    assert Fits(c, k + 1);
    assert Fits(b, k + 2);
    assert Fits(a, k + 3);
  }

  lemma NibbleShifts(v: bv16)
    ensures (v >> 4) >> 4 == v >> 8 && (v >> 8) >> 4 == v >> 12 && v >> 12 <= 0xf
  {
  }

  lemma AllFit(v: bv16)
    ensures Fits(v, 16)
  {
    NibbleShifts(v);
    FourFit(v >> 12);
    FourMoreFit(v >> 8, 4);
    FourMoreFit(v >> 4, 8);
    FourMoreFit(v, 12);
  }

  lemma TopOfDivisor()
    ensures Iter(Shift, 1, 16) == POLY
  {
    LowEight(1);
    IterTwice(Shift, 1, 8, 8);
    IterTwice(Shift, 0x100, 4, 4);
    LowFour(0x100);
    ShiftFour(0x1000);
  }

  lemma DivisorLeavesNothing()
    ensures Remainder(Shift, Divisor()) == 0
  {
    ShiftIsLinear();
    RemainderAppend(Shift, [true], ToBits(POLY, 16));
    RemainderLast(Shift, [], true);
    assert [] + [true] == [true];
    StepOfZero(Shift);
    PlusZero(1);
    TopOfDivisor();
    AllFit(POLY);
    BitsReadBack(POLY, 16);
    PlusZero(POLY);
  }

  lemma PaddedLeavesNothing(n: nat, b: bool)
    ensures Remainder(Shift, Zeros(n) + (if b then Divisor() else Zeros(17))) == 0
  {
    var last := if b then Divisor() else Zeros(17);
    ShiftIsLinear();
    RemainderAppend(Shift, Zeros(n), last);
    RemainderOfZeros(Shift, n);
    RemainderOfZeros(Shift, 17);
    DivisorLeavesNothing();
    ZerosStayZero(17);
    PlusZero(0);
  }

  lemma {:induction false} ZerosStayZero(n: nat)
    ensures Iter(Shift, 0, n) == 0
  {
    ShiftIsLinear();
    StepOfZero(Shift);
    if n > 0 {
      ZerosStayZero(n - 1);
    }
  }

  lemma {:induction false} MultiplesLeaveNothing(q: seq<bool>)
    ensures Remainder(Shift, Times(q)) == 0
  {
    ShiftIsLinear();
    if q == [] {
      RemainderOfZeros(Shift, 16);
    } else {
      var init, b := q[..|q| - 1], q[|q| - 1];
      MultiplesLeaveNothing(init);
      RemainderLast(Shift, Times(init), false);
      StepOfZero(Shift);
      PaddedLeavesNothing(|init|, b);
      RemainderXor(Shift, Times(init) + [false], Zeros(|init|) + (if b then Divisor() else Zeros(17)));
      PlusZero(0);
    }
  }

  // ----- Dividing writes the message as a multiple and a remainder -----

  /** The quotient: a 1 wherever the divisor was taken away. */
  function Quot(w: seq<bool>): (q: seq<bool>)
    ensures |q| == |w|
  {
    if w == [] then [] else var init := w[..|w| - 1]; Quot(init) + [Top(Remainder(Shift, init))]
  }

  function Top(r: bv16): bool {
    r >> 15 != 0
  }

  /** Bit `k` of `v`. */
  function BitAt(v: bv16, k: nat): bool
    decreases k
  {
    if k == 0 then v & 1 != 0 else BitAt(v >> 1, k - 1)
  }

  lemma {:induction false} TopBitFirst(v: bv16, k: nat)
    requires k > 0
    ensures ToBits(v, k) == [BitAt(v, k - 1)] + ToBits(v, k - 1)
    decreases k
  {
    if k > 1 {
      TopBitFirst(v >> 1, k - 1);
    }
  }

  lemma HalfOfSum(x: bv16, y: bv16)
    ensures (x ^ y) >> 1 == (x >> 1) ^ (y >> 1)
  {
  }

  lemma BitOfSum(x: bv16, y: bv16)
    ensures ((x ^ y) & 1 != 0) == ((x & 1 != 0) != (y & 1 != 0))
  {
  }

  function Half(v: bv16): bv16 {
    v >> 1
  }

  function LowBit(v: bv16): bool {
    v & 1 != 0
  }

  /** `ToBits` for any way of halving and of reading the low bit. */
  function BitsBy<T>(half: T -> T, low: T -> bool, v: T, k: nat): (bits: seq<bool>)
    ensures |bits| == k
    decreases k
  {
    if k == 0 then [] else BitsBy(half, low, half(v), k - 1) + [low(v)]
  }

  ghost predicate Additive<T(!new)>(plus: (T, T) -> T, half: T -> T, low: T -> bool) {
    && (forall x, y {:trigger half(plus(x, y))} :: half(plus(x, y)) == plus(half(x), half(y)))
    && (forall x, y {:trigger low(plus(x, y))} :: low(plus(x, y)) == (low(x) != low(y)))
  }

  lemma {:induction false} BitsByOfPlus<T(!new)>(plus: (T, T) -> T, half: T -> T, low: T -> bool, x: T, y: T, k: nat)
    requires Additive(plus, half, low)
    ensures BitsBy(half, low, plus(x, y), k) == Xor(BitsBy(half, low, x, k), BitsBy(half, low, y, k))
    decreases k
  {
    if k > 0 {
      BitsByOfPlus(plus, half, low, half(x), half(y), k - 1);
      XorLast(BitsBy(half, low, half(x), k - 1), BitsBy(half, low, half(y), k - 1), low(x), low(y));
    }
  }

  lemma {:induction false} BitsByIsToBits(v: bv16, k: nat)
    ensures BitsBy(Half, LowBit, v, k) == ToBits(v, k)
    decreases k
  {
    if k > 0 {
      BitsByIsToBits(v >> 1, k - 1);
    }
  }

  lemma HalfOfPlus(x: bv16, y: bv16)
    ensures Half(Plus(x, y)) == Plus(Half(x), Half(y))
  {
    HalfOfSum(x, y);
  }

  lemma BitOfPlus(x: bv16, y: bv16)
    ensures LowBit(Plus(x, y)) == (LowBit(x) != LowBit(y))
  {
    BitOfSum(x, y);
  }

  lemma HalvesAdd()
    ensures forall u, v {:trigger Half(Plus(u, v))} :: Half(Plus(u, v)) == Plus(Half(u), Half(v))
  {
    forall u, v ensures Half(Plus(u, v)) == Plus(Half(u), Half(v)) {
      HalfOfPlus(u, v);
    }
  }

  lemma LowBitsAdd()
    ensures forall u, v {:trigger LowBit(Plus(u, v))} :: LowBit(Plus(u, v)) == (LowBit(u) != LowBit(v))
  {
    forall u, v ensures LowBit(Plus(u, v)) == (LowBit(u) != LowBit(v)) {
      BitOfPlus(u, v);
    }
  }

  lemma HalvingAdds()
    ensures Additive(Plus, Half, LowBit)
  {
    HalvesAdd();
    LowBitsAdd();
  }

  lemma BitsOfPlus(x: bv16, y: bv16, k: nat)
    ensures ToBits(Plus(x, y), k) == Xor(ToBits(x, k), ToBits(y, k))
  {
    HalvingAdds();
    BitsByOfPlus(Plus, Half, LowBit, x, y, k);
    BitsByIsToBits(x, k);
    BitsByIsToBits(y, k);
    BitsByIsToBits(Plus(x, y), k);
  }

  lemma {:induction false} BitsOfZero(k: nat)
    ensures ToBits(0, k) == Zeros(k)
  {
    if k > 0 {
      BitsOfZero(k - 1);
    }
  }

  // ----- One step of the division -----

  function Lead(top: bool): seq<bool> {
    if top then Divisor() else Zeros(17)
  }

  /** The register with the next bit behind it, without its top bit. */
  function Behind(r: bv16, b: bool): bv16 {
    Plus(r << 1, One(b))
  }

  lemma BehindRaw(r: bv16, b: bool)
    ensures ((r << 1) ^ (if b then 1 else 0)) >> 1 == r & 0x7fff
    ensures (((r << 1) ^ (if b then 1 else 0)) & 1 != 0) == b
  {
  }

  lemma BehindParts(r: bv16, b: bool)
    ensures Behind(r, b) >> 1 == r & 0x7fff && (Behind(r, b) & 1 != 0) == b
  {
    BehindRaw(r, b);
  }

  lemma WithoutTop(r: bv16)
    ensures Plus(r & 0x8000, r & 0x7fff) == r && (r & 0x8000 == 0 || r & 0x8000 == 0x8000)
  {
  }

  lemma OneZero(v: bv16, k: nat)
    requires v & 1 == 0 && ToBits(v >> 1, k) == Zeros(k)
    ensures ToBits(v, k + 1) == Zeros(k + 1)
  {
  }

  lemma TopHasNoLowBits()
    ensures ToBits(0x8000, 15) == Zeros(15)
  {
    OneZero(2, 0);
    OneZero(4, 1);
    OneZero(8, 2);
    OneZero(0x10, 3);
    OneZero(0x20, 4);
    OneZero(0x40, 5);
    OneZero(0x80, 6);
    OneZero(0x100, 7);
    OneZero(0x200, 8);
    OneZero(0x400, 9);
    OneZero(0x800, 10);
    OneZero(0x1000, 11);
    OneZero(0x2000, 12);
    OneZero(0x4000, 13);
    OneZero(0x8000, 14);
  }

  lemma XorZeros(a: seq<bool>, n: nat)
    requires |a| == n
    ensures Xor(Zeros(n), a) == a && Xor(a, Zeros(n)) == a
  {
  }

  lemma LowFifteen(r: bv16)
    ensures ToBits(r & 0x7fff, 15) == ToBits(r, 15)
  {
    WithoutTop(r);
    BitsOfPlus(r & 0x8000, r & 0x7fff, 15);
    TopHasNoLowBits();
    BitsOfZero(15);
    XorZeros(ToBits(r & 0x7fff, 15), 15);
  }

  lemma BitAtLater(v: bv16, k: nat)
    requires k > 0
    ensures BitAt(v, k) == BitAt(v >> 1, k - 1)
  {
  }

  lemma BitSixteen(r: bv16)
    ensures BitAt(r, 15) == Top(r)
  {
    FourthBit(r, 11);
    FourthBit(r >> 4, 7);
    FourthBit(r >> 8, 3);
    NibbleShifts(r);
    BitThree(r >> 12);
    TopOfTop(r);
  }

  lemma FourthBit(v: bv16, k: nat)
    ensures BitAt(v, k + 4) == BitAt(v >> 4, k)
  {
    FourHalves(v);
    BitAtLater(v, k + 4);
    BitAtLater(v >> 1, k + 3);
    BitAtLater((v >> 1) >> 1, k + 2);
    BitAtLater(((v >> 1) >> 1) >> 1, k + 1);
  }

  lemma BitThree(v: bv16)
    ensures BitAt(v, 3) == (((((v >> 1) >> 1) >> 1) & 1) != 0)
  {
    BitAtLater(v, 3);
    BitAtLater(v >> 1, 2);
    BitAtLater((v >> 1) >> 1, 1);
  }

  lemma TopOfTop(r: bv16)
    ensures ((((((r >> 12) >> 1) >> 1) >> 1) & 1) != 0) == (r >> 15 != 0)
  {
  }

  lemma BehindBits(r: bv16, b: bool)
    ensures ToBits(Behind(r, b), 16) == ToBits(r, 15) + [b]
  {
    BehindParts(r, b);
    LowFifteen(r);
    BitsEnd(Behind(r, b), r, b);
  }

  lemma BitsEnd(s: bv16, r: bv16, b: bool)
    requires ToBits(s >> 1, 15) == ToBits(r, 15) && (s & 1 != 0) == b
    ensures ToBits(s, 16) == ToBits(r, 15) + [b]
  {
  }

  lemma Around(t: bool, x: seq<bool>, b: bool)
    ensures [t] + x + [b] == [t] + (x + [b])
  {
  }

  /** The next bit behind the register, with its top bit in front. */
  lemma NextBit(r: bv16, b: bool)
    ensures ToBits(r, 16) + [b] == [Top(r)] + ToBits(Behind(r, b), 16)
  {
    TopBitFirst(r, 16);
    BitSixteen(r);
    BehindBits(r, b);
    Around(Top(r), ToBits(r, 15), b);
  }

  function Carry(r: bv16): bv16 {
    if Top(r) then POLY else 0
  }

  lemma TopIsHighBit(r: bv16)
    ensures r >> 15 != 0 <==> r & 0x8000 != 0
  {
  }

  lemma AddBack(x: bv16, s: bv16)
    requires s == x ^ POLY
    ensures Plus(s, POLY) == x
  {
  }

  lemma DoubledIsShifted(r: bv16)
    ensures r << 1 == Plus(Shift(r), Carry(r))
  {
    TopIsHighBit(r);
    ShiftIsConditionalXor(r);
    if Top(r) {
      AddBack(r << 1, Shift(r));
    } else {
      PlusZero(r << 1);
    }
  }

  /** Taking the divisor away turns the register with the next bit into the next remainder. */
  lemma TakeAway(r: bv16, b: bool)
    ensures Behind(r, b) == Plus(Plus(Shift(r), One(b)), Carry(r))
  {
    DoubledIsShifted(r);
    Assoc(Shift(r), Carry(r), One(b));
    Swap(Carry(r), One(b));
    Assoc(Shift(r), One(b), Carry(r));
  }

  lemma XorConcat(a: seq<bool>, b: seq<bool>, c: seq<bool>, d: seq<bool>)
    requires |a| == |b| && |c| == |d|
    ensures Xor(a + c, b + d) == Xor(a, b) + Xor(c, d)
  {
  }

  /** One step of long division, written out on bits. */
  lemma DivisionStep(r: bv16, b: bool)
    ensures ToBits(r, 16) + [b] == Xor(Lead(Top(r)), [false] + ToBits(Plus(Shift(r), One(b)), 16))
  {
    var next := Plus(Shift(r), One(b));
    NextBit(r, b);
    TakeAway(r, b);
    Swap(next, Carry(r));
    BitsOfPlus(Carry(r), next, 16);
    XorConcat([Top(r)], [false], ToBits(Carry(r), 16), ToBits(next, 16));
    assert Xor([Top(r)], [false]) == [Top(r)];
    LeadIsCarry(r);
  }

  lemma LeadIsCarry(r: bv16)
    ensures [Top(r)] + ToBits(Carry(r), 16) == Lead(Top(r))
  {
    BitsOfZero(16);
    if !Top(r) {
      assert [false] + Zeros(16) == Zeros(17);
    }
  }

  // ----- The whole division -----

  lemma XorRegroup(t: seq<bool>, g: seq<bool>, r: seq<bool>)
    requires |t| == |g| == |r|
    ensures Xor(t, Xor(g, r)) == Xor(Xor(t, g), r)
  {
  }

  /** The message is the quotient times the divisor, plus the remainder. */
  lemma {:induction false} QuotientAndRemainder(w: seq<bool>)
    ensures Zeros(16) + w == Xor(Times(Quot(w)), Zeros(|w|) + ToBits(Remainder(Shift, w), 16))
  {
    if w == [] {
      BitsOfZero(16);
      assert Zeros(16) + [] == Zeros(16) && Zeros(0) + Zeros(16) == Zeros(16);
      XorZeros(Zeros(16), 16);
    } else {
      var n, init, b := |w| - 1, w[..|w| - 1], w[|w| - 1];
      var r := Remainder(Shift, init);
      assert w == init + [b];
      QuotientAndRemainder(init);
      DivisionStep(r, b);
      RemainderLast(Shift, init, b);
      Longer(Zeros(16) + init, b, Times(Quot(init)), n, ToBits(r, 16), Lead(Top(r)),
        [false] + ToBits(Remainder(Shift, w), 16));
      TimesLast(Quot(init), Top(r));
      MoveZero(n, ToBits(Remainder(Shift, w), 16));
      Append(Zeros(16), init, b);
    }
  }

  lemma Append(a: seq<bool>, b: seq<bool>, p: bool)
    ensures a + (b + [p]) == (a + b) + [p]
  {
  }

  lemma MoveZero(n: nat, r: seq<bool>)
    ensures Zeros(n) + ([false] + r) == Zeros(n + 1) + r
  {
  }

  lemma TimesLast(q: seq<bool>, b: bool)
    ensures Times(q + [b]) == Xor(Times(q) + [false], Zeros(|q|) + Lead(b))
  {
    assert (q + [b])[..|q|] == q;
  }

  lemma XorZerosPrefix(n: nat, x: seq<bool>, y: seq<bool>)
    requires |x| == |y|
    ensures Zeros(n) + Xor(x, y) == Xor(Zeros(n) + x, Zeros(n) + y)
  {
    XorConcat(Zeros(n), Zeros(n), x, y);
    XorZeros(Zeros(n), n);
  }

  /** Bringing down one bit keeps the equation between dividend, multiple and remainder. */
  lemma Longer(w: seq<bool>, b: bool, t: seq<bool>, n: nat, r: seq<bool>, lead: seq<bool>, next: seq<bool>)
    requires |t| == n + |r| && |lead| == |next| == |r| + 1
    requires w == Xor(t, Zeros(n) + r) && r + [b] == Xor(lead, next)
    ensures w + [b] == Xor(Xor(t + [false], Zeros(n) + lead), Zeros(n) + next)
  {
    XorLast(t, Zeros(n) + r, false, b);
    Append(Zeros(n), r, b);
    XorZerosPrefix(n, lead, next);
    XorRegroup(t + [false], Zeros(n) + lead, Zeros(n) + next);
  }

  lemma PrefixedRemainder(w: seq<bool>)
    ensures Remainder(Shift, Zeros(16) + w) == Remainder(Shift, w)
  {
    ShiftIsLinear();
    RemainderAppend(Shift, Zeros(16), w);
    RemainderOfZeros(Shift, 16);
    ZerosStayZero(|w|);
    PlusZero(Remainder(Shift, w));
  }

  /** A bit string leaves nothing exactly when it is a multiple of the divisor. */
  lemma DivisibleExactly(w: seq<bool>)
    ensures IsMultiple(Zeros(16) + w) <==> Remainder(Shift, w) == 0
  {
    if Remainder(Shift, w) == 0 {
      QuotientAndRemainder(w);
      BitsOfZero(16);
      assert Zeros(|w|) + Zeros(16) == Zeros(|w| + 16);
      XorZeros(Times(Quot(w)), |w| + 16);
    }
    if IsMultiple(Zeros(16) + w) {
      var q :| Zeros(16) + w == Times(q);
      MultiplesLeaveNothing(q);
      PrefixedRemainder(w);
    }
  }

  lemma SumIsZeroExactly(x: bv16, y: bv16)
    ensures Plus(x, y) == 0 <==> x == y
  {
    PlusZero(x);
    if Plus(x, y) == 0 {
      Assoc(x, x, y);
      PlusZero(y);
    }
  }

  /** The checksum of a string is the one 16-bit value that, put after it, makes it divisible. */
  lemma CrcIsTheRemainder(str: seq<bv16>, r: bv16)
    ensures IsMultiple(Zeros(16) + (BitsOf(str) + ToBits(r, 16))) <==> r == CrcOf(str)
  {
    DivisibleExactly(BitsOf(str) + ToBits(r, 16));
    ShiftIsLinear();
    RemainderAppend(Shift, BitsOf(str), ToBits(r, 16));
    AllFit(r);
    BitsReadBack(r, 16);
    CrcIsShifted(str);
    SumIsZeroExactly(CrcOf(str), r);
  }
}
