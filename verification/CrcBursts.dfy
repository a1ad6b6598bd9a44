/** Changes inside 16 consecutive bits, at any bit offset, are always seen. */
module CrcBursts {
  import opened LinearRegister
  import opened Crc16
  import opened CrcLaws
  import opened CrcDivision

  lemma {:induction false} FitsWider(v: bv16, k: nat)
    requires Fits(v, k)
    ensures Fits(v, k + 1)
    decreases k
  {
    if k > 0 {
      FitsWider(v >> 1, k - 1);
    } else {
      ZeroFits();
    }
  }

  lemma ZeroFits()
    ensures Fits(0, 1)
  {
    assert (0 as bv16) >> 1 == 0;
    assert Fits((0 as bv16) >> 1, 0);
  }

  lemma {:induction false} FitsAsWide(v: bv16, k: nat, n: nat)
    requires Fits(v, k) && k <= n
    ensures Fits(v, n)
    decreases n - k
  {
    if k < n {
      FitsWider(v, k);
      FitsAsWide(v, k + 1, n);
    }
  }

  lemma FitsFourLess(v: bv16, k: nat)
    requires Fits(v, k + 4)
    ensures Fits(v >> 4, k)
  {
    FourHalves(v);
    assert Fits(v >> 1, k + 3);
    assert Fits((v >> 1) >> 1, k + 2);
    assert Fits(((v >> 1) >> 1) >> 1, k + 1);
  }

  lemma SmallRaw(v: bv16)
    requires (((((v >> 4) >> 4) >> 4) >> 1) >> 1) >> 1 == 0
    ensures v < 0x8000
  {
  }

  lemma FifteenBitsAreSmall(v: bv16)
    requires Fits(v, 15)
    ensures v < 0x8000
  {
    FitsFourLess(v, 11);
    FitsFourLess(v >> 4, 7);
    FitsFourLess((v >> 4) >> 4, 3);
    var w := ((v >> 4) >> 4) >> 4;
    assert Fits(w >> 1, 2);
    assert Fits((w >> 1) >> 1, 1);
    assert Fits(((w >> 1) >> 1) >> 1, 0);
    SmallRaw(v);
  }

  lemma NextRaw(r: bv16, b: bv16)
    requires r < 0x8000 && b <= 1
    ensures ((r << 1) ^ b) >> 1 == r && ((r << 1) ^ b) & 1 == b
  {
  }

  lemma NextPlus(r: bv16, b: bv16, v: bv16)
    requires r < 0x8000 && b <= 1 && v == Plus(r << 1, b)
    ensures v >> 1 == r && v & 1 == b
  {
    NextRaw(r, b);
    assert v == (r << 1) ^ b;
  }

  lemma OneIsSmall(b: bool)
    ensures One(b) <= 1 && (One(b) != 0) == b
  {
  }

  lemma NextParts(r: bv16, b: bool, v: bv16)
    requires r < 0x8000 && v == Plus(Shift(r), One(b))
    ensures v >> 1 == r && (v & 1 != 0) == b
  {
    ShiftDoubles(r);
    OneIsSmall(b);
    NextPlus(r, One(b), v);
  }

  lemma OneMoreBit(v: bv16, r: bv16, b: bool, bits: seq<bool>, k: nat)
    requires v >> 1 == r && (v & 1 != 0) == b && Fits(r, k) && ToBits(r, k) == bits
    ensures Fits(v, k + 1) && ToBits(v, k + 1) == bits + [b]
  {
  }

  /** Up to 16 bits, the register holds exactly what was read. */
  lemma {:induction false} ShortReadsBack(x: seq<bool>)
    requires |x| <= 16
    ensures Fits(Remainder(Shift, x), |x|) && ToBits(Remainder(Shift, x), |x|) == x
  {
    if x != [] {
      var init, b := x[..|x| - 1], x[|x| - 1];
      assert x == init + [b];
      ShortReadsBack(init);
      FitsAsWide(Remainder(Shift, init), |init|, 15);
      FifteenBitsAreSmall(Remainder(Shift, init));
      RemainderLast(Shift, init, b);
      NextParts(Remainder(Shift, init), b, Remainder(Shift, x));
      OneMoreBit(Remainder(Shift, x), Remainder(Shift, init), b, init, |init|);
    }
  }

  lemma SameBurst(p: seq<bool>, x: seq<bool>, y: seq<bool>)
    requires |x| == |y| <= 16 && Remainder(Shift, p + x) == Remainder(Shift, p + y)
    ensures x == y
  {
    ShiftIsLinear();
    RemainderAppend(Shift, p, x);
    RemainderAppend(Shift, p, y);
    PlusCancelsLeft(Iter(Shift, Remainder(Shift, p), |x|), Remainder(Shift, x), Remainder(Shift, y));
    ShortReadsBack(x);
    ShortReadsBack(y);
  }

  lemma SameEnd(a: seq<bool>, b: seq<bool>, s: seq<bool>)
    requires Remainder(Shift, a + s) == Remainder(Shift, b + s)
    ensures Remainder(Shift, a) == Remainder(Shift, b)
  {
    ShiftIsLinear();
    RemainderAppend(Shift, a, s);
    RemainderAppend(Shift, b, s);
    PlusCancels(Iter(Shift, Remainder(Shift, a), |s|), Iter(Shift, Remainder(Shift, b), |s|), Remainder(Shift, s));
    IterIsInjective(Remainder(Shift, a), Remainder(Shift, b), |s|);
  }

  /** Strings whose bits differ only within 16 consecutive ones, at any offset, never share a checksum. */
  lemma BurstsAreSeen(a: seq<bv16>, b: seq<bv16>, p: seq<bool>, x: seq<bool>, y: seq<bool>, s: seq<bool>)
    requires BitsOf(a) == p + x + s && BitsOf(b) == p + y + s && |x| == |y| <= 16
    ensures CrcOf(a) == CrcOf(b) <==> x == y
  {
    if CrcOf(a) == CrcOf(b) {
      CrcIsShifted(a);
      CrcIsShifted(b);
      IterIsInjective(Remainder(Shift, BitsOf(a)), Remainder(Shift, BitsOf(b)), 16);
      SameEnd(p + x, p + y, s);
      SameBurst(p, x, y);
    }
  }
}
