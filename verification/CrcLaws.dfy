/** What the checksum keeps apart and what it does not. */
module CrcLaws {
  import opened LinearRegister
  import opened Crc16

  function XorUnits(a: seq<bv16>, b: seq<bv16>): (c: seq<bv16>)
    requires |a| == |b|
    ensures |c| == |a|
  {
    if a == [] then [] else XorUnits(a[..|a| - 1], b[..|b| - 1]) + [Plus(a[|a| - 1], b[|b| - 1])]
  }

  lemma XorUnitsLast(a: seq<bv16>, b: seq<bv16>, u: bv16, v: bv16)
    requires |a| == |b|
    ensures XorUnits(a + [u], b + [v]) == XorUnits(a, b) + [Plus(u, v)]
  {
    var a', b' := a + [u], b + [v];
    assert a'[..|a|] == a && b'[..|b|] == b && a'[|a|] == u && b'[|b|] == v;
  }

  lemma SplitLast<T>(a: seq<T>)
    requires a != []
    ensures a == a[..|a| - 1] + [a[|a| - 1]]
  {
  }

  lemma AppendTwo<T>(s: seq<T>, a: T, b: T)
    ensures s + [a, b] == s + [a] + [b]
  {
  }

  function TopByte(unit: bv16): bv16 {
    LowByte(unit) << 8
  }

  lemma TopByteRaw(u: bv16, v: bv16)
    ensures ((u ^ v) & 0xff) << 8 == ((u & 0xff) << 8) ^ ((v & 0xff) << 8)
  {
  }

  lemma TopByteXor(u: bv16, v: bv16)
    ensures TopByte(Plus(u, v)) == Plus(TopByte(u), TopByte(v))
  {
    TopByteRaw(u, v);
  }

  lemma NextOfSum(step: bv16 -> bv16, x: bv16, y: bv16, p: bv16, q: bv16, n: nat)
    requires Linear(step)
    ensures Iter(step, Plus(Plus(x, y), Plus(p, q)), n) == Plus(Iter(step, Plus(x, p), n), Iter(step, Plus(y, q), n))
  {
    Regroup(x, y, p, q);
    IterPlus(step, Plus(x, p), Plus(y, q), n);
  }

  lemma SumGrows(x: seq<bv16>, y: seq<bv16>, z: seq<bv16>, u: bv16, v: bv16)
    requires CrcOf(z) == Plus(CrcOf(x), CrcOf(y))
    ensures CrcOf(z + [Plus(u, v)]) == Plus(CrcOf(x + [u]), CrcOf(y + [v]))
  {
    CrcOfNext(x, u);
    CrcOfNext(y, v);
    CrcOfNext(z, Plus(u, v));
    TopByteXor(u, v);
    ShiftIsLinear();
    NextOfSum(Shift, CrcOf(x), CrcOf(y), TopByte(u), TopByte(v), 8);
  }

  lemma EmptySum()
    ensures CrcOf([]) == Plus(CrcOf([]), CrcOf([]))
  {
    CrcOfEmpty();
    PlusZero(0);
  }

  /** Checksums of equally long strings add up. */
  lemma {:induction false} CrcIsLinear(a: seq<bv16>, b: seq<bv16>)
    requires |a| == |b|
    ensures CrcOf(XorUnits(a, b)) == Plus(CrcOf(a), CrcOf(b))
  {
    if a == [] {
      EmptySum();
    } else {
      var a', b', u, v := a[..|a| - 1], b[..|b| - 1], a[|a| - 1], b[|b| - 1];
      SplitLast(a);
      SplitLast(b);
      XorUnitsLast(a', b', u, v);
      CrcIsLinear(a', b');
      SumGrows(a', b', XorUnits(a', b'), u, v);
    }
  }

  /** Only the low 8 bits of each code unit count. */
  lemma {:induction false} OnlyLowBytesCount(a: seq<bv16>, b: seq<bv16>)
    requires |a| == |b| && forall i :: 0 <= i < |a| ==> LowByte(a[i]) == LowByte(b[i])
    ensures CrcOf(a) == CrcOf(b)
  {
    SameBits(a, b);
  }

  lemma {:induction false} SameBits(a: seq<bv16>, b: seq<bv16>)
    requires |a| == |b| && forall i :: 0 <= i < |a| ==> LowByte(a[i]) == LowByte(b[i])
    ensures BitsOf(a) == BitsOf(b)
  {
    if a != [] {
      SameBits(a[..|a| - 1], b[..|b| - 1]);
    }
  }

  lemma {:induction false} IterOfZero(step: bv16 -> bv16, n: nat)
    requires Linear(step)
    ensures Iter(step, 0, n) == 0
  {
    if n > 0 {
      IterOfZero(step, n - 1);
      StepOfZero(step);
    }
  }

  lemma HighByteLeaves(c: bv16)
    ensures c ^ (((c >> 8) & 0xff) << 8) == c & 0xff && c & 0xff <= 0xff && (c & 0xff) & 0xff == c & 0xff
  {
  }

  lemma HighByteCancels(c: bv16)
    ensures Plus(c, TopByte(c >> 8)) == c & 0xff
  {
    HighByteLeaves(c);
  }

  lemma LowByteCancels(c: bv16)
    ensures Plus((c & 0xff) << 8, TopByte(c & 0xff)) == 0
  {
    HighByteLeaves(c);
    PlusZero((c & 0xff) << 8);
  }

  lemma AfterHighByte(str: seq<bv16>, c: bv16)
    requires c == CrcOf(str)
    ensures CrcOf(str + [c >> 8]) == (c & 0xff) << 8
  {
    CrcOfNext(str, c >> 8);
    HighByteCancels(c);
    HighByteLeaves(c);
    LowEight(c & 0xff);
  }

  lemma AfterLowByte(str: seq<bv16>, c: bv16)
    requires CrcOf(str) == (c & 0xff) << 8
    ensures CrcOf(str + [c & 0xff]) == 0
  {
    CrcOfNext(str, c & 0xff);
    LowByteCancels(c);
    ShiftIsLinear();
    IterOfZero(Shift, 8);
  }

  /** A string followed by its own checksum, high byte first, has checksum zero. */
  lemma ChecksumCancels(str: seq<bv16>)
    ensures CrcOf(str + [CrcOf(str) >> 8, CrcOf(str) & 0xff]) == 0
  {
    var c := CrcOf(str);
    AppendTwo(str, c >> 8, c & 0xff);
    AfterHighByte(str, c);
    AfterLowByte(str + [c >> 8], c);
  }

  // ----- Neighbouring code units -----

  lemma ShiftNonZeroRaw(r: bv16)
    requires (r << 1) ^ (r >> 15) ^ ((r >> 15) << 5) ^ ((r >> 15) << 12) == 0
    ensures r == 0
  {
  }

  lemma ShiftNonZero()
    ensures forall r :: Shift(r) == 0 ==> r == 0
  {
    forall r | Shift(r) == 0 ensures r == 0 {
      ShiftNonZeroRaw(r);
    }
  }

  lemma SumIsZero(x: bv16, y: bv16)
    requires Plus(x, y) == 0
    ensures x == y
  {
  }

  /** Different registers stay different. */
  lemma IterIsInjective(x: bv16, y: bv16, n: nat)
    requires Iter(Shift, x, n) == Iter(Shift, y, n)
    ensures x == y
  {
    ShiftIsLinear();
    IterPlus(Shift, x, y, n);
    PlusZero(Iter(Shift, y, n));
    ShiftNonZero();
    IterNonZero(Shift, Plus(x, y), n);
    SumIsZero(x, y);
  }

  lemma PlusCancels(x: bv16, y: bv16, p: bv16)
    requires Plus(x, p) == Plus(y, p)
    ensures x == y
  {
  }

  lemma {:induction false} SameTail(x: seq<bv16>, y: seq<bv16>, s: seq<bv16>)
    requires CrcOf(x + s) == CrcOf(y + s)
    ensures CrcOf(x) == CrcOf(y)
  {
    if s == [] {
      assert x + s == x && y + s == y;
    } else {
      var t, u := s[..|s| - 1], s[|s| - 1];
      assert x + s == (x + t) + [u] && y + s == (y + t) + [u];
      CrcOfNext(x + t, u);
      CrcOfNext(y + t, u);
      IterIsInjective(Plus(CrcOf(x + t), TopByte(u)), Plus(CrcOf(y + t), TopByte(u)), 8);
      PlusCancels(CrcOf(x + t), CrcOf(y + t), TopByte(u));
      SameTail(x, y, t);
    }
  }

  lemma TwoBytes(step: bv16 -> bv16, k: bv16, a: bv16, b: bv16, n: nat)
    requires Linear(step)
    ensures Iter(step, Plus(Iter(step, Plus(k, a), n), Iter(step, b, n)), n) == Iter(step, Plus(k, Plus(a, b)), n + n)
  {
    HalfSteps(step, k, a, b, n);
  }

  lemma CrcOfTwo(p: seq<bv16>, a: bv16, b: bv16)
    ensures CrcOf(p + [a, b]) == Iter(Shift, Plus(CrcOf(p), Plus(TopByte(a), LowByte(b))), 16)
  {
    AppendTwo(p, a, b);
    CrcOfNext(p, a);
    CrcOfNext(p + [a], b);
    LowByteIsByte(b);
    LowEight(LowByte(b));
    ShiftIsLinear();
    TwoBytes(Shift, CrcOf(p), TopByte(a), LowByte(b), 8);
  }

  lemma PairRaw(a: bv16, b: bv16, c: bv16, d: bv16)
    requires ((a & 0xff) << 8) ^ (b & 0xff) == ((c & 0xff) << 8) ^ (d & 0xff)
    ensures a & 0xff == c & 0xff && b & 0xff == d & 0xff
  {
  }

  lemma PairIsUnique(a: bv16, b: bv16, c: bv16, d: bv16)
    requires Plus(TopByte(a), LowByte(b)) == Plus(TopByte(c), LowByte(d))
    ensures LowByte(a) == LowByte(c) && LowByte(b) == LowByte(d)
  {
    PairRaw(a, b, c, d);
  }

  lemma PlusCancelsLeft(k: bv16, x: bv16, y: bv16)
    requires Plus(k, x) == Plus(k, y)
    ensures x == y
  {
  }

  /** Changing two neighbouring code units in a byte that counts always changes the checksum. */
  lemma NeighboursAreToldApart(p: seq<bv16>, a: bv16, b: bv16, c: bv16, d: bv16, s: seq<bv16>)
    ensures CrcOf(p + [a, b] + s) == CrcOf(p + [c, d] + s) <==> LowByte(a) == LowByte(c) && LowByte(b) == LowByte(d)
  {
    if CrcOf(p + [a, b] + s) == CrcOf(p + [c, d] + s) {
      SameTail(p + [a, b], p + [c, d], s);
      CrcOfTwo(p, a, b);
      CrcOfTwo(p, c, d);
      IterIsInjective(Plus(CrcOf(p), Plus(TopByte(a), LowByte(b))), Plus(CrcOf(p), Plus(TopByte(c), LowByte(d))), 16);
      PlusCancelsLeft(CrcOf(p), Plus(TopByte(a), LowByte(b)), Plus(TopByte(c), LowByte(d)));
      PairIsUnique(a, b, c, d);
    }
    if LowByte(a) == LowByte(c) && LowByte(b) == LowByte(d) {
      OnlyLowBytesCount(p + [a, b] + s, p + [c, d] + s);
    }
  }
}
