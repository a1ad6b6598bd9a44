/** Division of bit strings in a 16-bit register. `step` is what the register does when a zero bit enters:
    multiplication by x modulo a polynomial of degree 16. */
module LinearRegister {

  /** Addition of polynomials. */
  function Plus(x: bv16, y: bv16): bv16 {
    x ^ y
  }

  ghost predicate Linear(step: bv16 -> bv16) {
    forall x, y {:trigger step(Plus(x, y))} :: step(Plus(x, y)) == Plus(step(x), step(y))
  }

  function Iter(step: bv16 -> bv16, r: bv16, n: nat): bv16 {
    if n == 0 then r else step(Iter(step, r, n - 1))
  }

  function One(bit: bool): bv16 {
    if bit then 1 else 0
  }

  /** Long division, most significant bit first: each bit is brought down at the low end. */
  function Remainder(step: bv16 -> bv16, bits: seq<bool>): bv16 {
    if bits == [] then 0 else Plus(step(Remainder(step, bits[..|bits| - 1])), One(bits[|bits| - 1]))
  }

  function Xor(a: seq<bool>, b: seq<bool>): (c: seq<bool>)
    requires |a| == |b|
    ensures |c| == |a|
    ensures forall i :: 0 <= i < |c| ==> c[i] == (a[i] != b[i])
  {
    seq(|a|, i requires 0 <= i < |a| => a[i] != b[i])
  }

  function Zeros(n: nat): (bits: seq<bool>)
    ensures |bits| == n && forall i :: 0 <= i < n ==> !bits[i]
  {
    if n == 0 then [] else Zeros(n - 1) + [false]
  }

  lemma Assoc(a: bv16, b: bv16, c: bv16)
    ensures Plus(Plus(a, b), c) == Plus(a, Plus(b, c))
  {
  }

  lemma Swap(a: bv16, b: bv16)
    ensures Plus(a, b) == Plus(b, a)
  {
  }

  lemma PlusZero(a: bv16)
    ensures Plus(a, 0) == a && Plus(0, a) == a && Plus(a, a) == 0
  {
  }

  lemma Regroup(a: bv16, b: bv16, c: bv16, d: bv16)
    ensures Plus(Plus(a, b), Plus(c, d)) == Plus(Plus(a, c), Plus(b, d))
  {
    Assoc(a, b, Plus(c, d));
    Assoc(b, c, d);
    Swap(b, c);
    Assoc(c, b, d);
    Assoc(a, c, Plus(b, d));
  }

  lemma {:induction false} IterPlus(step: bv16 -> bv16, a: bv16, b: bv16, n: nat)
    requires Linear(step)
    ensures Iter(step, Plus(a, b), n) == Plus(Iter(step, a, n), Iter(step, b, n))
  {
    if n > 0 {
      IterPlus(step, a, b, n - 1);
    }
  }

  lemma {:induction false} IterTwice(step: bv16 -> bv16, r: bv16, m: nat, n: nat)
    ensures Iter(step, Iter(step, r, m), n) == Iter(step, r, m + n)
  {
    if n > 0 {
      IterTwice(step, r, m, n - 1);
    }
  }

  lemma OnePlus(p: bool, q: bool)
    ensures One(p != q) == Plus(One(p), One(q))
  {
  }

  lemma RemainderLast(step: bv16 -> bv16, bits: seq<bool>, bit: bool)
    ensures Remainder(step, bits + [bit]) == Plus(step(Remainder(step, bits)), One(bit))
  {
    assert (bits + [bit])[..|bits|] == bits;
  }

  lemma XorLast(a: seq<bool>, b: seq<bool>, p: bool, q: bool)
    requires |a| == |b|
    ensures Xor(a + [p], b + [q]) == Xor(a, b) + [p != q]
  {
  }

  /** Remainders of equally long bit strings add up. */
  lemma {:induction false} RemainderXor(step: bv16 -> bv16, a: seq<bool>, b: seq<bool>)
    requires Linear(step) && |a| == |b|
    ensures Remainder(step, Xor(a, b)) == Plus(Remainder(step, a), Remainder(step, b))
  {
    if a != [] {
      var a', b', p, q := a[..|a| - 1], b[..|b| - 1], a[|a| - 1], b[|b| - 1];
      assert a == a' + [p] && b == b' + [q];
      RemainderXor(step, a', b');
      XorLast(a', b', p, q);
      RemainderLast(step, Xor(a', b'), p != q);
      OnePlus(p, q);
      Regroup(step(Remainder(step, a')), step(Remainder(step, b')), One(p), One(q));
    }
  }

  /** More bits move the register that many places and add their own remainder. */
  lemma {:induction false} RemainderAppend(step: bv16 -> bv16, bits: seq<bool>, more: seq<bool>)
    requires Linear(step)
    ensures Remainder(step, bits + more) == Plus(Iter(step, Remainder(step, bits), |more|), Remainder(step, more))
  {
    if more == [] {
      assert bits + [] == bits;
      PlusZero(Remainder(step, bits));
    } else {
      var init, bit := more[..|more| - 1], more[|more| - 1];
      assert bits + more == bits + init + [bit];
      RemainderAppend(step, bits, init);
      RemainderLast(step, bits + init, bit);
      Assoc(step(Iter(step, Remainder(step, bits), |init|)), step(Remainder(step, init)), One(bit));
    }
  }

  lemma StepOfZero(step: bv16 -> bv16)
    requires Linear(step)
    ensures step(0) == 0
  {
    PlusZero(0);
    assert step(Plus(0, 0)) == Plus(step(0), step(0));
    PlusZero(step(0));
  }

  lemma {:induction false} RemainderOfZeros(step: bv16 -> bv16, n: nat)
    requires Linear(step)
    ensures Remainder(step, Zeros(n)) == 0
  {
    if n > 0 {
      RemainderOfZeros(step, n - 1);
      RemainderLast(step, Zeros(n - 1), false);
      StepOfZero(step);
      PlusZero(0);
    }
  }

  lemma {:induction false} IterNonZero(step: bv16 -> bv16, r: bv16, n: nat)
    requires forall x :: step(x) == 0 ==> x == 0
    requires Iter(step, r, n) == 0
    ensures r == 0
  {
    if n > 0 {
      IterNonZero(step, r, n - 1);
    }
  }
}
