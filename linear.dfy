/**
 * Linear maps on bitsliced states.
 *
 * A map f on states is linear when it commutes with the slice-wise exclusive
 * or.  Such a map is the identity as soon as it fixes each of the 128 states
 * holding a single set bit.  The argument is written once over an arbitrary
 * element type, so that the solver only ever sees bit-vector facts about one
 * slice value at a time.
 */
module Linearity {
  import opened Bitslice

  /** The exclusive or of two slices, as a function value. */
  function BvXor(a: bv16, b: bv16): bv16
  {
    a ^ b
  }

  function XorG<T>(xor: (T, T) -> T, a: Slices<T>, b: Slices<T>): Slices<T>
  {
    Slices(xor(a.s0, b.s0), xor(a.s1, b.s1), xor(a.s2, b.s2), xor(a.s3, b.s3),
           xor(a.s4, b.s4), xor(a.s5, b.s5), xor(a.s6, b.s6), xor(a.s7, b.s7))
  }

  function OnlyG<T>(zero: T, j: bv3, x: T): Slices<T>
  {
    Slices(if j == 0 then x else zero, if j == 1 then x else zero, if j == 2 then x else zero, if j == 3 then x else zero,
           if j == 4 then x else zero, if j == 5 then x else zero, if j == 6 then x else zero, if j == 7 then x else zero)
  }

  lemma OnlyXorG<T>(xor: (T, T) -> T, zero: T, j: bv3, x: T, y: T)
    requires xor(zero, zero) == zero
    ensures OnlyG(zero, j, xor(x, y)) == XorG(xor, OnlyG(zero, j, x), OnlyG(zero, j, y))
  {
  }

  ghost predicate IsLinearG<T(!new)>(xor: (T, T) -> T, f: Slices<T> -> Slices<T>)
  {
    forall a, b :: f(XorG(xor, a, b)) == XorG(xor, f(a), f(b))
  }

  lemma SplitG<T>(xor: (T, T) -> T, zero: T, s: Slices<T>)
    requires forall x :: xor(x, zero) == x && xor(zero, x) == x
    ensures s == XorG(xor, XorG(xor, XorG(xor, XorG(xor, XorG(xor, XorG(xor, XorG(xor,
                   OnlyG(zero, 0, s.s0), OnlyG(zero, 1, s.s1)), OnlyG(zero, 2, s.s2)), OnlyG(zero, 3, s.s3)),
                   OnlyG(zero, 4, s.s4)), OnlyG(zero, 5, s.s5)), OnlyG(zero, 6, s.s6)), OnlyG(zero, 7, s.s7))
  {
  }

  lemma FixesAllG<T(!new)>(xor: (T, T) -> T, zero: T, f: Slices<T> -> Slices<T>, s: Slices<T>)
    requires forall x :: xor(x, zero) == x && xor(zero, x) == x
    requires IsLinearG(xor, f)
    requires forall j: bv3, x :: f(OnlyG(zero, j, x)) == OnlyG(zero, j, x)
    ensures f(s) == s
  {
    SplitG(xor, zero, s);
    var t1 := XorG(xor, OnlyG(zero, 0, s.s0), OnlyG(zero, 1, s.s1));
    var t2 := XorG(xor, t1, OnlyG(zero, 2, s.s2));
    var t3 := XorG(xor, t2, OnlyG(zero, 3, s.s3));
    var t4 := XorG(xor, t3, OnlyG(zero, 4, s.s4));
    var t5 := XorG(xor, t4, OnlyG(zero, 5, s.s5));
    var t6 := XorG(xor, t5, OnlyG(zero, 6, s.s6));
    assert f(t1) == t1;
    assert f(t2) == t2;
    assert f(t3) == t3;
    assert f(t4) == t4;
    assert f(t5) == t5;
    assert f(t6) == t6;
  }

  lemma FixesXor<U(!new)>(xor: (U, U) -> U, f: U -> U, a: U, b: U)
    requires forall a, b {:trigger f(xor(a, b))} :: f(xor(a, b)) == xor(f(a), f(b))
    requires f(a) == a && f(b) == b
    ensures f(xor(a, b)) == xor(a, b)
  {
  }

  /** If low(k) = low(k - 1) + bit(k) and f fixes sel(low(0)) and every sel(bit(k)), then f fixes every sel(low(k)). */
  lemma FixesLow<U(!new), V(!new)>(xor: (U, U) -> U, f: U -> U, vxor: (V, V) -> V, sel: V -> U,
                       low: Lane -> V, bit: Lane -> V, p: Lane)
    requires forall a, b {:trigger f(xor(a, b))} :: f(xor(a, b)) == xor(f(a), f(b))
    requires forall a, b {:trigger sel(vxor(a, b))} :: sel(vxor(a, b)) == xor(sel(a), sel(b))
    requires forall k: Lane :: 0 < k ==> low(k) == vxor(low(k - 1), bit(k))
    requires f(sel(low(0))) == sel(low(0))
    requires forall k: Lane :: f(sel(bit(k))) == sel(bit(k))
    ensures f(sel(low(p))) == sel(low(p))
    decreases p
  {
    if p > 0 {
      FixesLow(xor, f, vxor, sel, low, bit, p - 1);
      FixesXor(xor, f, sel(low(p - 1)), sel(bit(p)));
      assert low(p) == vxor(low(p - 1), bit(p));
      assert sel(vxor(low(p - 1), bit(p))) == xor(sel(low(p - 1)), sel(bit(p)));
      assert sel(low(p)) == xor(sel(low(p - 1)), sel(bit(p)));
      assert f(sel(low(p))) == f(xor(sel(low(p - 1)), sel(bit(p))));
    }
  }

  /** Mapping a pointwise exclusive or of two maps is the exclusive or of the two mapped structures. */
  lemma MapSplit<P(!new), T>(h: P -> T, f: P -> T, g: P -> T, xor: (T, T) -> T, w: Slices<P>)
    requires forall p :: h(p) == xor(f(p), g(p))
    ensures Map(h, w) == XorG(xor, Map(f, w), Map(g, w))
  {
  }

  /** A map that turns one exclusive or into another carries it through every slice. */
  lemma MapXorG<P(!new), T>(h: P -> T, xorP: (P, P) -> P, xorT: (T, T) -> T, a: Slices<P>, b: Slices<P>)
    requires forall p, q :: h(xorP(p, q)) == xorT(h(p), h(q))
    ensures Map(h, XorG(xorP, a, b)) == XorG(xorT, Map(h, a), Map(h, b))
  {
  }

  lemma XorTwiceG<T(!new)>(xor: (T, T) -> T, a: Slices<T>, b: Slices<T>)
    requires forall x, y :: xor(xor(x, y), y) == x
    ensures XorG(xor, XorG(xor, a, b), b) == a
  {
  }

  lemma BvXorTwice(x: bv16, y: bv16)
    ensures BvXor(BvXor(x, y), y) == x
  {
  }

  /** Adding the same state twice gives back the first one. */
  lemma XorTwice(a: State, b: State)
    ensures XorState(XorState(a, b), b) == a
  {
    forall x: bv16, y: bv16
      ensures BvXor(BvXor(x, y), y) == x
    {
      BvXorTwice(x, y);
    }
    XorTwiceG(BvXor, a, b);
    XorStateG(a, b);
    XorStateG(XorState(a, b), b);
  }

  lemma XorStateG(a: State, b: State)
    ensures XorG(BvXor, a, b) == XorState(a, b)
  {
  }

  lemma SelfXor(a: State)
    ensures XorState(a, a) == Zero
  {
  }
}
