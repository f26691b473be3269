/**
 * States with a single set bit.
 *
 * Every slice value is the exclusive or of its 16 bits, so a linear map on
 * states that fixes each single-bit state fixes every state.
 */
module UnitStates {
  import opened Bitslice
  import opened Linearity

  /** Bits 0 to p of a slice. */
  function UpTo(p: Lane): bv16
  {
    ((1 << p) << 1) - 1
  }

  function Pow2(p: Lane): bv16
  {
    1 << p
  }

  lemma LowBitsStep(x: bv16, p: Lane)
    requires p > 0
    ensures x & UpTo(p) == (x & UpTo(p - 1)) ^ (x & Pow2(p))
    ensures x & Pow2(p) == 0 || x & Pow2(p) == Pow2(p)
  {
  }

  lemma LowBitsBase(x: bv16)
    ensures x & UpTo(0) == 0 || x & UpTo(0) == Pow2(0)
  {
  }

  lemma LowBitsAll(x: bv16)
    ensures x & UpTo(15) == x
  {
  }

  lemma FixesBit<U(!new)>(f: U -> U, sel: bv16 -> U, x: bv16, p: Lane)
    requires forall q :: f(sel(Pow2(q))) == sel(Pow2(q))
    requires f(sel(0)) == sel(0)
    ensures f(sel(x & Pow2(p))) == sel(x & Pow2(p))
  {
    if x & Pow2(p) != 0 {
      assert x & Pow2(p) == Pow2(p);
    }
  }

  function Low(x: bv16): Lane -> bv16
  {
    k => x & UpTo(k)
  }

  function Bits(x: bv16): Lane -> bv16
  {
    k => x & Pow2(k)
  }

  lemma LowStep(x: bv16, k: Lane)
    requires 0 < k
    ensures Low(x)(k) == BvXor(Low(x)(k - 1), Bits(x)(k))
  {
    LowBitsStep(x, k);
  }

  lemma LowSteps(x: bv16)
    ensures forall k: Lane :: 0 < k ==> Low(x)(k) == BvXor(Low(x)(k - 1), Bits(x)(k))
  {
    forall k: Lane | 0 < k
      ensures Low(x)(k) == BvXor(Low(x)(k - 1), Bits(x)(k))
    {
      LowStep(x, k);
    }
  }

  lemma LowEnds(x: bv16)
    ensures Low(x)(0) == Bits(x)(0)
    ensures Low(x)(15) == x
  {
    LowBitsAll(x);
  }

  lemma FixesBits<U(!new)>(f: U -> U, sel: bv16 -> U, x: bv16)
    requires forall q :: f(sel(Pow2(q))) == sel(Pow2(q))
    requires f(sel(0)) == sel(0)
    ensures forall k: Lane :: f(sel(Bits(x)(k))) == sel(Bits(x)(k))
  {
    forall k: Lane
      ensures f(sel(Bits(x)(k))) == sel(Bits(x)(k))
    {
      FixesBit(f, sel, x, k);
    }
  }

  lemma FixesSliceValue<U(!new)>(xor: (U, U) -> U, f: U -> U, sel: bv16 -> U, x: bv16)
    requires forall a, b {:trigger f(xor(a, b))} :: f(xor(a, b)) == xor(f(a), f(b))
    requires forall a, b {:trigger xor(sel(a), sel(b))} :: sel(BvXor(a, b)) == xor(sel(a), sel(b))
    requires forall q :: f(sel(Pow2(q))) == sel(Pow2(q))
    requires f(sel(0)) == sel(0)
    ensures f(sel(x)) == sel(x)
  {
    LowSteps(x);
    LowEnds(x);
    FixesBits(f, sel, x);
    FixesLow(xor, f, BvXor, sel, Low(x), Bits(x), 15);
  }

  // ---------------------------------------------------------------- states

  /** The state whose slice j is x and whose other slices are zero. */
  function Only(j: bv3, x: bv16): State
  {
    OnlyG(0, j, x)
  }

  /** The state whose only set bit is lane p of slice j. */
  function Unit(j: bv3, p: Lane): State
  {
    Only(j, Pow2(p))
  }

  ghost predicate IsLinear(f: State -> State)
  {
    forall a, b {:trigger f(XorState(a, b))} :: f(XorState(a, b)) == XorState(f(a), f(b))
  }

  ghost predicate FixesUnits(f: State -> State)
  {
    forall j, p :: f(Unit(j, p)) == Unit(j, p)
  }

  lemma OnlyZero(j: bv3)
    ensures Only(j, 0) == Zero
  {
  }

  /** A linear map fixes the zero state. */
  lemma FixesZero(f: State -> State)
    requires IsLinear(f)
    ensures f(Zero) == Zero
  {
    SelfXor(Zero);
    SelfXor(f(Zero));
    assert f(XorState(Zero, Zero)) == XorState(f(Zero), f(Zero));
  }

  /** A linear map that fixes every single-bit state fixes every single-slice state. */
  lemma FixesOnly(f: State -> State, j: bv3, x: bv16)
    requires IsLinear(f) && FixesUnits(f)
    ensures f(Only(j, x)) == Only(j, x)
  {
    var xor := (a: State, b: State) => XorG(BvXor, a, b);
    var sel := (v: bv16) => Only(j, v);
    forall a: State, b: State
      ensures f(xor(a, b)) == xor(f(a), f(b))
    {
      XorStateG(a, b);
      XorStateG(f(a), f(b));
    }
    forall a, b
      ensures sel(BvXor(a, b)) == xor(sel(a), sel(b))
    {
      OnlyXorG(BvXor, 0, j, a, b);
    }
    forall q: Lane
      ensures f(sel(Pow2(q))) == sel(Pow2(q))
    {
      assert sel(Pow2(q)) == Unit(j, q);
    }
    FixesZero(f);
    OnlyZero(j);
    FixesSliceValue(xor, f, sel, x);
  }

  /** A linear map that fixes every single-bit state is the identity. */
  lemma LinearIdentity(f: State -> State, s: State)
    requires IsLinear(f) && FixesUnits(f)
    ensures f(s) == s
  {
    forall a: State, b: State
      ensures f(XorG(BvXor, a, b)) == XorG(BvXor, f(a), f(b))
    {
      XorStateG(a, b);
      XorStateG(f(a), f(b));
    }
    forall j: bv3, x: bv16
      ensures f(OnlyG(0, j, x)) == OnlyG(0, j, x)
    {
      FixesOnly(f, j, x);
    }
    FixesAllG(BvXor, 0, f, s);
  }
}
