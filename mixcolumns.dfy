module MixColumnsLayer {
  import opened Bitslice
  import opened Linearity
  import opened UnitStates

  /** The operations MixColumns is built from: XOR and rotations of a slice by 4 and by 8 bits. */
  datatype LinOps<!T> = LinOps(xor: (T, T) -> T, rot4: T -> T, rot8: T -> T)

  /**
   * The slice operations MixColumns uses: exclusive or, rotr16(x, 4) and
   * rotr16(x, 8).  Rotating right by 4 moves the byte in row r + 1 of a column
   * into row r of the same column.
   */
  const RotOps: LinOps<bv16> :=
    LinOps((x: bv16, y: bv16) => x ^ y, (x: bv16) => (x >> 4) | (x << 12), (x: bv16) => (x >> 8) | (x << 8))

  function MixG<T>(o: LinOps<T>, src: Slices<T>): Slices<T>
  {
    var a0, a1, a2, a3, a4, a5, a6, a7 := src.s0, src.s1, src.s2, src.s3, src.s4, src.s5, src.s6, src.s7;
    var x, r4, r8 := o.xor, o.rot4, o.rot8;
    Slices(
      x(x(x(a7, r4(a7)), r4(a0)), r8(x(a0, r4(a0)))),
      x(x(x(x(a0, r4(a0)), x(a7, r4(a7))), r4(a1)), r8(x(a1, r4(a1)))),
      x(x(x(a1, r4(a1)), r4(a2)), r8(x(a2, r4(a2)))),
      x(x(x(x(a2, r4(a2)), x(a7, r4(a7))), r4(a3)), r8(x(a3, r4(a3)))),
      x(x(x(x(a3, r4(a3)), x(a7, r4(a7))), r4(a4)), r8(x(a4, r4(a4)))),
      x(x(x(a4, r4(a4)), r4(a5)), r8(x(a5, r4(a5)))),
      x(x(x(a5, r4(a5)), r4(a6)), r8(x(a6, r4(a6)))),
      x(x(x(a6, r4(a6)), r4(a7)), r8(x(a7, r4(a7)))))
  }

  function InvMixG<T>(o: LinOps<T>, s: Slices<T>): Slices<T>
  {
    var r := MixG(o, s);
    var x := o.xor;
    var e0, e1, e2, e3 := x(r.s0, o.rot8(r.s0)), x(r.s1, o.rot8(r.s1)), x(r.s2, o.rot8(r.s2)), x(r.s3, o.rot8(r.s3));
    var e4, e5, e6, e7 := x(r.s4, o.rot8(r.s4)), x(r.s5, o.rot8(r.s5)), x(r.s6, o.rot8(r.s6)), x(r.s7, o.rot8(r.s7));
    Slices(x(r.s0, e6), x(r.s1, x(e6, e7)), x(r.s2, x(e0, e7)), x(r.s3, x(e1, e6)),
           x(r.s4, x(x(e2, e6), e7)), x(r.s5, x(e3, e7)), x(r.s6, e4), x(r.s7, e5))
  }

  function MixColumns(s: State): State { MixG(RotOps, s) }
  function InvMixColumns(s: State): State { InvMixG(RotOps, s) }

  ghost predicate IsLinHom<T(!new), U>(h: T -> U, a: LinOps<T>, b: LinOps<U>)
  {
    && (forall x, y :: h(a.xor(x, y)) == b.xor(h(x), h(y)))
    && (forall x :: h(a.rot4(x)) == b.rot4(h(x)))
    && (forall x :: h(a.rot8(x)) == b.rot8(h(x)))
  }

  lemma Commutes<T(!new), U>(h: T -> U, a: LinOps<T>, b: LinOps<U>, u: Slices<T>)
    requires IsLinHom(h, a, b)
    ensures MixG(b, Map(h, u)) == Map(h, MixG(a, u))
    ensures InvMixG(b, Map(h, u)) == Map(h, InvMixG(a, u))
  {
  }

  // ------------------------------------------------ linearity
  datatype Pair = Pair(l: bv16, r: bv16)

  function PairXor(x: Pair, y: Pair): Pair
  {
    Pair(x.l ^ y.l, x.r ^ y.r)
  }

  function PairRot4(x: Pair): Pair
  {
    Pair((x.l >> 4) | (x.l << 12), (x.r >> 4) | (x.r << 12))
  }

  function PairRot8(x: Pair): Pair
  {
    Pair((x.l >> 8) | (x.l << 8), (x.r >> 8) | (x.r << 8))
  }

  /** Two states side by side: the circuit run on both at once. */
  const PairOps: LinOps<Pair> := LinOps(PairXor, PairRot4, PairRot8)

  function Sum(x: Pair): bv16
  {
    x.l ^ x.r
  }

  function Left(x: Pair): bv16
  {
    x.l
  }

  function Right(x: Pair): bv16
  {
    x.r
  }

  // The solver cancels exclusive ors only in a formula it is given outright, so
  // each fact below is split into unfolding steps and one identity on plain slices.

  lemma Xor4(a: bv16, b: bv16, c: bv16, d: bv16)
    ensures (a ^ b) ^ (c ^ d) == (a ^ c) ^ (b ^ d)
  {
  }

  lemma RotXor(a: bv16, b: bv16, c: bv16)
    requires c == a ^ b
    ensures ((a >> 4) | (a << 12)) ^ ((b >> 4) | (b << 12)) == (c >> 4) | (c << 12)
    ensures ((a >> 8) | (a << 8)) ^ ((b >> 8) | (b << 8)) == (c >> 8) | (c << 8)
  {
  }

  lemma SumXorSides(x: Pair, y: Pair)
    ensures Sum(PairOps.xor(x, y)) == (x.l ^ y.l) ^ (x.r ^ y.r)
    ensures RotOps.xor(Sum(x), Sum(y)) == (x.l ^ x.r) ^ (y.l ^ y.r)
  {
  }

  lemma SumXor(x: Pair, y: Pair)
    ensures Sum(PairOps.xor(x, y)) == RotOps.xor(Sum(x), Sum(y))
  {
    var a, b, c, d := x.l, y.l, x.r, y.r;
    SumXorSides(x, y);
    Xor4(a, b, c, d);
  }

  lemma SumRot4Left(x: Pair)
    ensures Sum(PairOps.rot4(x)) == ((x.l >> 4) | (x.l << 12)) ^ ((x.r >> 4) | (x.r << 12))
  {
  }

  lemma SumRot8Left(x: Pair)
    ensures Sum(PairOps.rot8(x)) == ((x.l >> 8) | (x.l << 8)) ^ ((x.r >> 8) | (x.r << 8))
  {
  }

  lemma RotBeta(y: bv16)
    ensures RotOps.rot4(y) == (y >> 4) | (y << 12)
    ensures RotOps.rot8(y) == (y >> 8) | (y << 8)
  {
  }

  lemma SumIs(x: Pair)
    ensures Sum(x) == x.l ^ x.r
  {
  }

  lemma SumRot(x: Pair)
    ensures Sum(PairOps.rot4(x)) == RotOps.rot4(Sum(x))
    ensures Sum(PairOps.rot8(x)) == RotOps.rot8(Sum(x))
  {
    SumRotA(x);
    SumRotB(x);
  }

  lemma SumRotA(x: Pair)
    ensures Sum(PairOps.rot4(x)) == RotOps.rot4(Sum(x))
  {
    var a, b, c := x.l, x.r, Sum(x);
    SumRot4Left(x);
    SumIs(x);
    RotBeta(c);
    RotXor(a, b, c);
  }

  lemma SumRotB(x: Pair)
    ensures Sum(PairOps.rot8(x)) == RotOps.rot8(Sum(x))
  {
    var a, b, c := x.l, x.r, Sum(x);
    SumRot8Left(x);
    SumIs(x);
    RotBeta(c);
    RotXor(a, b, c);
  }

  lemma SumIsHom()
    ensures IsLinHom(Sum, PairOps, RotOps)
  {
    forall x: Pair, y: Pair
      ensures Sum(PairOps.xor(x, y)) == RotOps.xor(Sum(x), Sum(y))
    {
      SumXor(x, y);
    }
    forall x: Pair
      ensures Sum(PairOps.rot4(x)) == RotOps.rot4(Sum(x)) && Sum(PairOps.rot8(x)) == RotOps.rot8(Sum(x))
    {
      SumRot(x);
    }
  }
  lemma ProjIsHom()
    ensures IsLinHom(Left, PairOps, RotOps) && IsLinHom(Right, PairOps, RotOps)
  {
  }

  function Zip(a: State, b: State): Slices<Pair>
  {
    Slices(Pair(a.s0, b.s0), Pair(a.s1, b.s1), Pair(a.s2, b.s2), Pair(a.s3, b.s3),
           Pair(a.s4, b.s4), Pair(a.s5, b.s5), Pair(a.s6, b.s6), Pair(a.s7, b.s7))
  }

  lemma SumPair(p: Pair)
    ensures Sum(p) == BvXor(Left(p), Right(p))
  {
    var a, b := p.l, p.r;
    assert Sum(p) == a ^ b;
    assert BvXor(Left(p), Right(p)) == BvXor(a, b);
  }

  lemma SumSplit(w: Slices<Pair>)
    ensures Map(Sum, w) == XorState(Map(Left, w), Map(Right, w))
  {
    forall p
      ensures Sum(p) == BvXor(Left(p), Right(p))
    {
      SumPair(p);
    }
    MapSplit(Sum, Left, Right, BvXor, w);
    XorStateG(Map(Left, w), Map(Right, w));
  }

  lemma ZipSides(a: State, b: State)
    ensures Map(Left, Zip(a, b)) == a
    ensures Map(Right, Zip(a, b)) == b
  {
  }

  lemma ZipSum(a: State, b: State)
    ensures Map(Sum, Zip(a, b)) == XorState(a, b)
  {
    ZipSides(a, b);
    SumSplit(Zip(a, b));
  }

  lemma ZipMaps(a: State, b: State)
    ensures Map(Sum, Zip(a, b)) == XorState(a, b)
    ensures Map(Left, Zip(a, b)) == a
    ensures Map(Right, Zip(a, b)) == b
  {
    ZipSides(a, b);
    ZipSum(a, b);
  }

  lemma Linear(a: State, b: State)
    ensures MixColumns(XorState(a, b)) == XorState(MixColumns(a), MixColumns(b))
    ensures InvMixColumns(XorState(a, b)) == XorState(InvMixColumns(a), InvMixColumns(b))
  {
    var z := Zip(a, b);
    SumIsHom();
    ProjIsHom();
    ZipMaps(a, b);
    Commutes(Sum, PairOps, RotOps, z);
    Commutes(Left, PairOps, RotOps, z);
    Commutes(Right, PairOps, RotOps, z);
    SumSplit(MixG(PairOps, z));
    SumSplit(InvMixG(PairOps, z));
  }

  // ------------------------------------------------ the inverse

  lemma UnitLow(j: bv3, p: Lane)
    requires j < 4
    ensures InvMixColumns(MixColumns(Unit(j, p))) == Unit(j, p)
  {
  }

  lemma UnitHigh(j: bv3, p: Lane)
    requires j >= 4
    ensures InvMixColumns(MixColumns(Unit(j, p))) == Unit(j, p)
  {
  }

  lemma InvUnitLow(j: bv3, p: Lane)
    requires j < 4
    ensures MixColumns(InvMixColumns(Unit(j, p))) == Unit(j, p)
  {
  }

  lemma InvUnitHigh(j: bv3, p: Lane)
    requires j >= 4
    ensures MixColumns(InvMixColumns(Unit(j, p))) == Unit(j, p)
  {
  }

  function MixThenInv(t: State): State { InvMixColumns(MixColumns(t)) }
  function InvThenMix(t: State): State { MixColumns(InvMixColumns(t)) }

  lemma MixThenInvLinear(a: State, b: State)
    ensures MixThenInv(XorState(a, b)) == XorState(MixThenInv(a), MixThenInv(b))
  {
    Linear(a, b);
    Linear(MixColumns(a), MixColumns(b));
  }

  lemma InvThenMixLinear(a: State, b: State)
    ensures InvThenMix(XorState(a, b)) == XorState(InvThenMix(a), InvThenMix(b))
  {
    Linear(a, b);
    Linear(InvMixColumns(a), InvMixColumns(b));
  }

  /** InvMixColumns undoes MixColumns on every state, and MixColumns undoes InvMixColumns. */
  lemma MixColumnsInverse(s: State)
    ensures InvMixColumns(MixColumns(s)) == s
    ensures MixColumns(InvMixColumns(s)) == s
  {
    forall a, b
      ensures MixThenInv(XorState(a, b)) == XorState(MixThenInv(a), MixThenInv(b))
      ensures InvThenMix(XorState(a, b)) == XorState(InvThenMix(a), InvThenMix(b))
    {
      MixThenInvLinear(a, b);
      InvThenMixLinear(a, b);
    }
    forall j, p
      ensures MixThenInv(Unit(j, p)) == Unit(j, p) && InvThenMix(Unit(j, p)) == Unit(j, p)
    {
      if j < 4 { UnitLow(j, p); InvUnitLow(j, p); } else { UnitHigh(j, p); InvUnitHigh(j, p); }
    }
    LinearIdentity(MixThenInv, s);
    LinearIdentity(InvThenMix, s);
  }
}
