/**
  Properties of the polyfill resolver's tables: every legal shape has its own
  helper, no two shapes share one, no helper is unreachable, and the
  resolver's answer is fixed by the requested shape and element width.
 */
module PolyfillProperties {
  import opened Ir
  import opened Polyfill

  /** The helpers `InverseForVecsize` selects over its whole domain. */
  function InverseImage(): set<PolyfilledMathFunction> {
    set d | d in AllSizes :: InverseForVecsize(d)
  }

  /** The helpers `OuterProductForVecsize` selects over all nine pairs. */
  function OuterProductImage(): set<PolyfilledMathFunction> {
    set c, r | c in AllSizes && r in AllSizes :: OuterProductForVecsize(c, r)
  }

  /** Distinct dimensions select distinct inverse helpers. */
  lemma InverseForVecsizeInjective(a: VectorSize, b: VectorSize)
    ensures InverseForVecsize(a) == InverseForVecsize(b) <==> a == b
  {

  }

  /** Distinct ordered pairs select distinct outer-product helpers. */
  lemma OuterProductForVecsizeInjective(c1: VectorSize, r1: VectorSize, c2: VectorSize, r2: VectorSize)
    ensures OuterProductForVecsize(c1, r1) == OuterProductForVecsize(c2, r2) <==> c1 == c2 && r1 == r2
  {

  }

  /** Swapping the columns and rows of a non-square shape changes the
      helper: `OuterProduct3x2` is not `OuterProduct2x3`. */
  lemma OuterProductDirectionSensitive(columns: VectorSize, rows: VectorSize)
    ensures OuterProductForVecsize(columns, rows) == OuterProductForVecsize(rows, columns) <==> columns == rows
  {

  }

  /** The inverse table maps the three dimensions onto exactly the three
      inverse helpers. */
  lemma InverseTableIsBijective()
    ensures InverseImage() == InverseVariants
    ensures |InverseImage()| == 3
  {

  }

  /** The nine outer-product helpers are pairwise distinct. */
  lemma OuterProductVariantsCount()
    ensures |OuterProductVariants| == 9
  {

  }

  /** The outer-product table maps the nine ordered pairs onto exactly the
      nine outer-product helpers. */
  lemma OuterProductTableIsBijective()
    ensures OuterProductImage() == OuterProductVariants
    ensures |OuterProductImage()| == 9
  {
    forall f | f in OuterProductVariants
      ensures f in OuterProductImage()
    {
      var s := Decode(f);
      assert OuterProductForVecsize(s.columns, s.rows) == f;
    }
    OuterProductVariantsCount();
  }

  /** The inverse and outer-product helpers are twelve distinct identifiers,
      and every helper is one of them. */
  lemma TwelveHelpers(f: PolyfilledMathFunction)
    ensures InverseVariants !! OuterProductVariants
    ensures |InverseVariants + OuterProductVariants| == 12
    ensures f in InverseVariants + OuterProductVariants
  {

  }

  /** Decoding a helper and selecting again gives the same helper: together
      with `Encode`'s contract, the twelve signatures and the twelve helpers
      are in one-to-one correspondence. */
  lemma EncodeDecode(f: PolyfilledMathFunction)
    ensures Encode(Decode(f)) == f
  {
  }

  /** The resolver's answer is the helper for the requested signature,
      carrying the operand's element width. */
  lemma FindOverloadIsEncodeOfRequest(mathFunction: MathFunction, ty: TypeInner)
    ensures FindOverload(mathFunction, ty) ==
            if Polyfillable(mathFunction, ty)
            then Some(PolyfillOverload(Encode(Requested(mathFunction, ty)), ty.scalar.width))
            else None
  {

  }

  /** Two calls resolved to the same helper asked for the same signature. */
  lemma FindOverloadNoCollisions(m1: MathFunction, t1: TypeInner, m2: MathFunction, t2: TypeInner)
    requires FindOverload(m1, t1).Some? && FindOverload(m2, t2).Some?
    ensures FindOverload(m1, t1).value.helper == FindOverload(m2, t2).value.helper <==>
            Requested(m1, t1) == Requested(m2, t2)
  {

  }

  /** The inverse branch only yields inverse helpers and the outer-product
      branch only outer-product helpers. */
  lemma FindOverloadBranchesDisjoint(mathFunction: MathFunction, ty: TypeInner)
    requires FindOverload(mathFunction, ty).Some?
    ensures mathFunction == Inverse ==> FindOverload(mathFunction, ty).value.helper in InverseVariants
    ensures mathFunction == Outer ==> FindOverload(mathFunction, ty).value.helper in OuterProductVariants
  {
  }

  /** Every helper, at every width, is the answer to some call: none of the
      twelve is dead. */
  lemma EveryHelperReachable(f: PolyfilledMathFunction, width: nat)
    ensures exists mathFunction, ty :: FindOverload(mathFunction, ty) == Some(PolyfillOverload(f, width))
  {
    EncodeDecode(f);
    match Decode(f)
    case InverseOf(size) =>
      var ty := Matrix(size, size, Scalar(Float, width));
      assert FindOverload(Inverse, ty) == Some(PolyfillOverload(f, width));
    case OuterOf(columns, rows) =>
      var ty := Matrix(columns, rows, Scalar(Float, width));
      assert FindOverload(Outer, ty) == Some(PolyfillOverload(f, width));
  }

  /** Inverting a 3x3 float matrix of 4-byte elements uses `InverseMat3x3`. */
  lemma InverseOfFloatMat3x3()
    ensures FindOverload(Inverse, Matrix(Tri, Tri, Scalar(Float, 4))) == Some(PolyfillOverload(InverseMat3x3, 4))
  {
  }

  /** The outer product into a 4-column, 2-row matrix of 8-byte floats uses
      `OuterProduct4x2`. */
  lemma OuterProductOfFloat4x2()
    ensures FindOverload(Outer, Matrix(Quad, Bi, Scalar(Float, 8))) == Some(PolyfillOverload(OuterProduct4x2, 8))
  {
  }
}
