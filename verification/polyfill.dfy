/**
  The WGSL backend's polyfill-overload resolver. WGSL has no builtin for
  matrix inversion or for the outer product, so the backend emits a helper
  function per operand shape and calls it instead. The resolver decides,
  for one call expression, which helper implements it.
 */
module Polyfill {
  import opened Ir

  datatype Option<+T> = None | Some(value: T)

  /** The twelve helpers: three inverses of square matrices and nine outer
      products, one per ordered (columns, rows) pair. */
  datatype PolyfilledMathFunction =
    | InverseMat2x2
    | InverseMat3x3
    | InverseMat4x4
    | OuterProduct2x2
    | OuterProduct3x3
    | OuterProduct4x4
    | OuterProduct3x2
    | OuterProduct2x3
    | OuterProduct4x2
    | OuterProduct2x4
    | OuterProduct4x3
    | OuterProduct3x4
  {
    /** True of the three inverse helpers. */
    predicate IsInverse() {
      InverseMat2x2? || InverseMat3x3? || InverseMat4x4?
    }
  }

  /** A helper together with the element width its call works on (the
      source calls the first field `function`, a keyword here). */
  datatype PolyfillOverload = PolyfillOverload(helper: PolyfilledMathFunction, width: nat)

  /** The operand shape a helper is written for, as its name spells it:
      `InverseMatNxN` inverts an N-by-N matrix, `OuterProductCxR` builds a
      matrix of C columns and R rows. */
  datatype Signature =
    | InverseOf(size: VectorSize)
    | OuterOf(columns: VectorSize, rows: VectorSize)

  /** Every signature a helper exists for: 3 inverses and 9 outer products. */
  const AllSignatures: set<Signature> :=
    {InverseOf(Bi), InverseOf(Tri), InverseOf(Quad),
     OuterOf(Bi, Bi), OuterOf(Tri, Tri), OuterOf(Quad, Quad),
     OuterOf(Tri, Bi), OuterOf(Bi, Tri),
     OuterOf(Quad, Bi), OuterOf(Bi, Quad),
     OuterOf(Quad, Tri), OuterOf(Tri, Quad)}

  /** The three inverse helpers. */
  const InverseVariants: set<PolyfilledMathFunction> :=
    {InverseMat2x2, InverseMat3x3, InverseMat4x4}

  /** The nine outer-product helpers. */
  const OuterProductVariants: set<PolyfilledMathFunction> :=
    {OuterProduct2x2, OuterProduct3x3, OuterProduct4x4,
     OuterProduct3x2, OuterProduct2x3,
     OuterProduct4x2, OuterProduct2x4,
     OuterProduct4x3, OuterProduct3x4}

  /** Reads a helper's name back into the shape it handles. This is the
      reference the two selection tables below are checked against. */
  function Decode(f: PolyfilledMathFunction): (s: Signature)
    ensures s in AllSignatures
    ensures s.InverseOf? <==> f.IsInverse()
  {
    match f
    case InverseMat2x2 => InverseOf(Bi)
    case InverseMat3x3 => InverseOf(Tri)
    case InverseMat4x4 => InverseOf(Quad)
    case OuterProduct2x2 => OuterOf(Bi, Bi)
    case OuterProduct3x3 => OuterOf(Tri, Tri)
    case OuterProduct4x4 => OuterOf(Quad, Quad)
    case OuterProduct3x2 => OuterOf(Tri, Bi)
    case OuterProduct2x3 => OuterOf(Bi, Tri)
    case OuterProduct4x2 => OuterOf(Quad, Bi)
    case OuterProduct2x4 => OuterOf(Bi, Quad)
    case OuterProduct4x3 => OuterOf(Quad, Tri)
    case OuterProduct3x4 => OuterOf(Tri, Quad)
  }

  /** The inverse helper for a square matrix of the given dimension. */
  function InverseForVecsize(dimension: VectorSize): (f: PolyfilledMathFunction)
    ensures f in InverseVariants
    ensures Decode(f) == InverseOf(dimension)
  {
    match dimension
    case Bi => InverseMat2x2
    case Tri => InverseMat3x3
    case Quad => InverseMat4x4
  }

  /** The outer-product helper for a matrix of `columns` columns and `rows`
      rows; the pair is ordered. */
  function OuterProductForVecsize(columns: VectorSize, rows: VectorSize): (f: PolyfilledMathFunction)
    ensures f in OuterProductVariants
    ensures Decode(f) == OuterOf(columns, rows)
  {
    match (columns, rows)
    case (Bi, Bi) => OuterProduct2x2
    case (Tri, Tri) => OuterProduct3x3
    case (Quad, Quad) => OuterProduct4x4
    case (Tri, Bi) => OuterProduct3x2
    case (Bi, Tri) => OuterProduct2x3
    case (Quad, Bi) => OuterProduct4x2
    case (Bi, Quad) => OuterProduct2x4
    case (Quad, Tri) => OuterProduct4x3
    case (Tri, Quad) => OuterProduct3x4
  }

  /** The helper written for a signature: the two tables side by side. */
  function Encode(s: Signature): (f: PolyfilledMathFunction)
    ensures Decode(f) == s
  {
    match s
    case InverseOf(size) => InverseForVecsize(size)
    case OuterOf(columns, rows) => OuterProductForVecsize(columns, rows)
  }

  /** Whether a polyfill is to be used for `mathFunction` applied to an
      operand of type `ty`: the operand must be a float matrix, and for an
      inverse it must also be square. */
  predicate Polyfillable(mathFunction: MathFunction, ty: TypeInner) {
    && ty.Matrix?
    && ty.scalar.kind == Float
    && (mathFunction == Outer || (mathFunction == Inverse && ty.columns == ty.rows))
  }

  /** The signature a polyfillable call needs a helper for. */
  function Requested(mathFunction: MathFunction, ty: TypeInner): Signature
    requires Polyfillable(mathFunction, ty)
  {
    if mathFunction == Inverse then InverseOf(ty.columns) else OuterOf(ty.columns, ty.rows)
  }

  /** Resolves a math call to the helper that implements it, or to nothing
      when no polyfill applies (another function, a non-matrix operand, a
      non-float element, or a non-square inverse). */
  function FindOverload(mathFunction: MathFunction, ty: TypeInner): (r: Option<PolyfillOverload>)
    ensures r.Some? <==> Polyfillable(mathFunction, ty)
    ensures r.Some? ==> Decode(r.value.helper) == Requested(mathFunction, ty)
    ensures r.Some? ==> r.value.width == ty.scalar.width
  {
    if mathFunction == Inverse then
      match ty
      case Matrix(columns, rows, scalar) =>
        if columns != rows || scalar.kind != Float then None
        else Some(PolyfillOverload(InverseForVecsize(columns), scalar.width))
      case _ => None
    else if mathFunction == Outer then
      match ty
      case Matrix(columns, rows, scalar) =>
        if scalar.kind != Float then None
        else Some(PolyfillOverload(OuterProductForVecsize(columns, rows), scalar.width))
      case _ => None
    else
      None
  }
}
