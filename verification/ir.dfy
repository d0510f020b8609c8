/**
  The fragment of naga's intermediate representation that the WGSL polyfill
  resolver consumes. Only the distinctions the resolver makes are kept: which
  math function is requested, whether the operand is a matrix, its column and
  row counts, and whether its scalar kind is `Float`.
 */
module Ir {

  /** Extent of a vector, or of a matrix along one axis: 2, 3 or 4. */
  datatype VectorSize = Bi | Tri | Quad

  /** The three vector sizes, the whole domain of `VectorSize`. */
  const AllSizes: set<VectorSize> := {Bi, Tri, Quad}

  /** Every vector size is one of the three listed in `AllSizes`. */
  lemma AllSizesComplete(size: VectorSize)
    ensures size in AllSizes
  {
  }

  /** Scalar kinds. Only `Float` enables a polyfill; every other kind
      (signed and unsigned integers, booleans, abstract literals) is
      represented by `NonFloat` with a tag that tells them apart. */
  datatype ScalarKind = Float | NonFloat(tag: nat)

  /** A scalar type: its kind and its width in bytes. */
  datatype Scalar = Scalar(kind: ScalarKind, width: nat)

  /** The inner type of an operand: a matrix, or any other shape. */
  datatype TypeInner =
    | Matrix(columns: VectorSize, rows: VectorSize, scalar: Scalar)
    | NonMatrix(tag: nat)

  /** The math function requested by a call expression. Only `Inverse` and
      `Outer` are polyfillable; every other builtin is an `Other`. */
  datatype MathFunction = Inverse | Outer | Other(tag: nat)
}
