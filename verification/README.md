# naga WGSL polyfill-overload resolver

WGSL has no builtin for matrix inversion or for the outer product, so naga's
WGSL backend emits hand-written helper functions and calls them in place of
those math functions. The resolver in `naga/src/back/wgsl/polyfill/mod.rs`
picks the helper for a single call. It looks at the requested math function
and at the operand's type. It returns the helper (one of twelve
`PolyfilledMathFunction` variants) together with the element width, or
nothing when no polyfill applies.

The project has three modules:

- `Ir` (`ir.dfy`) models the parts of naga's IR types that the resolver
  reads: `VectorSize`, `ScalarKind`, `Scalar`, `TypeInner` and
  `MathFunction`.
- `Polyfill` (`polyfill.dfy`) models the resolver itself:
  `PolyfilledMathFunction`, `PolyfillOverload`, the two selection tables
  and `FindOverload`. It also holds `Decode`, which reads a helper's name
  back into the shape it handles (`OuterProduct3x2` means 3 columns and
  2 rows). The tables are specified against `Decode`.
- `PolyfillProperties` (`polyfill_properties.dfy`) proves the properties of
  the tables: injectivity, direction sensitivity, exact coverage of the
  helper set, no collisions and no unreachable helper.

## Model

| member | source | states |
|---|---|---|
| `Polyfill.Decode` | naga/src/back/wgsl/polyfill/mod.rs:8-25 | every helper handles one of the twelve signatures (3 square inverses, 9 ordered outer-product shapes); the signature is an inverse exactly when the helper is an `InverseMat*` variant |
| `Polyfill.InverseForVecsize` | naga/src/back/wgsl/polyfill/mod.rs:28-34 | total over Bi/Tri/Quad; the result is an `InverseMat*` helper whose name is the square of the given dimension |
| `Polyfill.OuterProductForVecsize` | naga/src/back/wgsl/polyfill/mod.rs:36-54 | total over all nine (columns, rows) pairs; the result is an `OuterProduct*` helper whose name is exactly that ordered pair |
| `Polyfill.Encode` | naga/src/back/wgsl/polyfill/mod.rs:27-55 | the two tables together pick, for every signature, a helper that decodes back to it |
| `Polyfill.FindOverload` | naga/src/back/wgsl/polyfill/mod.rs:58-95 | returns a result exactly when the operand is a float matrix and the function is `Outer`, or `Inverse` on a square matrix; every other function, non-matrix operand, non-float element or non-square inverse gives none; the helper handles the requested signature (inverse of `columns`, or outer product of the ordered pair (`columns`, `rows`)); the width equals the operand's scalar width |
| `PolyfillProperties.InverseForVecsizeInjective` | naga/src/back/wgsl/polyfill/mod.rs:28-33 | two dimensions pick the same inverse helper if and only if they are equal |
| `PolyfillProperties.OuterProductForVecsizeInjective` | naga/src/back/wgsl/polyfill/mod.rs:40-53 | two (columns, rows) pairs pick the same outer-product helper if and only if they are equal |
| `PolyfillProperties.OuterProductDirectionSensitive` | naga/src/back/wgsl/polyfill/mod.rs:45-52 | swapping columns and rows keeps the helper if and only if the shape is square |
| `PolyfillProperties.InverseTableIsBijective` | naga/src/back/wgsl/polyfill/mod.rs:28-33 | the three dimensions select exactly the three inverse helpers, three distinct ones |
| `PolyfillProperties.OuterProductVariantsCount` | naga/src/back/wgsl/polyfill/mod.rs:13-24 | the nine outer-product variants are pairwise distinct |
| `PolyfillProperties.OuterProductTableIsBijective` | naga/src/back/wgsl/polyfill/mod.rs:40-53 | the nine ordered pairs select exactly the nine outer-product helpers, nine distinct ones |
| `PolyfillProperties.TwelveHelpers` | naga/src/back/wgsl/polyfill/mod.rs:8-25 | the inverse and outer-product helpers are disjoint, twelve in all, and every helper is one of them |
| `PolyfillProperties.EncodeDecode` | naga/src/back/wgsl/polyfill/mod.rs:27-55 | selecting the helper for a helper's own signature gives that helper back, so signatures and helpers correspond one to one |
| `PolyfillProperties.FindOverloadIsEncodeOfRequest` | naga/src/back/wgsl/polyfill/mod.rs:58-95 | the resolver's answer is fixed by the request: the table helper for the requested signature at the operand's width, or none when no polyfill applies |
| `PolyfillProperties.FindOverloadNoCollisions` | naga/src/back/wgsl/polyfill/mod.rs:72-75 | two resolved calls get the same helper if and only if they request the same signature |
| `PolyfillProperties.FindOverloadBranchesDisjoint` | naga/src/back/wgsl/polyfill/mod.rs:72-75 | the `Inverse` branch yields only `InverseMat*` helpers and the `Outer` branch only `OuterProduct*` helpers |
| `PolyfillProperties.EveryHelperReachable` | naga/src/back/wgsl/polyfill/mod.rs:58-95 | each of the twelve helpers, at any width, is the resolver's answer for some float-matrix call |
| `PolyfillProperties.InverseOfFloatMat3x3` | naga/src/back/wgsl/polyfill/mod.rs:68-75 | inverting a 3x3 matrix of 4-byte floats resolves to `InverseMat3x3` at width 4 |
| `PolyfillProperties.OuterProductOfFloat4x2` | naga/src/back/wgsl/polyfill/mod.rs:85-91 | the outer product into a 4-column, 2-row matrix of 8-byte floats resolves to `OuterProduct4x2` at width 8 |

## Left out

- `MathFunction`, `TypeInner` and `ScalarKind` come from naga's IR, which is not part of this model. They are abstracted to what the resolver distinguishes: `Inverse | Outer | Other(tag)`, `Matrix(columns, rows, scalar) | NonMatrix(tag)` and `Float | NonFloat(tag)`.
- `crate::Bytes` is modelled as `nat`. The resolver only copies the width, so the concrete integer type does not matter.
- The field `function` of `PolyfillOverload` is called `helper`, because `function` is a Dafny keyword.
- Emitting the helpers' WGSL bodies and call sites, and emitting each helper once per module, happen in the caller and are not part of this model.
- What the caller does with a `None` result (use a native builtin or report an error) is decided outside the resolver and is not modelled.
