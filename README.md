# rust-renderer: geometry and framebuffer core in Dafny

This project models the pure geometry and framebuffer layer of a small Rust ray
tracer. It proves properties of each part:

- **`Util`**: the tolerance compare `a_equal_b` and the degree-to-radian
  conversion.
- **`Tuples`**: homogeneous tuples. Points have w = 1 and vectors w = 0, with
  component-wise arithmetic, dot and cross products, magnitude and
  normalisation.
- **`Colours`**: unclamped RGB colours with component-wise arithmetic and the
  tolerance equality.
- **`Matrices`**: square matrices of any size. Transpose, submatrix,
  entry-wise addition, the row-by-column product and the tolerance equality
  are loops over local buffers. Each is proved against a function that
  specifies it. The 2x2 determinant, the 3x3 minor and the matrix-times-tuple
  product are expressions and are modelled as functions.
- **`Objects`**: the sphere, `set_transform` and the surface normal.
- **`Rays`**: ray transformation and position, the quadratic ray-sphere
  intersection, and the selection of the hit.
- **As written and as intended.** The matrix-times-tuple product multiplies
  the fourth column by the tuple's x instead of its w (see "## Findings").
  `Rays.Transform`, `Rays.Intersect`, `Objects.WorldNormal` and
  `Objects.NormalAt` model the code as written, on that product. Each has a
  twin named `...Intended` on the corrected product. The lemmas state what
  each one does to the sphere tests, and where the two agree.
- **`Strings`**: the pieces of Rust's `String` that the PPM writer uses. These
  are the UTF-8 byte length, `trim_end`, `ends_with`, `split` on one character
  and the decimal `to_string`.
- **`Canvases`**: the canvas class, whose `write_pixel` updates the pixel grid
  in place, and `to_ppm`. `to_ppm` writes the plain-text PPM (P3) format and
  wraps pixel rows greedily at 70 bytes. It is proved equal to a
  specification of the text. Lemmas show that wrapping keeps the visible text
  in order, that no wrapped line is longer than 70 bytes or ends in a space,
  and that the output ends with a newline.

Stand-ins and conventions:

- **Numbers.** Rust's `f64` is modelled as `real`, so nothing is rounded.
- **Square root.** `f64::sqrt` is a parameter `sqrt` constrained by
  `Util.IsSqrt`: it is non-negative and its square gives back its argument.
- **`invert`.** Matrix inversion is used by `intersect` and `normal_at` but is
  not part of this model. It is a parameter
  `invert: Matrix4 -> Option<Matrix4>`. An `unwrap` of its result becomes a
  precondition that the result is `Some`.
- **`ORIGIN` and `BLACK`.** Neither is defined in the modelled files. They are
  taken as `point(0, 0, 0)` and `colour(0, 0, 0)`.
- **Pixel text.** Colour's `to_string`, used by `to_ppm`, is not part of this
  model. `Canvas.ToPpm` takes the pixel text as a parameter `pixelText`.
  `Canvases.PixelText` is one such function. It clamps, scales by 255 and
  rounds, as the PPM examples expect.
- **Intersection `c` term.** The intersection subtracts the constant 1 in `c`,
  as the code does, not the square of the sphere's radius.
  `Rays.IntersectIgnoresRadius` shows that the radius plays no part.

## Model

| member | source | states |
|---|---|---|
| Util.Abs | src/util.rs:6 | the absolute value is non-negative and is the value or its negation |
| Util.AEqualBReflexive | src/util.rs:5-7 | every value is "equal" to itself under `a_equal_b` |
| Util.AEqualBLenient | src/util.rs:5-7 | `a_equal_b(a, b)` holds whenever abs(a) <= abs(b), so 0 "equals" 1 while 1 does not "equal" 0: the compare is not symmetric |
| Util.AEqualBIgnoresSigns | src/util.rs:5-7 | negating either argument does not change the result |
| Util.AEqualBWeakerThanClose | src/util.rs:5-7 | values within the tolerance of each other always compare equal, but -1 and 1 also do |
| Util.Radians | src/util.rs:19-21 | r * 180 = degrees * PI, so 0 degrees is 0 and 180 degrees is PI |
| Util.RadiansI | src/util.rs:15-17 | the i32 version equals `radians` of the exact conversion |
| Tuples.Point | src/tuple.rs:13-15 | a point keeps its coordinates, is a point and is not a vector |
| Tuples.PointI | src/tuple.rs:17-19 | `point_i` equals `point` of the converted coordinates |
| Tuples.Vector | src/tuple.rs:21-23 | a vector keeps its coordinates, is a vector and is not a point |
| Tuples.VectorI | src/tuple.rs:25-27 | `vector_i` equals `vector` of the converted coordinates |
| Tuples.Add | src/tuple.rs:65-76 | a point plus a vector is a point, and a vector plus a vector is a vector |
| Tuples.Sub | src/tuple.rs:78-89 | a point minus a point is a vector, and a point minus a vector is a point |
| Tuples.Neg | src/tuple.rs:91-102 | the negation of a vector is a vector |
| Tuples.Scale | src/tuple.rs:104-115 | scaling by 1 changes nothing, scaling by 0 gives ZERO_VECTOR, and a scaled vector is a vector |
| Tuples.ScaleI | src/tuple.rs:117-129 | multiplying by an i32 equals scaling by the same value as a real |
| Tuples.Div | src/tuple.rs:131-142 | dividing by a nonzero k equals scaling by 1/k |
| Tuples.DivI | src/tuple.rs:144-156 | dividing by a nonzero i32 equals dividing by the same real |
| Tuples.Cross | src/tuple.rs:36-40 | the cross product is always a vector (w = 0) |
| Tuples.Magnitude | src/tuple.rs:51-53 | the magnitude is non-negative, its square is the dot product of the tuple with itself, and it is positive for every nonzero tuple |
| Tuples.Normalize | src/tuple.rs:55-62 | every component, w included, is divided by the magnitude; a vector stays a vector; the result has magnitude 1 |
| Tuples.SquaresNonNegative | src/tuple.rs:51-53 | the sum of the squares of the four components is non-negative, and positive unless the tuple is ZERO_VECTOR |
| Tuples.PointVectorArithmetic | src/tuple.rs:65-89 | point - point is a vector; point + vector and point - vector are points; vector +/- vector is a vector |
| Tuples.NegProperties | src/tuple.rs:65-102 | negation is an involution, ZERO_VECTOR - a = -a, and a - b = a + (-b) |
| Tuples.DotSymmetric | src/tuple.rs:29-34 | the dot product is symmetric |
| Tuples.CrossAntiCommutative | src/tuple.rs:36-40 | swapping the arguments of the cross product negates it |
| Tuples.CrossOrthogonal | src/tuple.rs:36-40 | the cross product of two vectors is orthogonal to both |
| Tuples.TupleExamples | src/main.rs:958-1096 | the dot, cross, add, subtract, multiply and divide examples of the tuple tests |
| Tuples.MagnitudeExamples | src/main.rs:995-1028 | the magnitude of (1, 0, 0) is 1 and that of (-1, -2, -3) is sqrt(14) |
| Tuples.NormalizeExample | src/main.rs:972-993 | normalising (4, 0, 0) gives (1, 0, 0) |
| Colours.ColourOf | src/colour.rs:12-18 | `colour` stores the channels unchanged, without clamping |
| Colours.Add | src/colour.rs:20-30 | subtracting the second colour from the sum gives the first back |
| Colours.Sub | src/colour.rs:32-42 | subtracting BLACK changes nothing, and a colour minus itself is BLACK |
| Colours.Scale | src/colour.rs:57-67 | scaling by 1 changes nothing and scaling by 0 gives BLACK |
| Colours.Mul | src/colour.rs:69-79 | multiplying by white (1, 1, 1) changes nothing and multiplying by BLACK gives BLACK |
| Colours.MulProperties | src/colour.rs:69-79 | the channel-wise product is commutative and associative, has white as its unit, and distributes over addition |
| Colours.ScaleI | src/colour.rs:44-55 | multiplying by an i32 equals scaling by the same value as a real |
| Colours.Ne | src/colour.rs:88-92 | `ne` is exactly the negation of `eq` |
| Colours.EqChannels | src/colour.rs:81-86 | `eq` holds exactly when `a_equal_b` holds for red, green and blue |
| Colours.EqReflexive | src/colour.rs:81-86 | `eq` is reflexive |
| Colours.EqLenient | src/colour.rs:81-86 | a colour no larger in magnitude in each channel "equals" the other; black equals red, but red does not equal black |
| Colours.AddSubProperties | src/colour.rs:20-42 | addition commutes, c - c is black, and (a + b) - b = a |
| Colours.ColourExamples | src/main.rs:924-955 | the add, subtract and multiply examples of the colour tests; the i32 scaling example beside them is not from the tests |
| Matrices.Zeros | src/matrix.rs:19-23 | `matrix_empty` is N x N with every entry 0 |
| Matrices.Identity4IsIdentity | src/matrix.rs:7-12 | IDENTITY_MATRIX is the 4 x 4 identity (1 on the diagonal, 0 elsewhere) |
| Matrices.Transpose | src/matrix.rs:32-43 | the loop yields an N x N matrix with r[i][j] = m[j][i] for all i, j < N |
| Matrices.TransposeInvolution | src/matrix.rs:32-43 | transposing twice gives the matrix back |
| Matrices.TransposeIdentity | src/main.rs:680-684 | the transpose of IDENTITY_MATRIX is IDENTITY_MATRIX |
| Matrices.Submatrix | src/matrix.rs:45-66 | with the row and column modifiers, the loop yields an (N-1) x (N-1) matrix whose entry [i][j] is m[i + (i >= row ? 1 : 0)][j + (j >= column ? 1 : 0)] |
| Matrices.SubmatrixKeeps | src/matrix.rs:45-66 | every entry outside the deleted row and column appears in the submatrix at its index shifted past the deleted ones |
| Matrices.SubmatrixExamples | src/main.rs:621-651 | the 3x3 and 4x4 submatrix examples of the matrix tests |
| Matrices.Determinant2 | src/matrix.rs:76-80 | for a triangular 2x2 matrix, the determinant is the product of the diagonal |
| Matrices.Determinant2Properties | src/matrix.rs:76-80 | the 2x2 determinant equals that of the transpose, is 1 for the identity, changes sign when the rows are swapped, and is 0 when they are equal |
| Matrices.MinorIgnoresDeleted | src/matrix.rs:69-74 | the 3x3 minor depends only on the entries outside the deleted row and column |
| Matrices.DeterminantExamples | src/main.rs:608-660 | the 2x2 determinant of [[1,5],[-3,2]] is 17; minors (1,0) and (0,0) of the test matrix are 25 and -12 |
| Matrices.Add | src/matrix.rs:82-94 | the loop yields an N x N matrix whose entries are the entry-wise sums |
| Matrices.Mul | src/matrix.rs:113-127 | the triple loop yields the product whose [r][c] entry is the sum over i of a[r][i] * b[i][c], accumulated in order |
| Matrices.ProductIdentity | src/matrix.rs:113-127 | the identity is a unit of the product on both sides, so m * IDENTITY_MATRIX = m |
| Matrices.MulTupleAsWritten | src/matrix.rs:129-140 | the product as written: under an affine matrix, the result's w is the tuple's x, not its w |
| Matrices.MulTuple | src/matrix.rs:129-140 | the intended product: an affine matrix keeps w, so it maps points to points and vectors to vectors |
| Matrices.MulTupleAsWrittenReplacesW | src/matrix.rs:129-140 | the product as written is the intended product of the tuple with its w replaced by its x |
| Matrices.MulTupleAsWrittenAgrees | src/matrix.rs:129-140 | the product as written equals the intended product if and only if the tuple's x equals its w or the matrix's fourth column is all zero |
| Matrices.MulTupleIdentity | src/matrix.rs:129-140 | IDENTITY_MATRIX is a unit of the intended product; as written, it replaces w by x, turning the point (0,0,-5) into a vector and ORIGIN into ZERO_VECTOR |
| Matrices.MulTupleLinear | src/matrix.rs:129-140 | the intended product distributes over tuple addition and scaling |
| Matrices.MulTupleAsWrittenLinear | src/matrix.rs:129-140 | the product as written also distributes over tuple addition and scaling |
| Matrices.MulTupleExample | src/main.rs:698-720 | the matrix-times-tuple example holds for both the product as written and the intended product |
| Matrices.Equal | src/matrix.rs:96-106 | the early-exit scan returns true exactly when every pair of entries passes `a_equal_b` |
| Matrices.AllCloseProperties | src/matrix.rs:96-106 | matrix `eq` is reflexive, and the zero matrix "equals" every matrix of its size |
| Objects.SetTransform | src/objects.rs:23-33 | the result has the given transformation and keeps the position and radius |
| Objects.SetTransformProperties | src/objects.rs:23-33 | the last write wins, writing back the current transformation changes nothing, and a write changes nothing exactly when the transformation is already that one |
| Objects.SphereExamples | src/objects.rs:14-20 | `sphere()` is at ORIGIN with radius 1 and IDENTITY_MATRIX; `set_transform` installs the given matrix |
| Objects.WorldNormal | src/objects.rs:38-46 | the un-normalised world normal, with both products as written, always has w = 0, and equals the intended one when the point and the object normal have x = w |
| Objects.WorldNormalIntended | src/objects.rs:38-46 | the world normal with the intended product always has w = 0 |
| Objects.NormalAt | src/objects.rs:35-50 | as written, the normal is a vector of magnitude 1 along the world normal; it needs an invertible transformation and a nonzero world normal |
| Objects.NormalAtIntended | src/objects.rs:35-50 | the same for the intended world normal |
| Objects.NormalIgnoresRadius | src/objects.rs:35-50 | the radius plays no part in the normal |
| Objects.WorldNormalUntransformed | src/objects.rs:35-50 | under the identity, both world normals are the point minus the centre |
| Objects.WorldNormalTranslated | src/objects.rs:35-50 | for a sphere translated by (0, 1, 0), the intended world normal at (0, 1.6, -0.8) is (0, 0.6, -0.8), but the one as written is (0, 1.6, -0.8), because the translation is multiplied by the point's x |
| Objects.NormalAtUntransformed | src/objects.rs:35-50 | for an untransformed sphere at the origin, both normals at a point of the unit sphere are that point's direction |
| Rays.Transform | src/ray.rs:11-15 | as written: under an affine matrix, the new origin's w is the old origin's x and the new direction's w is the old direction's x |
| Rays.TransformIntended | src/ray.rs:11-15 | with the intended product, an affine matrix keeps a ray from a point along a vector such a ray |
| Rays.TransformPosition | src/ray.rs:11-15 | as written: the point at time t of the transformed ray is the product as written of the matrix and the point at time t; the identity leaves the ray unchanged if and only if both its tuples have x = w |
| Rays.TransformAgrees | src/ray.rs:11-15 | when both tuples of the ray have x = w, `transform` as written equals the intended one |
| Rays.TransformIntendedPosition | src/ray.rs:11-15 | with the intended product, the point at time t of the transformed ray is the transformed point at time t, and the identity always leaves the ray unchanged |
| Rays.Position | src/ray.rs:26-28 | a ray from a point along a vector gives a point at every time, and at time 0 it gives the origin |
| Rays.PositionProperties | src/ray.rs:26-28 | a ray from a point along a vector stays on points, starts at its origin, and moves by direction * t |
| Rays.PositionAlongX | src/ray.rs:26-28 | along the x axis, the point at time t is the origin moved by t in x |
| Rays.PositionExampleFractional | src/main.rs:244-252 | the position example at time 2.5 |
| Rays.Solve | src/ray.rs:43-50 | no intersection exactly when the discriminant is negative; otherwise two intersections, both tagged with the object, smaller time first |
| Rays.SolveExact | src/ray.rs:43-50 | the reported times are exactly the roots of a t^2 + b t + c |
| Rays.LocalIntersect | src/ray.rs:39-50 | on a ray already in object space: none exactly when b^2 - 4ac < 0 for the ray's coefficients; otherwise two intersections with the object, ordered |
| Rays.LocalIntersectSolves | src/ray.rs:39-42 | a = dot(direction, direction) is positive for a nonzero direction, and the step solves the quadratic with the ray's coefficients |
| Rays.LocalIntersectExact | src/ray.rs:39-50 | a time is reported exactly when the point of the ray at that time lies on the unit sphere around the object's position |
| Rays.Intersect | src/ray.rs:30-51 | as written: none or two intersections, both carrying the object, the smaller time first |
| Rays.IntersectIntended | src/ray.rs:30-51 | the same with the intended transformation |
| Rays.IntersectExact | src/ray.rs:30-51 | as written: a time is reported if and only if the ray's point at that time, taken through the inverse by the product as written, lies on the unit sphere around the object |
| Rays.IntersectIntendedExact | src/ray.rs:30-51 | the same with the intended product |
| Rays.IntersectIgnoresRadius | src/ray.rs:39-42 | the sphere's radius does not change which times are reported |
| Rays.IntersectUntransformed | src/ray.rs:30-33 | as written, with an identity inverse, `intersect` is the local intersection of the ray whose tuples have w replaced by x |
| Rays.IntersectIntendedUntransformed | src/ray.rs:30-33 | with the intended product and an identity inverse, `intersect` is the local intersection of the ray itself |
| Rays.SolveWith | src/ray.rs:48-50 | given a root s of the discriminant, the intersections are at (-b - s)/2a and (-b + s)/2a |
| Rays.NegativeDiscriminant | src/ray.rs:45-47 | a negative discriminant gives no intersections |
| Rays.AlongZ | src/ray.rs:39-42 | for a ray along z against a sphere at the origin, the coefficients are dz^2, 2 dz z and the squared distance minus 1 |
| Rays.TestRay | src/main.rs:175-242 | the rays of the sphere tests, from (0, y, z) along z: `transform` as written under the identity turns the origin into the vector (0, y, z), while the intended one keeps the ray |
| Rays.SphereTestsAsWritten | src/main.rs:175-242 | with `intersect` as written on an untransformed sphere, every test ray with y != 0 misses and every one with y = 0 meets the sphere at -z twice: 5 and 5 where the through-centre test expects 4 and 6, and a miss where the tangent test expects 5 and 5 |
| Rays.OffAxisDiscriminant | src/ray.rs:43-47 | for the ray as written from (0, y, z, 0) along z, the discriminant is -4 y^2, so negative off the plane y = 0 |
| Rays.IntersectThroughCentre | src/main.rs:229-242 | the ray from (0,0,-5) along z meets the unit sphere at times 4 and 6 |
| Rays.IntersectFromInside | src/main.rs:190-203 | the ray from the origin along z meets it at times -1 and 1 |
| Rays.IntersectBehind | src/main.rs:175-188 | the ray from (0,0,5) along z meets it at times -6 and -4 |
| Rays.IntersectTangent | src/main.rs:214-227 | the ray from (0,1,-5) along z grazes it at time 5, twice |
| Rays.IntersectMiss | src/main.rs:205-212 | the ray from (0,2,-5) along z misses |
| Rays.IntersectScaled | src/main.rs:41-55 | as written, against a sphere scaled by 2, the origin becomes the vector (0, 0, -2.5) and the times are 5 and 5, where the test expects 3 and 7 |
| Rays.IntersectScaledIntended | src/main.rs:41-55 | with the intended product, the times are 3 and 7 |
| Rays.IntersectTranslated | src/main.rs:32-39 | as written, against a sphere translated by (5,0,0), the translation is multiplied by the origin's x = 0, and the times are 5 and 5, where the test expects none |
| Rays.IntersectTranslatedIntended | src/main.rs:32-39 | with the intended product, there is no intersection |
| Rays.TransformScalingExample | src/main.rs:80-88 | scaling(2,3,4) maps the ray (1,2,3) along (0,1,0) to (2,6,12) along (0,3,0), with either product |
| Rays.TransformTranslationExample | src/main.rs:90-98 | translation(3,4,5) moves the origin to (4,6,8) and leaves the direction alone, with either product |
| Rays.Hit | src/ray.rs:60-81 | the scan returns nothing exactly when there are no intersections or no time is strictly between 0 and f64::MAX; otherwise it returns the intersection with the smallest such time, the first of equal ones |
| Rays.HitUnique | src/ray.rs:60-81 | there is at most one hit |
| Rays.HitOfOrderedPair | src/ray.rs:60-81 | for a pair ordered by time, the hit is the nearer one when it is in front, and otherwise the farther one when that is |
| Rays.HitIgnoresOrder | src/ray.rs:66-71 | swapping two intersections with different times does not change which one is the hit |
| Rays.HitExamples | src/main.rs:100-131 | the hit tests: all negative gives none; -1 and 1 give the one at 1; 2 and 1 give the one at 1 |
| Strings.CharBytes | src/canvas.rs:40 | each character takes 1 to 4 bytes in UTF-8, and an ASCII character takes 1 |
| Strings.ByteLen | src/canvas.rs:40 | `len` counts at least one byte and at most four per character |
| Strings.ByteLenAppend | src/canvas.rs:45 | the byte length of a concatenation is the sum of the byte lengths |
| Strings.TrimEnd | src/canvas.rs:46 | `trim_end` gives a prefix that does not end in whitespace, and everything cut off is whitespace |
| Strings.TrimEndByteLen | src/canvas.rs:46 | trimming never adds bytes |
| Strings.TrimEndSpace | src/canvas.rs:60-61 | trimming a text that ends in a space trims the text without it |
| Strings.TrimEndIdempotent | src/canvas.rs:46 | `trim_end` is idempotent |
| Strings.Split | src/canvas.rs:42 | `split` gives at least one piece and no piece contains the separator |
| Strings.SplitJoin | src/canvas.rs:42 | joining the pieces with the separator gives back the text |
| Strings.VisibleTrimEnd | src/canvas.rs:46 | trimming removes only whitespace |
| Strings.VisibleJoin | src/canvas.rs:42 | joining with a whitespace separator adds only whitespace |
| Strings.Unlines | src/canvas.rs:46-47 | a nonempty sequence of lines, each written with its newline, ends in a newline |
| Strings.NatToString | src/canvas.rs:27-29 | `to_string` of an unsigned integer gives decimal digits only, with no leading zero |
| Strings.NatToStringValue | src/canvas.rs:27-29 | reading the digits back gives the number |
| Strings.NatToStringInjective | src/canvas.rs:27-29 | different numbers print differently |
| Strings.NatToStringExamples | src/main.rs:883-895 | the decimal texts of 0, 3, 5, 128, 153, 204 and 255 |
| Canvases.Blank | src/canvas.rs:11-17 | a new grid has `height` rows of `width` pixels, all BLACK |
| Canvases.WithPixel | src/canvas.rs:20-22 | the pixel in row y, column x reads c afterwards; the shape and every other pixel are unchanged |
| Canvases.Canvas.constructor | src/canvas.rs:11-17 | `canvas` stores the dimensions, and its pixels are the blank grid |
| Canvases.Canvas.WritePixel | src/canvas.rs:20-22 | `write_pixel` keeps the dimensions and the grid shape, and replaces exactly the pixel in row y, column x |
| Canvases.Canvas.ToPpm | src/canvas.rs:24-68 | the loops build exactly the specified PPM text: the header, then each row's lines in order |
| Canvases.WriteRow | src/canvas.rs:40-65 | the row step appends the specified lines of one row, each with its newline: greedy wrap when longer than 70 bytes, otherwise the row trimmed of a final space |
| Canvases.Wrap | src/canvas.rs:40-57 | the wrap of a long row always writes at least one line |
| Canvases.RowLines | src/canvas.rs:40-65 | every pixel row gives at least one line |
| Canvases.WrapJoin | src/canvas.rs:51-54 | a piece joins the current line, followed by a space, when the line's length plus its own stays within 70 |
| Canvases.WrapFlush | src/canvas.rs:45-50 | when the line plus the piece exceeds 70, the trimmed line is written and the piece starts the next one |
| Canvases.WrapGroup | src/canvas.rs:43-54 | pieces that fit together on the line all join it |
| Canvases.PpmEndsWithNewline | src/canvas.rs:24-68 | the PPM text always ends with a newline |
| Canvases.WrapKeepsText | src/canvas.rs:40-57 | wrapping keeps the visible characters of the line begun and of the pieces, in order |
| Canvases.RowLinesKeepText | src/canvas.rs:40-65 | with all whitespace removed, a row's lines put together are the row's text with all whitespace removed: no visible character is lost, added or reordered |
| Canvases.OpenLineFits | src/canvas.rs:46 | a line under construction, trimmed, fits within 70 bytes |
| Canvases.WrapFits | src/canvas.rs:40-57 | when no piece is longer than 70 bytes, no wrapped line is either |
| Canvases.RowLinesFit | src/canvas.rs:40-65 | every line of a row fits within 70 bytes when every piece between spaces does |
| Canvases.WrapTrimmed | src/canvas.rs:40-57 | no wrapped line ends in whitespace |
| Canvases.RowLinesNoTrailingSpace | src/canvas.rs:40-65 | no line of a pixel row ends in a space |
| Canvases.Header | src/canvas.rs:26-31 | the header starts with the line "P3" and ends with the line "255" |
| Canvases.Ppm | src/canvas.rs:24-68 | the PPM text starts with the header |
| Canvases.HeaderExample | src/main.rs:883-895 | the header of a 5 x 3 canvas is "P3", "5 3", "255" |
| Canvases.Channel | src/canvas.rs:38 | a channel value is between 0 and 255, 0 at or below 0 and 255 at or above 1 |
| Canvases.ChannelExamples | src/main.rs:862-881 | 1.5 gives 255, -0.5 gives 0, 0.5 gives 128, 0.8 gives 204, 0.6 gives 153 |
| Canvases.PixelTextExamples | src/main.rs:862-881 | the pixel texts of the pixel-data example colours |
| Canvases.PixelTextMoreExamples | src/main.rs:840-860 | black gives "0 0 0 " and (1, 0.8, 0.6) gives "255 204 153 " |
| Canvases.SplitSpaced | src/canvas.rs:42 | splitting space-terminated pieces gives the pieces and a final empty one |
| Canvases.ShortRow | src/canvas.rs:58-65 | a row of at most 70 bytes that ends in one space is written as one line without it |
| Canvases.ShortRowExample | src/main.rs:862-881 | the first pixel row of the pixel-data example is written as "255 0 0 0 0 0 0 0 0 0 0 0 0 0 0" |
| Canvases.WrapTwoLines | src/main.rs:840-860 | a row of 18 to 34 three-digit numbers wraps into two lines after the 17th number |
| Canvases.WrapLastLine | src/main.rs:840-860 | up to 17 three-digit numbers fit on one line |
| Canvases.WrapTwoLinesJoined | src/main.rs:840-860 | those two lines are the numbers joined by single spaces |
| Canvases.TrimmedJoin | src/canvas.rs:46 | space-terminated three-digit numbers trim to the numbers joined by single spaces |
| Canvases.LongRowText | src/main.rs:840-860 | the pixel texts of ten (1, 0.8, 0.6) pixels put together are "255 204 153 " ten times |
| Canvases.LongRowPieces | src/main.rs:840-860 | those thirty numbers are the first line's 17 numbers followed by the second line's 13 |
| Canvases.LongRowExample | src/main.rs:840-860 | the lines of that pixel row are the two lines the splitting example expects |
| Canvases.RowTextRepeat | src/canvas.rs:35-39 | a row of n equal pixels gives the pixel's text n times over |
| Canvases.CanvasExamples | src/main.rs:898-921 | a new canvas is all BLACK; writing (2, 3) sets row 3, column 2; row 2, column 3 stays BLACK and still "equals" red |

## Left out

- `write_file`, `main`, the demo drivers and the projectile demo: file I/O, printing and drivers outside the geometry layer.
- `invert`, `cofactor`, the determinant for N >= 3, `identity()`, and the rotation, scaling, translation and shearing builders are not part of this model. `invert` is a parameter. The test matrices appear as literal matrices.
- Matrix `ne` compares addresses with `std::ptr::eq`, which has no meaning for values. It is not modelled.
- IEEE-754 rounding, infinities and NaN are not modelled: every `f64` is a real. `PI` is the shortest decimal that reads back as the f64 constant, not pi itself.
- Matrices.Submatrix: an index out of range panics in the source. It is excluded by a precondition.
- Tuples.Div: a zero divisor gives infinities or NaN in f64 and is excluded by a precondition.
- Tuples.Normalize: a zero magnitude divides by zero and is excluded by a precondition.
- Objects.NormalAt: a transformation without an inverse makes the source panic, and a zero world normal divides by zero. Both are preconditions.
- Rays.LocalIntersect: a zero direction gives a = 0 and divides by zero. It is excluded by a precondition.
- Rays.Intersect, Rays.IntersectExact: the inverse must exist, as `unwrap` panics otherwise, and the transformed direction must be nonzero, as the division by 2a needs.
- Rays.Hit: requires exactly two intersections, because the source's array type `[Intersection; 2]` guarantees it.
- Canvases.Canvas.WritePixel: out-of-range coordinates panic on the index in the source. They are excluded by a precondition.
- Canvases.Canvas.ToPpm: Colour's `to_string` is not part of this model. The pixel text is a parameter, and `Canvases.PixelText` is one choice consistent with the PPM examples.
- Canvases.WriteRow: the row step of `to_ppm` is a separate method here, so that each proof stays small. `to_ppm` calls it once per row.
- The `u32` to `usize` casts of the canvas are exact here. A `usize` of at least 32 bits is assumed.
- `Strings.IsWhitespace` is the Unicode White_Space set that `trim_end` uses.
- The `pixels[2][3]` test reads the pixel at x = 3, y = 2 after writing x = 2, y = 3. It passes only because of the lenient colour equality, as `Canvases.CanvasExamples` shows.

## Findings

| source | as written | input that shows it | evidently intended | confidence | as-written member | corrected member |
|---|---|---|---|---|---|---|
| src/matrix.rs:129-140 | the fourth column of each row is multiplied by the tuple's x | IDENTITY_MATRIX times point(0, 0, -5) gives (0, 0, -5, 0), a vector; so `intersect` on an untransformed sphere reports 5 and 5 for the ray from (0, 0, -5) along z, while the test expects 4 and 6 (Rays.SphereTestsAsWritten) | the matrix-vector product, the fourth column times w | not executed | Matrices.MulTupleAsWritten | Matrices.MulTuple |
