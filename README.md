# UniformBicone orientation colouring, modelled in Dafny

UniformBicone colours crystal directions for inverse pole figures, following
the construction of Nolze and Hielscher (2016). A unit direction is first
folded into the fundamental sector of one of the eleven Laue groups, using
sign tests, swaps and fixed 60, 90 and 120 degree rotations. A spherical
triangle patch then maps the folded direction to fractional hemisphere
coordinates. Those coordinates go to an external six-colour bicone map
(`SixBi`). The Python binding adds more: it cleans map names (lower case,
white space removed) and looks them up, validates the fill value and the
symmetry argument, and rescales an input array to [0, 1] by its least and
greatest number. Its pixel loop writes a colour per value, or the fill for
NaNs and for values out of range.

The model is split into modules that follow the program:

- `Vector`: the real 3-vectors, the rotations and reflections about z, the
  determinant, and the signed axis permutations that generate the cubic
  group. √3 and √2 are parameters `k3` and `k2` with `IsSqrt3`/`IsSqrt2`.
- `Symmetry`: the folds `bar1`, `z2`, `z3`, `z4`, `z6` and the reductions
  `orthorhombic`, `tetragonal`, `trigonal`, `hexagonal`, `cubic`, as pure
  functions on values, with lemmas for the sector each lands in, the orbit
  it stays in, its fixed points and its idempotence. Invariance is proved
  for each reduction under the generators of the Laue groups it serves.
  For mmm, 4/mmm and m-3m it holds for every direction. For the turns of
  2/m, 4/m, -3 and 6/m, and the mirrors of -3m and 6/mmm, it holds off the
  vertical planes where the source's sign tests pick between two boundary
  images: y = 0 for 2/m, the planes x = 0 and y = 0 for 4/m, and the planes
  at 0, 60 and 120 degrees (`OffHexLines`) for the 3- and 6-fold groups.
  The inversion is covered off the equator.
- `Detail`: the same folds as in-place methods on a three-element `array<real>`,
  as the source mutates `n[3]`. Each is proved equal to its `Symmetry`
  function.
- `Triangle`: the `SphericalTriangle` patch. This covers the hemisphere
  check, the cumulative angles, the fillet cutoffs, the Hermite fillet
  coefficients, the `Cyclic<N>` and `Cubic` vertex choices, `fundToHemi`
  (region choice by `lower_bound`, fillet clipping) and `fundToIpf`.
- `Ipf`: the eleven Laue entry points and `cyclic<N>`/`dihedral<N>`. Each
  copies the direction, reduces it in place, and colours it through the
  patch.
- `Names`: `cleanString`, the name lookups, `getMap` and `parseSym`.
- `Scaling`: doubles with NaN. It covers `getFill`, `minMaxScale`,
  `scaleClamp` and the element loop of `linear_wrapper`.

The ratio tests of the source (`y/x > √3` and the like) are modelled as the
cross-multiplied comparisons that agree with them for the sign of `x` that
each branch knows. The sign-bit tests are modelled as comparisons with zero.

Trigonometry is left as data the model takes in:

- `atan2`, `acos` and the edge arc of the linear region are function values
  in a `Trig` record.
- The geometry the constructor derives with trigonometry is a `Frame`
  input: the centre, the red/perpendicular frame, the edge normals, the
  vertex angles, and the sampled radii and slopes at the fillet transitions.
- The external colour maps are function values (`SixBi`, the sphere map,
  the ramp map).

The default argument `jumpFree = true` of `trigonalLow` comes from its
declaration (include/orientation_coloring.hpp:58). So `cyclic<3>` colours
with the jump-free variant, and `Ipf.Cyclic` does the same.

## Model

| member | source | states |
|---|---|---|
| Symmetry.Bar1 | include/orientation_coloring.hpp:76 | the result is in the northern hemisphere, is v or -v, and is v when v is already northern |
| Symmetry.Z2 | include/orientation_coloring.hpp:83 | the result has y >= 0, keeps z and x²+y², is v or v turned by 180 degrees, and is v when y >= 0 already |
| Symmetry.Z3 | include/orientation_coloring.hpp:87-116 | the result keeps z, is v turned by 0, 120 or 240 degrees, and is v when v is already in the 0-120 degree sector |
| Symmetry.Z3Lands | include/orientation_coloring.hpp:87-116 | every direction lands in the 0-120 degree sector (y >= 0 and k3·x + y >= 0), keeping x²+y² and z |
| Symmetry.Z4 | include/orientation_coloring.hpp:120-126 | the result is in the first quadrant and keeps z; a first-quadrant direction is unchanged |
| Symmetry.Z4Orbit | include/orientation_coloring.hpp:120-126 | the result is v turned by a multiple of 90 degrees |
| Symmetry.Z6 | include/orientation_coloring.hpp:130-147 | the result keeps z |
| Symmetry.Z6Lands | include/orientation_coloring.hpp:130-147 | every direction lands in the 0-60 degree sector, keeping x²+y² |
| Symmetry.Z6Orbit | include/orientation_coloring.hpp:130-147 | the result is v turned by a multiple of 60 degrees |
| Symmetry.Z6Fixes | include/orientation_coloring.hpp:130-147 | a direction already in the 0-60 degree sector is unchanged |
| Symmetry.Orthorhombic | include/orientation_coloring.hpp:154-162 | the reduced direction is (\|x\|, \|y\|, \|z\|); it is in the 2/m orbit of v, or its x mirror is when the flag is set (and then x > 0) |
| Symmetry.OrthorhombicFixes | include/orientation_coloring.hpp:154-162 | a direction of the first octant is returned unchanged with the flag clear |
| Symmetry.OrthorhombicIdempotent | include/orientation_coloring.hpp:154-162 | reducing a reduced direction changes nothing and clears the flag |
| Symmetry.OrthorhombicInvariant | include/orientation_coloring.hpp:154-162 | directions related by any sign changes reduce to the same direction |
| Symmetry.Tetragonal | include/orientation_coloring.hpp:167-176 | the reduced direction is (max(\|x\|,\|y\|), min(\|x\|,\|y\|), \|z\|), so x >= y >= 0 and z >= 0; a set flag means the final swap made x > y |
| Symmetry.TetragonalCoset | include/orientation_coloring.hpp:167-176 | the reduced direction (or its x/y swap when the flag is set) is in the 4/m orbit of v; the northern 0-45 degree sector is fixed with the flag clear |
| Symmetry.TetragonalIdempotent | include/orientation_coloring.hpp:167-176 | reducing a reduced direction changes nothing and clears the flag |
| Symmetry.TetragonalInvariant | include/orientation_coloring.hpp:167-176 | directions related by sign changes and the x/y swap reduce to the same direction |
| Symmetry.Trigonal | include/orientation_coloring.hpp:181-196 | the reduced direction has z = \|v.z\| |
| Symmetry.TrigonalLands | include/orientation_coloring.hpp:181-196 | every direction lands in the northern 0-60 degree sector |
| Symmetry.TrigonalKeepsNorm | include/orientation_coloring.hpp:181-196 | the reduction keeps x²+y² |
| Symmetry.TrigonalMirrorLands | include/orientation_coloring.hpp:189-194 | the 60 degree mirror takes the 0-120 degree sector into 0-60 degrees; unmirrored it is the identity, mirrored it is undone by the 60 degree mirror and lands strictly below the 60 degree line |
| Symmetry.TrigonalMirrorStrict | include/orientation_coloring.hpp:181-196 | when the flag is set the result lies strictly below the 60 degree line |
| Symmetry.TrigonalCoset | include/orientation_coloring.hpp:181-196 | the reduced direction (or its 60 degree mirror when the flag is set) is in the -3 orbit of v |
| Symmetry.TrigonalFixes | include/orientation_coloring.hpp:181-196 | a northern direction in 0-60 degrees is unchanged with the flag clear |
| Symmetry.TrigonalIdempotent | include/orientation_coloring.hpp:181-196 | reducing a reduced direction changes nothing and clears the flag |
| Symmetry.Hexagonal | include/orientation_coloring.hpp:201-217 | the reduced direction has z = \|v.z\| |
| Symmetry.HexagonalLands | include/orientation_coloring.hpp:201-217 | every direction lands in the northern 0-30 degree sector |
| Symmetry.HexagonalKeepsNorm | include/orientation_coloring.hpp:201-217 | the reduction keeps x²+y² |
| Symmetry.HexagonalMirrorLands | include/orientation_coloring.hpp:210-215 | the 30 degree mirror takes 0-60 degrees into 0-30 degrees, keeps x²+y² and z, and is the identity when it does not fire |
| Symmetry.HexagonalMirrorUndo | include/orientation_coloring.hpp:210-215 | when the 30 degree mirror fires, mirroring back gives the input, and the result lies strictly below the 30 degree line |
| Symmetry.HexagonalMirrorStrict | include/orientation_coloring.hpp:201-217 | when the flag is set the result lies strictly below the 30 degree line |
| Symmetry.HexagonalCoset | include/orientation_coloring.hpp:201-217 | the reduced direction (or its 30 degree mirror when the flag is set) is in the 6/m orbit of v |
| Symmetry.HexagonalFixes | include/orientation_coloring.hpp:201-217 | a northern direction in 0-30 degrees is unchanged with the flag clear |
| Symmetry.HexagonalIdempotent | include/orientation_coloring.hpp:201-217 | reducing a reduced direction changes nothing and clears the flag |
| Symmetry.CubicSorts | include/orientation_coloring.hpp:222-240 | the reduced direction is the permutation (middle, least, greatest) of (\|x\|,\|y\|,\|z\|), so z >= x >= y >= 0; a set flag means the final swap made x > y |
| Symmetry.CubicCoset | include/orientation_coloring.hpp:222-240 | the reduced direction (or its x/y swap when the flag is set) is in the m-3 orbit of v; the standard triangle is fixed with the flag clear |
| Symmetry.CubicIdempotent | include/orientation_coloring.hpp:222-240 | reducing a reduced direction changes nothing and clears the flag |
| Symmetry.CubicInvariant | include/orientation_coloring.hpp:222-240 | directions related by any signed axis permutation reduce to the same direction |
| Symmetry.SortedAbsPermute | include/orientation_coloring.hpp:222-240 | the sorted absolute values do not depend on the order of the components |
| Symmetry.Mirror60Lands | include/orientation_coloring.hpp:189-194 | the 60 degree mirror of a 0-120 degree direction beyond the 60 degree line lands strictly below it, keeps x²+y² and z, and mirrors back to the input |
| Symmetry.Z3Unique | include/orientation_coloring.hpp:87-116 | z3 returns the 120 degree turn of its input that lies strictly inside the 0-120 degree sector, whenever one does |
| Symmetry.Z6Unique | include/orientation_coloring.hpp:130-147 | z6 returns the 60 degree turn of its input that lies strictly inside the 0-60 degree sector, whenever one does |
| Symmetry.Z3Rotate | include/orientation_coloring.hpp:87-116 | off the three vertical planes, a direction and its 120 degree turns fold to the same z3 result |
| Symmetry.Z6Rotate | include/orientation_coloring.hpp:130-147 | off the three vertical planes, a direction and its 60 degree turns fold to the same z6 result |
| Symmetry.Z3Mirror | include/orientation_coloring.hpp:87-116 | off the three vertical planes, z3 of the 60 degree mirror image is the mirror image of z3 |
| Symmetry.Z6Mirror | include/orientation_coloring.hpp:130-147 | off the three vertical planes, z6 of the 30 degree mirror image is the mirror image of z6 |
| Symmetry.TrigonalMirrorSame | include/orientation_coloring.hpp:189-194 | the mirror step of trigonal sends a 0-120 degree direction and its 60 degree mirror image to the same direction |
| Symmetry.HexagonalMirrorSame | include/orientation_coloring.hpp:210-215 | the mirror step of hexagonal sends a 0-60 degree direction and its 30 degree mirror image to the same direction |
| Symmetry.Bar1Rot60 | include/orientation_coloring.hpp:76 | bar1 commutes with every turn about z by a multiple of 60 degrees |
| Symmetry.Bar1Reflect | include/orientation_coloring.hpp:76 | bar1 commutes with every reflection in a vertical plane |
| Symmetry.Orthorhombic2mInvariant | include/orientation_coloring.hpp:154-162 | the 180 degree turn leaves the whole reduction (direction and flag) unchanged off y = 0, and so does the inversion off the equator or off y = 0 |
| Symmetry.Tetragonal4mInvariant | include/orientation_coloring.hpp:167-176 | the 90 degree turn leaves the whole reduction unchanged off the planes x = 0 and y = 0, and so does the inversion off the equator or off those planes |
| Symmetry.Trigonal3barInvariant | include/orientation_coloring.hpp:181-196 | the 120 degree turn leaves the whole reduction unchanged off the three vertical planes, and so does the inversion off the equator |
| Symmetry.TrigonalMirrorInvariant | include/orientation_coloring.hpp:181-196 | off the three vertical planes, a direction and its 60 degree mirror image reduce to the same direction |
| Symmetry.Hexagonal6mInvariant | include/orientation_coloring.hpp:201-217 | the 60 degree turn leaves the whole reduction unchanged off the three vertical planes, and so does the inversion off the equator or off those planes |
| Symmetry.HexagonalMirrorInvariant | include/orientation_coloring.hpp:201-217 | off the three vertical planes, a direction and its 30 degree mirror image reduce to the same direction |
| Vector.Rot60Compose | include/orientation_coloring.hpp:96-113 | turning by a and then by b multiples of 60 degrees turns by a + b modulo 6 |
| Vector.RotateCompose | include/orientation_coloring.hpp:96-113 | two rotations about z compose to the rotation by the sum of their angles |
| Vector.ReflectRot60 | include/orientation_coloring.hpp:189-194 | a reflection in a vertical plane conjugates the turn by k·60 degrees into the turn by -k·60 degrees |
| Vector.RotateKeepsNorm | include/orientation_coloring.hpp:96-113 | a rotation about z by (c, s) with c²+s² = 1 keeps x²+y² and z |
| Vector.ReflectKeepsNorm | include/orientation_coloring.hpp:189-194 | a reflection in a line through the z axis keeps x²+y² |
| Vector.ReflectInvolution | include/orientation_coloring.hpp:189-194 | reflecting twice gives the input back |
| Detail.Bar1 | include/orientation_coloring.hpp:76 | negating the buffer in place leaves Symmetry.Bar1 of the old contents |
| Detail.Z2 | include/orientation_coloring.hpp:83 | the in-place fold leaves Symmetry.Z2 of the old contents |
| Detail.Z3 | include/orientation_coloring.hpp:87-116 | the in-place fold leaves Symmetry.Z3 of the old contents |
| Detail.Z4 | include/orientation_coloring.hpp:120-126 | the in-place fold (z2, then the swap and negation) leaves Symmetry.Z4 of the old contents |
| Detail.Z6 | include/orientation_coloring.hpp:130-147 | the in-place fold leaves Symmetry.Z6 of the old contents |
| Detail.Orthorhombic | include/orientation_coloring.hpp:154-162 | the buffer becomes the reduced direction and the returned flag is the reduction's flag |
| Detail.Tetragonal | include/orientation_coloring.hpp:167-176 | the buffer becomes the reduced direction and the returned flag is the reduction's flag |
| Detail.Trigonal | include/orientation_coloring.hpp:181-196 | the buffer becomes the reduced direction and the returned flag is the reduction's flag |
| Detail.Hexagonal | include/orientation_coloring.hpp:201-217 | the buffer becomes the reduced direction and the returned flag is the reduction's flag |
| Detail.RotateLeft | include/orientation_coloring.hpp:229-231 | std::rotate by mid moves element (k + mid) mod 3 to position k |
| Detail.Cubic | include/orientation_coloring.hpp:222-240 | the buffer becomes the reduced direction and the returned flag is the reduction's flag |
| Triangle.BuildSpec | include/orientation_coloring.hpp:303-425 | construction fails, with the hemisphere error, exactly when det(red, green, blue) < epsilon; otherwise the patch is well formed, its cumulative angles start at 0 and add the vertex angles, its cutoffs follow the fillet layout, and fillet cubic i takes the transition radii of edges i and i+1 at -1 and 1, with slopes dRadii·0.05·angle of those edges there |
| Triangle.CornerEnds | include/orientation_coloring.hpp:414-424 | the cubic of corner i meets radius 2i+1 and radius 2(i+1 mod 3) at -1 and 1, with the angle-scaled transition slopes of those edges |
| Triangle.Construct | include/orientation_coloring.hpp:303-425 | the constructor's loops compute exactly the patch (or the error) BuildSpec describes |
| Triangle.PartialSums | include/orientation_coloring.hpp:337 | the filled array is the cumulative angles 0, a0, a0+a1, a0+a1+a2 |
| Triangle.CumAnglesSpec | include/orientation_coloring.hpp:337 | cumAngles starts at 0, each entry adds the next vertex angle, and the last is the angle sum |
| Triangle.FillCutoffs | include/orientation_coloring.hpp:346-353 | the nested loops fill the nine cutoffs of the fillet layout |
| Triangle.Cutoffs | include/orientation_coloring.hpp:346-353 | there are nine cutoffs, three per edge |
| Triangle.CutoffsSorted | include/orientation_coloring.hpp:346-353 | when every vertex angle is at least two fillet widths, the nine cutoffs are in ascending order, as lower_bound needs |
| Triangle.FillCoeffs | include/orientation_coloring.hpp:414-424 | the loop fills the three fillet cubics, each from the transition radii and angle-scaled slopes of two neighbouring edges |
| Triangle.Hermite | include/orientation_coloring.hpp:420-423 | the coefficient formulas give a cubic with p(-1) = v1, p(1) = v2, p'(-1) = m1, p'(1) = m2 |
| Triangle.HermiteUnique | include/orientation_coloring.hpp:420-423 | any cubic with those two values and two slopes is the one the formulas give |
| Triangle.CyclicDet | include/orientation_coloring.hpp:277-285 | for N in {2, 3, 4, 6} the vertices of Cyclic<N>() have determinant sin(π/N), which is at least epsilon, so construction succeeds |
| Triangle.CubicDet | include/orientation_coloring.hpp:289-296 | the vertices of Cubic() have determinant (1/√2)(1/√3) > 1/4, so construction succeeds |
| Triangle.CyclicPatch | include/orientation_coloring.hpp:277-285 | Cyclic<N>() returns the well-formed patch built from red, green and the N-fold blue vertex |
| Triangle.CubicPatch | include/orientation_coloring.hpp:289-296 | Cubic() returns the well-formed patch built from the cubic standard-triangle vertices |
| Triangle.LowerBound | include/orientation_coloring.hpp:440 | the index is the first cutoff not below the angle: every earlier cutoff is below it |
| Triangle.LowerBoundPartition | include/orientation_coloring.hpp:440 | on ascending cutoffs every cutoff from the index on is at least the angle |
| Triangle.FundToHemi | include/orientation_coloring.hpp:431-466 | the out-parameters are the fractional azimuth and the region-scaled polar angle of the hemisphere coordinates |
| Triangle.ScalePhi | include/orientation_coloring.hpp:444-465 | the switch scales φ by the linear region's edge arc, or clips it against the fillet cubic of the first or second fillet |
| Triangle.RegionInRange | include/orientation_coloring.hpp:435-440 | after the wrap the azimuth lies in [0, 2π), and the region index is below 9 when the angles close the circle |
| Triangle.HemiBounds | include/orientation_coloring.hpp:436-465 | θ lies in [0, 1); a φ below epsilon is returned unchanged; in both fillets the scaled φ lies in (0, 1/2] |
| Triangle.Clip | include/orientation_coloring.hpp:453-464 | φ / (2·max(φ, den)) lies in (0, 1/2] |
| Triangle.ClipBounds | include/orientation_coloring.hpp:453-464 | for positive φ the clipped quotient lies in (0, 1/2] whatever the cubic's value |
| Triangle.FirstFilletParameter | include/orientation_coloring.hpp:453-458 | in the first fillet the cubic's parameter x lies in [0, 1] |
| Triangle.SecondFilletParameter | include/orientation_coloring.hpp:460-464 | in the second fillet the cubic's parameter x lies in (-1, 0] |
| Triangle.FundToIpf | include/orientation_coloring.hpp:473-477 | the colour is SixBi at θ and at 1 - φ for a white centre, φ for a black one, with the mirror flag passed on |
| Triangle.PolarityRadius | include/orientation_coloring.hpp:473-477 | outside the linear region the radius passed to SixBi lies in [1/2, 1) for a white centre and in (0, 1/2] for a black one |
| Ipf.NewEnv | include/orientation_coloring.hpp:277-296 | the static patches of the entry points are the successful constructions Cyclic<2>, <3>, <4>, <6> and Cubic() |
| Ipf.Copy | include/orientation_coloring.hpp:499 | the local buffer nFS holds the input direction |
| Ipf.Triclinic | include/orientation_coloring.hpp:484-492 | the colour is the sphere map at the wrapped azimuth and the fractional polar angle of bar1(n) |
| Ipf.TriclinicBounds | include/orientation_coloring.hpp:488-490 | after the wrap the azimuth fraction lies in [0, 1) and the polar fraction in [0, 1] |
| Ipf.TriclinicInversion | include/orientation_coloring.hpp:484-492 | a direction off the equator and its inverse get the same colour |
| Ipf.Monoclinic | include/orientation_coloring.hpp:497-502 | 2/m reduces with orthorhombic and colours on Cyclic<2> with a white centre unless the mirror fired, and no mirror |
| Ipf.MonoclinicColorInvariant | include/orientation_coloring.hpp:497-502 | 2/m gives a direction and its 180 degree turn the same colour off y = 0, and its inverse off the equator or off y = 0 |
| Ipf.MonoclinicMirrorPair | include/orientation_coloring.hpp:497-502 | a first-octant direction gets the white-centre colour and its x mirror the black-centre colour of the same point |
| Ipf.Orthorhombic | include/orientation_coloring.hpp:507-512 | mmm reduces with orthorhombic and colours on Cyclic<2> with the defaults |
| Ipf.OrthorhombicColorInvariant | include/orientation_coloring.hpp:507-512 | directions related by sign changes get the same mmm colour |
| Ipf.TetragonalLow | include/orientation_coloring.hpp:517-522 | 4/m colours the tetragonal reduction on Cyclic<4> with a white centre unless the mirror fired, and no mirror |
| Ipf.TetragonalLowColorInvariant | include/orientation_coloring.hpp:517-522 | 4/m gives a direction and its 90 degree turn the same colour off the planes x = 0 and y = 0, and its inverse off the equator or off those planes |
| Ipf.TetragonalMirrorPair | include/orientation_coloring.hpp:517-522 | a direction strictly inside the 0-45 degree sector gets the white-centre colour and its x/y swap the black-centre colour |
| Ipf.TetragonalHigh | include/orientation_coloring.hpp:527-532 | 4/mmm colours the tetragonal reduction on Cyclic<4> with the defaults |
| Ipf.TetragonalColorInvariant | include/orientation_coloring.hpp:527-532 | directions related by sign changes and the x/y swap get the same 4/mmm colour |
| Ipf.TrigonalLow | include/orientation_coloring.hpp:538-549 | -3 colours the trigonal reduction on Cyclic<3>: jump free, SixBi at θ and 1 - 2φ without the mirror; otherwise with a white centre unless the mirror fired |
| Ipf.TrigonalJumpFree | include/orientation_coloring.hpp:538-549 | the jump-free colouring ignores the mirror flag, so a direction off the three vertical planes and its 60 degree mirror image get the same colour |
| Ipf.TrigonalLowColorInvariant | include/orientation_coloring.hpp:538-549 | -3, with or without jumps, gives a direction and its 120 degree turn the same colour off the three vertical planes, and its inverse off the equator |
| Ipf.TrigonalJumpFreeRadius | include/orientation_coloring.hpp:542-546 | in the fillets the jump-free radius 1 - 2φ lies in [0, 1) |
| Ipf.TrigonalHigh | include/orientation_coloring.hpp:554-560 | -3m applies trigonal then hexagonal and colours on Cyclic<6> with a white centre unless the second mirror fired |
| Ipf.TrigonalHighColorInvariant | include/orientation_coloring.hpp:554-560 | -3m gives a direction, its 120 degree turn and its 60 degree mirror image the same colour off the three vertical planes, and its inverse off the equator |
| Ipf.TrigonalHighLands | include/orientation_coloring.hpp:554-560 | the direction -3m colours lies in the northern 0-30 degree sector |
| Ipf.HexagonalLow | include/orientation_coloring.hpp:565-570 | 6/m colours the hexagonal reduction on Cyclic<6> with a white centre unless the mirror fired, and no mirror |
| Ipf.HexagonalLowColorInvariant | include/orientation_coloring.hpp:565-570 | 6/m gives a direction and its 60 degree turn the same colour off the three vertical planes, and its inverse off the equator or off those planes |
| Ipf.HexagonalHigh | include/orientation_coloring.hpp:575-580 | 6/mmm colours the hexagonal reduction on Cyclic<6> with the defaults |
| Ipf.HexagonalHighColorInvariant | include/orientation_coloring.hpp:575-580 | 6/mmm gives a direction, its 60 degree turn and its 30 degree mirror image the same colour off the three vertical planes, and its inverse off the equator or off those planes |
| Ipf.HexagonalSectorColor | include/orientation_coloring.hpp:565-580 | a northern direction in 0-30 degrees is coloured where it is by both 6/m and 6/mmm |
| Ipf.CubicHigh | include/orientation_coloring.hpp:595-600 | m-3m colours the cubic reduction on the Cubic() patch with the defaults |
| Ipf.CubicLow | include/orientation_coloring.hpp:585-590 | m-3 computes the flag and discards it, so it always gives the m-3m colour |
| Ipf.CubicColorInvariant | include/orientation_coloring.hpp:595-600 | directions related by any signed axis permutation get the same m-3m colour |
| Ipf.CubicSectorColor | include/orientation_coloring.hpp:595-600 | a direction of the standard triangle is coloured where it is |
| Ipf.Cyclic | include/orientation_coloring.hpp:605-613 | N = 2, 3, 4, 6 give the 2/m, -3 (jump free), 4/m and 6/m colours |
| Ipf.Dihedral | include/orientation_coloring.hpp:618-626 | N = 2, 3, 4, 6 give the mmm, -3m, 4/mmm and 6/mmm colours |
| Names.Lower | python/colormap_wrapper.hpp:455 | tolower in the C locale leaves no upper-case letter and changes nothing else |
| Names.LowerAll | python/colormap_wrapper.hpp:455 | the transform keeps the length and lowers each character |
| Names.CleanString | python/colormap_wrapper.hpp:453-458 | the in-place transform and erase/remove_if give the lowered input with its white space removed |
| Names.LowerInPlace | python/colormap_wrapper.hpp:455 | the array becomes its lowered old contents |
| Names.EraseSpace | python/colormap_wrapper.hpp:456 | the kept prefix is the old contents without white space, in order |
| Names.RemoveSpaceConcat | python/colormap_wrapper.hpp:456 | removing white space splits over concatenation |
| Names.RemoveSpaceChars | python/colormap_wrapper.hpp:456 | the result has no white space and only characters of the input |
| Names.RemoveSpaceNone | python/colormap_wrapper.hpp:456 | a string without white space is unchanged |
| Names.CleanChars | python/colormap_wrapper.hpp:453-458 | a cleaned name has no white space and no upper-case letter |
| Names.CleanIdempotent | python/colormap_wrapper.hpp:453-458 | cleaning twice gives what cleaning once does |
| Names.CleanConcat | python/colormap_wrapper.hpp:453-458 | cleaning splits over concatenation |
| Names.GetRamp | python/colormap_wrapper.hpp:463-471 | a map is found exactly when the cleaned name is gray, fire, ocean, ice or div, and it is the map of that name |
| Names.GetCyclic | python/colormap_wrapper.hpp:476-483 | a map is found exactly when the cleaned name is gray, four, six or div, and it is the map of that name |
| Names.GetBicone | python/colormap_wrapper.hpp:488-513 | getDisk, getSphere and getBall find a map exactly when the cleaned name is four or six, and it is that map of the asked family |
| Names.RampNameFound | python/colormap_wrapper.hpp:463-471 | each ramp's name, with any padding that cleans away, finds that ramp |
| Names.CyclicNameFound | python/colormap_wrapper.hpp:476-483 | each cyclic map's name, with any padding that cleans away, finds that map |
| Names.BiconeNameFound | python/colormap_wrapper.hpp:488-513 | each bicone map's name, with any padding that cleans away, finds that map |
| Names.CleanAround | python/colormap_wrapper.hpp:453-458 | padding that cleans to nothing around a clean name cleans away |
| Names.LookupsUseCleanName | python/colormap_wrapper.hpp:463-513 | every lookup gives the same answer for a name and its cleaned form |
| Names.GetMapCases | python/colormap_wrapper.hpp:609-630 | a found name is used without a warning; an unknown name falls back to the default with a warning, or fails without one; no name takes the default, or raises the logic error without one |
| Names.GetMapWithDefault | python/colormap_wrapper.hpp:609-630 | with a default present getMap always succeeds |
| Names.ParseSym | python/colormap_wrapper.hpp:636-656 | absent, None or a name that cleans to empty give None; a and p give Azimuth and Polar; anything else, or a value that is not a string, is an error |
| Names.ParseSymUsesCleanName | python/colormap_wrapper.hpp:636-656 | parseSym gives the same answer for a name and its cleaned form |
| Scaling.GetFill | python/colormap_wrapper.hpp:589-600 | the fill counts as passed exactly when it is not the -NaN sentinel; an absent fill becomes 0 and succeeds; a passed fill is kept and is refused exactly when it is a number outside [0, 1] |
| Scaling.GetFillUsable | python/colormap_wrapper.hpp:589-600 | an accepted fill is a number in [0, 1] or a NaN with the sign bit clear |
| Scaling.MinMaxScale | python/colormap_wrapper.hpp:537-570 | corrected member of the :560 finding: the offset and scale are -min and 1/(max - min) over the numbers of the array (scale 1 when max = min), and NaN/NaN for an empty or all-NaN array |
| Scaling.FindGood | python/colormap_wrapper.hpp:545-553 | the first loop stops at the first number, or reports that there is none |
| Scaling.ScanFrom | python/colormap_wrapper.hpp:559-565 | corrected member of the :560 finding, seeded from the first number: the scan ends with the least and the greatest number of the array |
| Scaling.SeqMinMax | python/colormap_wrapper.hpp:559-565 | the least and greatest are bounds of every number and are numbers of the array |
| Scaling.MinMaxNumbers | python/colormap_wrapper.hpp:537-570 | of the corrected minMaxScale: an array holding a number gets a numeric offset and scale |
| Scaling.MinMaxMapsIntoUnit | python/colormap_wrapper.hpp:537-570 | of the corrected minMaxScale: every number of the array is sent into [0, 1] by the offset and scale |
| Scaling.MinMaxEnds | python/colormap_wrapper.hpp:566-568 | of the corrected minMaxScale: the least number is sent to 0 and, when the numbers differ, the greatest to 1 |
| Scaling.MinMaxScaleAsWritten | python/colormap_wrapper.hpp:537-570 | the function as written, which the wrapper calls: NaN/NaN for an empty or all-NaN array; otherwise vMin and vMax start from the first element and scan on past the first number, the offset is -vMin and the scale 1/(vMax - vMin), 1 for an equal pair, NaN when the range is NaN |
| Scaling.ScanAsWrittenFrom | python/colormap_wrapper.hpp:559-565 | the second loop as written ends with the pair the scan from the first element gives |
| Scaling.MinMaxAsWrittenAgrees | python/colormap_wrapper.hpp:537-570 | when the first element is a number, the function as written gives exactly the corrected offset and scale |
| Scaling.MinMaxAsWrittenNaNFirst | python/colormap_wrapper.hpp:537-570 | when the first element is NaN, the offset and scale as written are NaN for every array |
| Scaling.ScanFinds | python/colormap_wrapper.hpp:559-565 | a scan seeded with the least and greatest number of a prefix ends with the least and greatest number of the whole array |
| Scaling.ScanStaysNaN | python/colormap_wrapper.hpp:559-565 | a scan seeded with NaN keeps NaN, since every comparison with NaN is false |
| Scaling.FirstNumberIs | python/colormap_wrapper.hpp:545-553 | an index holding a number with only NaNs before it is the first number |
| Scaling.MinMaxAsWrittenLeadingNaN | python/colormap_wrapper.hpp:560 | as written, [NaN, 0, 1] gives NaN for both the offset and the scale, while its numbers call for offset 0 and scale 1 |
| Scaling.FirstNumber | python/colormap_wrapper.hpp:545-553 | the index the first loop stops at holds a number |
| Scaling.NumbersTail | python/colormap_wrapper.hpp:545-553 | dropping a leading NaN keeps the numbers |
| Scaling.NumbersNaNs | python/colormap_wrapper.hpp:555-557 | an array with no number before its end has no numbers |
| Scaling.ScaleClamp | python/colormap_wrapper.hpp:577-580 | the result is NaN exactly when an operand is, and a numeric result lies in [0, 1] |
| Scaling.ScaleClampKeeps | python/colormap_wrapper.hpp:577-580 | a value already in [0, 1] is not clamped |
| Scaling.RescaleExact | python/colormap_wrapper.hpp:737-743 | with the offset and scale of minMaxScale as written: when the first element is a number, the clamp never bites on the array's numbers and the result is NaN exactly when the input is; when it is NaN, every result is NaN |
| Scaling.RescaleMinMax | python/colormap_wrapper.hpp:577-580 | with the corrected offset and scale of an array holding a number, the clamp never bites on its numbers and the result is NaN exactly when the input is |
| Scaling.ColorPixel | python/colormap_wrapper.hpp:762 | the colour map writes the three colour channels of one pixel and nothing else |
| Scaling.FillPixel | python/colormap_wrapper.hpp:757 | std::fill writes the fill to every channel of one pixel and nothing else |
| Scaling.Linear | python/colormap_wrapper.hpp:730-765 | with minMaxScale as written: every channel of every pixel is the fill for a NaN (and, unscaled, for a value outside [0, 1]), the colour map's channel otherwise, and the alpha 1; hasNans and outOfRange are set exactly when such values occur |
| Scaling.RescaledPixels | python/colormap_wrapper.hpp:735-750 | in the rescaled loop, with a number first, a pixel takes the fill exactly when its input is NaN and every other pixel is coloured at its rescaled value without clamping; with a NaN first, every pixel takes the fill |

## Left out

- Trigonometry and square roots: `atan2`, `acos`, the centre and frame
  normalisation, the vertex angles, the quaternion sampling of the edge
  radii with numerical derivatives, and the linear-region edge
  intersection (include/orientation_coloring.hpp:320-336, 355-411,
  446-451). These are floating-point geometry. They enter the model as
  the `Trig` functions and the `Frame` inputs, constrained only by the
  ranges the source relies on.
- `SixBi`, its `sphere` variant and the ramp/cyclic colour maps are
  external to the core and are function values. Their colours are not
  constrained.
- The function-local `static` patches and their lazy, thread-safe
  initialisation: the model builds the five patches once in `Ipf.NewEnv`
  and passes them in.
- IEEE details: rounding, infinities, signed zeros and the `signbit` ties
  at ±0, 0/0 in the ratio tests, and `numeric_limits::epsilon` as an exact
  2^-52. The folds are modelled over the reals and may differ from the
  source on those boundary ties.
- Ipf entry points: `Colorable` asks that the reduced direction lie where the
  patch functions are defined (inside the patch, `acos` range) — the source
  calls this undefined behaviour outside the sector (include/orientation_coloring.hpp:469).
- Triangle.BuildSpec: the cutoffs use the fixed offset 2π/3·0.05 for every
  edge, as the source does (include/orientation_coloring.hpp:347). The
  coefficients scale the slopes by the real vertex angles. `cumAngles[0]`
  is never assigned in the source and is 0 here, the value the
  zero-initialised static patches hold.
- Triangle.RegionInRange: it asks that the cumulative angles reach 2π, which
  holds for the patches built from real geometry, not for every frame.
- The Python C-API around the helpers: argument parsing, NumPy array access
  and creation, reference counting, `PyErr` messages and warnings (at most a
  result case or flag), `getArray`, `to8Bit` with its IEEE rounding
  (python/colormap_wrapper.hpp:518-530, 664-682), the legend and
  disk/sphere/ball wrappers, and python/colormap_module.cpp and
  python/demo.py.
- Names.GetBicone: getDisk, getSphere and getBall are one function with the
  family as a parameter. They share the same name test.
- Scaling.Linear: the flat output buffer is a two-dimensional array with one
  row of `stride` channels per value. A NULL data pointer is the empty
  sequence. The value returned by `getMap` is ignored by the wrapper, and
  the default map is always present there. The warnings about an unpassed
  fill are only the `hasNans`/`outOfRange` flags.
- Symmetry.Orthorhombic2mInvariant, Symmetry.Tetragonal4mInvariant,
  Symmetry.Trigonal3barInvariant, Symmetry.TrigonalMirrorInvariant,
  Symmetry.Hexagonal6mInvariant, Symmetry.HexagonalMirrorInvariant and the
  matching Ipf colour lemmas: they say nothing on the vertical planes
  (y = 0; x = 0 or y = 0; the 0, 60 and 120 degree planes) or, for the
  inversion, on the equator where those planes are excluded. There a
  direction lies on the sector's boundary and the source's strict and
  sign-bit tests pick one of two boundary images, so two symmetric inputs
  can reduce to different, equivalent directions.
- Symmetry.TrigonalMirrorInvariant, Symmetry.HexagonalMirrorInvariant: only
  the reduced direction is the same; the mirror flag differs by design.
- Scaling.GetFill: a passed NaN with the sign bit clear is accepted, as in
  the source, because the range test is false for any NaN.

## Findings

| source | as written | input that shows it | evidently intended | confidence | as-written member | corrected member |
|---|---|---|---|---|---|---|
| python/colormap_wrapper.hpp:560 | the running minimum and maximum start from `*data`, the first element, not from `data[start]`, the first number (Scaling.MinMaxScaleAsWritten) | `[NaN, 0, 1]`: both stay NaN, so the offset is NaN, `0.0 != NaN` makes the scale 1/NaN = NaN, and the rescaled loop fills every pixel; Scaling.MinMaxAsWrittenNaNFirst shows the same for every array with a NaN first | start from `data[start]`, giving offset -0 and scale 1 | not executed | Scaling.MinMaxAsWrittenLeadingNaN | Scaling.MinMaxScale |

`Scaling.Linear` models the wrapper's loop as written: it calls
`Scaling.MinMaxScaleAsWritten`. `Scaling.MinMaxAsWrittenAgrees` shows that
the two versions agree whenever the first element is a number, so the
finding only matters for arrays whose first element is NaN.
