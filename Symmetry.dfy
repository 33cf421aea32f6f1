/** The symmetry reduction operators of the Laue classes, as pure functions
    on values (see Detail for the in-place versions that mirror the source).
    Each primitive folds a direction with one symmetry element family; each
    reduction moves a direction into its class's fundamental sector and
    reports whether the extra mirror of the dihedral class was applied.

    The source tests ratios such as y/x > √3; here every such test is the
    cross-multiplied comparison that agrees with it for the sign of x the
    branch knows, and the source's sign-bit tests are plain comparisons
    with zero (the IEEE signed-zero ties are not modelled). */
module Symmetry {
  import opened Vector

  /** A reduced direction and the "mirror fired" flag. */
  datatype Folded = Folded(v: Vec3, mirrored: bool)

  // ----- fundamental sectors -----

  predicate Northern(v: Vec3) { v.z >= 0.0 }

  /** 0 to 180 degrees: the +y half plane. */
  predicate Sector180(v: Vec3) { v.y >= 0.0 }

  /** 0 to 120 degrees. */
  predicate Sector120(v: Vec3, k3: real) { v.y >= 0.0 && k3 * v.x + v.y >= 0.0 }

  /** 0 to 90 degrees. */
  predicate Sector90(v: Vec3) { v.x >= 0.0 && v.y >= 0.0 }

  /** 0 to 60 degrees. */
  predicate Sector60(v: Vec3, k3: real) { v.y >= 0.0 && v.y <= k3 * v.x }

  /** 0 to 45 degrees. */
  predicate Sector45(v: Vec3) { v.x >= v.y && v.y >= 0.0 }

  /** 0 to 30 degrees. */
  predicate Sector30(v: Vec3, k3: real) { v.y >= 0.0 && k3 * v.y <= v.x }

  /** The cubic standard triangle z >= x >= y >= 0. */
  predicate CubicSector(v: Vec3) { v.z >= v.x && v.x >= v.y && v.y >= 0.0 }

  // ----- the mirrors of the dihedral classes -----

  /** Mirror across the x plane (orthorhombic). */
  function MirrorX(v: Vec3): Vec3 { Reflect(v, -1.0, 0.0) }

  /** Mirror across the 45-degree plane: swap x and y (tetragonal, cubic). */
  function Swap(v: Vec3): Vec3 { Reflect(v, 0.0, 1.0) }

  /** Mirror across the 60-degree plane (trigonal). */
  function Mirror60(v: Vec3, k3: real): Vec3 { Reflect(v, -0.5, k3 / 2.0) }

  /** Mirror across the 30-degree plane (hexagonal). */
  function Mirror30(v: Vec3, k3: real): Vec3 { Reflect(v, 0.5, k3 / 2.0) }

  // ----- the rotation/inversion groups the low classes keep -----

  /** w is the image of v under an element of 2/m: identity, inversion, the
      2-fold axis along z, or the mirror normal to z. */
  predicate In2m(w: Vec3, v: Vec3) {
    w == v || w == Neg(v) || w == Rot90(v, 2) || w == Neg(Rot90(v, 2))
  }

  /** w is the image of v under an element of 4/m. */
  predicate In4m(w: Vec3, v: Vec3) {
    exists k: nat | k < 4 :: w == Rot90(v, k) || w == Rot90(Neg(v), k)
  }

  /** w is the image of v under an element of -3. */
  predicate In3bar(w: Vec3, v: Vec3, k3: real) {
    exists k: nat | k < 6 && k % 2 == 0 :: w == Rot60(v, k, k3) || w == Rot60(Neg(v), k, k3)
  }

  /** w is the image of v under an element of 6/m. */
  predicate In6m(w: Vec3, v: Vec3, k3: real) {
    exists k: nat | k < 6 :: w == Rot60(v, k, k3) || w == Rot60(Neg(v), k, k3)
  }

  /** The permutations of m-3: the identity and the two 3-fold rotations
      about [111]. */
  predicate CyclicPerm(p: Perm) { p == XYZ || p == YZX || p == ZXY }

  /** w is the image of v under an element of m-3. */
  ghost predicate InM3(w: Vec3, v: Vec3) {
    exists g: AxisOp | CyclicPerm(g.perm) :: w == Apply(g, v)
  }

  // ----- primitives -----

  /** The inversion fold: move to the northern hemisphere. */
  function Bar1(v: Vec3): (r: Vec3)
    ensures Northern(r)
    ensures r == v || r == Neg(v)
    ensures Northern(v) ==> r == v
  {
    if v.z < 0.0 then Neg(v) else v
  }

  /** The 2-fold fold about z: move to the +y half plane. */
  function Z2(v: Vec3): (r: Vec3)
    ensures Sector180(r) && r.z == v.z && PlanarNorm2(r) == PlanarNorm2(v)
    ensures r == v || r == Rot90(v, 2)
    ensures Sector180(v) ==> r == v
  {
    if v.y < 0.0 then Vec3(-v.x, -v.y, v.z) else v
  }

  /** The 3-fold fold about z: move to the 0-120 degree sector. */
  function Z3(v: Vec3, k3: real): (r: Vec3)
    ensures r.z == v.z
    ensures r == v || r == Rot60(v, 2, k3) || r == Rot60(v, 4, k3)
    ensures Sector120(v, k3) ==> r == v
  {
    if v.x < 0.0 then
      if v.y < -k3 * v.x then                     // (120, 270)
        if v.y < k3 * v.x then Rotate(v, -0.5, k3 / 2.0)  // (240, 270): rotate by 120
        else Rotate(v, -0.5, -k3 / 2.0)                    // (120, 240]: rotate by -120
      else v                                      // (90, 120]
    else if v.y < 0.0 then Rotate(v, -0.5, k3 / 2.0)  // [270, 360): rotate by 120
    else v                                        // [0, 90]
  }

  /** The 4-fold fold about z: move to the first quadrant. */
  function Z4(v: Vec3): (r: Vec3)
    ensures Sector90(r) && r.z == v.z
    ensures Sector90(v) ==> r == v
  {
    var u := Z2(v);
    if u.x < 0.0 then Vec3(u.y, -u.x, u.z) else u
  }

  /** The 6-fold fold about z: move to the 0-60 degree sector. */
  function Z6(v: Vec3, k3: real): (r: Vec3)
    ensures r.z == v.z
  {
    Z6Turn(Z2(v), k3)
  }

  /** The part of z6 after z2: a direction of the upper half plane is turned
      by -60 or -120 degrees into the 0-60 degree sector. */
  function Z6Turn(u: Vec3, k3: real): (r: Vec3)
    ensures r.z == u.z
  {
    if Abs(u.y) > k3 * Abs(u.x) then Rotate(u, 0.5, -k3 / 2.0)  // (60, 120): rotate by -60
    else if u.x < 0.0 then Rotate(u, -0.5, -k3 / 2.0)         // (120, 180]: rotate by -120
    else u                                                    // [0, 60]
  }

  // ----- per-class reductions -----

  /** mmm: inversion, 2-fold about z, then the x mirror. */
  function Orthorhombic(v: Vec3): (r: Folded)
    ensures r.v == Abs3(v)
    ensures !r.mirrored ==> In2m(r.v, v)
    ensures r.mirrored ==> In2m(MirrorX(r.v), v) && r.v.x > 0.0
  {
    var u := Z2(Bar1(v));
    if u.x < 0.0 then Folded(Vec3(-u.x, u.y, u.z), true) else Folded(u, false)
  }

  /** 4/mmm: inversion, 4-fold about z, then the 45-degree mirror. */
  function Tetragonal(v: Vec3): (r: Folded)
    ensures r.v == Vec3(Max(Abs(v.x), Abs(v.y)), Min(Abs(v.x), Abs(v.y)), Abs(v.z))
    ensures Sector45(r.v) && Northern(r.v)
    ensures r.mirrored ==> r.v.x > r.v.y
  {
    var u := Z4(Bar1(v));
    if u.y > u.x then Folded(Vec3(u.y, u.x, u.z), true) else Folded(u, false)
  }

  /** -3m: inversion, 3-fold about z, then the 60-degree mirror. */
  function Trigonal(v: Vec3, k3: real): (r: Folded)
    ensures r.v.z == Abs(v.z)
  {
    TrigonalMirror(Z3(Bar1(v), k3), k3)
  }

  /** The last step of trigonal: the 60-degree mirror, applied to a direction
      of the 0-120 degree sector that lies outside 0-60 degrees. */
  function TrigonalMirror(u: Vec3, k3: real): Folded {
    if u.x < 0.0 || u.y > k3 * u.x then Folded(Reflect(u, -0.5, k3 / 2.0), true)
    else Folded(u, false)
  }

  /** 6/mmm: inversion, 6-fold about z, then the 30-degree mirror. */
  function Hexagonal(v: Vec3, k3: real): (r: Folded)
    ensures r.v.z == Abs(v.z)
  {
    HexagonalMirror(Z6(Bar1(v), k3), k3)
  }

  /** The last step of hexagonal: the 30-degree mirror, applied to a
      direction of the 0-60 degree sector that lies outside 0-30 degrees. */
  function HexagonalMirror(u: Vec3, k3: real): Folded {
    if k3 * u.y > u.x then Folded(Reflect(u, 0.5, k3 / 2.0), true)
    else Folded(u, false)
  }

  /** The greatest, least and middle of three reals. */
  function Max3(a: real, b: real, c: real): real { Max(Max(a, b), c) }
  function Min3(a: real, b: real, c: real): real { Min(Min(a, b), c) }
  function Mid3(a: real, b: real, c: real): real { a + b + c - Max3(a, b, c) - Min3(a, b, c) }

  /** The absolute values of v sorted into the cubic standard triangle:
      (middle, least, greatest). */
  function SortedAbs(v: Vec3): Vec3 {
    var a, b, c := Abs(v.x), Abs(v.y), Abs(v.z);
    Vec3(Mid3(a, b, c), Min3(a, b, c), Max3(a, b, c))
  }

  /** m-3m: inversion, 2-fold about z, x mirror, 3-fold about [111], then
      the x/y mirror. */
  function Cubic(v: Vec3): Folded {
    var u := Z2(Bar1(v));
    var w := Vec3(Abs(u.x), u.y, u.z);
    var p :=
      if w.x >= w.y then (if w.x > w.z then Vec3(w.y, w.z, w.x) else w)   // rotate -120 about 111
      else (if w.y > w.z then Vec3(w.z, w.x, w.y) else w);               // rotate 120 about 111
    if p.y > p.x then Folded(Vec3(p.y, p.x, p.z), true) else Folded(p, false)
  }

  // ----- orbits: introduction rules -----

  lemma In4mIntro(w: Vec3, v: Vec3, k: nat)
    requires k < 4 && (w == Rot90(v, k) || w == Rot90(Neg(v), k))
    ensures In4m(w, v)
  {
  }

  lemma In3barIntro(w: Vec3, v: Vec3, k3: real, k: nat)
    requires k < 6 && k % 2 == 0 && (w == Rot60(v, k, k3) || w == Rot60(Neg(v), k, k3))
    ensures In3bar(w, v, k3)
  {
  }

  lemma In6mIntro(w: Vec3, v: Vec3, k3: real, k: nat)
    requires k < 6 && (w == Rot60(v, k, k3) || w == Rot60(Neg(v), k, k3))
    ensures In6m(w, v, k3)
  {
  }

  /** (k3/2)^2 == 3/4, so the 60/120-degree table entries are unit vectors. */
  lemma HalfSqrt3Squared(k3: real)
    requires IsSqrt3(k3)
    ensures (k3 / 2.0) * (k3 / 2.0) == 0.75 && (-k3 / 2.0) * (-k3 / 2.0) == 0.75
  {
    assert (k3 / 2.0) * (k3 / 2.0) == (k3 * k3) / 4.0;
  }

  // ----- landing, orbit and identity facts of the primitives -----

  /** The +120 degree branches of z3 land in the 0-120 degree sector. */
  lemma Plus120Lands(v: Vec3, k3: real)
    requires IsSqrt3(k3) && v.y < 0.0 && v.y <= k3 * v.x
    ensures Sector120(Rotate(v, -0.5, k3 / 2.0), k3)
  {
    var r := Rotate(v, -0.5, k3 / 2.0);
    Sqrt3Times(k3, v.y);
    assert r.y == (k3 * v.x - v.y) / 2.0;
    assert k3 * r.x + r.y == -2.0 * v.y;
  }

  /** The -120 degree branch of z3 lands in the 0-120 degree sector. */
  lemma Minus120Lands3(v: Vec3, k3: real)
    requires IsSqrt3(k3) && v.y < -(k3 * v.x) && v.y >= k3 * v.x
    ensures Sector120(Rotate(v, -0.5, -k3 / 2.0), k3)
  {
    var r := Rotate(v, -0.5, -k3 / 2.0);
    Sqrt3Times(k3, v.y);
    assert r.y == -(k3 * v.x + v.y) / 2.0;
    assert k3 * r.x + r.y == v.y - k3 * v.x;
  }

  /** On the branches of z3 that rotate by +120 degrees, the result lands in
      the 0-120 degree sector with its norm kept. */
  lemma Z3LandsPlus(v: Vec3, k3: real)
    requires IsSqrt3(k3)
    requires (v.x < 0.0 && v.y < -k3 * v.x && v.y < k3 * v.x) || (v.x >= 0.0 && v.y < 0.0)
    ensures Sector120(Z3(v, k3), k3) && PlanarNorm2(Z3(v, k3)) == PlanarNorm2(v)
  {
    Sqrt3Sign(k3, v.x);
    assert Z3(v, k3) == Rotate(v, -0.5, k3 / 2.0);
    HalfSqrt3Squared(k3);
    Plus120Lands(v, k3);
    RotateKeepsNorm(v, -0.5, k3 / 2.0);
  }

  /** On the branch of z3 that rotates by -120 degrees, the result lands in
      the 0-120 degree sector with its norm kept. */
  lemma Z3LandsMinus(v: Vec3, k3: real)
    requires IsSqrt3(k3) && v.x < 0.0 && v.y < -k3 * v.x && v.y >= k3 * v.x
    ensures Sector120(Z3(v, k3), k3) && PlanarNorm2(Z3(v, k3)) == PlanarNorm2(v)
  {
    assert Z3(v, k3) == Rotate(v, -0.5, -k3 / 2.0);
    HalfSqrt3Squared(k3);
    Minus120Lands3(v, k3);
    RotateKeepsNorm(v, -0.5, -k3 / 2.0);
  }

  /** z3 keeps z and x^2 + y^2 and lands in the 0-120 degree sector. */
  lemma Z3Lands(v: Vec3, k3: real)
    requires IsSqrt3(k3)
    ensures Sector120(Z3(v, k3), k3)
    ensures PlanarNorm2(Z3(v, k3)) == PlanarNorm2(v) && Z3(v, k3).z == v.z
  {
    if v.x < 0.0 {
      if v.y < -k3 * v.x {
        if v.y < k3 * v.x {
          Z3LandsPlus(v, k3);
        } else {
          Z3LandsMinus(v, k3);
        }
      } else {
        Sqrt3Sign(k3, v.x);
      }
    } else if v.y < 0.0 {
      Z3LandsPlus(v, k3);
    }
  }

  /** z4 is a rotation by a multiple of 90 degrees. */
  lemma Z4Orbit(v: Vec3) returns (k: nat)
    ensures k < 4 && Z4(v) == Rot90(v, k)
  {
    var u := Z2(v);
    if u.x < 0.0 {
      k := if u == v then 3 else 1;
    } else {
      k := if u == v then 0 else 2;
    }
  }

  /** A half turn followed by the rotation (c, s) is the rotation (-c, -s). */
  lemma HalfTurnThen(v: Vec3, c: real, s: real)
    ensures Rotate(Rotate(v, -1.0, 0.0), c, s) == Rotate(v, -c, -s)
  {
  }

  /** k3 * |a| is |k3 * a|, split by the sign of a. */
  lemma Sqrt3Abs(k3: real, a: real)
    requires IsSqrt3(k3)
    ensures a >= 0.0 ==> k3 * Abs(a) == k3 * a && k3 * a >= 0.0
    ensures a < 0.0 ==> k3 * Abs(a) == -(k3 * a) && k3 * a < 0.0
  {
    Sqrt3Sign(k3, a);
    if a < 0.0 {
      assert k3 * Abs(a) == k3 * (-a) == -(k3 * a);
    }
  }

  /** The -60 degree branch of z6 lands in the 0-60 degree sector. */
  lemma Minus60Lands(u: Vec3, k3: real)
    requires IsSqrt3(k3) && u.y >= 0.0 && Abs(u.y) > k3 * Abs(u.x)
    ensures Sector60(Rotate(u, 0.5, -k3 / 2.0), k3)
  {
    var r := Rotate(u, 0.5, -k3 / 2.0);
    Sqrt3Abs(k3, u.x);
    Sqrt3Times(k3, u.y);
    assert r.y == (u.y - k3 * u.x) / 2.0;
    assert k3 * r.x - r.y == k3 * u.x + u.y;
  }

  /** The -120 degree branch of z6 lands in the 0-60 degree sector. */
  lemma Minus120Lands(u: Vec3, k3: real)
    requires IsSqrt3(k3) && u.y >= 0.0 && !(Abs(u.y) > k3 * Abs(u.x)) && u.x < 0.0
    ensures Sector60(Rotate(u, -0.5, -k3 / 2.0), k3)
  {
    var r := Rotate(u, -0.5, -k3 / 2.0);
    Sqrt3Abs(k3, u.x);
    Sqrt3Times(k3, u.y);
    assert r.y == -(u.y + k3 * u.x) / 2.0;
    assert k3 * r.x - r.y == 2.0 * u.y;
  }

  /** The unchanged branch of z6 is in the 0-60 degree sector. */
  lemma Zero60Lands(u: Vec3, k3: real)
    requires IsSqrt3(k3) && u.y >= 0.0 && !(Abs(u.y) > k3 * Abs(u.x)) && u.x >= 0.0
    ensures Sector60(u, k3)
  {
    Sqrt3Abs(k3, u.x);
  }

  /** z6 keeps x^2 + y^2 and lands in the 0-60 degree sector. */
  lemma Z6Lands(v: Vec3, k3: real)
    requires IsSqrt3(k3)
    ensures Sector60(Z6(v, k3), k3)
    ensures PlanarNorm2(Z6(v, k3)) == PlanarNorm2(v)
  {
    var u := Z2(v);
    var r := Z6(v, k3);
    HalfSqrt3Squared(k3);
    if Abs(u.y) > k3 * Abs(u.x) {
      assert r == Rotate(u, 0.5, -k3 / 2.0);
      Minus60Lands(u, k3);
      RotateKeepsNorm(u, 0.5, -k3 / 2.0);
    } else if u.x < 0.0 {
      assert r == Rotate(u, -0.5, -k3 / 2.0);
      Minus120Lands(u, k3);
      RotateKeepsNorm(u, -0.5, -k3 / 2.0);
    } else {
      assert r == u;
      Zero60Lands(u, k3);
    }
  }

  /** z6 is a rotation by a multiple of 60 degrees. */
  lemma Z6Orbit(v: Vec3, k3: real) returns (k: nat)
    ensures k < 6 && Z6(v, k3) == Rot60(v, k, k3)
  {
    var u := Z2(v);
    var flipped := v.y < 0.0;
    if flipped {
      assert u == Rotate(v, -1.0, 0.0);
    } else {
      assert u == v;
    }
    if Abs(u.y) > k3 * Abs(u.x) {
      assert Z6(v, k3) == Rotate(u, 0.5, -k3 / 2.0);
      if flipped {
        HalfTurnThen(v, 0.5, -k3 / 2.0);
        k := 2;
      } else {
        k := 5;
      }
    } else if u.x < 0.0 {
      assert Z6(v, k3) == Rotate(u, -0.5, -k3 / 2.0);
      if flipped {
        HalfTurnThen(v, -0.5, -k3 / 2.0);
        k := 1;
      } else {
        k := 4;
      }
    } else {
      assert Z6(v, k3) == u;
      k := if flipped then 3 else 0;
    }
  }

  /** z6 leaves the 0-60 degree sector alone. */
  lemma Z6Fixes(v: Vec3, k3: real)
    requires IsSqrt3(k3) && Sector60(v, k3)
    ensures Z6(v, k3) == v
  {
    Sqrt3Sign(k3, v.x);
    assert Abs(v.x) == v.x && Abs(v.y) == v.y;
  }

  // ----- landing, cosets and identity of the reductions -----

  /** orthorhombic leaves the fundamental sector (first octant) alone. */
  lemma OrthorhombicFixes(v: Vec3)
    requires Sector90(v) && Northern(v)
    ensures Orthorhombic(v) == Folded(v, false)
  {
  }

  /** tetragonal: the output is a 4/m image of the input, or the x=y mirror
      of one when the flag is set; the eighth-octant sector is left alone. */
  lemma TetragonalCoset(v: Vec3)
    ensures !Tetragonal(v).mirrored ==> In4m(Tetragonal(v).v, v)
    ensures Tetragonal(v).mirrored ==> In4m(Swap(Tetragonal(v).v), v)
    ensures Sector45(v) && Northern(v) ==> Tetragonal(v) == Folded(v, false)
  {
    var b := Bar1(v);
    var k := Z4Orbit(b);
    In4mIntro(Z4(b), v, k);
  }

  /** The 60-degree mirror step takes the 0-120 degree sector onto the
      0-60 degree sector, strictly off the mirror when it fires, and undoes
      itself. */
  lemma TrigonalMirrorLands(u: Vec3, k3: real)
    requires IsSqrt3(k3) && Sector120(u, k3)
    ensures Sector60(TrigonalMirror(u, k3).v, k3)
    ensures PlanarNorm2(TrigonalMirror(u, k3).v) == PlanarNorm2(u) && TrigonalMirror(u, k3).v.z == u.z
    ensures !TrigonalMirror(u, k3).mirrored ==> TrigonalMirror(u, k3).v == u
    ensures TrigonalMirror(u, k3).mirrored ==>
      Mirror60(TrigonalMirror(u, k3).v, k3) == u && TrigonalMirror(u, k3).v.y < k3 * TrigonalMirror(u, k3).v.x
  {
    if u.x < 0.0 || u.y > k3 * u.x {
      assert TrigonalMirror(u, k3) == Folded(Mirror60(u, k3), true);
      Mirror60Lands(u, k3);
    }
  }

  /** The 60-degree mirror of a point of the 0-120 degree sector that lies
      beyond the 60-degree line lands strictly inside the 0-60 degree sector. */
  lemma Mirror60Lands(u: Vec3, k3: real)
    requires IsSqrt3(k3) && Sector120(u, k3) && (u.x < 0.0 || u.y > k3 * u.x)
    ensures Sector60(Mirror60(u, k3), k3) && Mirror60(u, k3).y < k3 * Mirror60(u, k3).x
    ensures PlanarNorm2(Mirror60(u, k3)) == PlanarNorm2(u) && Mirror60(u, k3).z == u.z
    ensures Mirror60(Mirror60(u, k3), k3) == u
  {
    var r := Mirror60(u, k3);
    Sqrt3Sign(k3, u.x);
    HalfSqrt3Squared(k3);
    ReflectKeepsNorm(u, -0.5, k3 / 2.0);
    ReflectInvolution(u, -0.5, k3 / 2.0);
    Sqrt3Times(k3, u.y);
    assert r.y == (k3 * u.x + u.y) / 2.0;
    assert k3 * r.x - r.y == u.y - k3 * u.x;
  }

  /** trigonal lands in the northern 0-60 degree sector. */
  lemma TrigonalLands(v: Vec3, k3: real)
    requires IsSqrt3(k3)
    ensures Sector60(Trigonal(v, k3).v, k3) && Northern(Trigonal(v, k3).v)
  {
    Z3Lands(Bar1(v), k3);
    TrigonalMirrorLands(Z3(Bar1(v), k3), k3);
  }

  /** trigonal keeps x^2 + y^2. */
  lemma TrigonalKeepsNorm(v: Vec3, k3: real)
    requires IsSqrt3(k3)
    ensures PlanarNorm2(Trigonal(v, k3).v) == PlanarNorm2(v)
  {
    Z3Lands(Bar1(v), k3);
    TrigonalMirrorLands(Z3(Bar1(v), k3), k3);
    NegKeepsNorm(v);
  }

  /** When the flag of trigonal is set, the output lies strictly off the
      60-degree mirror. */
  lemma TrigonalMirrorStrict(v: Vec3, k3: real)
    requires IsSqrt3(k3)
    ensures Trigonal(v, k3).mirrored ==> Trigonal(v, k3).v.y < k3 * Trigonal(v, k3).v.x
  {
    Z3Lands(Bar1(v), k3);
    TrigonalMirrorLands(Z3(Bar1(v), k3), k3);
  }

  /** trigonal: the output is a -3 image of the input, or the 60-degree
      mirror of one when the flag is set. */
  lemma TrigonalCoset(v: Vec3, k3: real)
    requires IsSqrt3(k3)
    ensures !Trigonal(v, k3).mirrored ==> In3bar(Trigonal(v, k3).v, v, k3)
    ensures Trigonal(v, k3).mirrored ==> In3bar(Mirror60(Trigonal(v, k3).v, k3), v, k3)
  {
    var b := Bar1(v);
    var u := Z3(b, k3);
    var k: nat := if u == b then 0 else if u == Rot60(b, 2, k3) then 2 else 4;
    In3barIntro(u, v, k3, k);
    Z3Lands(b, k3);
    TrigonalMirrorLands(u, k3);
  }

  /** trigonal leaves the northern 0-60 degree sector alone. */
  lemma TrigonalFixes(v: Vec3, k3: real)
    requires IsSqrt3(k3) && Sector60(v, k3) && Northern(v)
    ensures Trigonal(v, k3) == Folded(v, false)
  {
    Sqrt3Sign(k3, v.x);
  }

  /** The 30-degree mirror step takes the 0-60 degree sector onto the
      0-30 degree sector and keeps x^2 + y^2 and z. */
  lemma HexagonalMirrorLands(u: Vec3, k3: real)
    requires IsSqrt3(k3) && Sector60(u, k3)
    ensures Sector30(HexagonalMirror(u, k3).v, k3)
    ensures PlanarNorm2(HexagonalMirror(u, k3).v) == PlanarNorm2(u) && HexagonalMirror(u, k3).v.z == u.z
    ensures !HexagonalMirror(u, k3).mirrored ==> HexagonalMirror(u, k3).v == u
  {
    if k3 * u.y > u.x {
      var r := Mirror30(u, k3);
      assert HexagonalMirror(u, k3) == Folded(r, true);
      HalfSqrt3Squared(k3);
      ReflectKeepsNorm(u, 0.5, k3 / 2.0);
      Sqrt3Times(k3, u.x);
      assert r.y == (k3 * u.x - u.y) / 2.0;
    }
  }

  /** When the 30-degree mirror step fires, its output lies strictly off the
      mirror, and mirroring it back gives its input. */
  lemma HexagonalMirrorUndo(u: Vec3, k3: real)
    requires IsSqrt3(k3)
    ensures HexagonalMirror(u, k3).mirrored ==>
      Mirror30(HexagonalMirror(u, k3).v, k3) == u && k3 * HexagonalMirror(u, k3).v.y < HexagonalMirror(u, k3).v.x
  {
    if k3 * u.y > u.x {
      var r := Mirror30(u, k3);
      assert HexagonalMirror(u, k3) == Folded(r, true);
      HalfSqrt3Squared(k3);
      ReflectInvolution(u, 0.5, k3 / 2.0);
      Sqrt3Times(k3, u.x);
      assert r.x - k3 * r.y == k3 * u.y - u.x;
    }
  }

  /** The 0-30 degree sector lies in the 0-60 degree sector. */
  lemma Sector30In60(v: Vec3, k3: real)
    requires IsSqrt3(k3) && Sector30(v, k3)
    ensures Sector60(v, k3)
  {
    Sqrt3Times(k3, v.y);
    assert k3 * (k3 * v.y) <= k3 * v.x;
  }

  /** hexagonal lands in the northern 0-30 degree sector. */
  lemma HexagonalLands(v: Vec3, k3: real)
    requires IsSqrt3(k3)
    ensures Sector30(Hexagonal(v, k3).v, k3) && Northern(Hexagonal(v, k3).v)
  {
    Z6Lands(Bar1(v), k3);
    HexagonalMirrorLands(Z6(Bar1(v), k3), k3);
  }

  /** hexagonal keeps x^2 + y^2. */
  lemma HexagonalKeepsNorm(v: Vec3, k3: real)
    requires IsSqrt3(k3)
    ensures PlanarNorm2(Hexagonal(v, k3).v) == PlanarNorm2(v)
  {
    Z6Lands(Bar1(v), k3);
    HexagonalMirrorLands(Z6(Bar1(v), k3), k3);
    NegKeepsNorm(v);
  }

  /** When the flag of hexagonal is set, the output lies strictly off the
      30-degree mirror. */
  lemma HexagonalMirrorStrict(v: Vec3, k3: real)
    requires IsSqrt3(k3)
    ensures Hexagonal(v, k3).mirrored ==> k3 * Hexagonal(v, k3).v.y < Hexagonal(v, k3).v.x
  {
    var u := Z6(Bar1(v), k3);
    assert Hexagonal(v, k3) == HexagonalMirror(u, k3);
    HexagonalMirrorUndo(u, k3);
  }

  /** hexagonal: the output is a 6/m image of the input, or the 30-degree
      mirror of one when the flag is set. */
  lemma HexagonalCoset(v: Vec3, k3: real)
    requires IsSqrt3(k3)
    ensures !Hexagonal(v, k3).mirrored ==> In6m(Hexagonal(v, k3).v, v, k3)
    ensures Hexagonal(v, k3).mirrored ==> In6m(Mirror30(Hexagonal(v, k3).v, k3), v, k3)
  {
    var b := Bar1(v);
    var u := Z6(b, k3);
    var k := Z6Orbit(b, k3);
    In6mIntro(u, v, k3, k);
    Z6Lands(b, k3);
    HexagonalMirrorUndo(u, k3);
  }

  /** hexagonal leaves the northern 0-30 degree sector alone. */
  lemma HexagonalFixes(v: Vec3, k3: real)
    requires IsSqrt3(k3) && Sector30(v, k3) && Northern(v)
    ensures Hexagonal(v, k3) == Folded(v, false)
  {
    Sector30In60(v, k3);
    Z6Fixes(v, k3);
  }

  /** The signed axis operation that takes v to its absolute values in the
      order q. */
  function SignFix(q: Perm, v: Vec3): (g: AxisOp)
    ensures g.perm == q && Apply(g, v) == Permute(q, Abs3(v))
  {
    var p := Permute(q, v);
    AxisOp(q, p.x < 0.0, p.y < 0.0, p.z < 0.0)
  }

  /** cubic returns the absolute values of the input sorted into the
      standard triangle (middle, least, greatest), and sets the flag only
      strictly off the x=y mirror. */
  lemma CubicSorts(v: Vec3)
    ensures Cubic(v).v == SortedAbs(v)
    ensures CubicSector(Cubic(v).v)
    ensures Cubic(v).mirrored ==> Cubic(v).v.x > Cubic(v).v.y
  {
    var u := Z2(Bar1(v));
    var w := Vec3(Abs(u.x), u.y, u.z);
    assert w == Abs3(v);
    var a, b, c := w.x, w.y, w.z;
    if a >= b {
      if a > c {
        assert Max3(a, b, c) == a;
        if b >= c {
          assert Cubic(v) == Folded(Vec3(b, c, a), false);
        } else {
          assert Cubic(v) == Folded(Vec3(c, b, a), true);
        }
      } else {
        assert Max3(a, b, c) == c && Min3(a, b, c) == b;
        assert Cubic(v) == Folded(w, false);
      }
    } else {
      if b > c {
        assert Max3(a, b, c) == b;
        if c >= a {
          assert Cubic(v) == Folded(Vec3(c, a, b), false);
        } else {
          assert Cubic(v) == Folded(Vec3(a, c, b), true);
        }
      } else {
        assert Max3(a, b, c) == c && Min3(a, b, c) == a;
        assert Cubic(v) == Folded(Vec3(b, a, c), true);
      }
    }
  }

  /** cubic: the output is an m-3 image of the input, or the x=y mirror of
      one when the flag is set; the standard triangle is left alone. */
  lemma CubicCoset(v: Vec3)
    ensures !Cubic(v).mirrored ==> InM3(Cubic(v).v, v)
    ensures Cubic(v).mirrored ==> InM3(Swap(Cubic(v).v), v)
    ensures CubicSector(v) && Northern(v) ==> Cubic(v) == Folded(v, false)
  {
    var u := Z2(Bar1(v));
    var w := Vec3(Abs(u.x), u.y, u.z);
    assert w == Abs3(v);
    var q := if w.x >= w.y then (if w.x > w.z then YZX else XYZ)
             else (if w.y > w.z then ZXY else XYZ);
    var g := SignFix(q, v);
    var r := Cubic(v);
    if r.mirrored {
      assert Swap(r.v) == Apply(g, v);
    } else {
      assert r.v == Apply(g, v);
    }
  }

  // ----- a second application changes nothing -----

  lemma OrthorhombicIdempotent(v: Vec3)
    ensures Orthorhombic(Orthorhombic(v).v) == Folded(Orthorhombic(v).v, false)
  {
    OrthorhombicFixes(Orthorhombic(v).v);
  }

  lemma TetragonalIdempotent(v: Vec3)
    ensures Tetragonal(Tetragonal(v).v) == Folded(Tetragonal(v).v, false)
  {
    TetragonalCoset(Tetragonal(v).v);
  }

  lemma TrigonalIdempotent(v: Vec3, k3: real)
    requires IsSqrt3(k3)
    ensures Trigonal(Trigonal(v, k3).v, k3) == Folded(Trigonal(v, k3).v, false)
  {
    TrigonalLands(v, k3);
    TrigonalFixes(Trigonal(v, k3).v, k3);
  }

  lemma HexagonalIdempotent(v: Vec3, k3: real)
    requires IsSqrt3(k3)
    ensures Hexagonal(Hexagonal(v, k3).v, k3) == Folded(Hexagonal(v, k3).v, false)
  {
    HexagonalLands(v, k3);
    HexagonalFixes(Hexagonal(v, k3).v, k3);
  }

  lemma CubicIdempotent(v: Vec3)
    ensures Cubic(Cubic(v).v) == Folded(Cubic(v).v, false)
  {
    CubicSorts(v);
    CubicCoset(Cubic(v).v);
  }

  // ----- invariance under the group -----

  /** Directions related by sign changes (the operations of mmm) reduce to
      the same vector. */
  lemma OrthorhombicInvariant(g: AxisOp, v: Vec3)
    requires g.perm == XYZ
    ensures Orthorhombic(Apply(g, v)).v == Orthorhombic(v).v
  {
    assert Abs3(Apply(g, v)) == Abs3(v);
  }

  /** Directions related by sign changes and the x/y swap (the operations of
      4/mmm) reduce to the same vector. */
  lemma TetragonalInvariant(g: AxisOp, v: Vec3)
    requires g.perm == XYZ || g.perm == YXZ
    ensures Tetragonal(Apply(g, v)).v == Tetragonal(v).v
  {
    var w := Apply(g, v);
    assert Abs(w.z) == Abs(v.z);
    if g.perm == XYZ {
      assert Abs(w.x) == Abs(v.x) && Abs(w.y) == Abs(v.y);
    } else {
      assert Abs(w.x) == Abs(v.y) && Abs(w.y) == Abs(v.x);
    }
  }

  /** Sorting the absolute values does not depend on the order they come in. */
  lemma SortedAbsPermute(p: Perm, v: Vec3)
    ensures SortedAbs(Permute(p, v)) == SortedAbs(v)
  {
    var a, b, c := Abs(v.x), Abs(v.y), Abs(v.z);
    assert Max3(a, b, c) == Max3(a, c, b) == Max3(b, a, c) == Max3(b, c, a) == Max3(c, a, b) == Max3(c, b, a);
    assert Min3(a, b, c) == Min3(a, c, b) == Min3(b, a, c) == Min3(b, c, a) == Min3(c, a, b) == Min3(c, b, a);
  }

  /** Directions related by any signed axis permutation (the operations of
      m-3m) reduce to the same vector. */
  lemma CubicInvariant(g: AxisOp, v: Vec3)
    ensures Cubic(Apply(g, v)).v == Cubic(v).v
  {
    CubicSorts(v);
    CubicSorts(Apply(g, v));
    var p := Permute(g.perm, v);
    assert Abs3(Apply(g, v)) == Abs3(p);
    assert SortedAbs(Apply(g, v)) == SortedAbs(p);
    SortedAbsPermute(g.perm, v);
  }

  // ----- invariance of the reductions the low classes colour with -----

  /** Off the three vertical planes at 0, 60 and 120 degrees: there the
      3- and 6-fold folds and their mirrors have to choose between two
      images of a direction that both lie on the sector's boundary. */
  predicate OffHexLines(v: Vec3, k3: real) {
    v.y != 0.0 && v.y != k3 * v.x && v.y != -(k3 * v.x)
  }

  /** Strictly inside the 0-120 degree sector. */
  predicate Open120(v: Vec3, k3: real) { v.y > 0.0 && k3 * v.x + v.y > 0.0 }

  /** Strictly inside the 0-60 degree sector. */
  predicate Open60(v: Vec3, k3: real) { v.y > 0.0 && v.y < k3 * v.x }

  /** A turn by 60 degrees permutes the three planes. */
  lemma Rot60OneOffLines(v: Vec3, k3: real)
    requires IsSqrt3(k3) && OffHexLines(v, k3)
    ensures OffHexLines(Rot60(v, 1, k3), k3)
  {
    var r := Rot60(v, 1, k3);
    Sqrt3Times(k3, v.y);
    assert r.y == 0.5 * v.y + (k3 * v.x) / 2.0;
    assert k3 * r.x == (k3 * v.x) / 2.0 - 1.5 * v.y;
  }

  /** So does every turn by a multiple of 60 degrees. */
  lemma {:induction false} Rot60OffLines(v: Vec3, k: nat, k3: real)
    requires IsSqrt3(k3) && k < 6 && OffHexLines(v, k3)
    ensures OffHexLines(Rot60(v, k, k3), k3)
  {
    if k > 0 {
      Rot60OffLines(v, k - 1, k3);
      Rot60OneOffLines(Rot60(v, k - 1, k3), k3);
      Rot60Compose(v, k - 1, 1, k3);
    }
  }

  /** Inversion keeps a direction off the three planes. */
  lemma NegOffLines(v: Vec3, k3: real)
    requires OffHexLines(v, k3)
    ensures OffHexLines(Neg(v), k3)
  {
    assert k3 * (-v.x) == -(k3 * v.x);
  }

  /** A turn by 120 or 240 degrees takes the open 0-120 degree sector out
      of the closed one. */
  lemma Open120Turn(w: Vec3, d: nat, k3: real)
    requires IsSqrt3(k3) && Open120(w, k3) && (d == 2 || d == 4)
    ensures !Sector120(Rot60(w, d, k3), k3)
  {
    var r := Rot60(w, d, k3);
    Sqrt3Times(k3, w.y);
    if d == 2 {
      assert k3 * r.x == -(k3 * w.x) / 2.0 - 1.5 * w.y;
      assert r.y == -0.5 * w.y + (k3 * w.x) / 2.0;
    } else {
      assert r.y == -0.5 * w.y - (k3 * w.x) / 2.0;
    }
  }

  /** A turn by a non-zero multiple of 60 degrees takes the open 0-60
      degree sector out of the closed one. */
  lemma Open60Turn(w: Vec3, d: nat, k3: real)
    requires IsSqrt3(k3) && Open60(w, k3) && 0 < d < 6
    ensures !Sector60(Rot60(w, d, k3), k3)
  {
    var r := Rot60(w, d, k3);
    Sqrt3Sign(k3, w.x);
    Sqrt3Times(k3, w.y);
    if d == 1 {
      assert r.y == 0.5 * w.y + (k3 * w.x) / 2.0;
      assert k3 * r.x == (k3 * w.x) / 2.0 - 1.5 * w.y;
    } else if d == 2 {
      assert r.y == -0.5 * w.y + (k3 * w.x) / 2.0;
      assert k3 * r.x == -(k3 * w.x) / 2.0 - 1.5 * w.y;
    } else if d == 4 {
      assert r.y == -0.5 * w.y - (k3 * w.x) / 2.0;
    } else if d == 5 {
      assert r.y == 0.5 * w.y - (k3 * w.x) / 2.0;
    }
  }

  /** The turn that takes the k-th image of b to its j-th. */
  lemma Rot60Between(b: Vec3, k: nat, j: nat, k3: real) returns (d: nat)
    requires IsSqrt3(k3) && k < 6 && j < 6
    ensures d < 6 && Rot60(Rot60(b, k, k3), d, k3) == Rot60(b, j, k3)
    ensures d == 0 <==> j == k
    ensures k % 2 == 0 && j % 2 == 0 ==> d % 2 == 0
  {
    d := (j + 6 - k) % 6;
    Rot60Compose(b, k, d, k3);
    assert (k + d) % 6 == j;
  }

  /** z6 of a direction off the planes lies strictly inside its sector. */
  lemma Z6Open(b: Vec3, j: nat, k3: real)
    requires IsSqrt3(k3) && OffHexLines(b, k3) && j < 6 && Z6(b, k3) == Rot60(b, j, k3)
    ensures Open60(Z6(b, k3), k3)
  {
    Z6Lands(b, k3);
    Rot60OffLines(b, j, k3);
    SectorOpen(Z6(b, k3), k3);
  }

  /** z3 of a direction off the planes lies strictly inside its sector. */
  lemma Z3Open(b: Vec3, j: nat, k3: real)
    requires IsSqrt3(k3) && OffHexLines(b, k3) && j < 6 && Z3(b, k3) == Rot60(b, j, k3)
    ensures Open120(Z3(b, k3), k3)
  {
    Z3Lands(b, k3);
    Rot60OffLines(b, j, k3);
    SectorOpen(Z3(b, k3), k3);
  }

  /** Off the three planes the closed sectors are open. */
  lemma SectorOpen(u: Vec3, k3: real)
    requires OffHexLines(u, k3)
    ensures Sector60(u, k3) ==> Open60(u, k3)
    ensures Sector120(u, k3) ==> Open120(u, k3)
  {
  }

  /** z3 picks the one 3-fold image of b that lies strictly inside the
      0-120 degree sector, when there is one. */
  lemma Z3Unique(b: Vec3, w: Vec3, k: nat, k3: real)
    requires IsSqrt3(k3) && k < 6 && k % 2 == 0 && w == Rot60(b, k, k3) && Open120(w, k3)
    ensures Z3(b, k3) == w
  {
    var u := Z3(b, k3);
    var j: nat := if u == b then 0 else if u == Rot60(b, 2, k3) then 2 else 4;
    assert u == Rot60(b, j, k3);
    Z3Lands(b, k3);
    var d := Rot60Between(b, k, j, k3);
    if d != 0 {
      Open120Turn(w, d, k3);
    }
  }

  /** z6 picks the one 6-fold image of b that lies strictly inside the
      0-60 degree sector, when there is one. */
  lemma Z6Unique(b: Vec3, w: Vec3, k: nat, k3: real)
    requires IsSqrt3(k3) && k < 6 && w == Rot60(b, k, k3) && Open60(w, k3)
    ensures Z6(b, k3) == w
  {
    var j := Z6Orbit(b, k3);
    Z6Lands(b, k3);
    var d := Rot60Between(b, k, j, k3);
    if d != 0 {
      Open60Turn(w, d, k3);
    }
  }

  /** z3 of a direction off the planes is the same for its 3-fold images. */
  lemma Z3Rotate(b: Vec3, k: nat, k3: real)
    requires IsSqrt3(k3) && k < 6 && k % 2 == 0 && OffHexLines(b, k3)
    ensures Z3(Rot60(b, k, k3), k3) == Z3(b, k3)
  {
    var u := Z3(b, k3);
    var j: nat := if u == b then 0 else if u == Rot60(b, 2, k3) then 2 else 4;
    assert u == Rot60(b, j, k3);
    Z3Open(b, j, k3);
    var d := Rot60Between(b, k, j, k3);
    Z3Unique(Rot60(b, k, k3), u, d, k3);
  }

  /** z6 of a direction off the planes is the same for its 6-fold images. */
  lemma Z6Rotate(b: Vec3, k: nat, k3: real)
    requires IsSqrt3(k3) && k < 6 && OffHexLines(b, k3)
    ensures Z6(Rot60(b, k, k3), k3) == Z6(b, k3)
  {
    var u := Z6(b, k3);
    var j := Z6Orbit(b, k3);
    Z6Open(b, j, k3);
    var d := Rot60Between(b, k, j, k3);
    Z6Unique(Rot60(b, k, k3), u, d, k3);
  }

  /** The 60-degree mirror keeps the 0-120 degree sector, open and closed. */
  lemma Mirror60Sector(u: Vec3, k3: real)
    requires IsSqrt3(k3)
    ensures Sector120(u, k3) ==> Sector120(Mirror60(u, k3), k3)
    ensures Open120(u, k3) ==> Open120(Mirror60(u, k3), k3)
  {
    var m := Mirror60(u, k3);
    Sqrt3Times(k3, u.y);
    assert m.y == (k3 * u.x) / 2.0 + 0.5 * u.y;
    assert k3 * m.x == -(k3 * u.x) / 2.0 + 1.5 * u.y;
  }

  /** The 30-degree mirror keeps the 0-60 degree sector, open and closed. */
  lemma Mirror30Sector(u: Vec3, k3: real)
    requires IsSqrt3(k3)
    ensures Sector60(u, k3) ==> Sector60(Mirror30(u, k3), k3)
    ensures Open60(u, k3) ==> Open60(Mirror30(u, k3), k3)
  {
    var m := Mirror30(u, k3);
    Sqrt3Times(k3, u.y);
    assert m.y == (k3 * u.x) / 2.0 - 0.5 * u.y;
    assert k3 * m.x == (k3 * u.x) / 2.0 + 1.5 * u.y;
  }

  /** z3 commutes with the 60-degree mirror off the planes. */
  lemma Z3Mirror(b: Vec3, k3: real)
    requires IsSqrt3(k3) && OffHexLines(b, k3)
    ensures Z3(Mirror60(b, k3), k3) == Mirror60(Z3(b, k3), k3)
  {
    var u := Z3(b, k3);
    var j: nat := if u == b then 0 else if u == Rot60(b, 2, k3) then 2 else 4;
    assert u == Rot60(b, j, k3);
    Z3Open(b, j, k3);
    Mirror60Sector(u, k3);
    ReflectRot60(b, j, -0.5, k3 / 2.0, k3);
    Z3Unique(Mirror60(b, k3), Mirror60(u, k3), (6 - j) % 6, k3);
  }

  /** z6 commutes with the 30-degree mirror off the planes. */
  lemma Z6Mirror(b: Vec3, k3: real)
    requires IsSqrt3(k3) && OffHexLines(b, k3)
    ensures Z6(Mirror30(b, k3), k3) == Mirror30(Z6(b, k3), k3)
  {
    var u := Z6(b, k3);
    var j := Z6Orbit(b, k3);
    Z6Open(b, j, k3);
    Mirror30Sector(u, k3);
    ReflectRot60(b, j, 0.5, k3 / 2.0, k3);
    Z6Unique(Mirror30(b, k3), Mirror30(u, k3), (6 - j) % 6, k3);
  }

  /** A direction and its 60-degree mirror image both in the 0-60 degree
      sector lie on the mirror. */
  lemma Sector60Mirror60(u: Vec3, k3: real)
    requires IsSqrt3(k3) && Sector60(u, k3) && Sector60(Mirror60(u, k3), k3)
    ensures Mirror60(u, k3) == u
  {
    var m := Mirror60(u, k3);
    Sqrt3Times(k3, u.x);
    Sqrt3Times(k3, u.y);
    assert m.y == (k3 * u.x) / 2.0 + 0.5 * u.y;
    assert k3 * m.x == -(k3 * u.x) / 2.0 + 1.5 * u.y;
    assert u.y == k3 * u.x;
    assert m.x == -0.5 * u.x + (k3 * (k3 * u.x)) / 2.0;
  }

  /** A direction and its 30-degree mirror image both in the 0-30 degree
      sector lie on the mirror. */
  lemma Sector30Mirror30(u: Vec3, k3: real)
    requires IsSqrt3(k3) && Sector30(u, k3) && Sector30(Mirror30(u, k3), k3)
    ensures Mirror30(u, k3) == u
  {
    var m := Mirror30(u, k3);
    Sqrt3Times(k3, u.x);
    Sqrt3Times(k3, u.y);
    assert m.x == 0.5 * u.x + (k3 * u.y) / 2.0;
    assert k3 * m.y == 1.5 * u.x - (k3 * u.y) / 2.0;
    assert u.x == k3 * u.y;
    assert m.y == (k3 * (k3 * u.y)) / 2.0 - 0.5 * u.y;
  }

  /** The 60-degree mirror step gives a direction of the 0-120 degree
      sector and its mirror image the same output direction. */
  lemma TrigonalMirrorSame(u: Vec3, k3: real)
    requires IsSqrt3(k3) && Sector120(u, k3)
    ensures TrigonalMirror(Mirror60(u, k3), k3).v == TrigonalMirror(u, k3).v
  {
    var m := Mirror60(u, k3);
    Mirror60Sector(u, k3);
    HalfSqrt3Squared(k3);
    ReflectInvolution(u, -0.5, k3 / 2.0);
    TrigonalMirrorLands(u, k3);
    TrigonalMirrorLands(m, k3);
    var a, b := TrigonalMirror(u, k3).v, TrigonalMirror(m, k3).v;
    ReflectInvolution(a, -0.5, k3 / 2.0);
    ReflectInvolution(b, -0.5, k3 / 2.0);
    assert a == u || a == m;
    assert b == u || b == m;
    if a != b {
      Sector60Mirror60(u, k3);
    }
  }

  /** The 30-degree mirror step gives a direction of the 0-60 degree
      sector and its mirror image the same output direction. */
  lemma HexagonalMirrorSame(u: Vec3, k3: real)
    requires IsSqrt3(k3) && Sector60(u, k3)
    ensures HexagonalMirror(Mirror30(u, k3), k3).v == HexagonalMirror(u, k3).v
  {
    var m := Mirror30(u, k3);
    Mirror30Sector(u, k3);
    HalfSqrt3Squared(k3);
    ReflectInvolution(u, 0.5, k3 / 2.0);
    HexagonalMirrorLands(u, k3);
    HexagonalMirrorLands(m, k3);
    HexagonalMirrorUndo(u, k3);
    HexagonalMirrorUndo(m, k3);
    var a, b := HexagonalMirror(u, k3).v, HexagonalMirror(m, k3).v;
    ReflectInvolution(a, 0.5, k3 / 2.0);
    ReflectInvolution(b, 0.5, k3 / 2.0);
    assert a == u || a == m;
    assert b == u || b == m;
    if a != b {
      Sector30Mirror30(u, k3);
    }
  }

  /** bar1 commutes with the turns and mirrors about z. */
  lemma Bar1Rot60(n: Vec3, k: nat, k3: real)
    requires k < 6
    ensures Bar1(Rot60(n, k, k3)) == Rot60(Bar1(n), k, k3)
  {
    var c, s := Cos60(k), Sin60(k, k3);
    Rot60IsRotate(n, k, k3);
    Rot60IsRotate(Neg(n), k, k3);
    RotateNeg(n, c, s);
    assert Rot60(n, k, k3).z == n.z;
  }

  lemma Bar1Reflect(n: Vec3, c2: real, s2: real)
    ensures Bar1(Reflect(n, c2, s2)) == Reflect(Bar1(n), c2, s2)
  {
  }

  /** 2/m: the 2-fold turn about z and the inversion leave the whole
      orthorhombic reduction (direction and flag) unchanged, away from the
      plane y = 0 (for the inversion, only on the equator) where the
      source's sign tests break the tie. */
  lemma Orthorhombic2mInvariant(n: Vec3)
    ensures n.y != 0.0 ==> Orthorhombic(Rot90(n, 2)) == Orthorhombic(n)
    ensures n.z != 0.0 || n.y != 0.0 ==> Orthorhombic(Neg(n)) == Orthorhombic(n)
  {
  }

  /** 4/m: the 4-fold turn about z and the inversion leave the whole
      tetragonal reduction unchanged, away from the planes x = 0 and y = 0
      (for the inversion, only on the equator). */
  lemma Tetragonal4mInvariant(n: Vec3)
    ensures n.x != 0.0 && n.y != 0.0 ==> Tetragonal(Rot90(n, 1)) == Tetragonal(n)
    ensures n.z != 0.0 || (n.x != 0.0 && n.y != 0.0) ==> Tetragonal(Neg(n)) == Tetragonal(n)
  {
    if n.x != 0.0 && n.y != 0.0 {
      var b := Bar1(n);
      assert Bar1(Rot90(n, 1)) == Rot90(b, 1);
      Z4Rotate(b);
      if n.z == 0.0 {
        assert Neg(n) == Rot90(Rot90(n, 1), 1);
        Z4Rotate(Rot90(n, 1));
      }
    }
  }

  /** z4 of a direction off the planes x = 0 and y = 0 is the same for its
      quarter turn. */
  lemma Z4Rotate(b: Vec3)
    requires b.x != 0.0 && b.y != 0.0
    ensures Z4(Rot90(b, 1)) == Z4(b)
  {
  }

  /** -3: the 3-fold turn about z, off the three planes, and the inversion,
      off the equator, leave the whole trigonal reduction unchanged. */
  lemma Trigonal3barInvariant(n: Vec3, k3: real)
    requires IsSqrt3(k3)
    ensures OffHexLines(n, k3) ==> Trigonal(Rot60(n, 2, k3), k3) == Trigonal(n, k3)
    ensures n.z != 0.0 ==> Trigonal(Neg(n), k3) == Trigonal(n, k3)
  {
    if OffHexLines(n, k3) {
      Bar1Rot60(n, 2, k3);
      NegOffLines(n, k3);
      Z3Rotate(Bar1(n), 2, k3);
    }
  }

  /** -3m: the 60-degree mirror, off the three planes, leaves the reduced
      direction of trigonal unchanged (only the flag tells them apart). */
  lemma TrigonalMirrorInvariant(n: Vec3, k3: real)
    requires IsSqrt3(k3) && OffHexLines(n, k3)
    ensures Trigonal(Mirror60(n, k3), k3).v == Trigonal(n, k3).v
  {
    var b := Bar1(n);
    Bar1Reflect(n, -0.5, k3 / 2.0);
    NegOffLines(n, k3);
    Z3Mirror(b, k3);
    Z3Lands(b, k3);
    TrigonalMirrorSame(Z3(b, k3), k3);
  }

  /** 6/m: the 6-fold turn about z, off the three planes, and the inversion,
      off the equator or off the planes, leave the whole hexagonal reduction
      unchanged. */
  lemma Hexagonal6mInvariant(n: Vec3, k3: real)
    requires IsSqrt3(k3)
    ensures OffHexLines(n, k3) ==> Hexagonal(Rot60(n, 1, k3), k3) == Hexagonal(n, k3)
    ensures n.z != 0.0 || OffHexLines(n, k3) ==> Hexagonal(Neg(n), k3) == Hexagonal(n, k3)
  {
    if OffHexLines(n, k3) {
      Bar1Rot60(n, 1, k3);
      NegOffLines(n, k3);
      Z6Rotate(Bar1(n), 1, k3);
      if n.z == 0.0 {
        assert Neg(n) == Rot60(n, 3, k3);
        Z6Rotate(n, 3, k3);
      }
    }
  }

  /** 6/mmm: the 30-degree mirror, off the three planes, leaves the reduced
      direction of hexagonal unchanged. */
  lemma HexagonalMirrorInvariant(n: Vec3, k3: real)
    requires IsSqrt3(k3) && OffHexLines(n, k3)
    ensures Hexagonal(Mirror30(n, k3), k3).v == Hexagonal(n, k3).v
  {
    var b := Bar1(n);
    Bar1Reflect(n, 0.5, k3 / 2.0);
    NegOffLines(n, k3);
    Z6Mirror(b, k3);
    Z6Lands(b, k3);
    HexagonalMirrorSame(Z6(b, k3), k3);
  }
}
