/** The algebraic part of the spherical-triangle patch that turns a direction
    of a fundamental sector into fractional polar coordinates on a hemisphere.

    A patch is built once from its red, green and blue vertices and is
    read-only afterwards, so it is a value here. The trigonometric geometry
    of the construction (the normalised centre, the in-plane frame rx/ry, the
    edge normals, the angles between successive vertices seen from the
    centre, and the edge radii and their derivatives sampled at the fillet
    transitions) is an input `Frame`; `atan2`, `acos` and normalisation are
    the uninterpreted functions of a `Trig` record, of which only their
    ranges are assumed. */
module Triangle {
  import opened Vector

  datatype Result<T> = Success(value: T) | Failure(error: string)

  /** M_PI as the double literal the source uses. */
  const Pi: real := 3.141592653589793

  /** std::numeric_limits<double>::epsilon(), 2^-52. */
  const Epsilon: real := 1.0 / 4503599627370496.0

  /** The fraction of each vertex sector given to a fillet. */
  const FilletFrac: real := 0.05

  /** The angular half-width of a fillet: the fraction of a fixed 2π/3, the
      same for every vertex whatever its real angle. */
  const FilletDelta: real := FilletFrac * (Pi * 2.0 / 3.0)

  const HemisphereError: string := "spherical triangle must be within single hemisphere"

  /** A cubic c0 x^3 + c1 x^2 + c2 x + c3, one row of the coefficient table. */
  datatype Cubic3 = Cubic3(c0: real, c1: real, c2: real, c3: real)

  function Eval(p: Cubic3, x: real): real {
    p.c0 * x * x * x + p.c1 * x * x + p.c2 * x + p.c3
  }

  /** The derivative of the cubic at x. */
  function Slope(p: Cubic3, x: real): real {
    3.0 * p.c0 * x * x + 2.0 * p.c1 * x + p.c2
  }

  /** The fillet cubic over [-1, 1] from the radius v1 and slope m1 at the
      end of one edge and the radius v2 and slope m2 at the start of the
      next: it takes both values and both slopes. */
  function Hermite(v1: real, v2: real, m1: real, m2: real): (p: Cubic3)
    ensures Eval(p, -1.0) == v1 && Eval(p, 1.0) == v2
    ensures Slope(p, -1.0) == m1 && Slope(p, 1.0) == m2
  {
    Cubic3((m1 + m2 + v1 - v2) / 4.0, (-m1 + m2) / 4.0,
           (-m1 - m2 - v1 * 3.0 + v2 * 3.0) / 4.0, (m1 - m2 + v1 * 2.0 + v2 * 2.0) / 4.0)
  }

  /** A cubic is fixed by its values and slopes at -1 and 1, so the fillet
      coefficients are the only ones that match both edges. */
  lemma HermiteUnique(q: Cubic3, v1: real, v2: real, m1: real, m2: real)
    requires Eval(q, -1.0) == v1 && Eval(q, 1.0) == v2
    requires Slope(q, -1.0) == m1 && Slope(q, 1.0) == m2
    ensures q == Hermite(v1, v2, m1, m2)
  {
    assert q.c0 - q.c1 + q.c2 - q.c3 == -v1;
  }

  /** What the trigonometric part of the construction hands over. */
  datatype Frame = Frame(center: Vec3, rx: Vec3, ry: Vec3, normals: seq<Vec3>,
                         angles: seq<real>, radii: seq<real>, dRadii: seq<real>)

  predicate FrameValid(f: Frame) {
    |f.normals| == 3 && |f.angles| == 3 && |f.radii| == 6 && |f.dRadii| == 6
  }

  datatype Patch = Patch(center: Vec3, rx: Vec3, ry: Vec3, normals: seq<Vec3>,
                         cumAngles: seq<real>, cutoffs: seq<real>, coeffs: seq<Cubic3>)

  function Sum(s: seq<real>): real {
    if |s| == 0 then 0.0 else Sum(s[..|s| - 1]) + s[|s| - 1]
  }

  /** cumAngles: 0 (the entry the construction never writes, zero in a
      static patch), then the running sums of the vertex angles. */
  function CumAngles(angles: seq<real>): (c: seq<real>)
    requires |angles| == 3
  {
    seq(4, k requires 0 <= k < 4 => Sum(angles[..k]))
  }

  /** Cutoff j of vertex sector i: the end of its first fillet (j = 0), the
      start of its second fillet (j = 1) and the sector's own end (j = 2). */
  function CutoffAt(c: seq<real>, i: nat, j: nat): real
    requires |c| == 4 && i < 3 && j < 3
  {
    var delta := if j == 2 then 0.0 else if j == 0 then FilletDelta else -FilletDelta;
    c[i + (if j == 0 then 0 else 1)] + delta
  }

  /** The nine cutoffs, three per vertex sector. */
  function Cutoffs(c: seq<real>): (r: seq<real>)
    requires |c| == 4
    ensures |r| == 9
  {
    seq(9, k requires 0 <= k < 9 => CutoffAt(c, k / 3, k % 3))
  }

  /** The fillet cubic of the corner between edge i and edge (i+1) mod 3,
      with slopes scaled from radians to the [-1, 1] parameter by the
      fillet fraction of the real vertex angles. */
  function Corner(f: Frame, i: nat): Cubic3
    requires FrameValid(f) && i < 3
  {
    var j := (i + 1) % 3;
    Hermite(f.radii[i * 2 + 1], f.radii[j * 2],
            f.dRadii[i * 2 + 1] * FilletFrac * f.angles[i],
            f.dRadii[j * 2] * FilletFrac * f.angles[j])
  }

  /** The patch the constructor builds, or the exception it throws. */
  function Build(red: Vec3, green: Vec3, blue: Vec3, f: Frame): Result<Patch>
    requires FrameValid(f)
  {
    if Det(red, green, blue) < Epsilon then Failure(HemisphereError)
    else
      var cum := CumAngles(f.angles);
      Success(Patch(f.center, f.rx, f.ry, f.normals, cum, Cutoffs(cum),
                    [Corner(f, 0), Corner(f, 1), Corner(f, 2)]))
  }

  /** The shape every constructed patch has. */
  predicate PatchValid(p: Patch) {
    |p.normals| == 3 && |p.cumAngles| == 4 && p.cumAngles[0] == 0.0
    && |p.coeffs| == 3 && p.cutoffs == Cutoffs(p.cumAngles)
  }

  /** The constructor throws exactly when the vertices are not
      counter-clockwise within one hemisphere (determinant below epsilon);
      otherwise the patch is well formed, its cumulative angles are the
      running sums of the vertex angles, and its fillets join the sampled
      edge radii with matching slopes at both ends. */
  lemma BuildSpec(red: Vec3, green: Vec3, blue: Vec3, f: Frame)
    requires FrameValid(f)
    ensures Build(red, green, blue, f).Failure? <==> Det(red, green, blue) < Epsilon
    ensures Build(red, green, blue, f).Failure? ==> Build(red, green, blue, f).error == HemisphereError
    ensures Build(red, green, blue, f).Success? ==> PatchValid(Build(red, green, blue, f).value)
    ensures Build(red, green, blue, f).Success? ==>
      var p := Build(red, green, blue, f).value;
      p.cumAngles[3] == f.angles[0] + f.angles[1] + f.angles[2]
      && forall i :: 0 <= i < 3 ==>
        Eval(p.coeffs[i], -1.0) == f.radii[i * 2 + 1] && Eval(p.coeffs[i], 1.0) == f.radii[(i + 1) % 3 * 2]
        && Slope(p.coeffs[i], -1.0) == f.dRadii[i * 2 + 1] * FilletFrac * f.angles[i]
        && Slope(p.coeffs[i], 1.0) == f.dRadii[(i + 1) % 3 * 2] * FilletFrac * f.angles[(i + 1) % 3]
  {
    if Det(red, green, blue) >= Epsilon {
      CumAnglesSpec(f.angles);
      var p := Build(red, green, blue, f).value;
      assert p.coeffs == [Corner(f, 0), Corner(f, 1), Corner(f, 2)];
      forall i | 0 <= i < 3
        ensures Eval(p.coeffs[i], -1.0) == f.radii[i * 2 + 1] && Eval(p.coeffs[i], 1.0) == f.radii[(i + 1) % 3 * 2]
        ensures Slope(p.coeffs[i], -1.0) == f.dRadii[i * 2 + 1] * FilletFrac * f.angles[i]
        ensures Slope(p.coeffs[i], 1.0) == f.dRadii[(i + 1) % 3 * 2] * FilletFrac * f.angles[(i + 1) % 3]
      {
        CornerEnds(f, i);
      }
    }
  }

  /** Each fillet cubic takes the radii and the angle-scaled slopes of the
      two edges it joins. */
  lemma CornerEnds(f: Frame, i: nat)
    requires FrameValid(f) && i < 3
    ensures Eval(Corner(f, i), -1.0) == f.radii[i * 2 + 1] && Eval(Corner(f, i), 1.0) == f.radii[(i + 1) % 3 * 2]
    ensures Slope(Corner(f, i), -1.0) == f.dRadii[i * 2 + 1] * FilletFrac * f.angles[i]
    ensures Slope(Corner(f, i), 1.0) == f.dRadii[(i + 1) % 3 * 2] * FilletFrac * f.angles[(i + 1) % 3]
  {
  }

  /** The cumulative angles start at 0 and add one vertex angle at a time. */
  lemma {:induction false} CumAnglesSpec(angles: seq<real>)
    requires |angles| == 3
    ensures CumAngles(angles)[0] == 0.0
    ensures forall k :: 0 <= k < 3 ==> CumAngles(angles)[k + 1] == CumAngles(angles)[k] + angles[k]
    ensures CumAngles(angles)[3] == angles[0] + angles[1] + angles[2]
  {
    forall k | 0 <= k < 3
      ensures CumAngles(angles)[k + 1] == CumAngles(angles)[k] + angles[k]
    {
      assert angles[..k + 1][..k] == angles[..k];
    }
    assert angles[..1][..0] == [];
    assert angles[..2][..1] == angles[..1];
    assert angles[..3][..2] == angles[..2];
  }

  /** When every vertex angle leaves room for two fillets, the nine cutoffs
      are in increasing order, so that lower_bound over them picks a region. */
  lemma CutoffsSorted(angles: seq<real>)
    requires |angles| == 3
    requires forall k :: 0 <= k < 3 ==> angles[k] >= 2.0 * FilletDelta
    ensures forall a, b :: 0 <= a <= b < 9 ==> Cutoffs(CumAngles(angles))[a] <= Cutoffs(CumAngles(angles))[b]
  {
    CumAnglesSpec(angles);
    var c := Cutoffs(CumAngles(angles));
    assert forall k :: 0 < k < 9 ==> c[k - 1] <= c[k];
    Ascending(c);
  }

  /** A sequence in which each element is at least its predecessor is sorted. */
  lemma {:induction false} Ascending(c: seq<real>)
    requires forall k :: 0 < k < |c| ==> c[k - 1] <= c[k]
    ensures forall a, b :: 0 <= a <= b < |c| ==> c[a] <= c[b]
  {
    if |c| > 1 {
      var d := c[..|c| - 1];
      Ascending(d);
      assert forall a :: 0 <= a < |d| ==> c[a] == d[a];
      forall a | 0 <= a < |c| - 1
        ensures c[a] <= c[|c| - 1]
      {
        assert c[a] <= c[|c| - 2];
      }
    }
  }

  /** The constructor: the determinant test that throws, then the loops that
      fill cumAngles, the cutoffs and the fillet coefficients. */
  method Construct(red: Vec3, green: Vec3, blue: Vec3, f: Frame) returns (r: Result<Patch>)
    requires FrameValid(f)
    ensures r == Build(red, green, blue, f)
  {
    var det := red.x * green.y * blue.z + red.y * green.z * blue.x + red.z * green.x * blue.y
             - red.x * green.z * blue.y - red.y * green.x * blue.z - red.z * green.y * blue.x;
    if det < Epsilon {
      return Failure(HemisphereError);
    }
    var cum := PartialSums(f.angles);
    var cut := FillCutoffs(cum);
    var coef := FillCoeffs(f);
    assert coef[..] == [coef[0], coef[1], coef[2]];
    r := Success(Patch(f.center, f.rx, f.ry, f.normals, cum[..], cut[..], coef[..]));
  }

  /** std::partial_sum of the vertex angles into cumAngles[1..3]. */
  method PartialSums(angles: seq<real>) returns (cum: array<real>)
    requires |angles| == 3
    ensures fresh(cum) && cum[..] == CumAngles(angles)
  {
    ghost var cumSpec := CumAngles(angles);
    CumAnglesSpec(angles);
    cum := new real[4](_ => 0.0);
    for i := 0 to 3
      invariant forall k :: 0 <= k <= i ==> cum[k] == cumSpec[k]
    {
      cum[i + 1] := cum[i] + angles[i];
    }
  }

  /** The cutoff loops: the first fillet ends a fixed offset after the
      sector starts, the second starts the same offset before it ends. */
  method FillCutoffs(cum: array<real>) returns (cut: array<real>)
    requires cum.Length == 4
    ensures fresh(cut) && cut[..] == Cutoffs(cum[..])
  {
    cut := new real[9];
    var delta := FilletFrac * (Pi * 2.0 / 3.0);
    for i := 0 to 3
      modifies cut
      invariant forall k :: 0 <= k < i * 3 ==> cut[k] == CutoffAt(cum[..], k / 3, k % 3)
    {
      for j := 0 to 3
        modifies cut
        invariant forall k :: 0 <= k < i * 3 + j ==> cut[k] == CutoffAt(cum[..], k / 3, k % 3)
      {
        var d := if j == 2 then 0.0 else if j == 0 then delta else -delta;
        cut[i * 3 + j] := cum[i + (if j == 0 then 0 else 1)] + d;
        assert (i * 3 + j) / 3 == i && (i * 3 + j) % 3 == j;
      }
    }
  }

  /** The coefficient loop: one fillet cubic per corner. */
  method FillCoeffs(f: Frame) returns (coef: array<Cubic3>)
    requires FrameValid(f)
    ensures fresh(coef) && coef.Length == 3
    ensures forall k :: 0 <= k < 3 ==> coef[k] == Corner(f, k)
  {
    coef := new Cubic3[3](_ => Cubic3(0.0, 0.0, 0.0, 0.0));
    for i := 0 to 3
      invariant forall k :: 0 <= k < i ==> coef[k] == Corner(f, k)
    {
      var j := (i + 1) % 3;
      var v1 := f.radii[i * 2 + 1];
      var v2 := f.radii[j * 2];
      var m1 := f.dRadii[i * 2 + 1] * FilletFrac * f.angles[i];
      var m2 := f.dRadii[j * 2] * FilletFrac * f.angles[j];
      coef[i] := Hermite(v1, v2, m1, m2);
    }
  }

  // ----- the two canonical patches -----

  const Red: Vec3 := Vec3(0.0, 0.0, 1.0)
  const Green: Vec3 := Vec3(1.0, 0.0, 0.0)

  /** The blue vertex (cos(π/N), sin(π/N), 0) of the N-fold cyclic patch, with
      the cosine and sine written exactly. */
  function CyclicBlue(order: nat, k2: real, k3: real): Vec3
    requires order == 2 || order == 3 || order == 4 || order == 6
  {
    match order
    case 2 => Vec3(0.0, 1.0, 0.0)
    case 3 => Vec3(0.5, k3 / 2.0, 0.0)
    case 4 => Vec3(k2 / 2.0, k2 / 2.0, 0.0)
    case 6 => Vec3(k3 / 2.0, 0.5, 0.0)
  }

  /** The N-fold patch has determinant sin(π/N), which passes the hemisphere
      test, and its blue vertex is a unit vector. */
  lemma CyclicDet(order: nat, k2: real, k3: real)
    requires order == 2 || order == 3 || order == 4 || order == 6
    requires IsSqrt2(k2) && IsSqrt3(k3)
    ensures Det(Red, Green, CyclicBlue(order, k2, k3)) == CyclicBlue(order, k2, k3).y
    ensures Det(Red, Green, CyclicBlue(order, k2, k3)) >= Epsilon
    ensures PlanarNorm2(CyclicBlue(order, k2, k3)) == 1.0
  {
    var b := CyclicBlue(order, k2, k3);
    assert (k3 / 2.0) * (k3 / 2.0) == 0.75;
    assert (k2 / 2.0) * (k2 / 2.0) == 0.5;
    if order == 3 {
      SquareOrder(1.0, k3);
    } else if order == 4 {
      SquareOrder(1.0, k2);
    }
  }

  /** The cubic patch: [001], [101]/√2 and [111]/√3. */
  function CubicGreen(k2: real): Vec3
    requires IsSqrt2(k2)
  {
    Vec3(1.0 / k2, 0.0, 1.0 / k2)
  }

  function CubicBlue(k3: real): Vec3
    requires IsSqrt3(k3)
  {
    Vec3(1.0 / k3, 1.0 / k3, 1.0 / k3)
  }

  /** The cubic patch has determinant r2 r3 = 1/√6, above 1/4. */
  lemma CubicDet(k2: real, k3: real)
    requires IsSqrt2(k2) && IsSqrt3(k3)
    ensures Det(Red, CubicGreen(k2), CubicBlue(k3)) == (1.0 / k2) * (1.0 / k3)
    ensures Det(Red, CubicGreen(k2), CubicBlue(k3)) > 0.25
  {
    var r := (1.0 / k2) * (1.0 / k3);
    assert r * (k2 * k3) == 1.0;
    assert (k2 * k3) * (k2 * k3) == 6.0;
    SquareOrder(k2 * k3, 4.0);
    assert r * 4.0 > r * (k2 * k3);
    assert r > 0.25;
  }

  /** For non-negative reals the order of the squares is the order of the
      numbers. */
  lemma SquareOrder(a: real, b: real)
    requires a >= 0.0 && b >= 0.0
    ensures a * a < b * b <==> a < b
  {
    assert b * b - a * a == (b - a) * (b + a);
    if a < b {
      MulPos(b - a, b + a);
    } else {
      MulNonNeg(a - b, a + b);
    }
  }

  lemma MulPos(a: real, b: real)
    requires a > 0.0 && b > 0.0
    ensures a * b > 0.0
  {
  }

  lemma MulNonNeg(a: real, b: real)
    requires a >= 0.0 && b >= 0.0
    ensures a * b >= 0.0
  {
  }

  /** Cyclic<N>(): the N-fold patch, which never throws. */
  method CyclicPatch(order: nat, k2: real, k3: real, f: Frame) returns (p: Patch)
    requires order == 2 || order == 3 || order == 4 || order == 6
    requires IsSqrt2(k2) && IsSqrt3(k3) && FrameValid(f)
    ensures Build(Red, Green, CyclicBlue(order, k2, k3), f) == Success(p)
    ensures PatchValid(p)
  {
    CyclicDet(order, k2, k3);
    BuildSpec(Red, Green, CyclicBlue(order, k2, k3), f);
    var r := Construct(Red, Green, CyclicBlue(order, k2, k3), f);
    p := r.value;
  }

  /** Cubic(): the cubic patch, which never throws. */
  method CubicPatch(k2: real, k3: real, f: Frame) returns (p: Patch)
    requires IsSqrt2(k2) && IsSqrt3(k3) && FrameValid(f)
    ensures Build(Red, CubicGreen(k2), CubicBlue(k3), f) == Success(p)
    ensures PatchValid(p)
  {
    CubicDet(k2, k3);
    BuildSpec(Red, CubicGreen(k2), CubicBlue(k3), f);
    var r := Construct(Red, CubicGreen(k2), CubicBlue(k3), f);
    p := r.value;
  }

  // ----- from a direction to hemisphere coordinates -----

  /** std::lower_bound: the first index whose element is not below x. */
  function LowerBound(s: seq<real>, x: real): (k: nat)
    ensures k <= |s|
    ensures forall i :: 0 <= i < k ==> s[i] < x
    ensures k < |s| ==> s[k] >= x
  {
    if |s| == 0 || s[0] >= x then 0 else 1 + LowerBound(s[1..], x)
  }

  /** On a sorted sequence the first index not below x is the partition
      point: everything from there on is not below x either. */
  lemma LowerBoundPartition(s: seq<real>, x: real)
    requires forall a, b :: 0 <= a <= b < |s| ==> s[a] <= s[b]
    ensures forall i :: LowerBound(s, x) <= i < |s| ==> s[i] >= x
  {
  }

  /** The numerics the model does not compute: std::atan2, std::acos and
      normalisation of a vector, with the ranges the library promises. */
  datatype Trig = Trig(atan2: (real, real) -> real, acos: real -> real, normalize: Vec3 -> Vec3)

  ghost predicate TrigValid(t: Trig) {
    (forall a, b :: -Pi <= t.atan2(a, b) <= Pi) && (forall a :: 0.0 <= t.acos(a) <= Pi)
  }

  /** The azimuth of n about the patch centre, measured from red and wrapped
      into [0, 2π). */
  function Azimuth(p: Patch, t: Trig, n: Vec3): real {
    var v := Sub(n, p.center);
    var angle := t.atan2(Dot(p.ry, v), Dot(p.rx, v));
    if angle < 0.0 then angle + Pi * 2.0 else angle
  }

  /** The region of the azimuth among the nine cutoffs. */
  function Region(p: Patch, t: Trig, n: Vec3): nat {
    LowerBound(p.cutoffs, Azimuth(p, t, n))
  }

  /** The arc from the centre to edge i along the great circle through n. */
  function EdgeArc(p: Patch, t: Trig, n: Vec3, i: nat): real
    requires i < |p.normals|
  {
    t.acos(Dot(t.normalize(Cross(p.normals[i], Cross(n, p.center))), p.center))
  }

  /** What fundToHemi needs of its direction (it documents undefined
      behaviour outside the sector): the azimuth is at most the last cutoff,
      and in a linear region the edge is a positive arc away. */
  predicate InPatch(p: Patch, t: Trig, n: Vec3)
    requires PatchValid(p)
  {
    var idx := Region(p, t, n);
    idx < 9 && (idx % 3 == 1 ==> EdgeArc(p, t, n, idx / 3) > 0.0)
  }

  datatype HemiCoord = HemiCoord(theta: real, phi: real)

  /** The fillet parameter in the first fillet of vertex sector i. */
  function FirstX(p: Patch, angle: real, i: nat): real
    requires PatchValid(p) && i < 3
  {
    (angle - p.cumAngles[i]) / (p.cutoffs[i * 3] - p.cumAngles[i])
  }

  /** The fillet parameter in the second fillet of vertex sector i. */
  function SecondX(p: Patch, angle: real, i: nat): real
    requires PatchValid(p) && i < 3
  {
    -(angle - p.cumAngles[i + 1]) / (p.cutoffs[i * 3 + 1] - p.cumAngles[i + 1])
  }

  /** Normalising phi by twice the fillet radius, clipped at 1/2: the result
      lies in (0, 1/2]. */
  function Clip(phi: real, den: real): (r: real)
    requires phi > 0.0
    ensures 0.0 < r <= 0.5
  {
    ClipBounds(phi, den);
    phi / (Max(phi, den) * 2.0)
  }

  /** The fractional polar angle fundToHemi writes: the polar angle itself
      near the centre, its share of the arc to the edge in a linear region,
      and its share of the fillet radius, clipped, in a fillet. */
  function HemiPhi(p: Patch, t: Trig, n: Vec3): real
    requires PatchValid(p) && InPatch(p, t, n)
  {
    var phi := t.acos(Dot(n, p.center));
    if phi < Epsilon then phi else Scaled(p, t, n, Azimuth(p, t, n), Region(p, t, n), phi)
  }

  /** The polar angle phi, away from the centre, scaled in region idx at
      azimuth angle. */
  function Scaled(p: Patch, t: Trig, n: Vec3, angle: real, idx: nat, phi: real): real
    requires PatchValid(p) && idx < 9 && phi > 0.0
    requires idx % 3 == 1 ==> EdgeArc(p, t, n, idx / 3) > 0.0
  {
    var i := idx / 3;
    if idx - i * 3 == 1 then phi / (EdgeArc(p, t, n, i) * 2.0)
    else if idx - i * 3 == 0 then Clip(phi, Eval(p.coeffs[(i + 3 - 1) % 3], FirstX(p, angle, i)))
    else Clip(phi, Eval(p.coeffs[i], SecondX(p, angle, i)))
  }

  /** The fractional azimuth and fractional polar angle fundToHemi writes. */
  function Hemi(p: Patch, t: Trig, n: Vec3): HemiCoord
    requires PatchValid(p) && InPatch(p, t, n)
  {
    HemiCoord(Azimuth(p, t, n) / (Pi * 2.0), HemiPhi(p, t, n))
  }

  /** fundToHemi, writing its two out-parameters. */
  method FundToHemi(p: Patch, t: Trig, n: Vec3) returns (theta: real, phi: real)
    requires PatchValid(p) && InPatch(p, t, n)
    ensures HemiCoord(theta, phi) == Hemi(p, t, n)
  {
    var v := Sub(n, p.center);
    var angle := t.atan2(Dot(p.ry, v), Dot(p.rx, v));
    if angle < 0.0 {
      angle := angle + Pi * 2.0;
    }
    theta := angle / (Pi * 2.0);
    var idx := LowerBound(p.cutoffs, angle);
    phi := t.acos(Dot(n, p.center));
    if phi >= Epsilon {
      assert angle == Azimuth(p, t, n) && idx == Region(p, t, n);
      phi := ScalePhi(p, t, n, angle, idx, phi);
    }
  }

  /** The part of fundToHemi after the early return for a direction at the
      centre: the polar angle scaled by the region's radius. */
  method ScalePhi(p: Patch, t: Trig, n: Vec3, angle: real, idx: nat, phi0: real) returns (phi: real)
    requires PatchValid(p) && idx < 9 && phi0 > 0.0
    requires idx % 3 == 1 ==> EdgeArc(p, t, n, idx / 3) > 0.0
    ensures phi == Scaled(p, t, n, angle, idx, phi0)
  {
    var i := idx / 3;
    var region := idx - i * 3;
    if region == 1 {
      phi := phi0 / (EdgeArc(p, t, n, i) * 2.0);
    } else if region == 0 {
      var x := (angle - p.cumAngles[i]) / (p.cutoffs[idx] - p.cumAngles[i]);
      assert x == FirstX(p, angle, i);
      var den := Eval(p.coeffs[(i + 3 - 1) % 3], x);
      phi := Clip(phi0, den);
    } else {
      var x := -(angle - p.cumAngles[i + 1]) / (p.cutoffs[idx - 1] - p.cumAngles[i + 1]);
      assert x == SecondX(p, angle, i);
      var den := Eval(p.coeffs[i], x);
      phi := Clip(phi0, den);
    }
  }

  /** The wrapped azimuth is below 2π, so when the last cumulative angle
      reaches 2π the region is always one of the nine. */
  lemma RegionInRange(p: Patch, t: Trig, n: Vec3)
    requires PatchValid(p) && TrigValid(t) && p.cumAngles[3] >= Pi * 2.0
    ensures 0.0 <= Azimuth(p, t, n) < Pi * 2.0
    ensures Region(p, t, n) < 9
  {
    var v := Sub(n, p.center);
    var raw := t.atan2(Dot(p.ry, v), Dot(p.rx, v));
    assert -Pi <= raw <= Pi;
    assert p.cutoffs[8] == p.cumAngles[3];
  }

  /** The bounds of fundToHemi: the fractional azimuth lies in [0, 1); a
      polar angle below epsilon is returned as it is; in either fillet the
      fractional polar angle is clipped into (0, 1/2]. */
  lemma HemiBounds(p: Patch, t: Trig, n: Vec3)
    requires PatchValid(p) && TrigValid(t) && InPatch(p, t, n)
    ensures 0.0 <= Hemi(p, t, n).theta < 1.0
    ensures t.acos(Dot(n, p.center)) < Epsilon ==> Hemi(p, t, n).phi == t.acos(Dot(n, p.center))
    ensures t.acos(Dot(n, p.center)) >= Epsilon && Region(p, t, n) % 3 != 1 ==>
      0.0 < Hemi(p, t, n).phi <= 0.5
  {
    var v := Sub(n, p.center);
    var raw := t.atan2(Dot(p.ry, v), Dot(p.rx, v));
    assert -Pi <= raw <= Pi;
  }

  /** phi / (2 max(phi, den)) lies in (0, 1/2] for positive phi. */
  lemma ClipBounds(phi: real, den: real)
    requires phi > 0.0
    ensures 0.0 < phi / (Max(phi, den) * 2.0) <= 0.5
  {
    var m := Max(phi, den) * 2.0;
    assert m >= phi * 2.0;
    assert phi / m <= 0.5 by {
      assert phi / m * m == phi;
    }
  }

  /** The fillet parameter in a first fillet runs over [0, 1] from the
      vertex to the linear region, so the fillet cubic is evaluated only
      between the two transitions it was fitted to. */
  lemma FirstFilletParameter(p: Patch, t: Trig, n: Vec3)
    requires PatchValid(p) && TrigValid(t) && InPatch(p, t, n)
    requires Region(p, t, n) % 3 == 0
    ensures 0.0 <= FirstX(p, Azimuth(p, t, n), Region(p, t, n) / 3) <= 1.0
  {
    var v := Sub(n, p.center);
    var raw := t.atan2(Dot(p.ry, v), Dot(p.rx, v));
    assert -Pi <= raw <= Pi;
    var idx := Region(p, t, n);
    var a := Azimuth(p, t, n);
    var i := idx / 3;
    var c := p.cumAngles;
    assert p.cutoffs[idx] == c[i] + FilletDelta;
    if i > 0 {
      assert p.cutoffs[idx - 1] == c[i];
    }
    assert 0.0 <= a - c[i] <= FilletDelta;
    FractionBounds(a - c[i], FilletDelta);
  }

  /** The fillet parameter in a second fillet runs over (-1, 0] from the
      linear region to the vertex. */
  lemma SecondFilletParameter(p: Patch, t: Trig, n: Vec3)
    requires PatchValid(p) && TrigValid(t) && InPatch(p, t, n)
    requires Region(p, t, n) % 3 == 2
    ensures -1.0 < SecondX(p, Azimuth(p, t, n), Region(p, t, n) / 3) <= 0.0
  {
    var idx := Region(p, t, n);
    var a := Azimuth(p, t, n);
    var i := idx / 3;
    var c := p.cumAngles;
    assert p.cutoffs[idx - 1] == c[i + 1] - FilletDelta;
    assert p.cutoffs[idx] == c[i + 1];
    assert -FilletDelta < a - c[i + 1] <= 0.0;
    FractionBounds(c[i + 1] - a, FilletDelta);
    assert SecondX(p, a, i) == -((c[i + 1] - a) / FilletDelta);
  }

  /** 0 <= a <= d gives a / d in [0, 1], strictly below 1 when a < d. */
  lemma FractionBounds(a: real, d: real)
    requires 0.0 <= a <= d && d > 0.0
    ensures 0.0 <= a / d <= 1.0
    ensures a < d ==> a / d < 1.0
  {
    assert a / d * d == a;
  }

  // ----- the colour -----

  datatype Rgb = Rgb(r: real, g: real, b: real)

  /** The external six-colour bicone map: fractional azimuth, fractional
      radius and whether the sector boundary is a mirror. */
  type SixBi = (real, real, bool) -> Rgb

  /** fundToIpf: the radius handed to the colour map is 1 - phi for a white
      centre and phi for a black one. */
  function Ipf(p: Patch, t: Trig, six: SixBi, n: Vec3, whiteCenter: bool, hasMirror: bool): Rgb
    requires PatchValid(p) && InPatch(p, t, n)
  {
    var h := Hemi(p, t, n);
    six(h.theta, if whiteCenter then 1.0 - h.phi else h.phi, hasMirror)
  }

  method FundToIpf(p: Patch, t: Trig, six: SixBi, n: Vec3, whiteCenter: bool, hasMirror: bool)
    returns (rgb: Rgb)
    requires PatchValid(p) && InPatch(p, t, n)
    ensures rgb == Ipf(p, t, six, n, whiteCenter, hasMirror)
  {
    var theta, phi := FundToHemi(p, t, n);
    rgb := six(theta, if whiteCenter then 1.0 - phi else phi, hasMirror);
  }

  /** The polarity choice of fundToIpf: in a fillet, away from the centre,
      a white centre puts the radius in [1/2, 1) and a black centre in
      (0, 1/2], so the two polarities never meet. */
  lemma PolarityRadius(p: Patch, t: Trig, n: Vec3, whiteCenter: bool)
    requires PatchValid(p) && TrigValid(t) && InPatch(p, t, n)
    requires t.acos(Dot(n, p.center)) >= Epsilon && Region(p, t, n) % 3 != 1
    ensures var phi := Hemi(p, t, n).phi; var radius := if whiteCenter then 1.0 - phi else phi;
      whiteCenter ==> 0.5 <= radius < 1.0
    ensures var phi := Hemi(p, t, n).phi; var radius := if whiteCenter then 1.0 - phi else phi;
      !whiteCenter ==> 0.0 < radius <= 0.5
  {
    HemiBounds(p, t, n);
  }
}
