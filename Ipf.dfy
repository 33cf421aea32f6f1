/** The inverse pole figure colourings of the eleven Laue groups. Each entry
    point copies the direction into a local buffer, moves it into the
    fundamental sector with the in-place reduction, and colours it with the
    group's triangular patch; the triclinic group colours the whole northern
    hemisphere with the spherical map instead. The patches are built once
    (the source keeps them in function-local statics) and live in an `Env`
    together with the external colour maps. */
module Ipf {
  import opened Vector
  import Symmetry
  import Detail
  import opened Triangle

  /** The colour map for a whole sphere (fractional azimuth, fractional polar
      angle), used by the triclinic group with its polar symmetry. */
  type SphereMap = (real, real) -> Rgb

  /** What the entry points share: √2 and √3, the 2-, 3-, 4- and 6-fold
      patches, the cubic patch, the numerics and the colour maps. */
  datatype Env = Env(k2: real, k3: real,
                     c2: Patch, c3: Patch, c4: Patch, c6: Patch, cubic: Patch,
                     t: Trig, six: SixBi, sphere: SphereMap)

  ghost predicate EnvValid(e: Env) {
    IsSqrt2(e.k2) && IsSqrt3(e.k3) && TrigValid(e.t)
    && PatchValid(e.c2) && PatchValid(e.c3) && PatchValid(e.c4) && PatchValid(e.c6)
    && PatchValid(e.cubic)
  }

  /** The frames the five patches are built from. */
  datatype Frames = Frames(f2: Frame, f3: Frame, f4: Frame, f6: Frame, fc: Frame)

  predicate FramesValid(fs: Frames) {
    FrameValid(fs.f2) && FrameValid(fs.f3) && FrameValid(fs.f4) && FrameValid(fs.f6)
    && FrameValid(fs.fc)
  }

  /** Build the five static patches: Cyclic<2>, <3>, <4>, <6> and Cubic(). */
  method NewEnv(k2: real, k3: real, fs: Frames, t: Trig, six: SixBi, sphere: SphereMap)
    returns (e: Env)
    requires IsSqrt2(k2) && IsSqrt3(k3) && TrigValid(t) && FramesValid(fs)
    ensures EnvValid(e) && e.k2 == k2 && e.k3 == k3
    ensures e.t == t && e.six == six && e.sphere == sphere
    ensures Build(Red, Green, CyclicBlue(2, k2, k3), fs.f2) == Success(e.c2)
    ensures Build(Red, Green, CyclicBlue(3, k2, k3), fs.f3) == Success(e.c3)
    ensures Build(Red, Green, CyclicBlue(4, k2, k3), fs.f4) == Success(e.c4)
    ensures Build(Red, Green, CyclicBlue(6, k2, k3), fs.f6) == Success(e.c6)
    ensures Build(Red, CubicGreen(k2), CubicBlue(k3), fs.fc) == Success(e.cubic)
  {
    var c2 := CyclicPatch(2, k2, k3, fs.f2);
    var c3 := CyclicPatch(3, k2, k3, fs.f3);
    var c4 := CyclicPatch(4, k2, k3, fs.f4);
    var c6 := CyclicPatch(6, k2, k3, fs.f6);
    var cubic := CubicPatch(k2, k3, fs.fc);
    e := Env(k2, k3, c2, c3, c4, c6, cubic, t, six, sphere);
  }

  /** Copy a direction into a fresh three-element buffer. */
  method Copy(n: Vec3) returns (b: array<real>)
    ensures fresh(b) && b.Length == 3 && Detail.Of(b) == n
  {
    b := new real[3];
    b[0], b[1], b[2] := n.x, n.y, n.z;
  }

  // ----- -1: the whole northern hemisphere -----

  /** The spherical coordinates of the triclinic colouring: the azimuth of
      the northern direction as a fraction of a turn, wrapped into [0, 1),
      and the polar angle as a fraction of π. */
  function TriclinicCoord(e: Env, n: Vec3): HemiCoord {
    var b := Symmetry.Bar1(n);
    var theta := e.t.atan2(b.y, b.x) / (Pi * 2.0);
    HemiCoord(if theta < 0.0 then theta + 1.0 else theta, e.t.acos(b.z) / Pi)
  }

  function TriclinicColor(e: Env, n: Vec3): Rgb {
    var h := TriclinicCoord(e, n);
    e.sphere(h.theta, h.phi)
  }

  method Triclinic(e: Env, n: Vec3) returns (rgb: Rgb)
    ensures rgb == TriclinicColor(e, n)
  {
    var nFS := Copy(n);
    Detail.Bar1(nFS);
    var theta := e.t.atan2(nFS[1], nFS[0]) / (Pi * 2.0);
    if theta < 0.0 {
      theta := theta + 1.0;
    }
    var phi := e.t.acos(nFS[2]) / Pi;
    rgb := e.sphere(theta, phi);
  }

  /** The triclinic coordinates lie in [0, 1) x [0, 1]. */
  lemma TriclinicBounds(e: Env, n: Vec3)
    requires TrigValid(e.t)
    ensures 0.0 <= TriclinicCoord(e, n).theta < 1.0
    ensures 0.0 <= TriclinicCoord(e, n).phi <= 1.0
  {
    var b := Symmetry.Bar1(n);
    var raw := e.t.atan2(b.y, b.x);
    assert -Pi <= raw <= Pi;
    var a := e.t.acos(b.z);
    assert 0.0 <= a <= Pi;
    FractionBounds(a, Pi);
    if raw < 0.0 {
      FractionBounds(-raw, Pi * 2.0);
    } else {
      FractionBounds(raw, Pi * 2.0);
    }
  }

  /** A direction off the equator and its inverse get the same colour. */
  lemma TriclinicInversion(e: Env, n: Vec3)
    requires n.z != 0.0
    ensures TriclinicColor(e, Neg(n)) == TriclinicColor(e, n)
  {
    assert Symmetry.Bar1(Neg(n)) == Symmetry.Bar1(n);
  }

  // ----- 2/m and mmm: the 2-fold patch -----

  /** Whether the reduced direction is one the patch can colour. */
  predicate Colorable(p: Patch, t: Trig, v: Vec3) {
    PatchValid(p) && InPatch(p, t, v)
  }

  function MonoclinicColor(e: Env, n: Vec3): Rgb
    requires Colorable(e.c2, e.t, Symmetry.Orthorhombic(n).v)
  {
    var r := Symmetry.Orthorhombic(n);
    Ipf(e.c2, e.t, e.six, r.v, !r.mirrored, false)
  }

  method Monoclinic(e: Env, n: Vec3) returns (rgb: Rgb)
    requires Colorable(e.c2, e.t, Symmetry.Orthorhombic(n).v)
    ensures rgb == MonoclinicColor(e, n)
  {
    var nFS := Copy(n);
    var mirrored := Detail.Orthorhombic(nFS);
    rgb := FundToIpf(e.c2, e.t, e.six, Detail.Of(nFS), !mirrored, false);
  }

  function OrthorhombicColor(e: Env, n: Vec3): Rgb
    requires Colorable(e.c2, e.t, Symmetry.Orthorhombic(n).v)
  {
    Ipf(e.c2, e.t, e.six, Symmetry.Orthorhombic(n).v, true, true)
  }

  method Orthorhombic(e: Env, n: Vec3) returns (rgb: Rgb)
    requires Colorable(e.c2, e.t, Symmetry.Orthorhombic(n).v)
    ensures rgb == OrthorhombicColor(e, n)
  {
    var nFS := Copy(n);
    var _ := Detail.Orthorhombic(nFS);
    rgb := FundToIpf(e.c2, e.t, e.six, Detail.Of(nFS), true, true);
  }

  /** In 2/m a direction of the first octant and its x mirror are told
      apart: the first gets the white-centre colour, the second the
      black-centre colour of the same point of the patch. */
  lemma MonoclinicMirrorPair(e: Env, n: Vec3)
    requires n.x > 0.0 && n.y >= 0.0 && n.z >= 0.0
    requires Colorable(e.c2, e.t, n)
    ensures MonoclinicColor(e, n) == Ipf(e.c2, e.t, e.six, n, true, false)
    ensures MonoclinicColor(e, Symmetry.MirrorX(n)) == Ipf(e.c2, e.t, e.six, n, false, false)
  {
    var m := Symmetry.MirrorX(n);
    assert m == Vec3(-n.x, n.y, n.z);
    assert Symmetry.Orthorhombic(m) == Symmetry.Folded(n, true);
  }

  /** 2/m gives a direction, its 2-fold turn about z and its inverse the
      same colour, away from the plane y = 0 where the reduction's sign
      tests break the tie (the inverse also on that plane, off the
      equator). */
  lemma MonoclinicColorInvariant(e: Env, n: Vec3)
    requires Colorable(e.c2, e.t, Symmetry.Orthorhombic(n).v)
    ensures n.y != 0.0 ==>
      Colorable(e.c2, e.t, Symmetry.Orthorhombic(Rot90(n, 2)).v)
      && MonoclinicColor(e, Rot90(n, 2)) == MonoclinicColor(e, n)
    ensures n.z != 0.0 || n.y != 0.0 ==>
      Colorable(e.c2, e.t, Symmetry.Orthorhombic(Neg(n)).v)
      && MonoclinicColor(e, Neg(n)) == MonoclinicColor(e, n)
  {
    Symmetry.Orthorhombic2mInvariant(n);
  }

  /** mmm gives every direction related by sign changes the same colour. */
  lemma OrthorhombicColorInvariant(e: Env, g: AxisOp, n: Vec3)
    requires g.perm == XYZ
    requires Colorable(e.c2, e.t, Symmetry.Orthorhombic(n).v)
    ensures Colorable(e.c2, e.t, Symmetry.Orthorhombic(Apply(g, n)).v)
    ensures OrthorhombicColor(e, Apply(g, n)) == OrthorhombicColor(e, n)
  {
    Symmetry.OrthorhombicInvariant(g, n);
  }

  // ----- 4/m and 4/mmm: the 4-fold patch -----

  function TetragonalLowColor(e: Env, n: Vec3): Rgb
    requires Colorable(e.c4, e.t, Symmetry.Tetragonal(n).v)
  {
    var r := Symmetry.Tetragonal(n);
    Ipf(e.c4, e.t, e.six, r.v, !r.mirrored, false)
  }

  method TetragonalLow(e: Env, n: Vec3) returns (rgb: Rgb)
    requires Colorable(e.c4, e.t, Symmetry.Tetragonal(n).v)
    ensures rgb == TetragonalLowColor(e, n)
  {
    var nFS := Copy(n);
    var mirrored := Detail.Tetragonal(nFS);
    rgb := FundToIpf(e.c4, e.t, e.six, Detail.Of(nFS), !mirrored, false);
  }

  function TetragonalHighColor(e: Env, n: Vec3): Rgb
    requires Colorable(e.c4, e.t, Symmetry.Tetragonal(n).v)
  {
    Ipf(e.c4, e.t, e.six, Symmetry.Tetragonal(n).v, true, true)
  }

  method TetragonalHigh(e: Env, n: Vec3) returns (rgb: Rgb)
    requires Colorable(e.c4, e.t, Symmetry.Tetragonal(n).v)
    ensures rgb == TetragonalHighColor(e, n)
  {
    var nFS := Copy(n);
    var _ := Detail.Tetragonal(nFS);
    rgb := FundToIpf(e.c4, e.t, e.six, Detail.Of(nFS), true, true);
  }

  /** In 4/m a direction strictly inside the eighth-octant sector and its
      x=y mirror get the white- and black-centre colours of the same point. */
  lemma TetragonalMirrorPair(e: Env, n: Vec3)
    requires n.x > n.y >= 0.0 && n.z >= 0.0
    requires Colorable(e.c4, e.t, n)
    ensures TetragonalLowColor(e, n) == Ipf(e.c4, e.t, e.six, n, true, false)
    ensures TetragonalLowColor(e, Symmetry.Swap(n)) == Ipf(e.c4, e.t, e.six, n, false, false)
  {
    var m := Symmetry.Swap(n);
    assert m == Vec3(n.y, n.x, n.z);
    assert Symmetry.Tetragonal(n) == Symmetry.Folded(n, false);
    assert Symmetry.Tetragonal(m) == Symmetry.Folded(n, true);
  }

  /** 4/m gives a direction, its quarter turn about z and its inverse the
      same colour, away from the planes x = 0 and y = 0 (the inverse also
      on them, off the equator). */
  lemma TetragonalLowColorInvariant(e: Env, n: Vec3)
    requires Colorable(e.c4, e.t, Symmetry.Tetragonal(n).v)
    ensures n.x != 0.0 && n.y != 0.0 ==>
      Colorable(e.c4, e.t, Symmetry.Tetragonal(Rot90(n, 1)).v)
      && TetragonalLowColor(e, Rot90(n, 1)) == TetragonalLowColor(e, n)
    ensures n.z != 0.0 || (n.x != 0.0 && n.y != 0.0) ==>
      Colorable(e.c4, e.t, Symmetry.Tetragonal(Neg(n)).v)
      && TetragonalLowColor(e, Neg(n)) == TetragonalLowColor(e, n)
  {
    Symmetry.Tetragonal4mInvariant(n);
  }

  /** 4/mmm gives every direction related by sign changes and the x/y swap
      the same colour. */
  lemma TetragonalColorInvariant(e: Env, g: AxisOp, n: Vec3)
    requires g.perm == XYZ || g.perm == YXZ
    requires Colorable(e.c4, e.t, Symmetry.Tetragonal(n).v)
    ensures Colorable(e.c4, e.t, Symmetry.Tetragonal(Apply(g, n)).v)
    ensures TetragonalHighColor(e, Apply(g, n)) == TetragonalHighColor(e, n)
  {
    Symmetry.TetragonalInvariant(g, n);
  }

  // ----- -3 and -3m -----

  /** -3 with the jump-free colouring: the black-centre half of the map is
      folded onto the whole radius, so mirrored directions share a colour. */
  function TrigonalLowColor(e: Env, n: Vec3, jumpFree: bool): Rgb
    requires Colorable(e.c3, e.t, Symmetry.Trigonal(n, e.k3).v)
  {
    var r := Symmetry.Trigonal(n, e.k3);
    if jumpFree then
      var h := Hemi(e.c3, e.t, r.v);
      e.six(h.theta, 1.0 - h.phi * 2.0, false)
    else Ipf(e.c3, e.t, e.six, r.v, !r.mirrored, false)
  }

  method TrigonalLow(e: Env, n: Vec3, jumpFree: bool) returns (rgb: Rgb)
    requires Colorable(e.c3, e.t, Symmetry.Trigonal(n, e.k3).v)
    ensures rgb == TrigonalLowColor(e, n, jumpFree)
  {
    var nFS := Copy(n);
    var mirrored := Detail.Trigonal(nFS, e.k3);
    if jumpFree {
      var theta, phi := FundToHemi(e.c3, e.t, Detail.Of(nFS));
      rgb := e.six(theta, 1.0 - phi * 2.0, false);
    } else {
      rgb := FundToIpf(e.c3, e.t, e.six, Detail.Of(nFS), !mirrored, false);
    }
  }

  /** -3 gives a direction, its 3-fold turn about z and its inverse the
      same colour, with or without jumps: the turn off the three vertical
      planes at 0, 60 and 120 degrees, the inverse off the equator. */
  lemma TrigonalLowColorInvariant(e: Env, n: Vec3, jumpFree: bool)
    requires EnvValid(e) && Colorable(e.c3, e.t, Symmetry.Trigonal(n, e.k3).v)
    ensures Symmetry.OffHexLines(n, e.k3) ==>
      Colorable(e.c3, e.t, Symmetry.Trigonal(Rot60(n, 2, e.k3), e.k3).v)
      && TrigonalLowColor(e, Rot60(n, 2, e.k3), jumpFree) == TrigonalLowColor(e, n, jumpFree)
    ensures n.z != 0.0 ==>
      Colorable(e.c3, e.t, Symmetry.Trigonal(Neg(n), e.k3).v)
      && TrigonalLowColor(e, Neg(n), jumpFree) == TrigonalLowColor(e, n, jumpFree)
  {
    Symmetry.Trigonal3barInvariant(n, e.k3);
  }

  /** The jump-free -3 colouring does not use the mirror flag, so it also
      gives a direction and its 60-degree mirror image the same colour
      (which is why it is ambiguous: the mirror is not in -3). */
  lemma TrigonalJumpFree(e: Env, n: Vec3)
    requires EnvValid(e) && Symmetry.OffHexLines(n, e.k3)
    requires Colorable(e.c3, e.t, Symmetry.Trigonal(n, e.k3).v)
    ensures Colorable(e.c3, e.t, Symmetry.Trigonal(Symmetry.Mirror60(n, e.k3), e.k3).v)
    ensures TrigonalLowColor(e, Symmetry.Mirror60(n, e.k3), true) == TrigonalLowColor(e, n, true)
  {
    Symmetry.TrigonalMirrorInvariant(n, e.k3);
  }

  /** In the fillets of the jump-free -3 colouring the radius lies in
      [0, 1). */
  lemma TrigonalJumpFreeRadius(e: Env, n: Vec3)
    requires EnvValid(e)
    requires Colorable(e.c3, e.t, Symmetry.Trigonal(n, e.k3).v)
    requires var v := Symmetry.Trigonal(n, e.k3).v;
      e.t.acos(Dot(v, e.c3.center)) >= Epsilon && Region(e.c3, e.t, v) % 3 != 1
    ensures var h := Hemi(e.c3, e.t, Symmetry.Trigonal(n, e.k3).v); 0.0 <= 1.0 - h.phi * 2.0 < 1.0
  {
    HemiBounds(e.c3, e.t, Symmetry.Trigonal(n, e.k3).v);
  }

  /** -3m: trigonal, then hexagonal on the result; the 6-fold patch and the
      flag of the second reduction. */
  function TrigonalHighColor(e: Env, n: Vec3): Rgb
    requires Colorable(e.c6, e.t, Symmetry.Hexagonal(Symmetry.Trigonal(n, e.k3).v, e.k3).v)
  {
    var r := Symmetry.Hexagonal(Symmetry.Trigonal(n, e.k3).v, e.k3);
    Ipf(e.c6, e.t, e.six, r.v, !r.mirrored, true)
  }

  method TrigonalHigh(e: Env, n: Vec3) returns (rgb: Rgb)
    requires Colorable(e.c6, e.t, Symmetry.Hexagonal(Symmetry.Trigonal(n, e.k3).v, e.k3).v)
    ensures rgb == TrigonalHighColor(e, n)
  {
    var nFS := Copy(n);
    var _ := Detail.Trigonal(nFS, e.k3);
    var mirrored := Detail.Hexagonal(nFS, e.k3);
    rgb := FundToIpf(e.c6, e.t, e.six, Detail.Of(nFS), !mirrored, true);
  }

  /** -3m gives a direction, its 3-fold turn about z, its 60-degree mirror
      image and its inverse the same colour: the turn and the mirror off the
      three vertical planes at 0, 60 and 120 degrees, the inverse off the
      equator. */
  lemma TrigonalHighColorInvariant(e: Env, n: Vec3)
    requires EnvValid(e)
    requires Colorable(e.c6, e.t, Symmetry.Hexagonal(Symmetry.Trigonal(n, e.k3).v, e.k3).v)
    ensures Symmetry.OffHexLines(n, e.k3) ==>
      Colorable(e.c6, e.t, Symmetry.Hexagonal(Symmetry.Trigonal(Rot60(n, 2, e.k3), e.k3).v, e.k3).v)
      && TrigonalHighColor(e, Rot60(n, 2, e.k3)) == TrigonalHighColor(e, n)
    ensures Symmetry.OffHexLines(n, e.k3) ==>
      Colorable(e.c6, e.t, Symmetry.Hexagonal(Symmetry.Trigonal(Symmetry.Mirror60(n, e.k3), e.k3).v, e.k3).v)
      && TrigonalHighColor(e, Symmetry.Mirror60(n, e.k3)) == TrigonalHighColor(e, n)
    ensures n.z != 0.0 ==>
      Colorable(e.c6, e.t, Symmetry.Hexagonal(Symmetry.Trigonal(Neg(n), e.k3).v, e.k3).v)
      && TrigonalHighColor(e, Neg(n)) == TrigonalHighColor(e, n)
  {
    Symmetry.Trigonal3barInvariant(n, e.k3);
    if Symmetry.OffHexLines(n, e.k3) {
      Symmetry.TrigonalMirrorInvariant(n, e.k3);
    }
  }

  /** The direction -3m colours lies in the northern 0-30 degree sector the
      6-fold patch covers. */
  lemma TrigonalHighLands(e: Env, n: Vec3)
    requires EnvValid(e)
    ensures var v := Symmetry.Hexagonal(Symmetry.Trigonal(n, e.k3).v, e.k3).v;
      Symmetry.Sector30(v, e.k3) && Symmetry.Northern(v)
  {
    Symmetry.HexagonalLands(Symmetry.Trigonal(n, e.k3).v, e.k3);
  }

  // ----- 6/m and 6/mmm: the 6-fold patch -----

  function HexagonalLowColor(e: Env, n: Vec3): Rgb
    requires Colorable(e.c6, e.t, Symmetry.Hexagonal(n, e.k3).v)
  {
    var r := Symmetry.Hexagonal(n, e.k3);
    Ipf(e.c6, e.t, e.six, r.v, !r.mirrored, false)
  }

  method HexagonalLow(e: Env, n: Vec3) returns (rgb: Rgb)
    requires Colorable(e.c6, e.t, Symmetry.Hexagonal(n, e.k3).v)
    ensures rgb == HexagonalLowColor(e, n)
  {
    var nFS := Copy(n);
    var mirrored := Detail.Hexagonal(nFS, e.k3);
    rgb := FundToIpf(e.c6, e.t, e.six, Detail.Of(nFS), !mirrored, false);
  }

  function HexagonalHighColor(e: Env, n: Vec3): Rgb
    requires Colorable(e.c6, e.t, Symmetry.Hexagonal(n, e.k3).v)
  {
    Ipf(e.c6, e.t, e.six, Symmetry.Hexagonal(n, e.k3).v, true, true)
  }

  method HexagonalHigh(e: Env, n: Vec3) returns (rgb: Rgb)
    requires Colorable(e.c6, e.t, Symmetry.Hexagonal(n, e.k3).v)
    ensures rgb == HexagonalHighColor(e, n)
  {
    var nFS := Copy(n);
    var _ := Detail.Hexagonal(nFS, e.k3);
    rgb := FundToIpf(e.c6, e.t, e.six, Detail.Of(nFS), true, true);
  }

  /** 6/m gives a direction, its 6-fold turn about z and its inverse the
      same colour: the turn off the three vertical planes at 0, 60 and 120
      degrees, the inverse off the equator or off those planes. */
  lemma HexagonalLowColorInvariant(e: Env, n: Vec3)
    requires EnvValid(e) && Colorable(e.c6, e.t, Symmetry.Hexagonal(n, e.k3).v)
    ensures Symmetry.OffHexLines(n, e.k3) ==>
      Colorable(e.c6, e.t, Symmetry.Hexagonal(Rot60(n, 1, e.k3), e.k3).v)
      && HexagonalLowColor(e, Rot60(n, 1, e.k3)) == HexagonalLowColor(e, n)
    ensures n.z != 0.0 || Symmetry.OffHexLines(n, e.k3) ==>
      Colorable(e.c6, e.t, Symmetry.Hexagonal(Neg(n), e.k3).v)
      && HexagonalLowColor(e, Neg(n)) == HexagonalLowColor(e, n)
  {
    Symmetry.Hexagonal6mInvariant(n, e.k3);
  }

  /** 6/mmm gives a direction, its 6-fold turn about z, its 30-degree
      mirror image and its inverse the same colour, under the conditions of
      HexagonalLowColorInvariant. */
  lemma HexagonalHighColorInvariant(e: Env, n: Vec3)
    requires EnvValid(e) && Colorable(e.c6, e.t, Symmetry.Hexagonal(n, e.k3).v)
    ensures Symmetry.OffHexLines(n, e.k3) ==>
      Colorable(e.c6, e.t, Symmetry.Hexagonal(Rot60(n, 1, e.k3), e.k3).v)
      && HexagonalHighColor(e, Rot60(n, 1, e.k3)) == HexagonalHighColor(e, n)
    ensures Symmetry.OffHexLines(n, e.k3) ==>
      Colorable(e.c6, e.t, Symmetry.Hexagonal(Symmetry.Mirror30(n, e.k3), e.k3).v)
      && HexagonalHighColor(e, Symmetry.Mirror30(n, e.k3)) == HexagonalHighColor(e, n)
    ensures n.z != 0.0 || Symmetry.OffHexLines(n, e.k3) ==>
      Colorable(e.c6, e.t, Symmetry.Hexagonal(Neg(n), e.k3).v)
      && HexagonalHighColor(e, Neg(n)) == HexagonalHighColor(e, n)
  {
    Symmetry.Hexagonal6mInvariant(n, e.k3);
    if Symmetry.OffHexLines(n, e.k3) {
      Symmetry.HexagonalMirrorInvariant(n, e.k3);
    }
  }

  /** A direction already in the northern 0-30 degree sector is coloured
      where it is, with the white centre, by both hexagonal groups. */
  lemma HexagonalSectorColor(e: Env, n: Vec3)
    requires EnvValid(e) && Symmetry.Sector30(n, e.k3) && Symmetry.Northern(n)
    requires Colorable(e.c6, e.t, n)
    ensures Symmetry.Hexagonal(n, e.k3).v == n
    ensures HexagonalLowColor(e, n) == Ipf(e.c6, e.t, e.six, n, true, false)
    ensures HexagonalHighColor(e, n) == Ipf(e.c6, e.t, e.six, n, true, true)
  {
    Symmetry.HexagonalFixes(n, e.k3);
  }

  // ----- m-3 and m-3m: the cubic patch -----

  function CubicHighColor(e: Env, n: Vec3): Rgb
    requires Colorable(e.cubic, e.t, Symmetry.Cubic(n).v)
  {
    Ipf(e.cubic, e.t, e.six, Symmetry.Cubic(n).v, true, true)
  }

  method CubicHigh(e: Env, n: Vec3) returns (rgb: Rgb)
    requires Colorable(e.cubic, e.t, Symmetry.Cubic(n).v)
    ensures rgb == CubicHighColor(e, n)
  {
    var nFS := Copy(n);
    var _ := Detail.Cubic(nFS);
    rgb := FundToIpf(e.cubic, e.t, e.six, Detail.Of(nFS), true, true);
  }

  /** m-3 computes the mirror flag of the reduction and then colours with
      the defaults, so its colour is the m-3m colour. */
  method CubicLow(e: Env, n: Vec3) returns (rgb: Rgb)
    requires Colorable(e.cubic, e.t, Symmetry.Cubic(n).v)
    ensures rgb == CubicHighColor(e, n)
  {
    var nFS := Copy(n);
    var mirrored := Detail.Cubic(nFS);
    rgb := FundToIpf(e.cubic, e.t, e.six, Detail.Of(nFS), true, true);
  }

  /** m-3m gives every direction related by a signed axis permutation the
      same colour. */
  lemma CubicColorInvariant(e: Env, g: AxisOp, n: Vec3)
    requires Colorable(e.cubic, e.t, Symmetry.Cubic(n).v)
    ensures Colorable(e.cubic, e.t, Symmetry.Cubic(Apply(g, n)).v)
    ensures CubicHighColor(e, Apply(g, n)) == CubicHighColor(e, n)
  {
    Symmetry.CubicInvariant(g, n);
  }

  /** A direction of the standard triangle is coloured where it is. */
  lemma CubicSectorColor(e: Env, n: Vec3)
    requires Symmetry.CubicSector(n) && Colorable(e.cubic, e.t, n)
    ensures Symmetry.Cubic(n).v == n
    ensures CubicHighColor(e, n) == Ipf(e.cubic, e.t, e.six, n, true, true)
  {
    Symmetry.CubicCoset(n);
  }

  // ----- cyclic<N> and dihedral<N> -----

  predicate IsOrder(order: nat) { order == 2 || order == 3 || order == 4 || order == 6 }

  /** Whether the N-fold cyclic group can colour n. */
  predicate CyclicColorable(e: Env, order: nat, n: Vec3)
    requires IsOrder(order)
  {
    match order
    case 2 => Colorable(e.c2, e.t, Symmetry.Orthorhombic(n).v)
    case 3 => Colorable(e.c3, e.t, Symmetry.Trigonal(n, e.k3).v)
    case 4 => Colorable(e.c4, e.t, Symmetry.Tetragonal(n).v)
    case 6 => Colorable(e.c6, e.t, Symmetry.Hexagonal(n, e.k3).v)
  }

  /** The Laue group of the N-fold cyclic group: 2/m, -3 (jump free), 4/m or
      6/m. */
  function CyclicColor(e: Env, order: nat, n: Vec3): Rgb
    requires IsOrder(order) && CyclicColorable(e, order, n)
  {
    match order
    case 2 => MonoclinicColor(e, n)
    case 3 => TrigonalLowColor(e, n, true)
    case 4 => TetragonalLowColor(e, n)
    case 6 => HexagonalLowColor(e, n)
  }

  method Cyclic(e: Env, order: nat, n: Vec3) returns (rgb: Rgb)
    requires IsOrder(order) && CyclicColorable(e, order, n)
    ensures rgb == CyclicColor(e, order, n)
  {
    match order
    case 2 => rgb := Monoclinic(e, n);
    case 3 => rgb := TrigonalLow(e, n, true);
    case 4 => rgb := TetragonalLow(e, n);
    case 6 => rgb := HexagonalLow(e, n);
  }

  /** Whether the N-fold dihedral group can colour n. */
  predicate DihedralColorable(e: Env, order: nat, n: Vec3)
    requires IsOrder(order)
  {
    match order
    case 2 => Colorable(e.c2, e.t, Symmetry.Orthorhombic(n).v)
    case 3 => Colorable(e.c6, e.t, Symmetry.Hexagonal(Symmetry.Trigonal(n, e.k3).v, e.k3).v)
    case 4 => Colorable(e.c4, e.t, Symmetry.Tetragonal(n).v)
    case 6 => Colorable(e.c6, e.t, Symmetry.Hexagonal(n, e.k3).v)
  }

  /** The Laue group of the N-fold dihedral group: mmm, -3m, 4/mmm or 6/mmm. */
  function DihedralColor(e: Env, order: nat, n: Vec3): Rgb
    requires IsOrder(order) && DihedralColorable(e, order, n)
  {
    match order
    case 2 => OrthorhombicColor(e, n)
    case 3 => TrigonalHighColor(e, n)
    case 4 => TetragonalHighColor(e, n)
    case 6 => HexagonalHighColor(e, n)
  }

  method Dihedral(e: Env, order: nat, n: Vec3) returns (rgb: Rgb)
    requires IsOrder(order) && DihedralColorable(e, order, n)
    ensures rgb == DihedralColor(e, order, n)
  {
    match order
    case 2 => rgb := Orthorhombic(e, n);
    case 3 => rgb := TrigonalHigh(e, n);
    case 4 => rgb := TetragonalHigh(e, n);
    case 6 => rgb := HexagonalHigh(e, n);
  }
}
