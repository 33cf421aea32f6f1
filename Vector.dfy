/** Three-vectors over the reals, the symmetry operations the reduction
    operators are built from, and the 3x3 determinant of the hemisphere test.
    The directions of the model are exact reals; √3 (and √2) are never
    literals but parameters constrained by their square. */
module Vector {

  datatype Vec3 = Vec3(x: real, y: real, z: real)

  /** √3, the one irrational constant of the folds. */
  predicate IsSqrt3(k3: real) { k3 > 0.0 && k3 * k3 == 3.0 }

  /** √2, needed by the cubic patch and the 4-fold patch. */
  predicate IsSqrt2(k2: real) { k2 > 0.0 && k2 * k2 == 2.0 }

  function Abs(a: real): (r: real)
    ensures r >= 0.0 && (r == a || r == -a)
  {
    if a < 0.0 then -a else a
  }

  function Max(a: real, b: real): (r: real)
    ensures r >= a && r >= b && (r == a || r == b)
  {
    if a >= b then a else b
  }

  function Min(a: real, b: real): (r: real)
    ensures r <= a && r <= b && (r == a || r == b)
  {
    if a <= b then a else b
  }

  function Neg(v: Vec3): Vec3 { Vec3(-v.x, -v.y, -v.z) }

  function Dot(a: Vec3, b: Vec3): real { a.x * b.x + a.y * b.y + a.z * b.z }

  function Sub(a: Vec3, b: Vec3): Vec3 { Vec3(a.x - b.x, a.y - b.y, a.z - b.z) }

  function Cross(a: Vec3, b: Vec3): Vec3 {
    Vec3(a.y * b.z - a.z * b.y, a.z * b.x - a.x * b.z, a.x * b.y - a.y * b.x)
  }

  /** Squared length of the projection onto the xy plane. */
  function PlanarNorm2(v: Vec3): real { v.x * v.x + v.y * v.y }

  /** The determinant of the matrix whose rows are a, b, c, expanded in the
      order of the Sarrus rule. */
  function Det(a: Vec3, b: Vec3, c: Vec3): real {
    a.x * b.y * c.z + a.y * b.z * c.x + a.z * b.x * c.y
    - a.x * b.z * c.y - a.y * b.x * c.z - a.z * b.y * c.x
  }

  /** Rotation about z by the angle whose cosine is c and sine is s. */
  function Rotate(v: Vec3, c: real, s: real): Vec3 {
    Vec3(c * v.x - s * v.y, c * v.y + s * v.x, v.z)
  }

  /** Reflection across the vertical plane at angle a, given c2 = cos 2a and
      s2 = sin 2a. */
  function Reflect(v: Vec3, c2: real, s2: real): Vec3 {
    Vec3(c2 * v.x + s2 * v.y, s2 * v.x - c2 * v.y, v.z)
  }

  /** Rotation about z by k times 60 degrees, for k in 0..5. */
  function Rot60(v: Vec3, k: nat, k3: real): Vec3
    requires k < 6
  {
    match k
    case 0 => v
    case 1 => Rotate(v, 0.5, k3 / 2.0)
    case 2 => Rotate(v, -0.5, k3 / 2.0)
    case 3 => Rotate(v, -1.0, 0.0)
    case 4 => Rotate(v, -0.5, -k3 / 2.0)
    case 5 => Rotate(v, 0.5, -k3 / 2.0)
  }

  /** Rotation about z by k times 90 degrees, for k in 0..3. */
  function Rot90(v: Vec3, k: nat): Vec3
    requires k < 4
  {
    match k
    case 0 => v
    case 1 => Rotate(v, 0.0, 1.0)
    case 2 => Rotate(v, -1.0, 0.0)
    case 3 => Rotate(v, 0.0, -1.0)
  }

  /** The cosine and sine of k times 60 degrees, for k in 0..5. */
  function Cos60(k: nat): real
    requires k < 6
  {
    if k == 0 then 1.0 else if k == 3 then -1.0 else if k == 1 || k == 5 then 0.5 else -0.5
  }

  function Sin60(k: nat, k3: real): real
    requires k < 6
  {
    if k == 0 || k == 3 then 0.0 else if k < 3 then k3 / 2.0 else -k3 / 2.0
  }

  /** Every entry of the 60-degree table is the rotation by its cosine and sine. */
  lemma Rot60IsRotate(v: Vec3, k: nat, k3: real)
    requires k < 6
    ensures Rot60(v, k, k3) == Rotate(v, Cos60(k), Sin60(k, k3))
  {
  }

  /** Two rotations about z make the rotation by the sum of their angles. */
  lemma RotateCompose(v: Vec3, c1: real, s1: real, c2: real, s2: real)
    ensures Rotate(Rotate(v, c1, s1), c2, s2) == Rotate(v, c1 * c2 - s1 * s2, s1 * c2 + c1 * s2)
  {
    var r := Rotate(v, c1, s1);
    calc {
      c2 * r.x - s2 * r.y;
      c2 * (c1 * v.x - s1 * v.y) - s2 * (c1 * v.y + s1 * v.x);
      (c1 * c2 - s1 * s2) * v.x - (s1 * c2 + c1 * s2) * v.y;
    }
    calc {
      c2 * r.y + s2 * r.x;
      c2 * (c1 * v.y + s1 * v.x) + s2 * (c1 * v.x - s1 * v.y);
      (c1 * c2 - s1 * s2) * v.y + (s1 * c2 + c1 * s2) * v.x;
    }
  }

  /** The angle-sum formulas of the 60-degree table. */
  lemma Angle60Sum(a: nat, b: nat, k3: real)
    requires a < 6 && b < 6 && IsSqrt3(k3)
    ensures Cos60(a) * Cos60(b) - Sin60(a, k3) * Sin60(b, k3) == Cos60((a + b) % 6)
    ensures Sin60(a, k3) * Cos60(b) + Cos60(a) * Sin60(b, k3) == Sin60((a + b) % 6, k3)
  {
    var h := k3 / 2.0;
    assert h * h == 0.75 by { assert h * h == (k3 * k3) / 4.0; }
    assert h * (-h) == -0.75 && (-h) * h == -0.75 && (-h) * (-h) == 0.75;
  }

  /** The angle sum of the 60-degree table, as rotations. */
  lemma Rotate60Sum(v: Vec3, a: nat, b: nat, k3: real)
    requires a < 6 && b < 6 && IsSqrt3(k3)
    ensures Rotate(Rotate(v, Cos60(a), Sin60(a, k3)), Cos60(b), Sin60(b, k3))
         == Rotate(v, Cos60((a + b) % 6), Sin60((a + b) % 6, k3))
  {
    var c1, s1, c2, s2 := Cos60(a), Sin60(a, k3), Cos60(b), Sin60(b, k3);
    Angle60Sum(a, b, k3);
    RotateSum(v, c1, s1, c2, s2, Cos60((a + b) % 6), Sin60((a + b) % 6, k3));
  }

  /** RotateCompose with the cosine and sine of the sum given. */
  lemma RotateSum(v: Vec3, c1: real, s1: real, c2: real, s2: real, c: real, s: real)
    requires c1 * c2 - s1 * s2 == c && s1 * c2 + c1 * s2 == s
    ensures Rotate(Rotate(v, c1, s1), c2, s2) == Rotate(v, c, s)
  {
    RotateCompose(v, c1, s1, c2, s2);
  }

  /** Turning by a and then by b times 60 degrees turns by a + b. */
  lemma Rot60Compose(v: Vec3, a: nat, b: nat, k3: real)
    requires a < 6 && b < 6 && IsSqrt3(k3)
    ensures Rot60(Rot60(v, a, k3), b, k3) == Rot60(v, (a + b) % 6, k3)
  {
    var u := Rot60(v, a, k3);
    Rot60IsRotate(v, a, k3);
    Rot60IsRotate(u, b, k3);
    Rot60IsRotate(v, (a + b) % 6, k3);
    Rotate60Sum(v, a, b, k3);
  }

  /** Rotations commute with the inversion. */
  lemma RotateNeg(v: Vec3, c: real, s: real)
    ensures Rotate(Neg(v), c, s) == Neg(Rotate(v, c, s))
  {
    assert c * (-v.x) - s * (-v.y) == -(c * v.x - s * v.y);
    assert c * (-v.y) + s * (-v.x) == -(c * v.y + s * v.x);
  }

  /** A reflection turns a rotation around: reflecting after turning by s
      is turning by -s after reflecting. */
  lemma ReflectRotate(v: Vec3, c: real, s: real, c2: real, s2: real)
    ensures Reflect(Rotate(v, c, s), c2, s2) == Rotate(Reflect(v, c2, s2), c, -s)
  {
    var r := Rotate(v, c, s);
    var m := Reflect(v, c2, s2);
    calc {
      c2 * r.x + s2 * r.y;
      c2 * (c * v.x - s * v.y) + s2 * (c * v.y + s * v.x);
      c * (c2 * v.x + s2 * v.y) + s * (s2 * v.x - c2 * v.y);
      c * m.x - (-s) * m.y;
    }
    calc {
      s2 * r.x - c2 * r.y;
      s2 * (c * v.x - s * v.y) - c2 * (c * v.y + s * v.x);
      c * (s2 * v.x - c2 * v.y) - s * (c2 * v.x + s2 * v.y);
      c * m.y + (-s) * m.x;
    }
  }

  /** A reflection conjugates the turn by k times 60 degrees into the turn
      by -k times 60 degrees. */
  lemma ReflectRot60(v: Vec3, k: nat, c2: real, s2: real, k3: real)
    requires k < 6
    ensures Reflect(Rot60(v, k, k3), c2, s2) == Rot60(Reflect(v, c2, s2), (6 - k) % 6, k3)
  {
    Rot60IsRotate(v, k, k3);
    Rot60IsRotate(Reflect(v, c2, s2), (6 - k) % 6, k3);
    ReflectRotate(v, Cos60(k), Sin60(k, k3), c2, s2);
  }

  /** k3 * (k3 * a) == 3 * a: the one identity every √3 proof needs. */
  lemma Sqrt3Times(k3: real, a: real)
    requires IsSqrt3(k3)
    ensures k3 * (k3 * a) == 3.0 * a
  {
    calc {
      k3 * (k3 * a);
      (k3 * k3) * a;
      3.0 * a;
    }
  }

  /** Multiplying by √3 keeps the sign. */
  lemma Sqrt3Sign(k3: real, a: real)
    requires IsSqrt3(k3)
    ensures a > 0.0 ==> k3 * a > 0.0
    ensures a < 0.0 ==> k3 * a < 0.0
    ensures a == 0.0 ==> k3 * a == 0.0
  {
    if a > 0.0 {
      assert k3 * a > 0.0;
    } else if a < 0.0 {
      assert k3 * (-a) > 0.0;
    }
  }

  /** Inversion keeps the planar norm. */
  lemma NegKeepsNorm(v: Vec3)
    ensures PlanarNorm2(Neg(v)) == PlanarNorm2(v)
  {
    assert (-v.x) * (-v.x) == v.x * v.x && (-v.y) * (-v.y) == v.y * v.y;
  }

  /** A rotation whose cosine and sine satisfy c^2 + s^2 == 1 keeps the
      planar norm and z. */
  lemma RotateKeepsNorm(v: Vec3, c: real, s: real)
    requires c * c + s * s == 1.0
    ensures PlanarNorm2(Rotate(v, c, s)) == PlanarNorm2(v)
    ensures Rotate(v, c, s).z == v.z
  {
    var r := Rotate(v, c, s);
    calc {
      r.x * r.x + r.y * r.y;
      (c * v.x - s * v.y) * (c * v.x - s * v.y) + (c * v.y + s * v.x) * (c * v.y + s * v.x);
      (c * c + s * s) * (v.x * v.x) + (c * c + s * s) * (v.y * v.y);
      v.x * v.x + v.y * v.y;
    }
  }

  /** Every rotation of the 60-degree table keeps the planar norm. */
  lemma Rot60KeepsNorm(v: Vec3, k: nat, k3: real)
    requires k < 6 && IsSqrt3(k3)
    ensures PlanarNorm2(Rot60(v, k, k3)) == PlanarNorm2(v) && Rot60(v, k, k3).z == v.z
  {
    var s := k3 / 2.0;
    assert s * s == 0.75 by { assert s * s == (k3 * k3) / 4.0; }
    assert (-s) * (-s) == 0.75;
    if k == 1 || k == 2 { RotateKeepsNorm(v, if k == 1 then 0.5 else -0.5, s); }
    else if k == 4 || k == 5 { RotateKeepsNorm(v, if k == 5 then 0.5 else -0.5, -s); }
    else if k == 3 { RotateKeepsNorm(v, -1.0, 0.0); }
  }

  /** A reflection whose angle data satisfy c2^2 + s2^2 == 1 keeps the
      planar norm. */
  lemma ReflectKeepsNorm(v: Vec3, c2: real, s2: real)
    requires c2 * c2 + s2 * s2 == 1.0
    ensures PlanarNorm2(Reflect(v, c2, s2)) == PlanarNorm2(v)
  {
    var r := Reflect(v, c2, s2);
    calc {
      r.x * r.x + r.y * r.y;
      (c2 * v.x + s2 * v.y) * (c2 * v.x + s2 * v.y) + (s2 * v.x - c2 * v.y) * (s2 * v.x - c2 * v.y);
      (c2 * c2 + s2 * s2) * (v.x * v.x) + (c2 * c2 + s2 * s2) * (v.y * v.y);
      v.x * v.x + v.y * v.y;
    }
  }

  /** A reflection whose angle data satisfy c2^2 + s2^2 == 1 is an involution. */
  lemma ReflectInvolution(v: Vec3, c2: real, s2: real)
    requires c2 * c2 + s2 * s2 == 1.0
    ensures Reflect(Reflect(v, c2, s2), c2, s2) == v
  {
    var r := Reflect(v, c2, s2);
    calc {
      c2 * r.x + s2 * r.y;
      c2 * (c2 * v.x + s2 * v.y) + s2 * (s2 * v.x - c2 * v.y);
      (c2 * c2 + s2 * s2) * v.x;
      v.x;
    }
    calc {
      s2 * r.x - c2 * r.y;
      s2 * (c2 * v.x + s2 * v.y) - c2 * (s2 * v.x - c2 * v.y);
      (c2 * c2 + s2 * s2) * v.y;
      v.y;
    }
  }

  /** The 48 signed permutations of the axes (the point group m-3m): a
      permutation of the coordinates followed by optional sign changes. */
  datatype Perm = XYZ | XZY | YXZ | YZX | ZXY | ZYX
  datatype AxisOp = AxisOp(perm: Perm, flipX: bool, flipY: bool, flipZ: bool)

  function Permute(p: Perm, v: Vec3): Vec3 {
    match p
    case XYZ => v
    case XZY => Vec3(v.x, v.z, v.y)
    case YXZ => Vec3(v.y, v.x, v.z)
    case YZX => Vec3(v.y, v.z, v.x)
    case ZXY => Vec3(v.z, v.x, v.y)
    case ZYX => Vec3(v.z, v.y, v.x)
  }

  function FlipIf(b: bool, a: real): real { if b then -a else a }

  function Apply(g: AxisOp, v: Vec3): Vec3 {
    var p := Permute(g.perm, v);
    Vec3(FlipIf(g.flipX, p.x), FlipIf(g.flipY, p.y), FlipIf(g.flipZ, p.z))
  }

  /** The component-wise absolute value. */
  function Abs3(v: Vec3): (r: Vec3)
    ensures r.x >= 0.0 && r.y >= 0.0 && r.z >= 0.0
  {
    Vec3(Abs(v.x), Abs(v.y), Abs(v.z))
  }
}
