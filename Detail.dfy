/** The reduction operators as the source writes them: each works in place
    on the three-element direction buffer `n` and returns the mirror flag.
    Every method is proved to leave in `n` exactly what the value-level
    function of the same name in Symmetry computes, so the properties proved
    there (sector landing, cosets, invariance, idempotence) hold of the
    buffer. */
module Detail {
  import opened Vector
  import Symmetry

  /** The direction held by a three-element buffer. */
  function Of(n: array<real>): Vec3
    requires n.Length == 3
    reads n
  {
    Vec3(n[0], n[1], n[2])
  }

  /** bar1: negate all three components when z is negative. */
  method Bar1(n: array<real>)
    requires n.Length == 3
    modifies n
    ensures Of(n) == Symmetry.Bar1(old(Of(n)))
  {
    if n[2] < 0.0 {
      for i := 0 to 3
        invariant forall k :: 0 <= k < i ==> n[k] == -old(n[k])
        invariant forall k :: i <= k < 3 ==> n[k] == old(n[k])
      {
        n[i] := -n[i];
      }
    }
  }

  /** z2: negate x and y when y is negative. */
  method Z2(n: array<real>)
    requires n.Length == 3
    modifies n
    ensures Of(n) == Symmetry.Z2(old(Of(n)))
  {
    if n[1] < 0.0 {
      for i := 0 to 2
        invariant forall k :: 0 <= k < i ==> n[k] == -old(n[k])
        invariant forall k :: i <= k < 3 ==> n[k] == old(n[k])
      {
        n[i] := -n[i];
      }
    }
  }

  /** Overwrite x and y of the buffer with those of w. */
  method SetXY(n: array<real>, w: Vec3)
    requires n.Length == 3 && w.z == n[2]
    modifies n
    ensures Of(n) == w
  {
    n[0], n[1] := w.x, w.y;
  }

  /** z3: rotate by +-120 degrees about z into the 0-120 degree sector. With
      c = -1/2 and s = √3/2, the +120 degree turn writes (c x - s y, c y + s x)
      and the -120 degree turn (c x + s y, c y - s x). */
  method Z3(n: array<real>, k3: real)
    requires n.Length == 3
    modifies n
    ensures Of(n) == Symmetry.Z3(old(Of(n)), k3)
  {
    if n[0] < 0.0 {
      if n[1] < -k3 * n[0] {
        if n[1] < k3 * n[0] {
          SetXY(n, Rotate(Of(n), -0.5, k3 / 2.0));
        } else {
          SetXY(n, Rotate(Of(n), -0.5, -k3 / 2.0));
        }
      }
    } else if n[1] < 0.0 {
      SetXY(n, Rotate(Of(n), -0.5, k3 / 2.0));
    }
  }

  /** z4: z2, then a quarter turn when x is negative. */
  method Z4(n: array<real>)
    requires n.Length == 3
    modifies n
    ensures Of(n) == Symmetry.Z4(old(Of(n)))
  {
    Z2(n);
    if n[0] < 0.0 {
      n[0], n[1] := n[1], n[0];
      n[1] := -n[1];
    }
  }

  /** z6: z2, then a rotation by -60 or -120 degrees about z into the 0-60
      degree sector. */
  method Z6(n: array<real>, k3: real)
    requires n.Length == 3
    modifies n
    ensures Of(n) == Symmetry.Z6(old(Of(n)), k3)
  {
    Z2(n);
    Z6Turn(n, k3);
  }

  /** The part of z6 after z2. With c = -1/2 and s = √3/2, the -60 degree
      turn writes (-c x + s y, -c y - s x) and the -120 degree turn
      (c x + s y, c y - s x). */
  method Z6Turn(n: array<real>, k3: real)
    requires n.Length == 3
    modifies n
    ensures Of(n) == Symmetry.Z6Turn(old(Of(n)), k3)
  {
    if Abs(n[1]) > k3 * Abs(n[0]) {
      SetXY(n, Rotate(Of(n), 0.5, -k3 / 2.0));
    } else if n[0] < 0.0 {
      SetXY(n, Rotate(Of(n), -0.5, -k3 / 2.0));
    }
  }

  /** orthorhombic: bar1, z2, then the x mirror when x is negative. */
  method Orthorhombic(n: array<real>) returns (mirrored: bool)
    requires n.Length == 3
    modifies n
    ensures Of(n) == Symmetry.Orthorhombic(old(Of(n))).v
    ensures mirrored == Symmetry.Orthorhombic(old(Of(n))).mirrored
  {
    Bar1(n);
    Z2(n);
    if n[0] < 0.0 {
      n[0] := -n[0];
      return true;
    }
    return false;
  }

  /** tetragonal: bar1, z4, then swap x and y when y exceeds x. */
  method Tetragonal(n: array<real>) returns (mirrored: bool)
    requires n.Length == 3
    modifies n
    ensures Of(n) == Symmetry.Tetragonal(old(Of(n))).v
    ensures mirrored == Symmetry.Tetragonal(old(Of(n))).mirrored
  {
    Bar1(n);
    Z4(n);
    if n[1] > n[0] {
      n[0], n[1] := n[1], n[0];
      return true;
    }
    return false;
  }

  /** The last step of trigonal: the 60-degree mirror when the direction
      lies outside 0-60 degrees. With c = 1/2 and s = √3/2 it writes
      (s y - c x, s x + c y). */
  method TrigonalMirror(n: array<real>, k3: real) returns (mirrored: bool)
    requires n.Length == 3
    modifies n
    ensures Of(n) == Symmetry.TrigonalMirror(old(Of(n)), k3).v
    ensures mirrored == Symmetry.TrigonalMirror(old(Of(n)), k3).mirrored
  {
    if n[0] < 0.0 || n[1] > k3 * n[0] {
      SetXY(n, Reflect(Of(n), -0.5, k3 / 2.0));
      return true;
    }
    return false;
  }

  /** trigonal: bar1, z3, then the 60-degree mirror outside 0-60 degrees. */
  method Trigonal(n: array<real>, k3: real) returns (mirrored: bool)
    requires n.Length == 3
    modifies n
    ensures Of(n) == Symmetry.Trigonal(old(Of(n)), k3).v
    ensures mirrored == Symmetry.Trigonal(old(Of(n)), k3).mirrored
  {
    Bar1(n);
    Z3(n, k3);
    mirrored := TrigonalMirror(n, k3);
  }

  /** The last step of hexagonal: the 30-degree mirror when the direction
      lies outside 0-30 degrees. With c = 1/2 and s = √3/2 it writes
      (s y + c x, s x - c y). */
  method HexagonalMirror(n: array<real>, k3: real) returns (mirrored: bool)
    requires n.Length == 3
    modifies n
    ensures Of(n) == Symmetry.HexagonalMirror(old(Of(n)), k3).v
    ensures mirrored == Symmetry.HexagonalMirror(old(Of(n)), k3).mirrored
  {
    if k3 * n[1] > n[0] {
      SetXY(n, Reflect(Of(n), 0.5, k3 / 2.0));
      return true;
    }
    return false;
  }

  /** hexagonal: bar1, z6, then the 30-degree mirror outside 0-30 degrees. */
  method Hexagonal(n: array<real>, k3: real) returns (mirrored: bool)
    requires n.Length == 3
    modifies n
    ensures Of(n) == Symmetry.Hexagonal(old(Of(n)), k3).v
    ensures mirrored == Symmetry.Hexagonal(old(Of(n)), k3).mirrored
  {
    Bar1(n);
    Z6(n, k3);
    mirrored := HexagonalMirror(n, k3);
  }

  /** Left rotation of the buffer by `mid` places, as std::rotate(n, n+mid, n+3). */
  method RotateLeft(n: array<real>, mid: nat)
    requires n.Length == 3 && 0 < mid < 3
    modifies n
    ensures forall k :: 0 <= k < 3 ==> n[k] == old(n[(k + mid) % 3])
  {
    if mid == 1 {
      n[0], n[1], n[2] := n[1], n[2], n[0];
    } else {
      n[0], n[1], n[2] := n[2], n[0], n[1];
    }
  }

  /** cubic: bar1, z2, |x|, a 3-fold rotation about [111] that brings the
      largest component to z, then swap x and y when y exceeds x. */
  method Cubic(n: array<real>) returns (mirrored: bool)
    requires n.Length == 3
    modifies n
    ensures Of(n) == Symmetry.Cubic(old(Of(n))).v
    ensures mirrored == Symmetry.Cubic(old(Of(n))).mirrored
  {
    Bar1(n);
    Z2(n);
    n[0] := Abs(n[0]);
    if n[0] >= n[1] {
      if n[0] > n[2] {
        RotateLeft(n, 1);
      }
    } else {
      if n[1] > n[2] {
        RotateLeft(n, 2);
      }
    }
    if n[1] > n[0] {
      n[0], n[1] := n[1], n[0];
      return true;
    }
    return false;
  }
}
