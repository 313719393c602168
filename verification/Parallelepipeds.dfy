/** Elements that are parallelepipeds: their node normals, their volume derivatives and the derivatives of their
    shape functions are the same. */
module Parallelepipeds {
  import opened Vectors
  import opened HexGeometry
  import opened ShapeFunctions

  // ---------- Node normals ----------

  /** The area of a quadrilateral from its diagonals. */
  lemma FaceOfDiagonals(a0: real, a1: real, a2: real, a3: real, b0: real, b1: real, b2: real, b3: real)
    ensures -(EdgeOf(a0, b0, a1, b1) + EdgeOf(a1, b1, a2, b2) + EdgeOf(a2, b2, a3, b3) +
              EdgeOf(a3, b3, a0, b0)) / 8.0 ==
            -((a2 - a0) * (b3 - b1) - (a3 - a1) * (b2 - b0)) / 8.0
  {
  }

  lemma DiagonalCross(p: real, q: real, r: real, s: real)
    ensures (2.0 * p + 2.0 * q) * (2.0 * s - 2.0 * r) - (2.0 * q - 2.0 * p) * (2.0 * r + 2.0 * s) ==
            8.0 * (p * s - q * r)
  {
  }

  /** A face whose diagonals are 2p + 2q and 2q - 2p in one coordinate, 2r + 2s and 2s - 2r in the other. */
  lemma FaceByDiagonals(a: seq<real>, b: seq<real>, n0: nat, n1: nat, n2: nat, n3: nat, p: real, q: real, r: real,
                        s: real)
    requires |a| == |b| == 8 && n0 < 8 && n1 < 8 && n2 < 8 && n3 < 8
    requires a[n2] - a[n0] == 2.0 * p + 2.0 * q && a[n3] - a[n1] == 2.0 * q - 2.0 * p
    requires b[n2] - b[n0] == 2.0 * r + 2.0 * s && b[n3] - b[n1] == 2.0 * s - 2.0 * r
    ensures FaceArea(a, b, n0, n1, n2, n3) == -(p * s - q * r)
  {
    FaceOfDiagonals(a[n0], a[n1], a[n2], a[n3], b[n0], b[n1], b[n2], b[n3]);
    var u, w, u', w' := a[n2] - a[n0], a[n3] - a[n1], b[n2] - b[n0], b[n3] - b[n1];
    assert u * w' - w * u' == 8.0 * (p * s - q * r) by { DiagonalCross(p, q, r, s); }
  }

  /** The face on the other side. */
  lemma FaceBehind(a: seq<real>, b: seq<real>, n0: nat, n1: nat, n2: nat, n3: nat, p: real, q: real, r: real, s: real)
    requires |a| == |b| == 8 && n0 < 8 && n1 < 8 && n2 < 8 && n3 < 8
    requires a[n2] - a[n0] == 2.0 * p - 2.0 * q && a[n3] - a[n1] == -2.0 * q - 2.0 * p
    requires b[n2] - b[n0] == 2.0 * r - 2.0 * s && b[n3] - b[n1] == -2.0 * s - 2.0 * r
    ensures FaceArea(a, b, n0, n1, n2, n3) == p * s - q * r
  {
    FaceByDiagonals(a, b, n0, n1, n2, n3, p, -q, r, -s);
    assert p * -s == -(p * s) && -q * r == -(q * r);
  }

  /** Every node belongs to three faces. */
  lemma NormalsByFaces(a: seq<real>, b: seq<real>)
    requires |a| == |b| == 8
    ensures var f0, f1, f2 := FaceArea(a, b, 0, 1, 2, 3), FaceArea(a, b, 0, 4, 5, 1), FaceArea(a, b, 1, 5, 6, 2);
            var f3, f4, f5 := FaceArea(a, b, 2, 6, 7, 3), FaceArea(a, b, 3, 7, 4, 0), FaceArea(a, b, 4, 7, 6, 5);
            NodeNormals(a, b) == [f0 + f1 + f4, f0 + f1 + f2, f0 + f2 + f3, f0 + f3 + f4,
                                  f1 + f4 + f5, f1 + f2 + f5, f2 + f3 + f5, f3 + f4 + f5]
  {
    hide FaceArea;
  }

  /** The coordinates of the nodes of a parallelepiped. */
  lemma AffineIs(centre: real, a: Vec)
    ensures AffineNodes(centre, a) ==
            [centre - a.x - a.y - a.z, centre + a.x - a.y - a.z, centre + a.x + a.y - a.z, centre - a.x + a.y - a.z,
             centre - a.x - a.y + a.z, centre + a.x - a.y + a.z, centre + a.x + a.y + a.z, centre - a.x + a.y + a.z]
  {
    hide Reference;
    ReferenceAlong(0);
    ReferenceAlong(1);
    ReferenceAlong(2);
  }

  /** Opposite faces of a parallelepiped have opposite areas. */
  lemma AffineFaces(y: real, b: Vec, z: real, c: Vec)
    ensures var u, w, a := AffineNodes(y, b), AffineNodes(z, c), Cross(b, c);
            && FaceArea(u, w, 0, 1, 2, 3) == -a.z && FaceArea(u, w, 4, 7, 6, 5) == a.z
            && FaceArea(u, w, 0, 4, 5, 1) == -a.y && FaceArea(u, w, 2, 6, 7, 3) == a.y
            && FaceArea(u, w, 1, 5, 6, 2) == a.x && FaceArea(u, w, 3, 7, 4, 0) == -a.x
  {
    hide FaceArea, AffineNodes;
    var u, w := AffineNodes(y, b), AffineNodes(z, c);
    AffineIs(y, b);
    AffineIs(z, c);
    FaceByDiagonals(u, w, 0, 1, 2, 3, b.x, b.y, c.x, c.y);
    FaceByDiagonals(u, w, 0, 4, 5, 1, b.z, b.x, c.z, c.x);
    FaceByDiagonals(u, w, 1, 5, 6, 2, b.z, b.y, c.z, c.y);
    FaceBehind(u, w, 2, 6, 7, 3, b.z, b.x, c.z, c.x);
    FaceBehind(u, w, 3, 7, 4, 0, b.z, b.y, c.z, c.y);
    FaceByDiagonals(u, w, 4, 7, 6, 5, b.y, b.x, c.y, c.x);
  }

  /** The node normals of a parallelepiped are the derivatives of its shape functions. */
  lemma AffineNormals(y: real, b: Vec, z: real, c: Vec)
    ensures NodeNormals(AffineNodes(y, b), AffineNodes(z, c)) ==
            ShapeDerivative(AffineNodes(y, b), AffineNodes(z, c)) == Spread(Cross(b, c))
  {
    hide FaceArea, NodeNormals, AffineNodes, SlopesOf, Cross;
    NormalsByFaces(AffineNodes(y, b), AffineNodes(z, c));
    AffineFaces(y, b, z, c);
    AffineSlopes(y, b);
    AffineSlopes(z, c);
  }

  // ---------- Volume derivatives ----------

  function Unit(i: nat): (u: seq<real>)
    requires i < 8
    ensures |u| == 8
  {
    seq(8, j => if j == i then 1.0 else 0.0)
  }

  lemma DotUnit(d: seq<real>, i: nat)
    requires |d| == 8 && i < 8
    ensures Dot(Unit(i), d) == d[i]
  {
    var z := seq(8, _ => 0.0);
    assert Unit(i) == z[i := z[i] + 1.0];
    DotUpdate(z, d, i, 1.0);
  }

  lemma DotOnes(d: seq<real>)
    requires |d| == 8
    ensures Dot(Ones(), d) == Sum8(d)
  {
  }

  /** The derivatives are linear in the first coordinate... */
  lemma DerivativeOfField(c: real, p: real, q: real, r: real, x: seq<real>, y: seq<real>, z: seq<real>, b: seq<real>,
                          i: nat)
    requires |x| == |y| == |z| == |b| == 8 && i < 8
    ensures VolumeDerivative(LinearField(c, p, q, r, x, y, z), b)[i] ==
            p * VolumeDerivative(x, b)[i] + q * VolumeDerivative(y, b)[i] + r * VolumeDerivative(z, b)[i]
  {
    hide Dot, Sum8, VolumeDerivative, LinearField, Unit, Ones;
    var f, u := LinearField(c, p, q, r, x, y, z), Unit(i);
    OneVolume(u, f, b);
    OneVolume(u, x, b);
    OneVolume(u, y, b);
    OneVolume(u, z, b);
    DotUnit(VolumeDerivative(f, b), i);
    DotUnit(VolumeDerivative(x, b), i);
    DotUnit(VolumeDerivative(y, b), i);
    DotUnit(VolumeDerivative(z, b), i);
    LinearFieldDot(c, p, q, r, x, y, z, VolumeDerivative(b, u));
    DotOnes(VolumeDerivative(b, u));
    SlopesCancel(b, u);
  }

  /** ... and change their sign when the coordinates are exchanged. */
  lemma DerivativeBack(a: seq<real>, b: seq<real>, i: nat)
    requires |a| == |b| == 8 && i < 8
    ensures VolumeDerivative(b, a)[i] == -VolumeDerivative(a, b)[i]
  {
    hide Edge;
    forall j: nat, k: nat | j < 8 && k < 8 ensures Edge(b, a, j, k) == -Edge(a, b, j, k) { EdgeBack(a, b, j, k); }
  }

  /** Position along an axis. */
  ghost predicate Along(a: seq<real>, axis: nat) {
    && |a| == 8
    && (axis == 0 ==> a[0] == -1.0 && a[1] == 1.0 && a[2] == 1.0 && a[3] == -1.0 &&
                      a[4] == -1.0 && a[5] == 1.0 && a[6] == 1.0 && a[7] == -1.0)
    && (axis == 1 ==> a[0] == -1.0 && a[1] == -1.0 && a[2] == 1.0 && a[3] == 1.0 &&
                      a[4] == -1.0 && a[5] == -1.0 && a[6] == 1.0 && a[7] == 1.0)
    && (axis == 2 ==> a[0] == -1.0 && a[1] == -1.0 && a[2] == -1.0 && a[3] == -1.0 &&
                      a[4] == 1.0 && a[5] == 1.0 && a[6] == 1.0 && a[7] == 1.0)
  }

  lemma ReferenceAlong(axis: nat)
    requires axis < 3
    ensures Along(Reference(axis), axis)
  {
  }

  lemma AlongIsReference(a: seq<real>, axis: nat)
    requires axis < 3 && Along(a, axis)
    ensures a == Reference(axis)
  {
  }

  lemma DerivativeAlong2(a: seq<real>, b: seq<real>)
    requires Along(a, 0) && Along(b, 1)
    ensures Along(VolumeDerivative(a, b), 2)
  {
  }

  lemma DerivativeAlong0(a: seq<real>, b: seq<real>)
    requires Along(a, 1) && Along(b, 2)
    ensures Along(VolumeDerivative(a, b), 0)
  {
  }

  lemma DerivativeAlong1(a: seq<real>, b: seq<real>)
    requires Along(a, 2) && Along(b, 0)
    ensures Along(VolumeDerivative(a, b), 1)
  {
  }

  /** A step along an axis of the reference element, and a second one along any. */
  lemma ReferenceStep(b: Vec, z: real, i: nat)
    requires i < 8
    ensures var w, r0, r1, r2 := AffineNodes(z, b), Reference(0)[i], Reference(1)[i], Reference(2)[i];
            && VolumeDerivative(Reference(0), w)[i] == b.y * r2 - b.z * r1
            && VolumeDerivative(Reference(1), w)[i] == b.z * r0 - b.x * r2
            && VolumeDerivative(Reference(2), w)[i] == b.x * r1 - b.y * r0
  {
    hide VolumeDerivative, Reference, Along;
    var w := AffineNodes(z, b);
    forall k: nat | k < 3
      ensures VolumeDerivative(Reference(k), w)[i] == -VolumeDerivative(w, Reference(k))[i]
      ensures VolumeDerivative(w, Reference(k))[i] ==
              b.x * VolumeDerivative(Reference(0), Reference(k))[i] +
              b.y * VolumeDerivative(Reference(1), Reference(k))[i] +
              b.z * VolumeDerivative(Reference(2), Reference(k))[i]
    {
      DerivativeBack(w, Reference(k), i);
      DerivativeOfField(z, b.x, b.y, b.z, Reference(0), Reference(1), Reference(2), Reference(k), i);
    }
    ReferenceTable(i);
  }

  lemma ReferenceTable(i: nat)
    requires i < 8
    ensures VolumeDerivative(Reference(0), Reference(1))[i] == Reference(2)[i]
    ensures VolumeDerivative(Reference(1), Reference(2))[i] == Reference(0)[i]
    ensures VolumeDerivative(Reference(2), Reference(0))[i] == Reference(1)[i]
    ensures VolumeDerivative(Reference(1), Reference(0))[i] == -Reference(2)[i]
    ensures VolumeDerivative(Reference(2), Reference(1))[i] == -Reference(0)[i]
    ensures VolumeDerivative(Reference(0), Reference(2))[i] == -Reference(1)[i]
    ensures forall k: nat :: k < 3 ==> VolumeDerivative(Reference(k), Reference(k))[i] == 0.0
  {
    hide VolumeDerivative, Reference, Along;
    forall k: nat | k < 3 ensures VolumeDerivative(Reference(k), Reference(k))[i] == 0.0 {
      DerivativeBack(Reference(k), Reference(k), i);
    }
    ReferenceAlong(0);
    ReferenceAlong(1);
    ReferenceAlong(2);
    DerivativeAlong2(Reference(0), Reference(1));
    DerivativeAlong0(Reference(1), Reference(2));
    DerivativeAlong1(Reference(2), Reference(0));
    AlongIsReference(VolumeDerivative(Reference(0), Reference(1)), 2);
    AlongIsReference(VolumeDerivative(Reference(1), Reference(2)), 0);
    AlongIsReference(VolumeDerivative(Reference(2), Reference(0)), 1);
    DerivativeBack(Reference(0), Reference(1), i);
    DerivativeBack(Reference(1), Reference(2), i);
    DerivativeBack(Reference(2), Reference(0), i);
  }

  /** The volume derivatives of a parallelepiped are those of its shape functions. */
  lemma AffineDerivatives(y: real, b: Vec, z: real, c: Vec)
    ensures VolumeDerivative(AffineNodes(y, b), AffineNodes(z, c)) ==
            ShapeDerivative(AffineNodes(y, b), AffineNodes(z, c)) == Spread(Cross(b, c))
  {
    hide VolumeDerivative, Reference, Spread, SlopesOf, Cross;
    var u, w := AffineNodes(y, b), AffineNodes(z, c);
    forall i: nat | i < 8 ensures VolumeDerivative(u, w)[i] == Spread(Cross(b, c))[i] {
      ReferenceStep(c, z, i);
      DerivativeOfField(y, b.x, b.y, b.z, Reference(0), Reference(1), Reference(2), w, i);
      CrossAt(b, c, Reference(0)[i], Reference(1)[i], Reference(2)[i]);
      SpreadAt(Cross(b, c), i);
    }
    assert VolumeDerivative(u, w) == Spread(Cross(b, c));
    AffineSlopes(y, b);
    AffineSlopes(z, c);
  }

  lemma SpreadAt(a: Vec, i: nat)
    requires i < 8
    ensures Spread(a)[i] == a.x * Reference(0)[i] + a.y * Reference(1)[i] + a.z * Reference(2)[i]
  {
    ReferenceAlong(0);
    ReferenceAlong(1);
    ReferenceAlong(2);
  }

  lemma CrossAt(b: Vec, c: Vec, r0: real, r1: real, r2: real)
    ensures b.x * (c.y * r2 - c.z * r1) + b.y * (c.z * r0 - c.x * r2) + b.z * (c.x * r1 - c.y * r0) ==
            Cross(b, c).x * r0 + Cross(b, c).y * r1 + Cross(b, c).z * r2
  {
    hide Product;
    TimesDifference(b.x, c.y, r2, c.z, r1);
    TimesDifference(b.y, c.z, r0, c.x, r2);
    TimesDifference(b.z, c.x, r1, c.y, r0);
    TimesDifference(r0, b.y, c.z, c.y, b.z);
    TimesDifference(r1, c.x, b.z, b.x, c.z);
    TimesDifference(r2, b.x, c.y, c.x, b.y);
    Exchanged(b.x, c.y, r2);
    Exchanged(b.x, r1, c.z);
    Exchanged(b.y, c.z, r0);
    Exchanged(b.y, r2, c.x);
    Exchanged(b.z, c.x, r1);
    Exchanged(b.z, r0, c.y);
  }

  /** The volume that the volume derivatives belong to is, for a parallelepiped, the determinant of its edges. */
  lemma AffineVolume(x: real, y: real, z: real, a: Vec, b: Vec, c: Vec)
    ensures var u, w, t := AffineNodes(x, a), AffineNodes(y, b), AffineNodes(z, c);
            Volume(u, w, t) == ShapeVolume(u, w, t) == 8.0 * Det(a, b, c)
  {
    hide VolumeDerivative, ShapeDerivative, AffineNodes, ShapeVolume, Dot, Det;
    AffineDerivatives(y, b, z, c);
    VolumeByDot(AffineNodes(x, a), AffineNodes(y, b), AffineNodes(z, c));
    ParallelepipedVolume(x, y, z, a, b, c);
  }
}
