/** Vectors attached to the nodes of a hexahedral element: face areas and volume derivatives. */
module HexGeometry {
  import opened Vectors

  /** One coordinate, or one component, at the eight nodes of an element. */
  function Sum8(v: seq<real>): (s: real)
    requires |v| == 8
  {
    v[0] + v[1] + v[2] + v[3] + v[4] + v[5] + v[6] + v[7]
  }

  function Dot(a: seq<real>, b: seq<real>): (d: real)
    requires |a| == |b| == 8
  {
    a[0] * b[0] + a[1] * b[1] + a[2] * b[2] + a[3] * b[3] + a[4] * b[4] + a[5] * b[5] + a[6] * b[6] + a[7] * b[7]
  }

  function Scaled(v: seq<real>, k: real): (r: seq<real>)
    requires |v| == 8
    ensures |r| == 8
  {
    seq(8, i requires 0 <= i < 8 => k * v[i])
  }

  function Plus8(v: seq<real>, w: seq<real>): (r: seq<real>)
    requires |v| == |w| == 8
    ensures |r| == 8
  {
    seq(8, i requires 0 <= i < 8 => v[i] + w[i])
  }

  lemma ScaledSum(v: seq<real>, k: real)
    requires |v| == 8
    ensures Sum8(Scaled(v, k)) == k * Sum8(v)
  {
  }

  lemma PlusSum(v: seq<real>, w: seq<real>)
    requires |v| == |w| == 8
    ensures Sum8(Plus8(v, w)) == Sum8(v) + Sum8(w)
  {
  }

  function Products(x: seq<real>, b: seq<real>): (h: seq<real>)
    requires |x| == |b| == 8
    ensures |h| == 8
  {
    seq(8, i requires 0 <= i < 8 => x[i] * b[i])
  }

  lemma DotIsSum(x: seq<real>, b: seq<real>)
    requires |x| == |b| == 8
    ensures Dot(x, b) == Sum8(Products(x, b))
  {
  }

  lemma SumTimes(f: real, g: real, b: real)
    ensures (f + g) * b == f * b + g * b
  {
  }

  lemma Regrouped(p: real, x: real, b: real)
    ensures p * x * b == p * (x * b)
  {
  }

  lemma DotPlus(f: seq<real>, g: seq<real>, b: seq<real>)
    requires |f| == |g| == |b| == 8
    ensures Dot(Plus8(f, g), b) == Dot(f, b) + Dot(g, b)
  {
    hide Dot, Sum8;
    DotIsSum(f, b);
    DotIsSum(g, b);
    DotIsSum(Plus8(f, g), b);
    forall i: nat | i < 8 ensures Products(Plus8(f, g), b)[i] == Plus8(Products(f, b), Products(g, b))[i] {
      SumTimes(f[i], g[i], b[i]);
    }
    assert Products(Plus8(f, g), b) == Plus8(Products(f, b), Products(g, b));
    PlusSum(Products(f, b), Products(g, b));
  }

  lemma DotScaled(p: real, x: seq<real>, b: seq<real>)
    requires |x| == |b| == 8
    ensures Dot(Scaled(x, p), b) == p * Dot(x, b)
  {
    hide Dot, Sum8;
    DotIsSum(x, b);
    DotIsSum(Scaled(x, p), b);
    forall i: nat | i < 8 ensures Products(Scaled(x, p), b)[i] == Scaled(Products(x, b), p)[i] {
      Regrouped(p, x[i], b[i]);
    }
    assert Products(Scaled(x, p), b) == Scaled(Products(x, b), p);
    ScaledSum(Products(x, b), p);
  }

  lemma DotSwap(a: seq<real>, b: seq<real>)
    requires |a| == |b| == 8
    ensures Dot(a, b) == Dot(b, a)
  {
  }

  /** The contribution of an edge, from the coordinates of its ends. */
  function EdgeOf(a0: real, b0: real, a1: real, b1: real): (c: real)
  {
    a0 * b1 - b0 * a1
  }

  /** The contribution of the edge from node i to node j to an area, in the plane of a and b. */
  function Edge(a: seq<real>, b: seq<real>, i: nat, j: nat): (c: real)
    requires |a| == |b| == 8 && i < 8 && j < 8
  {
    EdgeOf(a[i], b[i], a[j], b[j])
  }

  lemma EdgeBack(a: seq<real>, b: seq<real>, i: nat, j: nat)
    requires |a| == |b| == 8 && i < 8 && j < 8
    ensures Edge(a, b, j, i) == -Edge(a, b, i, j) && Edge(b, a, i, j) == -Edge(a, b, i, j)
  {
  }

  // ---------- Face areas ----------

  /** The share of one node in the area of a face: an eighth of the contributions of its edges. */
  function FaceArea(a: seq<real>, b: seq<real>, n0: nat, n1: nat, n2: nat, n3: nat): (w: real)
    requires |a| == |b| == 8 && n0 < 8 && n1 < 8 && n2 < 8 && n3 < 8
  {
    -(Edge(a, b, n0, n1) + Edge(a, b, n1, n2) + Edge(a, b, n2, n3) + Edge(a, b, n3, n0)) / 8.0
  }

  /** The code's product of bisectors. */
  lemma BisectorProduct(a0: real, a1: real, a2: real, a3: real, b0: real, b1: real, b2: real, b3: real)
    ensures 0.25 * ((0.5 * (a3 + a2 - a1 - a0)) * (0.5 * (b2 + b1 - b3 - b0)) -
                    (0.5 * (b3 + b2 - b1 - b0)) * (0.5 * (a2 + a1 - a3 - a0))) ==
            -(EdgeOf(a0, b0, a1, b1) + EdgeOf(a1, b1, a2, b2) + EdgeOf(a2, b2, a3, b3) + EdgeOf(a3, b3, a0, b0)) / 8.0
  {
  }

  /** The same amount added at four nodes. */
  function AddFace(p: seq<real>, n0: nat, n1: nat, n2: nat, n3: nat, w: real): (r: seq<real>)
    requires |p| == 8 && n0 < 8 && n1 < 8 && n2 < 8 && n3 < 8
    ensures |r| == 8
  {
    seq(8, i requires 0 <= i < 8 => if i == n0 || i == n1 || i == n2 || i == n3 then p[i] + w else p[i])
  }

  lemma SumUpdate(p: seq<real>, n: nat, w: real)
    requires |p| == 8 && n < 8
    ensures Sum8(p[n := p[n] + w]) == Sum8(p) + w
  {
  }

  lemma SumAddFace(p: seq<real>, n0: nat, n1: nat, n2: nat, n3: nat, w: real)
    requires |p| == 8 && n0 < 8 && n1 < 8 && n2 < 8 && n3 < 8
    requires n0 != n1 && n0 != n2 && n0 != n3 && n1 != n2 && n1 != n3 && n2 != n3
    ensures Sum8(AddFace(p, n0, n1, n2, n3, w)) == Sum8(p) + 4.0 * w
  {
    hide Sum8;
    var p0 := p[n0 := p[n0] + w];
    var p1 := p0[n1 := p0[n1] + w];
    var p2 := p1[n2 := p1[n2] + w];
    var p3 := p2[n3 := p2[n3] + w];
    assert p3 == AddFace(p, n0, n1, n2, n3, w);
    SumUpdate(p, n0, w);
    SumUpdate(p0, n1, w);
    SumUpdate(p1, n2, w);
    SumUpdate(p2, n3, w);
  }

  /** One component of the node normals: the areas of the six faces, given to their nodes. */
  function NodeNormals(a: seq<real>, b: seq<real>): (p: seq<real>)
    requires |a| == |b| == 8
    ensures |p| == 8
  {
    var p0 := seq(8, _ => 0.0);
    var p1 := AddFace(p0, 0, 1, 2, 3, FaceArea(a, b, 0, 1, 2, 3));
    var p2 := AddFace(p1, 0, 4, 5, 1, FaceArea(a, b, 0, 4, 5, 1));
    var p3 := AddFace(p2, 1, 5, 6, 2, FaceArea(a, b, 1, 5, 6, 2));
    var p4 := AddFace(p3, 2, 6, 7, 3, FaceArea(a, b, 2, 6, 7, 3));
    var p5 := AddFace(p4, 3, 7, 4, 0, FaceArea(a, b, 3, 7, 4, 0));
    AddFace(p5, 4, 7, 6, 5, FaceArea(a, b, 4, 7, 6, 5))
  }

  /** Every edge belongs to two faces that run through it in opposite directions. */
  lemma FaceAreasCancel(a: seq<real>, b: seq<real>)
    requires |a| == |b| == 8
    ensures FaceArea(a, b, 0, 1, 2, 3) + FaceArea(a, b, 0, 4, 5, 1) + FaceArea(a, b, 1, 5, 6, 2) +
            FaceArea(a, b, 2, 6, 7, 3) + FaceArea(a, b, 3, 7, 4, 0) + FaceArea(a, b, 4, 7, 6, 5) == 0.0
  {
    hide Edge;
    EdgeBack(a, b, 0, 1); EdgeBack(a, b, 1, 2); EdgeBack(a, b, 2, 3); EdgeBack(a, b, 3, 0);
    EdgeBack(a, b, 0, 4); EdgeBack(a, b, 4, 5); EdgeBack(a, b, 5, 1); EdgeBack(a, b, 5, 6);
    EdgeBack(a, b, 6, 2); EdgeBack(a, b, 6, 7); EdgeBack(a, b, 7, 3); EdgeBack(a, b, 7, 4);
  }

  /** The node normals of an element add up to zero. */
  lemma NormalsCancel(a: seq<real>, b: seq<real>)
    requires |a| == |b| == 8
    ensures Sum8(NodeNormals(a, b)) == 0.0
  {
    hide FaceArea, AddFace, Sum8;
    var p0 := seq(8, _ => 0.0);
    var p1 := AddFace(p0, 0, 1, 2, 3, FaceArea(a, b, 0, 1, 2, 3));
    var p2 := AddFace(p1, 0, 4, 5, 1, FaceArea(a, b, 0, 4, 5, 1));
    var p3 := AddFace(p2, 1, 5, 6, 2, FaceArea(a, b, 1, 5, 6, 2));
    var p4 := AddFace(p3, 2, 6, 7, 3, FaceArea(a, b, 2, 6, 7, 3));
    var p5 := AddFace(p4, 3, 7, 4, 0, FaceArea(a, b, 3, 7, 4, 0));
    ZeroSum(p0);
    SumAddFace(p0, 0, 1, 2, 3, FaceArea(a, b, 0, 1, 2, 3));
    SumAddFace(p1, 0, 4, 5, 1, FaceArea(a, b, 0, 4, 5, 1));
    SumAddFace(p2, 1, 5, 6, 2, FaceArea(a, b, 1, 5, 6, 2));
    SumAddFace(p3, 2, 6, 7, 3, FaceArea(a, b, 2, 6, 7, 3));
    SumAddFace(p4, 3, 7, 4, 0, FaceArea(a, b, 3, 7, 4, 0));
    SumAddFace(p5, 4, 7, 6, 5, FaceArea(a, b, 4, 7, 6, 5));
    FaceAreasCancel(a, b);
  }

  lemma ZeroSum(p: seq<real>)
    requires |p| == 8 && forall i :: 0 <= i < 8 ==> p[i] == 0.0
    ensures Sum8(p) == 0.0
  {
  }

  /** SumElemFaceNormal */
  method SumElemFaceNormal(pfx: array<real>, pfy: array<real>, pfz: array<real>, n0: nat, n1: nat, n2: nat, n3: nat,
                           x: seq<real>, y: seq<real>, z: seq<real>)
    requires pfx.Length == pfy.Length == pfz.Length == 8 && pfx != pfy && pfx != pfz && pfy != pfz
    requires |x| == |y| == |z| == 8 && n0 < 8 && n1 < 8 && n2 < 8 && n3 < 8
    requires n0 != n1 && n0 != n2 && n0 != n3 && n1 != n2 && n1 != n3 && n2 != n3
    modifies pfx, pfy, pfz
    ensures pfx[..] == AddFace(old(pfx[..]), n0, n1, n2, n3, FaceArea(y, z, n0, n1, n2, n3))
    ensures pfy[..] == AddFace(old(pfy[..]), n0, n1, n2, n3, FaceArea(z, x, n0, n1, n2, n3))
    ensures pfz[..] == AddFace(old(pfz[..]), n0, n1, n2, n3, FaceArea(x, y, n0, n1, n2, n3))
  {
    hide FaceArea;
    var bisectX0 := 0.5 * (x[n3] + x[n2] - x[n1] - x[n0]);
    var bisectY0 := 0.5 * (y[n3] + y[n2] - y[n1] - y[n0]);
    var bisectZ0 := 0.5 * (z[n3] + z[n2] - z[n1] - z[n0]);
    var bisectX1 := 0.5 * (x[n2] + x[n1] - x[n3] - x[n0]);
    var bisectY1 := 0.5 * (y[n2] + y[n1] - y[n3] - y[n0]);
    var bisectZ1 := 0.5 * (z[n2] + z[n1] - z[n3] - z[n0]);
    var areaX := 0.25 * (bisectY0 * bisectZ1 - bisectZ0 * bisectY1);
    var areaY := 0.25 * (bisectZ0 * bisectX1 - bisectX0 * bisectZ1);
    var areaZ := 0.25 * (bisectX0 * bisectY1 - bisectY0 * bisectX1);
    BisectorArea(y, z, n0, n1, n2, n3, bisectY0, bisectY1, bisectZ0, bisectZ1);
    BisectorArea(z, x, n0, n1, n2, n3, bisectZ0, bisectZ1, bisectX0, bisectX1);
    BisectorArea(x, y, n0, n1, n2, n3, bisectX0, bisectX1, bisectY0, bisectY1);
    AddToNodes(pfx, n0, n1, n2, n3, areaX);
    AddToNodes(pfy, n0, n1, n2, n3, areaY);
    AddToNodes(pfz, n0, n1, n2, n3, areaZ);
  }

  lemma BisectorArea(a: seq<real>, b: seq<real>, n0: nat, n1: nat, n2: nat, n3: nat, a0: real, a1: real, b0: real,
                     b1: real)
    requires |a| == |b| == 8 && n0 < 8 && n1 < 8 && n2 < 8 && n3 < 8
    requires a0 == 0.5 * (a[n3] + a[n2] - a[n1] - a[n0]) && a1 == 0.5 * (a[n2] + a[n1] - a[n3] - a[n0])
    requires b0 == 0.5 * (b[n3] + b[n2] - b[n1] - b[n0]) && b1 == 0.5 * (b[n2] + b[n1] - b[n3] - b[n0])
    ensures 0.25 * (a0 * b1 - b0 * a1) == FaceArea(a, b, n0, n1, n2, n3)
  {
    BisectorProduct(a[n0], a[n1], a[n2], a[n3], b[n0], b[n1], b[n2], b[n3]);
  }

  method AddToNodes(pf: array<real>, n0: nat, n1: nat, n2: nat, n3: nat, w: real)
    requires pf.Length == 8 && n0 < 8 && n1 < 8 && n2 < 8 && n3 < 8
    requires n0 != n1 && n0 != n2 && n0 != n3 && n1 != n2 && n1 != n3 && n2 != n3
    modifies pf
    ensures pf[..] == AddFace(old(pf[..]), n0, n1, n2, n3, w)
  {
    pf[n0] := pf[n0] + w;
    pf[n1] := pf[n1] + w;
    pf[n2] := pf[n2] + w;
    pf[n3] := pf[n3] + w;
  }

  /** CalcElemNodeNormals */
  method CalcElemNodeNormals(pfx: array<real>, pfy: array<real>, pfz: array<real>, x: seq<real>, y: seq<real>,
                             z: seq<real>)
    requires pfx.Length == pfy.Length == pfz.Length == 8 && pfx != pfy && pfx != pfz && pfy != pfz
    requires |x| == |y| == |z| == 8
    modifies pfx, pfy, pfz
    ensures pfx[..] == NodeNormals(y, z) && pfy[..] == NodeNormals(z, x) && pfz[..] == NodeNormals(x, y)
  {
    hide FaceArea, AddFace;
    for i := 0 to 8
      invariant forall j :: 0 <= j < i ==> pfx[j] == 0.0 && pfy[j] == 0.0 && pfz[j] == 0.0
    {
      pfx[i] := 0.0;
      pfy[i] := 0.0;
      pfz[i] := 0.0;
    }
    assert pfx[..] == seq(8, _ => 0.0) && pfy[..] == seq(8, _ => 0.0) && pfz[..] == seq(8, _ => 0.0);
    SumElemFaceNormal(pfx, pfy, pfz, 0, 1, 2, 3, x, y, z);
    SumElemFaceNormal(pfx, pfy, pfz, 0, 4, 5, 1, x, y, z);
    SumElemFaceNormal(pfx, pfy, pfz, 1, 5, 6, 2, x, y, z);
    SumElemFaceNormal(pfx, pfy, pfz, 2, 6, 7, 3, x, y, z);
    SumElemFaceNormal(pfx, pfy, pfz, 3, 7, 4, 0, x, y, z);
    SumElemFaceNormal(pfx, pfy, pfz, 4, 7, 6, 5, x, y, z);
  }

  // ---------- Volume derivatives ----------

  /** The derivative of the volume at a node with these neighbours: a twelfth of the contributions of
      the edges between them. */
  function VolumeSlope(a: seq<real>, b: seq<real>, n0: nat, n1: nat, n2: nat, n3: nat, n4: nat, n5: nat): (d: real)
    requires |a| == |b| == 8 && n0 < 8 && n1 < 8 && n2 < 8 && n3 < 8 && n4 < 8 && n5 < 8
  {
    (Edge(a, b, n1, n0) + Edge(a, b, n2, n0) + Edge(a, b, n2, n1) +
     Edge(a, b, n0, n3) + Edge(a, b, n0, n4) + Edge(a, b, n4, n3) +
     Edge(a, b, n3, n2) + Edge(a, b, n3, n5) + Edge(a, b, n5, n2)) / 12.0
  }

  /** One component of the volume derivative at the eight nodes. */
  function VolumeDerivative(a: seq<real>, b: seq<real>): (d: seq<real>)
    requires |a| == |b| == 8
    ensures |d| == 8
  {
    [VolumeSlope(a, b, 1, 2, 3, 4, 5, 7), VolumeSlope(a, b, 2, 3, 0, 5, 6, 4),
     VolumeSlope(a, b, 3, 0, 1, 6, 7, 5), VolumeSlope(a, b, 0, 1, 2, 7, 4, 6),
     VolumeSlope(a, b, 7, 6, 5, 0, 3, 1), VolumeSlope(a, b, 4, 7, 6, 1, 0, 2),
     VolumeSlope(a, b, 5, 4, 7, 2, 1, 3), VolumeSlope(a, b, 6, 5, 4, 3, 2, 0)]
  }

  function SlopeOf(a0: real, a1: real, a2: real, a3: real, a4: real, a5: real,
                   b0: real, b1: real, b2: real, b3: real, b4: real, b5: real): (d: real)
  {
    (EdgeOf(a1, b1, a0, b0) + EdgeOf(a2, b2, a0, b0) + EdgeOf(a2, b2, a1, b1) +
     EdgeOf(a0, b0, a3, b3) + EdgeOf(a0, b0, a4, b4) + EdgeOf(a4, b4, a3, b3) +
     EdgeOf(a3, b3, a2, b2) + EdgeOf(a3, b3, a5, b5) + EdgeOf(a5, b5, a2, b2)) / 12.0
  }

  /** Two products of sums are three edges. */
  lemma ProductsAreEdges(a0: real, a1: real, a2: real, b0: real, b1: real, b2: real)
    ensures (a1 + a2) * (b0 + b1) - (a0 + a1) * (b1 + b2) ==
            EdgeOf(a1, b1, a0, b0) + EdgeOf(a2, b2, a0, b0) + EdgeOf(a2, b2, a1, b1)
  {
  }

  /** The code's formula for the first component. */
  lemma SlopeFormula(a0: real, a1: real, a2: real, a3: real, a4: real, a5: real,
                     b0: real, b1: real, b2: real, b3: real, b4: real, b5: real)
    ensures ((a1 + a2) * (b0 + b1) - (a0 + a1) * (b1 + b2) +
             (a0 + a4) * (b3 + b4) - (a3 + a4) * (b0 + b4) -
             (a2 + a5) * (b3 + b5) + (a3 + a5) * (b2 + b5)) * (1.0 / 12.0) ==
            SlopeOf(a0, a1, a2, a3, a4, a5, b0, b1, b2, b3, b4, b5)
  {
    ProductsAreEdges(a0, a1, a2, b0, b1, b2);
    ProductsAreEdges(a3, a4, a0, b3, b4, b0);
    ProductsAreEdges(a2, a5, a3, b2, b5, b3);
  }

  /** The code's formula for the other components has the opposite sign and the arguments swapped. */
  lemma SlopeFormulaSwapped(a0: real, a1: real, a2: real, a3: real, a4: real, a5: real,
                            b0: real, b1: real, b2: real, b3: real, b4: real, b5: real)
    ensures (-(a1 + a2) * (b0 + b1) + (a0 + a1) * (b1 + b2) -
             (a0 + a4) * (b3 + b4) + (a3 + a4) * (b0 + b4) +
             (a2 + a5) * (b3 + b5) - (a3 + a5) * (b2 + b5)) * (1.0 / 12.0) ==
            SlopeOf(b0, b1, b2, b3, b4, b5, a0, a1, a2, a3, a4, a5)
  {
    ProductsAreEdges(a0, a1, a2, b0, b1, b2);
    ProductsAreEdges(a3, a4, a0, b3, b4, b0);
    ProductsAreEdges(a2, a5, a3, b2, b5, b3);
  }

  /** VoluDer, at a node with these six neighbours. */
  method VoluDer(x0: real, x1: real, x2: real, x3: real, x4: real, x5: real,
                 y0: real, y1: real, y2: real, y3: real, y4: real, y5: real,
                 z0: real, z1: real, z2: real, z3: real, z4: real, z5: real)
      returns (dvdx: real, dvdy: real, dvdz: real)
    ensures dvdx == SlopeOf(y0, y1, y2, y3, y4, y5, z0, z1, z2, z3, z4, z5)
    ensures dvdy == SlopeOf(z0, z1, z2, z3, z4, z5, x0, x1, x2, x3, x4, x5)
    ensures dvdz == SlopeOf(x0, x1, x2, x3, x4, x5, y0, y1, y2, y3, y4, y5)
  {
    hide SlopeOf;
    SlopeFormula(y0, y1, y2, y3, y4, y5, z0, z1, z2, z3, z4, z5);
    SlopeFormulaSwapped(x0, x1, x2, x3, x4, x5, z0, z1, z2, z3, z4, z5);
    SlopeFormulaSwapped(y0, y1, y2, y3, y4, y5, x0, x1, x2, x3, x4, x5);
    var twelfth := 1.0 / 12.0;
    dvdx := (y1 + y2) * (z0 + z1) - (y0 + y1) * (z1 + z2) +
            (y0 + y4) * (z3 + z4) - (y3 + y4) * (z0 + z4) -
            (y2 + y5) * (z3 + z5) + (y3 + y5) * (z2 + z5);
    dvdy := -(x1 + x2) * (z0 + z1) + (x0 + x1) * (z1 + z2) -
            (x0 + x4) * (z3 + z4) + (x3 + x4) * (z0 + z4) +
            (x2 + x5) * (z3 + z5) - (x3 + x5) * (z2 + z5);
    dvdz := -(y1 + y2) * (x0 + x1) + (y0 + y1) * (x1 + x2) -
            (y0 + y4) * (x3 + x4) + (y3 + y4) * (x0 + x4) +
            (y2 + y5) * (x3 + x5) - (y3 + y5) * (x2 + x5);
    dvdx := dvdx * twelfth;
    dvdy := dvdy * twelfth;
    dvdz := dvdz * twelfth;
  }

  /** VoluDer applied to the neighbours of a node. */
  method VoluDerAt(x: seq<real>, y: seq<real>, z: seq<real>, n0: nat, n1: nat, n2: nat, n3: nat, n4: nat, n5: nat)
      returns (dvdx: real, dvdy: real, dvdz: real)
    requires |x| == |y| == |z| == 8 && n0 < 8 && n1 < 8 && n2 < 8 && n3 < 8 && n4 < 8 && n5 < 8
    ensures dvdx == VolumeSlope(y, z, n0, n1, n2, n3, n4, n5)
    ensures dvdy == VolumeSlope(z, x, n0, n1, n2, n3, n4, n5)
    ensures dvdz == VolumeSlope(x, y, n0, n1, n2, n3, n4, n5)
  {
    dvdx, dvdy, dvdz := VoluDer(x[n0], x[n1], x[n2], x[n3], x[n4], x[n5],
                                y[n0], y[n1], y[n2], y[n3], y[n4], y[n5],
                                z[n0], z[n1], z[n2], z[n3], z[n4], z[n5]);
  }

  /** The volume derivatives at the nodes of an element add up to zero: moving the element as a whole
      does not change its volume. */
  lemma SlopesCancel(a: seq<real>, b: seq<real>)
    requires |a| == |b| == 8
    ensures Sum8(VolumeDerivative(a, b)) == 0.0
  {
    hide Edge;
    forall i: nat, j: nat | i < 8 && j < 8 ensures Edge(a, b, j, i) == -Edge(a, b, i, j) { EdgeBack(a, b, i, j); }
  }

  /** CalcElemVolumeDerivative */
  method CalcElemVolumeDerivative(x: seq<real>, y: seq<real>, z: seq<real>)
      returns (dvdx: seq<real>, dvdy: seq<real>, dvdz: seq<real>)
    requires |x| == |y| == |z| == 8
    ensures dvdx == VolumeDerivative(y, z) && dvdy == VolumeDerivative(z, x) && dvdz == VolumeDerivative(x, y)
  {
    hide VolumeSlope;
    var x0, y0, z0 := VoluDerAt(x, y, z, 1, 2, 3, 4, 5, 7);
    var x3, y3, z3 := VoluDerAt(x, y, z, 0, 1, 2, 7, 4, 6);
    var x2, y2, z2 := VoluDerAt(x, y, z, 3, 0, 1, 6, 7, 5);
    var x1, y1, z1 := VoluDerAt(x, y, z, 2, 3, 0, 5, 6, 4);
    var x4, y4, z4 := VoluDerAt(x, y, z, 7, 6, 5, 0, 3, 1);
    var x5, y5, z5 := VoluDerAt(x, y, z, 4, 7, 6, 1, 0, 2);
    var x6, y6, z6 := VoluDerAt(x, y, z, 5, 4, 7, 2, 1, 3);
    var x7, y7, z7 := VoluDerAt(x, y, z, 6, 5, 4, 3, 2, 0);
    dvdx := [x0, x1, x2, x3, x4, x5, x6, x7];
    dvdy := [y0, y1, y2, y3, y4, y5, y6, y7];
    dvdz := [z0, z1, z2, z3, z4, z5, z6, z7];
  }

  /** A coordinate times an edge. */
  function Turn(x: seq<real>, y: seq<real>, z: seq<real>, i: nat, j: nat, k: nat): (t: real)
    requires |x| == |y| == |z| == 8 && i < 8 && j < 8 && k < 8
  {
    Product(x[i], y[j], z[k]) - Product(x[i], y[k], z[j])
  }

  lemma TimesEdge(x: seq<real>, y: seq<real>, z: seq<real>, i: nat, j: nat, k: nat)
    requires |x| == |y| == |z| == 8 && i < 8 && j < 8 && k < 8
    ensures x[i] * Edge(y, z, j, k) == Turn(x, y, z, i, j, k)
  {
  }

  /** The same when the coordinate is singled out of the next component. */
  function TurnBack(x: seq<real>, y: seq<real>, z: seq<real>, i: nat, j: nat, k: nat): (t: real)
    requires |x| == |y| == |z| == 8 && i < 8 && j < 8 && k < 8
  {
    Product(x[k], y[i], z[j]) - Product(x[j], y[i], z[k])
  }

  lemma TurnIsBack(x: seq<real>, y: seq<real>, z: seq<real>, i: nat, j: nat, k: nat)
    requires |x| == |y| == |z| == 8 && i < 8 && j < 8 && k < 8
    ensures Turn(y, z, x, i, j, k) == TurnBack(x, y, z, i, j, k)
  {
  }

  function Turns(x: seq<real>, y: seq<real>, z: seq<real>, i: nat, n0: nat, n1: nat, n2: nat, n3: nat, n4: nat,
                 n5: nat): (t: real)
    requires |x| == |y| == |z| == 8 && i < 8 && n0 < 8 && n1 < 8 && n2 < 8 && n3 < 8 && n4 < 8 && n5 < 8
  {
    (Turn(x, y, z, i, n1, n0) + Turn(x, y, z, i, n2, n0) + Turn(x, y, z, i, n2, n1) +
     Turn(x, y, z, i, n0, n3) + Turn(x, y, z, i, n0, n4) + Turn(x, y, z, i, n4, n3) +
     Turn(x, y, z, i, n3, n2) + Turn(x, y, z, i, n3, n5) + Turn(x, y, z, i, n5, n2)) / 12.0
  }

  function TurnsBack(x: seq<real>, y: seq<real>, z: seq<real>, i: nat, n0: nat, n1: nat, n2: nat, n3: nat,
                     n4: nat, n5: nat): (t: real)
    requires |x| == |y| == |z| == 8 && i < 8 && n0 < 8 && n1 < 8 && n2 < 8 && n3 < 8 && n4 < 8 && n5 < 8
  {
    (TurnBack(x, y, z, i, n1, n0) + TurnBack(x, y, z, i, n2, n0) + TurnBack(x, y, z, i, n2, n1) +
     TurnBack(x, y, z, i, n0, n3) + TurnBack(x, y, z, i, n0, n4) + TurnBack(x, y, z, i, n4, n3) +
     TurnBack(x, y, z, i, n3, n2) + TurnBack(x, y, z, i, n3, n5) + TurnBack(x, y, z, i, n5, n2)) / 12.0
  }

  lemma TurnsAreBack(x: seq<real>, y: seq<real>, z: seq<real>, i: nat, n0: nat, n1: nat, n2: nat, n3: nat, n4: nat,
                     n5: nat)
    requires |x| == |y| == |z| == 8 && i < 8 && n0 < 8 && n1 < 8 && n2 < 8 && n3 < 8 && n4 < 8 && n5 < 8
    ensures Turns(y, z, x, i, n0, n1, n2, n3, n4, n5) == TurnsBack(x, y, z, i, n0, n1, n2, n3, n4, n5)
  {
    hide Turn, TurnBack;
    TurnIsBack(x, y, z, i, n1, n0);
    TurnIsBack(x, y, z, i, n2, n0);
    TurnIsBack(x, y, z, i, n2, n1);
    TurnIsBack(x, y, z, i, n0, n3);
    TurnIsBack(x, y, z, i, n0, n4);
    TurnIsBack(x, y, z, i, n4, n3);
    TurnIsBack(x, y, z, i, n3, n2);
    TurnIsBack(x, y, z, i, n3, n5);
    TurnIsBack(x, y, z, i, n5, n2);
  }

  lemma SlopeTimes(x: seq<real>, y: seq<real>, z: seq<real>, i: nat, n0: nat, n1: nat, n2: nat, n3: nat, n4: nat,
                   n5: nat)
    requires |x| == |y| == |z| == 8 && i < 8 && n0 < 8 && n1 < 8 && n2 < 8 && n3 < 8 && n4 < 8 && n5 < 8
    ensures x[i] * VolumeSlope(y, z, n0, n1, n2, n3, n4, n5) == Turns(x, y, z, i, n0, n1, n2, n3, n4, n5)
  {
    hide Edge, Turn;
    TimesEdge(x, y, z, i, n1, n0);
    TimesEdge(x, y, z, i, n2, n0);
    TimesEdge(x, y, z, i, n2, n1);
    TimesEdge(x, y, z, i, n0, n3);
    TimesEdge(x, y, z, i, n0, n4);
    TimesEdge(x, y, z, i, n4, n3);
    TimesEdge(x, y, z, i, n3, n2);
    TimesEdge(x, y, z, i, n3, n5);
    TimesEdge(x, y, z, i, n5, n2);
  }

  /** Summed over the nodes, the products of coordinates and edges do not depend on which component is
      singled out. */
  lemma TurnsAgree(x: seq<real>, y: seq<real>, z: seq<real>)
    requires |x| == |y| == |z| == 8
    ensures Turns(x, y, z, 0, 1, 2, 3, 4, 5, 7) + Turns(x, y, z, 1, 2, 3, 0, 5, 6, 4) +
            Turns(x, y, z, 2, 3, 0, 1, 6, 7, 5) + Turns(x, y, z, 3, 0, 1, 2, 7, 4, 6) +
            Turns(x, y, z, 4, 7, 6, 5, 0, 3, 1) + Turns(x, y, z, 5, 4, 7, 6, 1, 0, 2) +
            Turns(x, y, z, 6, 5, 4, 7, 2, 1, 3) + Turns(x, y, z, 7, 6, 5, 4, 3, 2, 0) ==
            TurnsBack(x, y, z, 0, 1, 2, 3, 4, 5, 7) + TurnsBack(x, y, z, 1, 2, 3, 0, 5, 6, 4) +
            TurnsBack(x, y, z, 2, 3, 0, 1, 6, 7, 5) + TurnsBack(x, y, z, 3, 0, 1, 2, 7, 4, 6) +
            TurnsBack(x, y, z, 4, 7, 6, 5, 0, 3, 1) + TurnsBack(x, y, z, 5, 4, 7, 6, 1, 0, 2) +
            TurnsBack(x, y, z, 6, 5, 4, 7, 2, 1, 3) + TurnsBack(x, y, z, 7, 6, 5, 4, 3, 2, 0)
  {
    hide Product;
  }

  /** The volume of the element can be taken from any of the three components: they are the
      derivatives of one volume. */
  lemma OneVolume(x: seq<real>, y: seq<real>, z: seq<real>)
    requires |x| == |y| == |z| == 8
    ensures Dot(x, VolumeDerivative(y, z)) == Dot(y, VolumeDerivative(z, x))
  {
    hide VolumeSlope, Turns, TurnsBack;
    SlopeTimes(x, y, z, 0, 1, 2, 3, 4, 5, 7);
    SlopeTimes(y, z, x, 0, 1, 2, 3, 4, 5, 7);
    SlopeTimes(x, y, z, 1, 2, 3, 0, 5, 6, 4);
    SlopeTimes(y, z, x, 1, 2, 3, 0, 5, 6, 4);
    SlopeTimes(x, y, z, 2, 3, 0, 1, 6, 7, 5);
    SlopeTimes(y, z, x, 2, 3, 0, 1, 6, 7, 5);
    SlopeTimes(x, y, z, 3, 0, 1, 2, 7, 4, 6);
    SlopeTimes(y, z, x, 3, 0, 1, 2, 7, 4, 6);
    SlopeTimes(x, y, z, 4, 7, 6, 5, 0, 3, 1);
    SlopeTimes(y, z, x, 4, 7, 6, 5, 0, 3, 1);
    SlopeTimes(x, y, z, 5, 4, 7, 6, 1, 0, 2);
    SlopeTimes(y, z, x, 5, 4, 7, 6, 1, 0, 2);
    SlopeTimes(x, y, z, 6, 5, 4, 7, 2, 1, 3);
    SlopeTimes(y, z, x, 6, 5, 4, 7, 2, 1, 3);
    SlopeTimes(x, y, z, 7, 6, 5, 4, 3, 2, 0);
    SlopeTimes(y, z, x, 7, 6, 5, 4, 3, 2, 0);
    TurnsAreBack(x, y, z, 0, 1, 2, 3, 4, 5, 7);
    TurnsAreBack(x, y, z, 1, 2, 3, 0, 5, 6, 4);
    TurnsAreBack(x, y, z, 2, 3, 0, 1, 6, 7, 5);
    TurnsAreBack(x, y, z, 3, 0, 1, 2, 7, 4, 6);
    TurnsAreBack(x, y, z, 4, 7, 6, 5, 0, 3, 1);
    TurnsAreBack(x, y, z, 5, 4, 7, 6, 1, 0, 2);
    TurnsAreBack(x, y, z, 6, 5, 4, 7, 2, 1, 3);
    TurnsAreBack(x, y, z, 7, 6, 5, 4, 3, 2, 0);
    TurnsAgree(x, y, z);
  }

  function Volume(x: seq<real>, y: seq<real>, z: seq<real>): (v: real)
    requires |x| == |y| == |z| == 8
  {
    Dot(x, VolumeDerivative(y, z))
  }

  lemma DotUpdate(a: seq<real>, b: seq<real>, i: nat, h: real)
    requires |a| == |b| == 8 && i < 8
    ensures Dot(a[i := a[i] + h], b) == Dot(a, b) + h * b[i]
  {
    hide Dot, Sum8;
    var c := a[i := a[i] + h];
    DotIsSum(a, b);
    DotIsSum(c, b);
    var moved := Products(a, b)[i := Products(a, b)[i] + h * b[i]];
    forall j: nat | j < 8 ensures Products(c, b)[j] == moved[j] { SumTimes(a[i], h, b[i]); }
    assert Products(c, b) == moved;
    SumUpdate(Products(a, b), i, h * b[i]);
  }

  /** The three components are the gradient of the volume: moving one coordinate of one node changes the
      volume by that much times its derivative. */
  lemma VolumeGradient(x: seq<real>, y: seq<real>, z: seq<real>, i: nat, h: real)
    requires |x| == |y| == |z| == 8 && i < 8
    ensures Volume(x[i := x[i] + h], y, z) == Volume(x, y, z) + h * VolumeDerivative(y, z)[i]
    ensures Volume(x, y[i := y[i] + h], z) == Volume(x, y, z) + h * VolumeDerivative(z, x)[i]
    ensures Volume(x, y, z[i := z[i] + h]) == Volume(x, y, z) + h * VolumeDerivative(x, y)[i]
  {
    hide Dot, VolumeDerivative;
    var y', z' := y[i := y[i] + h], z[i := z[i] + h];
    DotUpdate(x, VolumeDerivative(y, z), i, h);
    DotUpdate(y, VolumeDerivative(z, x), i, h);
    DotUpdate(z, VolumeDerivative(x, y), i, h);
    OneVolume(x, y, z);
    OneVolume(y, z, x);
    OneVolume(x, y', z);
    OneVolume(x, y, z');
    OneVolume(y, z', x);
  }
}
