/** The derivatives of the shape functions at the centre of a hexahedral element, and the strain rates computed
    from them. */
module ShapeFunctions {
  import opened HexGeometry
  import opened Vectors

  /** The position of the nodes along axis `axis` of the reference element, from -1 to 1. */
  function Reference(axis: nat): (s: seq<real>)
    requires axis < 3
    ensures |s| == 8
  {
    if axis == 0 then [-1.0, 1.0, 1.0, -1.0, -1.0, 1.0, 1.0, -1.0]
    else if axis == 1 then [-1.0, -1.0, 1.0, 1.0, -1.0, -1.0, 1.0, 1.0]
    else [-1.0, -1.0, -1.0, -1.0, 1.0, 1.0, 1.0, 1.0]
  }

  /** How a quantity changes along an axis at the centre of the element. */
  function Slope(x: seq<real>, axis: nat): (s: real)
    requires |x| == 8 && axis < 3
  {
    0.125 * Dot(x, Reference(axis))
  }

  /** How a quantity changes along the three axes. */
  function SlopesOf(x: seq<real>): (s: Vec)
    requires |x| == 8
  {
    Vec(Slope(x, 0), Slope(x, 1), Slope(x, 2))
  }

  lemma SlopesByNodes(x: seq<real>)
    requires |x| == 8
    ensures SlopesOf(x) == Vec(0.125 * ((x[6] - x[0]) + (x[5] - x[3]) - (x[7] - x[1]) - (x[4] - x[2])),
                             0.125 * ((x[6] - x[0]) - (x[5] - x[3]) + (x[7] - x[1]) - (x[4] - x[2])),
                             0.125 * ((x[6] - x[0]) + (x[5] - x[3]) + (x[7] - x[1]) + (x[4] - x[2])))
  {
  }

  /** Eight times the determinant of the slopes: the volume of the parallelepiped that the slopes span. */
  function ShapeVolume(x: seq<real>, y: seq<real>, z: seq<real>): (v: real)
    requires |x| == |y| == |z| == 8
  {
    8.0 * Det(SlopesOf(x), SlopesOf(y), SlopesOf(z))
  }

  /** The three amounts given to the nodes, added or subtracted as their positions on the reference element
      demand. */
  function Spread(c: Vec): (b: seq<real>)
    ensures |b| == 8
  {
    [-c.x - c.y - c.z, c.x - c.y - c.z, c.x + c.y - c.z, -c.x + c.y - c.z,
     -c.x - c.y + c.z, c.x - c.y + c.z, c.x + c.y + c.z, -c.x + c.y + c.z]
  }

  /** The derivatives in the direction of the coordinate before a and b. */
  function ShapeDerivative(a: seq<real>, b: seq<real>): (d: seq<real>)
    requires |a| == |b| == 8
    ensures |d| == 8
  {
    Spread(Cross(SlopesOf(a), SlopesOf(b)))
  }

  /** CalcElemShapeFunctionDerivatives */
  method CalcElemShapeFunctionDerivatives(x: seq<real>, y: seq<real>, z: seq<real>, b0: array<real>, b1: array<real>,
                                          b2: array<real>) returns (volume: real)
    requires |x| == |y| == |z| == 8
    requires b0.Length == b1.Length == b2.Length == 8 && b0 != b1 && b0 != b2 && b1 != b2
    modifies b0, b1, b2
    ensures b0[..] == ShapeDerivative(y, z) && b1[..] == ShapeDerivative(z, x) && b2[..] == ShapeDerivative(x, y)
    ensures volume == ShapeVolume(x, y, z)
  {
    hide SlopesOf, Spread, Det, Cross;
    var fjxxi := 0.125 * ((x[6] - x[0]) + (x[5] - x[3]) - (x[7] - x[1]) - (x[4] - x[2]));
    var fjxet := 0.125 * ((x[6] - x[0]) - (x[5] - x[3]) + (x[7] - x[1]) - (x[4] - x[2]));
    var fjxze := 0.125 * ((x[6] - x[0]) + (x[5] - x[3]) + (x[7] - x[1]) + (x[4] - x[2]));
    var fjyxi := 0.125 * ((y[6] - y[0]) + (y[5] - y[3]) - (y[7] - y[1]) - (y[4] - y[2]));
    var fjyet := 0.125 * ((y[6] - y[0]) - (y[5] - y[3]) + (y[7] - y[1]) - (y[4] - y[2]));
    var fjyze := 0.125 * ((y[6] - y[0]) + (y[5] - y[3]) + (y[7] - y[1]) + (y[4] - y[2]));
    var fjzxi := 0.125 * ((z[6] - z[0]) + (z[5] - z[3]) - (z[7] - z[1]) - (z[4] - z[2]));
    var fjzet := 0.125 * ((z[6] - z[0]) - (z[5] - z[3]) + (z[7] - z[1]) - (z[4] - z[2]));
    var fjzze := 0.125 * ((z[6] - z[0]) + (z[5] - z[3]) + (z[7] - z[1]) + (z[4] - z[2]));
    ghost var sx, sy, sz := Vec(fjxxi, fjxet, fjxze), Vec(fjyxi, fjyet, fjyze), Vec(fjzxi, fjzet, fjzze);
    SlopesByNodes(x);
    SlopesByNodes(y);
    SlopesByNodes(z);
    var cjxxi := (fjyet * fjzze) - (fjzet * fjyze);
    var cjxet := -(fjyxi * fjzze) + (fjzxi * fjyze);
    var cjxze := (fjyxi * fjzet) - (fjzxi * fjyet);
    var cjyxi := -(fjxet * fjzze) + (fjzet * fjxze);
    var cjyet := (fjxxi * fjzze) - (fjzxi * fjxze);
    var cjyze := -(fjxxi * fjzet) + (fjzxi * fjxet);
    var cjzxi := (fjxet * fjyze) - (fjyet * fjxze);
    var cjzet := -(fjxxi * fjyze) + (fjyxi * fjxze);
    var cjzze := (fjxxi * fjyet) - (fjyxi * fjxet);
    ghost var cx, cy, cz := Vec(cjxxi, cjxet, cjxze), Vec(cjyxi, cjyet, cjyze), Vec(cjzxi, cjzet, cjzze);
    AreCofactors(sy, sz, cx);
    AreCofactors(sz, sx, cy);
    AreCofactors(sx, sy, cz);
    Partials(cjxxi, cjxet, cjxze, b0);
    Partials(cjyxi, cjyet, cjyze, b1);
    Partials(cjzxi, cjzet, cjzze, b2);
    volume := 8.0 * (fjxet * cjxet + fjyet * cjyet + fjzet * cjzet);
    DetBySecondAxis(sx, sy, sz, fjxet, fjyet, fjzet, cjxet, cjyet, cjzet);
  }

  /** The partials for one coordinate: the nodes 4 to 7 get the negated values of the opposite nodes. */
  method Partials(cxi: real, cet: real, cze: real, b: array<real>)
    requires b.Length == 8
    modifies b
    ensures b[..] == Spread(Vec(cxi, cet, cze))
  {
    b[0] := -cxi - cet - cze;
    b[1] := cxi - cet - cze;
    b[2] := cxi + cet - cze;
    b[3] := -cxi + cet - cze;
    b[4] := -b[2];
    b[5] := -b[3];
    b[6] := -b[0];
    b[7] := -b[1];
  }

  lemma AreCofactors(a: Vec, b: Vec, c: Vec)
    requires c.x == a.y * b.z - b.y * a.z && c.y == b.x * a.z - a.x * b.z
    requires c.z == a.x * b.y - b.x * a.y
    ensures c == Cross(a, b)
  {
  }

  /** The code expands the determinant along the second axis. */
  lemma DetBySecondAxis(a: Vec, b: Vec, c: Vec, aet: real, bet: real, cet: real, bcet: real, caet: real,
                        abet: real)
    requires aet == a.y && bet == b.y && cet == c.y
    requires bcet == Cross(b, c).y && caet == Cross(c, a).y && abet == Cross(a, b).y
    ensures aet * bcet + bet * caet + cet * abet == Det(a, b, c)
  {
    hide Det, Cross;
    SecondAxis(a, b, c);
  }

  lemma SecondAxis(a: Vec, b: Vec, c: Vec)
    ensures a.y * Cross(b, c).y + b.y * Cross(c, a).y + c.y * Cross(a, b).y == Det(a, b, c)
  {
    hide Product, Det, Cross;
    DetProducts(a, b, c);
    DetProducts(b, c, a);
    DetProducts(c, a, b);
    Exchanged(a.x, b.y, c.z);
    Exchanged(b.y, c.z, a.x);
    Exchanged(a.z, b.y, c.x);
    Exchanged(b.y, c.x, a.z);
    Exchanged(a.x, b.z, c.y);
    Exchanged(a.z, b.x, c.y);
    Exchanged(c.y, a.x, b.z);
    Exchanged(c.y, a.z, b.x);
  }

  // ---------- What the derivatives are ----------

  lemma DotReference(f: seq<real>, c: Vec)
    requires |f| == 8
    ensures Dot(f, Spread(c)) == 8.0 * Scalar(SlopesOf(f), c)
  {
  }

  /** The field with these slopes in x, y and z. */
  function LinearField(c: real, p: real, q: real, r: real, x: seq<real>, y: seq<real>, z: seq<real>): (f: seq<real>)
    requires |x| == |y| == |z| == 8
    ensures |f| == 8
  {
    seq(8, i requires 0 <= i < 8 => c + p * x[i] + q * y[i] + r * z[i])
  }

  lemma LinearFieldDot(c: real, p: real, q: real, r: real, x: seq<real>, y: seq<real>, z: seq<real>, b: seq<real>)
    requires |x| == |y| == |z| == |b| == 8
    ensures Dot(LinearField(c, p, q, r, x, y, z), b) ==
            c * Dot(Ones(), b) + p * Dot(x, b) + q * Dot(y, b) + r * Dot(z, b)
  {
    hide Dot;
    var c0, x0, y0, z0 := Scaled(Ones(), c), Scaled(x, p), Scaled(y, q), Scaled(z, r);
    assert LinearField(c, p, q, r, x, y, z) == Plus8(Plus8(Plus8(c0, x0), y0), z0);
    DotPlus(c0, x0, b);
    DotPlus(Plus8(c0, x0), y0, b);
    DotPlus(Plus8(Plus8(c0, x0), y0), z0, b);
    DotScaled(c, Ones(), b);
    DotScaled(p, x, b);
    DotScaled(q, y, b);
    DotScaled(r, z, b);
  }

  function Ones(): (s: seq<real>)
    ensures |s| == 8
  {
    seq(8, _ => 1.0)
  }

  lemma ReferenceIsBalanced(axis: nat)
    requires axis < 3
    ensures Dot(Ones(), Reference(axis)) == 0.0
  {
  }

  lemma LinearFieldSlope(c: real, p: real, q: real, r: real, x: seq<real>, y: seq<real>, z: seq<real>, axis: nat)
    requires |x| == |y| == |z| == 8 && axis < 3
    ensures Slope(LinearField(c, p, q, r, x, y, z), axis) ==
            p * Slope(x, axis) + q * Slope(y, axis) + r * Slope(z, axis)
  {
    hide Dot, LinearField, Reference, Ones;
    ReferenceIsBalanced(axis);
    LinearFieldDot(c, p, q, r, x, y, z, Reference(axis));
  }

  lemma FirstDerivative(c: real, p: real, q: real, r: real, x: seq<real>, y: seq<real>, z: seq<real>)
    requires |x| == |y| == |z| == 8
    ensures Dot(LinearField(c, p, q, r, x, y, z), ShapeDerivative(y, z)) == p * ShapeVolume(x, y, z)
  {
    hide Dot, LinearField, Spread, Slope, Cross, Scalar;
    var f, sx, sy, sz := LinearField(c, p, q, r, x, y, z), SlopesOf(x), SlopesOf(y), SlopesOf(z);
    LinearFieldSlope(c, p, q, r, x, y, z, 0);
    LinearFieldSlope(c, p, q, r, x, y, z, 1);
    LinearFieldSlope(c, p, q, r, x, y, z, 2);
    DotReference(f, Cross(sy, sz));
    ScalarCombination(sx, sy, sz, p, q, r, Cross(sy, sz));
    CrossIsOrthogonal(sy, sz);
    assert SlopesOf(f) == Vec(p * sx.x + q * sy.x + r * sz.x, p * sx.y + q * sy.y + r * sz.y,
                            p * sx.z + q * sy.z + r * sz.z);
    assert q * Det(sy, sy, sz) == 0.0 && r * Det(sz, sy, sz) == 0.0;
    assert 8.0 * (p * Det(sx, sy, sz)) == p * ShapeVolume(x, y, z);
  }

  lemma OneShapeVolume(x: seq<real>, y: seq<real>, z: seq<real>)
    requires |x| == |y| == |z| == 8
    ensures ShapeVolume(x, y, z) == ShapeVolume(y, z, x)
  {
    hide Slope, Det;
    DetTurns(SlopesOf(x), SlopesOf(y), SlopesOf(z));
  }

  lemma LinearFieldTurns(c: real, p: real, q: real, r: real, x: seq<real>, y: seq<real>, z: seq<real>)
    requires |x| == |y| == |z| == 8
    ensures LinearField(c, p, q, r, x, y, z) == LinearField(c, q, r, p, y, z, x)
  {
  }

  /** On any element the derivatives of a field that is linear in space are exact: they are its slopes, times the
      volume. */
  lemma LinearFieldDerivatives(c: real, p: real, q: real, r: real, x: seq<real>, y: seq<real>, z: seq<real>)
    requires |x| == |y| == |z| == 8
    ensures var f, v := LinearField(c, p, q, r, x, y, z), ShapeVolume(x, y, z);
            && Dot(f, ShapeDerivative(y, z)) == p * v && Dot(f, ShapeDerivative(z, x)) == q * v
            && Dot(f, ShapeDerivative(x, y)) == r * v
  {
    hide Dot, LinearField, ShapeDerivative, ShapeVolume;
    LinearFieldTurns(c, p, q, r, x, y, z);
    LinearFieldTurns(c, q, r, p, y, z, x);
    OneShapeVolume(x, y, z);
    OneShapeVolume(y, z, x);
    FirstDerivative(c, p, q, r, x, y, z);
    FirstDerivative(c, q, r, p, y, z, x);
    FirstDerivative(c, r, p, q, z, x, y);
  }

  lemma VolumeByDot(x: seq<real>, y: seq<real>, z: seq<real>)
    requires |x| == |y| == |z| == 8
    ensures ShapeVolume(x, y, z) == Dot(x, ShapeDerivative(y, z))
  {
    hide Dot, Spread, Slope;
    DotReference(x, Cross(SlopesOf(y), SlopesOf(z)));
  }

  /** The derivatives are the gradient of the volume that the shape functions give the element. */
  lemma ShapeVolumeGradient(x: seq<real>, y: seq<real>, z: seq<real>, i: nat, h: real)
    requires |x| == |y| == |z| == 8 && i < 8
    ensures ShapeVolume(x[i := x[i] + h], y, z) == ShapeVolume(x, y, z) + h * ShapeDerivative(y, z)[i]
    ensures ShapeVolume(x, y[i := y[i] + h], z) == ShapeVolume(x, y, z) + h * ShapeDerivative(z, x)[i]
    ensures ShapeVolume(x, y, z[i := z[i] + h]) == ShapeVolume(x, y, z) + h * ShapeDerivative(x, y)[i]
  {
    hide Dot, ShapeDerivative, ShapeVolume;
    FirstGradient(x, y, z, i, h);
    FirstGradient(y, z, x, i, h);
    FirstGradient(z, x, y, i, h);
    OneShapeVolume(x, y, z);
    OneShapeVolume(y, z, x);
    OneShapeVolume(x, y[i := y[i] + h], z);
    OneShapeVolume(x, y, z[i := z[i] + h]);
    OneShapeVolume(y, z[i := z[i] + h], x);
  }

  lemma FirstGradient(x: seq<real>, y: seq<real>, z: seq<real>, i: nat, h: real)
    requires |x| == |y| == |z| == 8 && i < 8
    ensures ShapeVolume(x[i := x[i] + h], y, z) == ShapeVolume(x, y, z) + h * ShapeDerivative(y, z)[i]
  {
    hide Dot, ShapeDerivative, ShapeVolume;
    VolumeByDot(x, y, z);
    VolumeByDot(x[i := x[i] + h], y, z);
    DotUpdate(x, ShapeDerivative(y, z), i, h);
  }

  /** Parallelepipeds get their volume, wherever they are: the determinant of their edges, which are twice a, b
      and c. */
  lemma ParallelepipedVolume(x: real, y: real, z: real, a: Vec, b: Vec, c: Vec)
    ensures ShapeVolume(AffineNodes(x, a), AffineNodes(y, b), AffineNodes(z, c)) == 8.0 * Det(a, b, c)
    ensures Det(a, b, c) == a.x * (b.y * c.z - c.y * b.z) + a.y * (c.x * b.z - b.x * c.z) +
                            a.z * (b.x * c.y - c.x * b.y)
  {
    hide AffineNodes, Slope;
    AffineSlopes(x, a);
    AffineSlopes(y, b);
    AffineSlopes(z, c);
  }

  /** The nodes of the parallelepiped with this centre and these half edges, in one coordinate. */
  function AffineNodes(centre: real, a: Vec): (x: seq<real>)
    ensures |x| == 8
  {
    LinearField(centre, a.x, a.y, a.z, Reference(0), Reference(1), Reference(2))
  }

  lemma AffineSlopes(centre: real, a: Vec)
    ensures SlopesOf(AffineNodes(centre, a)) == a
  {
    SlopesByNodes(AffineNodes(centre, a));
  }

  // ---------- Strain rates ----------

  /** Opposite nodes have opposite values. */
  predicate Odd(b: seq<real>)
  {
    |b| == 8 && b[4] == -b[2] && b[5] == -b[3] && b[6] == -b[0] && b[7] == -b[1]
  }

  lemma DerivativeIsOdd(a: seq<real>, b: seq<real>)
    requires |a| == |b| == 8
    ensures Odd(ShapeDerivative(a, b))
  {
    hide SlopesOf, Cross;
  }

  /** The symmetric part of the velocity gradient: its diagonal, then yz, xz and xy. */
  function StrainRate(xvel: seq<real>, yvel: seq<real>, zvel: seq<real>, b0: seq<real>, b1: seq<real>, b2: seq<real>,
                      detJ: real): (d: seq<real>)
    requires |xvel| == |yvel| == |zvel| == |b0| == |b1| == |b2| == 8 && detJ != 0.0
    ensures |d| == 6
  {
    [Dot(xvel, b0) / detJ, Dot(yvel, b1) / detJ, Dot(zvel, b2) / detJ,
     0.5 * (Dot(zvel, b1) / detJ + Dot(yvel, b2) / detJ), 0.5 * (Dot(xvel, b2) / detJ + Dot(zvel, b0) / detJ),
     0.5 * (Dot(xvel, b1) / detJ + Dot(yvel, b0) / detJ)]
  }

  /** Half of the products suffice. */
  lemma OppositeNodes(vel: seq<real>, b: seq<real>, detJ: real)
    requires |vel| == 8 && Odd(b) && detJ != 0.0
    ensures (1.0 / detJ) * (b[0] * (vel[0] - vel[6]) + b[1] * (vel[1] - vel[7]) +
                            b[2] * (vel[2] - vel[4]) + b[3] * (vel[3] - vel[5])) == Dot(vel, b) / detJ
  {
    var s := b[0] * (vel[0] - vel[6]) + b[1] * (vel[1] - vel[7]) + b[2] * (vel[2] - vel[4]) + b[3] * (vel[3] - vel[5]);
    assert vel[6] * b[6] == -(b[0] * vel[6]) && vel[7] * b[7] == -(b[1] * vel[7]);
    assert vel[4] * b[4] == -(b[2] * vel[4]) && vel[5] * b[5] == -(b[3] * vel[5]);
    assert s == Dot(vel, b);
  }

  /** CalcElemVelocityGradient */
  method CalcElemVelocityGradient(xvel: seq<real>, yvel: seq<real>, zvel: seq<real>, pfx: seq<real>, pfy: seq<real>,
                                  pfz: seq<real>, detJ: real, d: array<real>)
    requires |xvel| == |yvel| == |zvel| == 8 && Odd(pfx) && Odd(pfy) && Odd(pfz) && detJ != 0.0 && d.Length == 6
    modifies d
    ensures d[..] == StrainRate(xvel, yvel, zvel, pfx, pfy, pfz, detJ)
  {
    hide Dot, Odd;
    d[0] := Derivative(xvel, pfx, detJ);
    d[1] := Derivative(yvel, pfy, detJ);
    d[2] := Derivative(zvel, pfz, detJ);
    var dyddx := Derivative(yvel, pfx, detJ);
    var dxddy := Derivative(xvel, pfy, detJ);
    var dzddx := Derivative(zvel, pfx, detJ);
    var dxddz := Derivative(xvel, pfz, detJ);
    var dzddy := Derivative(zvel, pfy, detJ);
    var dyddz := Derivative(yvel, pfz, detJ);
    d[5] := 0.5 * (dxddy + dyddx);
    d[4] := 0.5 * (dxddz + dzddx);
    d[3] := 0.5 * (dzddy + dyddz);
  }

  /** One derivative of a velocity. */
  method Derivative(vel: seq<real>, pf: seq<real>, detJ: real) returns (d: real)
    requires |vel| == 8 && Odd(pf) && detJ != 0.0
    ensures d == Dot(vel, pf) / detJ
  {
    var invDetJ := 1.0 / detJ;
    d := invDetJ * (pf[0] * (vel[0] - vel[6]) + pf[1] * (vel[1] - vel[7]) +
                    pf[2] * (vel[2] - vel[4]) + pf[3] * (vel[3] - vel[5]));
    OppositeNodes(vel, pf, detJ);
  }

  /** Where the nodes were half a time step ago. */
  function StepBack(x: seq<real>, vel: seq<real>, dt2: real): (r: seq<real>)
    requires |x| == |vel| == 8
    ensures |r| == 8
  {
    seq(8, j requires 0 <= j < 8 => x[j] - dt2 * vel[j])
  }

  /** From there half a time step leads to where they are. */
  lemma StepForward(x: seq<real>, vel: seq<real>, dt2: real, j: nat)
    requires |x| == |vel| == 8 && j < 8
    ensures StepBack(x, vel, dt2)[j] + dt2 * vel[j] == x[j]
  {
  }

  /** The nodes are moved back in place. */
  method MoveBack(local: array<real>, vel: seq<real>, dt2: real)
    requires local.Length == |vel| == 8
    modifies local
    ensures local[..] == StepBack(old(local[..]), vel, dt2)
  {
    ghost var back := StepBack(local[..], vel, dt2);
    for j := 0 to 8
      invariant forall i :: 0 <= i < j ==> local[i] == back[i]
      invariant forall i :: j <= i < 8 ==> local[i] == old(local[i])
    {
      local[j] := local[j] - dt2 * vel[j];
    }
  }

  /** The part of CalcKinematicsForElems that computes the strain rates of an element: at the middle of the time
      step. */
  method ElementStrain(x: array<real>, y: array<real>, z: array<real>, xvel: seq<real>, yvel: seq<real>,
                       zvel: seq<real>, deltaTime: real, d: array<real>)
    requires x.Length == y.Length == z.Length == |xvel| == |yvel| == |zvel| == 8 && d.Length == 6
    requires x != y && x != z && y != z && d != x && d != y && d != z
    requires var dt2 := 0.5 * deltaTime;
             ShapeVolume(StepBack(x[..], xvel, dt2), StepBack(y[..], yvel, dt2), StepBack(z[..], zvel, dt2)) != 0.0
    modifies x, y, z, d
    ensures x[..] == StepBack(old(x[..]), xvel, 0.5 * deltaTime)
    ensures y[..] == StepBack(old(y[..]), yvel, 0.5 * deltaTime)
    ensures z[..] == StepBack(old(z[..]), zvel, 0.5 * deltaTime)
    ensures d[..] == StrainRate(xvel, yvel, zvel, ShapeDerivative(y[..], z[..]), ShapeDerivative(z[..], x[..]),
                       ShapeDerivative(x[..], y[..]), ShapeVolume(x[..], y[..], z[..]))
  {
    hide StepBack, ShapeDerivative, ShapeVolume, StrainRate, Odd;
    var dt2 := 0.5 * deltaTime;
    MoveBack(x, xvel, dt2);
    MoveBack(y, yvel, dt2);
    MoveBack(z, zvel, dt2);
    var b0, b1, b2 := new real[8], new real[8], new real[8];
    var detJ := CalcElemShapeFunctionDerivatives(x[..], y[..], z[..], b0, b1, b2);
    DerivativeIsOdd(y[..], z[..]);
    DerivativeIsOdd(z[..], x[..]);
    DerivativeIsOdd(x[..], y[..]);
    CalcElemVelocityGradient(xvel, yvel, zvel, b0[..], b1[..], b2[..], detJ, d);
  }

  lemma StrainRateOf(xvel: seq<real>, yvel: seq<real>, zvel: seq<real>, b0: seq<real>, b1: seq<real>, b2: seq<real>,
                     detJ: real, gx: Vec, gy: Vec, gz: Vec)
    requires |xvel| == |yvel| == |zvel| == |b0| == |b1| == |b2| == 8 && detJ != 0.0
    requires Dot(xvel, b0) / detJ == gx.x && Dot(xvel, b1) / detJ == gx.y && Dot(xvel, b2) / detJ == gx.z
    requires Dot(yvel, b0) / detJ == gy.x && Dot(yvel, b1) / detJ == gy.y && Dot(yvel, b2) / detJ == gy.z
    requires Dot(zvel, b0) / detJ == gz.x && Dot(zvel, b1) / detJ == gz.y && Dot(zvel, b2) / detJ == gz.z
    ensures StrainRate(xvel, yvel, zvel, b0, b1, b2, detJ) ==
            [gx.x, gy.y, gz.z, 0.5 * (gz.y + gy.z), 0.5 * (gx.z + gz.x), 0.5 * (gx.y + gy.x)]
  {
    hide Dot;
  }

  lemma Recovered(g: Vec, v: real)
    requires v != 0.0
    ensures (g.x * v) / v == g.x && (g.y * v) / v == g.y && (g.z * v) / v == g.z
  {
  }

  /** The strain rates of a velocity that is linear in space are exact on every element that has a volume; in
      particular an element that only moves and turns has none. */
  lemma LinearStrainRate(x: seq<real>, y: seq<real>, z: seq<real>, u: real, v: real, w: real, gx: Vec, gy: Vec,
                         gz: Vec)
    requires |x| == |y| == |z| == 8 && ShapeVolume(x, y, z) != 0.0
    ensures StrainRate(LinearField(u, gx.x, gx.y, gx.z, x, y, z), LinearField(v, gy.x, gy.y, gy.z, x, y, z),
              LinearField(w, gz.x, gz.y, gz.z, x, y, z), ShapeDerivative(y, z), ShapeDerivative(z, x),
              ShapeDerivative(x, y), ShapeVolume(x, y, z)) ==
            [gx.x, gy.y, gz.z, 0.5 * (gz.y + gy.z), 0.5 * (gx.z + gz.x), 0.5 * (gx.y + gy.x)]
  {
    hide Dot, LinearField, ShapeDerivative, ShapeVolume, StrainRate;
    Recovered(gx, ShapeVolume(x, y, z));
    Recovered(gy, ShapeVolume(x, y, z));
    Recovered(gz, ShapeVolume(x, y, z));
    LinearFieldDerivatives(u, gx.x, gx.y, gx.z, x, y, z);
    LinearFieldDerivatives(v, gy.x, gy.y, gy.z, x, y, z);
    LinearFieldDerivatives(w, gz.x, gz.y, gz.z, x, y, z);
    StrainRateOf(LinearField(u, gx.x, gx.y, gx.z, x, y, z), LinearField(v, gy.x, gy.y, gy.z, x, y, z),
      LinearField(w, gz.x, gz.y, gz.z, x, y, z), ShapeDerivative(y, z), ShapeDerivative(z, x),
      ShapeDerivative(x, y), ShapeVolume(x, y, z), gx, gy, gz);
  }
}
