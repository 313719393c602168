/** The work of the forces: stress forces do the work of the stresses, and hourglass forces only take energy from
    motions that are not linear in space.
 */
module LuleshWork {
  import opened Vectors
  import opened HexGeometry
  import opened ShapeFunctions
  import opened Parallelepipeds
  import opened Lulesh
  import opened LuleshForces

  // ---------- Stress forces of one element ----------

  lemma StressPower(stress: real, normals: seq<real>, velocity: seq<real>)
    requires |normals| == |velocity| == 8
    ensures Dot(StressForce(stress, normals), velocity) == -stress * Dot(velocity, normals)
  {
    hide Dot;
    forall i | 0 <= i < 8 ensures -(stress * normals[i]) == -stress * normals[i] { NegatedProduct(stress, normals[i]); }
    assert StressForce(stress, normals) == Scaled(normals, -stress);
    DotScaled(-stress, normals, velocity);
    DotSwap(normals, velocity);
  }

  /** The coordinates are those of the nodes of a parallelepiped. */
  ghost predicate IsParallelepiped(x: seq<real>, y: seq<real>, z: seq<real>) {
    exists u: real, v: real, w: real, a: Vec, b: Vec, c: Vec ::
      x == AffineNodes(u, a) && y == AffineNodes(v, b) && z == AffineNodes(w, c)
  }

  /** The power of the stress forces of a parallelepiped on a velocity with gradient (gx, gy, gz) is the work of the
      stresses against the strain rates: minus stress times rate times volume. */
  lemma StressWork(x: seq<real>, y: seq<real>, z: seq<real>, sx: real, sy: real, sz: real, u: real, v: real, w: real,
                   gx: Vec, gy: Vec, gz: Vec)
    requires |x| == |y| == |z| == 8 && IsParallelepiped(x, y, z)
    ensures Dot(StressForce(sx, NodeNormals(y, z)), LinearField(u, gx.x, gx.y, gx.z, x, y, z)) +
            Dot(StressForce(sy, NodeNormals(z, x)), LinearField(v, gy.x, gy.y, gy.z, x, y, z)) +
            Dot(StressForce(sz, NodeNormals(x, y)), LinearField(w, gz.x, gz.y, gz.z, x, y, z)) ==
            -(sx * gx.x + sy * gy.y + sz * gz.z) * ShapeVolume(x, y, z)
  {
    hide Dot, StressForce, NodeNormals, ShapeDerivative, ShapeVolume, LinearField, AffineNodes, Spread;
    var x0: real, y0: real, z0: real, a: Vec, b: Vec, c: Vec :|
      x == AffineNodes(x0, a) && y == AffineNodes(y0, b) && z == AffineNodes(z0, c);
    AffineNormals(y0, b, z0, c);
    AffineNormals(z0, c, x0, a);
    AffineNormals(x0, a, y0, b);
    var vx, vy, vz := LinearField(u, gx.x, gx.y, gx.z, x, y, z), LinearField(v, gy.x, gy.y, gy.z, x, y, z),
      LinearField(w, gz.x, gz.y, gz.z, x, y, z);
    StressPower(sx, NodeNormals(y, z), vx);
    StressPower(sy, NodeNormals(z, x), vy);
    StressPower(sz, NodeNormals(x, y), vz);
    LinearFieldDerivatives(u, gx.x, gx.y, gx.z, x, y, z);
    LinearFieldDerivatives(v, gy.x, gy.y, gy.z, x, y, z);
    LinearFieldDerivatives(w, gz.x, gz.y, gz.z, x, y, z);
    ThreeWorks(sx, sy, sz, gx.x, gy.y, gz.z, ShapeVolume(x, y, z));
  }

  lemma ThreeWorks(sx: real, sy: real, sz: real, a: real, b: real, c: real, v: real)
    ensures -sx * (a * v) + -sy * (b * v) + -sz * (c * v) == -(sx * a + sy * b + sz * c) * v
  {
    var p, q, r := sx * a, sy * b, sz * c;
    Regrouped(sx, a, v);
    Regrouped(sy, b, v);
    Regrouped(sz, c, v);
    NegatedProduct(sx, a * v);
    NegatedProduct(sy, b * v);
    NegatedProduct(sz, c * v);
    assert -(p + q + r) * v == -(p * v) - q * v - r * v;
  }

  // ---------- Hourglass forces of one element ----------

  /** The shapes of hourglass motion are the products of two of the positions on the reference element, and of all
      three. */
  lemma GammaShapes(i: nat)
    requires i < 8
    ensures var r0, r1, r2 := Reference(0)[i], Reference(1)[i], Reference(2)[i];
            && Gamma(0)[i] == r1 * r2 && Gamma(1)[i] == r0 * r2 && Gamma(2)[i] == r0 * r1
            && Gamma(3)[i] == r0 * r1 * r2
  {
  }

  /** The volume does not change along a coordinate that is doubled. */
  lemma TwiceTheSame(x: seq<real>, y: seq<real>)
    requires |x| == |y| == 8
    ensures Dot(y, VolumeDerivative(x, x)) == 0.0 && Dot(x, VolumeDerivative(x, y)) == 0.0 &&
            Dot(x, VolumeDerivative(y, x)) == 0.0
  {
    hide Dot, VolumeDerivative;
    forall i: nat | i < 8 ensures VolumeDerivative(x, x)[i] == 0.0 { DerivativeBack(x, x, i); }
    DotZero(y, VolumeDerivative(x, x));
    OneVolume(y, x, x);
    OneVolume(x, x, y);
  }

  lemma DotZero(a: seq<real>, d: seq<real>)
    requires |a| == |d| == 8 && forall i: nat :: i < 8 ==> d[i] == 0.0
    ensures Dot(a, d) == 0.0
  {
  }

  /** With the element's own volume no mode sees a coordinate. */
  lemma ModeOfCoordinate(gamma: seq<real>, x: seq<real>, y: seq<real>, z: seq<real>)
    requires |gamma| == |x| == |y| == |z| == 8 && Volume(x, y, z) != 0.0
    ensures var m := HourglassMode(gamma, 1.0 / Volume(x, y, z), VolumeDerivative(y, z), VolumeDerivative(z, x),
                       VolumeDerivative(x, y), x, y, z);
            Dot(m, x) == 0.0 && Dot(m, y) == 0.0 && Dot(m, z) == 0.0
  {
    hide Dot, HourglassMode, VolumeDerivative;
    var dx, dy, dz := VolumeDerivative(y, z), VolumeDerivative(z, x), VolumeDerivative(x, y);
    var v := Volume(x, y, z);
    TwiceTheSame(x, y);
    TwiceTheSame(x, z);
    TwiceTheSame(y, x);
    TwiceTheSame(y, z);
    TwiceTheSame(z, x);
    TwiceTheSame(z, y);
    OneVolume(x, y, z);
    OneVolume(y, z, x);
    ModeDot(gamma, 1.0 / v, dx, dy, dz, x, y, z, x);
    ModeDot(gamma, 1.0 / v, dx, dy, dz, x, y, z, y);
    ModeDot(gamma, 1.0 / v, dx, dy, dz, x, y, z, z);
    Recovers(Dot(x, gamma), v);
    Recovers(Dot(y, gamma), v);
    Recovers(Dot(z, gamma), v);
    DotSwap(gamma, x);
    DotSwap(gamma, y);
    DotSwap(gamma, z);
  }

  lemma Recovers(h: real, v: real)
    requires v != 0.0
    ensures 1.0 / v * (v * h) == h
  {
    Regrouped(1.0 / v, v, h);
  }

  lemma ModeDot(gamma: seq<real>, volinv: real, dx: seq<real>, dy: seq<real>, dz: seq<real>,
                x: seq<real>, y: seq<real>, z: seq<real>, f: seq<real>)
    requires |gamma| == |dx| == |dy| == |dz| == |x| == |y| == |z| == |f| == 8
    ensures Dot(HourglassMode(gamma, volinv, dx, dy, dz, x, y, z), f) ==
            Dot(gamma, f) - volinv * (Dot(f, dx) * Dot(x, gamma) + Dot(f, dy) * Dot(y, gamma) +
                                      Dot(f, dz) * Dot(z, gamma))
  {
    hide Dot;
    var hx, hy, hz := Dot(x, gamma), Dot(y, gamma), Dot(z, gamma);
    var w := Plus8(Plus8(Scaled(dx, hx), Scaled(dy, hy)), Scaled(dz, hz));
    var m := HourglassMode(gamma, volinv, dx, dy, dz, x, y, z);
    forall i | 0 <= i < 8 ensures m[i] == Plus8(gamma, Scaled(w, -volinv))[i] {
      ThreeTerms(gamma[i], dx[i], dy[i], dz[i], hx, hy, hz, volinv);
    }
    assert m == Plus8(gamma, Scaled(w, -volinv));
    DotPlus(gamma, Scaled(w, -volinv), f);
    DotScaled(-volinv, w, f);
    DotPlus(Plus8(Scaled(dx, hx), Scaled(dy, hy)), Scaled(dz, hz), f);
    DotPlus(Scaled(dx, hx), Scaled(dy, hy), f);
    DotScaled(hx, dx, f);
    DotScaled(hy, dy, f);
    DotScaled(hz, dz, f);
    DotSwap(dx, f);
    DotSwap(dy, f);
    DotSwap(dz, f);
    NegatedProduct(volinv, Dot(f, dx) * hx + Dot(f, dy) * hy + Dot(f, dz) * hz);
  }

  /** A velocity that is linear in space meets no hourglass force, on any element whose volume is used. */
  lemma NoHourglassForce(x: seq<real>, y: seq<real>, z: seq<real>, c: real, p: real, q: real, r: real,
                         coefficient: real)
    requires |x| == |y| == |z| == 8 && Volume(x, y, z) != 0.0
    ensures HourglassForce(Modes(CornerOf(x, y, z), 1.0 / Volume(x, y, z)), LinearField(c, p, q, r, x, y, z),
              coefficient) == seq(8, _ => 0.0)
  {
    hide Dot, LinearField, HourglassMode, VolumeDerivative, Gamma, Volume, Sum8, Ones;
    var modes, f := Modes(CornerOf(x, y, z), 1.0 / Volume(x, y, z)), LinearField(c, p, q, r, x, y, z);
    ModesCancel(x, y, z, 1.0 / Volume(x, y, z));
    forall j: nat | j < 4 ensures Dot(modes[j], f) == 0.0 {
      ModeOfCoordinate(Gamma(j), x, y, z);
      LinearFieldDot(c, p, q, r, x, y, z, modes[j]);
      DotOnes(modes[j]);
      DotSwap(modes[j], f);
      DotSwap(modes[j], x);
      DotSwap(modes[j], y);
      DotSwap(modes[j], z);
    }
  }

  /** The force is the coefficient times the modes, each weighed by its product with the velocity. */
  lemma ForceIsWeighed(modes: seq<seq<real>>, velocity: seq<real>, coefficient: real,
                       h0: real, h1: real, h2: real, h3: real)
    requires |modes| == 4 && (forall j :: 0 <= j < 4 ==> |modes[j]| == 8) && |velocity| == 8
    requires h0 == Dot(modes[0], velocity) && h1 == Dot(modes[1], velocity)
    requires h2 == Dot(modes[2], velocity) && h3 == Dot(modes[3], velocity)
    ensures HourglassForce(modes, velocity, coefficient) ==
            Scaled(Plus8(Plus8(Scaled(modes[0], h0), Scaled(modes[1], h1)),
                         Plus8(Scaled(modes[2], h2), Scaled(modes[3], h3))), coefficient)
  {
    hide Dot;
    var w01 := Plus8(Scaled(modes[0], h0), Scaled(modes[1], h1));
    var w23 := Plus8(Scaled(modes[2], h2), Scaled(modes[3], h3));
    var f := HourglassForce(modes, velocity, coefficient);
    forall i | 0 <= i < 8 ensures f[i] == Scaled(Plus8(w01, w23), coefficient)[i] {
      FourTerms(modes[0][i], modes[1][i], modes[2][i], modes[3][i], h0, h1, h2, h3, coefficient);
    }
    assert f == Scaled(Plus8(w01, w23), coefficient);
  }

  /** The power of the hourglass forces is the coefficient times a sum of squares. */
  lemma HourglassPower(modes: seq<seq<real>>, velocity: seq<real>, coefficient: real)
    requires |modes| == 4 && (forall j :: 0 <= j < 4 ==> |modes[j]| == 8) && |velocity| == 8
    ensures var h0, h1 := Dot(modes[0], velocity), Dot(modes[1], velocity);
            var h2, h3 := Dot(modes[2], velocity), Dot(modes[3], velocity);
            Dot(HourglassForce(modes, velocity, coefficient), velocity) ==
            coefficient * (h0 * h0 + h1 * h1 + h2 * h2 + h3 * h3)
  {
    hide Dot, HourglassForce, Scaled, Plus8;
    var h0, h1, h2, h3 := Dot(modes[0], velocity), Dot(modes[1], velocity), Dot(modes[2], velocity),
      Dot(modes[3], velocity);
    var w01 := Plus8(Scaled(modes[0], h0), Scaled(modes[1], h1));
    var w23 := Plus8(Scaled(modes[2], h2), Scaled(modes[3], h3));
    ForceIsWeighed(modes, velocity, coefficient, h0, h1, h2, h3);
    DotScaled(coefficient, Plus8(w01, w23), velocity);
    DotPlus(w01, w23, velocity);
    DotPlus(Scaled(modes[0], h0), Scaled(modes[1], h1), velocity);
    DotPlus(Scaled(modes[2], h2), Scaled(modes[3], h3), velocity);
    DotScaled(h0, modes[0], velocity);
    DotScaled(h1, modes[1], velocity);
    DotScaled(h2, modes[2], velocity);
    DotScaled(h3, modes[3], velocity);
    assert Dot(Plus8(w01, w23), velocity) == h0 * h0 + h1 * h1 + h2 * h2 + h3 * h3;
  }

  // ---------- Power over the mesh ----------

  /** The power of nodal forces on nodal velocities. */
  function Power(f: seq<real>, velocity: seq<real>): (p: real)
    requires |f| == |velocity|
  {
    if f == [] then 0.0
    else Power(f[..|f| - 1], velocity[..|f| - 1]) + f[|f| - 1] * velocity[|f| - 1]
  }

  lemma {:induction false} PowerUpdate(f: seq<real>, velocity: seq<real>, i: nat, x: real)
    requires |f| == |velocity| && i < |f|
    ensures Power(f[i := f[i] + x], velocity) == Power(f, velocity) + x * velocity[i]
  {
    var n := |f| - 1;
    if i < n {
      PowerUpdate(f[..n], velocity[..n], i, x);
      assert f[i := f[i] + x][..n] == f[..n][i := f[..n][i] + x];
    } else {
      assert f[i := f[i] + x][..n] == f[..n];
      SumTimes(f[i], x, velocity[i]);
    }
  }

  lemma {:induction false} NoPower(f: seq<real>, velocity: seq<real>)
    requires |f| == |velocity| && forall i :: 0 <= i < |f| ==> f[i] == 0.0
    ensures Power(f, velocity) == 0.0
  {
    if f != [] { NoPower(f[..|f| - 1], velocity[..|f| - 1]); }
  }

  /** The first n products of local forces with velocities at the corners. */
  function FrontPower(local: seq<real>, velocity: seq<real>, n: nat): (p: real)
    requires |local| == |velocity| == 8 && n <= 8
  {
    if n == 0 then 0.0 else FrontPower(local, velocity, n - 1) + local[n - 1] * velocity[n - 1]
  }

  lemma FrontPowerNext(local: seq<real>, velocity: seq<real>, n: nat)
    requires |local| == |velocity| == 8 && 1 <= n <= 8
    ensures FrontPower(local, velocity, n) == FrontPower(local, velocity, n - 1) + local[n - 1] * velocity[n - 1]
    ensures FrontPower(local, velocity, 0) == 0.0
  {
  }

  lemma FrontPowerIsDot(local: seq<real>, velocity: seq<real>)
    requires |local| == |velocity| == 8
    ensures FrontPower(local, velocity, 8) == Dot(local, velocity)
  {
    hide FrontPower;
    FrontPowerNext(local, velocity, 1); FrontPowerNext(local, velocity, 2); FrontPowerNext(local, velocity, 3);
    FrontPowerNext(local, velocity, 4); FrontPowerNext(local, velocity, 5); FrontPowerNext(local, velocity, 6);
    FrontPowerNext(local, velocity, 7); FrontPowerNext(local, velocity, 8);
  }

  lemma {:induction false} PowerScatter(f: seq<real>, nodes: seq<nat>, local: seq<real>, velocity: seq<real>, n: nat)
    requires |nodes| == |local| == 8 && n <= 8 && |f| == |velocity| && forall l :: 0 <= l < 8 ==> nodes[l] < |f|
    ensures Power(Scatter(f, nodes, local, n), velocity) ==
            Power(f, velocity) + FrontPower(local, Gather(velocity, nodes), n)
  {
    hide Power;
    if n > 0 {
      PowerScatter(f, nodes, local, velocity, n - 1);
      PowerUpdate(Scatter(f, nodes, local, n - 1), velocity, nodes[n - 1], local[n - 1]);
    }
  }

  /** The power of the local forces of the first k elements. */
  function LocalPower(nodelist: seq<seq<nat>>, local: seq<seq<real>>, velocity: seq<real>, k: nat): (p: real)
    requires k <= |nodelist| && k <= |local| && Corners(nodelist, |velocity|)
    requires forall e :: 0 <= e < |local| ==> |local[e]| == 8
  {
    if k == 0 then 0.0
    else LocalPower(nodelist, local, velocity, k - 1) + Dot(local[k - 1], Gather(velocity, nodelist[k - 1]))
  }

  /** Scattering does as much work on the nodes as the local forces do on the corners of their elements. */
  lemma {:induction false} PowerScatterAll(f: seq<real>, nodelist: seq<seq<nat>>, local: seq<seq<real>>,
                                           velocity: seq<real>, k: nat)
    requires k <= |nodelist| && k <= |local| && |f| == |velocity| && Corners(nodelist, |f|)
    requires forall e :: 0 <= e < |local| ==> |local[e]| == 8
    ensures Power(ScatterAll(f, nodelist, local, k), velocity) ==
            Power(f, velocity) + LocalPower(nodelist, local, velocity, k)
  {
    hide Power, Scatter, Dot, Gather, FrontPower;
    if k > 0 {
      PowerScatterAll(f, nodelist, local, velocity, k - 1);
      PowerScatter(ScatterAll(f, nodelist, local, k - 1), nodelist[k - 1], local[k - 1], velocity, 8);
      FrontPowerIsDot(local[k - 1], Gather(velocity, nodelist[k - 1]));
    }
  }

  // ---------- Hourglass forces of the mesh ----------

  /** The physical range of the quantities behind the coefficient of an element. */
  ghost predicate PhysicalAt(d: Domain, cbrt: real -> real, volume: real, e: nat)
    requires d.Valid() && e < |d.nodelist|
  {
    d.hgcoef >= 0.0 && d.ss[e] >= 0.0 && d.elemMass[e] >= 0.0 && volume > 0.0 && cbrt(volume) > 0.0
  }

  ghost predicate Physical(d: Domain, cbrt: real -> real, volumes: seq<real>)
    requires d.Valid()
  {
    |volumes| == |d.nodelist| && forall e: nat :: e < |volumes| ==> PhysicalAt(d, cbrt, volumes[e], e)
  }

  lemma NotNegative(a: real, b: real)
    requires a >= 0.0 && b >= 0.0
    ensures a * b >= 0.0
  {
  }

  /** hgcoef * 0.01 * ss * mass / volume^(1/3) */
  function LossRate(d: Domain, cbrt: real -> real, volume: real, e: nat): (c: real)
    requires d.Valid() && e < |d.nodelist| && cbrt(volume) != 0.0
  {
    d.hgcoef * 0.01 * d.ss[e] * d.elemMass[e] / cbrt(volume)
  }

  lemma CoefficientIs(d: Domain, cbrt: real -> real, volume: real, e: nat)
    requires d.Valid() && e < |d.nodelist| && cbrt(volume) != 0.0
    ensures d.Coefficient(cbrt, volume, e) == -LossRate(d, cbrt, volume, e)
  {
    NegatedProduct(d.hgcoef, 0.01);
    NegatedProduct(d.hgcoef * 0.01, d.ss[e]);
    NegatedProduct(d.hgcoef * 0.01 * d.ss[e], d.elemMass[e]);
  }

  lemma RateSign(d: Domain, cbrt: real -> real, volume: real, e: nat)
    requires d.Valid() && e < |d.nodelist| && PhysicalAt(d, cbrt, volume, e)
    ensures LossRate(d, cbrt, volume, e) >= 0.0
    ensures d.hgcoef == 0.0 ==> LossRate(d, cbrt, volume, e) == 0.0
  {
    NotNegative(d.hgcoef * 0.01, d.ss[e]);
    NotNegative(d.hgcoef * 0.01 * d.ss[e], d.elemMass[e]);
    if d.hgcoef == 0.0 { assert 0.0 * 0.01 * d.ss[e] * d.elemMass[e] == 0.0; }
  }

  lemma SquareNotNegative(a: real)
    ensures a * a >= 0.0
  {
  }

  /** How far a velocity is from the motions that are linear in space. */
  function Squares(modes: seq<seq<real>>, velocity: seq<real>): (s: real)
    requires |modes| == 4 && (forall j :: 0 <= j < 4 ==> |modes[j]| == 8) && |velocity| == 8
    ensures s >= 0.0
  {
    var h0, h1 := Dot(modes[0], velocity), Dot(modes[1], velocity);
    var h2, h3 := Dot(modes[2], velocity), Dot(modes[3], velocity);
    SquareNotNegative(h0);
    SquareNotNegative(h1);
    SquareNotNegative(h2);
    SquareNotNegative(h3);
    h0 * h0 + h1 * h1 + h2 * h2 + h3 * h3
  }

  lemma SquaresPower(modes: seq<seq<real>>, velocity: seq<real>, coefficient: real)
    requires |modes| == 4 && (forall j :: 0 <= j < 4 ==> |modes[j]| == 8) && |velocity| == 8
    ensures Dot(HourglassForce(modes, velocity, coefficient), velocity) == coefficient * Squares(modes, velocity)
  {
    hide Dot, HourglassForce;
    HourglassPower(modes, velocity, coefficient);
  }

  /** The power that element e loses to its hourglass forces. */
  ghost function ElementLoss(d: Domain, cbrt: real -> real, volume: real, velocity: seq<real>, e: nat): (w: real)
    requires d.Valid() && |velocity| == d.numNode && e < |d.nodelist| && volume != 0.0 && cbrt(volume) != 0.0
  {
    var n := d.nodelist[e];
    LossRate(d, cbrt, volume, e) *
    Squares(Modes(CornerOf(Gather(d.x, n), Gather(d.y, n), Gather(d.z, n)), 1.0 / volume), Gather(velocity, n))
  }

  lemma LossOfElement(d: Domain, cbrt: real -> real, volume: real, velocity: seq<real>, e: nat)
    requires d.Valid() && |velocity| == d.numNode && e < |d.nodelist| && PhysicalAt(d, cbrt, volume, e)
    ensures var n := d.nodelist[e];
            Dot(HourglassForce(Modes(d.CornersOf(e), 1.0 / volume), Gather(velocity, n),
                  d.Coefficient(cbrt, volume, e)), Gather(velocity, n)) ==
            -ElementLoss(d, cbrt, volume, velocity, e) <= 0.0
    ensures d.hgcoef == 0.0 ==> ElementLoss(d, cbrt, volume, velocity, e) == 0.0
  {
    hide Dot, HourglassForce, Modes, CornerOf, Gather, Squares, LossRate, Domain.Coefficient;
    var n, modes := d.nodelist[e], Modes(d.CornersOf(e), 1.0 / volume);
    CoefficientIs(d, cbrt, volume, e);
    RateSign(d, cbrt, volume, e);
    ForceLoss(modes, Gather(velocity, n), LossRate(d, cbrt, volume, e));
  }

  lemma ForceLoss(modes: seq<seq<real>>, velocity: seq<real>, rate: real)
    requires |modes| == 4 && (forall j :: 0 <= j < 4 ==> |modes[j]| == 8) && |velocity| == 8 && rate >= 0.0
    ensures Dot(HourglassForce(modes, velocity, -rate), velocity) == -(rate * Squares(modes, velocity)) <= 0.0
    ensures rate == 0.0 ==> rate * Squares(modes, velocity) == 0.0
  {
    hide Dot, HourglassForce, Squares;
    SquaresPower(modes, velocity, -rate);
    NegatedProduct(rate, Squares(modes, velocity));
    NotNegative(rate, Squares(modes, velocity));
  }

  /** The power that the first k elements lose. */
  ghost function Loss(d: Domain, cbrt: real -> real, volumes: seq<real>, velocity: seq<real>, k: nat): (w: real)
    requires d.Valid() && Physical(d, cbrt, volumes) && |velocity| == d.numNode && k <= |d.nodelist|
  {
    if k == 0 then 0.0 else
      assert PhysicalAt(d, cbrt, volumes[k - 1], k - 1);
      Loss(d, cbrt, volumes, velocity, k - 1) + ElementLoss(d, cbrt, volumes[k - 1], velocity, k - 1)
  }

  lemma {:induction false} LossOfMesh(d: Domain, cbrt: real -> real, volumes: seq<real>, velocity: seq<real>, k: nat)
    requires d.Valid() && Physical(d, cbrt, volumes) && |velocity| == d.numNode && k <= |d.nodelist|
    requires forall k :: 0 <= k < |volumes| ==> volumes[k] != 0.0 && cbrt(volumes[k]) != 0.0
    ensures LocalPower(d.nodelist, d.HourglassLocals(cbrt, volumes, velocity), velocity, k) ==
            -Loss(d, cbrt, volumes, velocity, k) <= 0.0
    ensures d.hgcoef == 0.0 ==> Loss(d, cbrt, volumes, velocity, k) == 0.0
  {
    hide Dot, Gather, ElementLoss, PhysicalAt, Domain.HourglassLocals;
    if k > 0 {
      LossOfMesh(d, cbrt, volumes, velocity, k - 1);
      LossInMesh(d, cbrt, volumes, velocity, k - 1);
    }
  }

  lemma LossInMesh(d: Domain, cbrt: real -> real, volumes: seq<real>, velocity: seq<real>, e: nat)
    requires d.Valid() && Physical(d, cbrt, volumes) && |velocity| == d.numNode && e < |d.nodelist|
    requires forall k :: 0 <= k < |volumes| ==> volumes[k] != 0.0 && cbrt(volumes[k]) != 0.0
    ensures Dot(d.HourglassLocals(cbrt, volumes, velocity)[e], Gather(velocity, d.nodelist[e])) ==
            -ElementLoss(d, cbrt, volumes[e], velocity, e) <= 0.0
    ensures d.hgcoef == 0.0 ==> ElementLoss(d, cbrt, volumes[e], velocity, e) == 0.0
  {
    hide Dot, Gather, ElementLoss, HourglassForce, Modes, CornerOf, PhysicalAt, Domain.Coefficient,
      Domain.HourglassLocals;
    assert PhysicalAt(d, cbrt, volumes[e], e);
    LossOfElement(d, cbrt, volumes[e], velocity, e);
    d.HourglassLocalAt(cbrt, volumes, velocity, e);
  }

  lemma CanForm(d: Domain, cbrt: real -> real, volumes: seq<real>)
    requires d.Valid() && Physical(d, cbrt, volumes)
    ensures forall k :: 0 <= k < |volumes| ==> volumes[k] != 0.0 && cbrt(volumes[k]) != 0.0
  {
    forall k | 0 <= k < |volumes| ensures volumes[k] != 0.0 && cbrt(volumes[k]) != 0.0 {
      assert PhysicalAt(d, cbrt, volumes[k], k);
    }
  }

  /** Adding the hourglass forces takes exactly this power from every motion. */
  lemma HourglassDissipates(d: Domain, cbrt: real -> real, f: seq<real>, velocity: seq<real>)
    requires d.Valid() && (forall x: real :: x > 0.0 ==> cbrt(x) != 0.0) && d.HaveVolume()
    requires Physical(d, cbrt, d.Volumes()) && |f| == |velocity| == d.numNode
    ensures forall e :: 0 <= e < |d.nodelist| ==> d.Volumes()[e] == d.volo[e] * d.v[e]
    ensures Power(d.WithHourglass(cbrt, f, velocity), velocity) ==
            Power(f, velocity) - Loss(d, cbrt, d.Volumes(), velocity, |d.nodelist|)
    ensures Loss(d, cbrt, d.Volumes(), velocity, |d.nodelist|) >= 0.0
  {
    hide Power, ScatterAll, HourglassForce, Modes, Gather, Dot, Loss, PhysicalAt, Physical, ElementLoss;
    CanForm(d, cbrt, d.Volumes());
    LossOfMesh(d, cbrt, d.Volumes(), velocity, |d.nodelist|);
    if d.hgcoef > 0.0 {
      PowerScatterAll(f, d.nodelist, d.HourglassLocals(cbrt, d.Volumes(), velocity), velocity, |d.nodelist|);
    } else {
      NoNegativeCoefficient(d, cbrt, d.Volumes());
    }
  }

  /** Without elements, or with a coefficient of zero, nothing is lost. */
  lemma NoNegativeCoefficient(d: Domain, cbrt: real -> real, volumes: seq<real>)
    requires d.Valid() && Physical(d, cbrt, volumes)
    ensures |d.nodelist| > 0 ==> d.hgcoef >= 0.0
  {
    if |d.nodelist| > 0 { assert PhysicalAt(d, cbrt, volumes[0], 0); }
  }

  // ---------- All internal forces ----------

  /** Where the program does not exit, the power of the forces that it computes is that of the stress forces of all
      elements, less what the hourglass forces take. */
  lemma InternalPower(d: Domain, cbrt: real -> real, a: seq<real>, b: seq<real>, velocity: seq<real>)
    requires d.Valid() && (forall x: real :: x > 0.0 ==> cbrt(x) != 0.0) && d.HaveShape() && d.HaveVolume()
    requires Physical(d, cbrt, d.Volumes()) && |a| == |b| == |velocity| == d.numNode
    ensures Power(d.InternalForces(cbrt, a, b, velocity), velocity) ==
            LocalPower(d.nodelist, StressLocals(d.nodelist, d.Stresses(), a, b), velocity, |d.nodelist|) -
            Loss(d, cbrt, d.Volumes(), velocity, |d.nodelist|)
  {
    hide Power, ScatterAll, StressLocals, LocalPower, Loss, Physical, Domain.WithHourglass, Domain.HaveShape;
    var local := StressLocals(d.nodelist, d.Stresses(), a, b);
    PowerScatterAll(d.Zeros(), d.nodelist, local, velocity, |d.nodelist|);
    NoPower(d.Zeros(), velocity);
    HourglassDissipates(d, cbrt, ScatterAll(d.Zeros(), d.nodelist, local, |d.nodelist|), velocity);
  }

  /** A velocity component that is linear in the coordinates of the nodes. */
  ghost predicate IsLinear(d: Domain, velocity: seq<real>, c: real, g: Vec)
    requires d.Valid() && |velocity| == d.numNode
  {
    forall i :: 0 <= i < d.numNode ==> velocity[i] == c + g.x * d.x[i] + g.y * d.y[i] + g.z * d.z[i]
  }

  lemma LinearAtCorners(d: Domain, velocity: seq<real>, c: real, g: Vec, e: nat)
    requires d.Valid() && |velocity| == d.numNode && IsLinear(d, velocity, c, g) && e < |d.nodelist|
    ensures var n := d.nodelist[e];
            Gather(velocity, n) == LinearField(c, g.x, g.y, g.z, Gather(d.x, n), Gather(d.y, n), Gather(d.z, n))
  {
    var n := d.nodelist[e];
    var f := LinearField(c, g.x, g.y, g.z, Gather(d.x, n), Gather(d.y, n), Gather(d.z, n));
    forall l | 0 <= l < 8 ensures Gather(velocity, n)[l] == f[l] {
      assert velocity[n[l]] == c + g.x * d.x[n[l]] + g.y * d.y[n[l]] + g.z * d.z[n[l]];
    }
  }

  /** The elements' reference volumes times their relative volumes are their volumes. */
  ghost predicate VolumesAgree(d: Domain)
    requires d.Valid()
  {
    forall e :: 0 <= e < |d.nodelist| ==>
      var n := d.nodelist[e]; d.volo[e] * d.v[e] == Volume(Gather(d.x, n), Gather(d.y, n), Gather(d.z, n))
  }

  lemma {:induction false} ScatterNothing(f: seq<real>, nodelist: seq<seq<nat>>, local: seq<seq<real>>, k: nat)
    requires k <= |nodelist| && k <= |local| && Corners(nodelist, |f|)
    requires forall e :: 0 <= e < |local| ==> local[e] == seq(8, _ => 0.0)
    ensures ScatterAll(f, nodelist, local, k) == f
  {
    if k > 0 {
      ScatterNothing(f, nodelist, local, k - 1);
      NothingScattered(f, nodelist[k - 1], local[k - 1], 8);
    }
  }

  lemma {:induction false} NothingScattered(f: seq<real>, nodes: seq<nat>, local: seq<real>, n: nat)
    requires |nodes| == |local| == 8 && n <= 8 && forall l :: 0 <= l < 8 ==> nodes[l] < |f|
    requires forall l :: 0 <= l < 8 ==> local[l] == 0.0
    ensures Scatter(f, nodes, local, n) == f
  {
    if n > 0 { NothingScattered(f, nodes, local, n - 1); }
  }

  /** A motion that is linear in space meets no hourglass forces. */
  lemma LinearMotionKeeps(d: Domain, cbrt: real -> real, f: seq<real>, velocity: seq<real>, c: real, g: Vec)
    requires d.Valid() && |f| == |velocity| == d.numNode && IsLinear(d, velocity, c, g) && VolumesAgree(d)
    requires forall x: real :: x > 0.0 ==> cbrt(x) != 0.0
    ensures d.WithHourglass(cbrt, f, velocity) == f
  {
    hide ScatterAll, HourglassForce, Modes, Gather, Volume, LinearField, IsLinear;
    if d.HaveVolume() && d.hgcoef > 0.0 {
      var local := d.HourglassLocals(cbrt, d.Volumes(), velocity);
      forall e | 0 <= e < |local| ensures local[e] == seq(8, _ => 0.0) {
        var n := d.nodelist[e];
        d.HourglassLocalAt(cbrt, d.Volumes(), velocity, e);
        LinearAtCorners(d, velocity, c, g, e);
        NoHourglassForce(Gather(d.x, n), Gather(d.y, n), Gather(d.z, n), c, g.x, g.y, g.z,
          d.Coefficient(cbrt, d.Volumes()[e], e));
      }
      ScatterNothing(f, d.nodelist, local, |d.nodelist|);
    }
  }

  /** The work of pressure and viscosity while the first k elements expand at this rate. */
  function ExpansionWork(d: Domain, rate: real, k: nat): (w: real)
    requires d.Valid() && k <= |d.nodelist|
  {
    if k == 0 then 0.0
    else ExpansionWork(d, rate, k - 1) + ElementExpansion(d, rate, k - 1)
  }

  /** That of one element: pressure and viscosity times rate times volume. */
  function ElementExpansion(d: Domain, rate: real, e: nat): (w: real)
    requires d.Valid() && e < |d.nodelist|
  {
    (d.p[e] + d.q[e]) * rate * d.ShapeVolumes()[e]
  }

  ghost predicate AllParallelepipeds(d: Domain)
    requires d.Valid()
  {
    forall e :: 0 <= e < |d.nodelist| ==>
      var n := d.nodelist[e]; IsParallelepiped(Gather(d.x, n), Gather(d.y, n), Gather(d.z, n))
  }

  lemma StressLocalAt(d: Domain, a: seq<real>, b: seq<real>, e: nat)
    requires d.Valid() && |a| == |b| == d.numNode && e < |d.nodelist|
    ensures StressLocals(d.nodelist, d.Stresses(), a, b)[e] ==
            StressForce(-d.p[e] - d.q[e], NodeNormals(Gather(a, d.nodelist[e]), Gather(b, d.nodelist[e])))
  {
    hide StressForce, NodeNormals, Gather;
  }

  lemma ExpansionOf(s: real, p: real, q: real, a: real, b: real, c: real, v: real)
    requires s == -p - q
    ensures -(s * a + s * b + s * c) * v == (p + q) * (a + b + c) * v
  {
    var t, r := p + q, a + b + c;
    assert s * a + s * b + s * c == s * r;
    NegatedProduct(t, r);
    assert -(s * r) == t * r;
  }

  lemma {:induction false} StressWorkOfMesh(d: Domain, u: real, v: real, w: real, gx: Vec, gy: Vec, gz: Vec, k: nat)
    requires d.Valid() && AllParallelepipeds(d) && k <= |d.nodelist|
    requires IsLinear(d, d.xd, u, gx) && IsLinear(d, d.yd, v, gy) && IsLinear(d, d.zd, w, gz)
    ensures LocalPower(d.nodelist, StressLocals(d.nodelist, d.Stresses(), d.y, d.z), d.xd, k) +
            LocalPower(d.nodelist, StressLocals(d.nodelist, d.Stresses(), d.z, d.x), d.yd, k) +
            LocalPower(d.nodelist, StressLocals(d.nodelist, d.Stresses(), d.x, d.y), d.zd, k) ==
            ExpansionWork(d, gx.x + gy.y + gz.z, k)
  {
    hide Dot, Gather, StressLocals, IsLinear, ElementExpansion, AllParallelepipeds;
    if k > 0 {
      StressWorkOfMesh(d, u, v, w, gx, gy, gz, k - 1);
      ElementWork(d, u, v, w, gx, gy, gz, k - 1);
    }
  }

  lemma ElementWork(d: Domain, u: real, v: real, w: real, gx: Vec, gy: Vec, gz: Vec, e: nat)
    requires d.Valid() && AllParallelepipeds(d) && e < |d.nodelist|
    requires IsLinear(d, d.xd, u, gx) && IsLinear(d, d.yd, v, gy) && IsLinear(d, d.zd, w, gz)
    ensures Dot(StressLocals(d.nodelist, d.Stresses(), d.y, d.z)[e], Gather(d.xd, d.nodelist[e])) +
            Dot(StressLocals(d.nodelist, d.Stresses(), d.z, d.x)[e], Gather(d.yd, d.nodelist[e])) +
            Dot(StressLocals(d.nodelist, d.Stresses(), d.x, d.y)[e], Gather(d.zd, d.nodelist[e])) ==
            ElementExpansion(d, gx.x + gy.y + gz.z, e)
  {
    hide Dot, StressForce, NodeNormals, Gather, ShapeVolume, LinearField, StressLocals, IsParallelepiped, IsLinear;
    var n, s := d.nodelist[e], -d.p[e] - d.q[e];
    StressLocalAt(d, d.y, d.z, e);
    StressLocalAt(d, d.z, d.x, e);
    StressLocalAt(d, d.x, d.y, e);
    LinearAtCorners(d, d.xd, u, gx, e);
    LinearAtCorners(d, d.yd, v, gy, e);
    LinearAtCorners(d, d.zd, w, gz, e);
    StressWork(Gather(d.x, n), Gather(d.y, n), Gather(d.z, n), s, s, s, u, v, w, gx, gy, gz);
    ExpansionOf(s, d.p[e], d.q[e], gx.x, gy.y, gz.z, d.ShapeVolumes()[e]);
  }

  /** On a mesh of parallelepipeds whose velocity is linear in space, the power of the forces that the program
      computes is the work of pressure and viscosity: (p + q) times the rate of expansion times the volume, summed over
      the elements.  So pressure pushes outwards. */
  lemma PressureWork(d: Domain, cbrt: real -> real, u: real, v: real, w: real, gx: Vec, gy: Vec, gz: Vec)
    requires d.Valid() && AllParallelepipeds(d) && VolumesAgree(d)
    requires forall x: real :: x > 0.0 ==> cbrt(x) != 0.0
    requires IsLinear(d, d.xd, u, gx) && IsLinear(d, d.yd, v, gy) && IsLinear(d, d.zd, w, gz)
    ensures Power(d.InternalForces(cbrt, d.y, d.z, d.xd), d.xd) +
            Power(d.InternalForces(cbrt, d.z, d.x, d.yd), d.yd) +
            Power(d.InternalForces(cbrt, d.x, d.y, d.zd), d.zd) ==
            ExpansionWork(d, gx.x + gy.y + gz.z, |d.nodelist|)
  {
    hide Power, ScatterAll, StressLocals, IsLinear, AllParallelepipeds, VolumesAgree, ExpansionWork, LocalPower;
    ComponentPower(d, cbrt, d.y, d.z, d.xd, u, gx);
    ComponentPower(d, cbrt, d.z, d.x, d.yd, v, gy);
    ComponentPower(d, cbrt, d.x, d.y, d.zd, w, gz);
    StressWorkOfMesh(d, u, v, w, gx, gy, gz, |d.nodelist|);
  }

  lemma ComponentPower(d: Domain, cbrt: real -> real, a: seq<real>, b: seq<real>, velocity: seq<real>, c: real, g: Vec)
    requires d.Valid() && |a| == |b| == |velocity| == d.numNode && IsLinear(d, velocity, c, g) && VolumesAgree(d)
    requires forall x: real :: x > 0.0 ==> cbrt(x) != 0.0
    ensures Power(d.InternalForces(cbrt, a, b, velocity), velocity) ==
            LocalPower(d.nodelist, StressLocals(d.nodelist, d.Stresses(), a, b), velocity, |d.nodelist|)
  {
    hide Power, ScatterAll, StressLocals, IsLinear, VolumesAgree, LocalPower;
    var local := StressLocals(d.nodelist, d.Stresses(), a, b);
    var stress := ScatterAll(d.Zeros(), d.nodelist, local, |d.nodelist|);
    LinearMotionKeeps(d, cbrt, stress, velocity, c, g);
    PowerScatterAll(d.Zeros(), d.nodelist, local, velocity, |d.nodelist|);
    NoPower(d.Zeros(), velocity);
  }
}
