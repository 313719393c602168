/** The force loops of LULESH in exact arithmetic: internal forces add up to zero. */
module Lulesh {
  import opened Wrappers
  import opened HexGeometry

  // ---------- Sums over nodes ----------

  /** The sum over all nodes. */
  function Total(f: seq<real>): (s: real)
  {
    if f == [] then 0.0 else Total(f[..|f| - 1]) + f[|f| - 1]
  }

  lemma {:induction false} TotalUpdate(f: seq<real>, i: nat, x: real)
    requires i < |f|
    ensures Total(f[i := x]) == Total(f) - f[i] + x
  {
    var n := |f| - 1;
    if i < n {
      TotalUpdate(f[..n], i, x);
      assert f[i := x][..n] == f[..n][i := x];
    } else {
      assert f[i := x][..n] == f[..n];
    }
  }

  lemma {:induction false} TotalOfZeros(f: seq<real>)
    requires forall i :: 0 <= i < |f| ==> f[i] == 0.0
    ensures Total(f) == 0.0
  {
    if f != [] { TotalOfZeros(f[..|f| - 1]); }
  }

  /** The first n local forces added at the nodes of an element. */
  function Scatter(f: seq<real>, nodes: seq<nat>, local: seq<real>, n: nat): (r: seq<real>)
    requires |nodes| == |local| == 8 && n <= 8 && forall l :: 0 <= l < 8 ==> nodes[l] < |f|
    ensures |r| == |f|
  {
    if n == 0 then f else
      var g := Scatter(f, nodes, local, n - 1);
      g[nodes[n - 1] := g[nodes[n - 1]] + local[n - 1]]
  }

  function Front(v: seq<real>, n: nat): (s: real)
    requires n <= |v|
  {
    if n == 0 then 0.0 else Front(v, n - 1) + v[n - 1]
  }

  lemma {:induction false} TotalScatter(f: seq<real>, nodes: seq<nat>, local: seq<real>, n: nat)
    requires |nodes| == |local| == 8 && n <= 8 && forall l :: 0 <= l < 8 ==> nodes[l] < |f|
    ensures Total(Scatter(f, nodes, local, n)) == Total(f) + Front(local, n)
  {
    hide Total;
    if n > 0 {
      TotalScatter(f, nodes, local, n - 1);
      var g := Scatter(f, nodes, local, n - 1);
      TotalUpdate(g, nodes[n - 1], g[nodes[n - 1]] + local[n - 1]);
    }
  }

  lemma FrontIsSum(v: seq<real>)
    requires |v| == 8
    ensures Front(v, 8) == Sum8(v)
  {
    FrontStep(v, 1); FrontStep(v, 2); FrontStep(v, 3); FrontStep(v, 4);
    FrontStep(v, 5); FrontStep(v, 6); FrontStep(v, 7); FrontStep(v, 8);
  }

  lemma FrontStep(v: seq<real>, n: nat)
    requires 1 <= n <= |v|
    ensures Front(v, n) == Front(v, n - 1) + v[n - 1] && Front(v, 0) == 0.0
  {
  }

  /** Node i receives the local forces of the corners that are node i. */
  function Received(nodes: seq<nat>, local: seq<real>, i: nat, n: nat): (s: real)
    requires |nodes| == |local| == 8 && n <= 8
  {
    if n == 0 then 0.0 else Received(nodes, local, i, n - 1) + (if nodes[n - 1] == i then local[n - 1] else 0.0)
  }

  lemma {:induction false} ScatterAt(f: seq<real>, nodes: seq<nat>, local: seq<real>, i: nat, n: nat)
    requires |nodes| == |local| == 8 && n <= 8 && (forall l :: 0 <= l < 8 ==> nodes[l] < |f|) && i < |f|
    ensures Scatter(f, nodes, local, n)[i] == f[i] + Received(nodes, local, i, n)
  {
    if n > 0 { ScatterAt(f, nodes, local, i, n - 1); }
  }

  // ---------- Element forces ----------

  /** The stress forces of an element in one direction. */
  function StressForce(stress: real, normals: seq<real>): (f: seq<real>)
    requires |normals| == 8
    ensures |f| == 8
  {
    seq(8, i requires 0 <= i < 8 => -(stress * normals[i]))
  }

  lemma NegatedProduct(a: real, b: real)
    ensures -(a * b) == -a * b
  {
  }

  lemma StressForcesCancel(stress: real, normals: seq<real>)
    requires |normals| == 8 && Sum8(normals) == 0.0
    ensures Sum8(StressForce(stress, normals)) == 0.0
  {
    forall i | 0 <= i < 8 ensures -(stress * normals[i]) == -stress * normals[i] { NegatedProduct(stress, normals[i]); }
    assert StressForce(stress, normals) == Scaled(normals, -stress);
    ScaledSum(normals, -stress);
  }

  /** SumElemStressesToNodeForces */
  method SumElemStressesToNodeForces(b: array<real>, stress: real, f: array<real>)
    requires b.Length == f.Length == 8 && b != f
    modifies f
    ensures f[..] == StressForce(stress, b[..])
  {
    for i := 0 to 8
      invariant forall j :: 0 <= j < i ==> f[j] == StressForce(stress, b[..])[j]
    {
      f[i] := -(stress * b[i]);
    }
  }

  /** One direction of an hourglass mode: its shape without the part that the velocity gradient explains. */
  function HourglassMode(gamma: seq<real>, volinv: real, dx: seq<real>, dy: seq<real>, dz: seq<real>,
                         x: seq<real>, y: seq<real>, z: seq<real>): (m: seq<real>)
    requires |gamma| == |dx| == |dy| == |dz| == |x| == |y| == |z| == 8
    ensures |m| == 8
  {
    seq(8, i requires 0 <= i < 8 =>
      gamma[i] - volinv * (dx[i] * Dot(x, gamma) + dy[i] * Dot(y, gamma) + dz[i] * Dot(z, gamma)))
  }

  /** An hourglass mode adds up to zero if its shape and the volume derivatives do. */
  lemma ModeCancels(gamma: seq<real>, volinv: real, dx: seq<real>, dy: seq<real>, dz: seq<real>, x: seq<real>,
                    y: seq<real>, z: seq<real>)
    requires |gamma| == |dx| == |dy| == |dz| == |x| == |y| == |z| == 8
    requires Sum8(gamma) == 0.0 && Sum8(dx) == 0.0 && Sum8(dy) == 0.0 && Sum8(dz) == 0.0
    ensures Sum8(HourglassMode(gamma, volinv, dx, dy, dz, x, y, z)) == 0.0
  {
    hide Sum8, Dot;
    var hx, hy, hz := Dot(x, gamma), Dot(y, gamma), Dot(z, gamma);
    var w := Plus8(Plus8(Scaled(dx, hx), Scaled(dy, hy)), Scaled(dz, hz));
    var m := HourglassMode(gamma, volinv, dx, dy, dz, x, y, z);
    forall i | 0 <= i < 8 ensures m[i] == Plus8(gamma, Scaled(w, -volinv))[i] {
      ThreeTerms(gamma[i], dx[i], dy[i], dz[i], hx, hy, hz, volinv);
    }
    assert m == Plus8(gamma, Scaled(w, -volinv));
    ThreeSums(gamma, dx, dy, dz, hx, hy, hz, volinv);
  }

  lemma ThreeTerms(g: real, a: real, b: real, c: real, hx: real, hy: real, hz: real, v: real)
    ensures g - v * (a * hx + b * hy + c * hz) == g + -v * ((hx * a + hy * b) + hz * c)
  {
  }

  lemma ThreeSums(g: seq<real>, dx: seq<real>, dy: seq<real>, dz: seq<real>, hx: real, hy: real, hz: real, v: real)
    requires |g| == |dx| == |dy| == |dz| == 8
    requires Sum8(g) == 0.0 && Sum8(dx) == 0.0 && Sum8(dy) == 0.0 && Sum8(dz) == 0.0
    ensures Sum8(Plus8(g, Scaled(Plus8(Plus8(Scaled(dx, hx), Scaled(dy, hy)), Scaled(dz, hz)), -v))) == 0.0
  {
    hide *;
    var w := Plus8(Plus8(Scaled(dx, hx), Scaled(dy, hy)), Scaled(dz, hz));
    ScaledSum(dx, hx);
    ScaledSum(dy, hy);
    ScaledSum(dz, hz);
    PlusSum(Scaled(dx, hx), Scaled(dy, hy));
    PlusSum(Plus8(Scaled(dx, hx), Scaled(dy, hy)), Scaled(dz, hz));
    ScaledSum(w, -v);
    PlusSum(g, Scaled(w, -v));
  }

  /** The hourglass force in one direction: resistance against the velocities along the four modes. */
  function HourglassForce(modes: seq<seq<real>>, velocity: seq<real>, coefficient: real): (f: seq<real>)
    requires |modes| == 4 && (forall j :: 0 <= j < 4 ==> |modes[j]| == 8) && |velocity| == 8
    ensures |f| == 8
  {
    seq(8, i requires 0 <= i < 8 =>
      coefficient * (modes[0][i] * Dot(modes[0], velocity) + modes[1][i] * Dot(modes[1], velocity) +
                     modes[2][i] * Dot(modes[2], velocity) + modes[3][i] * Dot(modes[3], velocity)))
  }

  /** Modes that add up to zero give forces that do. */
  lemma HourglassForcesCancel(modes: seq<seq<real>>, velocity: seq<real>, coefficient: real)
    requires |modes| == 4 && (forall j :: 0 <= j < 4 ==> |modes[j]| == 8 && Sum8(modes[j]) == 0.0) && |velocity| == 8
    ensures Sum8(HourglassForce(modes, velocity, coefficient)) == 0.0
  {
    hide Dot, Sum8;
    ForceSum(modes[0], modes[1], modes[2], modes[3],
             Dot(modes[0], velocity), Dot(modes[1], velocity), Dot(modes[2], velocity), Dot(modes[3], velocity),
               coefficient,
             HourglassForce(modes, velocity, coefficient));
  }

  lemma ForceSum(m0: seq<real>, m1: seq<real>, m2: seq<real>, m3: seq<real>, h0: real, h1: real, h2: real, h3: real,
                 c: real, f: seq<real>)
    requires |m0| == |m1| == |m2| == |m3| == |f| == 8 && Sum8(m0) == 0.0 && Sum8(m1) == 0.0 && Sum8(m2) == 0.0 &&
             Sum8(m3) == 0.0
    requires forall i :: 0 <= i < 8 ==> f[i] == c * (m0[i] * h0 + m1[i] * h1 + m2[i] * h2 + m3[i] * h3)
    ensures Sum8(f) == 0.0
  {
    hide Sum8;
    var w01, w23 := Plus8(Scaled(m0, h0), Scaled(m1, h1)), Plus8(Scaled(m2, h2), Scaled(m3, h3));
    forall i | 0 <= i < 8 ensures f[i] == Scaled(Plus8(w01, w23), c)[i] {
      FourTerms(m0[i], m1[i], m2[i], m3[i], h0, h1, h2, h3, c);
    }
    assert f == Scaled(Plus8(w01, w23), c);
    FourSums(m0, m1, m2, m3, h0, h1, h2, h3, c);
  }

  lemma FourTerms(m0: real, m1: real, m2: real, m3: real, h0: real, h1: real, h2: real, h3: real, c: real)
    ensures c * (m0 * h0 + m1 * h1 + m2 * h2 + m3 * h3) == c * ((h0 * m0 + h1 * m1) + (h2 * m2 + h3 * m3))
  {
  }

  lemma FourSums(m0: seq<real>, m1: seq<real>, m2: seq<real>, m3: seq<real>, h0: real, h1: real, h2: real, h3: real,
                 c: real)
    requires |m0| == |m1| == |m2| == |m3| == 8 && Sum8(m0) == 0.0 && Sum8(m1) == 0.0 && Sum8(m2) == 0.0 &&
             Sum8(m3) == 0.0
    ensures Sum8(Scaled(Plus8(Plus8(Scaled(m0, h0), Scaled(m1, h1)), Plus8(Scaled(m2, h2), Scaled(m3, h3))), c)) == 0.0
  {
    hide *;
    var w01, w23 := Plus8(Scaled(m0, h0), Scaled(m1, h1)), Plus8(Scaled(m2, h2), Scaled(m3, h3));
    ScaledSum(m0, h0);
    ScaledSum(m1, h1);
    ScaledSum(m2, h2);
    ScaledSum(m3, h3);
    PlusSum(Scaled(m0, h0), Scaled(m1, h1));
    PlusSum(Scaled(m2, h2), Scaled(m3, h3));
    PlusSum(w01, w23);
    ScaledSum(Plus8(w01, w23), c);
  }

  /** CalcElemFBHourglassForce in one direction; hourgam lists the values of the four modes by node. */
  method CalcElemFBHourglassForce(velocity: seq<real>, hourgam: array2<real>, coefficient: real, hgf: array<real>)
    requires |velocity| == 8 && hourgam.Length0 == 8 && hourgam.Length1 == 4 && hgf.Length == 8
    modifies hgf
    ensures hgf[..] == HourglassForce(ModesOf(hourgam), velocity, coefficient)
  {
    hide Dot;
    var hxx := new real[4];
    for i := 0 to 4
      invariant forall j :: 0 <= j < i ==> hxx[j] == Dot(ModesOf(hourgam)[j], velocity)
    {
      hxx[i] := hourgam[0, i] * velocity[0] + hourgam[1, i] * velocity[1] +
                hourgam[2, i] * velocity[2] + hourgam[3, i] * velocity[3] +
                hourgam[4, i] * velocity[4] + hourgam[5, i] * velocity[5] +
                hourgam[6, i] * velocity[6] + hourgam[7, i] * velocity[7];
      DotIs(ModesOf(hourgam)[i], velocity);
    }
    for i := 0 to 8
      invariant forall j :: 0 <= j < 4 ==> hxx[j] == Dot(ModesOf(hourgam)[j], velocity)
      invariant forall l :: 0 <= l < i ==> hgf[l] == HourglassForce(ModesOf(hourgam), velocity, coefficient)[l]
    {
      hgf[i] := coefficient * (hourgam[i, 0] * hxx[0] + hourgam[i, 1] * hxx[1] +
                               hourgam[i, 2] * hxx[2] + hourgam[i, 3] * hxx[3]);
    }
  }

  lemma DotIs(a: seq<real>, b: seq<real>)
    requires |a| == |b| == 8
    ensures Dot(a, b) ==
            a[0] * b[0] + a[1] * b[1] + a[2] * b[2] + a[3] * b[3] + a[4] * b[4] + a[5] * b[5] + a[6] * b[6] +
            a[7] * b[7]
  {
  }

  /** The modes of a table of their values at the nodes. */
  ghost function ModesOf(hourgam: array2<real>): (modes: seq<seq<real>>)
    requires hourgam.Length0 == 8 && hourgam.Length1 == 4
    reads hourgam
    ensures |modes| == 4 && forall j :: 0 <= j < 4 ==> |modes[j]| == 8
    ensures forall j, i :: 0 <= j < 4 && 0 <= i < 8 ==> modes[j][i] == hourgam[i, j]
  {
    seq(4, j requires 0 <= j < 4 reads hourgam => seq(8, i requires 0 <= i < 8 reads hourgam => hourgam[i, j]))
  }
}
