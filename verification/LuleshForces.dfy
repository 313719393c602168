/** The loops over all elements that add stress and hourglass forces to the nodes. */
module LuleshForces {
  import opened HexGeometry
  import opened ShapeFunctions
  import opened Lulesh

  // ---------- Forces of all elements ----------

  /** The forces after the local forces of the first k elements have been added. */
  function ScatterAll(f: seq<real>, nodelist: seq<seq<nat>>, local: seq<seq<real>>, k: nat): (r: seq<real>)
    requires k <= |nodelist| && k <= |local| && Corners(nodelist, |f|) && forall e :: 0 <= e < |local| ==>
             |local[e]| == 8
    ensures |r| == |f|
  {
    if k == 0 then f else Scatter(ScatterAll(f, nodelist, local, k - 1), nodelist[k - 1], local[k - 1], 8)
  }

  lemma NoForces(f: seq<real>, nodelist: seq<seq<nat>>, local: seq<seq<real>>)
    requires Corners(nodelist, |f|) && forall e :: 0 <= e < |local| ==> |local[e]| == 8
    ensures ScatterAll(f, nodelist, local, 0) == f
  {
  }

  lemma MoreForces(f: seq<real>, nodelist: seq<seq<nat>>, local: seq<seq<real>>, k: nat)
    requires k < |nodelist| && k < |local| && Corners(nodelist, |f|) && forall e :: 0 <= e < |local| ==> |local[e]| == 8
    ensures ScatterAll(f, nodelist, local, k + 1) ==
            Scatter(ScatterAll(f, nodelist, local, k), nodelist[k], local[k], 8)
  {
  }

  /** Every element has eight nodes. */
  ghost predicate Corners(nodelist: seq<seq<nat>>, nodes: nat) {
    forall e :: 0 <= e < |nodelist| ==> |nodelist[e]| == 8 && forall l :: 0 <= l < 8 ==> nodelist[e][l] < nodes
  }

  /** Local forces that add up to zero leave the sum over all nodes unchanged. */
  lemma {:induction false} TotalScatterAll(f: seq<real>, nodelist: seq<seq<nat>>, local: seq<seq<real>>, k: nat)
    requires k <= |nodelist| && k <= |local| && Corners(nodelist, |f|)
    requires forall e :: 0 <= e < |local| ==> |local[e]| == 8 && Sum8(local[e]) == 0.0
    ensures Total(ScatterAll(f, nodelist, local, k)) == Total(f)
  {
    hide Total, Scatter, Front, Sum8;
    if k > 0 {
      TotalScatterAll(f, nodelist, local, k - 1);
      TotalScatter(ScatterAll(f, nodelist, local, k - 1), nodelist[k - 1], local[k - 1], 8);
      FrontIsSum(local[k - 1]);
    }
  }

  /** What node i receives from the first k elements. */
  function ReceivedAll(nodelist: seq<seq<nat>>, local: seq<seq<real>>, i: nat, k: nat): (s: real)
    requires k <= |nodelist| && k <= |local| && (forall e :: 0 <= e < |nodelist| ==> |nodelist[e]| == 8) &&
             forall e :: 0 <= e < |local| ==> |local[e]| == 8
  {
    if k == 0 then 0.0 else ReceivedAll(nodelist, local, i, k - 1) + Received(nodelist[k - 1], local[k - 1], i, 8)
  }

  /** The force at a node grows by the local forces of its corners in all elements. */
  lemma {:induction false} ScatterAllAt(f: seq<real>, nodelist: seq<seq<nat>>, local: seq<seq<real>>, i: nat, k: nat)
    requires k <= |nodelist| && k <= |local| && Corners(nodelist, |f|) &&
             (forall e :: 0 <= e < |local| ==> |local[e]| == 8) && i < |f|
    ensures ScatterAll(f, nodelist, local, k)[i] == f[i] + ReceivedAll(nodelist, local, i, k)
  {
    hide Scatter, Received;
    if k > 0 {
      ScatterAllAt(f, nodelist, local, i, k - 1);
      ScatterAt(ScatterAll(f, nodelist, local, k - 1), nodelist[k - 1], local[k - 1], i, 8);
    }
  }

  /** A nodal quantity at the corners of an element. */
  function Gather(c: seq<real>, nodes: seq<nat>): (r: seq<real>)
    requires |nodes| == 8 && forall l :: 0 <= l < 8 ==> nodes[l] < |c|
    ensures |r| == 8
  {
    seq(8, l requires 0 <= l < 8 => c[nodes[l]])
  }

  /** The stress forces of all elements in one direction, from the other two coordinates. */
  function StressLocals(nodelist: seq<seq<nat>>, sig: seq<real>, a: seq<real>, b: seq<real>): (local: seq<seq<real>>)
    requires |sig| == |nodelist| && Corners(nodelist, |a|) && |b| == |a|
    ensures |local| == |nodelist| && forall e :: 0 <= e < |local| ==> |local[e]| == 8
  {
    seq(|nodelist|, e requires 0 <= e < |nodelist| =>
      StressForce(sig[e], NodeNormals(Gather(a, nodelist[e]), Gather(b, nodelist[e]))))
  }

  /** gamma: the four shapes of hourglass motion. */
  function Gamma(j: nat): (g: seq<real>)
    requires j < 4
    ensures |g| == 8
  {
    if j == 0 then [1.0, 1.0, -1.0, -1.0, -1.0, -1.0, 1.0, 1.0]
    else if j == 1 then [1.0, -1.0, -1.0, 1.0, -1.0, 1.0, 1.0, -1.0]
    else if j == 2 then [1.0, -1.0, 1.0, -1.0, 1.0, -1.0, 1.0, -1.0]
    else [-1.0, 1.0, -1.0, 1.0, 1.0, -1.0, 1.0, -1.0]
  }

  lemma GammaCancels(j: nat)
    requires j < 4
    ensures Sum8(Gamma(j)) == 0.0
  {
  }

  /** Coordinates and volume derivatives at the corners of an element. */
  datatype Corner = Corner(x: seq<real>, y: seq<real>, z: seq<real>, dx: seq<real>, dy: seq<real>, dz: seq<real>)

  ghost predicate ValidCorner(c: Corner) {
    |c.x| == |c.y| == |c.z| == |c.dx| == |c.dy| == |c.dz| == 8
  }

  function Modes(c: Corner, volinv: real): (modes: seq<seq<real>>)
    requires ValidCorner(c)
    ensures |modes| == 4 && forall j :: 0 <= j < 4 ==> |modes[j]| == 8
  {
    seq(4, j requires 0 <= j < 4 => HourglassMode(Gamma(j), volinv, c.dx, c.dy, c.dz, c.x, c.y, c.z))
  }

  /** The volume derivatives of an element come from the coordinates of its corners. */
  function CornerOf(x: seq<real>, y: seq<real>, z: seq<real>): (c: Corner)
    requires |x| == |y| == |z| == 8
    ensures ValidCorner(c)
  {
    Corner(x, y, z, VolumeDerivative(y, z), VolumeDerivative(z, x), VolumeDerivative(x, y))
  }

  lemma ModesCancel(x: seq<real>, y: seq<real>, z: seq<real>, volinv: real)
    requires |x| == |y| == |z| == 8
    ensures forall j :: 0 <= j < 4 ==> Sum8(Modes(CornerOf(x, y, z), volinv)[j]) == 0.0
  {
    hide Sum8, HourglassMode, VolumeDerivative, Gamma;
    forall j | 0 <= j < 4 ensures Sum8(Modes(CornerOf(x, y, z), volinv)[j]) == 0.0 {
      GammaCancels(j);
      SlopesCancel(y, z);
      SlopesCancel(z, x);
      SlopesCancel(x, y);
      ModeCancels(Gamma(j), volinv, VolumeDerivative(y, z), VolumeDerivative(z, x), VolumeDerivative(x, y), x, y, z);
    }
  }

  lemma ModeAt(c: Corner, volinv: real, j: nat, i: nat, hx: real, hy: real, hz: real)
    requires ValidCorner(c) && j < 4 && i < 8 && hx == Dot(c.x, Gamma(j)) && hy == Dot(c.y, Gamma(j)) &&
             hz == Dot(c.z, Gamma(j))
    ensures Modes(c, volinv)[j][i] == Gamma(j)[i] - volinv * (c.dx[i] * hx + c.dy[i] * hy + c.dz[i] * hz)
  {
    hide Gamma, Dot;
  }

  /** The four modes as a table by node. */
  method ComputeModes(c: Corner, volinv: real) returns (hourgam: array2<real>)
    requires ValidCorner(c)
    ensures fresh(hourgam) && hourgam.Length0 == 8 && hourgam.Length1 == 4 && ModesOf(hourgam) == Modes(c, volinv)
  {
    hide Gamma, Dot, Modes;
    hourgam := new real[8, 4];
    for i1 := 0 to 4
      invariant forall j, i :: 0 <= j < i1 && 0 <= i < 8 ==> hourgam[i, j] == Modes(c, volinv)[j][i]
    {
      var gamma := Gamma(i1);
      var hourmodx := Dot(c.x, gamma);
      var hourmody := Dot(c.y, gamma);
      var hourmodz := Dot(c.z, gamma);
      for i := 0 to 8
        invariant forall j, l :: 0 <= j < i1 && 0 <= l < 8 ==> hourgam[l, j] == Modes(c, volinv)[j][l]
        invariant forall l :: 0 <= l < i ==> hourgam[l, i1] == Modes(c, volinv)[i1][l]
      {
        ModeAt(c, volinv, i1, i, hourmodx, hourmody, hourmodz);
        hourgam[i, i1] := gamma[i] - volinv * (c.dx[i] * hourmodx + c.dy[i] * hourmody + c.dz[i] * hourmodz);
      }
    }
    assert forall j :: 0 <= j < 4 ==> ModesOf(hourgam)[j] == Modes(c, volinv)[j];
  }

  // ---------- The domain ----------

  class Domain {
    const numNode: nat
    const nodelist: seq<seq<nat>>
    const x: seq<real>
    const y: seq<real>
    const z: seq<real>
    const xd: seq<real>
    const yd: seq<real>
    const zd: seq<real>
    const p: seq<real>
    const q: seq<real>
    const ss: seq<real>
    const elemMass: seq<real>
    const volo: seq<real>
    const v: seq<real>
    const hgcoef: real
    const fx: array<real>
    const fy: array<real>
    const fz: array<real>

    ghost predicate Valid() {
      && Corners(nodelist, numNode)
      && |x| == |y| == |z| == |xd| == |yd| == |zd| == fx.Length == fy.Length == fz.Length == numNode
      && |p| == |q| == |ss| == |elemMass| == |volo| == |v| == |nodelist|
      && fx != fy && fx != fz && fy != fz
      && forall i :: 0 <= i < |volo| ==> volo[i] > 0.0
    }

    constructor (nodelist: seq<seq<nat>>, coordinates: (seq<real>, seq<real>, seq<real>),
      velocities: (seq<real>, seq<real>, seq<real>),
                 elements: (seq<real>, seq<real>, seq<real>, seq<real>, seq<real>, seq<real>), hgcoef: real)
      requires |coordinates.0| == |coordinates.1| == |coordinates.2| == |velocities.0| == |velocities.1| ==
               |velocities.2|
      requires Corners(nodelist, |coordinates.0|)
      requires |elements.0| == |elements.1| == |elements.2| == |elements.3| == |elements.4| == |elements.5| ==
               |nodelist|
      requires forall i :: 0 <= i < |elements.4| ==> elements.4[i] > 0.0
      ensures Valid() && fresh(fx) && fresh(fy) && fresh(fz)
    {
      this.numNode := |coordinates.0|;
      this.nodelist := nodelist;
      this.x, this.y, this.z := coordinates.0, coordinates.1, coordinates.2;
      this.xd, this.yd, this.zd := velocities.0, velocities.1, velocities.2;
      this.p, this.q, this.ss := elements.0, elements.1, elements.2;
      this.elemMass, this.volo, this.v := elements.3, elements.4, elements.5;
      this.hgcoef := hgcoef;
      this.fx := new real[|coordinates.0|];
      this.fy := new real[|coordinates.0|];
      this.fz := new real[|coordinates.0|];
    }

    /** Adds local forces at the nodes of an element. */
    method AddForces(nodes: seq<nat>, lx: seq<real>, ly: seq<real>, lz: seq<real>)
      requires Valid() && |nodes| == |lx| == |ly| == |lz| == 8 && forall l :: 0 <= l < 8 ==> nodes[l] < numNode
      modifies fx, fy, fz
      ensures fx[..] == Scatter(old(fx[..]), nodes, lx, 8)
      ensures fy[..] == Scatter(old(fy[..]), nodes, ly, 8)
      ensures fz[..] == Scatter(old(fz[..]), nodes, lz, 8)
    {
      for lnode := 0 to 8
        invariant fx[..] == Scatter(old(fx[..]), nodes, lx, lnode)
        invariant fy[..] == Scatter(old(fy[..]), nodes, ly, lnode)
        invariant fz[..] == Scatter(old(fz[..]), nodes, lz, lnode)
      {
        var gnode := nodes[lnode];
        fx[gnode] := fx[gnode] + lx[lnode];
        fy[gnode] := fy[gnode] + ly[lnode];
        fz[gnode] := fz[gnode] + lz[lnode];
      }
    }

    /** The volume and the stress forces of one element.  The node normals take the place of the shape
        derivatives. */
    method ElementStress(k: nat, sx: real, sy: real, sz: real)
        returns (volume: real, lx: seq<real>, ly: seq<real>, lz: seq<real>)
      requires Valid() && k < |nodelist|
      ensures var n := nodelist[k]; volume == ShapeVolume(Gather(x, n), Gather(y, n), Gather(z, n))
      ensures var n := nodelist[k];
              && lx == StressForce(sx, NodeNormals(Gather(y, n), Gather(z, n)))
              && ly == StressForce(sy, NodeNormals(Gather(z, n), Gather(x, n)))
              && lz == StressForce(sz, NodeNormals(Gather(x, n), Gather(y, n)))
    {
      hide ShapeVolume, ShapeDerivative, NodeNormals, StressForce;
      var normalX, normalY, normalZ := new real[8], new real[8], new real[8];
      var nodes := nodelist[k];
      var localX, localY, localZ := Gather(x, nodes), Gather(y, nodes), Gather(z, nodes);
      volume := CalcElemShapeFunctionDerivatives(localX, localY, localZ, normalX, normalY, normalZ);
      CalcElemNodeNormals(normalX, normalY, normalZ, localX, localY, localZ);
      var f := new real[8];
      SumElemStressesToNodeForces(normalX, sx, f);
      lx := f[..];
      SumElemStressesToNodeForces(normalY, sy, f);
      ly := f[..];
      SumElemStressesToNodeForces(normalZ, sz, f);
      lz := f[..];
    }

    /** The volumes that the shape functions give the elements. */
    function ShapeVolumes(): (determ: seq<real>)
      requires Valid()
      ensures |determ| == |nodelist|
    {
      seq(|nodelist|, e requires 0 <= e < |nodelist| =>
        ShapeVolume(Gather(x, nodelist[e]), Gather(y, nodelist[e]), Gather(z, nodelist[e])))
    }

    /** IntegrateStressForElems: on any mesh the sums of the forces stay what they were. */
    method IntegrateStressForElems(sigxx: seq<real>, sigyy: seq<real>, sigzz: seq<real>) returns (determ: seq<real>)
      requires Valid() && |sigxx| == |sigyy| == |sigzz| == |nodelist|
      modifies fx, fy, fz
      ensures determ == ShapeVolumes()
      ensures fx[..] == ScatterAll(old(fx[..]), nodelist, StressLocals(nodelist, sigxx, y, z), |nodelist|)
      ensures fy[..] == ScatterAll(old(fy[..]), nodelist, StressLocals(nodelist, sigyy, z, x), |nodelist|)
      ensures fz[..] == ScatterAll(old(fz[..]), nodelist, StressLocals(nodelist, sigzz, x, y), |nodelist|)
      ensures Total(fx[..]) == Total(old(fx[..])) && Total(fy[..]) == Total(old(fy[..])) &&
              Total(fz[..]) == Total(old(fz[..]))
    {
      hide StressForce, NodeNormals, Scatter, Total, ShapeVolume;
      determ := [];
      ghost var localX, localY, localZ := StressLocals(nodelist, sigxx, y, z), StressLocals(nodelist, sigyy, z, x),
        StressLocals(nodelist, sigzz, x, y);
      for k := 0 to |nodelist|
        invariant determ == ShapeVolumes()[..k]
        invariant fx[..] == ScatterAll(old(fx[..]), nodelist, localX, k)
        invariant fy[..] == ScatterAll(old(fy[..]), nodelist, localY, k)
        invariant fz[..] == ScatterAll(old(fz[..]), nodelist, localZ, k)
      {
        var volume, lx, ly, lz := ElementStress(k, sigxx[k], sigyy[k], sigzz[k]);
        determ := determ + [volume];
        AddForces(nodelist[k], lx, ly, lz);
      }
      StressKeepsTotal(old(fx[..]), nodelist, sigxx, y, z);
      StressKeepsTotal(old(fy[..]), nodelist, sigyy, z, x);
      StressKeepsTotal(old(fz[..]), nodelist, sigzz, x, y);
    }

    /** The coefficient of the hourglass forces of an element. */
    function Coefficient(cbrt: real -> real, determ: real, k: nat): (c: real)
      requires Valid() && k < |nodelist| && cbrt(determ) != 0.0
    {
      -hgcoef * 0.01 * ss[k] * elemMass[k] / cbrt(determ)
    }

    function CornersOf(k: nat): (c: Corner)
      requires Valid() && k < |nodelist|
      ensures ValidCorner(c)
    {
      CornerOf(Gather(x, nodelist[k]), Gather(y, nodelist[k]), Gather(z, nodelist[k]))
    }

    /** The hourglass forces of all elements in the direction of a velocity. */
    ghost function HourglassLocals(cbrt: real -> real, determ: seq<real>, velocity: seq<real>): (local: seq<seq<real>>)
      requires Valid() && |determ| == |nodelist| && |velocity| == numNode
      requires forall k :: 0 <= k < |determ| ==> determ[k] != 0.0 && cbrt(determ[k]) != 0.0
      ensures |local| == |nodelist| && forall e :: 0 <= e < |local| ==> |local[e]| == 8
    {
      seq(|nodelist|, e requires 0 <= e < |nodelist| =>
        HourglassForce(Modes(CornersOf(e), 1.0 / determ[e]), Gather(velocity, nodelist[e]),
          Coefficient(cbrt, determ[e], e)))
    }

    /** The hourglass forces of one element. */
    method ElementHourglass(cbrt: real -> real, determ: real, c: Corner, k: nat)
        returns (lx: seq<real>, ly: seq<real>, lz: seq<real>)
      requires Valid() && k < |nodelist| && determ != 0.0 && cbrt(determ) != 0.0 && ValidCorner(c)
      ensures var n, modes, coefficient := nodelist[k], Modes(c, 1.0 / determ), Coefficient(cbrt, determ, k);
              && lx == HourglassForce(modes, Gather(xd, n), coefficient)
              && ly == HourglassForce(modes, Gather(yd, n), coefficient)
              && lz == HourglassForce(modes, Gather(zd, n), coefficient)
    {
      hide HourglassForce, Modes, Coefficient;
      var hourgam := ComputeModes(c, 1.0 / determ);
      var nodes, coefficient, hgf := nodelist[k], Coefficient(cbrt, determ, k), new real[8];
      CalcElemFBHourglassForce(Gather(xd, nodes), hourgam, coefficient, hgf);
      lx := hgf[..];
      CalcElemFBHourglassForce(Gather(yd, nodes), hourgam, coefficient, hgf);
      ly := hgf[..];
      CalcElemFBHourglassForce(Gather(zd, nodes), hourgam, coefficient, hgf);
      lz := hgf[..];
    }

    /** CalcFBHourglassForceForElems: on any mesh the sums of the forces stay what they were. */
    method CalcFBHourglassForceForElems(cbrt: real -> real, determ: seq<real>, corners: seq<Corner>)
      requires Valid() && |determ| == |corners| == |nodelist|
      requires forall k :: 0 <= k < |determ| ==> determ[k] != 0.0 && cbrt(determ[k]) != 0.0
      requires forall k :: 0 <= k < |corners| ==> corners[k] == CornersOf(k)
      modifies fx, fy, fz
      ensures fx[..] == ScatterAll(old(fx[..]), nodelist, HourglassLocals(cbrt, determ, xd), |nodelist|)
      ensures fy[..] == ScatterAll(old(fy[..]), nodelist, HourglassLocals(cbrt, determ, yd), |nodelist|)
      ensures fz[..] == ScatterAll(old(fz[..]), nodelist, HourglassLocals(cbrt, determ, zd), |nodelist|)
      ensures Total(fx[..]) == Total(old(fx[..])) && Total(fy[..]) == Total(old(fy[..])) &&
              Total(fz[..]) == Total(old(fz[..]))
    {
      hide HourglassForce, Modes, Coefficient, CornersOf, Scatter, ScatterAll, HourglassLocals, Gather, Total;
      NoForces(fx[..], nodelist, HourglassLocals(cbrt, determ, xd));
      NoForces(fy[..], nodelist, HourglassLocals(cbrt, determ, yd));
      NoForces(fz[..], nodelist, HourglassLocals(cbrt, determ, zd));
      ghost var localX, localY, localZ := HourglassLocals(cbrt, determ, xd), HourglassLocals(cbrt, determ, yd),
        HourglassLocals(cbrt, determ, zd);
      for i2 := 0 to |nodelist|
        invariant fx[..] == ScatterAll(old(fx[..]), nodelist, localX, i2)
        invariant fy[..] == ScatterAll(old(fy[..]), nodelist, localY, i2)
        invariant fz[..] == ScatterAll(old(fz[..]), nodelist, localZ, i2)
      {
        MoreForces(old(fx[..]), nodelist, localX, i2);
        MoreForces(old(fy[..]), nodelist, localY, i2);
        MoreForces(old(fz[..]), nodelist, localZ, i2);
        HourglassLocalAt(cbrt, determ, xd, i2);
        HourglassLocalAt(cbrt, determ, yd, i2);
        HourglassLocalAt(cbrt, determ, zd, i2);
        var lx, ly, lz := ElementHourglass(cbrt, determ[i2], corners[i2], i2);
        AddForces(nodelist[i2], lx, ly, lz);
      }
      HourglassKeepsTotal(old(fx[..]), cbrt, determ, xd);
      HourglassKeepsTotal(old(fy[..]), cbrt, determ, yd);
      HourglassKeepsTotal(old(fz[..]), cbrt, determ, zd);
    }

    lemma HourglassLocalAt(cbrt: real -> real, determ: seq<real>, velocity: seq<real>, e: nat)
      requires Valid() && |determ| == |nodelist| && |velocity| == numNode && e < |nodelist|
      requires forall k :: 0 <= k < |determ| ==> determ[k] != 0.0 && cbrt(determ[k]) != 0.0
      ensures HourglassLocals(cbrt, determ, velocity)[e] ==
              HourglassForce(Modes(CornersOf(e), 1.0 / determ[e]), Gather(velocity, nodelist[e]),
                Coefficient(cbrt, determ[e], e))
    {
      hide HourglassForce, Modes, Coefficient, CornersOf, Gather;
    }

    lemma HourglassKeepsTotal(f: seq<real>, cbrt: real -> real, determ: seq<real>, velocity: seq<real>)
      requires Valid() && |determ| == |nodelist| && |velocity| == |f| == numNode
      requires forall k :: 0 <= k < |determ| ==> determ[k] != 0.0 && cbrt(determ[k]) != 0.0
      ensures Total(ScatterAll(f, nodelist, HourglassLocals(cbrt, determ, velocity), |nodelist|)) == Total(f)
    {
      hide Total, ScatterAll, Sum8, HourglassForce, Modes, Coefficient, Gather;
      var local := HourglassLocals(cbrt, determ, velocity);
      forall e | 0 <= e < |local| ensures Sum8(local[e]) == 0.0 {
        ModesCancel(Gather(x, nodelist[e]), Gather(y, nodelist[e]), Gather(z, nodelist[e]), 1.0 / determ[e]);
        HourglassForcesCancel(Modes(CornersOf(e), 1.0 / determ[e]), Gather(velocity, nodelist[e]),
          Coefficient(cbrt, determ[e], e));
      }
      TotalScatterAll(f, nodelist, local, |nodelist|);
    }

    ghost predicate HaveVolume() {
      forall i :: 0 <= i < |v| ==> v[i] > 0.0
    }

    /** The volumes of all elements. */
    ghost function Volumes(): (determ: seq<real>)
      requires Valid()
      ensures |determ| == |nodelist| && forall k :: 0 <= k < |determ| ==> determ[k] == volo[k] * v[k]
      ensures HaveVolume() ==> forall k :: 0 <= k < |determ| ==> determ[k] > 0.0
    {
      seq(|nodelist|, k requires 0 <= k < |nodelist| => volo[k] * v[k])
    }

    /** Forces in the direction of a velocity with hourglass forces added, if there are any. */
    ghost function WithHourglass(cbrt: real -> real, f: seq<real>, velocity: seq<real>): (r: seq<real>)
      requires Valid() && |f| == |velocity| == numNode && forall d: real :: d > 0.0 ==> cbrt(d) != 0.0
    {
      if HaveVolume() && hgcoef > 0.0
      then ScatterAll(f, nodelist, HourglassLocals(cbrt, Volumes(), velocity), |nodelist|)
      else f
    }

    lemma WithHourglassTotal(cbrt: real -> real, f: seq<real>, velocity: seq<real>)
      requires Valid() && |f| == |velocity| == numNode && forall d: real :: d > 0.0 ==> cbrt(d) != 0.0
      ensures Total(WithHourglass(cbrt, f, velocity)) == Total(f)
    {
      hide Total, ScatterAll, HourglassLocals;
      if HaveVolume() { HourglassKeepsTotal(f, cbrt, Volumes(), velocity); }
    }

    /** CalcHourglassControlForElems; false if an element has no volume, where the program exits. */
    method CalcHourglassControlForElems(cbrt: real -> real) returns (ok: bool)
      requires Valid() && forall d: real :: d > 0.0 ==> cbrt(d) != 0.0
      modifies fx, fy, fz
      ensures ok == HaveVolume()
      ensures fx[..] == WithHourglass(cbrt, old(fx[..]), xd)
      ensures fy[..] == WithHourglass(cbrt, old(fy[..]), yd)
      ensures fz[..] == WithHourglass(cbrt, old(fz[..]), zd)
    {
      hide CornerOf, Gather, Total, HourglassLocals, ScatterAll;
      var determ: seq<real>, corners: seq<Corner> := [], [];
      for i := 0 to |nodelist|
        invariant |determ| == |corners| == i
        invariant forall k :: 0 <= k < i ==> v[k] > 0.0 && determ[k] == volo[k] * v[k] && corners[k] == CornersOf(k)
        invariant fx[..] == old(fx[..]) && fy[..] == old(fy[..]) && fz[..] == old(fz[..])
      {
        var c := ElementCorner(i);
        corners := corners + [c];
        determ := determ + [volo[i] * v[i]];
        if v[i] <= 0.0 {
          return false;
        }
      }
      assert determ == Volumes();
      if hgcoef > 0.0 {
        CalcFBHourglassForceForElems(cbrt, determ, corners);
      }
      ok := true;
    }

    method ElementCorner(i: nat) returns (c: Corner)
      requires Valid() && i < |nodelist|
      ensures c == CornersOf(i)
    {
      hide Gather, VolumeDerivative;
      var x1, y1, z1 := Gather(x, nodelist[i]), Gather(y, nodelist[i]), Gather(z, nodelist[i]);
      var pfx, pfy, pfz := CalcElemVolumeDerivative(x1, y1, z1);
      c := Corner(x1, y1, z1, pfx, pfy, pfz);
    }

    ghost function Zeros(): (f: seq<real>)
      ensures |f| == numNode
    {
      seq(numNode, _ => 0.0)
    }

    ghost function Stresses(): (sig: seq<real>)
      requires Valid()
      ensures |sig| == |nodelist|
    {
      seq(|nodelist|, i requires 0 <= i < |nodelist| => -p[i] - q[i])
    }

    ghost predicate HaveShape() {
      Valid() && forall k :: 0 <= k < |nodelist| ==> ShapeVolumes()[k] > 0.0
    }

    /** All forces of one component, from nothing; the program exits before the hourglass forces if the shape of
        an element has no volume. */
    ghost function InternalForces(cbrt: real -> real, a: seq<real>, b: seq<real>, velocity: seq<real>): (f: seq<real>)
      requires Valid() && |a| == |b| == |velocity| == numNode && forall d: real :: d > 0.0 ==> cbrt(d) != 0.0
    {
      var stress := ScatterAll(Zeros(), nodelist, StressLocals(nodelist, Stresses(), a, b), |nodelist|);
      if HaveShape() then WithHourglass(cbrt, stress, velocity) else stress
    }

    /** Internal forces add up to zero over the whole mesh. */
    lemma InternalForcesCancel(cbrt: real -> real, a: seq<real>, b: seq<real>, velocity: seq<real>)
      requires Valid() && |a| == |b| == |velocity| == numNode && forall d: real :: d > 0.0 ==> cbrt(d) != 0.0
      ensures Total(InternalForces(cbrt, a, b, velocity)) == 0.0
    {
      hide Total, ScatterAll, StressLocals, WithHourglass, HaveShape;
      TotalOfZeros(Zeros());
      StressKeepsTotal(Zeros(), nodelist, Stresses(), a, b);
      WithHourglassTotal(cbrt, ScatterAll(Zeros(), nodelist, StressLocals(nodelist, Stresses(), a, b), |nodelist|),
        velocity);
    }

    /** CalcForceForNodes: the internal forces of the mesh, from whatever stood in the force fields; false where
        the program exits. */
    method CalcForceForNodes(cbrt: real -> real) returns (ok: bool)
      requires Valid() && forall d: real :: d > 0.0 ==> cbrt(d) != 0.0
      modifies fx, fy, fz
      ensures ok == (HaveShape() && HaveVolume())
      ensures fx[..] == InternalForces(cbrt, y, z, xd)
      ensures fy[..] == InternalForces(cbrt, z, x, yd)
      ensures fz[..] == InternalForces(cbrt, x, y, zd)
      ensures Total(fx[..]) == 0.0 && Total(fy[..]) == 0.0 && Total(fz[..]) == 0.0
    {
      hide Total, ScatterAll, StressLocals, HourglassLocals, WithHourglass;
      for i := 0 to numNode
        invariant forall j :: 0 <= j < i ==> fx[j] == 0.0 && fy[j] == 0.0 && fz[j] == 0.0
      {
        fx[i] := 0.0;
        fy[i] := 0.0;
        fz[i] := 0.0;
      }
      assert fx[..] == Zeros() && fy[..] == Zeros() && fz[..] == Zeros();
      InternalForcesCancel(cbrt, y, z, xd);
      InternalForcesCancel(cbrt, z, x, yd);
      InternalForcesCancel(cbrt, x, y, zd);
      ok := CalcVolumeForceForElems(cbrt);
    }

    /** CalcVolumeForceForElems, after the forces have been cleared. */
    method CalcVolumeForceForElems(cbrt: real -> real) returns (ok: bool)
      requires Valid() && forall d: real :: d > 0.0 ==> cbrt(d) != 0.0
      requires fx[..] == Zeros() && fy[..] == Zeros() && fz[..] == Zeros()
      modifies fx, fy, fz
      ensures ok == (HaveShape() && HaveVolume())
      ensures fx[..] == InternalForces(cbrt, y, z, xd)
      ensures fy[..] == InternalForces(cbrt, z, x, yd)
      ensures fz[..] == InternalForces(cbrt, x, y, zd)
    {
      hide Total, ScatterAll, StressLocals, HourglassLocals, ShapeVolumes;
      if |nodelist| == 0 {
        NoElements(cbrt, y, z, xd);
        NoElements(cbrt, z, x, yd);
        NoElements(cbrt, x, y, zd);
        return true;
      }
      var sig := InitStressTerms();
      assert sig == Stresses();
      var determ := IntegrateStressForElems(sig, sig, sig);
      for k := 0 to |nodelist|
        invariant forall e :: 0 <= e < k ==> determ[e] > 0.0
      {
        if determ[k] <= 0.0 {
          assert !HaveShape();
          return false;
        }
      }
      ok := CalcHourglassControlForElems(cbrt);
    }

    lemma NoElements(cbrt: real -> real, a: seq<real>, b: seq<real>, velocity: seq<real>)
      requires Valid() && |a| == |b| == |velocity| == numNode && forall d: real :: d > 0.0 ==> cbrt(d) != 0.0
      requires |nodelist| == 0
      ensures InternalForces(cbrt, a, b, velocity) == Zeros() && HaveShape() && HaveVolume()
    {
      hide StressLocals, HourglassLocals;
      NoForces(Zeros(), nodelist, StressLocals(nodelist, Stresses(), a, b));
      NoForces(Zeros(), nodelist, HourglassLocals(cbrt, Volumes(), velocity));
    }

    method InitStressTerms() returns (sig: seq<real>)
      requires Valid()
      ensures |sig| == |nodelist| && forall i :: 0 <= i < |sig| ==> sig[i] == -p[i] - q[i]
    {
      sig := [];
      for i := 0 to |nodelist|
        invariant |sig| == i && forall j :: 0 <= j < i ==> sig[j] == -p[j] - q[j]
      {
        sig := sig + [-p[i] - q[i]];
      }
    }
  }

  lemma StressKeepsTotal(f: seq<real>, nodelist: seq<seq<nat>>, sig: seq<real>, a: seq<real>, b: seq<real>)
    requires |sig| == |nodelist| && Corners(nodelist, |f|) && |a| == |b| == |f|
    ensures Total(ScatterAll(f, nodelist, StressLocals(nodelist, sig, a, b), |nodelist|)) == Total(f)
  {
    hide Total, ScatterAll, Sum8, StressForce, NodeNormals, Gather;
    var local := StressLocals(nodelist, sig, a, b);
    forall e | 0 <= e < |local| ensures Sum8(local[e]) == 0.0 {
      NormalsCancel(Gather(a, nodelist[e]), Gather(b, nodelist[e]));
      StressForcesCancel(sig[e], NodeNormals(Gather(a, nodelist[e]), Gather(b, nodelist[e])));
    }
    TotalScatterAll(f, nodelist, local, |nodelist|);
  }
}
