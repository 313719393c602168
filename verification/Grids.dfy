/** Periodic grids: linearized points, their coordinates, and wrap-around offsets.

    Dimension 0 is the fastest running one.
 */
module Grids {
  import W = Words

  /** The number of points of a grid. */
  function Volume(dims: seq<nat>): (v: nat)
  {
    if dims == [] then 1 else dims[0] * Volume(dims[1..])
  }

  ghost predicate Positive(dims: seq<nat>) {
    forall i :: 0 <= i < |dims| ==> dims[i] > 0
  }

  /** c is a point of the grid. */
  ghost predicate InGrid(dims: seq<nat>, c: seq<int>) {
    |c| == |dims| && forall i :: 0 <= i < |dims| ==> 0 <= c[i] < dims[i]
  }

  function Linear(dims: seq<nat>, c: seq<int>): (k: int)
    requires |c| == |dims|
  {
    if dims == [] then 0 else Linear(dims[1..], c[1..]) * dims[0] + c[0]
  }

  function Coords(dims: seq<nat>, k: nat): (c: seq<int>)
    requires Positive(dims)
    ensures |c| == |dims|
  {
    if dims == [] then [] else [k % dims[0]] + Coords(dims[1..], k / dims[0])
  }

  /** Remainder of C and C++: the quotient is truncated towards zero. */
  function TruncMod(x: int, m: nat): (r: int)
    requires m > 0
  {
    if x >= 0 then x % m else -((-x) % m)
  }

  lemma {:induction false} LinearInRange(dims: seq<nat>, c: seq<int>)
    requires InGrid(dims, c)
    ensures 0 <= Linear(dims, c) < Volume(dims)
  {
    if dims != [] {
      LinearInRange(dims[1..], c[1..]);
      W.JoinBelow(Linear(dims[1..], c[1..]), c[0], dims[0], Volume(dims[1..]));
    }
  }

  lemma QuotientBelow(k: nat, d: nat, v: nat)
    requires d > 0 && k < d * v
    ensures k / d < v && k == k / d * d + k % d
  {
    W.JoinBelow(k / d, k % d, d, v);
  }

  /** Linearizing the coordinates of a point gives the point. */
  lemma {:induction false} LinearOfCoords(dims: seq<nat>, k: nat)
    requires Positive(dims) && k < Volume(dims)
    ensures InGrid(dims, Coords(dims, k)) && Linear(dims, Coords(dims, k)) == k
  {
    if dims != [] {
      var d, q := dims[0], k / dims[0];
      QuotientBelow(k, d, Volume(dims[1..]));
      LinearOfCoords(dims[1..], q);
      var c := Coords(dims, k);
      assert c[1..] == Coords(dims[1..], q);
      forall i | 0 <= i < |dims| ensures 0 <= c[i] < dims[i] {
        if i > 0 { assert c[i] == c[1..][i - 1] && dims[i] == dims[1..][i - 1]; }
      }
    }
  }

  /** The coordinates of a linearized point are the point. */
  lemma {:induction false} CoordsOfLinear(dims: seq<nat>, c: seq<int>)
    requires Positive(dims) && InGrid(dims, c)
    ensures 0 <= Linear(dims, c) < Volume(dims)
    ensures Coords(dims, Linear(dims, c)) == c
  {
    LinearInRange(dims, c);
    if dims != [] {
      CoordsOfLinear(dims[1..], c[1..]);
      W.DivModOf(Linear(dims[1..], c[1..]), c[0], dims[0]);
    }
  }

  /** A point moved by an offset on the periodic grid. */
  function Shifted(dims: seq<nat>, c: seq<int>, off: seq<int>): (r: seq<int>)
    requires Positive(dims) && |c| == |dims| && |off| == |dims|
    ensures InGrid(dims, r)
  {
    seq(|dims|, i requires 0 <= i < |dims| => (c[i] + off[i]) % dims[i])
  }

  /** `((base + offset) % dim + dim) % dim` with truncating remainders is the remainder that is
      never negative. */
  lemma DoubleModulus(x: int, m: nat)
    requires m > 0
    ensures TruncMod(TruncMod(x, m) + m, m) == x % m
  {
    if x >= 0 {
      W.DivModOf(1, x % m, m);
    } else {
      var y := (-x) % m;
      assert -x == (-x) / m * m + y;
      if y == 0 {
        assert x == (-((-x) / m)) * m + 0;
        W.DivModOf(-((-x) / m), 0, m);
        W.DivModOf(1, 0, m);
      } else {
        assert x == (-((-x) / m) - 1) * m + (m - y);
        W.DivModOf(-((-x) / m) - 1, m - y, m);
        W.DivModOf(0, m - y, m);
      }
    }
  }

  /** One truncating remainder after adding the dimension wraps correctly if and only if the sum
      is not negative or the point lands exactly on a multiple of the dimension. */
  lemma SingleModulus(x: int, m: nat)
    requires m > 0
    ensures TruncMod(x + m, m) == x % m <==> (x + m >= 0 || x % m == 0)
  {
    var q, r := x / m, x % m;
    assert x == q * m + r;
    assert x + m == (q + 1) * m + r;
    W.DivModOf(q + 1, r, m);
    if x + m < 0 && r == 0 {
      assert -(x + m) == (-(q + 1)) * m + 0;
      W.DivModOf(-(q + 1), 0, m);
    }
  }

  /** An offset is wrapped correctly at all coordinates of a dimension exactly if it reaches back over at most one
      period, or the dimension has one point only. */
  lemma WrapsEverywhere(offset: int, m: nat)
    requires m > 0
    ensures (forall base: nat :: base < m ==> WrapsAt(base, offset, m)) <==> m == 1 || offset + m >= 0
  {
    if m == 1 || offset + m >= 0 {
      forall base: nat | base < m ensures WrapsAt(base, offset, m) {
        SingleModulus(base + offset, m);
      }
    } else if WrapsAt(0, offset, m) && WrapsAt(1, offset, m) {
      SingleModulus(offset, m);
      SingleModulus(1 + offset, m);
      var q := offset / m;
      assert offset == q * m + 0;
      W.DivModOf(q, 1, m);
      BelowTwoPeriods(q, m);
      assert false;
    }
  }

  predicate WrapsAt(base: nat, offset: int, m: nat)
    requires m > 0
  {
    TruncMod(base + (offset + m), m) == (base + offset) % m
  }

  lemma BelowTwoPeriods(q: int, m: nat)
    requires q * m + m < 0
    ensures q * m + 2 * m <= 0
  {
    W.ProductAtLeast(-1 - q, m);
    assert (-1 - q) * m + m + q * m == 0;
  }

  /** The indices computed by getGridPointOffsetIndices. */
  method OffsetIndices(base: seq<int>, offset: seq<int>, dims: seq<nat>) returns (indices: seq<int>)
    requires Positive(dims) && |base| == |dims| && |offset| == |dims|
    ensures indices == Shifted(dims, base, offset)
  {
    indices := [];
    for i := 0 to |dims|
      invariant |indices| == i && forall j :: 0 <= j < i ==> indices[j] == (base[j] + offset[j]) % dims[j]
    {
      DoubleModulus(base[i] + offset[i], dims[i]);
      var ind := TruncMod(TruncMod(base[i] + offset[i], dims[i]) + dims[i], dims[i]);
      indices := indices + [ind];
    }
  }

  /** The value of the expression built by getGridPointCoord: the slowest dimension first. */
  method PointCoord(indices: seq<int>, dims: seq<nat>) returns (totalInd: int)
    requires |indices| == |dims| && |dims| >= 1
    ensures totalInd == Linear(dims, indices)
  {
    totalInd := indices[|dims| - 1];
    var i := |dims| - 1;
    assert dims[i..][1..] == [] && indices[i..][1..] == [];
    while i > 0
      invariant 0 <= i < |dims| && totalInd == Linear(dims[i..], indices[i..])
    {
      i := i - 1;
      assert dims[i..][1..] == dims[i + 1..] && indices[i..][1..] == indices[i + 1..];
      totalInd := totalInd * dims[i] + indices[i];
    }
    assert dims[0..] == dims && indices[0..] == indices;
  }

  /** Set::getGridPoint: the index of a point, and None for coordinates that linearize outside
      the grid. */
  method GridPoint(dims: seq<nat>, coords: seq<int>) returns (index: int, inside: bool)
    requires |coords| == |dims|
    ensures index == Linear(dims, coords) && inside == (0 <= index < Volume(dims))
  {
    index := 0;
    var totalSize := 1;
    var i := |dims|;
    while i > 0
      invariant 0 <= i <= |dims|
      invariant index == Linear(dims[i..], coords[i..]) && totalSize == Volume(dims[i..])
    {
      i := i - 1;
      assert dims[i..][1..] == dims[i + 1..] && coords[i..][1..] == coords[i + 1..];
      index := index * dims[i];
      index := index + coords[i];
      totalSize := totalSize * dims[i];
    }
    assert dims[0..] == dims && coords[0..] == coords;
    inside := 0 <= index < totalSize;
  }

  /** Set::getGridPointCoords */
  method GridPointCoords(dims: seq<nat>, ident: nat) returns (coords: seq<int>)
    requires Positive(dims)
    ensures coords == Coords(dims, ident)
  {
    var index := ident;
    coords := [];
    for i := 0 to |dims|
      invariant |coords| == i && coords + Coords(dims[i..], index) == Coords(dims, ident)
    {
      assert dims[i..][1..] == dims[i + 1..];
      var dimSize := dims[i];
      coords := coords + [index % dimSize];
      index := index / dimSize;
    }
  }

  // ---------- Periodic shifts ----------

  function Negated(off: seq<int>): (r: seq<int>)
    ensures |r| == |off|
  {
    seq(|off|, i requires 0 <= i < |off| => -off[i])
  }

  /** The point at an offset from p on the periodic grid. */
  function Moved(dims: seq<nat>, p: nat, off: seq<int>): (q: nat)
    requires Positive(dims) && |off| == |dims|
    ensures q < Volume(dims)
  {
    LinearInRange(dims, Shifted(dims, Coords(dims, p), off));
    Linear(dims, Shifted(dims, Coords(dims, p), off))
  }

  function Plus(a: seq<int>, b: seq<int>): (r: seq<int>)
    requires |a| == |b|
    ensures |r| == |a|
  {
    seq(|a|, i requires 0 <= i < |a| => a[i] + b[i])
  }

  lemma ModPlus(x: int, y: int, d: nat)
    requires d > 0
    ensures (x % d + y) % d == (x + y) % d
  {
    var q, r := x / d, x % d;
    var s, t := (r + y) / d, (r + y) % d;
    assert x == q * d + r && r + y == s * d + t;
    assert x + y == (q + s) * d + t;
    W.DivModOf(q + s, t, d);
  }

  lemma ShiftedTwiceAt(dims: seq<nat>, c: seq<int>, a: seq<int>, b: seq<int>, i: nat)
    requires Positive(dims) && |c| == |a| == |b| == |dims| && i < |dims|
    ensures Shifted(dims, Shifted(dims, c, a), b)[i] == Shifted(dims, c, Plus(a, b))[i]
  {
    ModPlus(c[i] + a[i], b[i], dims[i]);
  }

  lemma ShiftedTwice(dims: seq<nat>, c: seq<int>, a: seq<int>, b: seq<int>)
    requires Positive(dims) && |c| == |a| == |b| == |dims|
    ensures Shifted(dims, Shifted(dims, c, a), b) == Shifted(dims, c, Plus(a, b))
  {
    hide Plus;
    forall i | 0 <= i < |dims|
      ensures Shifted(dims, Shifted(dims, c, a), b)[i] == Shifted(dims, c, Plus(a, b))[i] {
      ShiftedTwiceAt(dims, c, a, b, i);
    }
  }

  /** Moving twice is moving by the sum. */
  lemma MovedTwice(dims: seq<nat>, p: nat, a: seq<int>, b: seq<int>)
    requires Positive(dims) && |a| == |b| == |dims|
    ensures Moved(dims, Moved(dims, p, a), b) == Moved(dims, p, Plus(a, b))
  {
    hide Linear, Coords, Volume, Shifted, Plus;
    CoordsOfLinear(dims, Shifted(dims, Coords(dims, p), a));
    ShiftedTwice(dims, Coords(dims, p), a, b);
  }

  /** Where Moved leads, coordinate by coordinate. */
  lemma MovedCoords(dims: seq<nat>, p: nat, off: seq<int>, k: nat)
    requires Positive(dims) && |off| == |dims| && p < Volume(dims) && k < |dims|
    ensures Coords(dims, Moved(dims, p, off))[k] == (Coords(dims, p)[k] + off[k]) % dims[k]
  {
    hide Linear, Coords, Volume;
    CoordsOfLinear(dims, Shifted(dims, Coords(dims, p), off));
  }

  /** Points whose coordinates differ in one dimension only are as many places apart as the smaller dimensions have
      points, times the difference. */
  lemma {:induction false} LinearStep(dims: seq<nat>, c: seq<int>, d: seq<int>, k: nat)
    requires |c| == |d| == |dims| && k < |dims| && forall i :: 0 <= i < |dims| && i != k ==> c[i] == d[i]
    ensures Linear(dims, d) == Linear(dims, c) + (d[k] - c[k]) * Volume(dims[..k])
  {
    if k == 0 {
      assert c[1..] == d[1..] && dims[..0] == [];
    } else {
      LinearStep(dims[1..], c[1..], d[1..], k - 1);
      assert dims[1..][..k - 1] == dims[..k][1..];
      StepProduct(Linear(dims[1..], c[1..]), d[k] - c[k], Volume(dims[1..][..k - 1]), dims[0]);
    }
  }

  lemma StepProduct(x: int, a: int, v: int, d: int)
    ensures (x + a * v) * d == x * d + a * (d * v)
  {
  }

  /** One step along dimension k: to the point as many places further as the smaller dimensions have points, and
      back from the last coordinate to the first. */
  lemma StepAlong(dims: seq<nat>, p: nat, k: nat)
    requires Positive(dims) && p < Volume(dims) && k < |dims|
    ensures var step := seq(|dims|, i => if i == k then 1 else 0);
            Moved(dims, p, step) ==
            if Coords(dims, p)[k] + 1 < dims[k] then p + Volume(dims[..k])
            else p - (dims[k] - 1) * Volume(dims[..k])
  {
    hide Volume, Linear, Coords;
    var step := seq(|dims|, i => if i == k then 1 else 0);
    var c := Coords(dims, p);
    var d := Shifted(dims, c, step);
    LinearOfCoords(dims, p);
    forall i | 0 <= i < |dims| ensures d[i] == if i != k then c[i] else if c[k] + 1 < dims[k] then c[k] + 1 else 0 {
      if i != k || c[k] + 1 < dims[k] { W.DivModOf(0, c[i] + step[i], dims[i]); } else { W.DivModOf(1, 0, dims[k]); }
    }
    LinearStep(dims, c, d, k);
  }

  lemma WholePeriods(c: int, off: int, d: nat)
    requires 0 <= c < d && off % d == 0
    ensures (c + off) % d == c
  {
    ModPlus(off, c, d);
    W.DivModOf(0, c, d);
  }

  lemma MovedNowhere(dims: seq<nat>, p: nat, off: seq<int>)
    requires Positive(dims) && p < Volume(dims) && |off| == |dims| && forall i :: 0 <= i < |off| ==>
             off[i] % dims[i] == 0
    ensures Moved(dims, p, off) == p
  {
    hide Linear, Coords, Volume;
    LinearOfCoords(dims, p);
    var c := Coords(dims, p);
    forall i | 0 <= i < |dims| ensures (c[i] + off[i]) % dims[i] == c[i] {
      WholePeriods(c[i], off[i], dims[i]);
    }
    assert Shifted(dims, c, off) == c;
  }

  /** p moved by r is q exactly when p is q moved back. */
  lemma MovedBack(dims: seq<nat>, p: nat, q: nat, r: seq<int>)
    requires Positive(dims) && |r| == |dims| && p < Volume(dims) && q < Volume(dims)
    ensures Moved(dims, p, r) == q <==> p == Moved(dims, q, Negated(r))
  {
    hide Moved, Volume;
    MovedTwice(dims, p, r, Negated(r));
    MovedTwice(dims, q, Negated(r), r);
    ZeroMod(dims);
    MovedNowhere(dims, p, Plus(r, Negated(r)));
    MovedNowhere(dims, q, Plus(Negated(r), r));
  }

  lemma ZeroMod(dims: seq<nat>)
    requires Positive(dims)
    ensures forall i :: 0 <= i < |dims| ==> 0 % dims[i] == 0
  {
    forall i | 0 <= i < |dims| ensures 0 % dims[i] == 0 { W.DivModOf(0, 0, dims[i]); }
  }

  lemma {:induction false} VolumePositive(dims: seq<nat>)
    requires Positive(dims)
    ensures Volume(dims) > 0
  {
    if dims != [] { VolumePositive(dims[1..]); W.ProductAtLeast(Volume(dims[1..]), dims[0]); }
  }

  /** Point 0 stays where it is exactly when it moves by whole periods. */
  lemma ZeroMoved(dims: seq<nat>, r: seq<int>)
    requires Positive(dims) && |r| == |dims|
    ensures Moved(dims, 0, r) == 0 <==> forall k :: 0 <= k < |dims| ==> r[k] % dims[k] == 0
  {
    VolumePositive(dims);
    if forall k :: 0 <= k < |dims| ==> r[k] % dims[k] == 0 {
      MovedNowhere(dims, 0, r);
    }
    if Moved(dims, 0, r) == 0 {
      CoordsOfLinear(dims, Shifted(dims, Coords(dims, 0), r));
      forall k | 0 <= k < |dims| ensures r[k] % dims[k] == 0 {
        CoordsOfZero(dims, k);
        assert Shifted(dims, Coords(dims, 0), r)[k] == Coords(dims, 0)[k];
      }
    }
  }

  lemma {:induction false} CoordsOfZero(dims: seq<nat>, k: nat)
    requires Positive(dims) && k < |dims|
    ensures Coords(dims, 0)[k] == 0
  {
    W.DivModOf(0, 0, dims[0]);
    if k > 0 { CoordsOfZero(dims[1..], k - 1); }
  }
}
