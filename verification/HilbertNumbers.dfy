/** Index and point as numbers: packing digits into a word, reading coordinates off cells, and
    the theorems about the curve stated for whole indices and points.
 */
module HilbertNumbers {
  import opened Words
  import opened HilbertCurve
  import opened HilbertPath

  /** Digits of n bits packed into one word, most significant first. */
  function Value(n: nat, ds: seq<Word>): (w: Word)
    decreases |ds|
  {
    if ds == [] then 0 else Value(n, ds[..|ds| - 1]) * Pow2(n) + ds[|ds| - 1]
  }

  /** The len digits of n bits of i, most significant first. */
  function Split(n: nat, len: nat, i: Word): (ds: seq<Word>)
    requires n >= 1
    ensures |ds| == len
  {
    if len == 0 then [] else Split(n, len - 1, Shr(i, n)) + [And(i, Ones(n))]
  }

  /** Coordinate d of a point given by its cells: the d-th bits, most significant first. */
  function Coordinate(cs: seq<Word>, d: nat): (x: Word)
    decreases |cs|
  {
    if cs == [] then 0 else 2 * Coordinate(cs[..|cs| - 1], d) + B2N(Bit(cs[|cs| - 1], d))
  }

  /** The k-th bits of all coordinates, coordinate 0 in the lowest bit. */
  function Row(p: seq<Word>, k: nat): (c: Word)
  {
    if p == [] then 0 else 2 * Row(p[1..], k) + B2N(Bit(p[0], k))
  }

  function Point(n: nat, cs: seq<Word>): (p: seq<Word>)
    ensures |p| == n
  {
    seq(n, d requires 0 <= d < n => Coordinate(cs, d))
  }

  function CellsOfPoint(nBits: nat, p: seq<Word>): (cs: seq<Word>)
    ensures |cs| == nBits
  {
    seq(nBits, b requires 0 <= b < nBits => Row(p, nBits - 1 - b))
  }

  ghost function HilbertPoint(nDims: nat, nBits: nat, i: Word): (p: seq<Word>)
    requires nDims >= 1
  {
    Point(nDims, Cells(nDims, START, Split(nDims, nBits, i)))
  }

  ghost function HilbertIndex(nDims: nat, nBits: nat, p: seq<Word>): (i: Word)
    requires nDims >= 1
  {
    Value(nDims, DigitsOfCells(nDims, START, CellsOfPoint(nBits, p)))
  }

  ghost predicate InRange(nDims: nat, nBits: nat, p: seq<Word>) {
    |p| == nDims && AllBelow(nBits, p)
  }

  // ---------- Packing ----------

  lemma {:induction false} ValueBelow(n: nat, ds: seq<Word>)
    requires AllBelow(n, ds)
    ensures Value(n, ds) < Points(n, |ds|)
    decreases |ds|
  {
    hide Points, Pow2;
    if ds == [] {
      PointsNone(n);
    } else {
      var front := ds[..|ds| - 1];
      ValueBelow(n, front);
      PointsSnoc(n, |front|);
      JoinBelow(Value(n, front), ds[|ds| - 1], Pow2(n), Points(n, |front|));
    }
  }

  lemma {:induction false} SplitValue(n: nat, ds: seq<Word>)
    requires n >= 1 && AllBelow(n, ds)
    ensures Split(n, |ds|, Value(n, ds)) == ds
    decreases |ds|
  {
    hide Points, Pow2, Shr, And;
    if ds != [] {
      var front := ds[..|ds| - 1];
      SplitValue(n, front);
      SplitWord(Value(n, front), ds[|ds| - 1], n);
    }
  }

  lemma {:induction false} ValueSplit(n: nat, len: nat, i: Word)
    requires n >= 1 && i < Points(n, len)
    ensures AllBelow(n, Split(n, len, i))
    ensures Value(n, Split(n, len, i)) == i
  {
    hide Points, Pow2, Shr, And;
    if len == 0 {
      PointsNone(n);
    } else {
      JoinWord(i, n);
      PointsSnoc(n, len - 1);
      JoinBelow(Shr(i, n), And(i, Ones(n)), Pow2(n), Points(n, len - 1));
      ValueSplit(n, len - 1, Shr(i, n));
      var ds := Split(n, len, i);
      assert ds[..len - 1] == Split(n, len - 1, Shr(i, n));
    }
  }

  lemma PowerZero()
    ensures Pow2(0) == 1
  {
  }

  /** The successor digit list is the successor number; only the last index has none. */
  lemma {:induction false} ValueSucc(n: nat, ds: seq<Word>)
    requires ds != [] && AllBelow(n, ds)
    ensures Value(n, ds) + 1 < Points(n, |ds|) <==> !AllEqual(ds, Max(n))
    ensures !AllEqual(ds, Max(n)) ==> Value(n, Succ(n, ds)) == Value(n, ds) + 1
    decreases |ds|
  {
    hide Points, Pow2, Value;
    var d, rest := ds[0], ds[1..];
    var low := Points(n, |rest|);
    assert ds == [d] + rest;
    ValueCons(n, d, rest);
    ValueBelow(n, rest);
    PointsSnoc(n, |rest|);
    if AllEqual(rest, Max(n)) {
      ValueMax(n, rest);
      assert AllEqual(ds, Max(n)) <==> d == Max(n);
      JoinBelow(d + 1, 0, low, Pow2(n));
      assert (d + 1) * low == d * low + low;
      if d != Max(n) {
        var zeros := seq(|ds| - 1, _ => 0);
        ValueCons(n, d + 1, zeros);
        ValueZeros(n, zeros);
      }
    } else {
      ValueSucc(n, rest);
      ValueCons(n, d, Succ(n, rest));
      JoinBelow(d, Value(n, rest) + 1, low, Pow2(n));
    }
  }

  lemma {:induction false} ValueCons(n: nat, d: Word, rest: seq<Word>)
    ensures Value(n, [d] + rest) == d * Points(n, |rest|) + Value(n, rest)
    decreases |rest|
  {
    hide Points, Pow2;
    var ds := [d] + rest;
    if rest == [] {
      PointsNone(n);
      assert ds[..0] == [] && ds[0] == d;
      assert Value(n, ds[..0]) == 0;
    } else {
      var front, last := rest[..|rest| - 1], rest[|rest| - 1];
      ValueCons(n, d, front);
      assert ds[..|ds| - 1] == [d] + front && ds[|ds| - 1] == last;
      PointsSnoc(n, |front|);
      Distribute(d, Points(n, |front|), Value(n, front), Pow2(n));
    }
  }

  lemma Distribute(d: nat, q: nat, v: nat, p: nat)
    ensures (d * q + v) * p == d * (q * p) + v * p
  {
    assert (d * q) * p == d * (q * p);
  }

  lemma {:induction false} ValueMax(n: nat, ds: seq<Word>)
    requires AllEqual(ds, Max(n))
    ensures Value(n, ds) == Points(n, |ds|) - 1
    decreases |ds|
  {
    hide Points, Pow2;
    if ds == [] {
      PointsNone(n);
    } else {
      var front := ds[..|ds| - 1];
      ValueMax(n, front);
      PointsSnoc(n, |front|);
    }
  }

  lemma {:induction false} ValueZeros(n: nat, ds: seq<Word>)
    requires AllEqual(ds, 0)
    ensures Value(n, ds) == 0
    decreases |ds|
  {
    if ds != [] { ValueZeros(n, ds[..|ds| - 1]); }
  }

  /** Numbers compare as their digit lists compare lexicographically. */
  lemma {:induction false} ValueOrder(n: nat, xs: seq<Word>, ys: seq<Word>, j: nat)
    requires |xs| == |ys| && j < |xs| && AllBelow(n, xs) && AllBelow(n, ys)
    requires xs[..j] == ys[..j] && xs[j] < ys[j]
    ensures Value(n, xs) < Value(n, ys)
    decreases j
  {
    hide Points, Pow2, Value;
    var xs', ys' := xs[1..], ys[1..];
    assert xs == [xs[0]] + xs' && ys == [ys[0]] + ys';
    ValueCons(n, xs[0], xs');
    ValueCons(n, ys[0], ys');
    if j == 0 {
      ValueBelow(n, xs');
      JoinBelow(xs[0], Value(n, xs'), Points(n, |xs'|), ys[0]);
    } else {
      PrefixTail(xs, ys, j);
      ValueOrder(n, xs', ys', j - 1);
    }
  }

  lemma PrefixTail(xs: seq<Word>, ys: seq<Word>, j: nat)
    requires 1 <= j <= |xs| && j <= |ys| && xs[..j] == ys[..j]
    ensures xs[0] == ys[0] && xs[1..][..j - 1] == ys[1..][..j - 1]
  {
    assert xs[0] == xs[..j][0] && ys[0] == ys[..j][0];
    assert xs[1..][..j - 1] == xs[..j][1..] && ys[1..][..j - 1] == ys[..j][1..];
  }

  // ---------- Coordinates ----------

  /** Bit k of coordinate d is bit d of the k-th cell from the end. */
  lemma {:induction false} CoordinateBits(cs: seq<Word>, d: nat)
    ensures Coordinate(cs, d) < Pow2(|cs|)
    ensures forall k: nat {:trigger Bit(Coordinate(cs, d), k)} ::
              k < |cs| ==> Bit(Coordinate(cs, d), k) == Bit(cs[|cs| - 1 - k], d)
    decreases |cs|
  {
    if cs != [] {
      var front := cs[..|cs| - 1];
      CoordinateBits(front, d);
      DoubleBits(Coordinate(front, d), B2N(Bit(cs[|cs| - 1], d)), Coordinate(cs, d));
    }
  }

  lemma {:induction false} RowBits(p: seq<Word>, k: nat)
    ensures Row(p, k) < Pow2(|p|)
    ensures forall d: nat {:trigger Bit(Row(p, k), d)} :: d < |p| ==> Bit(Row(p, k), d) == Bit(p[d], k)
  {
    if p != [] {
      RowBits(p[1..], k);
      DoubleBits(Row(p[1..], k), B2N(Bit(p[0], k)), Row(p, k));
    }
  }

  lemma CellsOfPointOfCells(n: nat, cs: seq<Word>)
    requires AllBelow(n, cs)
    ensures InRange(n, |cs|, Point(n, cs))
    ensures CellsOfPoint(|cs|, Point(n, cs)) == cs
  {
    var p := Point(n, cs);
    forall d | 0 <= d < n ensures p[d] < Pow2(|cs|) { CoordinateBits(cs, d); }
    forall b | 0 <= b < |cs| ensures Row(p, |cs| - 1 - b) == cs[b] {
      var k := |cs| - 1 - b;
      RowBits(p, k);
      forall d: nat | d < n ensures Bit(Row(p, k), d) == Bit(cs[b], d) { CoordinateBits(cs, d); }
      BitsEqualBelow(Row(p, k), cs[b], n);
    }
  }

  lemma PointOfCellsOfPoint(n: nat, nBits: nat, p: seq<Word>)
    requires InRange(n, nBits, p)
    ensures AllBelow(n, CellsOfPoint(nBits, p))
    ensures Point(n, CellsOfPoint(nBits, p)) == p
  {
    var cs := CellsOfPoint(nBits, p);
    forall b | 0 <= b < nBits ensures cs[b] < Pow2(n) { RowBits(p, nBits - 1 - b); }
    forall d | 0 <= d < n ensures Coordinate(cs, d) == p[d] {
      CoordinateBits(cs, d);
      forall k: nat | k < nBits ensures Bit(Coordinate(cs, d), k) == Bit(p[d], k) { RowBits(p, k); }
      BitsEqualBelow(Coordinate(cs, d), p[d], nBits);
    }
  }

  // ---------- Round trips ----------

  /** Every index of nDims*nBits bits comes back from its point. */
  lemma IndexOfPoint(nDims: nat, nBits: nat, i: Word)
    requires nDims >= 1 && i < Points(nDims, nBits)
    ensures InRange(nDims, nBits, HilbertPoint(nDims, nBits, i))
    ensures HilbertIndex(nDims, nBits, HilbertPoint(nDims, nBits, i)) == i
  {
    hide Cells, DigitsOfCells, Split, Value, Row, Coordinate;
    var ds := Split(nDims, nBits, i);
    ValueSplit(nDims, nBits, i);
    DigitsOfCellsOfDigits(nDims, START, ds);
    CellsOfPointOfCells(nDims, Cells(nDims, START, ds));
  }

  /** Every point with nBits-bit coordinates comes back from its index. */
  lemma PointOfIndex(nDims: nat, nBits: nat, p: seq<Word>)
    requires nDims >= 1 && InRange(nDims, nBits, p)
    ensures HilbertIndex(nDims, nBits, p) < Points(nDims, nBits)
    ensures HilbertPoint(nDims, nBits, HilbertIndex(nDims, nBits, p)) == p
  {
    hide Cells, DigitsOfCells, Split, Value, Row, Coordinate;
    var cs := CellsOfPoint(nBits, p);
    PointOfCellsOfPoint(nDims, nBits, p);
    CellsOfDigitsOfCells(nDims, START, cs);
    var ds := DigitsOfCells(nDims, START, cs);
    ValueBelow(nDims, ds);
    SplitValue(nDims, ds);
  }

  // ---------- Neighbours on the curve ----------

  /** The points differ in coordinate dim only, there by exactly one. */
  ghost predicate Neighbours(p: seq<Word>, q: seq<Word>, dim: nat) {
    && |p| == |q| && dim < |p|
    && (q[dim] == p[dim] + 1 || p[dim] == q[dim] + 1)
    && forall d :: 0 <= d < |p| && d != dim ==> q[d] == p[d]
  }

  /** Inverting the bits from a carrying one downwards moves a coordinate by one. */
  lemma {:induction false} FlipTail(cs: seq<Word>, cs': seq<Word>, j: nat, dim: nat)
    requires Steps(cs, cs', j, dim)
    ensures Coordinate(cs', dim) == Xor(Coordinate(cs, dim), Ones(|cs| - j))
    ensures Coordinate(cs', dim) == if Bit(cs[j], dim) then Coordinate(cs, dim) - 1 else Coordinate(cs, dim) + 1
    decreases |cs|
  {
    hide Xor, Bit;
    var front, front' := cs[..|cs| - 1], cs'[..|cs| - 1];
    var last, last' := cs[|cs| - 1], cs'[|cs| - 1];
    Pow2Bits(dim);
    if j == |cs| - 1 {
      assert front == front';
      var x := Coordinate(front, dim);
      XorZero(x);
      XorDoubleAdd(x, B2N(Bit(last, dim)), 0, 1);
    } else {
      FlipTail(front, front', j, dim);
      XorDoubleAdd(Coordinate(front, dim), B2N(Bit(last, dim)), Ones(|cs| - 1 - j), 1);
    }
  }

  lemma XorDoubleAdd(a: Word, c: nat, b: Word, e: nat)
    requires c <= 1 && e <= 1
    ensures Xor(2 * a + c, 2 * b + e) == 2 * Xor(a, b) + (if c != e then 1 else 0)
  {
    hide Xor;
    var x, y, z := 2 * a + c, 2 * b + e, 2 * Xor(a, b) + (if c != e then 1 else 0);
    DoubleBits(a, c, x);
    DoubleBits(b, e, y);
    DoubleBits(Xor(a, b), if c != e then 1 else 0, z);
    BitsEqual(Xor(x, y), z);
  }

  lemma SameElsewhere(cs: seq<Word>, cs': seq<Word>, j: nat, dim: nat, d: nat)
    requires Steps(cs, cs', j, dim) && d != dim
    ensures Coordinate(cs', d) == Coordinate(cs, d)
  {
    CoordinateBits(cs, d);
    CoordinateBits(cs', d);
    Pow2Bits(dim);
    BitsEqualBelow(Coordinate(cs', d), Coordinate(cs, d), |cs|);
  }

  /** A step of the cells inverts the low bits of one coordinate, which is a move by one. */
  lemma StepMoves(n: nat, cs: seq<Word>, cs': seq<Word>, j: nat, dim: nat)
    requires Steps(cs, cs', j, dim) && dim < n
    ensures Point(n, cs') == Point(n, cs)[dim := Xor(Coordinate(cs, dim), Ones(|cs| - j))]
    ensures Neighbours(Point(n, cs), Point(n, cs'), dim)
  {
    FlipTail(cs, cs', j, dim);
    forall d | 0 <= d < n && d != dim ensures Coordinate(cs', d) == Coordinate(cs, d) {
      SameElsewhere(cs, cs', j, dim, d);
    }
  }

  /** What hilbert_incr does to a point whose digits are ds. */
  lemma NextPoint(nDims: nat, nBits: nat, p: seq<Word>, ds: seq<Word>)
    requires nDims >= 1 && nBits >= 1 && InRange(nDims, nBits, p)
    requires ds == DigitsOfCells(nDims, START, CellsOfPoint(nBits, p)) && !AllEqual(ds, Max(nDims))
    ensures StepDim(nDims, START, ds) < nDims
    ensures var dim := StepDim(nDims, START, ds);
            var q := p[dim := Xor(p[dim], Ones(nBits - CarryAt(nDims, ds)))];
            && Neighbours(p, q, dim) && InRange(nDims, nBits, q)
            && HilbertIndex(nDims, nBits, q) == HilbertIndex(nDims, nBits, p) + 1
  {
    hide Cells, DigitsOfCells, Value, Row, Coordinate, Xor, Succ, CarryAt, StepDim;
    var cs := CellsOfPoint(nBits, p);
    PointOfCellsOfPoint(nDims, nBits, p);
    CellsOfDigitsOfCells(nDims, START, cs);
    CurveStep(nDims, START, ds);
    var ds' := Succ(nDims, ds);
    var cs' := Cells(nDims, START, ds');
    var dim := StepDim(nDims, START, ds);
    StepMoves(nDims, cs, cs', CarryAt(nDims, ds), dim);
    assert p[dim] == Coordinate(cs, dim);
    DigitsOfCellsOfDigits(nDims, START, ds');
    CellsOfPointOfCells(nDims, cs');
    ValueSucc(nDims, ds);
  }

  /** Adjacency: consecutive indices are neighbouring points. */
  lemma ConsecutivePointsAreNeighbours(nDims: nat, nBits: nat, i: Word) returns (dim: nat)
    requires nDims >= 1 && nBits >= 1 && i + 1 < Points(nDims, nBits)
    ensures Neighbours(HilbertPoint(nDims, nBits, i), HilbertPoint(nDims, nBits, i + 1), dim)
  {
    hide Cells, DigitsOfCells, Value, Row, Coordinate, Xor, Succ, CarryAt, StepDim, Split, CellsOfPoint, Point;
    var p := HilbertPoint(nDims, nBits, i);
    IndexOfPoint(nDims, nBits, i);
    PointOfCellsOfPoint(nDims, nBits, p);
    CellsOfDigitsOfCells(nDims, START, CellsOfPoint(nBits, p));
    var ds := DigitsOfCells(nDims, START, CellsOfPoint(nBits, p));
    ValueSucc(nDims, ds);
    NextPoint(nDims, nBits, p, ds);
    dim := StepDim(nDims, START, ds);
    var q := p[dim := Xor(p[dim], Ones(nBits - CarryAt(nDims, ds)))];
    PointOfIndex(nDims, nBits, q);
    assert q == HilbertPoint(nDims, nBits, i + 1);
  }
}
