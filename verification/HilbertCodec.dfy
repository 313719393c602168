/** hilbert_i2c and hilbert_c2i, step by step, proved against the curve on digit lists. */
module HilbertCodec {
  import opened Words
  import opened HilbertCurve
  import opened HilbertPath
  import opened HilbertNumbers
  import opened HilbertWords
  import T = BitTranspose

  /** Digits and cells of one point of the curve. */
  ghost predicate OnCurve(n: nat, ds: seq<Word>, cs: seq<Word>) {
    n >= 1 && AllBelow(n, ds) && cs == Cells(n, START, ds)
  }

  /** The digits of a point. */
  ghost function DigitsOf(n: nat, nBits: nat, p: seq<Word>): (ds: seq<Word>)
    requires n >= 1
  {
    DigitsOfCells(n, START, CellsOfPoint(nBits, p))
  }

  /** The cells of an index. */
  ghost function CellsOf(n: nat, nBits: nat, index: Word): (cs: seq<Word>)
    requires n >= 1
  {
    Cells(n, START, Split(n, nBits, index))
  }

  ghost function PrevCell(cs: seq<Word>, t: nat): (c: Word)
    requires t <= |cs|
  {
    if t == 0 then 0 else cs[t - 1]
  }

  ghost function RotAt(n: nat, ds: seq<Word>, t: nat): (r: nat)
    requires n >= 1 && t <= |ds|
    ensures r < n
  {
    FrameAt(n, START, ds, t).rot
  }

  /** `flipBit` before digit t. */
  ghost function FlipBitAt(n: nat, ds: seq<Word>, t: nat): (f: Word)
    requires n >= 1 && t <= |ds|
  {
    if t == 0 then 0 else Pow2(RotAt(n, ds, t - 1))
  }

  /** Everything one pass of the main loops needs to know about digit t. */
  lemma AtDigit(n: nat, ds: seq<Word>, cs: seq<Word>, t: nat)
    requires OnCurve(n, ds, cs) && t < |ds|
    ensures |cs| == |ds| && AllBelow(n, cs) && PrevCell(cs, t) < Pow2(n)
    ensures var g := GrayDigits(n, ds)[t];
            && g < Pow2(n)
            && g == CellBits(n, FrameAt(n, START, ds, t), ds[t])
            && Xor(RotateLeft(g, RotAt(n, ds, t), n), FlipBitAt(n, ds, t)) == Xor(cs[t], PrevCell(cs, t))
            && RotateRight(Xor(FlipBitAt(n, ds, t), Xor(cs[t], PrevCell(cs, t))), RotAt(n, ds, t), n) == g
            && RotAt(n, ds, t + 1) == NextRot(n, RotAt(n, ds, t), g)
    ensures FlipBitAt(n, ds, t + 1) == Pow2(RotAt(n, ds, t))
    ensures FrameAt(n, START, ds, t).flip == Xor(FlipBitAt(n, ds, t), PrevCell(cs, t))
    ensures FrameAt(n, START, ds, t + 1) == Enter(n, FrameAt(n, START, ds, t), ds[t], cs[t])
  {
    hide Cells, Cell, FrameAt, Xor, RotateLeft, RotateRight, NextRot, Pow2, Gray, TopFlip;
    DigitsOfCellsOfDigits(n, START, ds);
    GrayDigitsBelow(n, ds);
    FrameAtStep(n, START, ds, t);
    var fr := FrameAt(n, START, ds, t);
    var g := GrayDigits(n, ds)[t];
    CellFacts(n, fr, ds[t]);
    DigitFacts(n, fr, cs[t]);
    var flipBit, prev := FlipBitAt(n, ds, t), PrevCell(cs, t);
    if t == 0 {
      assert fr == START by { assert FrameAt(n, START, ds, 0) == START by { FrameAtZero(n, ds); } }
      XorZero(0);
    } else {
      FrameAtStep(n, START, ds, t - 1);
      XorComm(prev, flipBit);
    }
    assert fr.flip == Xor(flipBit, prev);
    CellFromFlip(RotateLeft(g, fr.rot, n), flipBit, prev, cs[t]) by { CellByGray(n, fr, ds[t], g); }
  }

  lemma FrameAtZero(n: nat, ds: seq<Word>)
    requires n >= 1
    ensures FrameAt(n, START, ds, 0) == START
  {
  }

  lemma CellByGray(n: nat, fr: Frame, d: Word, g: Word)
    requires fr.rot < n && g == CellBits(n, fr, d)
    ensures Cell(n, fr, d) == Xor(RotateLeft(g, fr.rot, n), fr.flip)
  {
  }

  lemma CellFromFlip(turned: Word, flipBit: Word, prev: Word, c: Word)
    requires c == Xor(turned, Xor(flipBit, prev))
    ensures Xor(turned, flipBit) == Xor(c, prev)
    ensures Xor(flipBit, Xor(c, prev)) == Xor(Xor(flipBit, prev), c)
  {
    hide Xor;
    var flip := Xor(flipBit, prev);
    XorCancel(flipBit, prev);
    XorAssoc(turned, flip, prev);
    XorAssoc(flipBit, prev, c);
    XorComm(prev, c);
  }

  /** The word `coords` after t digits: the cells so far, each xored with the one before. */
  ghost function Differences(n: nat, cs: seq<Word>, t: nat): (w: Word)
    requires t <= |cs|
  {
    var u := Value(n, cs[..t]);
    Xor(u, Shr(u, n))
  }

  lemma SnocDifference(n: nat, cs: seq<Word>, t: nat)
    requires n >= 1 && AllBelow(n, cs) && t < |cs|
    ensures Xor(cs[t], PrevCell(cs, t)) < Pow2(n)
    ensures Or(Shl(Differences(n, cs, t), n), Xor(cs[t], PrevCell(cs, t))) == Differences(n, cs, t + 1)
  {
    hide Xor, Shr, Shl, Or, Pow2;
    var u, u' := Value(n, cs[..t]), Value(n, cs[..t + 1]);
    var c, prev := cs[t], PrevCell(cs, t);
    assert cs[..t + 1][..t] == cs[..t];
    assert Pow2(n) > 0;
    SplitWord(u, c, n);
    if t == 0 {
      ZeroBits();
      BitsEqual(Shr(0, n), 0);
    } else {
      assert cs[..t][..t - 1] == cs[..t - 1];
      SplitWord(Value(n, cs[..t - 1]), prev, n);
    }
    XorJoin(u, c, Shr(u, n), prev, n);
    AppendBits(Xor(u, Shr(u, n)), Xor(c, prev), n, Xor(u, Shr(u, n)) * Pow2(n) + Xor(c, prev));
  }

  lemma NoDifferences(n: nat, cs: seq<Word>)
    ensures Differences(n, cs, 0) == 0
  {
    hide Xor, Shr;
    ZeroBits();
    BitsEqual(Shr(0, n), 0);
    XorZero(0);
  }

  lemma ShlOne(r: nat)
    ensures Shl(1, r) == Pow2(r)
  {
    ShlPow2(1, r);
  }

  /** The bits of a packed list of cells. */
  lemma BitOfValue(n: nat, cs: seq<Word>, k: nat, d: nat)
    requires n >= 1 && AllBelow(n, cs) && k < |cs| && d < n
    ensures Bit(Value(n, cs), k * n + d) == Bit(cs[|cs| - 1 - k], d)
  {
    hide Bit, Value, And, Shr, Ones;
    DigitAt(n, cs, k);
    var w := And(Shr(Value(n, cs), Times(n, k)), Ones(n));
    assert Bit(w, d) == Bit(Value(n, cs), d + Times(n, k));
    TimesIs(n, k);
  }

  /** The word out holds the coordinates of the cells cs, nBits bits each. */
  ghost predicate HoldsPoint(n: nat, cs: seq<Word>, out: Word) {
    forall d: nat, k: nat {:trigger T.At(out, d, k, |cs|)} :: d < n && k < |cs| ==>
      T.At(out, d, k, |cs|) == Bit(cs[|cs| - 1 - k], d)
  }

  lemma TransposedHoldsPoint(n: nat, cs: seq<Word>, out: Word)
    requires n >= 1 && AllBelow(n, cs) && T.IsTranspose(|cs|, n, Value(n, cs), out)
    ensures HoldsPoint(n, cs, out)
  {
    hide Bit, Value;
    forall d: nat, k: nat | d < n && k < |cs| ensures T.At(out, d, k, |cs|) == Bit(cs[|cs| - 1 - k], d) {
      BitOfValue(n, cs, k, d);
      assert T.At(Value(n, cs), k, d, n) == T.At(out, d, k, |cs|);
    }
  }

  lemma CoordinateOut(n: nat, cs: seq<Word>, out: Word, d: nat)
    requires n >= 1 && |cs| >= 1 && HoldsPoint(n, cs, out) && d < n
    ensures And(Shr(out, Times(|cs|, d)), Ones(|cs|)) == Coordinate(cs, d)
  {
    hide Bit, And, Shr, Ones, Coordinate, Pow2;
    var m := |cs|;
    var w := And(Shr(out, Times(m, d)), Ones(m));
    CoordinateBits(cs, d);
    BelowByBits(w, m);
    forall k: nat | k < m ensures Bit(w, k) == Bit(Coordinate(cs, d), k) {
      assert k + Times(m, d) == d * m + k by { TimesIs(m, d); }
      assert T.At(out, d, k, m) == Bit(cs[m - 1 - k], d);
    }
    BitsEqualBelow(w, Coordinate(cs, d), m);
  }

  // ---------- One level, one dimension ----------

  /** With one bit per axis the point is the Gray code of the index. */
  lemma OneLevel(n: nat, d: Word)
    requires n >= 1 && d < Pow2(n)
    ensures Cells(n, START, [d]) == [Gray(d)]
  {
    hide Gray, RotateLeft, Xor, Pow2, Enter;
    GrayBelow(d, n);
    XorZero(Gray(d));
    RotateByZero(Gray(d), n);
    XorZero(RotateLeft(Gray(d), 0, n));
  }

  lemma RotateByZero(w: Word, n: nat)
    requires n >= 1 && w < Pow2(n)
    ensures RotateLeft(w, 0, n) == w
  {
    RotateLeftBelow(w, 0, n);
    forall k: nat | k < n ensures Bit(RotateLeft(w, 0, n), k) == Bit(w, k) { RotateLeftBit(w, 0, n, k); }
    BitsEqualBelow(RotateLeft(w, 0, n), w, n);
  }

  /** With one axis the curve is the identity. */
  lemma {:induction false} OneDimension(fr: Frame, ds: seq<Word>)
    requires fr.rot == 0 && fr.flip == TopFlip(1, fr.prev) && AllBelow(1, ds)
    ensures Cells(1, fr, ds) == ds
    decreases |ds|
  {
    hide Cell, Enter, TopFlip;
    if ds != [] {
      OneDimensionStep(fr, ds[0]);
      OneDimension(Enter(1, fr, ds[0], ds[0]), ds[1..]);
    }
  }

  lemma OneDimensionStep(fr: Frame, d: Word)
    requires fr.rot == 0 && fr.flip == TopFlip(1, fr.prev) && d < Pow2(1)
    ensures Cell(1, fr, d) == d
    ensures Enter(1, fr, d, d).rot == 0 && Enter(1, fr, d, d).flip == TopFlip(1, d) && Enter(1, fr, d, d).prev == d
  {
    hide Xor, RotateLeft, NextRot;
    assert Pow2(1) == 2 && Pow2(0) == 1;
    assert Gray(d) == d by { XorZero(d); ShrOne(d); }
    CellBitsBelow(1, fr, d);
    RotateByZero(CellBits(1, fr, d), 1);
    XorCancel(d, fr.flip);
    XorZero(1);
    XorCancel(0, 1);
  }

  lemma {:induction false} CoordinateIsValue(ds: seq<Word>)
    requires AllBelow(1, ds)
    ensures Coordinate(ds, 0) == Value(1, ds)
    decreases |ds|
  {
    if ds != [] {
      CoordinateIsValue(ds[..|ds| - 1]);
      assert Pow2(1) == 2;
    }
  }

  lemma OneDimensionPoint(nBits: nat, i: Word)
    requires i < Points(1, nBits)
    ensures HilbertPoint(1, nBits, i) == [i]
  {
    hide Cells, Split, Value, Coordinate;
    var ds := Split(1, nBits, i);
    ValueSplit(1, nBits, i);
    OneDimension(START, ds);
    CoordinateIsValue(ds);
  }

  lemma OneDimensionIndex(nBits: nat, p: seq<Word>)
    requires InRange(1, nBits, p)
    ensures HilbertIndex(1, nBits, p) == p[0]
  {
    hide HilbertIndex, HilbertPoint;
    assert p == [p[0]];
    TimesOne(nBits);
    OneDimensionPoint(nBits, p[0]);
    IndexOfPoint(1, nBits, p[0]);
  }

  // ---------- hilbert_i2c ----------

  /** The loop over the digits of a Gray-coded index. */
  method TurnDigits(nDims: nat, nBits: nat, index: Word, ghost ds: seq<Word>, ghost cs: seq<Word>)
      returns (coords: Word)
    requires OnCurve(nDims, ds, cs) && |ds| == nBits && index == Value(nDims, GrayDigits(nDims, ds))
    ensures |cs| == nBits && coords == Differences(nDims, cs, nBits)
  {
    hide *;
    CurveLengths(nDims, ds, cs);
    var b := nDims * nBits;
    TimesIs(nDims, nBits);
    var rotation, flipBit := 0, 0;
    coords := 0;
    ghost var t := 0;
    NoDifferences(nDims, cs);
    StartOfLoop(nDims, ds);
    while b != 0
      invariant t <= nBits && b == Times(nDims, nBits - t)
      invariant rotation == RotAt(nDims, ds, t) && flipBit == FlipBitAt(nDims, ds, t)
      invariant coords == Differences(nDims, cs, t)
      decreases b
    {
      CountDown(nDims, nBits, t);
      AtDigit(nDims, ds, cs, t);
      GrayDigitsBelow(nDims, ds);
      DigitAt(nDims, GrayDigits(nDims, ds), nBits - 1 - t);
      SnocDifference(nDims, cs, t);
      ShlOne(rotation);
      b := b - nDims;
      var bits := And(Shr(index, b), Ones(nDims));
      coords := Shl(coords, nDims);
      coords := Or(coords, Xor(RotateLeft(bits, rotation, nDims), flipBit));
      flipBit := Shl(1, rotation);
      rotation := AdjustRotation(rotation, nDims, bits);
      t := t + 1;
    }
    CountDone(nDims, nBits, t);
  }

  lemma CurveLengths(n: nat, ds: seq<Word>, cs: seq<Word>)
    requires OnCurve(n, ds, cs)
    ensures n >= 1 && |cs| == |ds| && AllBelow(n, cs) && AllBelow(n, ds) && |GrayDigits(n, ds)| == |ds|
  {
    DigitsOfCellsOfDigits(n, START, ds);
  }

  lemma StartOfLoop(n: nat, ds: seq<Word>)
    requires n >= 1
    ensures RotAt(n, ds, 0) == 0 && FlipBitAt(n, ds, 0) == 0
  {
  }

  lemma CountDown(n: nat, nBits: nat, t: nat)
    requires t <= nBits && Times(n, nBits - t) != 0
    ensures t < nBits && Times(n, nBits - t) == Times(n, nBits - 1 - t) + n
  {
    TimesOne(n);
    if t < nBits { TimesAdd(n, nBits - 1 - t, 1); }
  }

  lemma CountDone(n: nat, nBits: nat, t: nat)
    requires n >= 1 && t <= nBits && Times(n, nBits - t) == 0
    ensures t == nBits
  {
  }

  /** The last loop of hilbert_i2c: unpacking the coordinates. */
  method Unpack(nDims: nat, nBits: nat, packed: Word, coord: array<Word>, ghost cs: seq<Word>)
    requires nDims >= 1 && nBits >= 1 && coord.Length == nDims && |cs| == nBits && HoldsPoint(nDims, cs, packed)
    modifies coord
    ensures coord[..] == Point(nDims, cs)
  {
    hide *;
    var nbOnes := Ones(nBits);
    var coords := packed;
    T.ShrNothing(coords, nBits);
    for d := 0 to nDims
      invariant coords == Shr(packed, Times(nBits, d))
      invariant forall e :: 0 <= e < d ==> coord[e] == Coordinate(cs, e)
    {
      CoordinateOut(nDims, cs, packed, d);
      coord[d] := And(coords, nbOnes);
      T.ShrAgain(packed, nBits, d);
      coords := Shr(coords, nBits);
    }
    PointIs(nDims, cs, coord[..]);
  }

  lemma PointIs(n: nat, cs: seq<Word>, p: seq<Word>)
    requires |p| == n && forall e :: 0 <= e < n ==> p[e] == Coordinate(cs, e)
    ensures p == Point(n, cs)
  {
  }

  /** hilbert_i2c writes the point of the index into coord. */
  method HilbertI2C(nDims: nat, nBits: nat, index: Word, coord: array<Word>)
    requires nDims >= 1 && nBits >= 1 && index < Points(nDims, nBits) && coord.Length == nDims
    modifies coord
    ensures coord[..] == HilbertPoint(nDims, nBits, index)
  {
    hide *;
    ghost var ds, cs := Split(nDims, nBits, index), CellsOf(nDims, nBits, index);
    CurveOfIndex(nDims, nBits, index, ds, cs);
    if nDims > 1 {
      var coords;
      if nBits > 1 {
        var nDimsBits := nDims * nBits;
        var ndOnes := Ones(nDims);
        NthBitsIsQuotient(nDims, nBits);
        PointsIs(nDims, nBits);
        var nthbits := Ones(nDimsBits) / ndOnes;
        GrayWord(nDims, ds);
        coords := TurnDigits(nDims, nBits, Xor(index, Shr(Xor(index, nthbits), 1)), ds, cs);
        WholeDifference(nDims, nBits, cs);
        coords := UndoXorShift(nDimsBits, nDims, coords, Value(nDims, cs));
        coords := T.Fast(nBits, nDims, coords);
        TransposedHoldsPoint(nDims, cs, coords);
      } else {
        coords := Xor(index, Shr(index, 1));
        OneLevelHoldsPoint(nDims, index, ds, cs);
      }
      Unpack(nDims, nBits, coords, coord, cs);
    } else {
      coord[0] := index;
      OneDimensionPoint(nBits, index);
      assert coord[..] == [index];
    }
  }

  lemma CurveOfIndex(n: nat, nBits: nat, index: Word, ds: seq<Word>, cs: seq<Word>)
    requires n >= 1 && index < Points(n, nBits)
    requires ds == Split(n, nBits, index) && cs == CellsOf(n, nBits, index)
    ensures OnCurve(n, ds, cs) && |ds| == nBits && |cs| == nBits && AllBelow(n, ds) && AllBelow(n, cs)
    ensures Value(n, ds) == index && HilbertPoint(n, nBits, index) == Point(n, cs)
  {
    hide Cells, Split, Value;
    ValueSplit(n, nBits, index);
    DigitsOfCellsOfDigits(n, START, ds);
  }

  lemma WholeDifference(n: nat, nBits: nat, cs: seq<Word>)
    requires AllBelow(n, cs) && |cs| == nBits
    ensures Differences(n, cs, nBits) == Xor(Value(n, cs), Shr(Value(n, cs), n))
    ensures Value(n, cs) < Points(n, nBits) && Value(n, cs) < Points(nBits, n)
  {
    assert cs[..|cs|] == cs;
    ValueBelow(n, cs);
    PointsSwap(n, nBits);
  }

  lemma OneLevelHoldsPoint(n: nat, index: Word, ds: seq<Word>, cs: seq<Word>)
    requires n >= 1 && OnCurve(n, ds, cs) && |ds| == 1 && Value(n, ds) == index
    ensures HoldsPoint(n, cs, Xor(index, Shr(index, 1)))
  {
    hide Cells, Xor, Shr, Bit, Pow2;
    assert Value(n, ds[..0]) == 0;
    assert ds == [index];
    OneLevel(n, index);
  }

  // ---------- hilbert_c2i ----------

  /** Coordinates packed into one word, coordinate 0 lowest. */
  ghost function Packed(nBits: nat, p: seq<Word>): (w: Word)
  {
    if p == [] then 0 else Packed(nBits, p[1..]) * Pow2(nBits) + p[0]
  }

  lemma {:induction false} PackedBits(nBits: nat, p: seq<Word>, d: nat, k: nat)
    requires AllBelow(nBits, p) && d < |p| && k < nBits
    ensures T.At(Packed(nBits, p), d, k, nBits) == Bit(p[d], k)
  {
    hide Bit, Pow2;
    AppendBits(Packed(nBits, p[1..]), p[0], nBits, Packed(nBits, p));
    if d == 0 {
      assert d * nBits + k == k;
    } else {
      PackedBits(nBits, p[1..], d - 1, k);
      assert d * nBits + k == (d - 1) * nBits + k + nBits;
    }
  }

  lemma {:induction false} PackedBelow(nBits: nat, p: seq<Word>)
    requires AllBelow(nBits, p)
    ensures Packed(nBits, p) < Points(nBits, |p|) && Packed(nBits, p) < Points(|p|, nBits)
  {
    hide Pow2;
    PointsSwap(nBits, |p|);
    if p == [] {
      PointsNone(nBits);
    } else {
      PackedBelow(nBits, p[1..]);
      PointsSnoc(nBits, |p| - 1);
      JoinBelow(Packed(nBits, p[1..]), p[0], Pow2(nBits), Points(nBits, |p| - 1));
    }
  }

  lemma PackOne(nBits: nat, p: seq<Word>, d: nat)
    requires AllBelow(nBits, p) && d < |p|
    ensures Or(Shl(Packed(nBits, p[d + 1..]), nBits), p[d]) == Packed(nBits, p[d..])
  {
    hide Or, Shl, Pow2;
    assert p[d..][1..] == p[d + 1..];
    AppendBits(Packed(nBits, p[d + 1..]), p[d], nBits, Packed(nBits, p[d..]));
  }

  /** The transposed coordinates are the packed cells of the point. */
  lemma TransposedCells(n: nat, nBits: nat, p: seq<Word>, out: Word)
    requires n >= 1 && InRange(n, nBits, p) && T.IsTranspose(n, nBits, Packed(nBits, p), out)
    ensures out == Value(n, CellsOfPoint(nBits, p))
  {
    hide Bit, Value, Row, Packed, Pow2;
    var cs := CellsOfPoint(nBits, p);
    var w := Value(n, cs);
    PointOfCellsOfPoint(n, nBits, p);
    ValueBelow(n, cs);
    forall d: nat, b: nat | d < n && b < nBits ensures T.At(w, b, d, n) == T.At(Packed(nBits, p), d, b, nBits) {
      BitOfValue(n, cs, b, d);
      RowBits(p, b);
      PackedBits(nBits, p, d, b);
    }
    T.TransposeUnique(n, nBits, Packed(nBits, p), out, w);
  }

  /** With one bit per axis the packed coordinates are the only cell. */
  lemma {:induction false} PackedIsRow(p: seq<Word>)
    requires AllBelow(1, p)
    ensures Packed(1, p) == Row(p, 0)
  {
    if p != [] {
      PackedIsRow(p[1..]);
      assert Pow2(1) == 2;
    }
  }

  /** The loop over the cells of a point. */
  method TurnCells(nDims: nat, nBits: nat, coords: Word, ghost ds: seq<Word>, ghost cs: seq<Word>)
      returns (index: Word)
    requires OnCurve(nDims, ds, cs) && |ds| == nBits && |cs| == nBits && coords == Differences(nDims, cs, nBits)
    ensures index == Value(nDims, GrayDigits(nDims, ds))
  {
    hide *;
    CurveLengths(nDims, ds, cs);
    var b := nDims * nBits;
    TimesIs(nDims, nBits);
    var rotation, flipBit := 0, 0;
    index := 0;
    ghost var gs := GrayDigits(nDims, ds);
    ghost var t := 0;
    StartOfLoop(nDims, ds);
    EmptyValue(nDims, gs);
    while b != 0
      invariant t <= nBits && b == Times(nDims, nBits - t)
      invariant rotation == RotAt(nDims, ds, t) && flipBit == FlipBitAt(nDims, ds, t)
      invariant index == Value(nDims, gs[..t])
      decreases b
    {
      CountDown(nDims, nBits, t);
      AtDigit(nDims, ds, cs, t);
      DifferenceDigit(nDims, cs, t);
      SnocValue(nDims, gs, t);
      ShlOne(rotation);
      b := b - nDims;
      var bits := And(Shr(coords, b), Ones(nDims));
      bits := RotateRight(Xor(flipBit, bits), rotation, nDims);
      index := Shl(index, nDims);
      index := Or(index, bits);
      flipBit := Shl(1, rotation);
      rotation := AdjustRotation(rotation, nDims, bits);
      t := t + 1;
    }
    CountDone(nDims, nBits, t);
    assert gs[..nBits] == gs;
  }

  lemma EmptyValue(n: nat, gs: seq<Word>)
    ensures Value(n, gs[..0]) == 0
  {
  }

  lemma SnocValue(n: nat, gs: seq<Word>, t: nat)
    requires t < |gs| && gs[t] < Pow2(n)
    ensures Or(Shl(Value(n, gs[..t]), n), gs[t]) == Value(n, gs[..t + 1])
  {
    hide Or, Shl, Pow2;
    assert gs[..t + 1][..t] == gs[..t];
    AppendBits(Value(n, gs[..t]), gs[t], n, Value(n, gs[..t + 1]));
  }

  /** Reading one digit of the differences. */
  lemma DifferenceDigit(n: nat, cs: seq<Word>, t: nat)
    requires n >= 1 && AllBelow(n, cs) && t < |cs|
    ensures And(Shr(Differences(n, cs, |cs|), Times(n, |cs| - 1 - t)), Ones(n)) == Xor(cs[t], PrevCell(cs, t))
  {
    hide Xor, Shr, And, Ones, Value, Times, Pow2;
    assert cs[..|cs|] == cs;
    DigitAt(n, cs, |cs| - 1 - t);
    PreviousDigit(n, cs, t);
    DigitOfXor(Value(n, cs), Shr(Value(n, cs), n), Times(n, |cs| - 1 - t), n);
  }

  lemma DigitOfXor(a: Word, b: Word, shift: nat, n: nat)
    requires n >= 1
    ensures And(Shr(Xor(a, b), shift), Ones(n)) == Xor(And(Shr(a, shift), Ones(n)), And(Shr(b, shift), Ones(n)))
  {
    hide Xor, Shr, And, Ones;
    BitsEqual(And(Shr(Xor(a, b), shift), Ones(n)), Xor(And(Shr(a, shift), Ones(n)), And(Shr(b, shift), Ones(n))));
  }

  lemma PreviousDigit(n: nat, cs: seq<Word>, t: nat)
    requires n >= 1 && AllBelow(n, cs) && t < |cs|
    ensures And(Shr(Shr(Value(n, cs), n), Times(n, |cs| - 1 - t)), Ones(n)) == PrevCell(cs, t)
  {
    hide Shr, And, Ones, Pow2, Times, Value, Bit;
    var j := |cs| - 1 - t;
    var u := Value(n, cs);
    ShrAdd(u, n, Times(n, j));
    TimesAdd(n, j, 1);
    TimesOne(n);
    if t > 0 {
      DigitAt(n, cs, j + 1);
    } else {
      ValueBelow(n, cs);
      BitsBelow(u, Times(n, |cs|));
      ZeroBits();
      BitsEqual(And(Shr(u, Times(n, |cs|)), Ones(n)), 0);
    }
  }

  /** hilbert_c2i returns the index of the point in coord. */
  method HilbertC2I(nDims: nat, nBits: nat, coord: array<Word>) returns (index: Word)
    requires nDims >= 1 && nBits >= 1 && InRange(nDims, nBits, coord[..])
    ensures index == HilbertIndex(nDims, nBits, coord[..])
  {
    hide *;
    ghost var p := coord[..];
    ghost var cs, ds := CellsOfPoint(nBits, p), DigitsOf(nDims, nBits, p);
    RangeFacts(nDims, nBits, p);
    if nDims > 1 {
      var nDimsBits := nDims * nBits;
      var coords := 0;
      var d := nDims;
      PackedNothing(nBits, p, nDims);
      while d > 0
        invariant d <= nDims && coords == Packed(nBits, p[d..])
      {
        d := d - 1;
        PackOne(nBits, p, d);
        coords := Shl(coords, nBits);
        coords := Or(coords, coord[d]);
      }
      assert p[0..] == p;
      CurveOfPoint(nDims, nBits, p, ds, cs);
      PackedBelow(nBits, p);
      if nBits > 1 {
        var ndOnes := Ones(nDims);
        NthBitsIsQuotient(nDims, nBits);
        var nthbits := Ones(nDimsBits) / ndOnes;
        coords := T.Fast(nDims, nBits, coords);
        TransposedCells(nDims, nBits, p, coords);
        WholeDifference(nDims, nBits, cs);
        coords := Xor(coords, Shr(coords, nDims));
        index := TurnCells(nDims, nBits, coords, ds, cs);
        GrayOfWord(nDims, ds);
        index := Xor(index, Shr(nthbits, 1));
      } else {
        index := coords;
        OneLevelIndex(nDims, p, ds, cs);
      }
      GrayIs(Value(nDims, ds));
      PointsIs(nDims, nBits);
      index := UndoXorShift(nDimsBits, 1, index, Value(nDims, ds));
    } else {
      index := coord[0];
      OneDimensionIndex(nBits, p);
    }
  }

  lemma RangeFacts(n: nat, nBits: nat, p: seq<Word>)
    requires InRange(n, nBits, p)
    ensures |p| == n && AllBelow(nBits, p)
  {
  }

  lemma PackedNothing(nBits: nat, p: seq<Word>, n: nat)
    requires |p| == n
    ensures Packed(nBits, p[n..]) == 0
  {
  }

  lemma CurveOfPoint(n: nat, nBits: nat, p: seq<Word>, ds: seq<Word>, cs: seq<Word>)
    requires n >= 1 && InRange(n, nBits, p)
    requires cs == CellsOfPoint(nBits, p) && ds == DigitsOf(n, nBits, p)
    ensures OnCurve(n, ds, cs) && |ds| == nBits && |cs| == nBits && AllBelow(n, ds) && AllBelow(n, cs)
    ensures Value(n, ds) < Points(n, nBits) && Value(n, ds) == HilbertIndex(n, nBits, p)
    ensures forall t: nat {:trigger cs[t]} :: t < nBits ==> cs[t] == Row(p, nBits - 1 - t)
  {
    hide Cells, DigitsOfCells, Value, Row, Pow2, Point;
    PointOfCellsOfPoint(n, nBits, p);
    CellsOfDigitsOfCells(n, START, cs);
    ValueOfLength(n, nBits, ds);
  }

  lemma ValueOfLength(n: nat, nBits: nat, ds: seq<Word>)
    requires AllBelow(n, ds) && |ds| == nBits
    ensures Value(n, ds) < Points(n, nBits)
  {
    ValueBelow(n, ds);
  }

  lemma OneLevelIndex(n: nat, p: seq<Word>, ds: seq<Word>, cs: seq<Word>)
    requires n >= 1 && InRange(n, 1, p) && OnCurve(n, ds, cs) && |ds| == 1 && cs == CellsOfPoint(1, p)
    ensures Packed(1, p) == Gray(Value(n, ds))
  {
    hide Cells, Gray, Row, Packed, Bit, Pow2;
    PackedIsRow(p);
    assert Value(n, ds[..0]) == 0;
    assert ds == [ds[0]];
    OneLevel(n, ds[0]);
  }

  lemma GrayIs(v: Word)
    ensures Gray(v) == Xor(v, Shr(v, 1))
  {
  }
}
