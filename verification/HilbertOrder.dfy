/** hilbert_incr and hilbert_cmp: the successor of a point and the order of two points,
    computed from the top bits down without building an index.
 */
module HilbertOrder {
  import opened Words
  import opened HilbertCurve
  import opened HilbertPath
  import opened HilbertNumbers
  import opened HilbertWords
  import opened HilbertCodec

  // ---------- Reading one bit of every coordinate ----------

  lemma RowSnoc(p: seq<Word>, k: nat, d: nat)
    requires d < |p|
    ensures Row(p[..d + 1], k) == Or(Row(p[..d], k), Shl(B2N(Bit(p[d], k)), d))
  {
    hide Or, Shl, Row, Bit, Pow2;
    var low := B2N(Bit(p[d], k));
    var w := Or(Row(p[..d], k), Shl(low, d));
    RowBits(p[..d], k);
    RowBits(p[..d + 1], k);
    DoubleBits(0, low, low);
    ZeroBits();
    BitsBelow(Row(p[..d], k), d);
    BitsBelow(Row(p[..d + 1], k), d + 1);
    BitsEqual(Row(p[..d + 1], k), w);
  }

  /** `for (d = 0; d < nDims; ++d) reflection |= rdbit(coord[d], b) << d;` */
  method ReadRow(nDims: nat, coord: array<Word>, b: nat) returns (reflection: Word)
    requires coord.Length == nDims
    ensures reflection == Row(coord[..], b)
  {
    hide *;
    ghost var p := coord[..];
    reflection := 0;
    EmptyRow(p, b);
    for d := 0 to nDims
      invariant reflection == Row(p[..d], b)
    {
      RowSnoc(p, b, d);
      reflection := Or(reflection, Shl(RdBit(coord[d], b), d));
    }
    assert p[..nDims] == p;
  }

  lemma EmptyRow(p: seq<Word>, b: nat)
    ensures Row(p[..0], b) == 0
  {
  }

  // ---------- hilbert_incr ----------

  /** The carry stops at the last digit that is not maximal. */
  lemma {:induction false} CarryIs(n: nat, fr: Frame, ds: seq<Word>, j: nat)
    requires fr.rot < n && j < |ds| && ds[j] != Max(n)
    requires forall i :: j < i < |ds| ==> ds[i] == Max(n)
    ensures CarryAt(n, ds) == j && !AllEqual(ds, Max(n))
    ensures StepDim(n, fr, ds) == Wrap(FrameAt(n, fr, ds, j).rot + Ffs(ds[j] + 1) - 1, n)
    decreases j
  {
    hide Cell, Enter, Ffs, Pow2;
    if j == 0 {
      assert AllEqual(ds[1..], Max(n));
    } else {
      assert ds[1..][j - 1] != Max(n);
      assert !AllEqual(ds[1..], Max(n));
      CarryIs(n, Enter(n, fr, ds[0], Cell(n, fr, ds[0])), ds[1..], j - 1);
    }
  }

  /** `index & -index` rotated: the dimension in which digit d is left. */
  lemma LowBitTurned(n: nat, d: Word, rot: nat)
    requires rot < n && d < Max(n)
    ensures d + 1 < Pow2(n)
    ensures RotateLeft(And(d + 1, Negate(d + 1, n)), rot, n) == Pow2(Wrap(rot + Ffs(d + 1) - 1, n))
    ensures Wrap(rot + Ffs(d + 1) - 1, n) < n
  {
    hide Pow2, And, RotateLeft, Bit;
    var w := d + 1;
    var t := Ffs(w) - 1;
    CarryBit(n, d, t);
    LowestBit(w, n, Negate(w, n));
    NegateBits(w, n, Negate(w, n));
    BitsEqual(And(Negate(w, n), Negate(w, n)), Negate(w, n));
    RotateLeftPow2(t, rot, n);
  }

  /** The index digit comes out of its cell. */
  lemma DigitOfRow(n: nat, ds: seq<Word>, t: nat, prev: Word, g: Word)
    requires n >= 1 && AllBelow(n, ds) && t < |ds| && g == GrayDigits(n, ds)[t]
    requires prev == if t == 0 then 1 else ds[t - 1]
    ensures Xor(TopFlip(n, prev), g) == Xor(ds[t], Shr(ds[t], 1))
  {
    hide Xor, Shr, TopFlip;
    XorComm(TopFlip(n, prev), g);
    XorCancel(Gray(ds[t]), TopFlip(n, prev));
  }

  /** `index &= 1; index <<= nDims-1;` after the increment. */
  lemma NextTopFlip(n: nat, d: Word)
    requires n >= 1
    ensures Shl(And(d + 1, 1), n - 1) == TopFlip(n, d)
  {
    hide And;
    LowBitOnly(d + 1);
    ShlPow2(And(d + 1, 1), n - 1);
  }

  lemma LowBitOnly(w: Word)
    ensures And(w, 1) == w % 2
  {
    assert And(w, 1) == RdBit(w, 0) by { assert Shr(w, 0) == w; }
  }

  /** `for (d = 0; !rdbit(rd, d); ++d) {}` */
  method LowestOne(rd: Word) returns (d: nat)
    requires rd > 0
    ensures d == Ffs(rd) - 1
  {
    hide Bit, Shr, And;
    d := 0;
    while RdBit(rd, d) == 0
      invariant d <= Ffs(rd) - 1
      decreases Ffs(rd) - 1 - d
    {
      d := d + 1;
    }
  }

  lemma FfsPow2(k: nat)
    ensures Ffs(Pow2(k)) == k + 1
  {
    Pow2Bits(k);
    FfsIs(Pow2(k), k);
  }

  /** What the scan over the digits has found: the last digit that is not maximal. */
  ghost predicate Found(n: nat, ds: seq<Word>, t: nat, last: int, rb: nat, rd: Word) {
    && n >= 1 && t <= |ds| && -1 <= last < t
    && (forall i :: last < i < t ==> ds[i] == Max(n))
    && (last == -1 ==> rb == |ds| - 1 && rd == Max(n))
    && (last >= 0 ==>
          && ds[last] < Max(n) && rb == |ds| - 1 - last
          && rd == Pow2(Wrap(RotAt(n, ds, last) + Ffs(ds[last] + 1) - 1, n)))
  }

  lemma FoundNothing(n: nat, ds: seq<Word>)
    requires n >= 1 && |ds| >= 1
    ensures Found(n, ds, 0, -1, |ds| - 1, Max(n)) && Ones(n) == Max(n)
  {
  }

  lemma FoundNext(n: nat, ds: seq<Word>, t: nat, last: int, rb: nat, rd: Word, rb': nat, rd': Word)
    requires Found(n, ds, t, last, rb, rd) && t < |ds| && ds[t] < Pow2(n)
    requires ds[t] == Max(n) ==> rb' == rb && rd' == rd
    requires ds[t] != Max(n) ==>
             rb' == |ds| - 1 - t && rd' == RotateLeft(And(ds[t] + 1, Negate(ds[t] + 1, n)), RotAt(n, ds, t), n)
    ensures Found(n, ds, t + 1, if ds[t] == Max(n) then last else t, rb', rd')
  {
    hide RotAt, RotateLeft, And, Pow2, Ffs;
    if ds[t] != Max(n) { LowBitTurned(n, ds[t], RotAt(n, ds, t)); }
  }

  /** The loop invariant of hilbert_incr after t digits. */
  ghost predicate ScanState(n: nat, ds: seq<Word>, cs: seq<Word>, t: nat, rotation: nat, reflection: Word,
                            index: Word, last: int, rb: nat, rd: Word) {
    && OnCurve(n, ds, cs) && |cs| == |ds| && t <= |ds|
    && rotation == RotAt(n, ds, t) && reflection == FlipAt(n, ds, t)
    && index == TopFlip(n, PrevDigit(ds, t))
    && Found(n, ds, t, last, rb, rd)
  }

  lemma ScanStart(n: nat, ds: seq<Word>, cs: seq<Word>)
    requires OnCurve(n, ds, cs) && |ds| >= 1
    ensures ScanState(n, ds, cs, 0, 0, 0, 0, -1, |ds| - 1, Ones(n))
  {
    CurveLengths(n, ds, cs);
    FoundNothing(n, ds);
    StartOfScan(n, ds);
  }

  /** One pass of the scan, with d the digit it finds. */
  lemma ScanStep(n: nat, ds: seq<Word>, cs: seq<Word>, t: nat, rotation: nat, reflection: Word,
                 index: Word, last: int, rb: nat, rd: Word)
    requires ScanState(n, ds, cs, t, rotation, reflection, index, last, rb, rd) && t < |ds| && t < |cs|
    ensures n >= 1 && rotation < n && ds[t] < Pow2(n) && (ds[t] != Ones(n) ==> ds[t] + 1 < Pow2(n))
    ensures var bits := RotateRight(Xor(reflection, cs[t]), rotation, n);
            && bits < Pow2(n) && Xor(index, bits) == Xor(ds[t], Shr(ds[t], 1))
            && ScanState(n, ds, cs, t + 1, NextRot(n, rotation, bits), Xor(cs[t], Pow2(rotation)),
                         Shl(And(ds[t] + 1, 1), n - 1),
                         if ds[t] == Ones(n) then last else t,
                         if ds[t] == Ones(n) then rb else |ds| - 1 - t,
                         if ds[t] == Ones(n) then rd else
                           RotateLeft(And(ds[t] + 1, Negate(ds[t] + 1, n)), rotation, n))
  {
    hide OnCurve, RotAt, FlipAt, TopFlip, Found, Xor, Pow2, RotateRight, RotateLeft, NextRot, And, Shr, Shl, GrayDigit,
      GrayDigits;
    CurveRange(n, ds, cs);
    ScanDigit(n, ds, cs, t);
    DigitOfRow(n, ds, t, PrevDigit(ds, t), GrayDigits(n, ds)[t]);
    OnesIs(n);
    MaxNext(n, ds[t]);
    FoundNext(n, ds, t, last, rb, rd,
              if ds[t] == Ones(n) then rb else |ds| - 1 - t,
              if ds[t] == Ones(n) then rd else RotateLeft(And(ds[t] + 1, Negate(ds[t] + 1, n)), rotation, n));
    NextTopFlip(n, ds[t]);
  }

  lemma CurveRange(n: nat, ds: seq<Word>, cs: seq<Word>)
    requires OnCurve(n, ds, cs)
    ensures n >= 1 && AllBelow(n, ds)
  {
  }

  /** hilbert_incr: the next point of the curve; the last point has none. */
  method HilbertIncr(nDims: nat, nBits: nat, coord: array<Word>)
    requires nDims >= 1 && nBits >= 1 && InRange(nDims, nBits, coord[..])
    modifies coord
    ensures var i := HilbertIndex(nDims, nBits, old(coord[..]));
            if i + 1 < Points(nDims, nBits) then
              coord[..] == HilbertPoint(nDims, nBits, i + 1)
            else
              coord[..] == old(coord[..])[0 := Xor(old(coord[0]), Ones(nBits))]
  {
    hide *;
    ghost var p := coord[..];
    ghost var cs, ds := CellsOfPoint(nBits, p), DigitsOf(nDims, nBits, p);
    RangeFacts(nDims, nBits, p);
    CurveOfPoint(nDims, nBits, p, ds, cs);
    var ndOnes := Ones(nDims);
    var rotation, reflection, index := 0, 0, 0;
    var rb, rd := nBits - 1, ndOnes;
    ScanStart(nDims, ds, cs);
    var b := nBits;
    ghost var last := -1;
    while b > 0
      invariant b <= nBits && coord[..] == p
      invariant ScanState(nDims, ds, cs, nBits - b, rotation, reflection, index, last, rb, rd)
    {
      b := b - 1;
      ghost var t := nBits - 1 - b;
      ScanStep(nDims, ds, cs, t, rotation, reflection, index, last, rb, rd);
      var bits := reflection;
      reflection := ReadRow(nDims, coord, b);
      bits := Xor(bits, reflection);
      bits := RotateRight(bits, rotation, nDims);
      index := Xor(index, bits);
      index := UndoXorShift(nDims, 1, index, ds[t]);
      index := index + 1;
      if index - 1 != ndOnes {
        rb := b;
        rd := And(index, Negate(index, nDims));
        rd := RotateLeft(rd, rotation, nDims);
        last := t;
      }
      index := And(index, 1);
      index := Shl(index, nDims - 1);
      ShlOne(rotation);
      reflection := Xor(reflection, Shl(1, rotation));
      rotation := AdjustRotation(rotation, nDims, bits);
    }
    FoundIs(nDims, ds, cs, nBits, rotation, reflection, index, last, rb, rd);
    LastStep(nDims, nBits, p, ds, cs, last, rb, rd);
    var d := LowestOne(rd);
    coord[d] := Xor(coord[d], Shl(2, rb) - 1);
    assert coord[..] == p[d := Xor(p[d], Shl(2, rb) - 1)];
  }

  lemma FoundIs(n: nat, ds: seq<Word>, cs: seq<Word>, t: nat, rotation: nat, reflection: Word,
                index: Word, last: int, rb: nat, rd: Word)
    requires ScanState(n, ds, cs, t, rotation, reflection, index, last, rb, rd)
    ensures Found(n, ds, t, last, rb, rd)
  {
  }

  lemma MaxNext(n: nat, d: Word)
    requires n >= 1 && d < Pow2(n)
    ensures d != Ones(n) ==> d + 1 < Pow2(n)
  {
  }

  ghost function FlipAt(n: nat, ds: seq<Word>, t: nat): (f: Word)
    requires n >= 1 && t <= |ds|
  {
    FrameAt(n, START, ds, t).flip
  }

  ghost function PrevDigit(ds: seq<Word>, t: nat): (d: Word)
    requires t <= |ds|
  {
    if t == 0 then 1 else ds[t - 1]
  }

  lemma StartOfScan(n: nat, ds: seq<Word>)
    requires n >= 1
    ensures RotAt(n, ds, 0) == 0 && FlipAt(n, ds, 0) == 0 && TopFlip(n, PrevDigit(ds, 0)) == 0
  {
  }

  lemma OnesIs(n: nat)
    requires n >= 1
    ensures Ones(n) == Max(n)
  {
  }

  /** One digit of the scan: bits, frame and digit. */
  lemma ScanDigit(n: nat, ds: seq<Word>, cs: seq<Word>, t: nat)
    requires OnCurve(n, ds, cs) && t < |ds|
    ensures |cs| == |ds| && t + 1 <= |ds| && |GrayDigits(n, ds)| == |ds|
    ensures var g := GrayDigits(n, ds)[t];
            && g < Pow2(n) && RotateRight(Xor(FlipAt(n, ds, t), cs[t]), RotAt(n, ds, t), n) == g
            && RotAt(n, ds, t + 1) == NextRot(n, RotAt(n, ds, t), g)
    ensures FlipAt(n, ds, t + 1) == Xor(cs[t], Pow2(RotAt(n, ds, t)))
    ensures PrevDigit(ds, t + 1) == ds[t] && ds[t] < Pow2(n)
    ensures PrevDigit(ds, t) == if t == 0 then 1 else ds[t - 1]
  {
    hide Cells, FrameAt, Xor, RotateLeft, RotateRight, NextRot, Pow2;
    AtDigit(n, ds, cs, t);
    XorAssoc(FlipBitAt(n, ds, t), PrevCell(cs, t), cs[t]);
    XorComm(PrevCell(cs, t), cs[t]);
    assert FlipAt(n, ds, t + 1) == Enter(n, FrameAt(n, START, ds, t), ds[t], cs[t]).flip;
  }

  /** The point after the in-place update is the next point of the curve. */
  lemma LastStep(n: nat, nBits: nat, p: seq<Word>, ds: seq<Word>, cs: seq<Word>, last: int, rb: nat, rd: Word)
    requires n >= 1 && nBits >= 1 && InRange(n, nBits, p)
    requires cs == CellsOfPoint(nBits, p) && ds == DigitsOf(n, nBits, p)
    requires Found(n, ds, nBits, last, rb, rd)
    ensures rd > 0 && Ffs(rd) - 1 < n && Shl(2, rb) >= 1
    ensures var d, i := Ffs(rd) - 1, HilbertIndex(n, nBits, p);
            p[d := Xor(p[d], Shl(2, rb) - 1)] ==
            if i + 1 < Points(n, nBits) then HilbertPoint(n, nBits, i + 1) else p[0 := Xor(p[0], Ones(nBits))]
  {
    hide HilbertPoint, HilbertIndex, DigitsOf, CellsOfPoint, Points, Xor, Pow2, Shl, Ffs, Found, InRange, RotAt, Wrap,
      AllEqual, CarryAt, StepDim;
    SizeOfPoint(n, nBits, p);
    ShlPow2(2, rb);
    OnesOf(rb);
    if last == -1 {
      FoundLast(n, nBits, p, ds, cs, rb, rd);
      FfsOfMax(n);
    } else {
      FoundStep(n, nBits, p, ds, cs, last, rb, rd);
      FfsPow2(StepDim(n, START, ds));
      StepToNext(n, nBits, p, ds, StepDim(n, START, ds), rb);
    }
  }

  lemma SizeOfPoint(n: nat, nBits: nat, p: seq<Word>)
    requires InRange(n, nBits, p)
    ensures |p| == n
  {
  }

  /** All digits are maximal. */
  lemma FoundLast(n: nat, nBits: nat, p: seq<Word>, ds: seq<Word>, cs: seq<Word>, rb: nat, rd: Word)
    requires n >= 1 && nBits >= 1 && InRange(n, nBits, p)
    requires cs == CellsOfPoint(nBits, p) && ds == DigitsOf(n, nBits, p)
    requires Found(n, ds, nBits, -1, rb, rd)
    ensures rd == Max(n) && rb + 1 == nBits && HilbertIndex(n, nBits, p) + 1 >= Points(n, nBits)
  {
    hide HilbertIndex, DigitsOf, CellsOfPoint, Value, Points, InRange;
    CurveOfPoint(n, nBits, p, ds, cs);
    ValueSucc(n, ds);
    assert AllEqual(ds, Max(n));
  }

  /** The carry stops at digit last. */
  lemma FoundStep(n: nat, nBits: nat, p: seq<Word>, ds: seq<Word>, cs: seq<Word>, last: int, rb: nat, rd: Word)
    requires n >= 1 && nBits >= 1 && InRange(n, nBits, p)
    requires cs == CellsOfPoint(nBits, p) && ds == DigitsOf(n, nBits, p)
    requires Found(n, ds, nBits, last, rb, rd) && last != -1
    ensures !AllEqual(ds, Max(n)) && StepDim(n, START, ds) < n && rb + 1 == nBits - CarryAt(n, ds)
    ensures rd == Pow2(StepDim(n, START, ds))
  {
    hide HilbertIndex, DigitsOf, CellsOfPoint, Value, Points, InRange, FrameAt, Ffs, Pow2, StepDim, CarryAt;
    CurveOfPoint(n, nBits, p, ds, cs);
    CarryIs(n, START, ds, last);
    StepBelow(n, nBits, p, ds);
  }

  lemma StepBelow(n: nat, nBits: nat, p: seq<Word>, ds: seq<Word>)
    requires n >= 1 && nBits >= 1 && InRange(n, nBits, p) && ds == DigitsOf(n, nBits, p) && !AllEqual(ds, Max(n))
    ensures StepDim(n, START, ds) < n
  {
    hide Neighbours, StepDim, CarryAt, Xor, CellsOfPoint, DigitsOfCells;
    NextPoint(n, nBits, p, ds);
  }

  lemma FfsOfMax(n: nat)
    requires n >= 1
    ensures Ffs(Max(n)) == 1 && Max(n) > 0
  {
    OnesBits(n, Max(n));
    FfsIs(Max(n), 0);
  }

  /** The stepped point is the point of the next index. */
  lemma StepToNext(n: nat, nBits: nat, p: seq<Word>, ds: seq<Word>, dim: nat, rb: nat)
    requires n >= 1 && nBits >= 1 && InRange(n, nBits, p) && ds == DigitsOf(n, nBits, p) && !AllEqual(ds, Max(n))
    requires dim == StepDim(n, START, ds) && rb + 1 == nBits - CarryAt(n, ds)
    ensures dim < |p| && HilbertIndex(n, nBits, p) + 1 < Points(n, nBits)
    ensures p[dim := Xor(p[dim], Ones(rb + 1))] == HilbertPoint(n, nBits, HilbertIndex(n, nBits, p) + 1)
  {
    hide HilbertPoint, HilbertIndex, DigitsOfCells, CellsOfPoint, Neighbours, Points, Xor, StepDim, CarryAt, AllEqual,
      Max;
    NextPoint(n, nBits, p, ds);
    PointOfIndex(n, nBits, p[dim := Xor(p[dim], Ones(rb + 1))]);
  }

  lemma OnesOf(rb: nat)
    ensures Shl(2, rb) - 1 == Ones(rb + 1)
  {
    ShlPow2(2, rb);
  }

  // ---------- hilbert_cmp ----------

  datatype ByteOrder = LittleEndian | BigEndian

  /** Bytes as a number. */
  function BytesValue(order: ByteOrder, bytes: seq<Word>): (w: Word)
    decreases |bytes|
  {
    if bytes == [] then 0
    else if order == LittleEndian then BytesValue(order, bytes[1..]) * Pow2(8) + bytes[0]
    else BytesValue(order, bytes[..|bytes| - 1]) * Pow2(8) + bytes[|bytes| - 1]
  }

  /** The first byte is the lowest one in little endian order, and the highest one in big endian order. */
  lemma {:induction false} FirstByte(order: ByteOrder, first: Word, rest: seq<Word>)
    ensures BytesValue(order, [first] + rest) ==
            if order == LittleEndian then first + 256 * BytesValue(order, rest)
            else first * Pow2(8 * |rest|) + BytesValue(order, rest)
    decreases |rest|
  {
    hide Pow2;
    var all := [first] + rest;
    EightBits();
    if order == LittleEndian {
      assert all[1..] == rest;
    } else if rest == [] {
      assert all[..0] == [] && all[0] == first;
      PowerZero();
      assert BytesValue(order, []) == 0;
    } else {
      var n := |rest| - 1;
      FirstByte(order, first, rest[..n]);
      assert all[..|all| - 1] == [first] + rest[..n] && all[|all| - 1] == rest[n];
      Pow2Add(8 * n, 8);
      assert 8 * |rest| == 8 * n + 8;
      ShiftedSum(first, Pow2(8 * n), BytesValue(order, rest[..n]), Pow2(8));
    }
  }

  lemma ShiftedSum(a: nat, p: nat, b: nat, q: nat)
    ensures (a * p + b) * q == a * (p * q) + b * q
  {
  }

  lemma EightBits()
    ensures Pow2(8) == 256
  {
    assert Pow2(4) == 16;
    Pow2Add(4, 4);
  }

  /** The byte that bit y is in. */
  function WhichByte(order: ByteOrder, nBytes: nat, y: nat): (b: nat)
    requires y < 8 * nBytes
    ensures b < nBytes
  {
    if order == LittleEndian then y / 8 else nBytes - 1 - y / 8
  }

  lemma {:induction false} BytesBits(order: ByteOrder, bytes: seq<Word>, y: nat)
    requires AllBelow(8, bytes) && y < 8 * |bytes|
    ensures Bit(BytesValue(order, bytes), y) == Bit(bytes[WhichByte(order, |bytes|, y)], y % 8)
    decreases |bytes|
  {
    hide Bit, Pow2;
    var little := order == LittleEndian;
    var low := if little then bytes[0] else bytes[|bytes| - 1];
    var rest := if little then bytes[1..] else bytes[..|bytes| - 1];
    AppendBits(BytesValue(order, rest), low, 8, BytesValue(order, bytes));
    if y >= 8 {
      BytesBits(order, rest, y - 8);
      assert (y - 8) / 8 == y / 8 - 1 && (y - 8) % 8 == y % 8;
    }
  }

  /** The coordinates stored in nDims runs of nBytes bytes. */
  ghost function BytesPoint(order: ByteOrder, nDims: nat, nBytes: nat, c: seq<Word>): (p: seq<Word>)
    requires |c| == Times(nBytes, nDims)
    ensures |p| == nDims
  {
    if nDims == 0 then [] else
      TimesAdd(nBytes, nDims - 1, 1);
      TimesOne(nBytes);
      var front := Times(nBytes, nDims - 1);
      BytesPoint(order, nDims - 1, nBytes, c[..front]) + [BytesValue(order, c[front..])]
  }

  lemma {:induction false} BytesPointAt(order: ByteOrder, nDims: nat, nBytes: nat, c: seq<Word>, d: nat)
    requires |c| == Times(nBytes, nDims) && d < nDims
    ensures Times(nBytes, d) + nBytes <= |c|
    ensures BytesPoint(order, nDims, nBytes, c)[d] == BytesValue(order, c[Times(nBytes, d)..Times(nBytes, d) + nBytes])
  {
    hide Times, BytesValue;
    TimesAdd(nBytes, nDims - 1, 1);
    TimesOne(nBytes);
    TimesAdd(nBytes, d, 1);
    TimesMono(nBytes, d + 1, nDims);
    var front := Times(nBytes, nDims - 1);
    if d == nDims - 1 {
      assert c[front..] == c[front..front + nBytes];
    } else {
      BytesPointAt(order, nDims - 1, nBytes, c[..front], d);
      assert c[..front][Times(nBytes, d)..Times(nBytes, d) + nBytes] == c[Times(nBytes, d)..Times(nBytes, d) + nBytes];
    }
  }

  lemma ByteBit(order: ByteOrder, nDims: nat, nBytes: nat, c: seq<Word>, d: nat, y: nat)
    requires |c| == Times(nBytes, nDims) && d < nDims && y < 8 * nBytes && AllBelow(8, c)
    ensures WhichByte(order, nBytes, y) + Times(nBytes, d) < |c|
    ensures Bit(BytesPoint(order, nDims, nBytes, c)[d], y) ==
            Bit(c[WhichByte(order, nBytes, y) + Times(nBytes, d)], y % 8)
  {
    hide Times, BytesValue, BytesPoint, Bit, WhichByte;
    BytesPointAt(order, nDims, nBytes, c, d);
    BytesBits(order, c[Times(nBytes, d)..Times(nBytes, d) + nBytes], y);
  }

  /** getIntBits */
  method GetIntBits(order: ByteOrder, nDims: nat, nBytes: nat, c: seq<Word>, y: nat) returns (bits: Word)
    requires |c| == Times(nBytes, nDims) && y < 8 * nBytes && AllBelow(8, c)
    ensures bits == Row(BytesPoint(order, nDims, nBytes, c), y)
  {
    ghost var p := BytesPoint(order, nDims, nBytes, c);
    hide *;
    var bit := y % 8;
    var offs := WhichByte(order, nBytes, y);
    bits := 0;
    var pos := offs;
    EmptyRow(p, y);
    TimesOne(nBytes);
    for d := 0 to nDims
      invariant pos == offs + Times(nBytes, d)
      invariant bits == Row(p[..d], y)
    {
      ByteBit(order, nDims, nBytes, c, d, y);
      RowSnoc(p, y, d);
      bits := Or(bits, Shl(RdBit(c[pos], bit), d));
      TimesAdd(nBytes, d, 1);
      pos := pos + nBytes;
    }
    assert p[..nDims] == p;
  }

  /** -1, 0 or 1 as a is below, equal to or above b. */
  function Compare(a: nat, b: nat): (r: int)
  {
    if a < b then -1 else if a == b then 0 else 1
  }

  lemma CompareIs(a: nat, b: nat)
    ensures -1 <= Compare(a, b) <= 1 && (Compare(a, b) == -1 <==> a < b) && (Compare(a, b) == 0 <==> a == b)
  {
  }

  /** In hilbert_cmp the digit above the top one counts as even. */
  ghost function PrevEven(ds: seq<Word>, t: nat): (d: Word)
    requires t <= |ds|
  {
    if t == 0 then 0 else ds[t - 1]
  }

  /** `bits` before digit t is read. */
  ghost function CmpFlip(n: nat, ds: seq<Word>, t: nat): (f: Word)
    requires n >= 1 && t <= |ds|
  {
    if t == 0 then Pow2(n - 1) else FlipAt(n, ds, t)
  }

  lemma TurnIgnoresTop(n: nat, w: Word)
    requires n >= 1
    ensures Turn(n, Xor(w, Pow2(n - 1))) == Turn(n, w)
  {
    hide Xor, And, Shr, Pow2;
    Pow2Bits(n - 1);
    var mask := Shr(Ones(n), 1);
    BitsEqual(And(Xor(w, Pow2(n - 1)), mask), And(w, mask));
  }

  /** One digit of hilbert_cmp; only at the top does it differ from the other scans, by the top
      bit of bits. */
  lemma CmpDigit(n: nat, ds: seq<Word>, cs: seq<Word>, t: nat)
    requires OnCurve(n, ds, cs) && t < |ds|
    ensures |cs| == |ds| && ds[t] < Pow2(n) && cs[t] < Pow2(n) && CmpFlip(n, ds, t) < Pow2(n)
    ensures var g := GrayDigit(n, PrevEven(ds, t), ds[t]);
            && g < Pow2(n)
            && RotateRight(Xor(CmpFlip(n, ds, t), cs[t]), RotAt(n, ds, t), n) == g
            && RotAt(n, ds, t + 1) == NextRot(n, RotAt(n, ds, t), g)
    ensures CmpFlip(n, ds, t + 1) == Xor(cs[t], Pow2(RotAt(n, ds, t)))
    ensures PrevEven(ds, t + 1) == ds[t]
  {
    hide Cells, FrameAt, Xor, RotateRight, Pow2, Gray, Turn;
    ScanDigit(n, ds, cs, t);
    CurveLengths(n, ds, cs);
    CellBitsBelow(n, Frame(0, 0, PrevEven(ds, t)), ds[t]);
    if t == 0 {
      StartOfScan(n, ds);
      var top := Pow2(n - 1);
      Pow2Below(n - 1, n);
      XorZero(cs[0]);
      XorZero(Gray(ds[0]));
      RotateRightXor(top, cs[0], 0, n);
      RotateRightZero(top, n);
      XorComm(top, Gray(ds[0]));
      TurnIgnoresTop(n, Gray(ds[0]));
    } else {
      FrameAtStep(n, START, ds, t);
    }
  }

  lemma RotateRightZero(w: Word, n: nat)
    requires n >= 1 && w < Pow2(n)
    ensures RotateRight(w, 0, n) == w
  {
    RotateRightBelow(w, 0, n);
    forall k: nat | k < n ensures Bit(RotateRight(w, 0, n), k) == Bit(w, k) { RotateRightBit(w, 0, n, k); }
    BitsEqualBelow(RotateRight(w, 0, n), w, n);
  }

  /** Undoing the Gray code of a digit: the digit itself, or its complement below an even one. */
  lemma UngrayDigit(n: nat, prev: Word, d: Word)
    requires n >= 1 && d < Pow2(n)
    ensures Ungray(GrayDigit(n, prev, d)) == if prev % 2 == 0 then Max(n) - d else d
  {
    hide Gray, Ungray, Xor;
    UngrayXor(Gray(d), TopFlip(n, prev));
    UngrayGray(d);
    if prev % 2 == 0 {
      GrayMax(n);
      UngrayGray(Max(n));
      XorMax(n, d);
    } else {
      ZeroUngray();
      XorZero(d);
    }
  }

  lemma ZeroUngray()
    ensures Ungray(0) == 0
  {
  }

  lemma XorMax(n: nat, d: Word)
    requires d < Pow2(n)
    ensures Xor(d, Max(n)) == Max(n) - d
  {
    hide Xor, Pow2;
    XorBelow(d, Max(n), n);
    ComplementBits(d, n, Max(n) - d);
    OnesBits(n, Max(n));
    BitsEqualBelow(Xor(d, Max(n)), Max(n) - d, n);
  }

  /** The parity kept in `index`: after t digits it tells the parity of the last one. */
  ghost predicate ParityKept(nBits: nat, y: nat, index: Word, prev: Word) {
    Ungray(index) % 2 == (prev + y + 1 + nBits) % 2
  }

  lemma ParityStart(n: nat, nBits: nat)
    requires n >= 1
    ensures ParityKept(nBits, nBits, Pow2(n - 1), 0)
  {
    GrayMax(n);
    UngrayGray(Max(n));
    ParityOfMax(n);
  }

  lemma ParityStep(n: nat, nBits: nat, y: nat, index: Word, prev: Word, d: Word)
    requires n >= 1 && y >= 1 && d < Pow2(n) && ParityKept(nBits, y, index, prev)
    ensures ParityKept(nBits, y - 1, Xor(index, GrayDigit(n, prev, d)), d)
  {
    hide Ungray, Xor, GrayDigit;
    UngrayXor(index, GrayDigit(n, prev, d));
    XorParity(Ungray(index), Ungray(GrayDigit(n, prev, d)));
    UngrayDigit(n, prev, d);
    ParityOfMax(n);
  }

  /** `(index ^ y ^ nBits) & 1` */
  lemma ParityRead(nBits: nat, y: nat, index: Word, prev: Word)
    requires y >= 1 && index % 2 == (prev + y + 1 + nBits) % 2
    ensures And(Xor(Xor(index, y - 1), nBits), 1) == prev % 2
  {
    hide And, Xor;
    XorParity(index, y - 1);
    XorParity(Xor(index, y - 1), nBits);
    LowBitOnly(Xor(Xor(index, y - 1), nBits));
  }

  // ---------- Two points side by side ----------

  ghost predicate SamePrefix(ds1: seq<Word>, ds2: seq<Word>, t: nat) {
    |ds1| == |ds2| && t <= |ds1| && ds1[..t] == ds2[..t]
  }

  lemma {:induction false} SameFrames(n: nat, fr: Frame, ds1: seq<Word>, ds2: seq<Word>, t: nat)
    requires fr.rot < n && SamePrefix(ds1, ds2, t)
    ensures FrameAt(n, fr, ds1, t) == FrameAt(n, fr, ds2, t)
    decreases t
  {
    hide Cell, Enter;
    if t > 0 {
      PrefixTail(ds1, ds2, t);
      SameFrames(n, Enter(n, fr, ds1[0], Cell(n, fr, ds1[0])), ds1[1..], ds2[1..], t - 1);
    }
  }

  lemma SameState(n: nat, ds1: seq<Word>, ds2: seq<Word>, t: nat)
    requires n >= 1 && SamePrefix(ds1, ds2, t)
    ensures RotAt(n, ds1, t) == RotAt(n, ds2, t) && CmpFlip(n, ds1, t) == CmpFlip(n, ds2, t)
    ensures PrevEven(ds1, t) == PrevEven(ds2, t)
  {
    SameFrames(n, START, ds1, ds2, t);
    if t > 0 { assert ds1[t - 1] == ds1[..t][t - 1] == ds2[..t][t - 1]; }
  }

  lemma DigitFromCell(n: nat, ds: seq<Word>, cs: seq<Word>, t: nat)
    requires OnCurve(n, ds, cs) && t < |ds|
    ensures |cs| == |ds| && ds[t] == Digit(n, FrameAt(n, START, ds, t), cs[t])
  {
    hide Cells, FrameAt, Cell, Digit, Pow2;
    CurveLengths(n, ds, cs);
    FrameAtStep(n, START, ds, t);
    CellFacts(n, FrameAt(n, START, ds, t), ds[t]);
  }

  /** Equal cells after equal prefixes mean equal digits. */
  lemma PrefixGrows(n: nat, ds1: seq<Word>, ds2: seq<Word>, cs1: seq<Word>, cs2: seq<Word>, t: nat)
    requires OnCurve(n, ds1, cs1) && OnCurve(n, ds2, cs2) && t < |ds1| && SamePrefix(ds1, ds2, t)
    requires |cs1| == |ds1| && |cs2| == |ds2| && cs1[..t] == cs2[..t] && cs1[t] == cs2[t]
    ensures SamePrefix(ds1, ds2, t + 1) && cs1[..t + 1] == cs2[..t + 1]
  {
    hide Cells, FrameAt, Digit, Pow2;
    DigitFromCell(n, ds1, cs1, t);
    DigitFromCell(n, ds2, cs2, t);
    SameFrames(n, START, ds1, ds2, t);
    assert ds1[..t + 1] == ds1[..t] + [ds1[t]] && ds2[..t + 1] == ds2[..t] + [ds2[t]];
    assert cs1[..t + 1] == cs1[..t] + [cs1[t]] && cs2[..t + 1] == cs2[..t] + [cs2[t]];
  }

  /** The first differing cell: the digits differ, and diff leads from one to the other. */
  lemma FirstDifference(n: nat, ds1: seq<Word>, ds2: seq<Word>, cs1: seq<Word>, cs2: seq<Word>, t: nat)
    requires OnCurve(n, ds1, cs1) && OnCurve(n, ds2, cs2) && t < |ds1| && SamePrefix(ds1, ds2, t)
    requires |cs1| == |ds1| && |cs2| == |ds2| && cs1[t] != cs2[t]
    ensures ds1[t] != ds2[t] && ds1[t] < Pow2(n) && ds2[t] < Pow2(n)
    ensures var prev := PrevEven(ds1, t);
            var diff := RotateRight(Xor(cs1[t], cs2[t]), RotAt(n, ds1, t), n);
            diff < Pow2(n) && Xor(GrayDigit(n, prev, ds1[t]), diff) == GrayDigit(n, prev, ds2[t])
  {
    hide Cells, FrameAt, Digit, Pow2, Xor, RotateRight, GrayDigit, Cell, CmpFlip;
    CmpDigit(n, ds1, cs1, t);
    CmpDigit(n, ds2, cs2, t);
    SameState(n, ds1, ds2, t);
    SameFrames(n, START, ds1, ds2, t);
    FrameAtStep(n, START, ds1, t);
    FrameAtStep(n, START, ds2, t);
    var flip, rot := CmpFlip(n, ds1, t), RotAt(n, ds1, t);
    XorBelow(flip, cs1[t], n);
    XorBelow(cs1[t], cs2[t], n);
    RotateRightXor(Xor(flip, cs1[t]), Xor(cs1[t], cs2[t]), rot, n);
    XorAssoc(flip, cs1[t], Xor(cs1[t], cs2[t]));
    XorComm(cs1[t], cs2[t]);
    XorCancel(cs2[t], cs1[t]);
    XorComm(cs1[t], Xor(cs2[t], cs1[t]));
    RotateRightBelow(Xor(cs1[t], cs2[t]), rot, n);
  }

  lemma XorNonzero(a: Word, b: Word)
    ensures Xor(a, b) == 0 <==> a == b
  {
    hide Xor;
    if Xor(a, b) == 0 {
      XorCancel(a, b);
      XorZero(b);
    }
    if a == b {
      ZeroBits();
      BitsEqual(Xor(a, b), 0);
    }
  }

  lemma UngrayFacts(n: nat, w: Word)
    requires w < Pow2(n)
    ensures Ungray(w) < Pow2(n) && w == Xor(Ungray(w), Shr(Ungray(w), 1))
  {
    hide Ungray, Pow2, Xor, Shr;
    UngrayBelow(w, n);
    GrayUngray(w);
  }

  /** The comparison made at the first difference. */
  lemma DigitOrder(n: nat, nBits: nat, y: nat, prev: Word, d1: Word, d2: Word, index: Word, bits: Word, diff: Word)
    requires n >= 1 && d1 < Pow2(n) && d2 < Pow2(n) && d1 != d2
    requires ParityKept(nBits, y + 1, index, prev)
    requires bits == GrayDigit(n, prev, d1) && Xor(bits, diff) == GrayDigit(n, prev, d2)
    ensures ((And(Xor(Xor(Ungray(index), y), nBits), 1) == 1) == (Ungray(bits) < Xor(Ungray(bits), Ungray(diff)))) ==
            (d1 < d2)
  {
    hide Ungray, GrayDigit, Xor, And, Pow2;
    ParityRead(nBits, y + 1, Ungray(index), prev);
    UngrayXor(bits, diff);
    UngrayDigit(n, prev, d1);
    UngrayDigit(n, prev, d2);
  }

  /** The branch `if (diff)` of hilbert_cmp. */
  method DecideDigit(nDims: nat, nBits: nat, y: nat, index0: Word, bits0: Word, diff0: Word,
                     ghost prev: Word, ghost d1: Word, ghost d2: Word) returns (r: int)
    requires nDims >= 1 && d1 < Pow2(nDims) && d2 < Pow2(nDims) && d1 != d2
    requires index0 < Pow2(nDims) && bits0 < Pow2(nDims) && diff0 < Pow2(nDims)
    requires ParityKept(nBits, y + 1, index0, prev)
    requires bits0 == GrayDigit(nDims, prev, d1) && Xor(bits0, diff0) == GrayDigit(nDims, prev, d2)
    ensures r == if d1 < d2 then -1 else 1
  {
    ghost var uIndex, uBits, uDiff := Ungray(index0), Ungray(bits0), Ungray(diff0);
    hide *;
    var index, bits, diff := index0, bits0, diff0;
    UngrayFacts(nDims, index);
    UngrayFacts(nDims, bits);
    UngrayFacts(nDims, diff);
    var d := 1;
    while d < nDims
      invariant d >= 1
      invariant index == Xor(uIndex, Shr(uIndex, d)) && bits == Xor(uBits, Shr(uBits, d))
      invariant diff == Xor(uDiff, Shr(uDiff, d))
      decreases if d < nDims then nDims - d else 0
    {
      DoubleShift(uIndex, d, index);
      DoubleShift(uBits, d, bits);
      DoubleShift(uDiff, d, diff);
      index := Xor(index, Shr(index, d));
      bits := Xor(bits, Shr(bits, d));
      diff := Xor(diff, Shr(diff, d));
      d := d * 2;
    }
    ShiftedOut(uIndex, d, nDims);
    ShiftedOut(uBits, d, nDims);
    ShiftedOut(uDiff, d, nDims);
    DigitOrder(nDims, nBits, y, prev, d1, d2, index0, bits0, diff0);
    return if (And(Xor(Xor(index, y), nBits), 1) == 1) == (bits < Xor(bits, diff)) then -1 else 1;
  }

  /** Indices compare as the first differing digits do. */
  lemma IndexOrder(n: nat, ds1: seq<Word>, ds2: seq<Word>, t: nat)
    requires AllBelow(n, ds1) && AllBelow(n, ds2) && t < |ds1| && SamePrefix(ds1, ds2, t) && ds1[t] != ds2[t]
    ensures Compare(Value(n, ds1), Value(n, ds2)) == if ds1[t] < ds2[t] then -1 else 1
  {
    hide Value;
    if ds1[t] < ds2[t] {
      ValueOrder(n, ds1, ds2, t);
    } else {
      ValueOrder(n, ds2, ds1, t);
    }
  }

  /** The loop invariant of hilbert_cmp after t equal cells. */
  ghost predicate CmpState(n: nat, ds1: seq<Word>, ds2: seq<Word>, cs1: seq<Word>, cs2: seq<Word>, t: nat,
                           rotation: nat, bits: Word, index: Word) {
    && OnCurve(n, ds1, cs1) && OnCurve(n, ds2, cs2) && |cs1| == |ds1| && |cs2| == |ds2|
    && SamePrefix(ds1, ds2, t) && cs1[..t] == cs2[..t]
    && rotation == RotAt(n, ds1, t) && bits == CmpFlip(n, ds1, t)
    && index < Pow2(n) && ParityKept(|ds1|, |ds1| - t, index, PrevEven(ds1, t))
  }

  lemma CmpStart(n: nat, ds1: seq<Word>, ds2: seq<Word>, cs1: seq<Word>, cs2: seq<Word>)
    requires n >= 1 && OnCurve(n, ds1, cs1) && OnCurve(n, ds2, cs2) && |ds1| == |ds2|
    ensures Shl(1, n - 1) == Pow2(n - 1)
    ensures CmpState(n, ds1, ds2, cs1, cs2, 0, 0, Pow2(n - 1), Pow2(n - 1))
  {
    hide Cells, Pow2, Shl;
    CurveLengths(n, ds1, cs1);
    CurveLengths(n, ds2, cs2);
    ShlOne(n - 1);
    Pow2Below(n - 1, n);
    ParityStart(n, |ds1|);
    assert RotAt(n, ds1, 0) == 0;
  }

  /** A cell both points share. */
  lemma CmpSame(n: nat, ds1: seq<Word>, ds2: seq<Word>, cs1: seq<Word>, cs2: seq<Word>, t: nat,
                rotation: nat, bits: Word, index: Word)
    requires CmpState(n, ds1, ds2, cs1, cs2, t, rotation, bits, index) && t < |ds1| && t < |cs1|
    ensures rotation < n && RotateRight(Xor(bits, cs1[t]), rotation, n) < Pow2(n) && t < |cs2|
    ensures cs1[t] == cs2[t] ==>
              var bits' := RotateRight(Xor(bits, cs1[t]), rotation, n);
              CmpState(n, ds1, ds2, cs1, cs2, t + 1, NextRot(n, rotation, bits'),
                       Xor(cs1[t], Pow2(rotation)), Xor(index, bits'))
  {
    hide OnCurve, RotAt, CmpFlip, RotateRight, Xor, Pow2, NextRot, ParityKept, GrayDigit;
    CmpDigit(n, ds1, cs1, t);
    var g := GrayDigit(n, PrevEven(ds1, t), ds1[t]);
    CurveRange(n, ds1, cs1);
    if cs1[t] == cs2[t] {
      ParityStep(n, |ds1|, |ds1| - t, index, PrevEven(ds1, t), ds1[t]);
      XorBelow(index, g, n);
      PrefixGrows(n, ds1, ds2, cs1, cs2, t);
    }
  }

  /** The first cell in which the points differ decides. */
  method CmpDiffer(nDims: nat, nBits: nat, y: nat, reflection: Word, other: Word, rotation: nat, bits: Word,
                   index: Word, ghost flip: Word,
                   ghost ds1: seq<Word>, ghost ds2: seq<Word>, ghost cs1: seq<Word>, ghost cs2: seq<Word>, ghost t: nat)
      returns (r: int)
    requires CmpState(nDims, ds1, ds2, cs1, cs2, t, rotation, flip, index) && |ds1| == nBits && y == nBits - 1 - t &&
             t < nBits
    requires |cs1| == nBits && |cs2| == nBits && reflection == cs1[t] && other == cs2[t] && reflection != other
    requires rotation < nDims && bits == RotateRight(Xor(flip, reflection), rotation, nDims)
    ensures r == Compare(Value(nDims, ds1), Value(nDims, ds2))
  {
    CmpDifferFacts(nDims, ds1, ds2, cs1, cs2, t, rotation, flip, index);
    hide *;
    var diff := RotateRight(Xor(reflection, other), rotation, nDims);
    r := DecideDigit(nDims, nBits, y, index, bits, diff, PrevEven(ds1, t), ds1[t], ds2[t]);
  }

  lemma CmpDifferFacts(n: nat, ds1: seq<Word>, ds2: seq<Word>, cs1: seq<Word>, cs2: seq<Word>, t: nat,
                       rotation: nat, bits: Word, index: Word)
    requires CmpState(n, ds1, ds2, cs1, cs2, t, rotation, bits, index) && t < |ds1| && cs1[t] != cs2[t]
    ensures |ds2| == |ds1| && ds1[t] != ds2[t] && ds1[t] < Pow2(n) && ds2[t] < Pow2(n) && n >= 1
    ensures rotation < n && index < Pow2(n) && ParityKept(|ds1|, |ds1| - t, index, PrevEven(ds1, t))
    ensures var g := RotateRight(Xor(bits, cs1[t]), rotation, n);
            var diff := RotateRight(Xor(cs1[t], cs2[t]), rotation, n);
            && g < Pow2(n) && diff < Pow2(n) && g == GrayDigit(n, PrevEven(ds1, t), ds1[t])
            && Xor(g, diff) == GrayDigit(n, PrevEven(ds1, t), ds2[t])
    ensures Compare(Value(n, ds1), Value(n, ds2)) == if ds1[t] < ds2[t] then -1 else 1
  {
    hide OnCurve, RotAt, CmpFlip, RotateRight, Xor, Pow2, ParityKept, GrayDigit, Value;
    CurveRange(n, ds1, cs1);
    CurveRange(n, ds2, cs2);
    CmpDigit(n, ds1, cs1, t);
    FirstDifference(n, ds1, ds2, cs1, cs2, t);
    IndexOrder(n, ds1, ds2, t);
  }

  lemma SameIndex(n: nat, ds1: seq<Word>, ds2: seq<Word>, cs1: seq<Word>, cs2: seq<Word>,
                  rotation: nat, bits: Word, index: Word)
    requires CmpState(n, ds1, ds2, cs1, cs2, |ds1|, rotation, bits, index)
    ensures Compare(Value(n, ds1), Value(n, ds2)) == 0
  {
    assert ds1[..|ds1|] == ds1 && ds2[..|ds1|] == ds2;
  }

  lemma InRangeIs(n: nat, nBits: nat, p: seq<Word>)
    requires |p| == n && AllBelow(nBits, p)
    ensures InRange(n, nBits, p)
  {
  }

  /** hilbert_cmp: the order of two points on the curve. */
  method HilbertCmp(order: ByteOrder, nDims: nat, nBytes: nat, nBits: nat, c1: seq<Word>, c2: seq<Word>)
      returns (r: int)
    requires nDims >= 1 && nBits >= 1 && nBits <= 8 * nBytes
    requires |c1| == Times(nBytes, nDims) && |c2| == Times(nBytes, nDims) && AllBelow(8, c1) && AllBelow(8, c2)
    requires AllBelow(nBits, BytesPoint(order, nDims, nBytes, c1)) &&
             AllBelow(nBits, BytesPoint(order, nDims, nBytes, c2))
    ensures var i1 := HilbertIndex(nDims, nBits, BytesPoint(order, nDims, nBytes, c1));
            var i2 := HilbertIndex(nDims, nBits, BytesPoint(order, nDims, nBytes, c2));
            -1 <= r <= 1 && (r == -1 <==> i1 < i2) && (r == 0 <==> i1 == i2)
  {
    hide *;
    CompareIs(HilbertIndex(nDims, nBits, BytesPoint(order, nDims, nBytes, c1)),
      HilbertIndex(nDims, nBits, BytesPoint(order, nDims, nBytes, c2)));
    ghost var p1, p2 := BytesPoint(order, nDims, nBytes, c1), BytesPoint(order, nDims, nBytes, c2);
    ghost var cs1, ds1 := CellsOfPoint(nBits, p1), DigitsOf(nDims, nBits, p1);
    ghost var cs2, ds2 := CellsOfPoint(nBits, p2), DigitsOf(nDims, nBits, p2);
    InRangeIs(nDims, nBits, p1);
    InRangeIs(nDims, nBits, p2);
    CurveOfPoint(nDims, nBits, p1, ds1, cs1);
    CurveOfPoint(nDims, nBits, p2, ds2, cs2);
    var bits := Shl(1, nDims - 1);
    var index := bits;
    var rotation := 0;
    var y := nBits;
    CmpStart(nDims, ds1, ds2, cs1, cs2);
    while y > 0
      invariant y <= nBits && CmpState(nDims, ds1, ds2, cs1, cs2, nBits - y, rotation, bits, index)
    {
      y := y - 1;
      ghost var flip := bits;
      CmpSame(nDims, ds1, ds2, cs1, cs2, nBits - 1 - y, rotation, flip, index);
      var reflection := GetIntBits(order, nDims, nBytes, c1, y);
      var other := GetIntBits(order, nDims, nBytes, c2, y);
      var diff := Xor(reflection, other);
      XorNonzero(reflection, other);
      bits := Xor(bits, reflection);
      bits := RotateRight(bits, rotation, nDims);
      if diff != 0 {
        r := CmpDiffer(nDims, nBits, y, reflection, other, rotation, bits, index, flip, ds1, ds2, cs1, cs2,
          nBits - 1 - y);
        return;
      }
      index := Xor(index, bits);
      ShlOne(rotation);
      reflection := Xor(reflection, Shl(1, rotation));
      rotation := AdjustRotation(rotation, nDims, bits);
      bits := reflection;
    }
    SameIndex(nDims, ds1, ds2, cs1, cs2, rotation, bits, index);
    return 0;
  }
}
