/** Consecutive digit lists on the Hilbert curve: the successor of an index changes exactly
    one coordinate, in every cell from the digit that carries downwards.
 */
module HilbertPath {
  import opened Words
  import opened HilbertCurve

  ghost predicate AllEqual(ws: seq<Word>, x: Word) {
    forall i :: 0 <= i < |ws| ==> ws[i] == x
  }

  /** The largest digit. */
  ghost function Max(n: nat): (r: Word) {
    Pow2(n) - 1
  }

  /** The digit list that follows ds, which is not all Max(n). */
  ghost function Succ(n: nat, ds: seq<Word>): (r: seq<Word>)
    requires ds != []
    ensures |r| == |ds|
  {
    if AllEqual(ds[1..], Max(n)) then [ds[0] + 1] + seq(|ds| - 1, _ => 0)
    else [ds[0]] + Succ(n, ds[1..])
  }

  /** The position of the digit that Succ increments. */
  ghost function CarryAt(n: nat, ds: seq<Word>): (j: nat)
    requires ds != []
    ensures j < |ds|
  {
    if AllEqual(ds[1..], Max(n)) then 0 else 1 + CarryAt(n, ds[1..])
  }

  /** The dimension along which the curve leaves ds. */
  ghost function StepDim(n: nat, fr: Frame, ds: seq<Word>): (dim: nat)
    requires fr.rot < n && ds != []
    decreases |ds|
  {
    if AllEqual(ds[1..], Max(n)) then Wrap(fr.rot + Ffs(ds[0] + 1) - 1, n)
    else StepDim(n, Enter(n, fr, ds[0], Cell(n, fr, ds[0])), ds[1..])
  }

  // ---------- Tails: all Max(n) before the step, all 0 after it ----------

  lemma GrayMax(n: nat)
    requires n >= 1
    ensures Gray(Max(n)) == Pow2(n - 1)
  {
    OnesBits(n, Max(n));
    Pow2Bits(n - 1);
    BitsEqual(Gray(Max(n)), Pow2(n - 1));
  }

  lemma TurnOfTop(n: nat, bits: Word)
    requires n >= 1 && (bits == 0 || bits == Pow2(n - 1))
    ensures Turn(n, bits) == 0
  {
    ZeroBits();
    Pow2Bits(n - 1);
    BitsEqual(And(bits, Shr(Ones(n), 1)), 0);
  }

  /** The digits of a tail: zeros after the step, maximal digits before it. */
  ghost predicate Tail(n: nat, ds: seq<Word>, x: Word) {
    (x == 0 || x == Max(n)) && AllEqual(ds, x)
  }

  /** The corner in which a frame stays on a tail. */
  ghost function Stay(n: nat, fr: Frame): (r: Word)
    requires fr.rot < n
  {
    Xor(Pow2(Wrap(n - 1 + fr.rot, n)), fr.flip)
  }

  /** A digit that keeps the parity goes to the corner, and the next frame stays there. */
  lemma StayingTail(n: nat, fr: Frame, x: Word)
    requires ValidFrame(n, fr) && (x == 0 || x == Max(n)) && fr.prev % 2 == x % 2
    ensures Cell(n, fr, x) == Stay(n, fr)
    ensures var fr' := Enter(n, fr, x, Stay(n, fr));
            ValidFrame(n, fr') && fr'.prev == x && Stay(n, fr') == Stay(n, fr)
  {
    hide Xor, Pow2, Bit, CellBits, RotateLeft, Turn, TopFlip, Digit;
    var bits := CellBits(n, fr, x);
    assert bits == Pow2(n - 1) by { TailBits(n, fr, x); }
    RotateLeftPow2(n - 1, fr.rot, n);
    ZeroBelow(n);
    CellFacts(n, fr, x);
    TurnOfTop(n, bits);
    XorComm(Pow2(fr.rot), Xor(Stay(n, fr), Pow2(fr.rot)));
    XorCancel(Stay(n, fr), Pow2(fr.rot));
  }

  /** On the cells of a tail the frame turns by one axis per level and the point stays in
      one corner: all cells are equal. */
  lemma {:induction false} FlatTail(n: nat, fr: Frame, ds: seq<Word>, x: Word, corner: Word)
    requires ValidFrame(n, fr) && Tail(n, ds, x)
    requires fr.prev % 2 == x % 2
    requires corner == Stay(n, fr)
    ensures AllEqual(Cells(n, fr, ds), corner)
    decreases |ds|
  {
    hide Stay, Cells, Cell, Enter, ValidFrame, Max;
    FrameRot(n, fr);
    if ds != [] {
      StayingTail(n, fr, x);
      CellsCons(n, fr, ds, corner);
      FlatTail(n, Enter(n, fr, x, corner), ds[1..], x, corner);
    } else {
      assert Cells(n, fr, ds) == [];
    }
  }

  lemma ZeroBelow(n: nat)
    ensures 0 < Pow2(n) && Max(n) < Pow2(n)
  {
  }

  lemma ParityOfMax(n: nat)
    requires n >= 1
    ensures Max(n) % 2 == 1
  {
  }

  lemma TailBits(n: nat, fr: Frame, x: Word)
    requires n >= 1 && (x == 0 || x == Max(n))
    ensures CellBits(n, fr, x) == if fr.prev % 2 == x % 2 then Pow2(n - 1) else 0
  {
    ParityOfMax(n);
    if x == 0 {
      assert Shr(0, 1) == 0;
      XorZero(0);
      XorZero(TopFlip(n, fr.prev));
      assert Gray(0) == 0;
    } else {
      GrayMax(n);
      XorZero(Pow2(n - 1));
      XorCancel(0, Pow2(n - 1));
    }
  }

  /** The corner in which a tail stays, whatever the parity of the digit above it. */
  ghost function TailCorner(n: nat, fr: Frame, x: Word): (r: Word)
    requires fr.rot < n
  {
    if fr.prev % 2 == x % 2 then Stay(n, fr) else fr.flip
  }

  /** A digit that changes the parity leaves the point where the frame starts, and the next frame
      stays there. */
  lemma TurnedTail(n: nat, fr: Frame, x: Word)
    requires ValidFrame(n, fr) && (x == 0 || x == Max(n)) && fr.prev % 2 != x % 2
    ensures Cell(n, fr, x) == fr.flip
    ensures var fr' := Enter(n, fr, x, fr.flip);
            ValidFrame(n, fr') && fr'.prev == x && Stay(n, fr') == fr.flip
  {
    hide Xor, Pow2, RotateLeft, Turn, CellBits, Digit;
    TailBits(n, fr, x);
    RotateZero(fr.rot, n);
    XorZero(fr.flip);
    ZeroBelow(n);
    CellFacts(n, fr, x);
    TurnOfTop(n, 0);
    XorComm(Pow2(fr.rot), Xor(fr.flip, Pow2(fr.rot)));
    XorCancel(fr.flip, Pow2(fr.rot));
  }

  lemma CellsCons(n: nat, fr: Frame, ds: seq<Word>, c: Word)
    requires fr.rot < n && ds != [] && Cell(n, fr, ds[0]) == c
    ensures Cells(n, fr, ds) == [c] + Cells(n, Enter(n, fr, ds[0], c), ds[1..])
  {
    hide Cell, Enter;
  }

  lemma TailCells(n: nat, fr: Frame, ds: seq<Word>, x: Word)
    requires ValidFrame(n, fr) && Tail(n, ds, x)
    ensures AllEqual(Cells(n, fr, ds), TailCorner(n, fr, x))
  {
    hide Stay, Cells, Cell, Enter, ValidFrame, Max;
    FrameRot(n, fr);
    if fr.prev % 2 == x % 2 {
      FlatTail(n, fr, ds, x, TailCorner(n, fr, x));
    } else if ds != [] {
      TurnedTail(n, fr, x);
      CellsCons(n, fr, ds, fr.flip);
      FlatTail(n, Enter(n, fr, x, fr.flip), ds[1..], x, fr.flip);
    }
  }

  lemma FrameRot(n: nat, fr: Frame)
    requires ValidFrame(n, fr)
    ensures fr.rot < n
  {
  }

  lemma RotateZero(r: nat, n: nat)
    requires r < n
    ensures RotateLeft(0, r, n) == 0
  {
    ZeroBits();
    BitsEqual(RotateLeft(0, r, n), 0);
  }

  // ---------- The carrying digit ----------

  /** Trailing ones of d, where d is not maximal: the bit of the Gray code that changes. */
  lemma CarryBit(n: nat, d: Word, t: nat)
    requires d + 1 < Pow2(n) && t == Ffs(d + 1) - 1
    ensures t < n
    ensures d % 2 == 0 <==> t == 0
  {
    BitsBelow(d + 1, n);
    assert Bit(d + 1, 0) == (d % 2 == 0);
  }

  /** Bits of d below and at its lowest zero. */
  lemma {:induction false} TrailingOnes(d: Word, e: Word, t: nat)
    requires e == d + 1 && t == Ffs(e) - 1
    ensures !Bit(d, t) && Bit(e, t)
    ensures forall i: nat :: i < t ==> Bit(d, i) && !Bit(e, i)
    decreases d
  {
    if d % 2 == 1 {
      assert e / 2 == d / 2 + 1;
      TrailingOnes(d / 2, e / 2, t - 1);
      forall i: nat | i < t ensures Bit(d, i) {
        if i > 0 { assert Bit(d, i) == Bit(d / 2, i - 1); }
      }
    }
  }

  /** An odd digit and its successor turn the frame by the same number of axes. */
  lemma OddTurn(n: nat, fr: Frame, d: Word, t: nat)
    requires ValidFrame(n, fr) && d % 2 == 1 && d + 1 < Pow2(n) && t == Ffs(d + 1) - 1
    ensures 1 <= t < n
    ensures Turn(n, CellBits(n, fr, d)) == t
    ensures Turn(n, CellBits(n, fr, d + 1)) == t
  {
    CarryBit(n, d, t);
    TrailingOnes(d, d + 1, t);
    TurnIs(n, fr, d, t);
    TurnIs(n, fr, d + 1, t);
  }

  /** The Gray code of a run of t equal bits below another one has its lowest one at t - 1. */
  lemma TurnIs(n: nat, fr: Frame, d: Word, t: nat)
    requires n >= 1 && 1 <= t < n
    requires forall i: nat :: i < t ==> Bit(d, i) != Bit(d, t)
    ensures Turn(n, CellBits(n, fr, d)) == t
  {
    hide Bit, Xor, And, Pow2, Ffs, Shr;
    Pow2Bits(n - 1);
    ZeroBits();
    var bits := CellBits(n, fr, d);
    var b := And(bits, Shr(Ones(n), 1));
    forall i: nat | i < t ensures Bit(b, i) == (i == t - 1) {
      assert Bit(Shr(d, 1), i) == Bit(d, i + 1);
      assert Bit(Gray(d), i) == (i == t - 1);
      assert !Bit(TopFlip(n, fr.prev), i);
      assert Bit(bits, i) == Bit(Gray(d), i);
    }
    FfsIs(b, t - 1);
  }

  lemma CellStep(n: nat, fr: Frame, d: Word, t: nat)
    requires ValidFrame(n, fr) && d + 1 < Pow2(n) && t == Ffs(d + 1) - 1
    ensures t < n
    ensures Cell(n, fr, d + 1) == Xor(Cell(n, fr, d), Pow2(Wrap(fr.rot + t, n)))
  {
    hide Xor, Pow2, Bit, Ffs, RotateLeft, TopFlip, Gray;
    CarryBit(n, d, t);
    GrayStep(d);
    var bits, bits' := CellBits(n, fr, d), CellBits(n, fr, d + 1);
    XorSwap(Gray(d), TopFlip(n, fr.prev), Pow2(t));
    assert bits' == Xor(bits, Pow2(t));
    CellBitsBelow(n, fr, d);
    RotateLeftPow2(t, fr.rot, n);
    RotateLeftXor(bits, Pow2(t), fr.rot, n);
    XorSwap(RotateLeft(bits, fr.rot, n), fr.flip, Pow2(Wrap(fr.rot + t, n)));
  }

  /** Below the carrying digit, the cells before the step sit in the corner at coordinate dim
      opposite to the carrying cell, and those after the step in the other one. */
  lemma CornersMeet(n: nat, fr: Frame, d: Word, t: nat, dim: nat, low: Word, high: Word)
    requires ValidFrame(n, fr) && d + 1 < Pow2(n)
    requires t == Ffs(d + 1) - 1 && dim == Wrap(fr.rot + t, n)
    requires low == TailCorner(n, Enter(n, fr, d, Cell(n, fr, d)), Max(n))
    requires high == TailCorner(n, Enter(n, fr, d + 1, Cell(n, fr, d + 1)), 0)
    ensures dim < n && high == Xor(low, Pow2(dim)) && Bit(low, dim) != Bit(Cell(n, fr, d), dim)
  {
    hide Xor, Pow2, Bit, Cell, Ffs, Turn;
    var c, c' := Cell(n, fr, d), Cell(n, fr, d + 1);
    CellStep(n, fr, d, t);
    CarryBit(n, d, t);
    ParityOfMax(n);
    Pow2Bits(fr.rot);
    Pow2Bits(dim);
    XorSwap(c, Pow2(fr.rot), Pow2(dim));
    if d % 2 == 0 {
      assert low == Xor(c, Pow2(dim));
    } else {
      OddTurn(n, fr, d, t);
      XorComm(Pow2(dim), Xor(c, Pow2(fr.rot)));
      XorComm(Pow2(dim), Xor(c', Pow2(fr.rot)));
      assert low == Xor(Xor(c, Pow2(fr.rot)), Pow2(dim));
    }
  }

  // ---------- The step ----------

  /** The cells after a step along dim out of the j-th digit. */
  ghost predicate Steps(cs: seq<Word>, cs': seq<Word>, j: nat, dim: nat) {
    && |cs'| == |cs| && j < |cs|
    && (forall i :: 0 <= i < |cs| ==> cs'[i] == if i < j then cs[i] else Xor(cs[i], Pow2(dim)))
    && (forall i :: j < i < |cs| ==> Bit(cs[i], dim) != Bit(cs[j], dim))
  }

  /** Consecutive indices: from the carrying digit downwards, and nowhere else, every cell
      changes, in one and the same coordinate, and all lower cells of that coordinate are the
      complement of the carrying one. */
  lemma {:induction false} CurveStep(n: nat, fr: Frame, ds: seq<Word>)
    requires ValidFrame(n, fr) && AllBelow(n, ds) && ds != []
    requires !AllEqual(ds, Max(n))
    ensures StepDim(n, fr, ds) < n && AllBelow(n, Succ(n, ds))
    ensures Steps(Cells(n, fr, ds), Cells(n, fr, Succ(n, ds)), CarryAt(n, ds), StepDim(n, fr, ds))
    decreases |ds|
  {
    hide Cell, Enter, Xor, Pow2, Ffs, Bit, Cells, Steps, Succ, CarryAt, StepDim, Max;
    var d, rest := ds[0], ds[1..];
    FrameRot(n, fr);
    if AllEqual(rest, Max(n)) {
      CarryHere(n, fr, ds);
    } else {
      var c := Cell(n, fr, d);
      var fr' := Enter(n, fr, d, c);
      CellFacts(n, fr, d);
      CurveStep(n, fr', rest);
      CarryLater(n, fr, ds);
      CellsCons(n, fr, ds, c);
      CellsCons(n, fr, Succ(n, ds), c);
      StepsCons(c, Cells(n, fr', rest), Cells(n, fr', Succ(n, rest)), CarryAt(n, rest), StepDim(n, fr', rest));
    }
  }

  /** The first digit carries. */
  lemma CarryHere(n: nat, fr: Frame, ds: seq<Word>)
    requires ValidFrame(n, fr) && AllBelow(n, ds) && ds != []
    requires AllEqual(ds[1..], Max(n)) && !AllEqual(ds, Max(n))
    ensures StepDim(n, fr, ds) < n && AllBelow(n, Succ(n, ds))
    ensures Steps(Cells(n, fr, ds), Cells(n, fr, Succ(n, ds)), CarryAt(n, ds), StepDim(n, fr, ds))
  {
    hide Cell, Enter, Xor, Pow2, Ffs, Bit, Cells, Steps;
    var zeros := seq(|ds| - 1, _ => 0);
    CarryStep(n, fr, ds[0], ds[1..], zeros);
    ZeroBelow(n);
    assert ds == [ds[0]] + ds[1..];
  }

  /** A later digit carries. */
  lemma CarryLater(n: nat, fr: Frame, ds: seq<Word>)
    requires fr.rot < n && ds != [] && !AllEqual(ds[1..], Max(n))
    ensures Succ(n, ds)[0] == ds[0] && Succ(n, ds)[1..] == Succ(n, ds[1..])
    ensures CarryAt(n, ds) == 1 + CarryAt(n, ds[1..])
    ensures StepDim(n, fr, ds) == StepDim(n, Enter(n, fr, ds[0], Cell(n, fr, ds[0])), ds[1..])
    ensures |ds| > 1
  {
    hide Cell, Enter, Max;
  }

  /** The step at the carrying digit itself. */
  lemma CarryStep(n: nat, fr: Frame, d: Word, rest: seq<Word>, zeros: seq<Word>)
    requires ValidFrame(n, fr) && d + 1 < Pow2(n)
    requires |rest| == |zeros| && AllEqual(rest, Max(n)) && AllEqual(zeros, 0)
    ensures Wrap(fr.rot + Ffs(d + 1) - 1, n) < n
    ensures Steps(Cells(n, fr, [d] + rest), Cells(n, fr, [d + 1] + zeros), 0, Wrap(fr.rot + Ffs(d + 1) - 1, n))
  {
    hide Cell, Enter, TailCorner, Xor, Pow2, Ffs, Bit;
    var t := Ffs(d + 1) - 1;
    var dim := Wrap(fr.rot + t, n);
    var c, c' := Cell(n, fr, d), Cell(n, fr, d + 1);
    var fr', fr'' := Enter(n, fr, d, c), Enter(n, fr, d + 1, c');
    CellFacts(n, fr, d);
    CellFacts(n, fr, d + 1);
    CellStep(n, fr, d, t);
    CornersMeet(n, fr, d, t, dim, TailCorner(n, fr', Max(n)), TailCorner(n, fr'', 0));
    TailCells(n, fr', rest, Max(n));
    TailCells(n, fr'', zeros, 0);
    assert ([d] + rest)[1..] == rest && ([d + 1] + zeros)[1..] == zeros;
  }

  lemma StepsCons(c: Word, cs: seq<Word>, cs': seq<Word>, j: nat, dim: nat)
    requires Steps(cs, cs', j, dim)
    ensures Steps([c] + cs, [c] + cs', j + 1, dim)
  {
    var a, a' := [c] + cs, [c] + cs';
    forall i | 0 <= i < |a| ensures a'[i] == if i < j + 1 then a[i] else Xor(a[i], Pow2(dim)) {
      if i > 0 { assert a[i] == cs[i - 1] && a'[i] == cs'[i - 1]; }
    }
    forall i | j + 1 < i < |a| ensures Bit(a[i], dim) != Bit(a[j + 1], dim) {
      assert a[i] == cs[i - 1] && a[j + 1] == cs[j];
    }
  }
}
