/** The Hilbert curve on digit lists.

    An index of nDims*nBits bits is a list of nBits digits of nDims bits, most significant
    first; a point is a list of nBits cells, where bit d of the b-th cell is a bit of
    coordinate d.  One digit becomes one cell in the frame of the subcube reached so far.
    Everything here is unbounded in nDims and nBits.
 */
module HilbertCurve {
  import opened Words

  function RotateLeft(arg: Word, nRots: nat, nDims: nat): (r: Word)
    requires nRots < nDims
  {
    And(Or(Shl(arg, nRots), Shr(arg, nDims - nRots)), Ones(nDims))
  }

  function RotateRight(arg: Word, nRots: nat, nDims: nat): (r: Word)
    requires nRots < nDims
  {
    And(Or(Shr(arg, nRots), Shl(arg, nDims - nRots)), Ones(nDims))
  }

  /** The bit of arg that RotateLeft moves to position k. */
  function LeftSource(k: nat, r: nat, n: nat): (j: nat)
    requires k < n && r < n
    ensures j < n
  {
    if k >= r then k - r else k + n - r
  }

  function RightSource(k: nat, r: nat, n: nat): (j: nat)
    requires k < n && r < n
    ensures j < n
    ensures LeftSource(j, r, n) == k
  {
    if k + r < n then k + r else k + r - n
  }

  lemma RotateLeftBelow(arg: Word, r: nat, n: nat)
    requires r < n
    ensures RotateLeft(arg, r, n) < Pow2(n)
  {
    BelowByBits(RotateLeft(arg, r, n), n);
  }

  lemma RotateRightBelow(arg: Word, r: nat, n: nat)
    requires r < n
    ensures RotateRight(arg, r, n) < Pow2(n)
  {
    BelowByBits(RotateRight(arg, r, n), n);
  }

  lemma RotateLeftBit(arg: Word, r: nat, n: nat, k: nat)
    requires r < n && arg < Pow2(n) && k < n
    ensures Bit(RotateLeft(arg, r, n), k) == Bit(arg, LeftSource(k, r, n))
  {
    BitsBelow(arg, n);
  }

  lemma RotateRightBit(arg: Word, r: nat, n: nat, k: nat)
    requires r < n && arg < Pow2(n) && k < n
    ensures Bit(RotateRight(arg, r, n), k) == Bit(arg, RightSource(k, r, n))
  {
    BitsBelow(arg, n);
  }

  /** The two rotations undo each other on n-bit words. */
  lemma RightAfterLeft(arg: Word, r: nat, n: nat)
    requires r < n && arg < Pow2(n)
    ensures RotateLeft(arg, r, n) < Pow2(n)
    ensures RotateRight(RotateLeft(arg, r, n), r, n) == arg
  {
    var left := RotateLeft(arg, r, n);
    RotateLeftBelow(arg, r, n);
    RotateRightBelow(left, r, n);
    forall k: nat | k < n ensures Bit(RotateRight(left, r, n), k) == Bit(arg, k) {
      RotateRightBit(left, r, n, k);
      RotateLeftBit(arg, r, n, RightSource(k, r, n));
    }
    BitsEqualBelow(RotateRight(left, r, n), arg, n);
  }

  lemma LeftAfterRight(arg: Word, r: nat, n: nat)
    requires r < n && arg < Pow2(n)
    ensures RotateRight(arg, r, n) < Pow2(n)
    ensures RotateLeft(RotateRight(arg, r, n), r, n) == arg
  {
    var right := RotateRight(arg, r, n);
    RotateRightBelow(arg, r, n);
    RotateLeftBelow(right, r, n);
    forall k: nat | k < n ensures Bit(RotateLeft(right, r, n), k) == Bit(arg, k) {
      LeftAfterRightBit(arg, right, r, n, k);
    }
    BitsEqualBelow(RotateLeft(right, r, n), arg, n);
  }

  lemma LeftAfterRightBit(arg: Word, right: Word, r: nat, n: nat, k: nat)
    requires r < n && arg < Pow2(n) && k < n
    requires right == RotateRight(arg, r, n) && right < Pow2(n)
    ensures Bit(RotateLeft(right, r, n), k) == Bit(arg, k)
  {
    var j := LeftSource(k, r, n);
    assert RightSource(j, r, n) == k;
    RotateLeftBit(right, r, n, k);
    RotateRightBit(arg, r, n, j);
  }

  lemma RotateLeftXor(a: Word, b: Word, r: nat, n: nat)
    requires r < n && a < Pow2(n) && b < Pow2(n)
    ensures RotateLeft(Xor(a, b), r, n) == Xor(RotateLeft(a, r, n), RotateLeft(b, r, n))
  {
    var x, y := RotateLeft(Xor(a, b), r, n), Xor(RotateLeft(a, r, n), RotateLeft(b, r, n));
    XorBelow(a, b, n);
    RotateLeftBelow(Xor(a, b), r, n);
    RotateLeftBelow(a, r, n);
    RotateLeftBelow(b, r, n);
    XorBelow(RotateLeft(a, r, n), RotateLeft(b, r, n), n);
    forall k: nat | k < n ensures Bit(x, k) == Bit(y, k) {
      RotateLeftBit(Xor(a, b), r, n, k);
      RotateLeftBit(a, r, n, k);
      RotateLeftBit(b, r, n, k);
    }
    BitsEqualBelow(x, y, n);
  }

  lemma RotateRightXor(a: Word, b: Word, r: nat, n: nat)
    requires r < n && a < Pow2(n) && b < Pow2(n)
    ensures RotateRight(Xor(a, b), r, n) == Xor(RotateRight(a, r, n), RotateRight(b, r, n))
  {
    var x, y := RotateRight(Xor(a, b), r, n), Xor(RotateRight(a, r, n), RotateRight(b, r, n));
    XorBelow(a, b, n);
    RotateRightBelow(Xor(a, b), r, n);
    RotateRightBelow(a, r, n);
    RotateRightBelow(b, r, n);
    XorBelow(RotateRight(a, r, n), RotateRight(b, r, n), n);
    forall k: nat | k < n ensures Bit(x, k) == Bit(y, k) {
      RotateRightBit(Xor(a, b), r, n, k);
      RotateRightBit(a, r, n, k);
      RotateRightBit(b, r, n, k);
    }
    BitsEqualBelow(x, y, n);
  }

  /** x % n, for x < 2 * n. */
  function Wrap(x: nat, n: nat): (r: nat)
  {
    if x < n then x else x - n
  }

  lemma WrapIsMod(x: nat, n: nat)
    requires n >= 1 && x < 2 * n
    ensures Wrap(x, n) == x % n
  {
    if x < n { DivModOf(0, x, n); } else { DivModOf(1, x - n, n); }
  }

  lemma RotateLeftPow2(t: nat, r: nat, n: nat)
    requires t < n && r < n
    ensures Pow2(t) < Pow2(n)
    ensures RotateLeft(Pow2(t), r, n) == Pow2(Wrap(t + r, n))
  {
    Pow2Bits(t);
    BelowByBits(Pow2(t), n);
    RotateLeftBelow(Pow2(t), r, n);
    Pow2Bits(Wrap(t + r, n));
    BelowByBits(Pow2(Wrap(t + r, n)), n);
    forall k: nat | k < n ensures Bit(RotateLeft(Pow2(t), r, n), k) == Bit(Pow2(Wrap(t + r, n)), k) {
      RotateLeftBit(Pow2(t), r, n, k);
    }
    BitsEqualBelow(RotateLeft(Pow2(t), r, n), Pow2(Wrap(t + r, n)), n);
  }

  // ---------- Gray code ----------

  function Gray(d: Word): (g: Word)
  {
    Xor(d, Shr(d, 1))
  }

  /** The inverse of Gray: every bit is xored with all the bits above it. */
  function Ungray(g: Word): (d: Word)
  {
    if g == 0 then 0 else Xor(g, Ungray(g / 2))
  }

  lemma XorShr(a: Word, b: Word, k: nat)
    ensures Shr(Xor(a, b), k) == Xor(Shr(a, k), Shr(b, k))
  {
    BitsEqual(Shr(Xor(a, b), k), Xor(Shr(a, k), Shr(b, k)));
  }

  lemma {:induction false} UngrayGray(d: Word)
    ensures Ungray(Gray(d)) == d
    decreases d
  {
    if d > 0 {
      UngrayGray(d / 2);
      XorShr(d, Shr(d, 1), 1);
      assert Shr(d, 1) == d / 2;
      assert Gray(d) / 2 == Shr(Gray(d), 1) == Gray(d / 2);
      XorCancel(d, d / 2);
      XorZero(d);
    } else {
      XorZero(0);
    }
  }

  lemma {:induction false} UngrayShr(g: Word)
    ensures Shr(Ungray(g), 1) == Ungray(g / 2)
  {
    if g > 0 {
      UngrayShr(g / 2);
      XorShr(g, Ungray(g / 2), 1);
      if g / 2 == 0 {
        XorZero(Ungray(g / 2));
      }
    }
  }

  lemma GrayUngray(g: Word)
    ensures Gray(Ungray(g)) == g
  {
    UngrayShr(g);
    if g > 0 {
      XorCancel(g, Ungray(g / 2));
    } else {
      XorZero(0);
    }
  }

  lemma {:induction false} UngrayXor(a: Word, b: Word)
    ensures Ungray(Xor(a, b)) == Xor(Ungray(a), Ungray(b))
    decreases a + b
  {
    hide Xor, Bit, Shr, Ungray;
    var u := Xor(Ungray(a), Ungray(b));
    XorShr(Ungray(a), Ungray(b), 1);
    UngrayShr(a);
    UngrayShr(b);
    GrayUngray(a);
    GrayUngray(b);
    BitsEqual(Gray(u), Xor(Gray(Ungray(a)), Gray(Ungray(b))));
    UngrayGray(u);
  }

  lemma {:induction false} UngrayBelow(g: Word, n: nat)
    requires g < Pow2(n)
    ensures Ungray(g) < Pow2(n)
    decreases g
  {
    if g > 0 {
      assert g / 2 < Pow2(n);
      UngrayBelow(g / 2, n);
      XorBelow(g, Ungray(g / 2), n);
    }
  }

  lemma GrayBelow(d: Word, n: nat)
    requires d < Pow2(n)
    ensures Gray(d) < Pow2(n)
  {
    XorBelow(d, Shr(d, 1), n);
  }

  /** One plus the position of the lowest one bit; 0 for the word 0. */
  function Ffs(w: Word): (r: nat)
    ensures r == 0 <==> w == 0
    ensures r > 0 ==> Bit(w, r - 1) && forall i: nat :: i < r - 1 ==> !Bit(w, i)
  {
    if w == 0 then 0 else if w % 2 == 1 then 1 else
      var r := 1 + Ffs(w / 2);
      assert forall i: nat :: i < r - 1 ==> !Bit(w, i);
      r
  }

  lemma FfsIs(w: Word, k: nat)
    requires Bit(w, k) && forall i: nat :: i < k ==> !Bit(w, i)
    ensures Ffs(w) == k + 1
  {
    if w == 0 {
      ZeroBits();
      assert false;
    }
  }

  /** Counting in Gray code flips the bit where the carry stops. */
  lemma {:induction false} GrayStep(d: Word)
    ensures Gray(d + 1) == Xor(Gray(d), Pow2(Ffs(d + 1) - 1))
    decreases d
  {
    hide Xor, Bit, Gray, Shr;
    var x := d / 2;
    if d % 2 == 0 {
      GrayStepEven(d, x);
    } else {
      GrayStep(x);
      GrayStepOdd(d, x, Ffs(x + 1) - 1);
    }
  }

  lemma GrayStepEven(d: Word, x: Word)
    requires d == 2 * x
    ensures Gray(d + 1) == Xor(Gray(d), 1)
  {
    hide Xor, Bit;
    assert Shr(d, 1) == x && Shr(d + 1, 1) == x;
    XorOne(d);
    XorSwap(d, x, 1);
  }

  lemma GrayStepOdd(d: Word, x: Word, t: nat)
    requires d == 2 * x + 1 && Gray(x + 1) == Xor(Gray(x), Pow2(t))
    ensures Gray(d + 1) == Xor(Gray(d), Pow2(t + 1))
  {
    hide Gray, Xor, Bit;
    var c := if x % 2 == 0 then 1 else 0;
    GrayDouble(d, x);
    GrayDouble(d + 1, x + 1);
    XorDouble(Gray(x), Pow2(t), c);
  }

  lemma XorOne(d: Word)
    requires d % 2 == 0
    ensures Xor(d, 1) == d + 1
  {
    XorZero(d / 2);
  }

  lemma XorSwap(a: Word, b: Word, c: Word)
    ensures Xor(Xor(a, c), b) == Xor(Xor(a, b), c)
  {
    BitsEqual(Xor(Xor(a, c), b), Xor(Xor(a, b), c));
  }

  lemma XorDouble(a: Word, b: Word, c: nat)
    requires c <= 1
    ensures Xor(2 * a + c, 2 * b) == 2 * Xor(a, b) + c
  {
    hide Xor;
    var w, r := 2 * a + c, 2 * Xor(a, b) + c;
    DoubleBits(a, c, w);
    DoubleBits(b, 0, 2 * b);
    DoubleBits(Xor(a, b), c, r);
    BitsEqual(Xor(w, 2 * b), r);
  }

  lemma GrayDouble(d: Word, x: Word)
    requires x == d / 2
    ensures Gray(d) == 2 * Gray(x) + (if d % 2 != x % 2 then 1 else 0)
  {
    assert Shr(d, 1) == x && Shr(x, 1) == x / 2;
  }

  // ---------- Frames ----------

  /** The orientation of the subcube reached so far: the rotation and the reflection of its
      axes, and the index digit that led to it. */
  datatype Frame = Frame(rot: nat, flip: Word, prev: Word)

  ghost predicate ValidFrame(n: nat, fr: Frame) {
    fr.rot < n && fr.flip < Pow2(n)
  }

  const START := Frame(0, 0, 1)

  /** `ffs(bits)` with the top bit of bits left out. */
  function Turn(n: nat, bits: Word): (t: nat)
    requires n >= 1
    ensures t < n
  {
    Ffs(And(bits, Shr(Ones(n), 1)))
  }

  /** `(rotation + 1 + ffs(bits)) % nDims` */
  function NextRot(n: nat, rot: nat, bits: Word): (r: nat)
    requires rot < n
    ensures r < n
  {
    Wrap(rot + 1 + Turn(n, bits), n)
  }

  lemma NextRotIsRemainder(n: nat, rot: nat, bits: Word)
    requires rot < n
    ensures NextRot(n, rot, bits) == (rot + 1 + Turn(n, bits)) % n
  {
    WrapIsMod(rot + 1 + Turn(n, bits), n);
  }

  /** The top bit of a digit is complemented below an even digit. */
  function TopFlip(n: nat, prev: Word): (r: Word)
    requires n >= 1
    ensures r < Pow2(n)
  {
    if prev % 2 == 0 then Pow2(n - 1) else 0
  }

  function CellBits(n: nat, fr: Frame, d: Word): (r: Word)
    requires n >= 1
  {
    Xor(Gray(d), TopFlip(n, fr.prev))
  }

  function Cell(n: nat, fr: Frame, d: Word): (c: Word)
    requires fr.rot < n
  {
    Xor(RotateLeft(CellBits(n, fr, d), fr.rot, n), fr.flip)
  }

  function Digit(n: nat, fr: Frame, c: Word): (d: Word)
    requires fr.rot < n
  {
    Ungray(Xor(RotateRight(Xor(fr.flip, c), fr.rot, n), TopFlip(n, fr.prev)))
  }

  /** The frame of the subcube with digit d and cell c. */
  function Enter(n: nat, fr: Frame, d: Word, c: Word): (fr': Frame)
    requires fr.rot < n
    ensures fr'.rot < n
  {
    Frame(NextRot(n, fr.rot, CellBits(n, fr, d)), Xor(c, Pow2(fr.rot)), d)
  }

  function Cells(n: nat, fr: Frame, ds: seq<Word>): (cs: seq<Word>)
    requires fr.rot < n
    ensures |cs| == |ds|
    decreases |ds|
  {
    if ds == [] then [] else
      var c := Cell(n, fr, ds[0]);
      [c] + Cells(n, Enter(n, fr, ds[0], c), ds[1..])
  }

  function DigitsOfCells(n: nat, fr: Frame, cs: seq<Word>): (ds: seq<Word>)
    requires fr.rot < n
    ensures |ds| == |cs|
    decreases |cs|
  {
    if cs == [] then [] else
      var d := Digit(n, fr, cs[0]);
      [d] + DigitsOfCells(n, Enter(n, fr, d, cs[0]), cs[1..])
  }

  ghost predicate AllBelow(n: nat, ws: seq<Word>) {
    forall i :: 0 <= i < |ws| ==> ws[i] < Pow2(n)
  }

  lemma Pow2Below(k: nat, n: nat)
    requires k < n
    ensures Pow2(k) < Pow2(n)
  {
    Pow2Bits(k);
    BelowByBits(Pow2(k), n);
  }

  lemma CellBitsBelow(n: nat, fr: Frame, d: Word)
    requires n >= 1 && d < Pow2(n)
    ensures CellBits(n, fr, d) < Pow2(n)
  {
    GrayBelow(d, n);
    XorBelow(Gray(d), TopFlip(n, fr.prev), n);
  }

  lemma CellFacts(n: nat, fr: Frame, d: Word)
    requires ValidFrame(n, fr) && d < Pow2(n)
    ensures Cell(n, fr, d) < Pow2(n)
    ensures ValidFrame(n, Enter(n, fr, d, Cell(n, fr, d)))
    ensures Digit(n, fr, Cell(n, fr, d)) == d
  {
    var bits := CellBits(n, fr, d);
    CellBitsBelow(n, fr, d);
    RightAfterLeft(bits, fr.rot, n);
    XorBelow(RotateLeft(bits, fr.rot, n), fr.flip, n);
    Pow2Below(fr.rot, n);
    XorBelow(Cell(n, fr, d), Pow2(fr.rot), n);
    XorCancel(RotateLeft(bits, fr.rot, n), fr.flip);
    XorComm(fr.flip, Cell(n, fr, d));
    XorCancel(Gray(d), TopFlip(n, fr.prev));
    UngrayGray(d);
  }

  lemma DigitFacts(n: nat, fr: Frame, c: Word)
    requires ValidFrame(n, fr) && c < Pow2(n)
    ensures Digit(n, fr, c) < Pow2(n)
    ensures ValidFrame(n, Enter(n, fr, Digit(n, fr, c), c))
    ensures CellBits(n, fr, Digit(n, fr, c)) == RotateRight(Xor(fr.flip, c), fr.rot, n)
    ensures Cell(n, fr, Digit(n, fr, c)) == c
  {
    var w := Xor(fr.flip, c);
    var bits := RotateRight(w, fr.rot, n);
    XorBelow(fr.flip, c, n);
    LeftAfterRight(w, fr.rot, n);
    XorBelow(bits, TopFlip(n, fr.prev), n);
    UngrayBelow(Xor(bits, TopFlip(n, fr.prev)), n);
    GrayUngray(Xor(bits, TopFlip(n, fr.prev)));
    XorCancel(bits, TopFlip(n, fr.prev));
    XorComm(fr.flip, c);
    XorCancel(c, fr.flip);
    Pow2Below(fr.rot, n);
    XorBelow(c, Pow2(fr.rot), n);
  }

  /** Round trip on digit lists: index to point to index. */
  lemma {:induction false} DigitsOfCellsOfDigits(n: nat, fr: Frame, ds: seq<Word>)
    requires ValidFrame(n, fr) && AllBelow(n, ds)
    ensures AllBelow(n, Cells(n, fr, ds))
    ensures DigitsOfCells(n, fr, Cells(n, fr, ds)) == ds
    decreases |ds|
  {
    hide Cell, Digit, Enter;
    if ds != [] {
      CellFacts(n, fr, ds[0]);
      var c := Cell(n, fr, ds[0]);
      DigitsOfCellsOfDigits(n, Enter(n, fr, ds[0], c), ds[1..]);
    }
  }

  /** Round trip on digit lists: point to index to point. */
  lemma {:induction false} CellsOfDigitsOfCells(n: nat, fr: Frame, cs: seq<Word>)
    requires ValidFrame(n, fr) && AllBelow(n, cs)
    ensures AllBelow(n, DigitsOfCells(n, fr, cs))
    ensures Cells(n, fr, DigitsOfCells(n, fr, cs)) == cs
    decreases |cs|
  {
    hide Cell, Digit, Enter;
    if cs != [] {
      DigitFacts(n, fr, cs[0]);
      var d := Digit(n, fr, cs[0]);
      CellsOfDigitsOfCells(n, Enter(n, fr, d, cs[0]), cs[1..]);
    }
  }
}
