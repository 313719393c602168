/** The word-parallel steps of the Hilbert codec: Gray coding all digits at once, undoing
    x ^ (x >> k) by doubling shifts, and the rotation adjustment.
 */
module HilbertWords {
  import opened Words
  import opened HilbertCurve
  import opened HilbertPath
  import opened HilbertNumbers

  // ---------- Frames along a digit list ----------

  /** The frame in which digit b of ds is read. */
  function FrameAt(n: nat, fr: Frame, ds: seq<Word>, b: nat): (r: Frame)
    requires fr.rot < n && b <= |ds|
    ensures r.rot < n
    decreases b
  {
    if b == 0 then fr else FrameAt(n, Enter(n, fr, ds[0], Cell(n, fr, ds[0])), ds[1..], b - 1)
  }

  lemma {:induction false} FrameAtStep(n: nat, fr: Frame, ds: seq<Word>, b: nat)
    requires ValidFrame(n, fr) && AllBelow(n, ds) && b < |ds|
    ensures ValidFrame(n, FrameAt(n, fr, ds, b))
    ensures Cells(n, fr, ds)[b] == Cell(n, FrameAt(n, fr, ds, b), ds[b])
    ensures FrameAt(n, fr, ds, b).prev == if b == 0 then fr.prev else ds[b - 1]
    ensures FrameAt(n, fr, ds, b + 1) == Enter(n, FrameAt(n, fr, ds, b), ds[b], Cells(n, fr, ds)[b])
    decreases b
  {
    hide Cell, Xor, Pow2, NextRot, CellBits;
    var fr' := Enter(n, fr, ds[0], Cell(n, fr, ds[0]));
    CellFacts(n, fr, ds[0]);
    if b == 0 {
      assert FrameAt(n, fr, ds, 1) == FrameAt(n, fr', ds[1..], 0);
    } else {
      FrameAtStep(n, fr', ds[1..], b - 1);
    }
  }

  // ---------- Words as digit lists ----------

  lemma ShrAdd(w: Word, a: nat, b: nat)
    ensures Shr(Shr(w, a), b) == Shr(w, a + b)
  {
    BitsEqual(Shr(Shr(w, a), b), Shr(w, a + b));
  }

  /** Shifting by whole digits and masking reads one digit. */
  lemma {:induction false} DigitAt(n: nat, ds: seq<Word>, j: nat)
    requires n >= 1 && AllBelow(n, ds) && j < |ds|
    ensures And(Shr(Value(n, ds), Times(n, j)), Ones(n)) == ds[|ds| - 1 - j]
    decreases j
  {
    hide Shr, And, Pow2, Bit, Times;
    var front, last := ds[..|ds| - 1], ds[|ds| - 1];
    SplitWord(Value(n, front), last, n);
    TimesOne(n);
    if j == 0 {
      ShrZero(Value(n, ds));
    } else {
      TimesAdd(n, 1, j - 1);
      ShrAdd(Value(n, ds), n, Times(n, j - 1));
      DigitAt(n, front, j - 1);
    }
  }

  lemma ShrZero(w: Word)
    ensures Shr(w, 0) == w
  {
  }

  lemma XorJoin(x: Word, c: Word, y: Word, e: Word, n: nat)
    requires c < Pow2(n) && e < Pow2(n)
    ensures Xor(x * Pow2(n) + c, y * Pow2(n) + e) == Xor(x, y) * Pow2(n) + Xor(c, e)
    ensures Xor(c, e) < Pow2(n)
  {
    hide *;
    XorBelow(c, e, n);
    AppendBits(x, c, n, x * Pow2(n) + c);
    AppendBits(y, e, n, y * Pow2(n) + e);
    AppendBits(Xor(x, y), Xor(c, e), n, Xor(x, y) * Pow2(n) + Xor(c, e));
    XorJoined(x, c, y, e, n, x * Pow2(n) + c, y * Pow2(n) + e, Xor(x, y) * Pow2(n) + Xor(c, e));
  }

  lemma XorJoined(x: Word, c: Word, y: Word, e: Word, n: nat, v: Word, w: Word, r: Word)
    requires forall k: nat {:trigger Bit(v, k)} :: Bit(v, k) == if k < n then Bit(c, k) else Bit(x, k - n)
    requires forall k: nat {:trigger Bit(w, k)} :: Bit(w, k) == if k < n then Bit(e, k) else Bit(y, k - n)
    requires forall k: nat {:trigger Bit(r, k)} :: Bit(r, k) == if k < n then Bit(Xor(c, e), k)
             else Bit(Xor(x, y), k - n)
    ensures Xor(v, w) == r
  {
    hide *;
    BitsEqual(Xor(v, w), r);
  }

  /** `ones(nDimsBits) / ndOnes`: a one at the bottom of every digit. */
  ghost function NthBits(n: nat, len: nat): (w: Word)
  {
    if len == 0 then 0 else NthBits(n, len - 1) * Pow2(n) + 1
  }

  lemma ExactQuotient(x: nat, m: nat, q: nat)
    requires m > 0 && x == m * q
    ensures x / m == q
  {
    DivModOf(q, 0, m);
  }

  lemma NthBitsIsQuotient(n: nat, len: nat)
    requires n >= 1 && len >= 1
    ensures n * len >= 1 && Ones(n) >= 1
    ensures Ones(n * len) / Ones(n) == NthBits(n, len)
  {
    hide Pow2, Points;
    MulMono(n, 1, len);
    TimesIs(n, len);
    NthBitsTimesMax(n, len);
    PointsIs(n, len);
    Pow2Below(0, n);
    PowerZero();
    ExactQuotient(Ones(n * len), Ones(n), NthBits(n, len));
  }

  lemma PointsIs(n: nat, len: nat)
    ensures Points(n, len) == Pow2(n * len)
  {
    TimesIs(n, len);
  }

  lemma {:induction false} NthBitsTimesMax(n: nat, len: nat)
    ensures Max(n) * NthBits(n, len) == Points(n, len) - 1
  {
    hide Pow2, Points;
    if len == 0 {
      PointsNone(n);
    } else {
      NthBitsTimesMax(n, len - 1);
      PointsSnoc(n, len - 1);
      GeometricStep(NthBits(n, len - 1), Pow2(n), Points(n, len - 1));
    }
  }

  lemma GeometricStep(x: nat, p: nat, total: nat)
    requires p >= 1 && (p - 1) * x == total - 1
    ensures (p - 1) * (x * p + 1) == total * p - 1
  {
    assert (p - 1) * (x * p) == ((p - 1) * x) * p;
  }

  // ---------- The Gray code of a whole index ----------

  /** The Gray code of digit d below digit prev, with the top bit complemented below an even
      digit. */
  ghost function GrayDigit(n: nat, prev: Word, d: Word): (r: Word)
    requires n >= 1
  {
    Xor(Gray(d), TopFlip(n, prev))
  }

  ghost function GrayDigits(n: nat, ds: seq<Word>): (gs: seq<Word>)
    requires n >= 1
    ensures |gs| == |ds|
  {
    seq(|ds|, b requires 0 <= b < |ds| => GrayDigit(n, if b == 0 then 1 else ds[b - 1], ds[b]))
  }

  lemma GrayDigitsBelow(n: nat, ds: seq<Word>)
    requires n >= 1 && AllBelow(n, ds)
    ensures AllBelow(n, GrayDigits(n, ds))
  {
    forall b | 0 <= b < |ds| ensures GrayDigits(n, ds)[b] < Pow2(n) {
      CellBitsBelow(n, Frame(0, 0, if b == 0 then 1 else ds[b - 1]), ds[b]);
    }
  }

  lemma ShrOneJoin(x: Word, c: Word, n: nat)
    requires n >= 1 && c < Pow2(n)
    ensures var low := (if x % 2 == 1 then Pow2(n - 1) else 0) + c / 2;
            low < Pow2(n) && Shr(x * Pow2(n) + c, 1) == Shr(x, 1) * Pow2(n) + low
  {
    hide Pow2;
    var p := Pow2(n - 1);
    assert Pow2(n) == 2 * p by { PowerStep(n); }
    var q, r := x / 2, x % 2;
    assert x * Pow2(n) == 2 * (x * p);
    assert x * p == q * (2 * p) + r * p by {
      assert x == 2 * q + r;
      assert (2 * q + r) * p == 2 * q * p + r * p;
      assert 2 * q * p == q * (2 * p);
    }
    assert r == 0 || r == 1;
    ShrOne(x * Pow2(n) + c);
    ShrOne(x);
  }

  lemma PowerStep(n: nat)
    requires n >= 1
    ensures Pow2(n) == 2 * Pow2(n - 1)
  {
  }

  lemma ShrOne(w: Word)
    ensures Shr(w, 1) == w / 2
  {
  }

  lemma AddIsXorTop(n: nat, c: Word)
    requires n >= 1 && c < Pow2(n)
    ensures Pow2(n - 1) + c / 2 == Xor(c / 2, Pow2(n - 1))
  {
    hide Xor;
    assert c / 2 < Pow2(n - 1);
    AppendBits(1, c / 2, n - 1, Pow2(n - 1) + c / 2);
    Pow2Bits(n - 1);
    BitsBelow(c / 2, n - 1);
    Pow2Bits(0);
    PowerZero();
    BitsEqual(Pow2(n - 1) + c / 2, Xor(c / 2, Pow2(n - 1)));
  }

  /** The digit of the Gray-coded index that has c below the digit prev. */
  lemma GrayLowDigit(n: nat, prev: Word, c: Word, low: Word)
    requires n >= 1 && c < Pow2(n)
    requires low == (if prev % 2 == 0 then Pow2(n - 1) else 0) + Xor(c, 1) / 2
    ensures Xor(c, low) == GrayDigit(n, prev, c)
  {
    hide Pow2, Xor;
    assert Xor(c, 1) / 2 == c / 2 by { HalfXorOne(c); }
    ShrOne(c);
    if prev % 2 == 0 {
      AddIsXorTop(n, c);
      XorAssoc(c, c / 2, Pow2(n - 1));
    } else {
      XorZero(Gray(c));
    }
  }

  lemma HalfXorOne(c: Word)
    ensures Xor(c, 1) / 2 == c / 2
    ensures Xor(c, 1) % 2 != c % 2
  {
    XorZero(c / 2);
  }

  /** `index ^= (index ^ nthbits) >> 1` Gray codes every digit. */
  lemma {:induction false} GrayWord(n: nat, ds: seq<Word>)
    requires n >= 1 && AllBelow(n, ds)
    ensures var v := Value(n, ds);
            Xor(v, Shr(Xor(v, NthBits(n, |ds|)), 1)) == Value(n, GrayDigits(n, ds))
    decreases |ds|
  {
    hide Xor, Shr, Pow2, GrayDigit, GrayDigits, Value, NthBits;
    if ds == [] {
      GrayNothing(n);
    } else {
      var front, c := ds[..|ds| - 1], ds[|ds| - 1];
      var prev := if front == [] then 1 else front[|front| - 1];
      GrayWord(n, front);
      LowBitOfPrefix(n, front);
      GrayWordStep(n, Value(n, front), NthBits(n, |front|), prev, c);
      GraySnoc(n, ds, front, c, prev);
    }
  }

  lemma GrayNothing(n: nat)
    requires n >= 1
    ensures Xor(Value(n, []), Shr(Xor(Value(n, []), NthBits(n, 0)), 1)) == 0 == Value(n, GrayDigits(n, []))
  {
    hide Xor, Shr, Pow2, GrayDigit;
    ZeroBits();
    XorZero(0);
    ShrOne(0);
  }

  /** Words of one more digit. */
  lemma GraySnoc(n: nat, ds: seq<Word>, front: seq<Word>, c: Word, prev: Word)
    requires n >= 1 && ds != [] && front == ds[..|ds| - 1] && c == ds[|ds| - 1]
    requires prev == if front == [] then 1 else front[|front| - 1]
    ensures Value(n, ds) == Value(n, front) * Pow2(n) + c
    ensures NthBits(n, |ds|) == NthBits(n, |front|) * Pow2(n) + 1
    ensures Value(n, GrayDigits(n, ds)) == Value(n, GrayDigits(n, front)) * Pow2(n) + GrayDigit(n, prev, c)
  {
    hide Xor, Shr, Pow2, GrayDigit, GrayDigits, Value, NthBits;
    NthBitsNext(n, |front|);
    ValueSnoc(n, ds);
    GrayDigitsSnoc(n, ds);
    ValueSnoc(n, GrayDigits(n, ds));
  }

  lemma ValueSnoc(n: nat, ds: seq<Word>)
    requires ds != []
    ensures Value(n, ds) == Value(n, ds[..|ds| - 1]) * Pow2(n) + ds[|ds| - 1]
  {
    hide Pow2;
  }

  lemma NthBitsNext(n: nat, len: nat)
    ensures NthBits(n, len + 1) == NthBits(n, len) * Pow2(n) + 1
  {
    hide Pow2;
  }

  lemma GrayDigitsSnoc(n: nat, ds: seq<Word>)
    requires n >= 1 && ds != []
    ensures var gs, k := GrayDigits(n, ds), |ds| - 1;
            gs[..k] == GrayDigits(n, ds[..k]) && gs[k] == GrayDigit(n, if k == 0 then 1 else ds[k - 1], ds[k])
  {
    hide GrayDigit;
  }

  lemma GrayWordStep(n: nat, x: Word, y: Word, prev: Word, c: Word)
    requires n >= 1 && c < Pow2(n)
    requires (Xor(x, y) % 2 == 1) == (prev % 2 == 0)
    ensures var v, w := x * Pow2(n) + c, y * Pow2(n) + 1;
            Xor(v, Shr(Xor(v, w), 1)) == Xor(x, Shr(Xor(x, y), 1)) * Pow2(n) + GrayDigit(n, prev, c)
  {
    hide Xor, Shr, Pow2, GrayDigit;
    assert Pow2(n) > 1 by { Pow2Below(0, n); PowerZero(); }
    XorJoin(x, c, y, 1, n);
    ShrOneJoin(Xor(x, y), Xor(c, 1), n);
    var low := (if Xor(x, y) % 2 == 1 then Pow2(n - 1) else 0) + Xor(c, 1) / 2;
    XorJoin(x, c, Shr(Xor(x, y), 1), low, n);
    GrayLowDigit(n, prev, c, low);
  }

  lemma LowBitOfPrefix(n: nat, front: seq<Word>)
    requires n >= 1
    ensures (Xor(Value(n, front), NthBits(n, |front|)) % 2 == 1) ==
            ((if front == [] then 1 else front[|front| - 1]) % 2 == 0)
  {
    hide Xor, Pow2, Value, NthBits;
    XorParity(Value(n, front), NthBits(n, |front|));
    PrefixParity(n, front);
  }

  lemma PrefixParity(n: nat, front: seq<Word>)
    requires n >= 1
    ensures Value(n, front) % 2 == if front == [] then 0 else front[|front| - 1] % 2
    ensures NthBits(n, |front|) % 2 == if front == [] then 0 else 1
  {
    hide Pow2;
    if front != [] {
      JoinParity(Value(n, front[..|front| - 1]), front[|front| - 1], n);
      JoinParity(NthBits(n, |front| - 1), 1, n);
    }
  }

  lemma JoinParity(x: Word, c: Word, n: nat)
    requires n >= 1
    ensures (x * Pow2(n) + c) % 2 == c % 2
  {
    hide Pow2;
    PowerStep(n);
    var p := Pow2(n - 1);
    assert x * (2 * p) == 2 * (x * p);
  }

  lemma XorParity(a: Word, b: Word)
    ensures Xor(a, b) % 2 == (a + b) % 2
  {
    hide Xor;
    assert Bit(Xor(a, b), 0) == (Bit(a, 0) != Bit(b, 0));
  }

  /** `index ^= nthbits >> 1` leaves the plain Gray code of the index. */
  lemma GrayOfWord(n: nat, ds: seq<Word>)
    requires n >= 1 && AllBelow(n, ds)
    ensures Xor(Value(n, GrayDigits(n, ds)), Shr(NthBits(n, |ds|), 1)) == Gray(Value(n, ds))
  {
    hide Xor, Shr, Value, NthBits, GrayDigits;
    var v, nth := Value(n, ds), NthBits(n, |ds|);
    GrayWord(n, ds);
    BitsEqual(Xor(Value(n, GrayDigits(n, ds)), Shr(nth, 1)), Gray(v));
  }

  // ---------- Undoing x ^ (x >> k) by doubling ----------

  /** One pass with shift m: the distance to the shifted copy doubles. */
  lemma DoubleShift(u: Word, m: nat, w: Word)
    requires w == Xor(u, Shr(u, m))
    ensures Xor(w, Shr(w, m)) == Xor(u, Shr(u, 2 * m))
  {
    hide *;
    var shifted, r, far := Shr(w, m), Xor(w, Shr(w, m)), Shr(u, m + m);
    forall k: nat {:trigger Bit(r, k)} ensures Bit(r, k) == Bit(Xor(u, far), k) {
      assert Bit(r, k) == (Bit(w, k) != Bit(shifted, k));
      assert Bit(w, k) == (Bit(u, k) != Bit(Shr(u, m), k)) && Bit(w, k + m) == (Bit(u, k + m) != Bit(Shr(u, m), k + m));
      assert Bit(Shr(u, m), k) == Bit(u, k + m) && Bit(Shr(u, m), k + m) == Bit(u, k + m + m);
      assert Bit(far, k) == Bit(u, k + (m + m));
    }
    BitsEqual(r, Xor(u, far));
  }

  /** When the shift passes the width nothing is left of the shifted copy. */
  lemma ShiftedOut(u: Word, m: nat, width: nat)
    requires u < Pow2(width) && width <= m
    ensures Xor(u, Shr(u, m)) == u
  {
    hide Xor, Shr;
    BitsBelow(u, width);
    BitsEqual(Xor(u, Shr(u, m)), u);
  }

  /** `for (d = k; d < width; d *= 2) w ^= w >> d;` recovers u from u ^ (u >> k). */
  method UndoXorShift(width: nat, k: nat, w: Word, ghost u: Word) returns (r: Word)
    requires k >= 1 && u < Pow2(width) && w == Xor(u, Shr(u, k))
    ensures r == u
  {
    hide Xor, Shr, Pow2;
    r := w;
    var d := k;
    while d < width
      invariant d >= 1 && r == Xor(u, Shr(u, d))
      decreases if d < width then width - d else 0
    {
      DoubleShift(u, d, r);
      r := Xor(r, Shr(r, d));
      d := d * 2;
    }
    ShiftedOut(u, d, width);
  }

  // ---------- adjust_rotation ----------

  /** -w in a word of n bits. */
  function Negate(w: Word, n: nat): (r: Word)
    requires w < Pow2(n)
  {
    if w == 0 then 0 else Pow2(n) - w
  }

  lemma {:induction false} NegateBits(w: Word, n: nat, x: Word)
    requires 0 < w < Pow2(n) && x == Pow2(n) - w
    ensures forall k: nat {:trigger Bit(x, k)} ::
              k < n ==> Bit(x, k) == (k == Ffs(w) - 1 || (k > Ffs(w) - 1 && !Bit(w, k)))
    decreases n
  {
    var p := Pow2(n - 1);
    if w % 2 == 1 {
      var y := p - 1 - w / 2;
      DoubleBits(y, 1, x);
      DoubleBits(w / 2, 1, w);
      ComplementBits(w / 2, n - 1, y);
    } else {
      var y := p - w / 2;
      DoubleBits(y, 0, x);
      DoubleBits(w / 2, 0, w);
      NegateBits(w / 2, n - 1, y);
    }
  }

  lemma {:induction false} ComplementBits(w: Word, n: nat, x: Word)
    requires w < Pow2(n) && x == Pow2(n) - 1 - w
    ensures forall k: nat {:trigger Bit(x, k)} :: k < n ==> Bit(x, k) == !Bit(w, k)
    decreases n
  {
    if n > 0 {
      var y := Pow2(n - 1) - 1 - w / 2;
      ComplementBits(w / 2, n - 1, y);
      DoubleBits(y, 1 - w % 2, x);
      DoubleBits(w / 2, w % 2, w);
    }
  }

  /** `w & -w & mask` keeps the lowest one bit of w, if mask has it. */
  lemma LowestBit(w: Word, n: nat, mask: Word)
    requires w < Pow2(n)
    ensures And(w, And(Negate(w, n), mask)) ==
            if w > 0 && Bit(mask, Ffs(w) - 1) then Pow2(Ffs(w) - 1) else 0
  {
    hide Pow2, And;
    ZeroBits();
    var r := And(w, And(Negate(w, n), mask));
    if w == 0 {
      BitsEqual(r, 0);
    } else {
      NegateBits(w, n, Negate(w, n));
      BitsBelow(w, n);
      Pow2Bits(Ffs(w) - 1);
      BitsEqual(r, if Bit(mask, Ffs(w) - 1) then Pow2(Ffs(w) - 1) else 0);
    }
  }

  lemma TurnByLowestBit(n: nat, bits: Word)
    requires n >= 1 && bits < Pow2(n)
    ensures And(bits, And(Negate(bits, n), Shr(Ones(n), 1))) ==
            if Turn(n, bits) == 0 then 0 else Pow2(Turn(n, bits) - 1)
  {
    hide Pow2, And, Shr;
    var mask := Shr(Ones(n), 1);
    var masked := And(bits, mask);
    LowestBit(bits, n, mask);
    ZeroBits();
    if bits > 0 && Bit(mask, Ffs(bits) - 1) {
      FfsIs(masked, Ffs(bits) - 1);
    } else {
      BitsEqual(masked, 0);
    }
  }

  /** The macro adjust_rotation. */
  method AdjustRotation(rotation: nat, nDims: nat, bits: Word) returns (r: nat)
    requires rotation < nDims && bits < Pow2(nDims)
    ensures r == NextRot(nDims, rotation, bits)
  {
    hide And, Shr;
    var nd1Ones := Shr(Ones(nDims), 1);
    var b := And(bits, And(Negate(bits, nDims), nd1Ones));
    TurnByLowestBit(nDims, bits);
    ghost var left := Turn(nDims, bits);
    r := rotation;
    while b != 0
      invariant b == if left == 0 then 0 else Pow2(left - 1)
      invariant r + left == rotation + Turn(nDims, bits)
      decreases left
    {
      ShrOne(b);
      b := Shr(b, 1);
      r := r + 1;
      left := left - 1;
    }
    r := r + 1;
    if r >= nDims {
      r := r - nDims;
    }
  }
}
