/** Transposing a bit matrix inside one word, in logarithmically many passes.

    Bit b of row d of the input stands at d*nBits + b; in the output it stands at
    b*nDims + d.  The fast algorithm repeatedly halves fields of bits: a field starting at
    bit offset beta and w bits wide stands at position nDims*beta and holds the same w bits of
    all rows, row after row.
 */
module BitTranspose {
  import opened Words

  /** Bit col of the given row of a matrix packed with `width` bits a row. */
  predicate At(w: Word, row: nat, col: nat, width: nat) {
    Bit(w, row * width + col)
  }

  /** The reference definition: out is the transpose of src, and nothing else. */
  ghost predicate IsTranspose(nDims: nat, nBits: nat, src: Word, out: Word) {
    && out < Points(nDims, nBits)
    && forall d: nat, b: nat {:trigger At(out, b, d, nDims)} {:trigger At(src, d, b, nBits)} ::
         d < nDims && b < nBits ==> At(out, b, d, nDims) == At(src, d, b, nBits)
  }

  /** Every position of a matrix with rows of `width` bits is some row and column. */
  lemma Locate(k: nat, width: nat, rows: nat) returns (row: nat, col: nat)
    requires k < Times(width, rows)
    ensures row < rows && col < width && k == row * width + col
  {
    TimesIs(width, rows);
    MulPositive(width, rows);
    row, col := k / width, k % width;
    assert k == row * width + col;
    if row >= rows { MulMono(width, rows, row); }
  }

  lemma MulPositive(a: nat, b: nat)
    requires a * b > 0
    ensures a > 0
  {
  }

  /** There is only one transpose. */
  lemma TransposeUnique(nDims: nat, nBits: nat, src: Word, out: Word, out': Word)
    requires IsTranspose(nDims, nBits, src, out) && IsTranspose(nDims, nBits, src, out')
    ensures out == out'
  {
    hide Bit, Pow2;
    forall k: nat | k < Times(nDims, nBits) ensures Bit(out, k) == Bit(out', k) {
      var b, d := Locate(k, nDims, nBits);
      assert At(out, b, d, nDims) == At(out', b, d, nDims);
    }
    BitsEqualBelow(out, out', Times(nDims, nBits));
  }

  /** Transposing back: the two calls with exchanged sizes undo each other. */
  lemma TransposeBack(nDims: nat, nBits: nat, src: Word, out: Word)
    requires src < Points(nDims, nBits) && IsTranspose(nDims, nBits, src, out)
    ensures IsTranspose(nBits, nDims, out, src)
  {
    PointsSwap(nDims, nBits);
  }

  // ---------- Words described field by field ----------

  function Pos(n: nat, beta: nat, off: nat): (k: nat)
  {
    Times(n, beta) + off
  }

  predicate InField(n: nat, beta: nat, limit: nat, k: nat) {
    Times(n, beta) <= k < Times(n, beta) + limit
  }

  ghost predicate Only(w: Word, n: nat, starts: set<nat>, limit: nat) {
    forall k: nat {:trigger Bit(w, k)} :: Bit(w, k) ==> exists beta :: beta in starts && InField(n, beta, limit, k)
  }

  /** The first `limit` bits of every field are one, all others zero. */
  ghost predicate MaskForm(w: Word, n: nat, starts: set<nat>, limit: nat) {
    && Only(w, n, starts, limit)
    && forall beta, off: nat {:trigger Pos(n, beta, off)} :: beta in starts && off < limit ==> Bit(w, Pos(n, beta, off))
  }

  /** Every field holds `limit` bits of row d, all other bits are zero. */
  ghost predicate RowForm(w: Word, n: nat, starts: set<nat>, limit: nat, src: Word, nBits: nat, d: nat) {
    && Only(w, n, starts, limit)
    && forall beta, off: nat {:trigger Pos(n, beta, off)} :: beta in starts && off < limit ==>
         Bit(w, Pos(n, beta, off)) == At(src, d, beta + off, nBits)
  }

  function Offset(width: nat, d: nat, x: nat): (off: nat)
  {
    Times(width, d) + x
  }

  /** Every field holds `width` bits of each of the rows below dmax, all other bits are zero. */
  ghost predicate FullForm(w: Word, n: nat, starts: set<nat>, width: nat, src: Word, nBits: nat, dmax: nat) {
    && Only(w, n, starts, Times(width, dmax))
    && forall beta, d: nat, x: nat {:trigger Pos(n, beta, Offset(width, d, x))} ::
         beta in starts && d < dmax && x < width ==>
           Bit(w, Pos(n, beta, Offset(width, d, x))) == At(src, d, beta + x, nBits)
  }

  ghost predicate Spaced(starts: set<nat>, width: nat) {
    forall a, b :: a in starts && b in starts && a < b ==> a + width <= b
  }

  lemma PosMono(n: nat, a: nat, b: nat, width: nat)
    requires a + width <= b
    ensures Times(n, a) + Times(n, width) <= Times(n, b)
  {
    hide Times;
    TimesMono(n, a + width, b);
    TimesAdd(n, a, width);
  }

  /** A position lies in at most one field. */
  lemma FieldUnique(n: nat, starts: set<nat>, width: nat, a: nat, b: nat, k: nat)
    requires Spaced(starts, width) && a in starts && b in starts
    requires InField(n, a, Times(n, width), k) && InField(n, b, Times(n, width), k)
    ensures a == b
  {
    hide Times;
    if a < b { PosMono(n, a, b, width); }
    if b < a { PosMono(n, b, a, width); }
  }

  /** A zero word holds no rows at all. */
  lemma EmptyForm(n: nat, starts: set<nat>, width: nat, src: Word, nBits: nat)
    ensures FullForm(0, n, starts, width, src, nBits, 0)
  {
    ZeroBits();
  }

  // ---------- One pass ----------

  /** `in = inCoords & inMask`, after d rows have been shifted out. */
  lemma ExtractRow(coords: Word, mask: Word, n: nat, starts: set<nat>, width: nat, src: Word, nBits: nat, d: nat)
    requires d < n
    requires FullForm(coords, n, starts, width, src, nBits, n) && MaskForm(mask, n, starts, width)
    ensures RowForm(And(Shr(coords, Times(width, d)), mask), n, starts, width, src, nBits, d)
  {
    hide And, Shr, Bit, At, Times;
    var r := And(Shr(coords, Times(width, d)), mask);
    forall beta, off: nat {:trigger Pos(n, beta, off)} | beta in starts && off < width
      ensures Bit(r, Pos(n, beta, off)) == At(src, d, beta + off, nBits)
    {
      assert Pos(n, beta, off) + Times(width, d) == Pos(n, beta, Offset(width, d, off));
    }
  }

  /** The starts of the half fields. */
  ghost function Halves(starts: set<nat>, u: nat): (r: set<nat>)
  {
    starts + set beta | beta in starts :: beta + u
  }

  lemma HalvesSpaced(starts: set<nat>, width: nat, u: nat)
    requires Spaced(starts, width) && 2 * u <= width
    ensures Spaced(Halves(starts, u), u)
  {
  }

  /** `in = (in | (in << shiftAmt)) & utMask`: the upper half of every field moves to a field of
      its own, n*u positions further up. */
  lemma SplitRow(w: Word, mask: Word, n: nat, starts: set<nat>, width: nat, u: nat, src: Word, nBits: nat, d: nat)
    requires n >= 1 && 2 * u <= width && Spaced(starts, width)
    requires RowForm(w, n, starts, 2 * u, src, nBits, d) && MaskForm(mask, n, Halves(starts, u), u)
    ensures RowForm(And(Or(w, Shl(w, Times(u, n - 1))), mask), n, Halves(starts, u), u, src, nBits, d)
  {
    hide And, Or, Shl, Bit, At, Times, Pos, InField;
    var r := And(Or(w, Shl(w, Times(u, n - 1))), mask);
    forall beta', y: nat {:trigger Pos(n, beta', y)} | beta' in Halves(starts, u) && y < u
      ensures Bit(r, Pos(n, beta', y)) == At(src, d, beta' + y, nBits)
    {
      assert Bit(mask, Pos(n, beta', y));
      if beta' in starts {
        LowHalf(w, n, starts, width, u, src, nBits, d, beta', y);
      } else {
        HighHalf(w, n, starts, width, u, src, nBits, d, beta' - u, y);
      }
    }
  }

  /** How far apart fields are, in terms of the shift s = (n-1)*u. */
  lemma FieldGap(n: nat, width: nat, u: nat)
    requires n >= 1 && 2 * u <= width
    ensures Times(n, u) == Times(u, n - 1) + u
    ensures Times(n, width) >= 2 * Times(n, u)
    ensures Times(u, n - 1) == 0 || Times(u, n - 1) >= u
  {
    TimesSwap(n, u);
    TimesAdd(u, n - 1, 1);
    TimesAdd(n, u, u);
    TimesMono(n, u + u, width);
    if n > 1 { TimesMono(u, 1, n - 1); }
  }

  lemma LowHalf(w: Word, n: nat, starts: set<nat>, width: nat, u: nat, src: Word, nBits: nat, d: nat, beta: nat, y: nat)
    requires n >= 1 && 2 * u <= width && Spaced(starts, width)
    requires RowForm(w, n, starts, 2 * u, src, nBits, d) && beta in starts && y < u
    ensures Bit(Or(w, Shl(w, Times(u, n - 1))), Pos(n, beta, y)) == At(src, d, beta + y, nBits)
  {
    hide Or, Shl, Bit, At, Times;
    var k, s := Pos(n, beta, y), Times(u, n - 1);
    FieldGap(n, width, u);
    if k >= s && Bit(w, k - s) {
      var a :| a in starts && InField(n, a, 2 * u, k - s);
      if a < beta { PosMono(n, a, beta, width); }
      if beta < a { PosMono(n, beta, a, width); }
      assert a == beta && s == 0;
    }
  }

  lemma HighHalf(w: Word, n: nat, starts: set<nat>, width: nat, u: nat, src: Word, nBits: nat, d: nat, beta: nat,
                 y: nat)
    requires n >= 1 && 2 * u <= width && Spaced(starts, width)
    requires RowForm(w, n, starts, 2 * u, src, nBits, d) && beta in starts && y < u
    ensures Bit(Or(w, Shl(w, Times(u, n - 1))), Pos(n, beta + u, y)) == At(src, d, beta + u + y, nBits)
  {
    hide Or, Shl, Bit, At, Times;
    var k, s := Pos(n, beta + u, y), Times(u, n - 1);
    FieldGap(n, width, u);
    TimesAdd(n, beta, u);
    assert k - s == Pos(n, beta, u + y);
    if Bit(w, k) {
      var a :| a in starts && InField(n, a, 2 * u, k);
      if a < beta { PosMono(n, a, beta, width); }
      if beta < a { PosMono(n, beta, a, width); }
      assert a == beta && s == 0;
    }
  }

  /** `utCoords |= in << (d*utB)` */
  lemma PlaceRow(ut: Word, w: Word, n: nat, starts: set<nat>, u: nat, src: Word, nBits: nat, d: nat)
    requires d < n && Spaced(starts, u)
    requires FullForm(ut, n, starts, u, src, nBits, d) && RowForm(w, n, starts, u, src, nBits, d)
    ensures FullForm(Or(ut, Shl(w, Times(u, d))), n, starts, u, src, nBits, d + 1)
  {
    hide Or, Shl, Bit, At, Times;
    var s := Times(u, d);
    var r := Or(ut, Shl(w, s));
    TimesAdd(u, d, 1);
    TimesOne(u);
    forall k: nat {:trigger Bit(r, k)} | Bit(r, k)
      ensures exists beta :: beta in starts && InField(n, beta, Times(u, d + 1), k)
    {
      if Bit(ut, k) {
        var beta :| beta in starts && InField(n, beta, s, k);
        assert InField(n, beta, Times(u, d + 1), k);
      } else {
        var beta :| beta in starts && InField(n, beta, u, k - s);
        assert InField(n, beta, Times(u, d + 1), k);
      }
    }
    forall beta, d': nat, x: nat {:trigger Pos(n, beta, Offset(u, d', x))} | beta in starts && d' < d + 1 && x < u
      ensures Bit(r, Pos(n, beta, Offset(u, d', x))) == At(src, d', beta + x, nBits)
    {
      PlacedBit(ut, w, n, starts, u, src, nBits, d, beta, d', x);
    }
  }

  lemma PlacedBit(ut: Word, w: Word, n: nat, starts: set<nat>, u: nat, src: Word, nBits: nat, d: nat, beta: nat,
                  d': nat, x: nat)
    requires d < n && Spaced(starts, u)
    requires FullForm(ut, n, starts, u, src, nBits, d) && RowForm(w, n, starts, u, src, nBits, d)
    requires beta in starts && d' < d + 1 && x < u
    ensures Bit(Or(ut, Shl(w, Times(u, d))), Pos(n, beta, Offset(u, d', x))) == At(src, d', beta + x, nBits)
  {
    hide Or, Shl, Bit, At, Times;
    var k, s := Pos(n, beta, Offset(u, d', x)), Times(u, d);
    TimesAdd(u, d, 1);
    TimesOne(u);
    TimesMono(u, d + 1, n);
    TimesSwap(u, n);
    if d' < d {
      TimesMono(u, d' + 1, d);
      TimesAdd(u, d', 1);
      if k >= s && Bit(w, k - s) {
        var a :| a in starts && InField(n, a, u, k - s);
        FieldUnique(n, starts, u, a, beta, k);
        assert false;
      }
    } else {
      assert k - s == Pos(n, beta, x);
      if Bit(ut, k) {
        var a :| a in starts && InField(n, a, s, k);
        FieldUnique(n, starts, u, a, beta, k);
        assert false;
      }
    }
  }

  // ---------- Masks ----------

  /** The next field ends: every field and, n*u positions further up, its upper half. */
  lemma HalveEnds(ends: Word, n: nat, starts: set<nat>, u: nat)
    requires MaskForm(ends, n, starts, 1)
    ensures MaskForm(Or(ends, Shl(ends, Times(n, u))), n, Halves(starts, u), 1)
  {
    hide Or, Shl, Bit, Times;
    var r := Or(ends, Shl(ends, Times(n, u)));
    forall k: nat {:trigger Bit(r, k)} | Bit(r, k)
      ensures exists beta :: beta in Halves(starts, u) && InField(n, beta, 1, k)
    {
      if !Bit(ends, k) {
        var beta :| beta in starts && InField(n, beta, 1, k - Times(n, u));
        TimesAdd(n, beta, u);
        assert InField(n, beta + u, 1, k);
      }
    }
    forall beta', off: nat {:trigger Pos(n, beta', off)} | beta' in Halves(starts, u) && off < 1
      ensures Bit(r, Pos(n, beta', off))
    {
      if beta' !in starts {
        TimesAdd(n, beta' - u, u);
        assert Bit(ends, Pos(n, beta' - u, 0));
      }
    }
  }

  predicate Run(p: nat, u: nat, k: nat) {
    p <= k < p + u
  }

  /** The bits of m: a run of u ones from every one of f upwards. */
  ghost predicate Runs(f: Word, u: nat, m: Word) {
    && (forall k: nat {:trigger Bit(m, k)} :: Bit(m, k) ==> exists p: nat :: Bit(f, p) && Run(p, u, k))
    && (forall p: nat, k: nat {:trigger Bit(f, p), Run(p, u, k)} :: Bit(f, p) && Run(p, u, k) ==> Bit(m, k))
  }

  ghost predicate SpacedBits(f: Word, u: nat) {
    forall a: nat, b: nat :: Bit(f, a) && Bit(f, b) && a < b ==> a + u <= b
  }

  /** (f << u) - f turns every one of f, spaced u apart, into a run of u ones. */
  lemma {:induction false} RunsOfOnes(f: Word, u: nat, m: Word)
    requires u >= 1 && m == f * Pow2(u) - f && SpacedBits(f, u)
    ensures Runs(f, u, m)
    decreases f, 1
  {
    hide Pow2, Bit;
    if f == 0 {
      ZeroBits();
    } else if f % 2 == 0 {
      EvenRuns(f, u, m);
    } else {
      OddRuns(f, u, m);
    }
  }

  lemma {:induction false} EvenRuns(f: Word, u: nat, m: Word)
    requires u >= 1 && m == f * Pow2(u) - f && SpacedBits(f, u) && f > 0 && f % 2 == 0
    ensures Runs(f, u, m)
    decreases f, 0
  {
    hide Pow2, Bit;
    var g, m' := f / 2, f / 2 * Pow2(u) - f / 2;
    assert f * Pow2(u) == 2 * (g * Pow2(u));
    DoubleBits(g, 0, f);
    forall a: nat, b: nat | Bit(g, a) && Bit(g, b) && a < b ensures a + u <= b {
      assert Bit(f, a + 1) && Bit(f, b + 1);
    }
    MulMono(g, 1, Pow2(u));
    RunsOfOnes(g, u, m');
    DoubleBits(m', 0, m);
    EvenRunsBits(g, f, u, m', m);
  }

  lemma EvenRunsBits(g: Word, f: Word, u: nat, m': Word, m: Word)
    requires f == 2 * g && m == 2 * m' && Runs(g, u, m')
    ensures Runs(f, u, m)
  {
    hide Bit;
    DoubleBits(g, 0, f);
    DoubleBits(m', 0, m);
    forall k: nat {:trigger Bit(m, k)} | Bit(m, k) ensures exists p: nat :: Bit(f, p) && Run(p, u, k) {
      var p: nat :| Bit(g, p) && Run(p, u, k - 1);
      assert Bit(f, p + 1) && Run(p + 1, u, k);
    }
    forall p: nat, k: nat {:trigger Bit(f, p), Run(p, u, k)} | Bit(f, p) && Run(p, u, k) ensures Bit(m, k) {
      assert Bit(g, p - 1) && Run(p - 1, u, k - 1);
    }
  }

  lemma {:induction false} OddRuns(f: Word, u: nat, m: Word)
    requires u >= 1 && m == f * Pow2(u) - f && SpacedBits(f, u) && f % 2 == 1
    ensures Runs(f, u, m)
    decreases f, 0
  {
    hide Pow2, Bit, And, Shr, Ones;
    var h, low, p2 := Shr(f, u), And(f, Ones(u)), Pow2(u);
    JoinWord(f, u);
    DoubleBits(f / 2, 1, f);
    LowIsOne(f, u, low);
    ShrSmaller(f, u);
    forall a: nat, b: nat | Bit(h, a) && Bit(h, b) && a < b ensures a + u <= b {
      assert Bit(f, a + u) && Bit(f, b + u);
    }
    MulMono(h, 1, p2);
    var m' := h * p2 - h;
    RunsOfOnes(h, u, m');
    OddRunsArith(h, p2, f, m', m);
    AppendBits(m', p2 - 1, u, m);
    OddRunsBits(h, f, u, m', m);
  }

  lemma OddRunsArith(h: nat, p: nat, f: nat, m': int, m: int)
    requires f == h * p + 1 && m' == h * p - h && m == f * p - f
    ensures m == m' * p + (p - 1)
  {
    calc {
      m' * p + (p - 1);
      (h * p - h) * p + (p - 1);
      (h * p) * p - h * p + (p - 1);
      (h * p + 1) * p - (h * p + 1);
    }
  }

  lemma OddRunsBits(h: Word, f: Word, u: nat, m': Word, m: Word)
    requires u >= 1 && h == Shr(f, u) && Bit(f, 0) && SpacedBits(f, u) && Runs(h, u, m')
    requires m == m' * Pow2(u) + (Pow2(u) - 1)
    ensures Runs(f, u, m)
  {
    hide Bit, Shr, Pow2;
    AppendBits(m', Pow2(u) - 1, u, m);
    OnesBits(u, Pow2(u) - 1);
    forall k: nat {:trigger Bit(m, k)} | Bit(m, k) ensures exists p: nat :: Bit(f, p) && Run(p, u, k) {
      if k < u {
        assert Run(0, u, k);
      } else {
        var p: nat :| Bit(h, p) && Run(p, u, k - u);
        assert Bit(f, p + u) && Run(p + u, u, k);
      }
    }
    forall p: nat, k: nat {:trigger Bit(f, p), Run(p, u, k)} | Bit(f, p) && Run(p, u, k) ensures Bit(m, k) {
      if k >= u {
        assert p == 0 || p >= u;
        assert Bit(h, p - u) && Run(p - u, u, k - u);
      }
    }
  }

  lemma LowIsOne(f: Word, u: nat, low: Word)
    requires u >= 1 && low == And(f, Ones(u)) && Bit(f, 0) && SpacedBits(f, u)
    ensures low == 1
  {
    hide And, Ones;
    DoubleBits(0, 1, 1);
    ZeroBits();
    BitsEqual(low, 1);
  }

  lemma {:induction false} ShrSmaller(f: Word, u: nat)
    requires u >= 1 && f >= 1
    ensures Shr(f, u) < f
  {
    if u > 1 && f / 2 >= 1 { ShrSmaller(f / 2, u - 1); }
    if f / 2 == 0 { ZeroBits(); BitsEqual(Shr(0, u - 1), 0); }
  }

  /** The mask `(fieldEnds << u) - fieldEnds` covers u bits of every field. */
  lemma FieldMask(ends: Word, n: nat, starts: set<nat>, u: nat)
    requires n >= 1 && u >= 1 && MaskForm(ends, n, starts, 1) && Spaced(starts, u)
    ensures Shl(ends, u) >= ends
    ensures MaskForm(Shl(ends, u) - ends, n, starts, u)
  {
    hide Shl, Bit, Pow2, Times;
    ShlPow2(ends, u);
    FieldEndsSpaced(ends, n, starts, u);
    MulMono(ends, 1, Pow2(u));
    var m := Shl(ends, u) - ends;
    RunsOfOnes(ends, u, m);
    forall k: nat {:trigger Bit(m, k)} | Bit(m, k)
      ensures exists beta :: beta in starts && InField(n, beta, u, k)
    {
      var p: nat :| Bit(ends, p) && Run(p, u, k);
      var beta :| beta in starts && InField(n, beta, 1, p);
      assert InField(n, beta, u, k);
    }
    forall beta, off: nat {:trigger Pos(n, beta, off)} | beta in starts && off < u
      ensures Bit(m, Pos(n, beta, off))
    {
      assert Bit(ends, Pos(n, beta, 0)) && Run(Pos(n, beta, 0), u, Pos(n, beta, off));
    }
  }

  lemma FieldEndsSpaced(ends: Word, n: nat, starts: set<nat>, u: nat)
    requires n >= 1 && MaskForm(ends, n, starts, 1) && Spaced(starts, u)
    ensures SpacedBits(ends, u)
  {
    hide Bit, Times;
    forall a: nat, b: nat | Bit(ends, a) && Bit(ends, b) && a < b ensures a + u <= b {
      var x :| x in starts && InField(n, x, 1, a);
      var y :| y in starts && InField(n, y, 1, b);
      EndsApart(n, starts, u, x, y);
    }
  }

  lemma EndsApart(n: nat, starts: set<nat>, u: nat, x: nat, y: nat)
    requires n >= 1 && Spaced(starts, u) && x in starts && y in starts
    requires Times(n, x) < Times(n, y)
    ensures Times(n, x) + u <= Times(n, y)
  {
    hide Times;
    if y < x { PosMono(n, y, x, u); }
    if x < y { PosMono(n, x, y, u); }
    TimesSwap(n, u);
    TimesMono(u, 1, n);
    TimesOne(u);
  }

  // ---------- Fields of odd width ----------

  /** The positions of the top bits of fields that are 2*u + 1 wide. */
  ghost function Tops(starts: set<nat>, u: nat): (r: set<nat>)
  {
    set beta | beta in starts :: beta + 2 * u
  }

  /** `in &= ~inFieldStarts` */
  lemma DropTop(w: Word, ends: Word, n: nat, starts: set<nat>, u: nat, src: Word, nBits: nat, d: nat)
    requires n >= 1 && Spaced(starts, 2 * u + 1) && MaskForm(ends, n, starts, 1)
    requires RowForm(w, n, starts, 2 * u + 1, src, nBits, d)
    ensures RowForm(AndNot(w, Shl(ends, 2 * u)), n, starts, 2 * u, src, nBits, d)
  {
    hide AndNot, Shl, Bit, At, Times, Spaced;
    var r := AndNot(w, Shl(ends, 2 * u));
    forall k: nat {:trigger Bit(r, k)} | Bit(r, k)
      ensures exists beta :: beta in starts && InField(n, beta, 2 * u, k)
    {
      var beta :| beta in starts && InField(n, beta, 2 * u + 1, k);
      assert Bit(ends, Pos(n, beta, 0));
      assert InField(n, beta, 2 * u, k);
    }
    forall beta, off: nat {:trigger Pos(n, beta, off)} | beta in starts && off < 2 * u
      ensures Bit(r, Pos(n, beta, off)) == At(src, d, beta + off, nBits)
    {
      NotTop(ends, n, starts, u, beta, off);
    }
  }

  lemma NotTop(ends: Word, n: nat, starts: set<nat>, u: nat, beta: nat, off: nat)
    requires n >= 1 && Spaced(starts, 2 * u + 1) && MaskForm(ends, n, starts, 1)
    requires beta in starts && off < 2 * u
    ensures !Bit(Shl(ends, 2 * u), Pos(n, beta, off))
  {
    hide Shl, Bit, Times;
    var k := Pos(n, beta, off);
    if k >= 2 * u && Bit(ends, k - 2 * u) {
      var a :| a in starts && InField(n, a, 1, k - 2 * u);
      EndsApart(n, starts, 2 * u + 1, a, beta);
      assert false;
    }
  }

  /** `(in & inFieldStarts) << 2*shiftAmt`: the top bits of row d in their final columns. */
  lemma TopRow(w: Word, ends: Word, n: nat, starts: set<nat>, u: nat, src: Word, nBits: nat, d: nat)
    requires n >= 1 && MaskForm(ends, n, starts, 1) && RowForm(w, n, starts, 2 * u + 1, src, nBits, d)
    ensures RowForm(Shl(And(w, Shl(ends, 2 * u)), 2 * Times(u, n - 1)), n, Tops(starts, u), 1, src, nBits, d)
  {
    hide And, Shl, Bit, At, Times;
    var r := Shl(And(w, Shl(ends, 2 * u)), 2 * Times(u, n - 1));
    forall k: nat {:trigger Bit(r, k)} | Bit(r, k)
      ensures exists top :: top in Tops(starts, u) && InField(n, top, 1, k)
    {
      TopOnly(w, ends, n, starts, u, k);
    }
    forall top, off: nat {:trigger Pos(n, top, off)} | top in Tops(starts, u) && off < 1
      ensures Bit(r, Pos(n, top, off)) == At(src, d, top + off, nBits)
    {
      TopBit(w, ends, n, starts, u, src, nBits, d, top - 2 * u);
    }
  }

  lemma TopOnly(w: Word, ends: Word, n: nat, starts: set<nat>, u: nat, k: nat)
    requires n >= 1 && MaskForm(ends, n, starts, 1)
    requires Bit(Shl(And(w, Shl(ends, 2 * u)), 2 * Times(u, n - 1)), k)
    ensures exists top :: top in Tops(starts, u) && InField(n, top, 1, k)
  {
    hide And, Shl, Bit, At, Times;
    var beta :| beta in starts && InField(n, beta, 1, k - 2 * Times(u, n - 1) - 2 * u);
    TopPos(n, u, beta);
    assert beta + 2 * u in Tops(starts, u) && InField(n, beta + 2 * u, 1, k);
  }

  lemma TopBit(w: Word, ends: Word, n: nat, starts: set<nat>, u: nat, src: Word, nBits: nat, d: nat, beta: nat)
    requires n >= 1 && MaskForm(ends, n, starts, 1) && RowForm(w, n, starts, 2 * u + 1, src, nBits, d)
    requires beta in starts
    ensures Bit(Shl(And(w, Shl(ends, 2 * u)), 2 * Times(u, n - 1)), Pos(n, beta + 2 * u, 0)) ==
            At(src, d, beta + 2 * u, nBits)
  {
    hide And, Shl, Bit, At, Times;
    TopPos(n, u, beta);
    assert Bit(ends, Pos(n, beta, 0));
    assert Bit(w, Pos(n, beta, 2 * u)) == At(src, d, beta + 2 * u, nBits);
  }

  lemma TopPos(n: nat, u: nat, beta: nat)
    requires n >= 1
    ensures Times(n, beta + 2 * u) == Times(n, beta) + 2 * u + 2 * Times(u, n - 1)
  {
    hide Times;
    FieldGap(n, 2 * u, u);
    TimesAdd(n, u, u);
    TimesAdd(n, beta, 2 * u);
  }

  /** Two words holding finished columns at different places. */
  lemma MergeColumns(x: Word, y: Word, n: nat, xs: set<nat>, ys: set<nat>, src: Word, nBits: nat)
    requires xs !! ys
    requires FullForm(x, n, xs, 1, src, nBits, n) && FullForm(y, n, ys, 1, src, nBits, n)
    ensures FullForm(Or(x, y), n, xs + ys, 1, src, nBits, n)
  {
    hide Or, Bit, At, Times;
    var r := Or(x, y);
    TimesOne(n);
    TimesSwap(1, n);
    forall k: nat {:trigger Bit(r, k)} | Bit(r, k)
      ensures exists beta :: beta in xs + ys && InField(n, beta, n, k)
    {
      if Bit(x, k) {
        var beta :| beta in xs && InField(n, beta, n, k);
        assert beta in xs + ys;
      } else {
        var beta :| beta in ys && InField(n, beta, n, k);
        assert beta in xs + ys;
      }
    }
    forall beta, d: nat, c: nat {:trigger Pos(n, beta, Offset(1, d, c))} | beta in xs + ys && d < n && c < 1
      ensures Bit(r, Pos(n, beta, Offset(1, d, c))) == At(src, d, beta + c, nBits)
    {
      var k := Pos(n, beta, Offset(1, d, c));
      TimesOne(d);
      if beta in xs && Bit(y, k) {
        var a :| a in ys && InField(n, a, n, k);
        FieldUnique(n, xs + ys, 1, a, beta, k);
      }
      if beta in ys && Bit(x, k) {
        var a :| a in xs && InField(n, a, n, k);
        FieldUnique(n, xs + ys, 1, a, beta, k);
      }
    }
  }

  /** Columns 0..nBits all in place: the transpose. */
  lemma AllColumns(w: Word, n: nat, cols: set<nat>, src: Word, nBits: nat)
    requires FullForm(w, n, cols, 1, src, nBits, n)
    requires forall b: nat :: b in cols <==> b < nBits
    ensures IsTranspose(n, nBits, src, w)
  {
    hide Bit, Pow2, Times;
    var total := Times(n, nBits);
    TimesOne(n);
    forall k: nat | k >= total ensures !Bit(w, k) {
      if Bit(w, k) {
        var b :| b in cols && InField(n, b, Times(1, n), k);
        ColumnEnds(n, b, nBits);
      }
    }
    BelowByBits(w, total);
    forall d: nat, b: nat | d < n && b < nBits ensures At(w, b, d, n) == At(src, d, b, nBits) {
      ColumnPos(n, b, d);
      assert Bit(w, Pos(n, b, Offset(1, d, 0))) == At(src, d, b, nBits);
    }
  }

  lemma ColumnEnds(n: nat, b: nat, nBits: nat)
    requires b < nBits
    ensures Times(n, b) + Times(1, n) <= Times(n, nBits)
  {
    TimesOne(n);
    TimesAdd(n, b, 1);
    TimesMono(n, b + 1, nBits);
  }

  lemma ColumnPos(n: nat, b: nat, d: nat)
    ensures Pos(n, b, Offset(1, d, 0)) == b * n + d
  {
    TimesIs(n, b);
    TimesOne(d);
  }

  // ---------- Which columns are where ----------

  /** Every column is either finished or in exactly one field. */
  ghost predicate Cover(starts: set<nat>, width: nat, done: set<nat>, nBits: nat) {
    && (forall b :: b in done ==> b < nBits)
    && (forall beta :: beta in starts ==> beta + width <= nBits)
    && (forall b: nat :: b < nBits && b !in done ==> exists beta :: beta in starts && Run(beta, width, b))
    && (forall b, beta :: b in done && beta in starts ==> !Run(beta, width, b))
  }

  lemma CoverHalves(starts: set<nat>, width: nat, u: nat, done: set<nat>, nBits: nat)
    requires Cover(starts, width, done, nBits) && (width == 2 * u || width == 2 * u + 1) && Spaced(starts, width)
    ensures var done' := if width == 2 * u then done else done + Tops(starts, u);
            Cover(Halves(starts, u), u, done', nBits)
    ensures width == 2 * u + 1 ==> done !! Tops(starts, u)
  {
    var done' := if width == 2 * u then done else done + Tops(starts, u);
    HalvesIn(starts, u);
    TopsIn(starts, u);
    hide Halves, Tops;
    forall b: nat | b < nBits && b !in done'
      ensures exists beta :: beta in Halves(starts, u) && Run(beta, u, b)
    {
      var beta :| beta in starts && Run(beta, width, b);
      InOneHalf(starts, width, u, beta, b);
    }
    forall b, beta' | b in done' && beta' in Halves(starts, u) ensures !Run(beta', u, b) {
      HalfUndone(starts, width, u, done, nBits, b, beta');
    }
    if width == 2 * u + 1 {
      forall b | b in Tops(starts, u) ensures b !in done {
        var a :| a in starts && b == a + 2 * u;
        assert Run(a, width, b);
      }
    }
  }

  lemma HalvesIn(starts: set<nat>, u: nat)
    ensures forall b :: b in Halves(starts, u) <==> b in starts || exists a :: a in starts && b == a + u
  {
  }

  lemma TopsIn(starts: set<nat>, u: nat)
    ensures forall b :: b in Tops(starts, u) <==> exists a :: a in starts && b == a + 2 * u
  {
  }

  /** A column of a field is its top or in one of its halves. */
  lemma InOneHalf(starts: set<nat>, width: nat, u: nat, beta: nat, b: nat)
    requires beta in starts && Run(beta, width, b) && (width == 2 * u || width == 2 * u + 1)
    requires width == 2 * u + 1 ==> b !in Tops(starts, u)
    ensures exists half :: half in Halves(starts, u) && Run(half, u, b)
  {
    if b < beta + u {
      assert beta in Halves(starts, u) && Run(beta, u, b);
    } else {
      assert b == beta + 2 * u ==> b in Tops(starts, u);
      assert beta + u in Halves(starts, u) && Run(beta + u, u, b);
    }
  }

  /** Finished columns are in no half. */
  lemma HalfUndone(starts: set<nat>, width: nat, u: nat, done: set<nat>, nBits: nat, b: nat, half: nat)
    requires Cover(starts, width, done, nBits) && (width == 2 * u || width == 2 * u + 1) && Spaced(starts, width)
    requires half in Halves(starts, u) && (b in done || (width == 2 * u + 1 && b in Tops(starts, u)))
    ensures !Run(half, u, b)
  {
    var beta := if half in starts then half else half - u;
    if b in done {
      assert !Run(beta, width, b);
    } else {
      var a :| a in starts && b == a + 2 * u;
    }
  }

  // ---------- The algorithms ----------

  lemma OrAssoc(a: Word, b: Word, c: Word)
    ensures Or(Or(a, b), c) == Or(a, Or(b, c))
  {
    hide Or;
    BitsEqual(Or(Or(a, b), c), Or(a, Or(b, c)));
  }

  lemma ShrAgain(w: Word, width: nat, d: nat)
    ensures Shr(Shr(w, Times(width, d)), width) == Shr(w, Times(width, d + 1))
  {
    hide Shr;
    TimesAdd(width, d, 1);
    TimesOne(width);
    BitsEqual(Shr(Shr(w, Times(width, d)), width), Shr(w, Times(width, d + 1)));
  }

  lemma ShlAgain(w: Word, a: nat, b: nat)
    ensures Shl(Shl(w, a), b) == Shl(w, a + b)
  {
    hide Shl;
    BitsEqual(Shl(Shl(w, a), b), Shl(w, a + b));
  }

  /** The inner loop for an even field width. */
  method EvenPass(nDims: nat, nBits: nat, ghost src: Word, inCoords: Word, inMask: Word, utMask: Word,
                  inB: nat, utB: nat, shiftAmt: nat, ghost starts: set<nat>)
      returns (utCoords: Word)
    requires nDims >= 1 && utB >= 1 && inB == 2 * utB && shiftAmt == Times(utB, nDims - 1)
    requires Spaced(starts, inB) && MaskForm(inMask, nDims, starts, inB)
    requires MaskForm(utMask, nDims, Halves(starts, utB), utB)
    requires FullForm(inCoords, nDims, starts, inB, src, nBits, nDims)
    ensures FullForm(utCoords, nDims, Halves(starts, utB), utB, src, nBits, nDims)
  {
    hide *;
    utCoords := 0;
    var rest := inCoords;
    HalvesSpaced(starts, inB, utB);
    EmptyForm(nDims, Halves(starts, utB), utB, src, nBits);
    ShrNothing(inCoords, inB);
    for d := 0 to nDims
      invariant rest == Shr(inCoords, Times(inB, d))
      invariant FullForm(utCoords, nDims, Halves(starts, utB), utB, src, nBits, d)
    {
      var row := And(rest, inMask);
      ExtractRow(inCoords, inMask, nDims, starts, inB, src, nBits, d);
      ShrAgain(inCoords, inB, d);
      rest := Shr(rest, inB);
      SplitRow(row, utMask, nDims, starts, inB, utB, src, nBits, d);
      row := And(Or(row, Shl(row, shiftAmt)), utMask);
      PlaceRow(utCoords, row, nDims, Halves(starts, utB), utB, src, nBits, d);
      TimesIs(utB, d);
      utCoords := Or(utCoords, Shl(row, d * utB));
    }
  }

  lemma ShrNothing(w: Word, a: nat)
    ensures Shr(w, Times(a, 0)) == w
  {
    TimesOne(a);
    assert Shr(w, 0) == w;
  }

  lemma OrZero(w: Word)
    ensures Or(w, 0) == w
  {
    hide Or;
    ZeroBits();
    BitsEqual(Or(w, 0), w);
  }

  /** The inner loop for an odd field width: the top bit of every field goes straight to its
      place in the result. */
  method OddPass(nDims: nat, nBits: nat, ghost src: Word, inCoords: Word, inMask: Word, utMask: Word,
                 inFieldEnds: Word, inB: nat, utB: nat, shiftAmt: nat, coords0: Word,
                 ghost starts: set<nat>, ghost done: set<nat>)
      returns (utCoords: Word, coords: Word)
    requires nDims >= 1 && utB >= 1 && inB == 2 * utB + 1 && shiftAmt == Times(utB, nDims - 1)
    requires Spaced(starts, inB) && MaskForm(inMask, nDims, starts, inB) && MaskForm(inFieldEnds, nDims, starts, 1)
    requires MaskForm(utMask, nDims, Halves(starts, utB), utB)
    requires FullForm(inCoords, nDims, starts, inB, src, nBits, nDims)
    requires FullForm(coords0, nDims, done, 1, src, nBits, nDims) && done !! Tops(starts, utB)
    ensures FullForm(utCoords, nDims, Halves(starts, utB), utB, src, nBits, nDims)
    ensures FullForm(coords, nDims, done + Tops(starts, utB), 1, src, nBits, nDims)
  {
    hide *;
    var inFieldStarts := Shl(inFieldEnds, inB - 1);
    var oddShift := 2 * shiftAmt;
    utCoords, coords := 0, coords0;
    var rest := inCoords;
    ghost var tops := 0;
    HalvesSpaced(starts, inB, utB);
    TopsSpaced(starts, utB);
    EmptyForm(nDims, Halves(starts, utB), utB, src, nBits);
    EmptyForm(nDims, Tops(starts, utB), 1, src, nBits);
    ShrNothing(inCoords, inB);
    OrZero(coords0);
    for d := 0 to nDims
      invariant rest == Shr(inCoords, Times(inB, d))
      invariant oddShift == 2 * shiftAmt + d
      invariant coords == Or(coords0, tops)
      invariant FullForm(utCoords, nDims, Halves(starts, utB), utB, src, nBits, d)
      invariant FullForm(tops, nDims, Tops(starts, utB), 1, src, nBits, d)
    {
      var row := And(rest, inMask);
      ExtractRow(inCoords, inMask, nDims, starts, inB, src, nBits, d);
      ShrAgain(inCoords, inB, d);
      rest := Shr(rest, inB);

      var top := And(row, inFieldStarts);
      TopRow(row, inFieldEnds, nDims, starts, utB, src, nBits, d);
      PlaceRow(tops, Shl(top, 2 * shiftAmt), nDims, Tops(starts, utB), 1, src, nBits, d);
      ShlAgain(top, 2 * shiftAmt, d);
      TimesOne(d);
      OrAssoc(coords0, tops, Shl(top, oddShift));
      tops := Or(tops, Shl(top, oddShift));
      coords := Or(coords, Shl(top, oddShift));
      oddShift := oddShift + 1;

      DropTop(row, inFieldEnds, nDims, starts, utB, src, nBits, d);
      row := AndNot(row, inFieldStarts);
      SplitRow(row, utMask, nDims, starts, inB, utB, src, nBits, d);
      row := And(Or(row, Shl(row, shiftAmt)), utMask);
      PlaceRow(utCoords, row, nDims, Halves(starts, utB), utB, src, nBits, d);
      TimesIs(utB, d);
      utCoords := Or(utCoords, Shl(row, d * utB));
    }
    MergeColumns(coords0, tops, nDims, done, Tops(starts, utB), src, nBits);
  }

  lemma TopsSpaced(starts: set<nat>, u: nat)
    requires Spaced(starts, 2 * u + 1)
    ensures Spaced(Tops(starts, u), 1)
  {
  }

  lemma StartForms(n: nat, nBits: nat, src: Word)
    requires n >= 1 && nBits >= 1 && src < Points(n, nBits)
    ensures FullForm(src, n, {0}, nBits, src, nBits, n)
    ensures MaskForm(1, n, {0}, 1) && MaskForm(Ones(nBits), n, {0}, nBits)
    ensures FullForm(0, n, {}, 1, src, nBits, n)
    ensures Cover({0}, nBits, {}, nBits) && Spaced({0}, nBits)
  {
    StartMasks(n, nBits);
    StartCover(nBits);
    hide Ones, Pow2, Bit;
    TimesOne(n);
    ZeroBits();
    BitsBelow(src, Times(n, nBits));
    TimesSwap(n, nBits);
    DoubleBits(0, 1, 1);
    forall k: nat {:trigger Bit(src, k)} | Bit(src, k)
      ensures exists beta :: beta in {0} && InField(n, beta, Times(nBits, n), k)
    {
      assert 0 in {0} && InField(n, 0, Times(nBits, n), k);
    }
    forall beta: nat, d: nat, x: nat {:trigger Pos(n, beta, Offset(nBits, d, x))} | beta in {0} && d < n && x < nBits
      ensures Bit(src, Pos(n, beta, Offset(nBits, d, x))) == At(src, d, beta + x, nBits)
    {
      assert Pos(n, beta, Offset(nBits, d, x)) == d * nBits + x by { TimesIs(nBits, d); TimesOne(n); }
    }
  }

  lemma StartMasks(n: nat, nBits: nat)
    requires n >= 1 && nBits >= 1
    ensures MaskForm(1, n, {0}, 1) && MaskForm(Ones(nBits), n, {0}, nBits)
  {
    hide Ones, Pow2, Bit;
    TimesOne(n);
    ZeroBits();
    DoubleBits(0, 1, 1);
    forall k: nat {:trigger Bit(1, k)} | Bit(1, k)
      ensures exists beta :: beta in {0} && InField(n, beta, 1, k)
    {
      assert 0 in {0} && InField(n, 0, 1, k);
    }
    forall k: nat {:trigger Bit(Ones(nBits), k)} | Bit(Ones(nBits), k)
      ensures exists beta :: beta in {0} && InField(n, beta, nBits, k)
    {
      assert 0 in {0} && InField(n, 0, nBits, k);
    }
  }

  lemma StartCover(nBits: nat)
    requires nBits >= 1
    ensures Cover({0}, nBits, {}, nBits) && Spaced({0}, nBits)
  {
    var done: set<nat> := {};
    forall b: nat | b < nBits && b !in done ensures exists beta :: beta in {0} && Run(beta, nBits, b) {
      assert 0 in {0} && Run(0, nBits, b);
    }
  }

  /** `bitTranspose` with DLOGB_BIT_TRANSPOSE. */
  method Fast(nDims: nat, nBits: nat, src: Word) returns (coords: Word)
    requires nDims >= 1 && nBits >= 1 && src < Points(nDims, nBits)
    ensures IsTranspose(nDims, nBits, src, coords)
  {
    hide *;
    var nDims1 := nDims - 1;
    var inCoords := src;
    var inB := nBits;
    var inFieldEnds := 1;
    var inMask: Word := Ones(inB);
    coords := 0;
    ghost var starts: set<nat>, done: set<nat> := {0}, {};
    StartForms(nDims, nBits, src);
    var utB := inB / 2;
    while utB != 0
      invariant 1 <= inB && utB == inB / 2
      invariant Spaced(starts, inB) && Cover(starts, inB, done, nBits)
      invariant MaskForm(inFieldEnds, nDims, starts, 1) && MaskForm(inMask, nDims, starts, inB)
      invariant FullForm(inCoords, nDims, starts, inB, src, nBits, nDims)
      invariant FullForm(coords, nDims, done, 1, src, nBits, nDims)
      decreases inB
    {
      var shiftAmt := nDims1 * utB;
      TimesIs(utB, nDims - 1);
      FieldGap(nDims, 2 * utB, utB);
      var utFieldEnds := Or(inFieldEnds, Shl(inFieldEnds, shiftAmt + utB));
      HalveEnds(inFieldEnds, nDims, starts, utB);
      HalvesSpaced(starts, inB, utB);
      FieldMask(utFieldEnds, nDims, Halves(starts, utB), utB);
      var utMask := Shl(utFieldEnds, utB) - utFieldEnds;
      CoverHalves(starts, inB, utB, done, nBits);
      var utCoords;
      if inB % 2 == 1 {
        utCoords, coords := OddPass(nDims, nBits, src, inCoords, inMask, utMask, inFieldEnds, inB, utB,
                                    shiftAmt, coords, starts, done);
        done := done + Tops(starts, utB);
      } else {
        utCoords := EvenPass(nDims, nBits, src, inCoords, inMask, utMask, inB, utB, shiftAmt, starts);
      }
      starts := Halves(starts, utB);
      inCoords := utCoords;
      inB := utB;
      inFieldEnds := utFieldEnds;
      inMask := utMask;
      utB := inB / 2;
    }
    LastColumns(starts, done, nBits);
    MergeColumns(coords, inCoords, nDims, done, starts, src, nBits);
    coords := Or(coords, inCoords);
    AllColumns(coords, nDims, done + starts, src, nBits);
  }

  lemma LastColumns(starts: set<nat>, done: set<nat>, nBits: nat)
    requires Cover(starts, 1, done, nBits)
    ensures done !! starts
    ensures forall b: nat :: b in done + starts <==> b < nBits
  {
    forall b | b in done && b in starts ensures false { assert Run(b, 1, b); }
    forall b: nat | b < nBits ensures b in done + starts {
      if b !in done {
        var beta :| beta in starts && Run(beta, 1, b);
        assert beta == b;
      }
    }
  }

  // ---------- The bit-by-bit version ----------

  ghost function Columns(count: nat): (r: set<nat>)
    ensures forall b: nat :: b in r <==> b < count
  {
    if count == 0 then {} else Columns(count - 1) + {count - 1}
  }

  /** `out <<= nDims; out |= rdbit(in, b);` */
  lemma PushBit(out: Word, n: nat, b: nat, nBits: nat, src: Word, d: nat, low: nat)
    requires n >= 1 && b < nBits && low == B2N(At(src, d, b, nBits))
    requires Spread(out, n, nBits - b - 1, src, nBits, d, b + 1)
    ensures Spread(Or(Shl(out, n), low), n, nBits - b, src, nBits, d, b)
  {
    hide Or, Shl, Bit, At, Times;
    var r := Or(Shl(out, n), low);
    ZeroBits();
    DoubleBits(0, low, low);
    TimesOne(n);
    forall k: nat {:trigger Bit(r, k)} | Bit(r, k)
      ensures exists j :: j in Columns(nBits - b) && InField(n, j, 1, k)
    {
      if k == 0 {
        assert 0 in Columns(nBits - b) && InField(n, 0, 1, 0);
      } else {
        var j :| j in Columns(nBits - b - 1) && InField(n, j, 1, k - n);
        TimesAdd(n, j, 1);
        assert j + 1 in Columns(nBits - b) && InField(n, j + 1, 1, k);
      }
    }
    forall j: nat {:trigger Pos(n, j, 0)} | j < nBits - b
      ensures Bit(r, Pos(n, j, 0)) == At(src, d, b + j, nBits)
    {
      if j > 0 {
        TimesAdd(n, j - 1, 1);
        assert Pos(n, j, 0) - n == Pos(n, j - 1, 0);
      }
    }
  }

  /** out holds `count` bits of row d, from column b on, n positions apart. */
  ghost predicate Spread(out: Word, n: nat, count: nat, src: Word, nBits: nat, d: nat, b: nat) {
    && Only(out, n, Columns(count), 1)
    && forall j: nat {:trigger Pos(n, j, 0)} :: j < count ==> Bit(out, Pos(n, j, 0)) == At(src, d, b + j, nBits)
  }

  lemma RowBit(src: Word, nBits: nat, d: nat, b: nat)
    requires b < nBits
    ensures Bit(And(Shr(src, Times(nBits, d)), Ones(nBits)), b) == At(src, d, b, nBits)
  {
    hide And, Shr, Ones, Bit;
    TimesIs(nBits, d);
  }

  lemma SpreadIsRow(out: Word, n: nat, src: Word, nBits: nat, d: nat)
    requires Spread(out, n, nBits, src, nBits, d, 0)
    ensures RowForm(out, n, Columns(nBits), 1, src, nBits, d)
  {
    hide Bit, At, Times;
    forall beta, off: nat {:trigger Pos(n, beta, off)} | beta in Columns(nBits) && off < 1
      ensures Bit(out, Pos(n, beta, off)) == At(src, d, beta + off, nBits)
    {
      assert Pos(n, beta, off) == Pos(n, beta, 0);
    }
  }

  /** `bitTranspose` without DLOGB_BIT_TRANSPOSE. */
  method BitByBit(nDims: nat, nBits: nat, src: Word) returns (coords: Word)
    requires nDims >= 1 && nBits >= 1
    ensures IsTranspose(nDims, nBits, src, coords)
  {
    hide *;
    var inCoords := src;
    coords := 0;
    EmptyForm(nDims, Columns(nBits), 1, src, nBits);
    ShrNothing(src, nBits);
    for d := 0 to nDims
      invariant inCoords == Shr(src, Times(nBits, d))
      invariant FullForm(coords, nDims, Columns(nBits), 1, src, nBits, d)
    {
      var row := And(inCoords, Ones(nBits));
      var out := 0;
      ShrAgain(src, nBits, d);
      inCoords := Shr(inCoords, nBits);
      var b := nBits;
      SpreadNothing(nDims, src, nBits, d);
      while b > 0
        invariant b <= nBits && Spread(out, nDims, nBits - b, src, nBits, d, b)
      {
        b := b - 1;
        RowBit(src, nBits, d, b);
        PushBit(out, nDims, b, nBits, src, d, RdBit(row, b));
        out := Shl(out, nDims);
        out := Or(out, RdBit(row, b));
      }
      SpreadIsRow(out, nDims, src, nBits, d);
      ColumnsSpaced(nBits);
      PlaceRow(coords, out, nDims, Columns(nBits), 1, src, nBits, d);
      TimesOne(d);
      coords := Or(coords, Shl(out, d));
    }
    ColumnsSpaced(nBits);
    AllColumns(coords, nDims, Columns(nBits), src, nBits);
  }

  lemma SpreadNothing(n: nat, src: Word, nBits: nat, d: nat)
    ensures Spread(0, n, 0, src, nBits, d, nBits)
  {
    ZeroBits();
  }

  lemma ColumnsSpaced(count: nat)
    ensures Spaced(Columns(count), 1)
  {
  }

  // ---------- Both versions, both ways ----------

  /** Both versions compute the same word. */
  method BothVersions(nDims: nat, nBits: nat, src: Word) returns (fast: Word, slow: Word)
    requires nDims >= 1 && nBits >= 1 && src < Points(nDims, nBits)
    ensures fast == slow
  {
    fast := Fast(nDims, nBits, src);
    slow := BitByBit(nDims, nBits, src);
    TransposeUnique(nDims, nBits, src, fast, slow);
  }

  /** hilbert_i2c and hilbert_c2i transpose with exchanged sizes: one call undoes the other. */
  method ThereAndBack(nDims: nat, nBits: nat, src: Word) returns (back: Word)
    requires nDims >= 1 && nBits >= 1 && src < Points(nDims, nBits)
    ensures back == src
  {
    var out := Fast(nDims, nBits, src);
    PointsSwap(nDims, nBits);
    back := Fast(nBits, nDims, out);
    TransposeBack(nDims, nBits, src, out);
    TransposeUnique(nBits, nDims, out, back, src);
  }
}
