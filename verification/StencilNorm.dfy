/** Normalization of stencil kernels: every write to an assembled matrix is turned into a write to
    the row of the point the kernel runs at.
 */
module StencilNorm {
  import opened Grids
  import W = Words

  // ---------- Kernels ----------

  /** The values that kernels write.  Set reads give relative positions: one offset for a point,
      two for a link. */
  datatype Value =
    | Number(x: real)
    | AtOrigin(field: nat)
    | At(field: nat, indices: seq<int>)
    | Op(op: nat, a: Value, b: Value)

  /** An index of a write: the point the kernel runs at, or a relative one. */
  datatype Index = Origin | Relative(offsets: seq<int>)

  /** A write to an output matrix; `add` if it is a `+=`. */
  datatype Write = Write(tensor: nat, row: Index, col: Index, value: Value, add: bool)

  /** Set reads have one offset or two. */
  predicate WellFormedValue(n: nat, v: Value)
  {
    match v
    case At(_, indices) => |indices| == n || |indices| == 2 * n
    case Op(_, a, b) => WellFormedValue(n, a) && WellFormedValue(n, b)
    case _ => true
  }

  predicate WellFormed(n: nat, w: Write) {
    (w.row.Relative? ==> |w.row.offsets| == n) && (w.col.Relative? ==> |w.col.offsets| == n) &&
      WellFormedValue(n, w.value)
  }

  function Offsets(n: nat, i: Index): (off: seq<int>)
    ensures i.Origin? || |i.offsets| == n ==> |off| == n
  {
    match i
    case Origin => seq(n, _ => 0)
    case Relative(off) => off
  }

  /** The shift is applied to one offset, or to both of a link. */
  function ShiftIndices(indices: seq<int>, shift: seq<int>): (r: seq<int>)
    requires |shift| > 0
    ensures |r| == |indices|
  {
    seq(|indices|, i requires 0 <= i < |indices| => indices[i] + shift[i % |shift|])
  }

  lemma ShiftIndicesAt(indices: seq<int>, shift: seq<int>, i: nat)
    requires |shift| > 0 && i < |indices|
    ensures i % |shift| < |shift| && ShiftIndices(indices, shift)[i] == indices[i] + shift[i % |shift|]
    ensures i < |shift| ==> ShiftIndices(indices, shift)[i] == indices[i] + shift[i]
    ensures |shift| <= i < 2 * |shift| ==> ShiftIndices(indices, shift)[i] == indices[i] + shift[i - |shift|]
    ensures ShiftIndices(indices, shift)[..i + 1] ==
            ShiftIndices(indices, shift)[..i] + [ShiftIndices(indices, shift)[i]]
  {
    if i < |shift| { W.DivModOf(0, i, |shift|); }
    if |shift| <= i < 2 * |shift| { W.DivModOf(1, i - |shift|, |shift|); }
  }

  function ShiftValue(v: Value, shift: seq<int>): (r: Value)
    requires |shift| > 0
  {
    match v
    case At(field, indices) => At(field, ShiftIndices(indices, shift))
    case Op(op, a, b) => Op(op, ShiftValue(a, shift), ShiftValue(b, shift))
    case _ => v
  }

  function Normalized(n: nat, w: Write): (r: Write)
    requires n > 0 && WellFormed(n, w)
  {
    var shift := Negated(Offsets(n, w.row));
    Write(w.tensor, Relative(ShiftIndices(Offsets(n, w.row), shift)), Relative(ShiftIndices(Offsets(n, w.col), shift)),
          ShiftValue(w.value, shift), w.add)
  }

  // ---------- The rewriter ----------

  class NormalizeRowIndices {
    const dims: nat
    /** The negated row offset of the write being rewritten; empty outside of one. */
    var rowNormOff: seq<int>

    constructor (dims: nat)
      ensures this.dims == dims && rowNormOff == []
    {
      this.dims := dims;
      rowNormOff := [];
    }

    /** visit(SetRead) */
    method VisitSetRead(indices: seq<int>) returns (newInds: seq<int>)
      requires |rowNormOff| == dims > 0 && (|indices| == dims || |indices| == 2 * dims)
      ensures newInds == ShiftIndices(indices, rowNormOff)
    {
      hide ShiftIndices;
      var litInds := indices;
      newInds := [];
      if |litInds| == |rowNormOff| {
        for i := 0 to |indices|
          invariant |litInds| == |indices| && litInds[i..] == indices[i..]
          invariant newInds == ShiftIndices(indices, rowNormOff)[..i]
        {
          ShiftIndicesAt(indices, rowNormOff, i);
          assert litInds[i] == litInds[i..][0];
          litInds := litInds[i := litInds[i] + rowNormOff[i]];
          newInds := newInds + [litInds[i]];
        }
      } else {
        for i := 0 to |indices|
          invariant |litInds| == |indices| && litInds[i..] == indices[i..]
          invariant newInds == ShiftIndices(indices, rowNormOff)[..i]
        {
          ShiftIndicesAt(indices, rowNormOff, i);
          assert litInds[i] == litInds[i..][0];
          litInds := litInds[i := litInds[i] + rowNormOff[i % |rowNormOff|]];
          newInds := newInds + [litInds[i]];
        }
      }
    }

    method RewriteValue(v: Value) returns (r: Value)
      requires |rowNormOff| == dims > 0 && WellFormedValue(dims, v)
      ensures r == ShiftValue(v, rowNormOff)
    {
      match v
      case At(field, indices) =>
        var newInds := VisitSetRead(indices);
        r := At(field, newInds);
      case Op(op, a, b) =>
        var x := RewriteValue(a);
        var y := RewriteValue(b);
        r := Op(op, x, y);
      case _ => r := v;
    }

    /** visit(TensorWrite) */
    method VisitTensorWrite(op: Write) returns (r: Write)
      requires rowNormOff == [] && dims > 0 && WellFormed(dims, op)
      modifies this
      ensures rowNormOff == [] && r == Normalized(dims, op)
      ensures op.row.Origin? ==> r.value == op.value && (op.col.Relative? ==> r.col == op.col)
    {
      var rowIndices, colIndices := Offsets(dims, op.row), Offsets(dims, op.col);
      for i := 0 to |rowIndices|
        invariant rowNormOff == Negated(rowIndices)[..i]
      {
        rowNormOff := rowNormOff + [-rowIndices[i]];
      }
      assert rowNormOff == Negated(rowIndices);
      var newRow := VisitSetRead(rowIndices);
      var newCol := VisitSetRead(colIndices);
      var newValue := RewriteValue(op.value);
      r := Write(op.tensor, Relative(newRow), Relative(newCol), newValue, op.add);
      rowNormOff := [];
      if op.row.Origin? { OwnRowKept(dims, op); }
    }

    method RewriteKernel(kernel: seq<Write>) returns (r: seq<Write>)
      requires rowNormOff == [] && dims > 0 && forall w :: w in kernel ==> WellFormed(dims, w)
      modifies this
      ensures rowNormOff == [] && r == NormalizedKernel(dims, kernel)
    {
      r := [];
      for i := 0 to |kernel|
        invariant rowNormOff == [] && r == NormalizedKernel(dims, kernel)[..i]
      {
        var w := VisitTensorWrite(kernel[i]);
        r := r + [w];
      }
    }
  }

  function NormalizedKernel(n: nat, kernel: seq<Write>): (r: seq<Write>)
    requires n > 0 && forall w :: w in kernel ==> WellFormed(n, w)
    ensures |r| == |kernel|
  {
    seq(|kernel|, i requires 0 <= i < |kernel| => Normalized(n, kernel[i]))
  }

  // ---------- Assembly ----------

  /** Field values at points and links of the grid, and the meaning of the operators. */
  datatype Env = Env(points: (nat, nat) -> real, links: (nat, nat, nat) -> real, ops: (nat, real, real) -> real)

  function Eval(dims: seq<nat>, env: Env, v: Value, p: nat): (x: real)
    requires Positive(dims) && WellFormedValue(|dims|, v)
  {
    match v
    case Number(x) => x
    case AtOrigin(field) => env.points(field, p)
    case At(field, indices) =>
      if |indices| == |dims| then env.points(field, Moved(dims, p, indices))
      else env.links(field, Moved(dims, p, indices[..|dims|]), Moved(dims, p, indices[|dims|..]))
    case Op(op, a, b) => env.ops(op, Eval(dims, env, a, p), Eval(dims, env, b, p))
  }

  /** The point that an index of a write stands for when the kernel runs at p. */
  function PointOf(dims: seq<nat>, i: Index, p: nat): (q: nat)
    requires Positive(dims) && (i.Relative? ==> |i.offsets| == |dims|)
  {
    match i
    case Origin => p
    case Relative(off) => Moved(dims, p, off)
  }

  /** The kernel's own point has the offset zero. */
  lemma PointByOffsets(dims: seq<nat>, i: Index, p: nat)
    requires Positive(dims) && (i.Relative? ==> |i.offsets| == |dims|) && p < Volume(dims)
    ensures |Offsets(|dims|, i)| == |dims| && PointOf(dims, i, p) == Moved(dims, p, Offsets(|dims|, i))
  {
    hide Moved, Volume;
    if i.Origin? {
      ZeroMod(dims);
      MovedNowhere(dims, p, Offsets(|dims|, i));
    }
  }

  /** What a write adds to entry (i, j) when the kernel runs at p. */
  ghost function Contribution(dims: seq<nat>, env: Env, w: Write, p: nat, i: nat, j: nat): (x: real)
    requires Positive(dims) && WellFormed(|dims|, w)
  {
    if PointOf(dims, w.row, p) == i && PointOf(dims, w.col, p) == j then Eval(dims, env, w.value, p) else 0.0
  }

  lemma ContributionByOffsets(dims: seq<nat>, env: Env, w: Write, p: nat, i: nat, j: nat)
    requires Positive(dims) && WellFormed(|dims|, w) && p < Volume(dims)
    ensures Contribution(dims, env, w, p, i, j) ==
            if Moved(dims, p, Offsets(|dims|, w.row)) == i && Moved(dims, p, Offsets(|dims|, w.col)) == j
            then Eval(dims, env, w.value, p) else 0.0
  {
    hide Moved, Eval, PointOf;
    PointByOffsets(dims, w.row, p);
    PointByOffsets(dims, w.col, p);
  }

  ghost function KernelAt(dims: seq<nat>, env: Env, kernel: seq<Write>, t: nat, p: nat, i: nat, j: nat): (x: real)
    requires Positive(dims) && forall w :: w in kernel ==> WellFormed(|dims|, w)
  {
    if kernel == [] then 0.0
    else
      (if kernel[0].tensor == t then Contribution(dims, env, kernel[0], p, i, j) else 0.0) +
      KernelAt(dims, env, kernel[1..], t, p, i, j)
  }

  /** Entry (i, j) of matrix t after the kernel has run at the first n points. */
  ghost function Assembled(dims: seq<nat>, env: Env, kernel: seq<Write>, t: nat, i: nat, j: nat, n: nat): (x: real)
    requires Positive(dims) && forall w :: w in kernel ==> WellFormed(|dims|, w)
  {
    if n == 0 then 0.0 else Assembled(dims, env, kernel, t, i, j, n - 1) + KernelAt(dims, env, kernel, t, n - 1, i, j)
  }

  predicate NoOriginRead(v: Value)
  {
    match v
    case AtOrigin(_) => false
    case Op(_, a, b) => NoOriginRead(a) && NoOriginRead(b)
    case _ => true
  }

  /** The shifted value at q is the value at q moved by the shift. */
  lemma {:induction false} ShiftedValue(dims: seq<nat>, env: Env, v: Value, q: nat, shift: seq<int>)
    requires Positive(dims) && |shift| == |dims| > 0 && q < Volume(dims) && WellFormedValue(|dims|, v)
    requires NoOriginRead(v) || Moved(dims, q, shift) == q
    ensures WellFormedValue(|dims|, ShiftValue(v, shift))
    ensures Eval(dims, env, ShiftValue(v, shift), q) == Eval(dims, env, v, Moved(dims, q, shift))
  {
    match v
    case At(field, indices) =>
      ShiftedRead(dims, q, indices, shift);
    case Op(_, a, b) =>
      ShiftedValue(dims, env, a, q, shift);
      ShiftedValue(dims, env, b, q, shift);
    case _ =>
  }

  lemma ShiftedRead(dims: seq<nat>, q: nat, indices: seq<int>, shift: seq<int>)
    requires Positive(dims) && |shift| == |dims| > 0 && (|indices| == |dims| || |indices| == 2 * |dims|)
    ensures var n, shifted, p := |dims|, ShiftIndices(indices, shift), Moved(dims, q, shift);
            && Moved(dims, q, shifted[..n]) == Moved(dims, p, indices[..n])
            && (|indices| == n ==> shifted[..n] == shifted && indices[..n] == indices)
            && (|indices| == 2 * n ==> Moved(dims, q, shifted[n..]) == Moved(dims, p, indices[n..]))
  {
    hide Moved, ShiftIndices;
    var n, shifted := |dims|, ShiftIndices(indices, shift);
    MovedTwice(dims, q, shift, indices[..n]);
    ShiftedHalves(indices, shift);
    if |indices| == 2 * n {
      MovedTwice(dims, q, shift, indices[n..]);
    }
  }

  lemma ShiftedHalves(indices: seq<int>, shift: seq<int>)
    requires |shift| > 0 && (|indices| == |shift| || |indices| == 2 * |shift|)
    ensures ShiftIndices(indices, shift)[..|shift|] == Plus(shift, indices[..|shift|])
    ensures |indices| == 2 * |shift| ==> ShiftIndices(indices, shift)[|shift|..] == Plus(shift, indices[|shift|..])
  {
    hide ShiftIndices;
    var n, shifted := |shift|, ShiftIndices(indices, shift);
    forall i | 0 <= i < |indices| ensures shifted[i] == indices[i] + shift[if i < n then i else i - n] {
      ShiftIndicesAt(indices, shift, i);
    }
  }

  // ---------- Sums over all points ----------

  ghost function WriteSum(dims: seq<nat>, env: Env, w: Write, i: nat, j: nat, n: nat): (x: real)
    requires Positive(dims) && WellFormed(|dims|, w)
  {
    if n == 0 then 0.0 else WriteSum(dims, env, w, i, j, n - 1) + Contribution(dims, env, w, n - 1, i, j)
  }

  /** Only one point writes to row i. */
  lemma {:induction false} OnePoint(dims: seq<nat>, env: Env, w: Write, i: nat, j: nat, n: nat)
    requires Positive(dims) && WellFormed(|dims|, w) && i < Volume(dims) && n <= Volume(dims)
    ensures var p := Moved(dims, i, Negated(Offsets(|dims|, w.row)));
            WriteSum(dims, env, w, i, j, n) == if p < n then Contribution(dims, env, w, p, i, j) else 0.0
  {
    hide Moved, Eval, Contribution;
    if n > 0 {
      OnePoint(dims, env, w, i, j, n - 1);
      ContributionByOffsets(dims, env, w, n - 1, i, j);
      MovedBack(dims, n - 1, i, Offsets(|dims|, w.row));
    }
  }

  lemma {:induction false} SumByWrites(dims: seq<nat>, env: Env, kernel: seq<Write>, t: nat, i: nat, j: nat, n: nat)
    requires Positive(dims) && kernel != [] && forall w :: w in kernel ==> WellFormed(|dims|, w)
    ensures Assembled(dims, env, kernel, t, i, j, n) ==
            (if kernel[0].tensor == t then WriteSum(dims, env, kernel[0], i, j, n) else 0.0) +
              Assembled(dims, env, kernel[1..], t, i, j, n)
  {
    hide Contribution;
    if n > 0 { SumByWrites(dims, env, kernel, t, i, j, n - 1); }
  }

  lemma {:induction false} NothingAssembled(dims: seq<nat>, env: Env, t: nat, i: nat, j: nat, n: nat)
    requires Positive(dims)
    ensures Assembled(dims, env, [], t, i, j, n) == 0.0
  {
    if n > 0 { NothingAssembled(dims, env, t, i, j, n - 1); }
  }

  // ---------- The matrix is preserved ----------

  /** Normalization is invisible in a write if it reads the grid only relatively, or if its row
      offset leads back to the same point. */
  ghost predicate Unaffected(dims: seq<nat>, w: Write)
    requires WellFormed(|dims|, w)
  {
    NoOriginRead(w.value) || w.row.Origin? || WholePeriodsOff(dims, w.row.offsets)
  }

  ghost predicate WholePeriodsOff(dims: seq<nat>, off: seq<int>)
    requires |off| == |dims|
  {
    forall k :: 0 <= k < |dims| ==> dims[k] > 0 && off[k] % dims[k] == 0
  }

  lemma NegatedMod(x: int, d: nat)
    requires d > 0 && x % d == 0
    ensures -x % d == 0
  {
    assert -x == (-(x / d)) * d + 0;
    W.DivModOf(-(x / d), 0, d);
  }

  /** The one point that writes to row i does so with the same value at the same column. */
  lemma SameContribution(dims: seq<nat>, env: Env, w: Write, i: nat, j: nat)
    requires Positive(dims) && |dims| > 0 && WellFormed(|dims|, w) && i < Volume(dims) && j < Volume(dims)
    requires Unaffected(dims, w)
    ensures WellFormed(|dims|, Normalized(|dims|, w))
    ensures Contribution(dims, env, Normalized(|dims|, w), i, i, j) ==
            Contribution(dims, env, w, Moved(dims, i, Negated(Offsets(|dims|, w.row))), i, j)
  {
    hide Volume, Moved, Eval, ShiftIndices, ShiftValue, Plus, Contribution;
    var n, r, c := |dims|, Offsets(|dims|, w.row), Offsets(|dims|, w.col);
    var shift := Negated(r);
    NormalizedOffsets(dims, w);
    ContributionByOffsets(dims, env, w, Moved(dims, i, shift), i, j);
    ContributionByOffsets(dims, env, Normalized(n, w), i, i, j);
    ZeroMod(dims);
    MovedNowhere(dims, i, Offsets(n, Normalized(n, w).row));
    MovedBack(dims, Moved(dims, i, shift), i, r);
    MovedTwice(dims, i, shift, c);
    if !NoOriginRead(w.value) { UnaffectedStays(dims, w, i); }
    ShiftedValue(dims, env, w.value, i, shift);
  }

  lemma UnaffectedStays(dims: seq<nat>, w: Write, i: nat)
    requires Positive(dims) && WellFormed(|dims|, w) && i < Volume(dims) && Unaffected(dims, w) &&
             !NoOriginRead(w.value)
    ensures Moved(dims, i, Negated(Offsets(|dims|, w.row))) == i
  {
    hide Moved, Volume;
    var r := Offsets(|dims|, w.row);
    ZeroMod(dims);
    forall k | 0 <= k < |dims| ensures Negated(r)[k] % dims[k] == 0 { NegatedMod(r[k], dims[k]); }
    MovedNowhere(dims, i, Negated(r));
  }

  /** One write adds the same to the matrix before and after. */
  lemma SameWriteSum(dims: seq<nat>, env: Env, w: Write, i: nat, j: nat)
    requires Positive(dims) && |dims| > 0 && WellFormed(|dims|, w) && i < Volume(dims) && j < Volume(dims)
    requires Unaffected(dims, w)
    ensures WellFormed(|dims|, Normalized(|dims|, w))
    ensures WriteSum(dims, env, Normalized(|dims|, w), i, j, Volume(dims)) == WriteSum(dims, env, w, i, j, Volume(dims))
  {
    hide Volume, Moved, WriteSum, Contribution, Normalized, Unaffected;
    SameContribution(dims, env, w, i, j);
    OnePoint(dims, env, w, i, j, Volume(dims));
    OnePoint(dims, env, Normalized(|dims|, w), i, j, Volume(dims));
    NormalizedOffsets(dims, w);
    ZeroMod(dims);
    MovedNowhere(dims, i, Negated(Offsets(|dims|, Normalized(|dims|, w).row)));
  }

  lemma NormalizedOffsets(dims: seq<nat>, w: Write)
    requires |dims| > 0 && WellFormed(|dims|, w)
    ensures var n := |dims|;
            var shift := Negated(Offsets(n, w.row));
            && Offsets(n, Normalized(n, w).row) == seq(n, _ => 0)
            && Offsets(n, Normalized(n, w).col) == Plus(shift, Offsets(n, w.col))
            && WellFormed(n, Normalized(n, w))
  {
    hide ShiftIndices;
    var n, shift := |dims|, Negated(Offsets(|dims|, w.row));
    WellFormedShift(n, w.value, shift);
    ShiftedHalves(Offsets(n, w.row), shift);
    ShiftedHalves(Offsets(n, w.col), shift);
    assert Plus(shift, Offsets(n, w.row)) == seq(n, _ => 0);
    TakeAll(ShiftIndices(Offsets(n, w.row), shift), n);
    TakeAll(ShiftIndices(Offsets(n, w.col), shift), n);
    TakeAll(Offsets(n, w.row), n);
    TakeAll(Offsets(n, w.col), n);
  }

  lemma TakeAll(s: seq<int>, n: nat)
    requires |s| == n
    ensures s[..n] == s
  {
  }

  lemma {:induction false} WellFormedShift(n: nat, v: Value, shift: seq<int>)
    requires |shift| == n > 0 && WellFormedValue(n, v)
    ensures WellFormedValue(n, ShiftValue(v, shift))
  {
    match v
    case Op(_, a, b) => WellFormedShift(n, a, shift); WellFormedShift(n, b, shift);
    case _ =>
  }

  /** The normalized kernel assembles the same matrices, and writes only to the row of its point. */
  lemma {:induction false} NormalizationKeepsMatrix(dims: seq<nat>, env: Env, kernel: seq<Write>, t: nat, i: nat,
                                                    j: nat)
    requires Positive(dims) && |dims| > 0 && i < Volume(dims) && j < Volume(dims)
    requires forall w :: w in kernel ==> WellFormed(|dims|, w) && w.add && (w.tensor == t ==> Unaffected(dims, w))
    ensures forall w :: w in NormalizedKernel(|dims|, kernel) ==>
              WellFormed(|dims|, w) && w.add && w.row == Relative(seq(|dims|, _ => 0))
    ensures Assembled(dims, env, NormalizedKernel(|dims|, kernel), t, i, j, Volume(dims)) ==
            Assembled(dims, env, kernel, t, i, j, Volume(dims))
  {
    hide Volume, WriteSum, Assembled, Normalized, WellFormedValue, NoOriginRead;
    var n := |dims|;
    if kernel == [] {
      assert NormalizedKernel(n, kernel) == [];
    } else {
      var w, rest := kernel[0], kernel[1..];
      NormalizationKeepsMatrix(dims, env, rest, t, i, j);
      assert NormalizedKernel(n, kernel) == [Normalized(n, w)] + NormalizedKernel(n, rest);
      NormalizedShape(dims, w);
      if w.tensor == t { SameWriteSum(dims, env, w, i, j); }
      SumByWrites(dims, env, kernel, t, i, j, Volume(dims));
      assert NormalizedKernel(n, kernel)[1..] == NormalizedKernel(n, rest);
      SumByWrites(dims, env, NormalizedKernel(n, kernel), t, i, j, Volume(dims));
    }
  }

  lemma NormalizedShape(dims: seq<nat>, w: Write)
    requires |dims| > 0 && WellFormed(|dims|, w)
    ensures var r := Normalized(|dims|, w);
            WellFormed(|dims|, r) && r.tensor == w.tensor && r.add == w.add && r.row == Relative(seq(|dims|, _ => 0))
  {
    NormalizedOffsets(dims, w);
  }

  // ---------- Writes to the kernel's own row ----------

  lemma {:induction false} NoShift(n: nat, v: Value, shift: seq<int>)
    requires |shift| == n > 0 && WellFormedValue(n, v) && forall k :: 0 <= k < n ==> shift[k] == 0
    ensures ShiftValue(v, shift) == v
  {
    match v
    case At(_, indices) => NoShiftOfIndices(indices, shift);
    case Op(_, a, b) => NoShift(n, a, shift); NoShift(n, b, shift);
    case _ =>
  }

  lemma NoShiftOfIndices(indices: seq<int>, shift: seq<int>)
    requires |shift| > 0 && forall k :: 0 <= k < |shift| ==> shift[k] == 0
    ensures ShiftIndices(indices, shift) == indices
  {
    hide ShiftIndices;
    forall i | 0 <= i < |indices| ensures ShiftIndices(indices, shift)[i] == indices[i] {
      ShiftIndicesAt(indices, shift, i);
    }
  }

  /** A write to the row of the kernel's own point keeps its value and its column. */
  lemma OwnRowKept(n: nat, w: Write)
    requires n > 0 && WellFormed(n, w) && w.row.Origin?
    ensures var r := Normalized(n, w);
            && r.tensor == w.tensor && r.value == w.value && r.add == w.add && r.row.Relative? && r.col.Relative?
            && |r.row.offsets| == |r.col.offsets| == n && (forall k :: 0 <= k < n ==> r.row.offsets[k] == 0)
            && (w.col.Relative? ==> r.col == w.col)
            && (w.col.Origin? ==> forall k :: 0 <= k < n ==> r.col.offsets[k] == 0)
  {
    hide ShiftIndices, ShiftValue;
    var shift := Negated(Offsets(n, w.row));
    NoShift(n, w.value, shift);
    NoShiftOfIndices(Offsets(n, w.row), shift);
    NoShiftOfIndices(Offsets(n, w.col), shift);
  }

  /** What the writes to matrix t add at (i, j) if all of them are to the kernel's own row: those whose column
      leads from i to j add their values at i. */
  ghost function RowSum(dims: seq<nat>, env: Env, kernel: seq<Write>, t: nat, i: nat, j: nat): (x: real)
    requires Positive(dims) && forall w :: w in kernel ==> WellFormed(|dims|, w)
  {
    if kernel == [] then 0.0
    else
      assert WellFormed(|dims|, kernel[0]);
      (if kernel[0].tensor == t && PointOf(dims, kernel[0].col, i) == j then Eval(dims, env, kernel[0].value, i)
       else 0.0) +
      RowSum(dims, env, kernel[1..], t, i, j)
  }

  ghost predicate OwnRows(kernel: seq<Write>, t: nat) {
    forall w :: w in kernel && w.tensor == t ==> w.row.Origin?
  }

  lemma {:induction false} OwnRowsAt(dims: seq<nat>, env: Env, kernel: seq<Write>, t: nat, p: nat, i: nat, j: nat)
    requires Positive(dims) && OwnRows(kernel, t) && forall w :: w in kernel ==> WellFormed(|dims|, w)
    ensures KernelAt(dims, env, kernel, t, p, i, j) == if p == i then RowSum(dims, env, kernel, t, i, j) else 0.0
  {
    hide Eval, Moved;
    if kernel != [] { OwnRowsAt(dims, env, kernel[1..], t, p, i, j); }
  }

  /** Kernels that write to the row of their own point: row i of the matrix is what the run at point i writes. */
  lemma {:induction false} OwnRowsMatrix(dims: seq<nat>, env: Env, kernel: seq<Write>, t: nat, i: nat, j: nat, n: nat)
    requires Positive(dims) && OwnRows(kernel, t) && forall w :: w in kernel ==> WellFormed(|dims|, w)
    ensures Assembled(dims, env, kernel, t, i, j, n) == if i < n then RowSum(dims, env, kernel, t, i, j) else 0.0
  {
    hide KernelAt, RowSum, OwnRows;
    if n > 0 {
      OwnRowsMatrix(dims, env, kernel, t, i, j, n - 1);
      OwnRowsAt(dims, env, kernel, t, n - 1, i, j);
    }
  }

  // ---------- Origin reads ----------

  /** How often a value reads a field at the kernel's own point. */
  function OriginReads(v: Value): (n: real)
    ensures n >= 0.0 && (NoOriginRead(v) || n >= 1.0)
  {
    match v
    case AtOrigin(_) => 1.0
    case Op(_, a, b) => OriginReads(a) + OriginReads(b)
    case _ => 0.0
  }

  /** Fields that indicate point 0, nothing at links, and operators that add. */
  ghost function Indicator(): (env: Env)
  {
    Env((f, p) => if p == 0 then 1.0 else 0.0, (f, p, q) => 0.0, (o, x, y) => x + y)
  }

  /** Shifting a value to a point other than 0 loses what its origin reads saw at 0. */
  lemma {:induction false} ShiftLosesReads(dims: seq<nat>, v: Value, q: nat, shift: seq<int>)
    requires Positive(dims) && |shift| == |dims| > 0 && 0 < q < Volume(dims) && WellFormedValue(|dims|, v)
    ensures WellFormedValue(|dims|, ShiftValue(v, shift))
    ensures Eval(dims, Indicator(), ShiftValue(v, shift), q) +
            (if Moved(dims, q, shift) == 0 then OriginReads(v) else 0.0) ==
            Eval(dims, Indicator(), v, Moved(dims, q, shift))
  {
    hide Moved, Volume, ShiftIndices;
    match v
    case At(field, indices) =>
      ShiftedRead(dims, q, indices, shift);
    case Op(_, a, b) =>
      ShiftLosesReads(dims, a, q, shift);
      ShiftLosesReads(dims, b, q, shift);
    case _ =>
  }

  /** What a write to row i, which is not row 0, loses at column j. */
  ghost function Lost(dims: seq<nat>, w: Write, i: nat, j: nat): (x: real)
    requires Positive(dims) && WellFormed(|dims|, w)
    ensures x >= 0.0
  {
    var n := |dims|;
    if Moved(dims, i, Negated(Offsets(n, w.row))) == 0 && Moved(dims, 0, Offsets(n, w.col)) == j
    then OriginReads(w.value)
    else 0.0
  }

  lemma WriteLosesReads(dims: seq<nat>, w: Write, i: nat, j: nat)
    requires Positive(dims) && |dims| > 0 && WellFormed(|dims|, w) && 0 < i < Volume(dims) && j < Volume(dims)
    ensures WellFormed(|dims|, Normalized(|dims|, w))
    ensures WriteSum(dims, Indicator(), Normalized(|dims|, w), i, j, Volume(dims)) + Lost(dims, w, i, j) ==
            WriteSum(dims, Indicator(), w, i, j, Volume(dims))
  {
    hide Volume, Moved, Eval, ShiftIndices, ShiftValue, Plus, WriteSum, OriginReads, Contribution;
    var n, r, c := |dims|, Offsets(|dims|, w.row), Offsets(|dims|, w.col);
    var shift := Negated(r);
    NormalizedOffsets(dims, w);
    ZeroMod(dims);
    MovedNowhere(dims, i, Offsets(n, Normalized(n, w).row));
    MovedNowhere(dims, i, Negated(Offsets(n, Normalized(n, w).row)));
    MovedBack(dims, Moved(dims, i, shift), i, r);
    MovedTwice(dims, i, shift, c);
    ShiftLosesReads(dims, w.value, i, shift);
    ContributionByOffsets(dims, Indicator(), w, Moved(dims, i, shift), i, j);
    ContributionByOffsets(dims, Indicator(), Normalized(n, w), i, i, j);
    OnePoint(dims, Indicator(), w, i, j, Volume(dims));
    OnePoint(dims, Indicator(), Normalized(n, w), i, j, Volume(dims));
  }

  ghost predicate AllWellFormed(n: nat, kernel: seq<Write>) {
    forall w :: w in kernel ==> WellFormed(n, w)
  }

  lemma NormalizedWellFormed(dims: seq<nat>, kernel: seq<Write>)
    requires |dims| > 0 && AllWellFormed(|dims|, kernel)
    ensures AllWellFormed(|dims|, NormalizedKernel(|dims|, kernel))
  {
    hide Normalized, WellFormed;
    forall k | 0 <= k < |kernel| ensures WellFormed(|dims|, Normalized(|dims|, kernel[k])) {
      NormalizedShape(dims, kernel[k]);
    }
  }

  /** The losses of different writes never cancel. */
  lemma {:induction false} LossesAdd(dims: seq<nat>, kernel: seq<Write>, t: nat, i: nat, j: nat, w: Write)
    requires Positive(dims) && |dims| > 0 && AllWellFormed(|dims|, kernel) && 0 < i < Volume(dims) && j < Volume(dims)
    ensures AllWellFormed(|dims|, NormalizedKernel(|dims|, kernel))
    ensures Assembled(dims, Indicator(), NormalizedKernel(|dims|, kernel), t, i, j, Volume(dims)) +
            (if w in kernel && w.tensor == t then Lost(dims, w, i, j) else 0.0) <=
            Assembled(dims, Indicator(), kernel, t, i, j, Volume(dims))
  {
    hide Volume, WriteSum, Assembled, Normalized, WellFormed, Lost, Indicator;
    var n := |dims|;
    NormalizedWellFormed(dims, kernel);
    if kernel == [] {
      assert NormalizedKernel(n, kernel) == [];
    } else {
      var first, rest := kernel[0], kernel[1..];
      LossesAdd(dims, rest, t, i, j, w);
      assert NormalizedKernel(n, kernel) == [Normalized(n, first)] + NormalizedKernel(n, rest);
      NormalizedShape(dims, first);
      WriteLosesReads(dims, first, i, j);
      SumByWrites(dims, Indicator(), kernel, t, i, j, Volume(dims));
      assert NormalizedKernel(n, kernel)[1..] == NormalizedKernel(n, rest);
      SumByWrites(dims, Indicator(), NormalizedKernel(n, kernel), t, i, j, Volume(dims));
    }
  }

  /** Normalization does not show in matrix t, whatever the fields and operators are. */
  ghost predicate SameMatrix(dims: seq<nat>, kernel: seq<Write>, normalized: seq<Write>, t: nat)
    requires Positive(dims) && AllWellFormed(|dims|, kernel) && AllWellFormed(|dims|, normalized)
  {
    forall env: Env, i: nat, j: nat :: i < Volume(dims) && j < Volume(dims) ==>
      Assembled(dims, env, normalized, t, i, j, Volume(dims)) == Assembled(dims, env, kernel, t, i, j, Volume(dims))
  }

  /** A write that is affected shows: at the entry that the kernel running at point 0 writes to. */
  lemma AffectedShows(dims: seq<nat>, kernel: seq<Write>, t: nat, w: Write)
    requires Positive(dims) && |dims| > 0 && AllWellFormed(|dims|, kernel)
    requires w in kernel && w.tensor == t && !Unaffected(dims, w)
    ensures AllWellFormed(|dims|, NormalizedKernel(|dims|, kernel))
    ensures !SameMatrix(dims, kernel, NormalizedKernel(|dims|, kernel), t)
  {
    hide Volume, Moved, Assembled, Indicator, NormalizedKernel, WellFormedValue, NoOriginRead;
    var n, r, c := |dims|, Offsets(|dims|, w.row), Offsets(|dims|, w.col);
    var i, j := Moved(dims, 0, r), Moved(dims, 0, c);
    VolumePositive(dims);
    ZeroMoved(dims, r);
    MovedBack(dims, 0, i, r);
    NormalizedWellFormed(dims, kernel);
    LossesAdd(dims, kernel, t, i, j, w);
    assert Lost(dims, w, i, j) >= 1.0;
  }

  /** Normalization keeps a matrix exactly if every write to it is unaffected. */
  lemma NormalizationIsExact(dims: seq<nat>, kernel: seq<Write>, t: nat)
    requires Positive(dims) && |dims| > 0 && AllWellFormed(|dims|, kernel) && forall w :: w in kernel ==> w.add
    ensures AllWellFormed(|dims|, NormalizedKernel(|dims|, kernel))
    ensures SameMatrix(dims, kernel, NormalizedKernel(|dims|, kernel), t) <==>
            forall w :: w in kernel && w.tensor == t ==> Unaffected(dims, w)
  {
    hide Assembled, Unaffected, NormalizedKernel, WellFormed, Volume;
    NormalizedWellFormed(dims, kernel);
    if forall w :: w in kernel && w.tensor == t ==> Unaffected(dims, w) {
      forall env: Env, i: nat, j: nat | i < Volume(dims) && j < Volume(dims)
        ensures Assembled(dims, env, NormalizedKernel(|dims|, kernel), t, i, j, Volume(dims)) ==
                Assembled(dims, env, kernel, t, i, j, Volume(dims)) {
        NormalizationKeepsMatrix(dims, env, kernel, t, i, j);
      }
    } else {
      var w :| w in kernel && w.tensor == t && !Unaffected(dims, w);
      AffectedShows(dims, kernel, t, w);
    }
  }
}
