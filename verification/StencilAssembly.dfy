/** A stencil matrix from end to end: the normalized kernel runs along the emitted loop nest and adds to a value
    array at addresses that are computed from the loop variable; read through the stored index, the array is the
    matrix that the kernel assembles as it was written.
 */
module StencilAssembly {
  import opened Grids
  import opened GraphMeaning
  import opened PathIndices
  import opened StencilNorm
  import opened StencilAddressing

  /** The kernel writes to the row of its point, at columns of the layout. */
  ghost predicate Runnable(dims: seq<nat>, kernel: seq<Write>, t: nat, layout: map<seq<int>, nat>) {
    forall w :: w in kernel ==> RunnableWrite(dims, w, t, layout)
  }

  ghost predicate RunnableWrite(dims: seq<nat>, w: Write, t: nat, layout: map<seq<int>, nat>) {
    WellFormed(|dims|, w) &&
      (w.tensor == t ==> w.row == Relative(seq(|dims|, _ => 0)) && Offsets(|dims|, w.col) in layout)
  }

  // ---------- Reading the value array ----------

  /** The values stored for column j at the places lo..hi-1. */
  ghost function EntrySum(vals: seq<real>, sinks: seq<nat>, j: nat, lo: nat, hi: nat): (x: real)
    requires lo <= hi <= |vals| == |sinks|
  {
    if hi == lo then 0.0 else EntrySum(vals, sinks, j, lo, hi - 1) + (if sinks[hi - 1] == j then vals[hi - 1] else 0.0)
  }

  lemma {:induction false} EntrySumUpdate(vals: seq<real>, sinks: seq<nat>, j: nat, lo: nat, hi: nat, l: nat, x: real)
    requires lo <= hi <= |vals| == |sinks| && l < |vals|
    ensures EntrySum(vals[l := vals[l] + x], sinks, j, lo, hi) ==
            EntrySum(vals, sinks, j, lo, hi) + (if lo <= l < hi && sinks[l] == j then x else 0.0)
    decreases hi
  {
    if hi > lo { EntrySumUpdate(vals, sinks, j, lo, hi - 1, l, x); }
  }

  lemma {:induction false} EntrySumZero(vals: seq<real>, sinks: seq<nat>, j: nat, lo: nat, hi: nat)
    requires lo <= hi <= |vals| == |sinks| && forall l :: 0 <= l < |vals| ==> vals[l] == 0.0
    ensures EntrySum(vals, sinks, j, lo, hi) == 0.0
    decreases hi
  {
    if hi > lo { EntrySumZero(vals, sinks, j, lo, hi - 1); }
  }

  /** The value array, read through the index, at (i, j). */
  ghost function StoredAt(vals: seq<real>, pi: PathIndex, i: nat, j: nat): (x: real)
    requires i + 1 < |pi.coords| && pi.coords[i] <= pi.coords[i + 1] <= |pi.sinks| == |vals|
  {
    EntrySum(vals, pi.sinks, j, pi.coords[i], pi.coords[i + 1])
  }

  // ---------- One kernel run ----------

  lemma {:induction false} KernelSnoc(dims: seq<nat>, env: Env, kernel: seq<Write>, w: Write, t: nat, p: nat, i: nat,
                                      j: nat)
    requires Positive(dims) && WellFormed(|dims|, w) && forall w' :: w' in kernel ==> WellFormed(|dims|, w')
    ensures KernelAt(dims, env, kernel + [w], t, p, i, j) ==
            KernelAt(dims, env, kernel, t, p, i, j) +
              (if w.tensor == t then Contribution(dims, env, w, p, i, j) else 0.0)
  {
    hide Contribution, WellFormed;
    if kernel == [] {
      assert (kernel + [w])[1..] == [];
    } else {
      KernelSnoc(dims, env, kernel[1..], w, t, p, i, j);
      assert (kernel + [w])[1..] == kernel[1..] + [w];
    }
  }

  /** Entry (i, j) after the kernel has run at the points before p, and its first n writes at p. */
  ghost function Partial(dims: seq<nat>, env: Env, kernel: seq<Write>, t: nat, i: nat, j: nat, p: nat,
                         n: nat): (x: real)
    requires Positive(dims) && AllWellFormed(|dims|, kernel) && n <= |kernel|
  {
    assert forall w :: w in kernel[..n] ==> w in kernel;
    Assembled(dims, env, kernel, t, i, j, p) + KernelAt(dims, env, kernel[..n], t, p, i, j)
  }

  lemma PartialNext(dims: seq<nat>, env: Env, kernel: seq<Write>, t: nat, i: nat, j: nat, p: nat, n: nat)
    requires Positive(dims) && AllWellFormed(|dims|, kernel) && n < |kernel|
    ensures Partial(dims, env, kernel, t, i, j, p, n + 1) ==
            Partial(dims, env, kernel, t, i, j, p, n) +
            (if kernel[n].tensor == t then Contribution(dims, env, kernel[n], p, i, j) else 0.0)
  {
    hide Assembled, KernelAt, Contribution, WellFormed;
    assert forall w :: w in kernel[..n] ==> w in kernel;
    assert kernel[..n + 1] == kernel[..n] + [kernel[n]];
    KernelSnoc(dims, env, kernel[..n], kernel[n], t, p, i, j);
  }

  lemma PartialEnds(dims: seq<nat>, env: Env, kernel: seq<Write>, t: nat, i: nat, j: nat, p: nat)
    requires Positive(dims) && AllWellFormed(|dims|, kernel)
    ensures Partial(dims, env, kernel, t, i, j, p, 0) == Assembled(dims, env, kernel, t, i, j, p)
    ensures Partial(dims, env, kernel, t, i, j, p, |kernel|) == Assembled(dims, env, kernel, t, i, j, p + 1)
  {
    hide Contribution, WellFormed;
    assert kernel[..|kernel|] == kernel && kernel[..0] == [];
  }

  /** A write to the row of its point adds at that point's row only. */
  lemma OwnRow(dims: seq<nat>, env: Env, w: Write, t: nat, layout: map<seq<int>, nat>, p: nat, i: nat, j: nat)
    requires Positive(dims) && RunnableWrite(dims, w, t, layout) && w.tensor == t && p < Volume(dims)
    ensures |Offsets(|dims|, w.col)| == |dims|
    ensures Contribution(dims, env, w, p, i, j) ==
            if p == i && Moved(dims, p, Offsets(|dims|, w.col)) == j then Eval(dims, env, w.value, p) else 0.0
  {
    hide Moved, Eval, Volume, Contribution;
    ContributionByOffsets(dims, env, w, p, i, j);
    ZeroMod(dims);
    MovedNowhere(dims, p, Offsets(|dims|, w.row));
  }

  /** The array holds what has been assembled so far, at one entry and at all. */
  ghost predicate HoldsAt(dims: seq<nat>, env: Env, kernel: seq<Write>, t: nat, pi: PathIndex, vals: seq<real>,
                          p: nat, n: nat, i: nat, j: nat)
    requires Positive(dims) && AllWellFormed(|dims|, kernel) && n <= |kernel|
  {
    && i + 1 < |pi.coords| && pi.coords[i] <= pi.coords[i + 1] <= |pi.sinks| == |vals|
    && StoredAt(vals, pi, i, j) == Partial(dims, env, kernel, t, i, j, p, n)
  }

  ghost predicate HoldsSoFar(dims: seq<nat>, env: Env, kernel: seq<Write>, t: nat, pi: PathIndex, vals: seq<real>,
                             p: nat, n: nat)
    requires Positive(dims) && AllWellFormed(|dims|, kernel) && n <= |kernel|
  {
    forall i: nat, j: nat :: i < Volume(dims) && j < Volume(dims) ==>
      HoldsAt(dims, env, kernel, t, pi, vals, p, n, i, j)
  }

  lemma IndexShape(dims: seq<nat>, layout: map<seq<int>, nat>, offsets: seq<seq<int>>, pi: PathIndex)
    requires StencilIndex(dims, layout, offsets, pi)
    ensures ValidIndex(pi) && NumElements(pi) == Volume(dims)
  {
    hide Packed, VvRow, Volume;
    PackedIsValid(VvRows(dims, offsets, Volume(dims)));
  }

  lemma IndexRow(dims: seq<nat>, pi: PathIndex, i: nat)
    requires ValidIndex(pi) && NumElements(pi) == Volume(dims) && i < Volume(dims)
    ensures i + 1 < |pi.coords| && pi.coords[i] <= pi.coords[i + 1] <= |pi.sinks|
  {
  }

  /** Places in different rows differ. */
  lemma RowOfPlace(dims: seq<nat>, pi: PathIndex, p: nat, i: nat, l: nat)
    requires ValidIndex(pi) && NumElements(pi) == Volume(dims) && p < Volume(dims) && i < Volume(dims)
    requires pi.coords[p] <= l < pi.coords[p + 1]
    ensures pi.coords[i] <= l < pi.coords[i + 1] <==> i == p
  {
    if i < p { assert pi.coords[i + 1] <= pi.coords[p]; }
    if p < i { assert pi.coords[p + 1] <= pi.coords[i]; }
  }

  /** The array after one write. */
  ghost function Written(dims: seq<nat>, env: Env, w: Write, t: nat, vals: seq<real>, p: nat, l: nat): (r: seq<real>)
    requires Positive(dims) && WellFormed(|dims|, w) && (w.tensor == t ==> l < |vals|)
    ensures |r| == |vals|
  {
    if w.tensor == t then vals[l := vals[l] + Eval(dims, env, w.value, p)] else vals
  }

  lemma WriteStoredAt(dims: seq<nat>, env: Env, kernel: seq<Write>, t: nat, layout: map<seq<int>, nat>, pi: PathIndex,
                      vals: seq<real>, p: nat, n: nat, l: nat, i: nat, j: nat)
    requires Positive(dims) && AllWellFormed(|dims|, kernel) && Runnable(dims, kernel, t, layout) && n < |kernel|
    requires ValidIndex(pi) && NumElements(pi) == Volume(dims) && |vals| == |pi.sinks| && p < Volume(dims)
    requires i < Volume(dims) && HoldsAt(dims, env, kernel, t, pi, vals, p, n, i, j)
    requires kernel[n].tensor == t ==> HoldsPoint(dims, pi, p, Offsets(|dims|, kernel[n].col), l)
    ensures HoldsAt(dims, env, kernel, t, pi, Written(dims, env, kernel[n], t, vals, p, l), p, n + 1, i, j)
  {
    hide Partial, Volume, Moved, Eval, Contribution, ValidIndex, NumElements, EntrySum, WellFormed;
    var w := kernel[n];
    PartialNext(dims, env, kernel, t, i, j, p, n);
    if w.tensor == t {
      assert RunnableWrite(dims, w, t, layout) && WellFormed(|dims|, w);
      WellFormedParts(dims, w);
      OwnRow(dims, env, w, t, layout, p, i, j);
      RowOfPlace(dims, pi, p, i, l);
      EntrySumUpdate(vals, pi.sinks, j, pi.coords[i], pi.coords[i + 1], l, Eval(dims, env, w.value, p));
    }
  }

  lemma WellFormedParts(dims: seq<nat>, w: Write)
    requires WellFormed(|dims|, w)
    ensures WellFormedValue(|dims|, w.value)
  {
  }

  /** One write. */
  lemma WriteStored(dims: seq<nat>, env: Env, kernel: seq<Write>, t: nat, layout: map<seq<int>, nat>, pi: PathIndex,
                    vals: seq<real>, p: nat, n: nat, l: nat)
    requires Positive(dims) && AllWellFormed(|dims|, kernel) && Runnable(dims, kernel, t, layout) && n < |kernel|
    requires ValidIndex(pi) && NumElements(pi) == Volume(dims) && |vals| == |pi.sinks| && p < Volume(dims)
    requires HoldsSoFar(dims, env, kernel, t, pi, vals, p, n)
    requires kernel[n].tensor == t ==> HoldsPoint(dims, pi, p, Offsets(|dims|, kernel[n].col), l)
    ensures kernel[n].tensor == t ==> l < |vals|
    ensures HoldsSoFar(dims, env, kernel, t, pi, Written(dims, env, kernel[n], t, vals, p, l), p, n + 1)
  {
    hide HoldsAt, Volume, Written, ValidIndex, NumElements;
    var vals', next := Written(dims, env, kernel[n], t, vals, p, l), n + 1;
    forall i: nat, j: nat | i < Volume(dims) && j < Volume(dims)
      ensures HoldsAt(dims, env, kernel, t, pi, vals', p, next, i, j) {
      WriteStoredAt(dims, env, kernel, t, layout, pi, vals, p, n, l, i, j);
    }
  }

  lemma NextPoint(dims: seq<nat>, env: Env, kernel: seq<Write>, t: nat, pi: PathIndex, vals: seq<real>, p: nat)
    requires Positive(dims) && AllWellFormed(|dims|, kernel)
    requires HoldsSoFar(dims, env, kernel, t, pi, vals, p, |kernel|)
    ensures HoldsSoFar(dims, env, kernel, t, pi, vals, p + 1, 0)
  {
    hide Partial, Volume, StoredAt;
    var next := p + 1;
    forall i: nat, j: nat | i < Volume(dims) && j < Volume(dims)
      ensures HoldsAt(dims, env, kernel, t, pi, vals, next, 0, i, j) {
      PartialEnds(dims, env, kernel, t, i, j, p);
      PartialEnds(dims, env, kernel, t, i, j, p + 1);
      assert HoldsAt(dims, env, kernel, t, pi, vals, p, |kernel|, i, j);
    }
  }

  lemma NothingStored(dims: seq<nat>, env: Env, kernel: seq<Write>, t: nat, pi: PathIndex, vals: seq<real>)
    requires Positive(dims) && AllWellFormed(|dims|, kernel)
    requires ValidIndex(pi) && NumElements(pi) == Volume(dims) && |vals| == |pi.sinks|
    requires forall l :: 0 <= l < |vals| ==> vals[l] == 0.0
    ensures HoldsSoFar(dims, env, kernel, t, pi, vals, 0, 0)
  {
    hide Partial, Volume, ValidIndex, NumElements;
    forall i: nat, j: nat | i < Volume(dims) && j < Volume(dims)
      ensures HoldsAt(dims, env, kernel, t, pi, vals, 0, 0, i, j) {
      IndexRow(dims, pi, i);
      PartialEnds(dims, env, kernel, t, i, j, 0);
      NothingAssembled0(dims, env, kernel, t, i, j);
      EntrySumZero(vals, pi.sinks, j, pi.coords[i], pi.coords[i + 1]);
    }
  }

  lemma NothingAssembled0(dims: seq<nat>, env: Env, kernel: seq<Write>, t: nat, i: nat, j: nat)
    requires Positive(dims) && AllWellFormed(|dims|, kernel)
    ensures Assembled(dims, env, kernel, t, i, j, 0) == 0.0
  {
  }

  /** The array, read through the index, is the matrix. */
  ghost predicate IsMatrix(dims: seq<nat>, env: Env, kernel: seq<Write>, t: nat, pi: PathIndex, vals: seq<real>)
    requires Positive(dims) && AllWellFormed(|dims|, kernel)
  {
    forall i: nat, j: nat :: i < Volume(dims) && j < Volume(dims) ==> IsEntry(dims, env, kernel, t, pi, vals, i, j)
  }

  ghost predicate IsEntry(dims: seq<nat>, env: Env, kernel: seq<Write>, t: nat, pi: PathIndex, vals: seq<real>, i: nat,
                          j: nat)
    requires Positive(dims) && AllWellFormed(|dims|, kernel)
  {
    && i + 1 < |pi.coords| && pi.coords[i] <= pi.coords[i + 1] <= |pi.sinks| == |vals|
    && StoredAt(vals, pi, i, j) == Assembled(dims, env, kernel, t, i, j, Volume(dims))
  }

  lemma AllStored(dims: seq<nat>, env: Env, kernel: seq<Write>, t: nat, pi: PathIndex, vals: seq<real>)
    requires Positive(dims) && AllWellFormed(|dims|, kernel)
    requires HoldsSoFar(dims, env, kernel, t, pi, vals, Volume(dims), 0)
    ensures IsMatrix(dims, env, kernel, t, pi, vals)
  {
    hide Partial, Volume, StoredAt, Assembled;
    forall i: nat, j: nat | i < Volume(dims) && j < Volume(dims) ensures IsEntry(dims, env, kernel, t, pi, vals, i, j) {
      PartialEnds(dims, env, kernel, t, i, j, Volume(dims));
      assert HoldsAt(dims, env, kernel, t, pi, vals, Volume(dims), 0, i, j);
    }
  }

  // ---------- The run ----------

  /** One run of the kernel, at the point that the loop variable numbers. */
  method RunKernel(dims: seq<nat>, env: Env, kernel: seq<Write>, t: nat, layout: map<seq<int>, nat>,
                   ghost offsets: seq<seq<int>>, ghost pi: PathIndex, loopVar: nat, vals: array<real>)
    requires StencilIndex(dims, layout, offsets, pi) && Positive(dims) && loopVar < Volume(dims)
    requires AllWellFormed(|dims|, kernel) && Runnable(dims, kernel, t, layout) && vals.Length == |pi.sinks|
    requires HoldsSoFar(dims, env, kernel, t, pi, vals[..], loopVar, 0)
    modifies vals
    ensures HoldsSoFar(dims, env, kernel, t, pi, vals[..], loopVar + 1, 0)
  {
    hide Volume, Eval, HoldsSoFar, StencilIndex, ValidIndex, NumElements, Cloc, WellFormedValue;
    IndexShape(dims, layout, offsets, pi);
    for n := 0 to |kernel|
      invariant HoldsSoFar(dims, env, kernel, t, pi, vals[..], loopVar, n)
    {
      var w := kernel[n];
      assert RunnableWrite(dims, w, t, layout);
      ghost var before := vals[..];
      if w.tensor == t {
        StencilAddress(dims, layout, offsets, pi, loopVar, Offsets(|dims|, w.col));
        var l := Cloc(layout, loopVar, Offsets(|dims|, w.col));
        WriteStored(dims, env, kernel, t, layout, pi, before, loopVar, n, l);
        vals[l] := vals[l] + Eval(dims, env, w.value, loopVar);
        assert vals[..] == Written(dims, env, w, t, before, loopVar, l);
      } else {
        WriteStored(dims, env, kernel, t, layout, pi, before, loopVar, n, 0);
      }
    }
    NextPoint(dims, env, kernel, t, pi, vals[..], loopVar);
  }

  /** Runs the kernel along the nest. */
  method RunNest(dims: seq<nat>, env: Env, kernel: seq<Write>, t: nat, layout: map<seq<int>, nat>,
                 ghost offsets: seq<seq<int>>, pi: PathIndex, vars: seq<int>) returns (vals: array<real>)
    requires StencilIndex(dims, layout, offsets, pi) && Positive(dims) && |vars| == |dims|
    requires AllWellFormed(|dims|, kernel) && Runnable(dims, kernel, t, layout)
    ensures fresh(vals) && IsMatrix(dims, env, kernel, t, pi, vals[..])
  {
    hide Volume, HoldsSoFar, IsMatrix, Runs, StencilIndex, ValidIndex, NumElements;
    IndexShape(dims, layout, offsets, pi);
    vals := new real[|pi.sinks|](_ => 0.0);
    NothingStored(dims, env, kernel, t, pi, vals[..]);
    VisitCount(dims, vars);
    var visits := Runs(NestOf(|dims|), dims, 0, vars);
    for p := 0 to |visits|
      invariant HoldsSoFar(dims, env, kernel, t, pi, vals[..], p, 0)
    {
      GridNest(dims, vars, p);
      RunKernel(dims, env, kernel, t, layout, offsets, pi, visits[p].0, vals);
    }
    AllStored(dims, env, kernel, t, pi, vals[..]);
  }

  lemma VisitCount(dims: seq<nat>, vars: seq<int>)
    requires Positive(dims) && |vars| == |dims|
    ensures DimsBelow(NestOf(|dims|), |dims|) && |Runs(NestOf(|dims|), dims, 0, vars)| == Volume(dims)
  {
    NestVisits(dims, |dims|, 0, vars);
    assert dims[..|dims|] == dims;
  }

  // ---------- From the kernel as written ----------

  /** The columns of the normalized kernel. */
  ghost function StencilOffsets(dims: seq<nat>, kernel: seq<Write>, t: nat): (offsets: seq<seq<int>>)
    requires |dims| > 0 && AllWellFormed(|dims|, kernel)
  {
    Distinct(Columns(NormalizedKernel(|dims|, kernel), t, |dims|))
  }

  lemma {:induction false} ColumnIn(kernel: seq<Write>, t: nat, n: nat, w: Write)
    requires w in kernel && w.tensor == t
    ensures Offsets(n, w.col) in Columns(kernel, t, n)
    decreases |kernel|
  {
    if w != kernel[|kernel| - 1] {
      ColumnIn(kernel[..|kernel| - 1], t, n, w);
    }
  }

  lemma {:induction false} ColumnLengths(kernel: seq<Write>, t: nat, n: nat)
    requires AllWellFormed(n, kernel)
    ensures forall c :: c in Columns(kernel, t, n) ==> |c| == n
    decreases |kernel|
  {
    if kernel != [] {
      var last := kernel[|kernel| - 1];
      ColumnLengths(kernel[..|kernel| - 1], t, n);
      assert WellFormed(n, last) && |Offsets(n, last.col)| == n;
    }
  }

  /** The normalized kernel can be run with the layout that is built for it. */
  lemma NormalizedRuns(dims: seq<nat>, kernel: seq<Write>, t: nat, layout: map<seq<int>, nat>)
    requires |dims| > 0 && AllWellFormed(|dims|, kernel) && Numbered(layout, StencilOffsets(dims, kernel, t))
    ensures AllWellFormed(|dims|, NormalizedKernel(|dims|, kernel))
    ensures Runnable(dims, NormalizedKernel(|dims|, kernel), t, layout)
    ensures forall j :: 0 <= j < |StencilOffsets(dims, kernel, t)| ==> |StencilOffsets(dims, kernel, t)[j]| == |dims|
    ensures forall w :: w in NormalizedKernel(|dims|, kernel) && w.tensor == t ==> AtPoint(w.row)
  {
    hide Normalized, Numbered, Columns, Distinct, WellFormed;
    var n := |dims|;
    var normalized, offsets := NormalizedKernel(n, kernel), StencilOffsets(dims, kernel, t);
    NormalizedWellFormed(dims, kernel);
    NumberedKeys(layout, offsets);
    ColumnLengths(normalized, t, n);
    forall w | w in normalized ensures RunnableWrite(dims, w, t, layout) && (w.tensor == t ==> AtPoint(w.row)) {
      var k :| 0 <= k < |kernel| && w == Normalized(n, kernel[k]);
      NormalizedShape(dims, kernel[k]);
      if w.tensor == t { ColumnIn(normalized, t, n, w); }
    }
  }

  /** Normalizes the kernel, numbers its columns, builds the index and runs the nest: the values are those of the
      matrix that the kernel assembles as it was written. */
  method AssembleStencil(dims: seq<nat>, env: Env, kernel: seq<Write>, t: nat, vars: seq<int>)
      returns (pi: PathIndex, vals: array<real>)
    requires Positive(dims) && |dims| > 0 && |vars| == |dims| && AllWellFormed(|dims|, kernel)
    requires forall w :: w in kernel ==> w.add && (w.tensor == t ==> Unaffected(dims, w))
    requires WithinOnePeriod(dims, StencilOffsets(dims, kernel, t))
    ensures fresh(vals) && IsMatrix(dims, env, kernel, t, pi, vals[..])
    ensures OwnRows(kernel, t) ==> HasOwnRows(dims, env, kernel, t, pi, vals[..])
  {
    hide IsMatrix, Volume, Normalized, HasOwnRows, OwnRows, Columns, Distinct, Numbered, Packed, VvRows, WellFormed,
      Unaffected, AtPoint, WithinOnePeriod;
    var rewriter := new NormalizeRowIndices(|dims|);
    var normalized := rewriter.RewriteKernel(kernel);
    AtPointRows(dims, kernel, t);
    var layout := BuildStencil(normalized, t, |dims|);
    ghost var offsets := StencilOffsets(dims, kernel, t);
    NormalizedRuns(dims, kernel, t, layout);
    var reversed := GetLayoutReversed(layout, offsets);
    var list := seq(|layout|, k requires 0 <= k => if k in reversed then reversed[k] else []);
    NumberedKeys(layout, offsets);
    assert list == offsets;
    pi := BuildVv(dims, list, Volume(dims));
    vals := RunNest(dims, env, normalized, t, layout, offsets, pi, vars);
    SameAssembly(dims, env, kernel, t, pi, vals[..]);
    if OwnRows(kernel, t) { OwnRowsStored(dims, env, kernel, t, pi, vals[..]); }
  }

  /** The value stored at (i, j) is what the kernel's run at point i writes there. */
  ghost predicate HasOwnRows(dims: seq<nat>, env: Env, kernel: seq<Write>, t: nat, pi: PathIndex, vals: seq<real>)
    requires Positive(dims) && AllWellFormed(|dims|, kernel)
  {
    forall i: nat, j: nat :: i < Volume(dims) && j < Volume(dims) ==> HasOwnEntry(dims, env, kernel, t, pi, vals, i, j)
  }

  ghost predicate HasOwnEntry(dims: seq<nat>, env: Env, kernel: seq<Write>, t: nat, pi: PathIndex, vals: seq<real>,
                              i: nat, j: nat)
    requires Positive(dims) && AllWellFormed(|dims|, kernel)
  {
    && i + 1 < |pi.coords| && pi.coords[i] <= pi.coords[i + 1] <= |pi.sinks| == |vals|
    && StoredAt(vals, pi, i, j) == RowSum(dims, env, kernel, t, i, j)
  }

  lemma OwnRowsStored(dims: seq<nat>, env: Env, kernel: seq<Write>, t: nat, pi: PathIndex, vals: seq<real>)
    requires Positive(dims) && AllWellFormed(|dims|, kernel) && OwnRows(kernel, t)
    requires IsMatrix(dims, env, kernel, t, pi, vals)
    ensures HasOwnRows(dims, env, kernel, t, pi, vals)
  {
    hide Volume, WellFormed, Assembled, StoredAt, RowSum, OwnRows;
    forall i: nat, j: nat | i < Volume(dims) && j < Volume(dims)
      ensures HasOwnEntry(dims, env, kernel, t, pi, vals, i, j) {
      OwnRowsMatrix(dims, env, kernel, t, i, j, Volume(dims));
      assert IsEntry(dims, env, kernel, t, pi, vals, i, j);
    }
  }

  lemma AtPointRows(dims: seq<nat>, kernel: seq<Write>, t: nat)
    requires |dims| > 0 && AllWellFormed(|dims|, kernel)
    ensures forall w :: w in NormalizedKernel(|dims|, kernel) && w.tensor == t ==> AtPoint(w.row)
  {
    hide Normalized, WellFormed;
    forall w | w in NormalizedKernel(|dims|, kernel) ensures AtPoint(w.row) {
      var k :| 0 <= k < |kernel| && w == Normalized(|dims|, kernel[k]);
      NormalizedShape(dims, kernel[k]);
    }
  }

  lemma SameAssembly(dims: seq<nat>, env: Env, kernel: seq<Write>, t: nat, pi: PathIndex, vals: seq<real>)
    requires Positive(dims) && |dims| > 0 && AllWellFormed(|dims|, kernel)
    requires forall w :: w in kernel ==> w.add && (w.tensor == t ==> Unaffected(dims, w))
    requires AllWellFormed(|dims|, NormalizedKernel(|dims|, kernel))
    requires IsMatrix(dims, env, NormalizedKernel(|dims|, kernel), t, pi, vals)
    ensures IsMatrix(dims, env, kernel, t, pi, vals)
  {
    hide Volume, Normalized, WellFormed, Unaffected, Assembled, StoredAt;
    forall i: nat, j: nat | i < Volume(dims) && j < Volume(dims) ensures IsEntry(dims, env, kernel, t, pi, vals, i, j) {
      NormalizationKeepsMatrix(dims, env, kernel, t, i, j);
      assert IsEntry(dims, env, NormalizedKernel(|dims|, kernel), t, pi, vals, i, j);
    }
  }
}
