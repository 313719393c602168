/** Stencil layouts, the loop nest that runs a kernel over a grid, and the addresses of matrix
    entries that are computed at compile time.
 */
module StencilAddressing {
  import opened Grids
  import opened GraphMeaning
  import opened PathIndices
  import opened StencilNorm
  import W = Words

  // ---------- Layout numbering ----------

  /** The members of a list in the order of their first occurrence. */
  function Distinct(cols: seq<seq<int>>): (d: seq<seq<int>>)
    ensures forall c :: c in d <==> c in cols
    ensures forall i, j :: 0 <= i < j < |d| ==> d[i] != d[j]
  {
    if cols == [] then [] else
      var front, last := Distinct(cols[..|cols| - 1]), cols[|cols| - 1];
      assert cols == cols[..|cols| - 1] + [last];
      if last in front then front else front + [last]
  }

  /** The map numbers the offsets by their position in the list. */
  ghost predicate Numbered(layout: map<seq<int>, nat>, offsets: seq<seq<int>>) {
    && (forall off :: off in layout <==> off in offsets)
    && |layout| == |offsets|
    && forall k :: 0 <= k < |offsets| ==> offsets[k] in layout && layout[offsets[k]] == k
  }

  /** Column offsets of the writes to a matrix, in program order. */
  function Columns(kernel: seq<Write>, t: nat, n: nat): (cols: seq<seq<int>>)
  {
    if kernel == [] then [] else
      var w := kernel[|kernel| - 1];
      Columns(kernel[..|kernel| - 1], t, n) + (if w.tensor == t then [Offsets(n, w.col)] else [])
  }

  lemma DistinctNext(cols: seq<seq<int>>, c: seq<int>)
    ensures Distinct([]) == []
    ensures Distinct(cols + [c]) == if c in Distinct(cols) then Distinct(cols) else Distinct(cols) + [c]
  {
    assert (cols + [c])[..|cols|] == cols;
  }

  lemma ColumnsNext(kernel: seq<Write>, i: nat, t: nat, n: nat)
    requires i < |kernel|
    ensures Columns([], t, n) == []
    ensures kernel[i].tensor == t ==>
            Columns(kernel[..i + 1], t, n) == Columns(kernel[..i], t, n) + [Offsets(n, kernel[i].col)]
    ensures kernel[i].tensor != t ==> Columns(kernel[..i + 1], t, n) == Columns(kernel[..i], t, n)
  {
    assert kernel[..i + 1][..i] == kernel[..i];
  }

  lemma NumberedMore(layout: map<seq<int>, nat>, offsets: seq<seq<int>>, c: seq<int>)
    requires Numbered(layout, offsets) && c !in offsets
    ensures Numbered(layout[c := |offsets|], offsets + [c])
  {
    forall k | 0 <= k < |offsets| + 1
      ensures (offsets + [c])[k] in layout[c := |offsets|] && layout[c := |offsets|][(offsets + [c])[k]] == k {
      if k < |offsets| { assert offsets[k] in offsets; }
    }
  }

  /** A row index that row normalization has brought back to the kernel's point. */
  predicate AtPoint(i: Index) {
    i.Origin? || forall k :: 0 <= k < |i.offsets| ==> i.offsets[k] == 0
  }

  /** buildStencil: columns are numbered as they are first written. */
  method BuildStencil(kernel: seq<Write>, stencilVar: nat, n: nat) returns (layout: map<seq<int>, nat>)
    requires forall w :: w in kernel && w.tensor == stencilVar ==> AtPoint(w.row)
    ensures Numbered(layout, Distinct(Columns(kernel, stencilVar, n)))
  {
    hide Distinct, Columns, Numbered;
    layout := map[];
    var stencilSize := 0;
    assert kernel[..0] == [];
    StartLayout(kernel, stencilVar, n);
    for i := 0 to |kernel|
      invariant Numbered(layout, Distinct(Columns(kernel[..i], stencilVar, n)))
      invariant stencilSize == |Distinct(Columns(kernel[..i], stencilVar, n))|
    {
      ColumnsNext(kernel, i, stencilVar, n);
      if kernel[i].tensor == stencilVar {
        var offsets := Offsets(n, kernel[i].col);
        ghost var cols := Columns(kernel[..i], stencilVar, n);
        DistinctNext(cols, offsets);
        NumberedKeys(layout, Distinct(cols));
        if offsets !in layout {
          NumberedMore(layout, Distinct(cols), offsets);
          layout := layout[offsets := stencilSize];
          stencilSize := stencilSize + 1;
        }
      }
    }
    assert kernel[..|kernel|] == kernel;
  }

  lemma StartLayout(kernel: seq<Write>, t: nat, n: nat)
    ensures Columns([], t, n) == [] && Distinct([]) == [] && Numbered(map[], [])
  {
  }

  lemma NumberedKeys(layout: map<seq<int>, nat>, offsets: seq<seq<int>>)
    requires Numbered(layout, offsets)
    ensures forall off :: off in layout <==> off in offsets
    ensures forall off :: off in layout ==> layout[off] < |offsets| && offsets[layout[off]] == off
    ensures |layout| == |offsets|
  {
    forall off | off in layout ensures layout[off] < |offsets| && offsets[layout[off]] == off {
      var k :| 0 <= k < |offsets| && offsets[k] == off;
    }
  }

  /** getLayoutReversed: the inverse of the numbering. */
  method GetLayoutReversed(layout: map<seq<int>, nat>, ghost offsets: seq<seq<int>>)
      returns (reversed: map<nat, seq<int>>)
    requires Numbered(layout, offsets)
    ensures forall k: nat :: k in reversed <==> k < |offsets|
    ensures forall k: nat :: k < |offsets| ==> reversed[k] == offsets[k]
  {
    hide Numbered;
    NumberedKeys(layout, offsets);
    reversed := map[];
    var todo := layout.Keys;
    while todo != {}
      invariant todo <= layout.Keys
      invariant forall k: nat :: k in reversed <==> k < |offsets| && offsets[k] !in todo
      invariant forall k: nat :: k in reversed ==> reversed[k] == offsets[k]
    {
      var off :| off in todo;
      Position(layout, offsets, off);
      reversed := reversed[layout[off] := off];
      todo := todo - {off};
    }
  }

  lemma Position(layout: map<seq<int>, nat>, offsets: seq<seq<int>>, off: seq<int>)
    requires Numbered(layout, offsets) && off in layout
    ensures layout[off] < |offsets| && offsets[layout[off]] == off
    ensures forall k :: 0 <= k < |offsets| && offsets[k] == off ==> k == layout[off]
  {
    NumberedKeys(layout, offsets);
  }

  // ---------- The index of a stencil ----------

  lemma {:induction false} VvStart(dims: seq<nat>, offsets: seq<seq<int>>, points: nat, v: nat)
    requires Positive(dims) && (forall j :: 0 <= j < |offsets| ==> |offsets[j]| == |dims|) && v <= points
    ensures Start(VvRows(dims, offsets, points), v) == v * |offsets|
  {
    hide VvRow;
    if v > 0 {
      VvStart(dims, offsets, points, v - 1);
      assert v * |offsets| == (v - 1) * |offsets| + |offsets|;
    }
  }

  /** The index that is built for the stencil with this layout. */
  ghost predicate StencilIndex(dims: seq<nat>, layout: map<seq<int>, nat>, offsets: seq<seq<int>>, pi: PathIndex) {
    && Positive(dims) && (forall j :: 0 <= j < |offsets| ==> |offsets[j]| == |dims|)
    && Numbered(layout, offsets)
    && pi == Packed(VvRows(dims, offsets, Volume(dims)))
  }

  /** computeRowptr */
  function ComputeRowptr(source: nat, layout: map<seq<int>, nat>): (start: nat)
  {
    source * |layout|
  }

  /** The location of an offset in the row of the loop variable. */
  function Cloc(layout: map<seq<int>, nat>, loopVar: nat, off: seq<int>): (l: nat)
    requires off in layout
  {
    loopVar * |layout| + layout[off]
  }

  /** l lies in row v and holds the point at the offset. */
  ghost predicate HoldsPoint(dims: seq<nat>, pi: PathIndex, v: nat, off: seq<int>, l: nat)
    requires Positive(dims)
  {
    && |off| == |dims| && v + 1 < |pi.coords|
    && pi.coords[v] <= l < pi.coords[v + 1] <= |pi.sinks| && pi.sinks[l] == Moved(dims, v, off)
  }

  /** Compile-time addressing agrees with the stored index: rows are computed as v times the size of
      the layout, and at the location of an offset stands the point at that offset. */
  lemma StencilAddress(dims: seq<nat>, layout: map<seq<int>, nat>, offsets: seq<seq<int>>, pi: PathIndex, v: nat,
                       off: seq<int>)
    requires StencilIndex(dims, layout, offsets, pi) && v < Volume(dims) && off in layout
    ensures v + 1 < |pi.coords| && pi.coords[v] == ComputeRowptr(v, layout) &&
            pi.coords[v + 1] == ComputeRowptr(v + 1, layout)
    ensures HoldsPoint(dims, pi, v, off, Cloc(layout, v, off))
  {
    hide Packed, VvRow, Numbered, Volume, Start;
    var rows := VvRows(dims, offsets, Volume(dims));
    NumberedKeys(layout, offsets);
    PackedRow(rows, v);
    PackedCoords(rows, v);
    PackedCoords(rows, v + 1);
    VvStart(dims, offsets, Volume(dims), v);
    VvStart(dims, offsets, Volume(dims), v + 1);
    assert (v + 1) * |layout| == v * |layout| + |layout|;
    assert Neighbors(pi, v)[layout[off]] == VvRow(dims, offsets, v)[layout[off]];
    VvRowAt(dims, offsets, v, layout[off]);
  }

  lemma PackedCoords(rows: seq<seq<nat>>, v: nat)
    requires v <= |rows|
    ensures |Packed(rows).coords| == |rows| + 1 && Packed(rows).coords[v] == Start(rows, v)
  {
  }

  lemma VvRowAt(dims: seq<nat>, offsets: seq<seq<int>>, v: nat, k: nat)
    requires Positive(dims) && (forall j :: 0 <= j < |offsets| ==> |offsets[j]| == |dims|) && k < |offsets|
    ensures VvRow(dims, offsets, v)[k] == Moved(dims, v, offsets[k])
  {
  }

  /** buildStencilLocs: the location of every column of the row of the loop variable. */
  method BuildStencilLocs(dims: seq<nat>, layout: map<seq<int>, nat>, loopVar: nat,
                          ghost offsets: seq<seq<int>>, ghost pi: PathIndex) returns (clocs: map<seq<int>, nat>)
    requires StencilIndex(dims, layout, offsets, pi) && loopVar < Volume(dims)
    ensures clocs.Keys == layout.Keys
    ensures forall off :: off in clocs ==> HoldsPoint(dims, pi, loopVar, off, clocs[off])
    ensures forall off, off' :: off in clocs && off' in clocs && clocs[off] == clocs[off'] ==> off == off'
  {
    hide HoldsPoint, Volume, Numbered, Cloc;
    clocs := map[];
    var todo := layout.Keys;
    while todo != {}
      invariant todo <= layout.Keys && clocs.Keys == layout.Keys - todo
      invariant forall off :: off in clocs ==> clocs[off] == Cloc(layout, loopVar, off)
      invariant forall off :: off in clocs ==> HoldsPoint(dims, pi, loopVar, off, clocs[off])
    {
      var off :| off in todo;
      StencilAddress(dims, layout, offsets, pi, loopVar, off);
      clocs := clocs[off := Cloc(layout, loopVar, off)];
      todo := todo - {off};
    }
    forall off, off' | off in clocs && off' in clocs && clocs[off] == clocs[off'] ensures off == off' {
      ClocInjective(layout, offsets, loopVar, off, off');
    }
  }

  lemma ClocInjective(layout: map<seq<int>, nat>, offsets: seq<seq<int>>, v: nat, off: seq<int>, off': seq<int>)
    requires Numbered(layout, offsets) && off in layout && off' in layout &&
             Cloc(layout, v, off) == Cloc(layout, v, off')
    ensures off == off'
  {
    Position(layout, offsets, off);
    Position(layout, offsets, off');
  }

  // ---------- The loop nest ----------

  /** The kernel followed by an increment of the loop variable, or a loop of a grid index variable
      over the size of its dimension. */
  datatype Nest = Body | ForRange(dim: nat, body: Nest)

  /** The innermost loop runs over dimension 0. */
  method EmitNest(ndims: nat) returns (loop: Nest)
    ensures loop == NestOf(ndims)
  {
    loop := Body;
    for i := 0 to ndims
      invariant loop == NestOf(i)
    {
      loop := ForRange(i, loop);
    }
  }

  function NestOf(n: nat): (l: Nest)
  {
    if n == 0 then Body else ForRange(n - 1, NestOf(n - 1))
  }

  /** Values of the loop variable and of the grid index variables whenever the kernel runs. */
  type Visit = (nat, seq<int>)

  /** The runs of the kernel when a nest is entered with these values of the variables. */
  function Runs(l: Nest, dims: seq<nat>, loopVar: nat, vars: seq<int>): (visits: seq<Visit>)
    requires |vars| == |dims| && DimsBelow(l, |dims|)
    decreases l, 0
  {
    match l
    case Body => [(loopVar, vars)]
    case ForRange(d, _) => RunsFrom(l, dims, loopVar, vars, 0)
  }

  /** The iterations from i on; every run has incremented the loop variable. */
  function RunsFrom(l: Nest, dims: seq<nat>, loopVar: nat, vars: seq<int>, i: nat): (visits: seq<Visit>)
    requires |vars| == |dims| && DimsBelow(l, |dims|) && l.ForRange? && i <= dims[l.dim]
    decreases l.body, 1, dims[l.dim] - i
  {
    if i == dims[l.dim] then [] else
      var once := Runs(l.body, dims, loopVar, vars[l.dim := i]);
      once + RunsFrom(l, dims, loopVar + |once|, vars, i + 1)
  }

  predicate DimsBelow(l: Nest, n: nat) {
    l.ForRange? ==> l.dim < n && DimsBelow(l.body, n)
  }

  lemma {:induction false} NestDims(m: nat, n: nat)
    requires m <= n
    ensures DimsBelow(NestOf(m), n)
  {
    if m > 0 { NestDims(m - 1, n); }
  }

  lemma Distribute(l: int, i: int, v: nat, e: nat, d: nat)
    ensures (l + i * v) * e == l * e + i * (e * v) && e * (v * d) == e * v * d
  {
    assert (l + i * v) * e == l * e + i * v * e;
    assert i * v * e == i * (e * v);
  }

  lemma {:induction false} LinearSnoc(dims: seq<nat>, d: nat, c: seq<int>, i: int)
    requires |c| == |dims|
    ensures Linear(dims + [d], c + [i]) == Linear(dims, c) + i * Volume(dims)
    ensures Volume(dims + [d]) == Volume(dims) * d
  {
    if dims == [] {
      assert (dims + [d])[1..] == [] && (c + [i])[1..] == [];
    } else {
      LinearSnoc(dims[1..], d, c[1..], i);
      assert (dims + [d])[1..] == dims[1..] + [d] && (c + [i])[1..] == c[1..] + [i];
      Distribute(Linear(dims[1..], c[1..]), i, Volume(dims[1..]), dims[0], d);
    }
  }

  /** The coordinates of the v-th point in slice i of the last dimension. */
  lemma CoordsSnoc(dims: seq<nat>, d: nat, i: nat, v: nat)
    requires Positive(dims + [d]) && i < d && v < Volume(dims)
    ensures Positive(dims) && Coords(dims + [d], i * Volume(dims) + v) == Coords(dims, v) + [i]
  {
    assert Positive(dims) by {
      forall k | 0 <= k < |dims| ensures dims[k] > 0 { assert (dims + [d])[k] > 0; }
    }
    LinearOfCoords(dims, v);
    LinearSnoc(dims, d, Coords(dims, v), i);
    CoordsOfLinear(dims + [d], Coords(dims, v) + [i]);
  }

  /** The points of the first m dimensions in ascending order, with the other variables as they are. */
  ghost function Points(dims: seq<nat>, m: nat, loopVar: nat, vars: seq<int>): (visits: seq<Visit>)
    requires Positive(dims) && |vars| == |dims| && m <= |dims|
    ensures |visits| == Volume(dims[..m])
  {
    seq(Volume(dims[..m]), v requires 0 <= v < Volume(dims[..m]) => (loopVar + v, Coords(dims[..m], v) + vars[m..]))
  }

  /** The part of the visits that iterations from i on contribute. */
  ghost function Slices(dims: seq<nat>, m: nat, loopVar: nat, vars: seq<int>, i: nat): (visits: seq<Visit>)
    requires Positive(dims) && |vars| == |dims| && m < |dims| && i <= dims[m]
    decreases dims[m] - i
  {
    if i == dims[m] then [] else
      Points(dims, m, loopVar, vars[m := i]) + Slices(dims, m, loopVar + Volume(dims[..m]), vars, i + 1)
  }

  lemma {:induction false} SliceAt(dims: seq<nat>, m: nat, loopVar: nat, vars: seq<int>, i: nat, w: nat, u: nat)
    requires Positive(dims) && |vars| == |dims| && m < |dims| && i <= dims[m]
    requires w == Volume(dims[..m])
    ensures |Slices(dims, m, loopVar, vars, i)| == W.Times(w, dims[m] - i)
    ensures u < W.Times(w, dims[m] - i) ==> W.Times(w, i) + u < Volume(dims[..m + 1])
    ensures u < W.Times(w, dims[m] - i) ==>
              Slices(dims, m, loopVar, vars, i)[u] ==
                (loopVar + u, Coords(dims[..m + 1], W.Times(w, i) + u) + vars[m + 1..])
    decreases dims[m] - i
  {
    hide Volume, Coords, Points, W.Times;
    W.TimesOne(w);
    if i < dims[m] {
      W.TimesAdd(w, dims[m] - (i + 1), 1);
      W.TimesAdd(w, i, 1);
      SliceAt(dims, m, loopVar + w, vars, i + 1, w, if u < w then 0 else u - w);
      if u < w {
        PointInSlice(dims, m, loopVar, vars, i, w, u);
      }
    }
  }

  lemma PointInSlice(dims: seq<nat>, m: nat, loopVar: nat, vars: seq<int>, i: nat, w: nat, u: nat)
    requires Positive(dims) && |vars| == |dims| && m < |dims| && i < dims[m]
    requires w == Volume(dims[..m]) && u < w
    ensures W.Times(w, i) + u < Volume(dims[..m + 1])
    ensures Points(dims, m, loopVar, vars[m := i])[u] ==
            (loopVar + u, Coords(dims[..m + 1], W.Times(w, i) + u) + vars[m + 1..])
  {
    hide Volume, Coords, W.Times;
    assert dims[..m + 1] == dims[..m] + [dims[m]];
    CoordsSnoc(dims[..m], dims[m], i, u);
    LinearSnoc(dims[..m], dims[m], Coords(dims[..m], u), i);
    W.TimesIs(w, i);
    W.TimesIs(dims[m], w);
    W.TimesSwap(w, dims[m]);
    W.TimesAdd(w, i, 1);
    W.TimesOne(w);
    W.TimesMono(w, i + 1, dims[m]);
    assert vars[m := i][m..] == [i] + vars[m + 1..];
    var c := Coords(dims[..m], u);
    assert c + ([i] + vars[m + 1..]) == (c + [i]) + vars[m + 1..];
  }

  lemma SlicesArePoints(dims: seq<nat>, m: nat, loopVar: nat, vars: seq<int>)
    requires Positive(dims) && |vars| == |dims| && m < |dims|
    ensures Slices(dims, m, loopVar, vars, 0) == Points(dims, m + 1, loopVar, vars)
  {
    hide Volume, Coords, Slices, W.Times;
    var w, all := Volume(dims[..m]), Slices(dims, m, loopVar, vars, 0);
    assert dims[..m + 1] == dims[..m] + [dims[m]];
    LinearSnoc(dims[..m], dims[m], vars[..m], 0);
    SliceAt(dims, m, loopVar, vars, 0, w, 0);
    W.TimesIs(dims[m], w);
    W.TimesSwap(w, dims[m]);
    W.TimesOne(w);
    forall u: nat | u < |all| ensures all[u] == Points(dims, m + 1, loopVar, vars)[u] {
      SliceAt(dims, m, loopVar, vars, 0, w, u);
    }
  }

  /** The nest visits the grid points in order: whenever the kernel runs the loop variable is the
      number of the point whose coordinates are the grid index variables. */
  lemma {:induction false} NestVisits(dims: seq<nat>, m: nat, loopVar: nat, vars: seq<int>)
    requires Positive(dims) && |vars| == |dims| && m <= |dims|
    ensures DimsBelow(NestOf(m), |dims|) && Runs(NestOf(m), dims, loopVar, vars) == Points(dims, m, loopVar, vars)
    decreases m, 1
  {
    NestDims(m, |dims|);
    if m > 0 {
      NestIterations(dims, m - 1, loopVar, vars, 0);
      SlicesArePoints(dims, m - 1, loopVar, vars);
    } else {
      assert dims[..0] == [] && vars[0..] == vars;
      assert Coords([], 0) + vars[0..] == vars;
    }
  }

  lemma {:induction false} NestIterations(dims: seq<nat>, m: nat, loopVar: nat, vars: seq<int>, i: nat)
    requires Positive(dims) && |vars| == |dims| && m < |dims| && i <= dims[m]
    ensures DimsBelow(NestOf(m + 1), |dims|)
    ensures RunsFrom(NestOf(m + 1), dims, loopVar, vars, i) == Slices(dims, m, loopVar, vars, i)
    decreases m + 1, 0, dims[m] - i
  {
    hide Points, Volume;
    NestDims(m + 1, |dims|);
    if i < dims[m] {
      NestVisits(dims, m, loopVar, vars[m := i]);
      NestIterations(dims, m, loopVar + Volume(dims[..m]), vars, i + 1);
    }
  }

  /** The whole emitted program: the loop variable starts at 0. */
  lemma GridNest(dims: seq<nat>, vars: seq<int>, k: nat)
    requires Positive(dims) && |vars| == |dims| && k < Volume(dims)
    ensures DimsBelow(NestOf(|dims|), |dims|)
    ensures |Runs(NestOf(|dims|), dims, 0, vars)| == Volume(dims)
    ensures var (loopVar, indices) := Runs(NestOf(|dims|), dims, 0, vars)[k];
            loopVar == k && indices == Coords(dims, k) && Linear(dims, indices) == loopVar
  {
    NestVisits(dims, |dims|, 0, vars);
    assert dims[..|dims|] == dims && vars[|dims|..] == [];
    LinearOfCoords(dims, k);
  }

  /** Whenever the kernel runs, the address computed from the loop variable holds the point that the
      grid index variables, moved and wrapped, linearize to. */
  lemma KernelAddresses(dims: seq<nat>, vars: seq<int>, k: nat, layout: map<seq<int>, nat>, offsets: seq<seq<int>>,
                        pi: PathIndex, off: seq<int>)
    requires StencilIndex(dims, layout, offsets, pi) && |vars| == |dims| && k < Volume(dims) && off in layout
    ensures DimsBelow(NestOf(|dims|), |dims|) && k < |Runs(NestOf(|dims|), dims, 0, vars)| && |off| == |dims|
    ensures var visit := Runs(NestOf(|dims|), dims, 0, vars)[k];
            && |visit.1| == |dims| && Cloc(layout, visit.0, off) < |pi.sinks|
            && pi.sinks[Cloc(layout, visit.0, off)] == Linear(dims, Shifted(dims, visit.1, off))
  {
    hide Runs, Volume, Packed, VvRows, Cloc, Numbered, ComputeRowptr;
    GridNest(dims, vars, k);
    StencilAddress(dims, layout, offsets, pi, k, off);
  }
}
