/** Packed path indices and the builder that evaluates path expressions, with its memo table. */
module PathIndices {
  import opened Wrappers
  import opened PathExpressions
  import opened Grids
  import S = Sorting
  import opened GraphMeaning

  /** Neighbours of all elements packed into one vector; those of v stand at
      coords[v]..coords[v+1]. */
  datatype PathIndex = PathIndex(coords: seq<nat>, sinks: seq<nat>)

  /** Where row v starts. */
  function Start(rows: seq<seq<nat>>, v: nat): (s: nat)
    requires v <= |rows|
  {
    if v == 0 then 0 else Start(rows, v - 1) + |rows[v - 1]|
  }

  function Flatten(rows: seq<seq<nat>>, v: nat): (s: seq<nat>)
    requires v <= |rows|
    ensures |s| == Start(rows, v)
  {
    if v == 0 then [] else Flatten(rows, v - 1) + rows[v - 1]
  }

  function Packed(rows: seq<seq<nat>>): (pi: PathIndex)
  {
    PathIndex(seq(|rows| + 1, v requires 0 <= v <= |rows| => Start(rows, v)), Flatten(rows, |rows|))
  }

  /** A segmented vector without holes. */
  ghost predicate ValidIndex(pi: PathIndex) {
    && |pi.coords| >= 1 && pi.coords[0] == 0 && pi.coords[|pi.coords| - 1] == |pi.sinks|
    && forall v, w :: 0 <= v <= w < |pi.coords| ==> pi.coords[v] <= pi.coords[w]
  }

  function NumElements(pi: PathIndex): (n: nat)
    requires |pi.coords| >= 1
  {
    |pi.coords| - 1
  }

  function Neighbors(pi: PathIndex, v: nat): (s: seq<nat>)
    requires v + 1 < |pi.coords| && pi.coords[v] <= pi.coords[v + 1] <= |pi.sinks|
  {
    pi.sinks[pi.coords[v]..pi.coords[v + 1]]
  }

  lemma {:induction false} StartMono(rows: seq<seq<nat>>, v: nat, w: nat)
    requires v <= w <= |rows|
    ensures Start(rows, v) <= Start(rows, w)
  {
    if v < w { StartMono(rows, v, w - 1); }
  }

  lemma {:induction false} FlattenRow(rows: seq<seq<nat>>, v: nat, n: nat)
    requires v < n <= |rows|
    ensures Start(rows, v) <= Start(rows, v + 1) <= |Flatten(rows, n)|
    ensures Flatten(rows, n)[Start(rows, v)..Start(rows, v + 1)] == rows[v]
  {
    if v < n - 1 {
      FlattenRow(rows, v, n - 1);
    }
  }

  /** Packing keeps every row: row pointers run monotonically from 0 to the total... */
  lemma PackedIsValid(rows: seq<seq<nat>>)
    ensures ValidIndex(Packed(rows)) && NumElements(Packed(rows)) == |rows|
  {
    hide Start, Flatten;
    assert Start(rows, 0) == 0 by { StartNone(rows); }
    forall v, w | 0 <= v <= w <= |rows| ensures Packed(rows).coords[v] <= Packed(rows).coords[w] {
      StartMono(rows, v, w);
    }
  }

  /** ... and the neighbours of v are row v. */
  lemma PackedRow(rows: seq<seq<nat>>, v: nat)
    requires v < |rows|
    ensures v + 1 < |Packed(rows).coords|
    ensures Packed(rows).coords[v] <= Packed(rows).coords[v + 1] <= |Packed(rows).sinks|
    ensures Neighbors(Packed(rows), v) == rows[v]
  {
    hide Start, Flatten;
    FlattenRow(rows, v, |rows|);
  }

  lemma StartNone(rows: seq<seq<nat>>)
    ensures Start(rows, 0) == 0 && Flatten(rows, 0) == []
  {
  }

  lemma StartNext(rows: seq<seq<nat>>, v: nat)
    requires v < |rows|
    ensures Start(rows, v + 1) == Start(rows, v) + |rows[v]|
    ensures Flatten(rows, v + 1) == Flatten(rows, v) + rows[v]
  {
  }

  lemma PackedFrom(rows: seq<seq<nat>>, coords: seq<nat>, sinks: seq<nat>)
    requires |coords| == |rows| + 1 && forall v :: 0 <= v <= |rows| ==> coords[v] == Start(rows, v)
    requires sinks == Flatten(rows, |rows|)
    ensures PathIndex(coords, sinks) == Packed(rows)
  {
    hide Start, Flatten;
  }

  // ---------- Sorting ----------

  predicate AtMost(a: nat, b: nat) {
    a <= b
  }

  /** The result of std::sort. */
  function Sort(s: seq<nat>): (r: seq<nat>)
    ensures |r| == |s|
  {
    S.Sort(AtMost, s)
  }

  /** Sorting leaves an ascending vector as it is. */
  lemma SortAscending(s: seq<nat>)
    requires forall i, j :: 0 <= i < j < |s| ==> s[i] <= s[j]
    ensures Sort(s) == s
  {
    S.SortOrdered(AtMost, s);
  }

  // ---------- pack ----------

  /** The vectors of a map from 0..n-1, as rows. */
  ghost function RowsOf(nbrs: map<nat, seq<nat>>, sorted: bool): (rows: seq<seq<nat>>)
    requires nbrs.Keys == Below(|nbrs|)
    ensures |rows| == |nbrs|
  {
    seq(|nbrs|, v requires 0 <= v < |nbrs| => if sorted then Sort(nbrs[v]) else nbrs[v])
  }

  /** The first loop of pack: the number of all neighbours. */
  method CountNeighbors(pathNeighbors: map<nat, seq<nat>>, ghost sorted: bool) returns (numNeighbors: nat)
    requires pathNeighbors.Keys == Below(|pathNeighbors|)
    ensures numNeighbors == Start(RowsOf(pathNeighbors, sorted), |pathNeighbors|)
  {
    hide Sort, Start, Flatten, Below;
    ghost var rows := RowsOf(pathNeighbors, sorted);
    numNeighbors := 0;
    StartNone(rows);
    for elem := 0 to |pathNeighbors|
      invariant numNeighbors == Start(rows, elem)
    {
      StartNext(rows, elem);
      numNeighbors := numNeighbors + |pathNeighbors[elem]|;
    }
  }

  /** pack: neighbour vectors into a segmented vector. */
  method Pack(pathNeighbors: map<nat, seq<nat>>, sorted: bool) returns (pi: PathIndex)
    requires pathNeighbors.Keys == Below(|pathNeighbors|)
    ensures pi == Packed(RowsOf(pathNeighbors, sorted))
  {
    hide Sort, Start, Flatten, Packed, Below;
    ghost var rows := RowsOf(pathNeighbors, sorted);
    var numElements := |pathNeighbors|;
    var numNeighbors := CountNeighbors(pathNeighbors, sorted);
    StartNone(rows);
    var coordsData := new nat[numElements + 1];
    var sinksData := new nat[numNeighbors];
    var currNbrsStart := 0;
    for elem := 0 to numElements
      invariant currNbrsStart == Start(rows, elem) <= numNeighbors
      invariant forall v :: 0 <= v < elem ==> coordsData[v] == Start(rows, v)
      invariant sinksData[..currNbrsStart] == Flatten(rows, elem)
    {
      coordsData[elem] := currNbrsStart;
      StartNext(rows, elem);
      StartMono(rows, elem + 1, numElements);
      if |pathNeighbors[elem]| > 0 {
        var nbrs := pathNeighbors[elem];
        if sorted {
          nbrs := Sort(nbrs);
        }
        assert nbrs == rows[elem];
        Copy(sinksData, currNbrsStart, nbrs);
        currNbrsStart := currNbrsStart + |nbrs|;
      }
    }
    coordsData[numElements] := currNbrsStart;
    assert sinksData[..] == sinksData[..currNbrsStart];
    PackedFrom(rows, coordsData[..], sinksData[..]);
    pi := PathIndex(coordsData[..], sinksData[..]);
  }

  /** memcpy into an array. */
  method Copy(a: array<nat>, at: nat, s: seq<nat>)
    requires at + |s| <= a.Length
    modifies a
    ensures a[..at] == old(a[..at]) && a[at..at + |s|] == s
    ensures a[..at + |s|] == old(a[..at]) + s
    ensures a[at + |s|..] == old(a[at + |s|..])
  {
    for i := 0 to |s|
      invariant a[..at] == old(a[..at])
      invariant forall j :: 0 <= j < i ==> a[at + j] == s[j]
      invariant a[at + |s|..] == old(a[at + |s|..])
    {
      a[at + i] := s[i];
    }
  }

  // ---------- Links ----------

  /** Row e of an ev index starts at e times the number of endpoints from the vertex set. */
  lemma {:induction false} EvStart(es: ElementSet, vertexSet: nat, e: nat)
    requires |es.endpoints| == es.size && forall e :: 0 <= e < es.size ==> |es.endpoints[e]| == |es.endpointSets|
    requires e <= es.size
    ensures Start(EvRows(es, vertexSet), e) == e * Matches(es, vertexSet, |es.endpointSets|)
  {
    hide Matches, EvRow;
    if e > 0 {
      EvStart(es, vertexSet, e - 1);
      var m := Matches(es, vertexSet, |es.endpointSets|);
      assert e * m == (e - 1) * m + m;
    }
  }

  /** The case Link::ev of the visitor: rows of constant length, filled endpoint by endpoint. */
  method BuildEv(es: ElementSet, vertexSet: nat) returns (pi: PathIndex)
    requires |es.endpoints| == es.size && forall e :: 0 <= e < es.size ==> |es.endpoints[e]| == |es.endpointSets|
    ensures pi == Packed(EvRows(es, vertexSet))
  {
    hide Start, Flatten, Packed, EvRow;
    ghost var rows := EvRows(es, vertexSet);
    var cardinality := |es.endpointSets|;
    var nnzPerRow := 0;
    for i := 0 to cardinality
      invariant nnzPerRow == Matches(es, vertexSet, i)
    {
      nnzPerRow := nnzPerRow + if vertexSet == es.endpointSets[i] then 1 else 0;
    }
    var n := es.size;
    EvStart(es, vertexSet, n);
    var nnz := n * nnzPerRow;
    var ptr := new nat[n + 1];
    var idx := new nat[nnz];
    for i := 0 to n + 1
      invariant forall v :: 0 <= v < i ==> ptr[v] == Start(rows, v)
    {
      EvStart(es, vertexSet, i);
      ptr[i] := i * nnzPerRow;
    }
    ghost var coords := ptr[..];
    StartNone(rows);
    for e := 0 to n
      invariant Start(rows, e) <= nnz && idx[..Start(rows, e)] == Flatten(rows, e)
      invariant ptr[..] == coords
    {
      StartNext(rows, e);
      StartMono(rows, e + 1, n);
      EvStart(es, vertexSet, e);
      FillEv(es, vertexSet, e, e * nnzPerRow, nnzPerRow, idx);
    }
    assert idx[..] == idx[..Start(rows, n)];
    PackedFrom(rows, ptr[..], idx[..]);
    pi := PathIndex(ptr[..], idx[..]);
  }

  lemma {:induction false} MatchesMono(es: ElementSet, vertexSet: nat, i: nat, n: nat)
    requires i <= n <= |es.endpointSets|
    ensures Matches(es, vertexSet, i) <= Matches(es, vertexSet, n)
  {
    if i < n { MatchesMono(es, vertexSet, i, n - 1); }
  }

  /** The inner loop of the case Link::ev. */
  method FillEv(es: ElementSet, vertexSet: nat, e: nat, at: nat, nnzPerRow: nat, idx: array<nat>)
    requires |es.endpoints| == es.size && forall e :: 0 <= e < es.size ==> |es.endpoints[e]| == |es.endpointSets|
    requires e < es.size && nnzPerRow == Matches(es, vertexSet, |es.endpointSets|)
    requires at + nnzPerRow <= idx.Length
    modifies idx
    ensures idx[..at + nnzPerRow] == old(idx[..at]) + EvRow(es, vertexSet, e, |es.endpointSets|)
  {
    var cardinality := |es.endpointSets|;
    var j := 0;
    for i := 0 to cardinality
      invariant j == Matches(es, vertexSet, i) <= nnzPerRow
      invariant idx[..at] == old(idx[..at])
      invariant idx[at..at + j] == EvRow(es, vertexSet, e, i)
    {
      MatchesMono(es, vertexSet, i + 1, cardinality);
      if vertexSet == es.endpointSets[i] {
        var ep := es.endpoints[e][i];
        ghost var before := idx[at..at + j];
        idx[at + j] := ep;
        assert idx[at..at + j] == before;
        j := j + 1;
        assert idx[at..at + j] == before + [ep];
      }
    }
    assert idx[..at + nnzPerRow] == idx[..at] + idx[at..at + nnzPerRow];
  }

  lemma BelowNone()
    ensures Below(0) == {}
  {
  }

  lemma BelowNext(v: nat)
    ensures Below(v + 1) == Below(v) + {v} && v !in Below(v)
  {
  }

  /** A map from 0..n-1 to empty vectors. */
  method EmptyVectors(n: nat) returns (m: map<nat, seq<nat>>)
    ensures m.Keys == Below(n) && |m| == n && forall v :: v in m ==> m[v] == []
  {
    hide Below;
    BelowNone();
    m := map[];
    for v := 0 to n
      invariant m.Keys == Below(v) && |m| == v && forall v :: v in m ==> m[v] == []
    {
      BelowNext(v);
      m := m[v := []];
    }
  }

  /** The endpoints of every edge from the vertex set are among its vertices. */
  ghost predicate EndpointsIn(es: ElementSet, vertexSet: nat, vertices: nat) {
    forall e, i {:trigger es.endpoints[e][i]} :: 0 <= e < |es.endpoints| && 0 <= i < |es.endpointSets| ==>
      i < |es.endpoints[e]| && (es.endpointSets[i] == vertexSet ==> es.endpoints[e][i] < vertices)
  }

  /** m' is m with an edge pushed for its first i endpoints. */
  ghost predicate Pushed(m: map<nat, seq<nat>>, m': map<nat, seq<nat>>, es: ElementSet, vertexSet: nat, e: nat, i: nat)
    requires e < |es.endpoints| && |es.endpoints[e]| == |es.endpointSets| && i <= |es.endpointSets|
  {
    m'.Keys == m.Keys && forall v :: v in m ==> m'[v] == m[v] + VeHits(es, vertexSet, v, e, i)
  }

  lemma PushedOther(m: map<nat, seq<nat>>, m': map<nat, seq<nat>>, es: ElementSet, vertexSet: nat, e: nat, i: nat)
    requires e < |es.endpoints| && |es.endpoints[e]| == |es.endpointSets| && i < |es.endpointSets|
    requires Pushed(m, m', es, vertexSet, e, i) && vertexSet != es.endpointSets[i]
    ensures Pushed(m, m', es, vertexSet, e, i + 1)
  {
  }

  lemma PushedOnce(m: map<nat, seq<nat>>, m': map<nat, seq<nat>>, es: ElementSet, vertexSet: nat, e: nat, i: nat,
                   ep: nat)
    requires e < |es.endpoints| && |es.endpoints[e]| == |es.endpointSets| && i < |es.endpointSets|
    requires Pushed(m, m', es, vertexSet, e, i) && vertexSet == es.endpointSets[i] && ep == es.endpoints[e][i] &&
             ep in m
    ensures ep in m' && Pushed(m, m'[ep := m'[ep] + [e]], es, vertexSet, e, i + 1)
  {
    assert m'[ep := m'[ep] + [e]].Keys == m.Keys;
  }

  /** One edge of the case Link::ve: it is pushed once for every endpoint. */
  method AddEdge(es: ElementSet, vertexSet: nat, vertices: nat, e: nat, m: map<nat, seq<nat>>)
      returns (pathNeighbors: map<nat, seq<nat>>)
    requires e < |es.endpoints| && |es.endpoints[e]| == |es.endpointSets| && EndpointsIn(es, vertexSet, vertices)
    requires m.Keys == Below(vertices)
    ensures pathNeighbors.Keys == m.Keys && |pathNeighbors| == |m|
    ensures forall v :: v in m ==> pathNeighbors[v] == m[v] + VeHits(es, vertexSet, v, e, |es.endpointSets|)
  {
    hide Below, Pushed;
    pathNeighbors := m;
    PushedNone(m, es, vertexSet, e);
    for i := 0 to |es.endpointSets|
      invariant Pushed(m, pathNeighbors, es, vertexSet, e, i)
    {
      var ep := es.endpoints[e][i];
      if vertexSet == es.endpointSets[i] {
        assert ep in m;
        PushedOnce(m, pathNeighbors, es, vertexSet, e, i, ep);
        pathNeighbors := pathNeighbors[ep := pathNeighbors[ep] + [e]];
      } else {
        PushedOther(m, pathNeighbors, es, vertexSet, e, i);
      }
    }
    PushedAll(m, pathNeighbors, es, vertexSet, e);
  }

  lemma PushedNone(m: map<nat, seq<nat>>, es: ElementSet, vertexSet: nat, e: nat)
    requires e < |es.endpoints| && |es.endpoints[e]| == |es.endpointSets|
    ensures Pushed(m, m, es, vertexSet, e, 0)
  {
  }

  lemma PushedAll(m: map<nat, seq<nat>>, m': map<nat, seq<nat>>, es: ElementSet, vertexSet: nat, e: nat)
    requires e < |es.endpoints| && |es.endpoints[e]| == |es.endpointSets|
    requires Pushed(m, m', es, vertexSet, e, |es.endpointSets|)
    ensures m'.Keys == m.Keys && |m'| == |m|
    ensures forall v :: v in m ==> m'[v] == m[v] + VeHits(es, vertexSet, v, e, |es.endpointSets|)
  {
    assert |m'| == |m'.Keys| && |m| == |m.Keys|;
  }

  /** The case Link::ve: every edge is added to the vectors of its endpoints. */
  method BuildVe(es: ElementSet, vertexSet: nat, vertices: nat) returns (pi: PathIndex)
    requires |es.endpoints| == es.size && forall e :: 0 <= e < es.size ==> |es.endpoints[e]| == |es.endpointSets|
    requires EndpointsIn(es, vertexSet, vertices)
    ensures pi == Packed(VeRows(es, vertexSet, vertices))
  {
    hide Below, VeHits, Packed, Sort;
    var pathNeighbors := EmptyVectors(vertices);
    for e := 0 to es.size
      invariant pathNeighbors.Keys == Below(vertices) && |pathNeighbors| == vertices
      invariant forall v :: v in pathNeighbors ==> pathNeighbors[v] == VeRow(es, vertexSet, v, e)
    {
      pathNeighbors := AddEdge(es, vertexSet, vertices, e, pathNeighbors);
    }
    pi := Pack(pathNeighbors, true);
    SortedVeRows(es, vertexSet, vertices, pathNeighbors);
  }

  lemma SortedVeRows(es: ElementSet, vertexSet: nat, vertices: nat, m: map<nat, seq<nat>>)
    requires |es.endpoints| == es.size && forall e :: 0 <= e < es.size ==> |es.endpoints[e]| == |es.endpointSets|
    requires m.Keys == Below(vertices) && |m| == vertices
    requires forall v :: v in m ==> m[v] == VeRow(es, vertexSet, v, es.size)
    ensures RowsOf(m, true) == VeRows(es, vertexSet, vertices)
  {
    hide Below, VeRow, Sort;
    forall v: nat | v < vertices ensures Sort(m[v]) == VeRow(es, vertexSet, v, es.size) {
      assert v in m;
      SortAscending(m[v]);
    }
  }

  /** Offsets that are wrapped correctly: they reach back over at most one period, except in dimensions of one
      point. */
  ghost predicate WithinOnePeriod(dims: seq<nat>, offsets: seq<seq<int>>) {
    forall j, i {:trigger offsets[j][i]} :: 0 <= j < |offsets| && 0 <= i < |dims| && |offsets[j]| == |dims| ==>
      dims[i] == 1 || -dims[i] <= offsets[j][i]
  }

  /** One point of the case Link::vv. */
  method StencilRow(dims: seq<nat>, offsets: seq<seq<int>>, v: nat) returns (row: seq<nat>)
    requires Positive(dims) && forall j :: 0 <= j < |offsets| ==> |offsets[j]| == |dims|
    requires WithinOnePeriod(dims, offsets) && v < Volume(dims)
    ensures row == VvRow(dims, offsets, v)
  {
    row := [];
    LinearOfCoords(dims, v);
    for k := 0 to |offsets|
      invariant row == VvRow(dims, offsets, v)[..k]
    {
      var base := GridPointCoords(dims, v);
      base := WrapOnce(dims, base, offsets[k]);
      var u, inside := GridPoint(dims, base);
      LinearInRange(dims, base);
      row := row + [u];
    }
  }

  /** The case Link::vv: one neighbour per stencil offset, not sorted. */
  method BuildVv(dims: seq<nat>, offsets: seq<seq<int>>, points: nat) returns (pi: PathIndex)
    requires Positive(dims) && forall j :: 0 <= j < |offsets| ==> |offsets[j]| == |dims|
    requires WithinOnePeriod(dims, offsets) && points == Volume(dims)
    ensures pi == Packed(VvRows(dims, offsets, points))
  {
    hide Packed, VvRow, VvRows, Volume, Below;
    BelowNone();
    var pathNeighbors: map<nat, seq<nat>> := map[];
    for v := 0 to points
      invariant pathNeighbors.Keys == Below(v) && |pathNeighbors| == v
      invariant forall w :: w in pathNeighbors ==> pathNeighbors[w] == VvRow(dims, offsets, w)
    {
      BelowNext(v);
      var row := StencilRow(dims, offsets, v);
      pathNeighbors := pathNeighbors[v := row];
    }
    pi := Pack(pathNeighbors, false);
    UnsortedVvRows(dims, offsets, points, pathNeighbors);
  }

  lemma UnsortedVvRows(dims: seq<nat>, offsets: seq<seq<int>>, points: nat, m: map<nat, seq<nat>>)
    requires Positive(dims) && forall j :: 0 <= j < |offsets| ==> |offsets[j]| == |dims|
    requires WithinOnePeriod(dims, offsets) && points == Volume(dims)
    requires m.Keys == Below(points) && |m| == points
    requires forall w :: w in m ==> m[w] == VvRow(dims, offsets, w)
    ensures RowsOf(m, false) == VvRows(dims, offsets, points)
  {
    hide VvRow, Volume;
    forall v: nat | v < points ensures m[v] == VvRow(dims, offsets, v) { assert v in m; }
  }

  /** `base[i] += offsets[i] + dim; base[i] = base[i] % dim;` */
  method WrapOnce(dims: seq<nat>, base0: seq<int>, offset: seq<int>) returns (base: seq<int>)
    requires Positive(dims) && |base0| == |dims| && |offset| == |dims|
    requires forall i :: 0 <= i < |dims| ==> 0 <= base0[i] < dims[i] && (dims[i] == 1 || -dims[i] <= offset[i])
    ensures base == Shifted(dims, base0, offset)
  {
    base := base0;
    for i := 0 to |base|
      invariant |base| == |dims|
      invariant forall j :: 0 <= j < i ==> base[j] == (base0[j] + offset[j]) % dims[j]
      invariant forall j :: i <= j < |dims| ==> base[j] == base0[j]
    {
      WrapsEverywhere(offset[i], dims[i]);
      assert WrapsAt(base0[i], offset[i], dims[i]);
      base := base[i := base[i] + (offset[i] + dims[i])];
      base := base[i := TruncMod(base[i], dims[i])];
    }
  }
}
