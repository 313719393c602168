/** The locations that compiled map functions compute for the blocks they write: by search in a
    path index, or by arithmetic on the loop variable.
 */
module Locations {
  import opened Wrappers
  import opened PathExpressions
  import opened GraphMeaning
  import opened PathIndices
  import opened MemoTable
  import opened PathIndexBuilding
  import W = Words

  /** The runtime's search; it does not check where the row ends. */
  method Loc(v0: nat, v1: nat, neighborsStart: seq<nat>, neighbors: seq<nat>) returns (l: nat)
    requires v0 < |neighborsStart|
    requires exists k :: neighborsStart[v0] <= k < |neighbors| && neighbors[k] == v1
    ensures neighborsStart[v0] <= l < |neighbors| && neighbors[l] == v1
    ensures forall k :: neighborsStart[v0] <= k < l ==> neighbors[k] != v1
  {
    ghost var found :| neighborsStart[v0] <= found < |neighbors| && neighbors[found] == v1;
    l := neighborsStart[v0];
    while neighbors[l] != v1
      invariant neighborsStart[v0] <= l <= found
      invariant forall k :: neighborsStart[v0] <= k < l ==> neighbors[k] != v1
      decreases found - l
    {
      l := l + 1;
    }
  }

  /** l is a slot of row v that holds u. */
  ghost predicate Slot(pi: PathIndex, v: nat, u: nat, l: nat) {
    && v + 1 < |pi.coords| && pi.coords[v] <= l < pi.coords[v + 1] <= |pi.sinks|
    && pi.sinks[l] == u
  }

  /** The variables range over the edge set and two of its endpoint sets. */
  ghost predicate EdgeVars(g: Graph, u: Var, e: Var, w: Var) {
    && ValidGraph(g) && u != w && e != u && e != w
    && WiredLink(g, Bound(g, e.home), Bound(g, u.home)) && WiredLink(g, Bound(g, e.home), Bound(g, w.home))
  }

  /** x is the i-th endpoint of edge k, from the vertex set. */
  ghost predicate EndpointAt(es: ElementSet, vertexSet: nat, k: nat, i: nat, x: nat) {
    && k < |es.endpoints| && i < |es.endpoints[k]| && i < |es.endpointSets|
    && es.endpointSets[i] == vertexSet && es.endpoints[k][i] == x
  }

  lemma VerticesByEdgeWired(g: Graph, u: Var, e: Var, w: Var)
    requires EdgeVars(g, u, e, w)
    ensures Wired(g, VerticesByEdge(u, e, w))
    ensures EndSet(g, VerticesByEdge(u, e, w), 0) == Bound(g, u.home) &&
            EndSet(g, VerticesByEdge(u, e, w), 1) == Bound(g, w.home)
    ensures SourceOperand(VerticesByEdge(u, e, w)) == Link(VE, u, e, None) &&
            SinkOperand(VerticesByEdge(u, e, w)) == Link(EV, e, w, None)
  {
    var pe := VerticesByEdge(u, e, w);
    assert SourceOperand(pe) == pe.l && SinkOperand(pe) == pe.r;
    assert EndSet(g, pe, 0) == EndSet(g, pe.l, 0) && EndSet(g, pe, 1) == EndSet(g, pe.r, 1);
  }

  /** The endpoints of one edge are related by the edge matrix. */
  lemma EndpointsAreJoined(g: Graph, u: Var, e: Var, w: Var, k: nat, i: nat, j: nat, a: nat, b: nat)
    requires EdgeVars(g, u, e, w) && Wired(g, VerticesByEdge(u, e, w))
    requires EndpointAt(g.sets[Bound(g, e.home)], Bound(g, u.home), k, i, a)
    requires EndpointAt(g.sets[Bound(g, e.home)], Bound(g, w.home), k, j, b)
    ensures Holds(g, VerticesByEdge(u, e, w), a, b)
    ensures a < SizeOf(g, Bound(g, u.home)) && b < SizeOf(g, Bound(g, w.home))
  {
    VerticesByEdgeWired(g, u, e, w);
    var pe := VerticesByEdge(u, e, w);
    assert ValidSet(g, Bound(g, e.home));
    var es := g.sets[Bound(g, e.home)];
    assert es.endpoints[k][i] == a && es.endpoints[k][j] == b;
    assert Incident(es, Bound(g, u.home), k, a) && Incident(es, Bound(g, w.home), k, b);
    assert Holds(g, SourceOperand(pe), a, k) && Holds(g, SinkOperand(pe), k, b);
    QuantifiedParts(g, pe, a, b);
    assert Element(g, EndSet(g, SourceOperand(pe), 1), k);
  }

  /** In the index of an edge matrix the slot of (a, b) is unique. */
  lemma OneSlot(g: Graph, u: Var, e: Var, w: Var, pi: PathIndex, a: nat, b: nat, l: nat, m: nat)
    requires EdgeVars(g, u, e, w) && Correct(g, VerticesByEdge(u, e, w), pi)
    requires Slot(pi, a, b, l) && Slot(pi, a, b, m)
    ensures l == m
  {
    hide Packed, Rows, RowSet, Ascending;
    var pe := VerticesByEdge(u, e, w);
    VerticesByEdgeWired(g, u, e, w);
    PackedIsValid(Rows(g, pe));
    PackedRow(Rows(g, pe), a);
    RowAscends(g, pe, a);
    var row := Neighbors(pi, a);
    assert row[l - pi.coords[a]] == b && row[m - pi.coords[a]] == b;
  }

  lemma RowAscends(g: Graph, pe: PathExpr, a: nat)
    requires ValidGraph(g) && Wired(g, pe) && pe.Connective? && a < |Rows(g, pe)|
    ensures forall i, j :: 0 <= i < j < |Rows(g, pe)[a]| ==> Rows(g, pe)[a][i] < Rows(g, pe)[a][j]
  {
    hide Ascending, RowSet;
  }

  /** The first place from start on where s holds x. */
  ghost predicate FirstFrom(s: seq<nat>, start: nat, x: nat, l: nat) {
    start <= l < |s| && s[l] == x && forall k :: start <= k < l ==> s[k] != x
  }

  /** A neighbour has a slot in its row, and the search from the start of the row finds one. */
  lemma SearchStaysInRow(pi: PathIndex, rows: seq<seq<nat>>, a: nat, b: nat)
    requires pi == Packed(rows) && a < |rows| && b in rows[a]
    ensures a + 1 < |pi.coords| && exists l :: Slot(pi, a, b, l)
    ensures forall l :: FirstFrom(pi.sinks, pi.coords[a], b, l) ==> Slot(pi, a, b, l)
  {
    hide Packed;
    PackedRow(rows, a);
    var i :| 0 <= i < |rows[a]| && rows[a][i] == b;
    assert Neighbors(pi, a)[i] == b;
    assert Slot(pi, a, b, pi.coords[a] + i);
  }

  predicate IsHomogeneous(endpointSets: seq<nat>)
    requires |endpointSets| >= 1
  {
    forall i :: 1 <= i < |endpointSets| ==> endpointSets[i] == endpointSets[0]
  }

  /** The location of one pair of endpoints. */
  method LocOfPair(g: Graph, u: Var, e: Var, w: Var, pi: PathIndex, lv: nat, i: nat, j: nat) returns (l: nat)
    requires EdgeVars(g, u, e, w) && Correct(g, VerticesByEdge(u, e, w), pi)
    requires var es := g.sets[Bound(g, e.home)];
             && lv < es.size && i < |es.endpointSets| && j < |es.endpointSets|
             && es.endpointSets[i] == Bound(g, u.home) && es.endpointSets[j] == Bound(g, w.home)
    ensures lv < |g.sets[Bound(g, e.home)].endpoints| && i < |g.sets[Bound(g, e.home)].endpoints[lv]| &&
            j < |g.sets[Bound(g, e.home)].endpoints[lv]|
    ensures var eps := g.sets[Bound(g, e.home)].endpoints[lv];
            Slot(pi, eps[i], eps[j], l) && forall m :: Slot(pi, eps[i], eps[j], m) ==> m == l
  {
    hide Packed, Holds, Wired, Rows;
    assert ValidSet(g, Bound(g, e.home));
    var eps := g.sets[Bound(g, e.home)].endpoints[lv];
    ghost var pe := VerticesByEdge(u, e, w);
    VerticesByEdgeWired(g, u, e, w);
    EndpointsAreJoined(g, u, e, w, lv, i, j, eps[i], eps[j]);
    RowsAreTheMeaning(g, pe, eps[i], eps[j]);
    SearchStaysInRow(pi, Rows(g, pe), eps[i], eps[j]);
    ghost var slot :| Slot(pi, eps[i], eps[j], slot);
    l := Loc(eps[i], eps[j], pi.coords, pi.sinks);
    forall m | Slot(pi, eps[i], eps[j], m) ensures m == l {
      OneSlot(g, u, e, w, pi, eps[i], eps[j], l, m);
    }
  }

  /** If endpoints i and j of an edge are from the two sets, their location is recorded. */
  ghost predicate Located(es: ElementSet, rowSet: nat, columnSet: nat, eps: seq<nat>, pi: PathIndex,
                          locs: map<(nat, nat), nat>, i: nat, j: nat)
    requires i < |es.endpointSets| == |eps| && j < |eps|
  {
    es.endpointSets[i] == rowSet && es.endpointSets[j] == columnSet ==>
      (i, j) in locs && Slot(pi, eps[i], eps[j], locs[(i, j)]) &&
        (forall m :: Slot(pi, eps[i], eps[j], m) ==> m == locs[(i, j)])
  }

  lemma LocatedStays(es: ElementSet, rowSet: nat, columnSet: nat, eps: seq<nat>, pi: PathIndex,
                     locs: map<(nat, nat), nat>, i: nat, j: nat, i': nat, j': nat, loc: nat)
    requires i < |es.endpointSets| == |eps| && j < |eps| && (i, j) != (i', j')
    requires Located(es, rowSet, columnSet, eps, pi, locs, i, j)
    ensures Located(es, rowSet, columnSet, eps, pi, locs[(i', j') := loc], i, j)
  {
  }

  /** All pairs before (i, j), row by row. */
  ghost predicate LocatedBefore(es: ElementSet, rowSet: nat, columnSet: nat, eps: seq<nat>, pi: PathIndex,
                                locs: map<(nat, nat), nat>, i: nat, j: nat)
    requires |es.endpointSets| == |eps|
  {
    forall i': nat, j': nat :: i' < |eps| && j' < |eps| && (i' < i || (i' == i && j' < j)) ==>
      Located(es, rowSet, columnSet, eps, pi, locs, i', j')
  }

  lemma LocateNext(es: ElementSet, rowSet: nat, columnSet: nat, eps: seq<nat>, pi: PathIndex,
                     locs: map<(nat, nat), nat>, i: nat, j: nat, loc: nat)
    requires i < |es.endpointSets| == |eps| && j < |eps|
    requires LocatedBefore(es, rowSet, columnSet, eps, pi, locs, i, j)
    requires Slot(pi, eps[i], eps[j], loc) && forall m :: Slot(pi, eps[i], eps[j], m) ==> m == loc
    ensures LocatedBefore(es, rowSet, columnSet, eps, pi, locs[(i, j) := loc], i, j + 1)
  {
    var after := locs[(i, j) := loc];
    forall i': nat, j': nat {:trigger Located(es, rowSet, columnSet, eps, pi, after, i', j')}
      | i' < |eps| && j' < |eps| && (i' < i || (i' == i && j' < j + 1))
      ensures Located(es, rowSet, columnSet, eps, pi, after, i', j') {
      if (i', j') != (i, j) { LocatedStays(es, rowSet, columnSet, eps, pi, locs, i', j', i, j, loc); }
    }
  }

  lemma SkipPair(es: ElementSet, rowSet: nat, columnSet: nat, eps: seq<nat>, pi: PathIndex, locs: map<(nat, nat), nat>,
                 i: nat, j: nat)
    requires i < |es.endpointSets| == |eps| && j < |eps| &&
             (es.endpointSets[i] != rowSet || es.endpointSets[j] != columnSet)
    requires LocatedBefore(es, rowSet, columnSet, eps, pi, locs, i, j)
    ensures LocatedBefore(es, rowSet, columnSet, eps, pi, locs, i, j + 1)
  {
  }

  lemma NextRow(es: ElementSet, rowSet: nat, columnSet: nat, eps: seq<nat>, pi: PathIndex, locs: map<(nat, nat), nat>,
                i: nat)
    requires i < |es.endpointSets| == |eps|
    requires es.endpointSets[i] == rowSet ==> LocatedBefore(es, rowSet, columnSet, eps, pi, locs, i, |eps|)
    requires LocatedBefore(es, rowSet, columnSet, eps, pi, locs, i, 0)
    ensures LocatedBefore(es, rowSet, columnSet, eps, pi, locs, i + 1, 0)
  {
  }

  /** The locations of all pairs of endpoints of edge lv that index the matrix: all pairs if the
      endpoints come from one set, else those from the sets of its dimensions. */
  method GatherVVLocs(g: Graph, u: Var, e: Var, w: Var, pi: PathIndex, lv: nat) returns (locs: map<(nat, nat), nat>)
    requires EdgeVars(g, u, e, w) && Correct(g, VerticesByEdge(u, e, w), pi) && lv < g.sets[Bound(g, e.home)].size
    ensures ValidSet(g, Bound(g, e.home))
    ensures var es := g.sets[Bound(g, e.home)];
            forall i: nat, j: nat :: i < |es.endpointSets| && j < |es.endpointSets| ==>
              Located(es, Bound(g, u.home), Bound(g, w.home), es.endpoints[lv], pi, locs, i, j)
  {
    hide Correct, Slot, Located, LocatedBefore;
    assert ValidSet(g, Bound(g, e.home));
    var es := g.sets[Bound(g, e.home)];
    var cardinality, rowSet, columnSet, eps := |es.endpointSets|, Bound(g, u.home), Bound(g, w.home), es.endpoints[lv];
    var homogeneous := IsHomogeneous(es.endpointSets);
    locs := map[];
    NothingBefore(es, rowSet, columnSet, eps, pi, locs);
    for i := 0 to cardinality
      invariant LocatedBefore(es, rowSet, columnSet, eps, pi, locs, i, 0)
    {
      if homogeneous || es.endpointSets[i] == rowSet {
        for j := 0 to cardinality
          invariant LocatedBefore(es, rowSet, columnSet, eps, pi, locs, i, j)
        {
          if homogeneous || es.endpointSets[j] == columnSet {
            var loc := LocOfPair(g, u, e, w, pi, lv, i, j);
            LocateNext(es, rowSet, columnSet, eps, pi, locs, i, j, loc);
            locs := locs[(i, j) := loc];
          } else {
            SkipPair(es, rowSet, columnSet, eps, pi, locs, i, j);
          }
        }
        RowDone(es, rowSet, columnSet, eps, pi, locs, i);
      }
      NextRow(es, rowSet, columnSet, eps, pi, locs, i);
    }
    AllLocated(es, rowSet, columnSet, eps, pi, locs);
  }

  lemma NothingBefore(es: ElementSet, rowSet: nat, columnSet: nat, eps: seq<nat>, pi: PathIndex,
                      locs: map<(nat, nat), nat>)
    requires |es.endpointSets| == |eps|
    ensures LocatedBefore(es, rowSet, columnSet, eps, pi, locs, 0, 0)
  {
  }

  lemma RowDone(es: ElementSet, rowSet: nat, columnSet: nat, eps: seq<nat>, pi: PathIndex, locs: map<(nat, nat), nat>,
                i: nat)
    requires |es.endpointSets| == |eps| && LocatedBefore(es, rowSet, columnSet, eps, pi, locs, i, |eps|)
    ensures LocatedBefore(es, rowSet, columnSet, eps, pi, locs, i, 0)
  {
  }

  lemma AllLocated(es: ElementSet, rowSet: nat, columnSet: nat, eps: seq<nat>, pi: PathIndex, locs: map<(nat, nat),
                   nat>)
    requires |es.endpointSets| == |eps| && LocatedBefore(es, rowSet, columnSet, eps, pi, locs, |eps|, 0)
    ensures forall i: nat, j: nat :: i < |eps| && j < |eps| ==> Located(es, rowSet, columnSet, eps, pi, locs, i, j)
  {
  }

  // ---------- Locations in link indices ----------

  /** For a ve index the search finds the first slot of the vertex's row that holds the edge. */
  method LocInVe(g: Graph, pe: PathExpr, pi: PathIndex, lv: nat, i: nat) returns (l: nat)
    requires ValidGraph(g) && Wired(g, pe) && pe.Link? && pe.kind == VE && Correct(g, pe, pi)
    requires var es := g.sets[Bound(g, pe.rhs.home)];
             lv < es.size && i < |es.endpointSets| && es.endpointSets[i] == Bound(g, pe.lhs.home)
    ensures ValidSet(g, Bound(g, pe.rhs.home))
    ensures var v := g.sets[Bound(g, pe.rhs.home)].endpoints[lv][i];
            Slot(pi, v, lv, l) && FirstFrom(pi.sinks, pi.coords[v], lv, l)
  {
    hide Packed;
    assert ValidSet(g, Bound(g, pe.rhs.home));
    var es := g.sets[Bound(g, pe.rhs.home)];
    var v := es.endpoints[lv][i];
    assert es.endpoints[lv][i] < g.sets[es.endpointSets[i]].size;
    VeRowIn(es, Bound(g, pe.lhs.home), v, es.size, lv);
    SearchStaysInRow(pi, Rows(g, pe), v, lv);
    l := Loc(v, lv, pi.coords, pi.sinks);
  }

  /** The location of endpoint i in an ev index. */
  function EvLoc(es: ElementSet, vertexSet: nat, lv: nat, i: nat): (l: nat)
    requires i <= |es.endpointSets|
  {
    lv * Matches(es, vertexSet, |es.endpointSets|) + Matches(es, vertexSet, i)
  }

  lemma {:induction false} EvRowAt(es: ElementSet, vertexSet: nat, e: nat, i: nat, n: nat)
    requires e < |es.endpoints| && i < n <= |es.endpointSets| && |es.endpoints[e]| == |es.endpointSets|
    requires es.endpointSets[i] == vertexSet
    ensures Matches(es, vertexSet, i) < Matches(es, vertexSet, n)
    ensures EvRow(es, vertexSet, e, n)[Matches(es, vertexSet, i)] == es.endpoints[e][i]
  {
    if i < n - 1 { EvRowAt(es, vertexSet, e, i, n - 1); }
  }

  lemma {:induction false} MatchAt(es: ElementSet, vertexSet: nat, n: nat, m: nat) returns (i: nat)
    requires n <= |es.endpointSets| && m < Matches(es, vertexSet, n)
    ensures i < n && es.endpointSets[i] == vertexSet && Matches(es, vertexSet, i) == m
  {
    if m < Matches(es, vertexSet, n - 1) {
      i := MatchAt(es, vertexSet, n - 1, m);
    } else {
      i := n - 1;
    }
  }

  /** The formula for the location of an endpoint gives a slot of the edge's row that holds it; and
      every slot of the row is the location of exactly one endpoint. */
  lemma EvSlots(g: Graph, pe: PathExpr, pi: PathIndex, lv: nat, i: nat)
    requires ValidGraph(g) && Wired(g, pe) && pe.Link? && pe.kind == EV && Correct(g, pe, pi)
    requires lv < g.sets[Bound(g, pe.lhs.home)].size && i < |g.sets[Bound(g, pe.lhs.home)].endpointSets|
    requires g.sets[Bound(g, pe.lhs.home)].endpointSets[i] == Bound(g, pe.rhs.home)
    ensures ValidSet(g, Bound(g, pe.lhs.home))
    ensures var es, vs := g.sets[Bound(g, pe.lhs.home)], Bound(g, pe.rhs.home);
            && Slot(pi, lv, es.endpoints[lv][i], EvLoc(es, vs, lv, i))
            && (forall l :: pi.coords[lv] <= l < pi.coords[lv + 1] ==> IsLocation(es, vs, lv, l))
            && forall j :: 0 <= j < |es.endpointSets| && es.endpointSets[j] == vs ==>
                 (EvLoc(es, vs, lv, j) == EvLoc(es, vs, lv, i) ==> j == i)
  {
    hide Packed, EvRow, Start;
    var es, vs := g.sets[Bound(g, pe.lhs.home)], Bound(g, pe.rhs.home);
    assert ValidSet(g, Bound(g, pe.lhs.home));
    var n := |es.endpointSets|;
    var rows := Rows(g, pe);
    assert rows == EvRows(es, vs);
    PackedRow(rows, lv);
    EvStart(es, vs, lv);
    EvRowAt(es, vs, lv, i, n);
    PackedStart(rows, lv);
    assert Neighbors(pi, lv)[Matches(es, vs, i)] == es.endpoints[lv][i];
    forall l | pi.coords[lv] <= l < pi.coords[lv + 1] ensures IsLocation(es, vs, lv, l) {
      var j := MatchAt(es, vs, n, l - pi.coords[lv]);
      assert EvLoc(es, vs, lv, j) == l;
    }
    forall j | 0 <= j < n && es.endpointSets[j] == vs && EvLoc(es, vs, lv, j) == EvLoc(es, vs, lv, i) ensures j == i {
      if j < i { EvRowAt(es, vs, lv, j, i); }
      if i < j { EvRowAt(es, vs, lv, i, j); }
    }
  }

  lemma PackedStart(rows: seq<seq<nat>>, v: nat)
    requires v < |rows|
    ensures Packed(rows).coords[v] == Start(rows, v)
  {
  }

  /** Some endpoint of the vertex set has location l. */
  ghost predicate IsLocation(es: ElementSet, vertexSet: nat, lv: nat, l: nat) {
    exists j :: 0 <= j < |es.endpointSets| && es.endpointSets[j] == vertexSet && EvLoc(es, vertexSet, lv, j) == l
  }

  /** The emitted locations: `lv * cardinality + i` if the endpoints come from one set, otherwise a
      running count among those of the vertex set. */
  method GatherEVLocs(es: ElementSet, vertexSet: nat, lv: nat) returns (locs: map<nat, nat>)
    requires vertexSet in es.endpointSets
    ensures forall i: nat :: i in locs <==> i < |es.endpointSets| && es.endpointSets[i] == vertexSet
    ensures forall i :: i in locs ==> locs[i] == EvLoc(es, vertexSet, lv, i)
  {
    hide Matches, EvLoc;
    var cardinality := |es.endpointSets|;
    locs := map[];
    if IsHomogeneous(es.endpointSets) {
      for i := 0 to cardinality
        invariant forall k: nat :: k in locs <==> k < i
        invariant forall k :: k in locs ==> locs[k] == EvLoc(es, vertexSet, lv, k)
      {
        EvLocOfAll(es, vertexSet, lv, i);
        locs := locs[i := lv * cardinality + i];
      }
    } else {
      var nnzPerRow := 0;
      MatchesNone(es, vertexSet);
      for i := 0 to cardinality
        invariant nnzPerRow == Matches(es, vertexSet, i)
      {
        MatchesNext(es, vertexSet, i);
        if es.endpointSets[i] == vertexSet { nnzPerRow := nnzPerRow + 1; }
      }
      var j := 0;
      for i := 0 to cardinality
        invariant j == Matches(es, vertexSet, i)
        invariant forall k: nat :: k in locs <==> k < i && es.endpointSets[k] == vertexSet
        invariant forall k :: k in locs ==> locs[k] == EvLoc(es, vertexSet, lv, k)
      {
        MatchesNext(es, vertexSet, i);
        if es.endpointSets[i] == vertexSet {
          EvLocIs(es, vertexSet, lv, i);
          locs := locs[i := lv * nnzPerRow + j];
          j := j + 1;
        }
      }
    }
  }

  lemma MatchesNone(es: ElementSet, vertexSet: nat)
    ensures Matches(es, vertexSet, 0) == 0
  {
  }

  lemma MatchesNext(es: ElementSet, vertexSet: nat, i: nat)
    requires i < |es.endpointSets|
    ensures Matches(es, vertexSet, i + 1) ==
            Matches(es, vertexSet, i) + (if es.endpointSets[i] == vertexSet then 1 else 0)
  {
  }

  lemma EvLocIs(es: ElementSet, vertexSet: nat, lv: nat, i: nat)
    requires i <= |es.endpointSets|
    ensures EvLoc(es, vertexSet, lv, i) == lv * Matches(es, vertexSet, |es.endpointSets|) + Matches(es, vertexSet, i)
  {
  }

  lemma EvLocOfAll(es: ElementSet, vertexSet: nat, lv: nat, i: nat)
    requires i <= |es.endpointSets| && vertexSet in es.endpointSets && IsHomogeneous(es.endpointSets)
    ensures EvLoc(es, vertexSet, lv, i) == lv * |es.endpointSets| + i
  {
    AllMatch(es, vertexSet, |es.endpointSets|);
    AllMatch(es, vertexSet, i);
  }

  lemma {:induction false} AllMatch(es: ElementSet, vertexSet: nat, n: nat)
    requires n <= |es.endpointSets| && forall i :: 0 <= i < |es.endpointSets| ==> es.endpointSets[i] == vertexSet
    ensures Matches(es, vertexSet, n) == n
  {
    if n > 0 { AllMatch(es, vertexSet, n - 1); }
  }
}
