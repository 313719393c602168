/** Path expressions all of whose links are stencils on one grid: the relations they denote do not change when
    both ends are moved by the same offset, so they can be composed in either order.
 */
module GridPaths {
  import opened Wrappers
  import opened PathExpressions
  import opened Grids
  import W = Words
  import opened GraphMeaning

  /** Every link of the expression is a stencil over a grid with these dimensions. */
  ghost predicate OnGrid(g: Graph, pe: PathExpr, dims: seq<nat>)
  {
    match pe
    case Link(_, _, _, s) =>
      s.Some? && s.value in g.stencils && g.stencils[s.value].grid < |g.sets| &&
        g.sets[g.stencils[s.value].grid].dims == dims
    case Connective(_, _, _, _, l, r) => OnGrid(g, l, dims) && OnGrid(g, r, dims)
    case Renamed(e, _, _) => OnGrid(g, e, dims)
  }

  // ---------- Invariant relations ----------

  /** Rows over the points of a grid. */
  ghost predicate OverGrid(dims: seq<nat>, rows: seq<seq<nat>>) {
    |rows| == Volume(dims) && forall v, u :: 0 <= v < |rows| && u in rows[v] ==> u < Volume(dims)
  }

  /** Moving both ends keeps the relation. */
  ghost predicate Invariant(dims: seq<nat>, rows: seq<seq<nat>>)
    requires Positive(dims)
  {
    && OverGrid(dims, rows)
    && forall v: nat, u: nat, off: seq<int> {:trigger Moved(dims, v, off), Moved(dims, u, off)} ::
         v < |rows| && u in rows[v] && |off| == |dims| ==> Moved(dims, u, off) in rows[Moved(dims, v, off)]
  }

  /** An offset that leads from p to q. */
  ghost function Between(dims: seq<nat>, p: nat, q: nat): (off: seq<int>)
    requires Positive(dims)
    ensures |off| == |dims|
  {
    Plus(Coords(dims, q), Negated(Coords(dims, p)))
  }

  lemma MovedBetween(dims: seq<nat>, p: nat, q: nat)
    requires Positive(dims) && p < Volume(dims) && q < Volume(dims)
    ensures Moved(dims, p, Between(dims, p, q)) == q
  {
    hide Linear, Coords, Volume;
    LinearOfCoords(dims, p);
    LinearOfCoords(dims, q);
    var c, d, off := Coords(dims, p), Coords(dims, q), Between(dims, p, q);
    forall i | 0 <= i < |dims| ensures (c[i] + off[i]) % dims[i] == d[i] {
      assert c[i] + off[i] == d[i];
      W.DivModOf(0, d[i], dims[i]);
    }
    assert Shifted(dims, c, off) == d;
  }

  /** Two moves can be exchanged. */
  lemma MovesCommute(dims: seq<nat>, p: nat, a: seq<int>, b: seq<int>)
    requires Positive(dims) && |a| == |b| == |dims|
    ensures Moved(dims, Moved(dims, p, a), b) == Moved(dims, Moved(dims, p, b), a)
  {
    hide Moved;
    MovedTwice(dims, p, a, b);
    MovedTwice(dims, p, b, a);
    assert Plus(a, b) == Plus(b, a);
  }

  lemma VvInvariant(dims: seq<nat>, offsets: seq<seq<int>>)
    requires Positive(dims) && forall j :: 0 <= j < |offsets| ==> |offsets[j]| == |dims|
    ensures Invariant(dims, VvRows(dims, offsets, Volume(dims)))
  {
    hide Volume, Moved;
    var rows := VvRows(dims, offsets, Volume(dims));
    forall v: nat, u: nat, off: seq<int> | v < |rows| && u in rows[v] && |off| == |dims|
      ensures Moved(dims, u, off) in rows[Moved(dims, v, off)] {
      var j :| 0 <= j < |offsets| && rows[v][j] == u;
      VvMoved(dims, offsets, v, j);
      VvMoved(dims, offsets, Moved(dims, v, off), j);
      MovesCommute(dims, v, offsets[j], off);
      assert rows[Moved(dims, v, off)][j] == Moved(dims, u, off);
    }
  }

  lemma VvMoved(dims: seq<nat>, offsets: seq<seq<int>>, v: nat, j: nat)
    requires Positive(dims) && (forall j :: 0 <= j < |offsets| ==> |offsets[j]| == |dims|) && j < |offsets|
    ensures VvRow(dims, offsets, v)[j] == Moved(dims, v, offsets[j])
  {
  }

  /** u belongs to row v of a connective of two relations over one grid. */
  ghost predicate Related(op: Op, quantified: bool, first: seq<seq<nat>>, second: seq<seq<nat>>, v: nat, u: nat)
    requires v < |first| == |second|
  {
    match (op, quantified)
    case (AndOp, false) => u in first[v] && u in second[v]
    case (OrOp, false) => u in first[v] || u in second[v]
    case (AndOp, true) => exists q: nat :: q < |second| && q in first[v] && u in second[q]
    case (OrOp, true) => first[v] != [] || exists q: nat :: q < |second| && u in second[q]
  }

  lemma JoinedMeans(dims: seq<nat>, op: Op, quantified: bool, first: seq<seq<nat>>, second: seq<seq<nat>>, v: nat,
                    u: nat)
    requires OverGrid(dims, first) && OverGrid(dims, second) && v < Volume(dims)
    ensures u in JoinedRows(op, quantified, first, second, Volume(dims))[v] <==>
            u < Volume(dims) && Related(op, quantified, first, second, v, u)
  {
    hide Volume;
    var rows := JoinedRows(op, quantified, first, second, Volume(dims));
    assert rows[v] == Ascending(RowSet(op, quantified, first, second, Volume(dims), v), Volume(dims));
  }

  lemma RelatedMoves(dims: seq<nat>, op: Op, quantified: bool, first: seq<seq<nat>>, second: seq<seq<nat>>,
                     v: nat, u: nat, off: seq<int>)
    requires Positive(dims) && Invariant(dims, first) && Invariant(dims, second)
    requires v < Volume(dims) && u < Volume(dims) && |off| == |dims|
    requires Related(op, quantified, first, second, v, u)
    ensures Related(op, quantified, first, second, Moved(dims, v, off), Moved(dims, u, off))
  {
    hide Moved, Volume;
    var v', u' := Moved(dims, v, off), Moved(dims, u, off);
    if quantified {
      if op == OrOp && first[v] != [] {
        var x := first[v][0];
        assert Moved(dims, x, off) in first[v'];
      } else {
        var q: nat :| q < |second| && (op == AndOp ==> q in first[v]) && u in second[q];
        var q' := Moved(dims, q, off);
        assert q' < |second| && u' in second[q'] && (op == AndOp ==> q' in first[v']);
      }
    }
  }

  lemma JoinInvariant(dims: seq<nat>, op: Op, quantified: bool, first: seq<seq<nat>>, second: seq<seq<nat>>)
    requires Positive(dims) && Invariant(dims, first) && Invariant(dims, second)
    ensures Invariant(dims, JoinedRows(op, quantified, first, second, Volume(dims)))
  {
    hide Moved, Volume, JoinedRows, Related;
    var rows := JoinedRows(op, quantified, first, second, Volume(dims));
    forall v: nat, u: nat, off: seq<int> | v < |rows| && u in rows[v] && |off| == |dims|
      ensures Moved(dims, u, off) in rows[Moved(dims, v, off)] {
      JoinedMeans(dims, op, quantified, first, second, v, u);
      RelatedMoves(dims, op, quantified, first, second, v, u, off);
      JoinedMeans(dims, op, quantified, first, second, Moved(dims, v, off), Moved(dims, u, off));
    }
  }

  // ---------- Composition in either order ----------

  /** From v through first and then second to u: the same displacements lead through second first. */
  lemma ComposedBackwards(dims: seq<nat>, first: seq<seq<nat>>, second: seq<seq<nat>>, v: nat, q: nat, u: nat)
    requires Positive(dims) && Invariant(dims, first) && Invariant(dims, second)
    requires v < Volume(dims) && q in first[v] && q < Volume(dims) && u in second[q]
    ensures Related(AndOp, true, second, first, v, u)
  {
    hide Moved, Volume, Between;
    var forth, back := Between(dims, q, u), Between(dims, q, v);
    MovedBetween(dims, q, u);
    MovedBetween(dims, q, v);
    MovesCommute(dims, q, forth, back);
    var q' := Moved(dims, v, forth);
    assert u == Moved(dims, q, forth) && u in first[q'];
    assert q' == Moved(dims, u, back) && q' in second[v];
  }

  /** A pair in an invariant relation can be moved to start or to end anywhere. */
  lemma AnyPair(dims: seq<nat>, rows: seq<seq<nat>>, v: nat, u: nat, x: nat)
    requires Positive(dims) && Invariant(dims, rows) && v < Volume(dims) && u in rows[v] && x < Volume(dims)
    ensures rows[x] != [] && exists q: nat :: q < |rows| && x in rows[q]
  {
    hide Moved, Volume, Between;
    MovedBetween(dims, v, x);
    assert Moved(dims, u, Between(dims, v, x)) in rows[x];
    MovedBetween(dims, u, x);
    assert x in rows[Moved(dims, v, Between(dims, u, x))];
  }

  lemma ReachedBackwards(dims: seq<nat>, first: seq<seq<nat>>, second: seq<seq<nat>>, v: nat, u: nat)
    requires Positive(dims) && Invariant(dims, first) && Invariant(dims, second) && v < Volume(dims) && u < Volume(dims)
    requires Related(OrOp, true, first, second, v, u)
    ensures Related(OrOp, true, second, first, v, u)
  {
    hide Volume, Invariant;
    assert OverGrid(dims, first) && OverGrid(dims, second) by { SizesOf(dims, first); SizesOf(dims, second); }
    if first[v] != [] {
      AnyPair(dims, first, v, first[v][0], u);
    } else {
      var q: nat :| q < |second| && u in second[q];
      AnyPair(dims, second, q, u, v);
    }
  }

  lemma SizesOf(dims: seq<nat>, rows: seq<seq<nat>>)
    requires Positive(dims) && Invariant(dims, rows)
    ensures OverGrid(dims, rows)
  {
  }

  /** The operands of a quantified connective can be exchanged. */
  lemma EitherOrder(dims: seq<nat>, op: Op, first: seq<seq<nat>>, second: seq<seq<nat>>)
    requires Positive(dims) && Invariant(dims, first) && Invariant(dims, second)
    ensures JoinedRows(op, true, first, second, Volume(dims)) == JoinedRows(op, true, second, first, Volume(dims))
  {
    hide Volume, RowSet, Ascending, Related;
    var n := Volume(dims);
    var one, other := JoinedRows(op, true, first, second, n), JoinedRows(op, true, second, first, n);
    forall v: nat | v < n ensures one[v] == other[v] {
      forall u: nat ensures u in one[v] <==> u in other[v] {
        JoinedMeans(dims, op, true, first, second, v, u);
        JoinedMeans(dims, op, true, second, first, v, u);
        if u < n {
          if Related(op, true, first, second, v, u) { Backwards(dims, op, first, second, v, u); }
          if Related(op, true, second, first, v, u) { Backwards(dims, op, second, first, v, u); }
        }
      }
      SameAscending(one[v], other[v], RowSet(op, true, first, second, n, v), RowSet(op, true, second, first, n, v), n);
    }
  }

  lemma Backwards(dims: seq<nat>, op: Op, first: seq<seq<nat>>, second: seq<seq<nat>>, v: nat, u: nat)
    requires Positive(dims) && Invariant(dims, first) && Invariant(dims, second) && v < Volume(dims) && u < Volume(dims)
    requires Related(op, true, first, second, v, u)
    ensures Related(op, true, second, first, v, u)
  {
    hide Volume, Invariant;
    SizesOf(dims, first);
    SizesOf(dims, second);
    if op == AndOp {
      var q: nat :| q < |second| && q in first[v] && u in second[q];
      ComposedBackwards(dims, first, second, v, q, u);
    } else {
      ReachedBackwards(dims, first, second, v, u);
    }
  }

  lemma {:induction false} AscendingOf(s: set<nat>, t: set<nat>, n: nat)
    requires forall x: nat :: x < n ==> (x in s <==> x in t)
    ensures Ascending(s, n) == Ascending(t, n)
  {
    if n > 0 { AscendingOf(s, t, n - 1); }
  }

  lemma SameAscending(xs: seq<nat>, ys: seq<nat>, s: set<nat>, t: set<nat>, n: nat)
    requires xs == Ascending(s, n) && ys == Ascending(t, n) && forall x: nat :: x in xs <==> x in ys
    ensures xs == ys
  {
    forall x: nat | x < n ensures x in s <==> x in t { assert x in xs <==> x in ys; }
    AscendingOf(s, t, n);
  }

  // ---------- Expressions on one grid ----------

  lemma {:induction false} OnGridRows(g: Graph, pe: PathExpr, dims: seq<nat>)
    requires ValidGraph(g) && Wired(g, pe) && OnGrid(g, pe, dims)
    ensures Positive(dims) && Invariant(dims, Rows(g, pe))
    ensures SizeOf(g, EndSet(g, pe, 0)) == Volume(dims) == SizeOf(g, EndSet(g, pe, 1))
    decreases pe
  {
    hide Invariant, Volume, VvRows, JoinedRows;
    WiredEnds(g, pe);
    match pe
    case Link(_, x, y, s) =>
      VvInvariant(dims, g.stencils[s.value].offsets);
    case Connective(op, _, _, q, l, r) =>
      OnGridRows(g, l, dims);
      OnGridRows(g, r, dims);
      JoinInvariant(dims, op, q.Some?, Rows(g, if q.Some? then SourceOperand(pe) else l),
        Rows(g, if q.Some? then SinkOperand(pe) else r));
    case Renamed(e, _, _) =>
      OnGridRows(g, e, dims);
  }
}
