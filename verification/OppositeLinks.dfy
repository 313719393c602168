/** When oppositely wired expressions can share an entry of the memo table. */
module OppositeLinks {
  import opened Wrappers
  import opened PathExpressions
  import opened Grids
  import opened GraphMeaning
  import opened GridPaths
  import opened MemoTable

  predicate NoStencils(pe: PathExpr)
  {
    match pe
    case Link(_, _, _, s) => s.None?
    case Connective(_, _, _, _, l, r) => NoStencils(l) && NoStencils(r)
    case Renamed(e, _, _) => NoStencils(e)
  }

  // ---------- A graph with one element in every small set ----------

  function Resized(es: ElementSet, one: bool): (r: ElementSet)
  {
    if one then ElementSet(1, es.endpointSets, [seq(|es.endpointSets|, _ => 0)], es.dims)
    else ElementSet(0, es.endpointSets, [], es.dims)
  }

  /** The graph with the same sets and bindings, but with one element in the sets before k and none from k on. */
  function Shrunk(g: Graph, k: nat): (r: Graph)
  {
    Graph(seq(|g.sets|, i requires 0 <= i < |g.sets| => Resized(g.sets[i], i < k)), g.binding, g.stencils)
  }

  lemma ShrunkValid(g: Graph, k: nat)
    requires ValidGraph(g)
    ensures ValidGraph(Shrunk(g, k))
  {
    forall i | 0 <= i < |g.sets| ensures ValidSet(Shrunk(g, k), i) {
      assert ValidSet(g, i);
    }
  }

  lemma {:induction false} ShrunkEnds(g: Graph, k: nat, pe: PathExpr, i: nat)
    requires i < 2
    ensures EndSet(Shrunk(g, k), pe, i) == EndSet(g, pe, i)
    decreases pe
  {
    match pe
    case Link(_, _, _, _) =>
    case Connective(_, _, _, q, l, r) => ShrunkEnds(g, k, l, i); ShrunkEnds(g, k, r, i);
    case Renamed(e, _, _) => ShrunkEnds(g, k, e, i);
  }

  /** Expressions without stencils stay wired. */
  lemma {:induction false} ShrunkWired(g: Graph, k: nat, pe: PathExpr)
    requires NoStencils(pe) && Wired(g, pe)
    ensures Wired(Shrunk(g, k), pe)
    decreases pe
  {
    match pe
    case Link(_, _, _, _) =>
    case Connective(_, _, _, q, l, r) =>
      ShrunkWired(g, k, l);
      ShrunkWired(g, k, r);
      forall i: nat | i < 2
        ensures EndSet(Shrunk(g, k), l, i) == EndSet(g, l, i) && EndSet(Shrunk(g, k), r, i) == EndSet(g, r, i) {
        ShrunkEnds(g, k, l, i);
        ShrunkEnds(g, k, r, i);
      }
      ShrunkBounds(g, k, FirstSet(VarSets(pe, map[]), pe.f1));
    case Renamed(e, _, _) =>
      ShrunkWired(g, k, e);
  }

  lemma ShrunkBounds(g: Graph, k: nat, s: Option<SetId>)
    ensures s.Some? ==> Bound(Shrunk(g, k), s.value) == Bound(g, s.value)
  {
  }

  // ---------- Opposite wiring of expressions without stencils ----------

  /** Two quantified connectives of one form and with operands wired alike, but wired oppositely themselves. */
  ghost predicate Opposite(g: Graph, a: PathExpr, b: PathExpr) {
    && ValidGraph(g) && Wired(g, a) && Wired(g, b) && SameForm(a, b) && a.Connective? && b.Connective?
    && a.qvar.Some? && b.qvar.Some? && LeftFirst(a) != LeftFirst(b)
    && SameWiring(g, a.l, b.l) && SameWiring(g, a.r, b.r)
  }

  /** Without stencils the sharing goes wrong on some graph as soon as the two relate different sets. */
  lemma OppositeDiffer(g: Graph, a: PathExpr, b: PathExpr) returns (h: Graph)
    requires Opposite(g, a, b) && NoStencils(a) && NoStencils(b) && EndSet(g, a, 0) != EndSet(g, b, 0)
    ensures ValidGraph(h) && Wired(h, a) && Wired(h, b) && !SameRows(h, a, b)
  {
    hide Rows, Wired, EndSet, SameForm, ValidGraph, NoStencils, SameWiring, LeftFirst;
    var s, q := EndSet(g, a, 0), EndSet(g, b, 0);
    var k := if s < q then q else s;
    h := Shrunk(g, k);
    WiredEnds(g, a);
    WiredEnds(g, b);
    ShrunkValid(g, k);
    ShrunkWired(g, k, a);
    ShrunkWired(g, k, b);
    ShrunkEnds(g, k, a, 0);
    ShrunkEnds(g, k, b, 0);
    assert |Rows(h, a)| == SizeOf(h, s) && |Rows(h, b)| == SizeOf(h, q);
  }

  /** Edges joined by a vertex. */
  function EdgesByVertex(d: Var, v: Var, f: Var): (pe: PathExpr)
  {
    Connective(AndOp, d, f, Some(v), Link(VE, v, f, None), Link(EV, d, v, None))
  }

  /** Two such expressions on ordinary graphs: "vertices joined by an edge" and "edges joined by a vertex" have one
      key, and different indices wherever there are more vertices than edges or fewer. */
  lemma VerticesAndEdges(g: Graph, u: Var, e: Var, w: Var, d: Var, v: Var, f: Var)
    requires ValidGraph(g) && WiredLink(g, Bound(g, e.home), Bound(g, u.home))
    requires u.home == w.home == v.home && e.home == d.home == f.home
    requires u != e && e != w && u != w && d != v && v != f && d != f
    ensures var a, b := VerticesByEdge(u, e, w), EdgesByVertex(d, v, f);
            && Opposite(g, a, b) && NoStencils(a) && NoStencils(b) && SameKey(a, b)
            && EndSet(g, a, 0) == Bound(g, u.home) != Bound(g, e.home) == EndSet(g, b, 0)
            && (SizeOf(g, Bound(g, u.home)) != SizeOf(g, Bound(g, e.home)) ==> !SameRows(g, a, b))
  {
    hide Rows, SameKey;
    var a, b := VerticesByEdge(u, e, w), EdgesByVertex(d, v, f);
    assert ValidSet(g, Bound(g, e.home));
    assert SourceOperand(a) == a.l && SinkOperand(a) == a.r && SourceOperand(b) == b.r && SinkOperand(b) == b.l;
    assert Wired(g, a.l) && Wired(g, a.r) && Wired(g, b.l) && Wired(g, b.r);
    OppositeWiring(g, a, b);
  }

  // ---------- Two links ----------

  /** A link leads from a set to itself if it is a stencil, and to another one if it is not. */
  lemma {:induction false} LinkEnds(g: Graph, pe: PathExpr)
    requires ValidGraph(g) && Wired(g, pe) && Core(pe).Link?
    ensures Core(pe).stencil.Some? <==> EndSet(g, pe, 0) == EndSet(g, pe, 1)
    ensures Core(pe).stencil.None? ==> NoStencils(pe)
    decreases pe
  {
    if pe.Renamed? {
      LinkEnds(g, pe.pe);
    } else {
      WiredEnds(g, pe);
      assert ValidSet(g, EndSet(g, pe, 0)) && ValidSet(g, EndSet(g, pe, 1));
    }
  }

  lemma {:induction false} LinksWiredAlike(g: Graph, a: PathExpr, b: PathExpr)
    requires SameForm(a, b) && Core(a).Link?
    ensures Core(b).Link? && Core(b).stencil == Core(a).stencil && SameWiring(g, a, b)
    decreases a, b
  {
    if a.Renamed? {
      LinksWiredAlike(g, a.pe, b);
    } else if b.Renamed? {
      LinksWiredAlike(g, a, b.pe);
    }
  }

  /** A graph for both expressions on which their stencils, if there are two, lie over one grid. */
  ghost predicate Usable(g: Graph, a: PathExpr, b: PathExpr)
    requires a.Connective?
  {
    && ValidGraph(g) && Wired(g, a) && Wired(g, b)
    && (Core(a.l).Link? && Core(a.r).Link? && Core(a.l).stencil.Some? && Core(a.r).stencil.Some? ==> OnOneGrid(g, a))
  }

  /** Quantified connectives of two links, of one form: they have the same index on all graphs exactly if their
      operands come in the same order or are both stencils. */
  lemma SharedExactly(g: Graph, a: PathExpr, b: PathExpr)
    requires WiredPair(g, a, b) && SameForm(a, b) && Core(a.l).Link? && Core(a.r).Link?
    ensures (forall h: Graph :: Usable(h, a, b) ==> SameRows(h, a, b)) <==>
            LeftFirst(a) == LeftFirst(b) || (Core(a.l).stencil.Some? && Core(a.r).stencil.Some?)
  {
    hide SameForm, Wired, ValidGraph, Core, SameRows, OnOneGrid, SameWiring, EndSet;
    if LeftFirst(a) == LeftFirst(b) || (Core(a.l).stencil.Some? && Core(a.r).stencil.Some?) {
      forall h: Graph | Usable(h, a, b) ensures SameRows(h, a, b) { LinksShared(h, a, b); }
    } else {
      LinksOpposite(g, a, b);
      var h := OppositeDiffer(g, a, b);
      assert Usable(h, a, b);
    }
  }

  /** Both are quantified connectives and wired on some graph. */
  ghost predicate WiredPair(g: Graph, a: PathExpr, b: PathExpr) {
    ValidGraph(g) && Wired(g, a) && Wired(g, b) && a.Connective? && b.Connective? && a.qvar.Some? && b.qvar.Some?
  }

  lemma LinksShared(g: Graph, a: PathExpr, b: PathExpr)
    requires WiredPair(g, a, b) && Usable(g, a, b) && SameForm(a, b) && Core(a.l).Link? && Core(a.r).Link?
    requires LeftFirst(a) == LeftFirst(b) || (Core(a.l).stencil.Some? && Core(a.r).stencil.Some?)
    ensures SameRows(g, a, b)
  {
    LinksWiredAlike(g, a.l, b.l);
    LinksWiredAlike(g, a.r, b.r);
    SameFormSameRows(g, a, b);
  }

  lemma LinksOpposite(g: Graph, a: PathExpr, b: PathExpr)
    requires WiredPair(g, a, b) && SameForm(a, b) && Core(a.l).Link? && Core(a.r).Link?
    requires LeftFirst(a) != LeftFirst(b) && !(Core(a.l).stencil.Some? && Core(a.r).stencil.Some?)
    ensures Opposite(g, a, b) && NoStencils(a) && NoStencils(b) && EndSet(g, a, 0) != EndSet(g, b, 0)
    ensures Core(a.l).stencil.None? && Core(a.r).stencil.None?
  {
    hide Rows, WiredLink, WiredStencil, VarSets, FirstSet, Endpoint;
    LinksWiredAlike(g, a.l, b.l);
    LinksWiredAlike(g, a.r, b.r);
    LinkEnds(g, a.l);
    LinkEnds(g, a.r);
    LinkEnds(g, b.l);
    LinkEnds(g, b.r);
    SameFormSameRows(g, a.l, b.l);
    SameFormSameRows(g, a.r, b.r);
    OppositeEnds(g, a, b);
    OperandsByOrder(g, a);
    OperandsByOrder(g, b);
  }

  // ---------- Stencils on different grids ----------

  /** A set of four points, also seen as a grid of two by two, with a step along the first axis of each. */
  function TwoGrids(home: SetId, s: StencilId, t: StencilId): (g: Graph)
  {
    Graph([ElementSet(4, [], [[], [], [], []], [4]), ElementSet(0, [], [], [2, 2])], map[home := 0],
          map[s := Stencil(0, [[1]])][t := Stencil(1, [[1, 0]])])
  }

  function StepThenStep(u: Var, q: Var, w: Var, s: StencilId, t: StencilId): (pe: PathExpr)
  {
    Connective(AndOp, u, w, Some(q), Link(VV, u, q, Some(s)), Link(VV, q, w, Some(t)))
  }

  function StepThenStepBackwards(u: Var, q: Var, w: Var, s: StencilId, t: StencilId): (pe: PathExpr)
  {
    Connective(AndOp, u, w, Some(q), Link(VV, q, w, Some(s)), Link(VV, u, q, Some(t)))
  }

  lemma LineOfFour()
    ensures Positive([4]) && Volume([4]) == 4 && Moved([4], 0, [1]) == 1 && Moved([4], 1, [1]) == 2
  {
    assert [4][1..] == [];
    assert Coords([4], 0) == [0] && Coords([4], 1) == [1];
    assert Shifted([4], [0], [1]) == [1] && Shifted([4], [1], [1]) == [2];
    assert Linear([4], [1]) == 1 && Linear([4], [2]) == 2;
  }

  lemma LineOfTwo()
    ensures Volume([2]) == 2 && Positive([2]) && Coords([2], 0) == [0] && Linear([2], [0]) == 0
  {
    assert [2][1..] == [] && [0][1..] == [];
  }

  lemma TwoByTwo()
    ensures Positive([2, 2]) && Volume([2, 2]) == 4 && Moved([2, 2], 0, [1, 0]) == 1 && Moved([2, 2], 1, [1, 0]) == 0
  {
    LineOfTwo();
    assert [2, 2][1..] == [2] && [1, 0][1..] == [0] && [0, 0][1..] == [0];
    assert Coords([2, 2], 0) == [0, 0] && Coords([2, 2], 1) == [1, 0];
    assert Shifted([2, 2], [0, 0], [1, 0]) == [1, 0] && Shifted([2, 2], [1, 0], [1, 0]) == [0, 0];
    assert Linear([2, 2], [1, 0]) == 1 && Linear([2, 2], [0, 0]) == 0;
  }

  lemma TwoGridsWired(u: Var, q: Var, w: Var, s: StencilId, t: StencilId)
    requires u.home == q.home == w.home && u != q && q != w && u != w && s != t
    requires Positive([4]) && Positive([2, 2]) && Volume([4]) == 4 == Volume([2, 2])
    ensures var g, a, b := TwoGrids(u.home, s, t), StepThenStep(u, q, w, s, t), StepThenStepBackwards(u, q, w, s, t);
            && WiredPair(g, a, b) && SameForm(a, b) && EndSet(g, a, 0) == 0 == EndSet(g, a, 1)
            && SourceOperand(a) == a.l && SinkOperand(a) == a.r && SourceOperand(b) == b.r && SinkOperand(b) == b.l
  {
    hide Volume;
    var g, a, b := TwoGrids(u.home, s, t), StepThenStep(u, q, w, s, t), StepThenStepBackwards(u, q, w, s, t);
    assert ValidSet(g, 0) && ValidSet(g, 1);
    assert WiredStencil(g, g.stencils[s], 0) && WiredStencil(g, g.stencils[t], 0);
    assert Wired(g, a.l) && Wired(g, a.r) && Wired(g, b.l) && Wired(g, b.r);
    forall i: nat | i < 2
      ensures EndSet(g, a.l, i) == 0 == EndSet(g, a.r, i) && EndSet(g, b.l, i) == 0 == EndSet(g, b.r, i) {
    }
    assert SourceOperand(a) == a.l && SinkOperand(a) == a.r && SourceOperand(b) == b.r && SinkOperand(b) == b.l;
  }

  /** The only way is by the one offset. */
  lemma OneStep(g: Graph, st: Stencil, v: nat, u: nat)
    requires st.grid < |g.sets| && Positive(g.sets[st.grid].dims)
    requires |st.offsets| == 1 && |st.offsets[0]| == |g.sets[st.grid].dims|
    ensures Reaches(g, st, v, u) <==> u == Moved(g.sets[st.grid].dims, v, st.offsets[0])
  {
  }

  lemma StepsHold(u: Var, q: Var, w: Var, s: StencilId, t: StencilId)
    requires u.home == q.home == w.home && u != q && q != w && u != w && s != t
    ensures var g, a, b := TwoGrids(u.home, s, t), StepThenStep(u, q, w, s, t), StepThenStepBackwards(u, q, w, s, t);
            WiredPair(g, a, b) && Holds(g, a, 0, 0) && !Holds(g, b, 0, 0)
  {
    hide Volume, Moved, VarSets, FirstSet, Both, WiredStencil;
    var g, a, b := TwoGrids(u.home, s, t), StepThenStep(u, q, w, s, t), StepThenStepBackwards(u, q, w, s, t);
    LineOfFour();
    TwoByTwo();
    TwoGridsWired(u, q, w, s, t);
    OneStep(g, g.stencils[s], 0, 1);
    OneStep(g, g.stencils[t], 1, 0);
    QuantifiedParts(g, a, 0, 0);
    assert Element(g, EndSet(g, SourceOperand(a), 1), 1) && Holds(g, a.l, 0, 1) && Holds(g, a.r, 1, 0);
    QuantifiedParts(g, b, 0, 0);
    forall x: nat | Holds(g, b.r, 0, x) ensures !Holds(g, b.l, x, 0) {
      OneStep(g, g.stencils[t], 0, x);
      OneStep(g, g.stencils[s], x, 0);
    }
  }

  lemma NotOneGrid(u: Var, q: Var, w: Var, s: StencilId, t: StencilId)
    requires u.home == q.home == w.home && s != t
    ensures !OnOneGrid(TwoGrids(u.home, s, t), StepThenStep(u, q, w, s, t))
  {
    var g, a := TwoGrids(u.home, s, t), StepThenStep(u, q, w, s, t);
    assert |[4]| != |[2, 2]|;
    forall dims: seq<nat> ensures !OnGrid(g, a, dims) {
      assert OnGrid(g, a.l, dims) ==> dims == [4];
      assert OnGrid(g, a.r, dims) ==> dims == [2, 2];
    }
  }

  /** On different grids of one size the stencils must not be exchanged: from point 0 the two orders end at
      points 0 and 2. */
  lemma DifferentGrids(u: Var, q: Var, w: Var, s: StencilId, t: StencilId)
    requires u.home == q.home == w.home && u != q && q != w && u != w && s != t
    ensures var g, a, b := TwoGrids(u.home, s, t), StepThenStep(u, q, w, s, t), StepThenStepBackwards(u, q, w, s, t);
            WiredPair(g, a, b) && SameForm(a, b) && !OnOneGrid(g, a) && !SameRows(g, a, b)
  {
    var g, a, b := TwoGrids(u.home, s, t), StepThenStep(u, q, w, s, t), StepThenStepBackwards(u, q, w, s, t);
    LineOfFour();
    TwoByTwo();
    TwoGridsWired(u, q, w, s, t);
    hide Volume, Moved, VarSets, FirstSet, Holds, Rows, Wired;
    StepsHold(u, q, w, s, t);
    NotOneGrid(u, q, w, s, t);
    RowsAreTheMeaning(g, a, 0, 0);
    RowsAreTheMeaning(g, b, 0, 0);
  }
}
