/** When expressions that share a key of the memo table have the same index. */
module MemoTable {
  import opened Wrappers
  import opened PathExpressions
  import opened Grids
  import opened GraphMeaning
  import opened GridPaths

  /** The left operand of a quantified connective starts at the first free variable. */
  predicate LeftFirst(pe: PathExpr)
    requires pe.Connective?
  {
    Endpoint(pe.l, 0) == pe.f0 || Endpoint(pe.l, 1) == pe.f0
  }

  /** All links are stencils on one grid. */
  ghost predicate OnOneGrid(g: Graph, pe: PathExpr) {
    exists dims: seq<nat> :: OnGrid(g, pe, dims)
  }

  /** Quantified connectives in the same place have their operands in the same order, or operands that can be
      exchanged. */
  ghost predicate SameWiring(g: Graph, a: PathExpr, b: PathExpr)
    decreases a, b
  {
    match (a, b)
    case (Renamed(x, _, _), _) => SameWiring(g, x, b)
    case (_, Renamed(y, _, _)) => SameWiring(g, a, y)
    case (Connective(_, _, _, p, l, r), Connective(_, _, _, q, l', r')) =>
      && (p.Some? && q.Some? ==> LeftFirst(a) == LeftFirst(b) || OnOneGrid(g, a))
      && SameWiring(g, l, l') && SameWiring(g, r, r')
    case _ => true
  }

  /** Every quantified connective leads from its left operand to its right one. */
  ghost predicate Forward(pe: PathExpr)
  {
    match pe
    case Link(_, _, _, _) => true
    case Connective(_, _, _, q, l, r) => (q.Some? ==> LeftFirst(pe)) && Forward(l) && Forward(r)
    case Renamed(e, _, _) => Forward(e)
  }

  lemma {:induction false} ForwardSameWiring(g: Graph, a: PathExpr, b: PathExpr)
    requires Forward(a) && Forward(b)
    ensures SameWiring(g, a, b)
    decreases a, b
  {
    if a.Renamed? {
      ForwardSameWiring(g, a.pe, b);
    } else if b.Renamed? {
      ForwardSameWiring(g, a, b.pe);
    } else if a.Connective? && b.Connective? {
      ForwardSameWiring(g, a.l, b.l);
      ForwardSameWiring(g, a.r, b.r);
    }
  }

  /** Expressions of the same form, wired alike, have the same rows: names and link types do not
      matter. */
  lemma {:induction false} SameFormSameRows(g: Graph, a: PathExpr, b: PathExpr)
    requires ValidGraph(g) && Wired(g, a) && Wired(g, b) && SameForm(a, b) && SameWiring(g, a, b)
    ensures EndSet(g, a, 0) == EndSet(g, b, 0) && EndSet(g, a, 1) == EndSet(g, b, 1)
    ensures Rows(g, a) == Rows(g, b)
    decreases a, b
  {
    hide Rows, EndSet, JoinedRows, VarSets, OnOneGrid;
    if a.Renamed? {
      RowsOfRenamed(g, a);
      SameFormSameRows(g, a.pe, b);
    } else if b.Renamed? {
      RowsOfRenamed(g, b);
      SameFormSameRows(g, a, b.pe);
    } else if a.Connective? {
      SameConnective(g, a, b);
      SameFormSameRows(g, a.l, b.l);
      SameFormSameRows(g, a.r, b.r);
      JoinSameRows(g, a, b);
    } else {
      SameLinks(g, a, b);
    }
  }

  lemma RowsOfRenamed(g: Graph, pe: PathExpr)
    requires ValidGraph(g) && Wired(g, pe) && pe.Renamed?
    ensures Wired(g, pe.pe) && Rows(g, pe) == Rows(g, pe.pe)
    ensures EndSet(g, pe, 0) == EndSet(g, pe.pe, 0) && EndSet(g, pe, 1) == EndSet(g, pe.pe, 1)
  {
  }

  lemma SameLinks(g: Graph, a: PathExpr, b: PathExpr)
    requires ValidGraph(g) && Wired(g, a) && Wired(g, b) && SameForm(a, b) && a.Link? && b.Link?
    ensures EndSet(g, a, 0) == EndSet(g, b, 0) && EndSet(g, a, 1) == EndSet(g, b, 1)
    ensures Rows(g, a) == Rows(g, b)
  {
    assert ValidSet(g, Bound(g, a.lhs.home)) && ValidSet(g, Bound(g, a.rhs.home)) by { WiredEnds(g, a); }
  }

  /** Two connectives whose operands have the same ends and rows. */
  ghost predicate SameOperands(g: Graph, a: PathExpr, b: PathExpr)
    requires ValidGraph(g) && a.Connective? && b.Connective?
  {
    && Wired(g, a.l) && Wired(g, b.l) && Wired(g, a.r) && Wired(g, b.r)
    && (forall i :: 0 <= i < 2 ==> EndSet(g, a.l, i) == EndSet(g, b.l, i) && EndSet(g, a.r, i) == EndSet(g, b.r, i))
    && Rows(g, a.l) == Rows(g, b.l) && Rows(g, a.r) == Rows(g, b.r)
  }

  lemma JoinSameRows(g: Graph, a: PathExpr, b: PathExpr)
    requires ValidGraph(g) && Wired(g, a) && Wired(g, b) && SameForm(a, b) && SameWiring(g, a, b)
    requires a.Connective? && b.Connective? && SameOperands(g, a, b)
    ensures EndSet(g, a, 0) == EndSet(g, b, 0) && EndSet(g, a, 1) == EndSet(g, b, 1)
    ensures Rows(g, a) == Rows(g, b)
  {
    hide Rows, JoinedRows, Wired, SameForm, SameWiring, VarSets, OnOneGrid;
    SameConnective(g, a, b);
    if a.qvar.Some? {
      RowsOfQuantified(g, a);
      RowsOfQuantified(g, b);
      OperandsByOrder(g, a);
      OperandsByOrder(g, b);
      if LeftFirst(a) != LeftFirst(b) { JoinOnGrid(g, a, b); }
    } else {
      RowsOfJoin(g, a);
      RowsOfJoin(g, b);
    }
  }

  /** On one grid the operands can be exchanged. */
  lemma JoinOnGrid(g: Graph, a: PathExpr, b: PathExpr)
    requires ValidGraph(g) && Wired(g, a) && Wired(g, b) && a.Connective? && b.Connective? && a.op == b.op
    requires a.qvar.Some? && b.qvar.Some? && LeftFirst(a) != LeftFirst(b) && OnOneGrid(g, a) && SameOperands(g, a, b)
    ensures EndSet(g, a, 0) == EndSet(g, b, 0) && EndSet(g, a, 1) == EndSet(g, b, 1)
    ensures Rows(g, a) == Rows(g, b)
  {
    hide Rows, JoinedRows, Wired, VarSets, Invariant, Volume;
    OppositeEnds(g, a, b);
    var dims: seq<nat> :| OnGrid(g, a, dims);
    OnGridRows(g, a, dims);
    OnGridRows(g, a.l, dims);
    OnGridRows(g, a.r, dims);
    RowsOfQuantified(g, a);
    RowsOfQuantified(g, b);
    OnGridEnds(g, SourceOperand(a), dims);
    OperandsByOrder(g, a);
    OperandsByOrder(g, b);
    SizesOf(dims, Rows(g, a.l));
    SizesOf(dims, Rows(g, a.r));
    EitherOrder(dims, a.op, Rows(g, a.l), Rows(g, a.r));
  }

  /** Quantified connectives over the same operands, wired oppositely: each relates a set to itself, and that set
      is the one the other's quantified variable ranges over. */
  lemma OppositeEnds(g: Graph, a: PathExpr, b: PathExpr)
    requires ValidGraph(g) && Wired(g, a) && Wired(g, b) && a.Connective? && b.Connective?
    requires a.qvar.Some? && b.qvar.Some? && LeftFirst(a) != LeftFirst(b)
    requires forall i :: 0 <= i < 2 ==> EndSet(g, a.l, i) == EndSet(g, b.l, i) && EndSet(g, a.r, i) == EndSet(g, b.r, i)
    ensures EndSet(g, a, 0) == EndSet(g, a, 1) == EndSet(g, SourceOperand(b), 1)
    ensures EndSet(g, b, 0) == EndSet(g, b, 1) == EndSet(g, SourceOperand(a), 1)
  {
    hide VarSets, FirstSet;
    OperandsByOrder(g, a);
    OperandsByOrder(g, b);
  }

  /** All sets in an expression on one grid are the same. */
  lemma {:induction false} OnGridEnds(g: Graph, pe: PathExpr, dims: seq<nat>)
    requires ValidGraph(g) && Wired(g, pe) && OnGrid(g, pe, dims)
    ensures EndSet(g, pe, 0) == EndSet(g, pe, 1)
    decreases pe
  {
    match pe
    case Link(_, _, _, _) =>
    case Connective(_, _, _, _, l, r) =>
      OnGridEnds(g, l, dims);
      OnGridEnds(g, r, dims);
      if pe.qvar.Some? { OperandsByOrder(g, pe); }
    case Renamed(e, _, _) => OnGridEnds(g, e, dims);
  }

  lemma SameConnective(g: Graph, a: PathExpr, b: PathExpr)
    requires a.Connective? && b.Connective? && SameForm(a, b) && SameWiring(g, a, b)
    ensures a.op == b.op && a.qvar.Some? == b.qvar.Some?
    ensures a.qvar.Some? ==> LeftFirst(a) == LeftFirst(b) || OnOneGrid(g, a)
    ensures SameForm(a.l, b.l) && SameForm(a.r, b.r) && SameWiring(g, a.l, b.l) && SameWiring(g, a.r, b.r)
  {
  }

  lemma RowsOfJoin(g: Graph, pe: PathExpr)
    requires ValidGraph(g) && pe.Connective? && Wired(g, pe) && pe.qvar.None?
    ensures EndSet(g, pe, 0) == EndSet(g, pe.l, 0) && EndSet(g, pe, 1) == EndSet(g, pe.l, 1)
    ensures Wired(g, pe.l) && Wired(g, pe.r) && |Rows(g, pe.l)| == |Rows(g, pe.r)|
    ensures Rows(g, pe) == JoinedRows(pe.op, false, Rows(g, pe.l), Rows(g, pe.r), SizeOf(g, EndSet(g, pe, 1)))
  {
    hide JoinedRows;
    WiredEnds(g, pe);
  }

  lemma RowsOfQuantified(g: Graph, pe: PathExpr)
    requires ValidGraph(g) && pe.Connective? && Wired(g, pe) && pe.qvar.Some?
    ensures Wired(g, SourceOperand(pe)) && Wired(g, SinkOperand(pe))
    ensures EndSet(g, pe, 0) == EndSet(g, SourceOperand(pe), 0) && EndSet(g, pe, 1) == EndSet(g, SinkOperand(pe), 1)
    ensures var first, second := Rows(g, SourceOperand(pe)), Rows(g, SinkOperand(pe));
            && (forall v, q :: 0 <= v < |first| && q in first[v] ==> q < |second|)
            && Rows(g, pe) == JoinedRows(pe.op, true, first, second, SizeOf(g, EndSet(g, pe, 1)))
  {
    hide JoinedRows;
    WiredEnds(g, pe);
  }

  lemma OperandsByOrder(g: Graph, pe: PathExpr)
    requires pe.Connective? && Wired(g, pe) && pe.qvar.Some?
    ensures SourceOperand(pe) == (if LeftFirst(pe) then pe.l else pe.r)
    ensures SinkOperand(pe) == (if LeftFirst(pe) then pe.r else pe.l)
  {
  }

  ghost predicate SameRows(g: Graph, a: PathExpr, b: PathExpr) {
    ValidGraph(g) && Wired(g, a) && Wired(g, b) && Rows(g, a) == Rows(g, b)
  }

  /** Every form stands for one relation. */
  ghost predicate Unambiguous(g: Graph, es: set<PathExpr>) {
    forall a, b :: a in es && b in es && SameForm(a, b) ==> SameRows(g, a, b)
  }

  /** No two expressions of one form are wired differently. */
  ghost predicate WiredAlike(g: Graph, es: set<PathExpr>) {
    forall a, b :: a in es && b in es && SameForm(a, b) ==> SameWiring(g, a, b)
  }

  lemma WiredAlikeUnambiguous(g: Graph, es: set<PathExpr>)
    requires ValidGraph(g) && (forall e :: e in es ==> Wired(g, e)) && WiredAlike(g, es)
    ensures Unambiguous(g, es)
  {
    forall a, b | a in es && b in es && SameForm(a, b) ensures SameRows(g, a, b) {
      SameFormSameRows(g, a, b);
    }
  }

  lemma ForwardUnambiguous(g: Graph, es: set<PathExpr>)
    requires ValidGraph(g) && forall e :: e in es ==> Wired(g, e) && Forward(e)
    ensures Unambiguous(g, es)
  {
    forall a, b | a in es && b in es && SameForm(a, b) ensures SameWiring(g, a, b) {
      ForwardSameWiring(g, a, b);
    }
    WiredAlikeUnambiguous(g, es);
  }

  // ---------- Opposite wiring ----------

  /** Vertices joined by an edge. */
  function VerticesByEdge(u: Var, e: Var, w: Var): (pe: PathExpr)
  {
    Connective(AndOp, u, w, Some(e), Link(VE, u, e, None), Link(EV, e, w, None))
  }

  /** Without the condition on the wiring the memo table confuses indices.  Any two expressions of one form whose
      outermost quantified connectives are wired oppositely share a key.  Each relates a set to itself, through
      the set of the other, so on every graph on which these differ in size the indices differ. */
  lemma OppositeWiring(g: Graph, a: PathExpr, b: PathExpr)
    requires ValidGraph(g) && Wired(g, a) && Wired(g, b) && SameForm(a, b) && a.Connective? && b.Connective?
    requires SameWiring(g, a.l, b.l) && SameWiring(g, a.r, b.r)
    requires a.qvar.Some? && b.qvar.Some? && LeftFirst(a) != LeftFirst(b)
    ensures SameKey(a, b)
    ensures EndSet(g, a, 0) == EndSet(g, a, 1) == EndSet(g, SourceOperand(b), 1)
    ensures EndSet(g, b, 0) == EndSet(g, b, 1) == EndSet(g, SourceOperand(a), 1)
    ensures SizeOf(g, EndSet(g, a, 0)) != SizeOf(g, EndSet(g, b, 0)) ==> Rows(g, a) != Rows(g, b)
  {
    hide Rows, EndSet, SourceOperand, SameForm, SameWiring, Wired, SameKey, LeftFirst;
    SameFormSameKey(a, b);
    SameFormOperands(a, b);
    WiredOperands(g, a);
    WiredOperands(g, b);
    SameFormSameRows(g, a.l, b.l);
    SameFormSameRows(g, a.r, b.r);
    OppositeEnds(g, a, b);
    assert |Rows(g, a)| == SizeOf(g, EndSet(g, a, 0)) && |Rows(g, b)| == SizeOf(g, EndSet(g, b, 0));
  }

  lemma SameFormOperands(a: PathExpr, b: PathExpr)
    requires SameForm(a, b) && a.Connective? && b.Connective?
    ensures SameForm(a.l, b.l) && SameForm(a.r, b.r)
  {
  }

  lemma WiredOperands(g: Graph, pe: PathExpr)
    requires Wired(g, pe) && pe.Connective?
    ensures Wired(g, pe.l) && Wired(g, pe.r)
  {
  }

  lemma SameFormSameKey(a: PathExpr, b: PathExpr)
    requires SameForm(a, b)
    ensures SameKey(a, b)
  {
    hide SameKey, Less, Eq, SameForm;
    EqIsSameForm(a, b);
    SameFormBack(a, b);
    EqIsSameForm(b, a);
    EqMeansLessDefined(a, b);
    EqMeansLessDefined(b, a);
    SameKeyIsSameForm(a, b);
  }

  lemma {:induction false} SameFormBack(a: PathExpr, b: PathExpr)
    requires SameForm(a, b)
    ensures SameForm(b, a)
    decreases a, b
  {
    SeesThroughRenaming(a, b);
    SeesThroughRenaming(b, a);
    if a.Renamed? {
      SameFormBack(a.pe, b);
      SeesThroughRenaming(b, a.pe);
    } else if b.Renamed? {
      SameFormBack(a, b.pe);
    } else if a.Connective? {
      SameFormBack(a.l, b.l);
      SameFormBack(a.r, b.r);
    }
  }

  /** The expressions that cannot be compared are wired as the builder expects. */
  lemma IncomparableKeysAreWired(g: Graph, v: Var, w: Var, q: Var, s: StencilId)
    requires ValidGraph(g) && Wired(g, Link(VV, v, w, Some(s))) && q != v && q != w
    ensures var a := Link(VV, v, w, Some(s));
            var both := Connective(AndOp, v, w, None, a, a);
            var path := Connective(AndOp, v, w, Some(q), Renamed(a, v, q), Renamed(a, q, w));
            Wired(g, Connective(OrOp, v, w, None, both, a)) && Wired(g, Connective(OrOp, v, w, None, path, a))
  {
    var a := Link(VV, v, w, Some(s));
    var path := Connective(AndOp, v, w, Some(q), Renamed(a, v, q), Renamed(a, q, w));
    assert SourceOperand(path) == path.l && SinkOperand(path) == path.r;
    assert EndSet(g, path, 0) == EndSet(g, path.l, 0) == EndSet(g, a, 0);
    assert EndSet(g, path, 1) == EndSet(g, path.r, 1) == EndSet(g, a, 1);
  }
}
