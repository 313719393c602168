/** Graphs, what a path expression means over a graph, and the neighbour lists that the index
    builder computes for it.
 */
module GraphMeaning {
  import opened Wrappers
  import opened PathExpressions
  import opened Grids

  /** A set of elements 0..size-1.  An edge set lists the sets its endpoints come from and, for
      every edge, its endpoints; a grid set has dimensions. */
  datatype ElementSet = ElementSet(size: nat, endpointSets: seq<nat>, endpoints: seq<seq<nat>>, dims: seq<nat>)

  /** A stencil over a grid set; the k-th offset is stored at location k of a row. */
  datatype Stencil = Stencil(grid: nat, offsets: seq<seq<int>>)

  /** Element sets in the order of their construction, and what path expressions refer to. */
  datatype Graph = Graph(sets: seq<ElementSet>, binding: map<SetId, nat>, stencils: map<StencilId, Stencil>)

  /** The endpoints of an edge set come from sets constructed before it. */
  ghost predicate ValidGraph(g: Graph) {
    && (forall s :: s in g.binding ==> g.binding[s] < |g.sets|)
    && forall k :: 0 <= k < |g.sets| ==> ValidSet(g, k)
  }

  ghost predicate ValidSet(g: Graph, k: nat)
    requires k < |g.sets|
  {
    var es := g.sets[k];
    && |es.endpoints| == es.size
    && (forall e :: 0 <= e < es.size ==> |es.endpoints[e]| == |es.endpointSets|)
    && (forall i :: 0 <= i < |es.endpointSets| ==> es.endpointSets[i] < k)
    && forall e, i {:trigger es.endpoints[e][i]} :: 0 <= e < es.size && 0 <= i < |es.endpointSets| ==>
         es.endpoints[e][i] < g.sets[es.endpointSets[i]].size
  }

  function Bound(g: Graph, s: SetId): (k: nat)
  {
    if s in g.binding then g.binding[s] else |g.sets|
  }

  function SizeOf(g: Graph, k: nat): (n: nat)
  {
    if k < |g.sets| then g.sets[k].size else 0
  }

  ghost predicate Element(g: Graph, k: nat, x: nat) {
    x < SizeOf(g, k)
  }

  // ---------- Wiring ----------

  /** The operand that mentions the first free variable, and the other one. */
  function SourceOperand(pe: PathExpr): (e: PathExpr)
    requires pe.Connective?
    ensures e < pe
  {
    if Endpoint(pe.l, 0) == pe.f0 || Endpoint(pe.l, 1) == pe.f0 then pe.l else pe.r
  }

  function SinkOperand(pe: PathExpr): (e: PathExpr)
    requires pe.Connective?
    ensures e < pe
  {
    if Endpoint(pe.l, 0) == pe.f1 || Endpoint(pe.l, 1) == pe.f1 then pe.l else pe.r
  }

  /** The element set an endpoint ranges over. */
  function EndSet(g: Graph, pe: PathExpr, i: nat): (k: nat)
    requires i < 2
    decreases pe
  {
    match pe
    case Link(_, x, y, _) => Bound(g, if i == 0 then x.home else y.home)
    case Connective(_, _, _, None, l, _) => EndSet(g, l, i)
    case Connective(_, _, _, Some(_), _, _) =>
      if i == 0 then EndSet(g, SourceOperand(pe), 0) else EndSet(g, SinkOperand(pe), 1)
    case Renamed(e, _, _) => EndSet(g, e, i)
  }

  /** The variables of an expression with their sets, in the order in which they are visited and
      under the renamings in force. */
  function VarSets(pe: PathExpr, renames: map<Var, Var>): (bs: seq<(Var, SetId)>)
  {
    match pe
    case Link(_, x, y, _) => [(Rename(renames, x), x.home), (Rename(renames, y), y.home)]
    case Connective(_, _, _, _, l, r) => VarSets(l, renames) + VarSets(r, renames)
    case Renamed(e, v0, v1) =>
      // the first of two equal keys wins
      VarSets(e, renames + map[Endpoint(e, 1) := Rename(renames, v1)] + map[Endpoint(e, 0) := Rename(renames, v0)])
  }

  function Rename(renames: map<Var, Var>, v: Var): (w: Var)
  {
    if v in renames then renames[v] else v
  }

  /** getSet: the first set recorded for a variable. */
  function FirstSet(bs: seq<(Var, SetId)>, v: Var): (s: Option<SetId>)
  {
    if bs == [] then None else if bs[0].0 == v then Some(bs[0].1) else FirstSet(bs[1..], v)
  }

  ghost predicate WiredLink(g: Graph, edge: nat, vertex: nat) {
    edge < |g.sets| && vertex < |g.sets| && vertex in g.sets[edge].endpointSets
  }

  ghost predicate WiredStencil(g: Graph, st: Stencil, k: nat) {
    && st.grid < |g.sets| && k < |g.sets|
    && var dims := g.sets[st.grid].dims;
       && Positive(dims) && Volume(dims) == g.sets[k].size
       && forall j :: 0 <= j < |st.offsets| ==> |st.offsets[j]| == |dims|
  }

  /** Expressions as the builder expects them: links between an edge set and the set of one of its
      endpoints, or stencils on one grid; connectives over two different free variables, whose
      operands lead from the first to the second, through the quantified variable if there is
      one. */
  ghost predicate Wired(g: Graph, pe: PathExpr)
    decreases pe
  {
    match pe
    case Link(kind, x, y, s) =>
      && x != y
      && (match kind
          case EV => s.None? && WiredLink(g, Bound(g, x.home), Bound(g, y.home))
          case VE => s.None? && WiredLink(g, Bound(g, y.home), Bound(g, x.home))
          case VV => s.Some? && s.value in g.stencils && Bound(g, x.home) == Bound(g, y.home) &&
                     WiredStencil(g, g.stencils[s.value], Bound(g, x.home)))
    case Connective(op, f0, f1, qvar, l, r) =>
      && Wired(g, l) && Wired(g, r) && f0 != f1
      && (match qvar
          case None =>
            && Endpoint(l, 0) == Endpoint(r, 0) == f0 && Endpoint(l, 1) == Endpoint(r, 1) == f1
            && EndSet(g, l, 0) == EndSet(g, r, 0) && EndSet(g, l, 1) == EndSet(g, r, 1)
          case Some(q) =>
            && q != f0 && q != f1
            && ((Endpoint(l, 0) == f0 && Endpoint(l, 1) == q && Endpoint(r, 0) == q && Endpoint(r, 1) == f1) ||
                (Endpoint(r, 0) == f0 && Endpoint(r, 1) == q && Endpoint(l, 0) == q && Endpoint(l, 1) == f1))
            && EndSet(g, SourceOperand(pe), 1) == EndSet(g, SinkOperand(pe), 0)
            && (op == OrOp ==>
                  var s := FirstSet(VarSets(pe, map[]), f1);
                  s.Some? && Bound(g, s.value) == EndSet(g, SinkOperand(pe), 1)))
    case Renamed(e, v0, v1) => Wired(g, e) && v0 != v1
  }

  lemma {:induction false} WiredEnds(g: Graph, pe: PathExpr)
    requires ValidGraph(g) && Wired(g, pe)
    ensures EndSet(g, pe, 0) < |g.sets| && EndSet(g, pe, 1) < |g.sets|
    ensures Endpoint(pe, 0) != Endpoint(pe, 1)
    decreases pe
  {
    match pe
    case Link(_, _, _, _) =>
    case Connective(_, _, _, _, l, r) => WiredEnds(g, l); WiredEnds(g, r);
    case Renamed(e, _, _) => WiredEnds(g, e);
  }

  // ---------- Meaning ----------

  /** v is an endpoint of the edge e from the given vertex set. */
  ghost predicate Incident(es: ElementSet, vertexSet: nat, e: nat, v: nat) {
    && e < |es.endpoints|
    && exists i :: (0 <= i < |es.endpointSets| && i < |es.endpoints[e]| &&
                    es.endpointSets[i] == vertexSet && es.endpoints[e][i] == v)
  }

  /** u is the point reached from v by one of the stencil's offsets on the periodic grid. */
  ghost predicate Reaches(g: Graph, st: Stencil, v: nat, u: nat)
    requires st.grid < |g.sets| && Positive(g.sets[st.grid].dims)
    requires forall j :: 0 <= j < |st.offsets| ==> |st.offsets[j]| == |g.sets[st.grid].dims|
  {
    var dims := g.sets[st.grid].dims;
    exists j :: 0 <= j < |st.offsets| && u == Linear(dims, Shifted(dims, Coords(dims, v), st.offsets[j]))
  }

  /** The value of a variable: a and b for the free variables, x for the quantified one. */
  function ValueOf(pe: PathExpr, a: nat, b: nat, x: nat, v: Var): (r: nat)
    requires pe.Connective?
  {
    if v == pe.f0 then a else if v == pe.f1 then b else x
  }

  /** The formula holds of (a, b). */
  ghost predicate Holds(g: Graph, pe: PathExpr, a: nat, b: nat)
    requires ValidGraph(g) && Wired(g, pe)
    decreases pe, 1
  {
    match pe
    case Link(EV, x, y, _) => Incident(g.sets[Bound(g, x.home)], Bound(g, y.home), a, b)
    case Link(VE, x, y, _) => Incident(g.sets[Bound(g, y.home)], Bound(g, x.home), b, a)
    case Link(VV, _, _, s) => Reaches(g, g.stencils[s.value], a, b)
    case Connective(_, _, _, None, _, _) => Both(g, pe, a, b, 0)
    case Connective(_, _, _, Some(_), _, _) =>
      exists x: nat :: Element(g, EndSet(g, SourceOperand(pe), 1), x) && Both(g, pe, a, b, x)
    case Renamed(e, _, _) => Holds(g, e, a, b)
  }

  /** The connective without its quantifier, under an assignment of the variables. */
  ghost predicate Both(g: Graph, pe: PathExpr, a: nat, b: nat, x: nat)
    requires ValidGraph(g) && pe.Connective? && Wired(g, pe)
    decreases pe, 0
  {
    var l := Holds(g, pe.l, ValueOf(pe, a, b, x, Endpoint(pe.l, 0)), ValueOf(pe, a, b, x, Endpoint(pe.l, 1)));
    var r := Holds(g, pe.r, ValueOf(pe, a, b, x, Endpoint(pe.r, 0)), ValueOf(pe, a, b, x, Endpoint(pe.r, 1)));
    if pe.op == AndOp then l && r else l || r
  }

  // ---------- Neighbour lists ----------

  /** The members of s below n in ascending order. */
  function Ascending(s: set<nat>, n: nat): (r: seq<nat>)
    ensures forall x: nat :: x in r <==> x in s && x < n
    ensures forall i, j :: 0 <= i < j < |r| ==> r[i] < r[j]
  {
    if n == 0 then [] else
      var front := Ascending(s, n - 1);
      assert forall i :: 0 <= i < |front| ==> front[i] in front;
      if n - 1 in s then front + [n - 1] else front
  }

  function SetOf(xs: seq<nat>): (s: set<nat>)
    ensures forall x :: x in s <==> x in xs
  {
    set x | x in xs
  }

  /** The endpoints of edge e among its first n that come from the vertex set, in order. */
  function EvRow(es: ElementSet, vertexSet: nat, e: nat, n: nat): (row: seq<nat>)
    requires e < |es.endpoints| && n <= |es.endpointSets| && |es.endpoints[e]| == |es.endpointSets|
    ensures |row| == Matches(es, vertexSet, n)
  {
    if n == 0 then [] else
      EvRow(es, vertexSet, e, n - 1) + (if es.endpointSets[n - 1] == vertexSet then [es.endpoints[e][n - 1]] else [])
  }

  /** How many of the first n endpoints come from the vertex set. */
  function Matches(es: ElementSet, vertexSet: nat, n: nat): (c: nat)
    requires n <= |es.endpointSets|
  {
    if n == 0 then 0 else Matches(es, vertexSet, n - 1) + (if es.endpointSets[n - 1] == vertexSet then 1 else 0)
  }

  /** Edge e once for every one of its first n endpoints that is v. */
  function VeHits(es: ElementSet, vertexSet: nat, v: nat, e: nat, n: nat): (row: seq<nat>)
    requires e < |es.endpoints| && n <= |es.endpointSets| && |es.endpoints[e]| == |es.endpointSets|
    ensures forall x :: x in row ==> x == e
  {
    if n == 0 then [] else
      VeHits(es, vertexSet, v, e, n - 1) +
      (if es.endpointSets[n - 1] == vertexSet && es.endpoints[e][n - 1] == v then [e] else [])
  }

  /** The edges below n with v among their endpoints, ascending. */
  function VeRow(es: ElementSet, vertexSet: nat, v: nat, n: nat): (row: seq<nat>)
    requires n <= |es.endpoints| && forall e :: 0 <= e < |es.endpoints| ==> |es.endpoints[e]| == |es.endpointSets|
    ensures forall x :: x in row ==> x < n
    ensures forall i, j :: 0 <= i < j < |row| ==> row[i] <= row[j]
  {
    if n == 0 then [] else
      var front, hits := VeRow(es, vertexSet, v, n - 1), VeHits(es, vertexSet, v, n - 1, |es.endpointSets|);
      assert forall i :: 0 <= i < |front| ==> front[i] in front;
      assert forall i :: 0 <= i < |hits| ==> hits[i] in hits;
      front + hits
  }

  /** The points reached from v, in the order of their locations. */
  function VvRow(dims: seq<nat>, offsets: seq<seq<int>>, v: nat): (row: seq<nat>)
    requires Positive(dims) && forall j :: 0 <= j < |offsets| ==> |offsets[j]| == |dims|
    ensures |row| == |offsets| && forall j :: 0 <= j < |row| ==> row[j] < Volume(dims)
  {
    seq(|offsets|, j requires 0 <= j < |offsets| => PointAt(dims, Shifted(dims, Coords(dims, v), offsets[j])))
  }

  function PointAt(dims: seq<nat>, c: seq<int>): (k: nat)
    requires InGrid(dims, c)
    ensures k == Linear(dims, c) < Volume(dims)
  {
    LinearInRange(dims, c);
    Linear(dims, c)
  }

  /** Everything reached through the rows of the members of qs. */
  function Through(qs: seq<nat>, rows: seq<seq<nat>>): (s: set<nat>)
    requires forall q :: q in qs ==> q < |rows|
    ensures forall x :: x in s <==> exists q :: q in qs && x in rows[q]
  {
    if qs == [] then {} else
      assert qs[0] in qs;
      assert forall q :: q in qs <==> q == qs[0] || q in qs[1..];
      SetOf(rows[qs[0]]) + Through(qs[1..], rows)
  }

  function Below(n: nat): (s: set<nat>)
    ensures forall x: nat :: x in s <==> x < n
  {
    if n == 0 then {} else Below(n - 1) + {n - 1}
  }

  function Indices(n: nat): (s: seq<nat>)
    ensures |s| == n && forall i :: 0 <= i < n ==> s[i] == i
    ensures forall x: nat :: x in s <==> x < n
  {
    if n == 0 then [] else Indices(n - 1) + [n - 1]
  }

  /** Row v of a connective, as a set. */
  function RowSet(op: Op, quantified: bool, first: seq<seq<nat>>, second: seq<seq<nat>>, sinks: nat,
                  v: nat): (s: set<nat>)
    requires v < |first| && (!quantified ==> v < |second|)
    requires quantified ==> forall q :: q in first[v] ==> q < |second|
  {
    match (op, quantified)
    case (AndOp, false) => SetOf(first[v]) * SetOf(second[v])
    case (OrOp, false) => SetOf(first[v]) + SetOf(second[v])
    case (AndOp, true) => Through(first[v], second)
    case (OrOp, true) => (if first[v] != [] then Below(sinks) else {}) + Through(Indices(|second|), second)
  }

  /** The rows of an ev link: the endpoints of every edge that come from the vertex set. */
  ghost function EvRows(es: ElementSet, vertexSet: nat): (rows: seq<seq<nat>>)
    requires |es.endpoints| == es.size && forall e :: 0 <= e < es.size ==> |es.endpoints[e]| == |es.endpointSets|
    ensures |rows| == es.size
  {
    seq(es.size, e requires 0 <= e < es.size => EvRow(es, vertexSet, e, |es.endpointSets|))
  }

  /** The rows of a ve link: the edges of every vertex. */
  ghost function VeRows(es: ElementSet, vertexSet: nat, vertices: nat): (rows: seq<seq<nat>>)
    requires |es.endpoints| == es.size && forall e :: 0 <= e < es.size ==> |es.endpoints[e]| == |es.endpointSets|
    ensures |rows| == vertices
  {
    seq(vertices, v requires 0 <= v => VeRow(es, vertexSet, v, es.size))
  }

  /** The rows of a vv link: the points that the stencil reaches. */
  ghost function VvRows(dims: seq<nat>, offsets: seq<seq<int>>, points: nat): (rows: seq<seq<nat>>)
    requires Positive(dims) && forall j :: 0 <= j < |offsets| ==> |offsets[j]| == |dims|
    ensures |rows| == points
  {
    seq(points, v requires 0 <= v => VvRow(dims, offsets, v))
  }

  /** The rows of a connective. */
  ghost function JoinedRows(op: Op, quantified: bool, first: seq<seq<nat>>, second: seq<seq<nat>>,
                            sinks: nat): (rows: seq<seq<nat>>)
    requires !quantified ==> |second| == |first|
    requires quantified ==> forall v, q :: 0 <= v < |first| && q in first[v] ==> q < |second|
    ensures |rows| == |first|
    ensures forall v :: 0 <= v < |rows| ==> rows[v] == Ascending(RowSet(op, quantified, first, second, sinks, v), sinks)
    ensures forall v, u :: 0 <= v < |rows| && u in rows[v] ==> u < sinks
  {
    seq(|first|, v requires 0 <= v < |first| => Ascending(RowSet(op, quantified, first, second, sinks, v), sinks))
  }

  /** The neighbour lists built for an expression. */
  ghost function Rows(g: Graph, pe: PathExpr): (rows: seq<seq<nat>>)
    requires ValidGraph(g) && Wired(g, pe)
    ensures EndSet(g, pe, 0) < |g.sets| && EndSet(g, pe, 1) < |g.sets|
    ensures |rows| == g.sets[EndSet(g, pe, 0)].size
    ensures forall v, u :: 0 <= v < |rows| && u in rows[v] ==> u < g.sets[EndSet(g, pe, 1)].size
    decreases pe
  {
    WiredEnds(g, pe);
    match pe
    case Link(EV, x, y, _) =>
      assert ValidSet(g, Bound(g, x.home));
      EvRowsInRange(g, Bound(g, x.home), Bound(g, y.home));
      EvRows(g.sets[Bound(g, x.home)], Bound(g, y.home))
    case Link(VE, x, y, _) =>
      assert ValidSet(g, Bound(g, y.home));
      VeRows(g.sets[Bound(g, y.home)], Bound(g, x.home), g.sets[Bound(g, x.home)].size)
    case Link(VV, x, _, s) =>
      var st := g.stencils[s.value];
      VvRows(g.sets[st.grid].dims, st.offsets, g.sets[Bound(g, x.home)].size)
    case Connective(op, _, _, None, l, r) =>
      JoinedRows(op, false, Rows(g, l), Rows(g, r), g.sets[EndSet(g, pe, 1)].size)
    case Connective(op, _, _, Some(_), _, _) =>
      JoinedRows(op, true, Rows(g, SourceOperand(pe)), Rows(g, SinkOperand(pe)), g.sets[EndSet(g, pe, 1)].size)
    case Renamed(e, _, _) => Rows(g, e)
  }

  lemma {:induction false} EvRowIn(es: ElementSet, vertexSet: nat, e: nat, n: nat, u: nat)
    requires e < |es.endpoints| && n <= |es.endpointSets| && |es.endpoints[e]| == |es.endpointSets|
    ensures u in EvRow(es, vertexSet, e, n) <==>
            exists i :: 0 <= i < n && es.endpointSets[i] == vertexSet && es.endpoints[e][i] == u
  {
    if n > 0 { EvRowIn(es, vertexSet, e, n - 1, u); }
  }

  lemma EvRowsInRange(g: Graph, k: nat, vertexSet: nat)
    requires k < |g.sets| && vertexSet < |g.sets| && ValidSet(g, k)
    ensures var es := g.sets[k];
            forall e, u :: 0 <= e < es.size && u in EvRows(es, vertexSet)[e] ==> u < g.sets[vertexSet].size
  {
    var es := g.sets[k];
    forall e, u | 0 <= e < es.size && u in EvRows(es, vertexSet)[e] ensures u < g.sets[vertexSet].size {
      EvRowIn(es, vertexSet, e, |es.endpointSets|, u);
    }
  }

  lemma {:induction false} VeHitsIn(es: ElementSet, vertexSet: nat, v: nat, e: nat, n: nat)
    requires e < |es.endpoints| && n <= |es.endpointSets| && |es.endpoints[e]| == |es.endpointSets|
    ensures e in VeHits(es, vertexSet, v, e, n) <==>
            exists i :: 0 <= i < n && es.endpointSets[i] == vertexSet && es.endpoints[e][i] == v
  {
    if n > 0 { VeHitsIn(es, vertexSet, v, e, n - 1); }
  }

  lemma HitIsIncident(es: ElementSet, vertexSet: nat, v: nat, e: nat)
    requires e < |es.endpoints| && |es.endpoints[e]| == |es.endpointSets|
    ensures e in VeHits(es, vertexSet, v, e, |es.endpointSets|) <==> Incident(es, vertexSet, e, v)
  {
    hide VeHits;
    VeHitsIn(es, vertexSet, v, e, |es.endpointSets|);
  }

  lemma {:induction false} VeRowIn(es: ElementSet, vertexSet: nat, v: nat, n: nat, e: nat)
    requires n <= |es.endpoints| && forall e :: 0 <= e < |es.endpoints| ==> |es.endpoints[e]| == |es.endpointSets|
    ensures e in VeRow(es, vertexSet, v, n) <==> e < n && Incident(es, vertexSet, e, v)
  {
    hide VeHits, Incident;
    if n > 0 {
      VeRowIn(es, vertexSet, v, n - 1, e);
      HitIsIncident(es, vertexSet, v, n - 1);
      assert VeRow(es, vertexSet, v, n) ==
             VeRow(es, vertexSet, v, n - 1) + VeHits(es, vertexSet, v, n - 1, |es.endpointSets|);
    }
  }

  /** The built rows are the relation the formula denotes. */
  lemma {:induction false} RowsAreTheMeaning(g: Graph, pe: PathExpr, a: nat, b: nat)
    requires ValidGraph(g) && Wired(g, pe) && a < SizeOf(g, EndSet(g, pe, 0))
    ensures b in Rows(g, pe)[a] <==> b < SizeOf(g, EndSet(g, pe, 1)) && Holds(g, pe, a, b)
    decreases pe
  {
    WiredEnds(g, pe);
    match pe
    case Link(EV, x, y, _) =>
      var es := g.sets[Bound(g, x.home)];
      assert ValidSet(g, Bound(g, x.home));
      EvRowIn(es, Bound(g, y.home), a, |es.endpointSets|, b);
    case Link(VE, x, y, _) =>
      var es := g.sets[Bound(g, y.home)];
      assert ValidSet(g, Bound(g, y.home));
      VeRowIn(es, Bound(g, x.home), a, es.size, b);
    case Link(VV, _, _, s) =>
      StencilMeaning(g, pe, a, b);
    case Connective(_, _, _, None, l, r) =>
      RowsAreTheMeaning(g, l, a, b);
      RowsAreTheMeaning(g, r, a, b);
    case Connective(_, _, _, Some(_), _, _) =>
      QuantifiedMeaning(g, pe, a, b);
    case Renamed(e, _, _) =>
      RowsAreTheMeaning(g, e, a, b);
  }

  lemma StencilMeaning(g: Graph, pe: PathExpr, a: nat, b: nat)
    requires ValidGraph(g) && Wired(g, pe) && pe.Link? && pe.kind == VV && a < SizeOf(g, EndSet(g, pe, 0))
    ensures b in Rows(g, pe)[a] <==> b < SizeOf(g, EndSet(g, pe, 1)) && Holds(g, pe, a, b)
  {
    var st := g.stencils[pe.stencil.value];
    var dims := g.sets[st.grid].dims;
    var row := VvRow(dims, st.offsets, a);
    assert Rows(g, pe)[a] == row;
    if Reaches(g, st, a, b) {
      var j :| 0 <= j < |st.offsets| && b == Linear(dims, Shifted(dims, Coords(dims, a), st.offsets[j]));
      assert row[j] == b;
    }
  }

  lemma {:induction false} QuantifiedMeaning(g: Graph, pe: PathExpr, a: nat, b: nat)
    requires ValidGraph(g) && Wired(g, pe) && pe.Connective? && pe.qvar.Some? && a < SizeOf(g, EndSet(g, pe, 0))
    ensures b in Rows(g, pe)[a] <==> b < SizeOf(g, EndSet(g, pe, 1)) && Holds(g, pe, a, b)
    decreases pe, 0
  {
    hide Both, RowSet, Ascending;
    WiredEnds(g, pe);
    var src, snk := SourceOperand(pe), SinkOperand(pe);
    WiredEnds(g, src);
    WiredEnds(g, snk);
    var first, second := Rows(g, src), Rows(g, snk);
    var mids, sinks := SizeOf(g, EndSet(g, src, 1)), SizeOf(g, EndSet(g, pe, 1));
    forall x: nat
      ensures x in first[a] <==> x < mids && Holds(g, src, a, x)
      ensures x < mids ==> (b in second[x] <==> b < sinks && Holds(g, snk, x, b))
    {
      RowsAreTheMeaning(g, src, a, x);
      if x < mids { RowsAreTheMeaning(g, snk, x, b); }
    }
    QuantifiedParts(g, pe, a, b);
    if b < sinks { QuantifiedRow(g, EndSet(g, src, 1), pe.op, first, second, sinks, a, b); }
  }

  lemma BothByWiring(g: Graph, pe: PathExpr, a: nat, b: nat, x: nat)
    requires ValidGraph(g) && Wired(g, pe) && pe.Connective? && pe.qvar.Some?
    ensures Both(g, pe, a, b, x) ==
            if pe.op == AndOp then Holds(g, SourceOperand(pe), a, x) && Holds(g, SinkOperand(pe), x, b)
            else Holds(g, SourceOperand(pe), a, x) || Holds(g, SinkOperand(pe), x, b)
  {
    hide Holds;
  }

  lemma HoldsThrough(g: Graph, pe: PathExpr, a: nat, b: nat)
    requires ValidGraph(g) && Wired(g, pe) && pe.Connective? && pe.qvar.Some?
    ensures Holds(g, pe, a, b) <==>
            exists x: nat :: Element(g, EndSet(g, SourceOperand(pe), 1), x) && Both(g, pe, a, b, x)
  {
    hide Both, Element;
    var mid := EndSet(g, SourceOperand(pe), 1);
    if Holds(g, pe, a, b) {
      assert exists x: nat :: Element(g, mid, x) && Both(g, pe, a, b, x);
    }
    if exists x: nat :: Element(g, mid, x) && Both(g, pe, a, b, x) { assert Holds(g, pe, a, b); }
  }

  lemma QuantifiedParts(g: Graph, pe: PathExpr, a: nat, b: nat)
    requires ValidGraph(g) && Wired(g, pe) && pe.Connective? && pe.qvar.Some?
    ensures Holds(g, pe, a, b) <==>
            exists x: nat :: Element(g, EndSet(g, SourceOperand(pe), 1), x) &&
                             (if pe.op == AndOp then Holds(g, SourceOperand(pe), a, x) &&
                               Holds(g, SinkOperand(pe), x, b)
                              else Holds(g, SourceOperand(pe), a, x) || Holds(g, SinkOperand(pe), x, b))
  {
    hide Holds, Both, Element;
    HoldsThrough(g, pe, a, b);
    forall x: nat | Element(g, EndSet(g, SourceOperand(pe), 1), x)
      ensures Both(g, pe, a, b, x) ==
              if pe.op == AndOp then Holds(g, SourceOperand(pe), a, x) && Holds(g, SinkOperand(pe), x, b)
              else Holds(g, SourceOperand(pe), a, x) || Holds(g, SinkOperand(pe), x, b) {
      BothByWiring(g, pe, a, b, x);
    }
  }

  /** Membership in a row of a quantified connective. */
  lemma QuantifiedRow(g: Graph, k: nat, op: Op, first: seq<seq<nat>>, second: seq<seq<nat>>, sinks: nat, a: nat, b: nat)
    requires a < |first| && b < sinks && SizeOf(g, k) == |second|
    requires forall v, q :: 0 <= v < |first| && q in first[v] ==> q < |second|
    ensures b in Ascending(RowSet(op, true, first, second, sinks, a), sinks) <==>
            exists x: nat :: Element(g, k, x) &&
                             (if op == AndOp then x in first[a] && b in second[x] else x in first[a] || b in second[x])
  {
    if op == OrOp && first[a] != [] { assert first[a][0] in first[a]; }
    forall x: nat | x < |second| ensures Element(g, k, x) {}
  }
}
