/** The builder that evaluates path expressions over a graph, and its memo table. */
module PathIndexBuilding {
  import opened Wrappers
  import opened PathExpressions
  import opened Grids
  import opened GraphMeaning
  import opened PathIndices
  import opened MemoTable

  // ---------- Maps from 0..n-1 ----------

  type Neighborhoods = map<nat, set<nat>>

  /** The map takes v to the v-th value, and nothing else anywhere. */
  ghost predicate Holding<T>(m: map<nat, T>, values: seq<T>) {
    && |m| == |values|
    && (forall v: nat :: v in m <==> v < |values|)
    && forall v: nat :: v < |values| ==> m[v] == values[v]
  }

  lemma HoldingNothing<T>()
    ensures Holding<T>(map[], [])
  {
  }

  lemma HoldingMore<T>(m: map<nat, T>, values: seq<T>, v: nat, x: T)
    requires Holding(m, values) && v == |values|
    ensures Holding(m[v := x], values + [x])
  {
  }

  lemma HoldingOther<T>(m: map<nat, T>, values: seq<T>, v: nat, x: T)
    requires Holding(m, values) && v < |values|
    ensures Holding(m[v := x], values[v := x])
  {
  }

  lemma HoldingAt<T>(m: map<nat, T>, values: seq<T>, v: nat)
    requires Holding(m, values) && v < |values|
    ensures v in m && m[v] == values[v]
  {
  }

  lemma HoldingKeys<T>(m: map<nat, T>, values: seq<T>)
    requires Holding(m, values)
    ensures m.Keys == Below(|m|) && |m| == |values|
  {
    hide Below;
  }

  lemma TakeNext<T>(s: seq<T>, i: nat)
    requires i < |s|
    ensures s[..i + 1] == s[..i] + [s[i]]
  {
  }

  lemma TakeEnds<T>(s: seq<T>)
    ensures s[..0] == [] && s[..|s|] == s
  {
  }

  lemma Advance<T>(done: seq<T>, todo: seq<T>, i: nat)
    requires i < |done| == |todo|
    ensures (done[..i] + todo[i..])[i := done[i]] == done[..i + 1] + todo[i + 1..]
    ensures |done[..i] + todo[i..]| == |done| && (done[..i] + todo[i..])[i] == todo[i]
  {
  }

  lemma AdvanceEnds<T>(done: seq<T>, todo: seq<T>)
    requires |done| == |todo|
    ensures done[..0] + todo[0..] == todo && done[..|done|] + todo[|done|..] == done
  {
  }

  // ---------- Neighbour sets of connectives ----------

  ghost function SetsOf(rows: seq<seq<nat>>): (sets: seq<set<nat>>)
    ensures |sets| == |rows|
  {
    seq(|rows|, v requires 0 <= v < |rows| => SetOf(rows[v]))
  }

  ghost function JoinedSets(op: Op, quantified: bool, first: seq<seq<nat>>, second: seq<seq<nat>>,
                            sinks: nat): (sets: seq<set<nat>>)
    requires !quantified ==> |second| == |first|
    requires quantified ==> forall v, q :: 0 <= v < |first| && q in first[v] ==> q < |second|
    ensures |sets| == |first|
  {
    seq(|first|, v requires 0 <= v < |first| => RowSet(op, quantified, first, second, sinks, v))
  }

  lemma IndexRow(index: PathIndex, rows: seq<seq<nat>>, v: nat)
    requires index == Packed(rows) && v < |rows|
    ensures v + 1 < |index.coords| && index.coords[v] <= index.coords[v + 1] <= |index.sinks|
    ensures Neighbors(index, v) == rows[v]
  {
    PackedRow(rows, v);
  }

  lemma IndexSize(index: PathIndex, rows: seq<seq<nat>>)
    requires index == Packed(rows)
    ensures |index.coords| >= 1 && NumElements(index) == |rows|
  {
    PackedIsValid(rows);
  }

  lemma SetOfNext(s: seq<nat>, i: nat)
    requires i < |s|
    ensures SetOf(s[..i + 1]) == SetOf(s[..i]) + {s[i]}
  {
    assert s[..i + 1] == s[..i] + [s[i]];
  }

  lemma SetOfEnds(s: seq<nat>)
    ensures SetOf(s[..0]) == {} && s[..|s|] == s
  {
  }

  /** `insert(nbr)` for every neighbour. */
  method InsertAll(s: set<nat>, nbrs: seq<nat>) returns (r: set<nat>)
    ensures r == s + SetOf(nbrs)
  {
    hide SetOf;
    SetOfEnds(nbrs);
    r := s;
    for i := 0 to |nbrs|
      invariant r == s + SetOf(nbrs[..i])
    {
      SetOfNext(nbrs, i);
      r := r + {nbrs[i]};
    }
  }

  /** The neighbours that are in s. */
  method InsertCommon(s: set<nat>, nbrs: seq<nat>) returns (r: set<nat>)
    ensures r == s * SetOf(nbrs)
  {
    hide SetOf;
    SetOfEnds(nbrs);
    r := {};
    for i := 0 to |nbrs|
      invariant r == s * SetOf(nbrs[..i])
    {
      SetOfNext(nbrs, i);
      if nbrs[i] in s {
        r := r + {nbrs[i]};
      }
    }
  }

  /** The neighbour sets of an index. */
  method ToSets(index: PathIndex, ghost rows: seq<seq<nat>>) returns (m: Neighborhoods)
    requires index == Packed(rows)
    ensures Holding(m, SetsOf(rows))
  {
    hide Packed, Neighbors, NumElements, SetOf, Holding;
    IndexSize(index, rows);
    HoldingNothing<set<nat>>();
    TakeEnds(SetsOf(rows));
    m := map[];
    for elem := 0 to NumElements(index)
      invariant Holding(m, SetsOf(rows)[..elem])
    {
      IndexRow(index, rows, elem);
      var nbrs := InsertAll({}, Neighbors(index, elem));
      assert nbrs == SetsOf(rows)[elem];
      HoldingMore(m, SetsOf(rows)[..elem], elem, nbrs);
      TakeNext(SetsOf(rows), elem);
      m := m[elem := nbrs];
    }
  }

  /** The neighbours common to both indices. */
  method Intersect(lhs: PathIndex, rhs: PathIndex, ghost first: seq<seq<nat>>, ghost second: seq<seq<nat>>,
                   ghost sinks: nat)
      returns (m: Neighborhoods)
    requires lhs == Packed(first) && rhs == Packed(second) && |first| == |second|
    ensures Holding(m, JoinedSets(AndOp, false, first, second, sinks))
  {
    hide Packed, Neighbors, NumElements, SetOf, Holding;
    var lhsSets := ToSets(lhs, first);
    IndexSize(rhs, second);
    HoldingNothing<set<nat>>();
    ghost var goal := JoinedSets(AndOp, false, first, second, sinks);
    TakeEnds(goal);
    m := map[];
    for elem := 0 to NumElements(rhs)
      invariant Holding(m, goal[..elem])
    {
      IndexRow(rhs, second, elem);
      HoldingAt(lhsSets, SetsOf(first), elem);
      var common := InsertCommon(lhsSets[elem], Neighbors(rhs, elem));
      assert common == goal[elem];
      HoldingMore(m, goal[..elem], elem, common);
      TakeNext(goal, elem);
      m := m[elem := common];
    }
  }

  /** The neighbours in either index. */
  method Unite(lhs: PathIndex, rhs: PathIndex, ghost first: seq<seq<nat>>, ghost second: seq<seq<nat>>,
               ghost sinks: nat)
      returns (m: Neighborhoods)
    requires lhs == Packed(first) && rhs == Packed(second) && |first| == |second|
    ensures Holding(m, JoinedSets(OrOp, false, first, second, sinks))
  {
    hide Packed, Neighbors, NumElements, SetOf, Holding;
    m := ToSets(lhs, first);
    IndexSize(rhs, second);
    ghost var done, todo := JoinedSets(OrOp, false, first, second, sinks), SetsOf(first);
    AdvanceEnds(done, todo);
    for elem := 0 to NumElements(rhs)
      invariant Holding(m, done[..elem] + todo[elem..])
    {
      IndexRow(rhs, second, elem);
      Advance(done, todo, elem);
      HoldingAt(m, done[..elem] + todo[elem..], elem);
      var nbrs := InsertAll(m[elem], Neighbors(rhs, elem));
      assert nbrs == done[elem];
      HoldingOther(m, done[..elem] + todo[elem..], elem, nbrs);
      m := m[elem := nbrs];
    }
  }

  /** Everything reached through one row. */
  method InsertThrough(qs: seq<nat>, toSink: PathIndex, ghost second: seq<seq<nat>>) returns (r: set<nat>)
    requires toSink == Packed(second) && forall q :: q in qs ==> q < |second|
    ensures r == Through(qs, second)
  {
    hide Packed, Neighbors, SetOf, Through;
    ThroughNone(second);
    r := {};
    assert qs[..0] == [];
    for i := 0 to |qs|
      invariant forall q :: q in qs[..i] ==> q < |second|
      invariant r == Through(qs[..i], second)
    {
      assert qs[i] in qs;
      IndexRow(toSink, second, qs[i]);
      ThroughNext(qs[..i], qs[i], second);
      TakeNext(qs, i);
      r := InsertAll(r, Neighbors(toSink, qs[i]));
    }
    assert qs[..|qs|] == qs;
  }

  lemma {:induction false} ThroughNext(qs: seq<nat>, q: nat, rows: seq<seq<nat>>)
    requires q < |rows| && forall q :: q in qs ==> q < |rows|
    ensures forall p :: p in qs + [q] ==> p < |rows|
    ensures Through(qs + [q], rows) == Through(qs, rows) + SetOf(rows[q])
  {
    assert forall p :: p in qs + [q] <==> p in qs || p == q;
  }

  lemma ThroughNone(rows: seq<seq<nat>>)
    ensures Through([], rows) == {}
  {
  }

  /** The neighbours of the neighbours. */
  method Compose(toQuantified: PathIndex, toSink: PathIndex, ghost first: seq<seq<nat>>, ghost second: seq<seq<nat>>,
                 ghost sinks: nat)
      returns (m: Neighborhoods)
    requires toQuantified == Packed(first) && toSink == Packed(second)
    requires forall v, q :: 0 <= v < |first| && q in first[v] ==> q < |second|
    ensures Holding(m, JoinedSets(AndOp, true, first, second, sinks))
  {
    hide Packed, Neighbors, NumElements, Through, Holding;
    IndexSize(toQuantified, first);
    ghost var goal := JoinedSets(AndOp, true, first, second, sinks);
    HoldingNothing<set<nat>>();
    TakeEnds(goal);
    m := map[];
    for source := 0 to NumElements(toQuantified)
      invariant Holding(m, goal[..source])
    {
      IndexRow(toQuantified, first, source);
      var nbrs := InsertThrough(Neighbors(toQuantified, source), toSink, second);
      assert nbrs == goal[source];
      HoldingMore(m, goal[..source], source, nbrs);
      TakeNext(goal, source);
      m := m[source := nbrs];
    }
  }

  /** The same elements added to every set. */
  ghost function Plus(sets: seq<set<nat>>, s: set<nat>): (r: seq<set<nat>>)
    ensures |r| == |sets|
  {
    seq(|sets|, v requires 0 <= v < |sets| => sets[v] + s)
  }

  lemma PlusPlus(sets: seq<set<nat>>, s: set<nat>, t: set<nat>)
    ensures Plus(Plus(sets, s), t) == Plus(sets, s + t) && Plus(sets, {}) == sets
  {
    forall v | 0 <= v < |sets| ensures sets[v] + s + t == sets[v] + (s + t) && sets[v] + {} == sets[v] {}
  }

  /** One sink for every source. */
  method InsertEverywhere(m: Neighborhoods, sources: nat, sink: nat, ghost sets: seq<set<nat>>)
      returns (r: Neighborhoods)
    requires Holding(m, sets) && sources == |sets|
    ensures Holding(r, Plus(sets, {sink}))
  {
    hide Holding;
    r := m;
    ghost var done := Plus(sets, {sink});
    AdvanceEnds(done, sets);
    for source := 0 to sources
      invariant Holding(r, done[..source] + sets[source..])
    {
      Advance(done, sets, source);
      HoldingAt(r, done[..source] + sets[source..], source);
      HoldingOther(r, done[..source] + sets[source..], source, r[source] + {sink});
      r := r[source := r[source] + {sink}];
    }
  }

  /** All the sinks of a row for every source. */
  method InsertRowEverywhere(m: Neighborhoods, sources: nat, row: seq<nat>, ghost sets: seq<set<nat>>)
      returns (r: Neighborhoods)
    requires Holding(m, sets) && sources == |sets|
    ensures Holding(r, Plus(sets, SetOf(row)))
  {
    hide SetOf, Holding, Plus;
    SetOfEnds(row);
    r := m;
    PlusPlus(sets, {}, {});
    for i := 0 to |row|
      invariant Holding(r, Plus(sets, SetOf(row[..i])))
    {
      SetOfNext(row, i);
      PlusPlus(sets, SetOf(row[..i]), {row[i]});
      r := InsertEverywhere(r, sources, row[i], Plus(sets, SetOf(row[..i])));
    }
  }

  ghost function SinkSets(first: seq<seq<nat>>, sinks: nat): (sets: seq<set<nat>>)
    ensures |sets| == |first|
  {
    seq(|first|, v requires 0 <= v < |first| => if first[v] != [] then Below(sinks) else {})
  }

  /** Every sink for the sources that reach some quantified element. */
  method InsertAllSinks(toQuantified: PathIndex, sinks: nat, ghost first: seq<seq<nat>>) returns (m: Neighborhoods)
    requires toQuantified == Packed(first)
    ensures Holding(m, SinkSets(first, sinks))
  {
    hide Packed, Neighbors, NumElements, Below, Indices, SetOf, Holding;
    IndexSize(toQuantified, first);
    ghost var goal := SinkSets(first, sinks);
    HoldingNothing<set<nat>>();
    TakeEnds(goal);
    m := map[];
    for source := 0 to NumElements(toQuantified)
      invariant Holding(m, goal[..source])
    {
      IndexRow(toQuantified, first, source);
      var nbrs: set<nat> := {};
      if |Neighbors(toQuantified, source)| > 0 {
        BelowIndices(sinks);
        nbrs := InsertAll(nbrs, Indices(sinks));
      }
      assert nbrs == goal[source];
      HoldingMore(m, goal[..source], source, nbrs);
      TakeNext(goal, source);
      m := m[source := nbrs];
    }
  }

  lemma BelowIndices(n: nat)
    ensures SetOf(Indices(n)) == Below(n)
  {
    hide Below, Indices;
  }

  lemma IndicesNext(q: nat)
    ensures Indices(0) == [] && Indices(q + 1) == Indices(q) + [q]
  {
  }

  /** Everything for sources that reach some quantified element, and the sinks reached from any
      quantified element for all sources. */
  method ReachEither(toQuantified: PathIndex, toSink: PathIndex, sinks: nat,
                     ghost first: seq<seq<nat>>, ghost second: seq<seq<nat>>) returns (m: Neighborhoods)
    requires toQuantified == Packed(first) && toSink == Packed(second)
    requires forall v, q :: 0 <= v < |first| && q in first[v] ==> q < |second|
    ensures Holding(m, JoinedSets(OrOp, true, first, second, sinks))
  {
    hide Packed, Neighbors, NumElements, Through, Below, Indices, SetOf, Holding, Plus, SinkSets;
    m := InsertAllSinks(toQuantified, sinks, first);
    IndexSize(toQuantified, first);
    IndexSize(toSink, second);
    ghost var all := SinkSets(first, sinks);
    IndicesNext(0);
    ThroughNone(second);
    PlusPlus(all, {}, {});
    for q := 0 to NumElements(toSink)
      invariant Holding(m, Plus(all, Through(Indices(q), second)))
    {
      IndexRow(toSink, second, q);
      ThroughNext(Indices(q), q, second);
      IndicesNext(q);
      PlusPlus(all, Through(Indices(q), second), SetOf(second[q]));
      m := InsertRowEverywhere(m, NumElements(toQuantified), Neighbors(toSink, q),
        Plus(all, Through(Indices(q), second)));
    }
    EitherSets(first, second, sinks);
  }

  lemma EitherSets(first: seq<seq<nat>>, second: seq<seq<nat>>, sinks: nat)
    requires forall v, q :: 0 <= v < |first| && q in first[v] ==> q < |second|
    ensures Plus(SinkSets(first, sinks), Through(Indices(|second|), second)) ==
            JoinedSets(OrOp, true, first, second, sinks)
  {
    hide Through, Below, Indices;
  }

  ghost function SortedSets(sets: seq<set<nat>>, n: nat): (rows: seq<seq<nat>>)
    ensures |rows| == |sets|
  {
    seq(|sets|, v requires 0 <= v < |sets| => Ascending(sets[v], n))
  }

  /** The sets as vectors, packed. */
  method PackSets(m: Neighborhoods, n: nat, ghost sets: seq<set<nat>>) returns (pi: PathIndex)
    requires Holding(m, sets)
    ensures pi == Packed(SortedSets(sets, n))
  {
    hide Packed, Ascending, Holding, RowsOf;
    HoldingNothing<seq<nat>>();
    ghost var rows := SortedSets(sets, n);
    TakeEnds(rows);
    HoldingKeys(m, sets);
    var vectors: map<nat, seq<nat>> := map[];
    for v := 0 to |m|
      invariant Holding(vectors, rows[..v])
    {
      HoldingAt(m, sets, v);
      HoldingMore(vectors, rows[..v], v, Ascending(m[v], n));
      TakeNext(rows, v);
      vectors := vectors[v := Ascending(m[v], n)];
    }
    HoldingKeys(vectors, rows);
    pi := Pack(vectors, true);
    SortedVectors(vectors, n, sets);
  }

  lemma SortedVectors(vectors: map<nat, seq<nat>>, n: nat, sets: seq<set<nat>>)
    requires Holding(vectors, SortedSets(sets, n)) && vectors.Keys == Below(|vectors|)
    ensures RowsOf(vectors, true) == SortedSets(sets, n)
  {
    hide Below, Sort, Ascending;
    forall v: nat | v < |sets| ensures Sort(vectors[v]) == Ascending(sets[v], n) {
      SortAscending(vectors[v]);
    }
  }

  lemma SortedJoin(op: Op, quantified: bool, first: seq<seq<nat>>, second: seq<seq<nat>>, sinks: nat)
    requires !quantified ==> |second| == |first|
    requires quantified ==> forall v, q :: 0 <= v < |first| && q in first[v] ==> q < |second|
    ensures SortedSets(JoinedSets(op, quantified, first, second, sinks), sinks) ==
            JoinedRows(op, quantified, first, second, sinks)
  {
    hide Ascending, RowSet;
  }

  // ---------- The builder ----------

  /** An entry of the memo table: key and index. */
  datatype Entry = Entry(pe: PathExpr, sourceEndpoint: nat, index: PathIndex)

  /** The stencil of a vv link reaches back over at most one period. */
  ghost predicate Near(g: Graph, pe: PathExpr) {
    pe.Link? && pe.kind == VV && pe.stencil.Some? && pe.stencil.value in g.stencils ==>
      var st := g.stencils[pe.stencil.value];
      st.grid < |g.sets| ==> WithinOnePeriod(g.sets[st.grid].dims, st.offsets)
  }

  /** A family of expressions, closed under parts, that one builder can be used for. */
  ghost predicate Admissible(g: Graph, family: set<PathExpr>) {
    && ValidGraph(g) && Comparable(family) && Unambiguous(g, family)
    && forall e :: e in family ==> Parts(e) <= family && Wired(g, e) && Near(g, e)
  }

  lemma PartIn(g: Graph, family: set<PathExpr>, pe: PathExpr, part: PathExpr)
    requires Admissible(g, family) && pe in family && part in Parts(pe)
    ensures part in family && Wired(g, part)
  {
  }

  /** What an index must be. */
  ghost predicate Correct(g: Graph, pe: PathExpr, pi: PathIndex) {
    ValidGraph(g) && Wired(g, pe) && pi == Packed(Rows(g, pe))
  }

  /** Expressions of one form share their entries.  An entry made for one of them is right for another exactly if
      they have the same rows. */
  lemma SharedEntry(g: Graph, a: PathExpr, b: PathExpr, pi: PathIndex)
    requires ValidGraph(g) && Wired(g, a) && Wired(g, b) && SameForm(a, b) && Correct(g, a, pi)
    ensures SameKey(a, b) && (Correct(g, b, pi) <==> SameRows(g, a, b))
  {
    hide SameKey, SameForm, Rows, Wired, ValidGraph;
    SameFormSameKey(a, b);
    if Packed(Rows(g, a)) == Packed(Rows(g, b)) { PackedOnce(Rows(g, a), Rows(g, b)); }
  }

  lemma PackedOnce(some: seq<seq<nat>>, other: seq<seq<nat>>)
    requires Packed(some) == Packed(other)
    ensures some == other
  {
    hide Packed, Neighbors;
    IndexSize(Packed(some), some);
    IndexSize(Packed(other), other);
    forall v | 0 <= v < |some| ensures some[v] == other[v] {
      PackedRow(some, v);
      PackedRow(other, v);
    }
  }

  /** So in an admissible family no entry is wrong for a key that it answers. */
  lemma SameKeySameIndex(g: Graph, family: set<PathExpr>, a: PathExpr, b: PathExpr, pi: PathIndex)
    requires Admissible(g, family) && a in family && b in family && SameKey(a, b) && Correct(g, a, pi)
    ensures Correct(g, b, pi)
  {
    SameKeyIsSameForm(a, b);
    SharedEntry(g, a, b, pi);
  }

  /** The cases of links. */
  method BuildLink(g: Graph, pe: PathExpr) returns (pi: PathIndex)
    requires ValidGraph(g) && Wired(g, pe) && pe.Link? && Near(g, pe)
    ensures Correct(g, pe, pi)
  {
    hide Packed, EvRows, VeRows, VvRows;
    ghost var x, y := Bound(g, pe.lhs.home), Bound(g, pe.rhs.home);
    assert ValidSet(g, x) && ValidSet(g, y);
    match pe.kind
    case EV => pi := BuildEv(g.sets[Bound(g, pe.lhs.home)], Bound(g, pe.rhs.home));
    case VE => pi := BuildVe(g.sets[Bound(g, pe.rhs.home)], Bound(g, pe.lhs.home), g.sets[Bound(g, pe.lhs.home)].size);
    case VV =>
      var stencil := g.stencils[pe.stencil.value];
      pi := BuildVv(g.sets[stencil.grid].dims, stencil.offsets, g.sets[Bound(g, pe.lhs.home)].size);
  }

  /** The cases of connectives without quantifier. */
  method Combine(g: Graph, pe: PathExpr, lhsIndex: PathIndex, rhsIndex: PathIndex) returns (pi: PathIndex)
    requires ValidGraph(g) && pe.Connective? && Wired(g, pe) && pe.qvar.None?
    requires Correct(g, pe.l, lhsIndex) && Correct(g, pe.r, rhsIndex)
    ensures Correct(g, pe, pi)
  {
    hide Packed, Holding, JoinedSets, JoinedRows, SortedSets;
    ghost var first, second := Rows(g, pe.l), Rows(g, pe.r);
    WiredEnds(g, pe);
    var sinks := SizeOf(g, EndSet(g, pe, 1));
    var pathNeighbors;
    match pe.op {
      case AndOp => pathNeighbors := Intersect(lhsIndex, rhsIndex, first, second, sinks);
      case OrOp => pathNeighbors := Unite(lhsIndex, rhsIndex, first, second, sinks);
    }
    pi := PackSets(pathNeighbors, sinks, JoinedSets(pe.op, false, first, second, sinks));
    SortedJoin(pe.op, false, first, second, sinks);
  }

  /** The cases of quantified connectives. */
  method CombineQuantified(g: Graph, pe: PathExpr, toQuantified: PathIndex, toSink: PathIndex) returns (pi: PathIndex)
    requires ValidGraph(g) && pe.Connective? && Wired(g, pe) && pe.qvar.Some?
    requires Correct(g, SourceOperand(pe), toQuantified) && Correct(g, SinkOperand(pe), toSink)
    ensures Correct(g, pe, pi)
  {
    hide Packed, Holding, JoinedSets, JoinedRows, SortedSets;
    ghost var first, second := Rows(g, SourceOperand(pe)), Rows(g, SinkOperand(pe));
    WiredEnds(g, pe);
    var sinks := SizeOf(g, EndSet(g, pe, 1));
    var pathNeighbors;
    match pe.op {
      case AndOp => pathNeighbors := Compose(toQuantified, toSink, first, second, sinks);
      case OrOp =>
        var sinkSet := FirstSet(VarSets(pe, map[]), pe.f1);
        pathNeighbors := ReachEither(toQuantified, toSink, SizeOf(g, Bound(g, sinkSet.value)), first, second);
    }
    pi := PackSets(pathNeighbors, sinks, JoinedSets(pe.op, true, first, second, sinks));
    SortedJoin(pe.op, true, first, second, sinks);
  }

  /** The first place where a variable is an endpoint of one of two operands. */
  function Locate(l: PathExpr, r: PathExpr, v: Var): (location: (PathExpr, nat))
  {
    if Endpoint(l, 0) == v then (l, 0)
    else if Endpoint(l, 1) == v then (l, 1)
    else if Endpoint(r, 0) == v then (r, 0)
    else (r, 1)
  }

  class PathIndexBuilder {
    const g: Graph
    ghost const family: set<PathExpr>
    var pathIndices: seq<Entry>

    ghost predicate Valid()
      reads this
    {
      && Admissible(g, family)
      && forall i :: 0 <= i < |pathIndices| ==>
        pathIndices[i].pe in family && Correct(g, pathIndices[i].pe, pathIndices[i].index)
    }

    constructor (g: Graph, ghost family: set<PathExpr>)
      requires Admissible(g, family)
      ensures Valid() && this.g == g && this.family == family && pathIndices == []
    {
      this.g := g;
      this.family := family;
      pathIndices := [];
    }

    /** Looks a key up in the memo table. */
    method Find(pe: PathExpr, sourceEndpoint: nat) returns (hit: Option<PathIndex>)
      requires Valid() && pe in family
      ensures hit.Some? ==> Correct(g, pe, hit.value)
      ensures hit.None? ==> forall i :: 0 <= i < |pathIndices| ==>
                !(SameKey(pathIndices[i].pe, pe) && pathIndices[i].sourceEndpoint == sourceEndpoint)
    {
      hide SameKey, Correct, Admissible;
      for i := 0 to |pathIndices|
        invariant forall j :: 0 <= j < i ==>
                    !(SameKey(pathIndices[j].pe, pe) && pathIndices[j].sourceEndpoint == sourceEndpoint)
      {
        var entry := pathIndices[i];
        if SameKey(entry.pe, pe) && entry.sourceEndpoint == sourceEndpoint {
          SameKeySameIndex(g, family, entry.pe, pe, entry.index);
          return Some(entry.index);
        }
      }
      hit := None;
    }

    /** buildSegmented: whatever was built before, the result is the index of the expression. */
    method BuildSegmented(pe: PathExpr, sourceEndpoint: nat) returns (pi: PathIndex)
      requires Valid() && pe in family
      modifies this
      ensures Valid() && Correct(g, pe, pi)
      ensures old(pathIndices) <= pathIndices
      decreases pe, 1
    {
      hide Correct, Admissible;
      var hit := Find(pe, sourceEndpoint);
      if hit.Some? {
        return hit.value;
      }
      pi := Visit(pe);
      hit := Find(pe, sourceEndpoint);
      if hit.None? {
        pathIndices := pathIndices + [Entry(pe, sourceEndpoint, pi)];
      }
    }

    /** The cases of the visitor. */
    method Visit(pe: PathExpr) returns (pi: PathIndex)
      requires Valid() && pe in family
      modifies this
      ensures Valid() && Correct(g, pe, pi)
      ensures old(pathIndices) <= pathIndices
      decreases pe, 0
    {
      hide Packed;
      match pe
      case Link(_, _, _, _) =>
        pi := BuildLink(g, pe);
      case Connective(_, f0, f1, None, l, r) =>
        PartIn(g, family, pe, l);
        PartIn(g, family, pe, r);
        var lhsIndex := BuildSegmented(l, if Endpoint(l, 0) == f0 then 0 else 1);
        var rhsIndex := BuildSegmented(r, if Endpoint(r, 0) == f0 then 0 else 1);
        pi := Combine(g, pe, lhsIndex, rhsIndex);
      case Connective(_, f0, f1, Some(_), l, r) =>
        var (source, sourceEnd) := Locate(l, r, f0);
        var (sink, sinkEnd) := Locate(l, r, f1);
        assert source == SourceOperand(pe) && sink == SinkOperand(pe);
        PartIn(g, family, pe, source);
        PartIn(g, family, pe, sink);
        var toQuantified := BuildSegmented(source, sourceEnd);
        var toSink := BuildSegmented(sink, if sinkEnd == 0 then 1 else 0);
        pi := CombineQuantified(g, pe, toQuantified, toSink);
      case Renamed(e, _, _) =>
        PartIn(g, family, pe, e);
        pi := Visit(e);
    }

    /** Any sequence of calls returns what building every expression afresh would return. */
    method BuildAll(requests: seq<(PathExpr, nat)>) returns (results: seq<PathIndex>)
      requires Valid() && forall i :: 0 <= i < |requests| ==> requests[i].0 in family
      modifies this
      ensures Valid() && |results| == |requests|
      ensures forall i :: 0 <= i < |requests| ==> Correct(g, requests[i].0, results[i])
    {
      hide Correct, Admissible;
      results := [];
      for k := 0 to |requests|
        invariant Valid() && |results| == k
        invariant forall i :: 0 <= i < k ==> Correct(g, requests[i].0, results[i])
      {
        var pi := BuildSegmented(requests[k].0, requests[k].1);
        results := results + [pi];
      }
    }
  }

  /** Two builders agree, whatever each of them built before. */
  lemma TransparentMemo(g: Graph, pe: PathExpr, one: PathIndex, other: PathIndex, a: nat, b: nat)
    requires Correct(g, pe, one) && Correct(g, pe, other) && a < SizeOf(g, EndSet(g, pe, 0))
    ensures one == other && ValidIndex(one)
    ensures EndSet(g, pe, 0) < |g.sets| && NumElements(one) == SizeOf(g, EndSet(g, pe, 0))
    ensures one.coords[a] <= one.coords[a + 1] <= |one.sinks|
    ensures b in Neighbors(one, a) <==> b < SizeOf(g, EndSet(g, pe, 1)) && Holds(g, pe, a, b)
  {
    hide Holds, Packed;
    PackedIsValid(Rows(g, pe));
    PackedRow(Rows(g, pe), a);
    RowsAreTheMeaning(g, pe, a, b);
  }
}
