/** Reordering of vertices: the ordering, the remapped endpoints and the scattered fields. */
module Reorder {
  import S = Sorting
  import W = Words
  import opened Grids

  /** What the sort looks at; the Hilbert index is an arbitrary key. */
  datatype Vertex = Vertex(id: nat, hilbertId: nat)

  predicate VertexComparator(a: Vertex, b: Vertex) {
    if a.hilbertId != b.hilbertId then a.hilbertId < b.hilbertId else a.id < b.id
  }

  // ---------- Sorting ----------

  /** Strictly ascending. */
  ghost predicate Ascends(s: seq<Vertex>) {
    forall i, j :: 0 <= i < j < |s| ==> VertexComparator(s[i], s[j])
  }

  predicate NotAfter(a: Vertex, b: Vertex) {
    !VertexComparator(b, a)
  }

  /** The result of std::stable_sort. */
  function Sorted(s: seq<Vertex>): (r: seq<Vertex>)
    ensures |r| == |s|
  {
    S.Sort(NotAfter, s)
  }

  ghost predicate DistinctIds(s: seq<Vertex>) {
    forall i, j :: 0 <= i < j < |s| ==> s[i].id != s[j].id
  }

  lemma SortedAscends(s: seq<Vertex>)
    requires DistinctIds(s)
    ensures Ascends(Sorted(s)) && multiset(Sorted(s)) == multiset(s)
  {
    var t := Sorted(s);
    S.SortSorts(NotAfter, s);
    forall i, j | 0 <= i < j < |t| ensures VertexComparator(t[i], t[j]) {
      assert NotAfter(t[i], t[j]);
      DifferentVertices(s, t, i, j);
    }
  }

  /** A permutation repeats no vertex. */
  lemma DifferentVertices(s: seq<Vertex>, t: seq<Vertex>, i: nat, j: nat)
    requires DistinctIds(s) && multiset(t) == multiset(s) && i < j < |t|
    ensures t[i].id != t[j].id
  {
    OnceOnly(s, t[i]);
    Twice(t, i, j);
    assert t[i] in multiset(t) && t[j] in multiset(t);
    assert t[i] in s && t[j] in s;
  }

  lemma {:induction false} OnceOnly(s: seq<Vertex>, v: Vertex)
    requires DistinctIds(s)
    ensures multiset(s)[v] <= 1
  {
    if s != [] {
      OnceOnly(s[1..], v);
      assert s == [s[0]] + s[1..];
      if s[0] == v { assert v !in s[1..]; }
    }
  }

  lemma Twice(t: seq<Vertex>, i: nat, j: nat)
    requires i < j < |t|
    ensures t[i] == t[j] ==> multiset(t)[t[i]] >= 2
  {
    if t[i] == t[j] {
      assert t == t[..j] + t[j..];
      assert t[i] == t[..j][i] && t[j] == t[j..][0];
      assert t[i] in multiset(t[..j]) && t[i] in multiset(t[j..]);
    }
  }

  // ---------- The ordering ----------

  /** The old vertices, numbered in the order of their storage. */
  function Nodes(keys: seq<nat>): (s: seq<Vertex>)
    ensures |s| == |keys|
  {
    seq(|keys|, i requires 0 <= i < |keys| => Vertex(i, keys[i]))
  }

  ghost predicate IsPermutation(ordering: seq<nat>) {
    && (forall i :: 0 <= i < |ordering| ==> ordering[i] < |ordering|)
    && (forall i, j :: 0 <= i < j < |ordering| ==> ordering[i] != ordering[j])
    && forall k: nat :: k < |ordering| ==> k in ordering
  }

  /** New positions follow the keys, equal keys the old positions. */
  ghost predicate OrdersByKey(keys: seq<nat>, ordering: seq<nat>) {
    && |ordering| == |keys| && IsPermutation(ordering)
    && forall v, w :: 0 <= v < |keys| && 0 <= w < |keys| ==>
         (ordering[v] < ordering[w] <==> keys[v] < keys[w] || (keys[v] == keys[w] && v < w))
  }

  /** createIdTranslationMapping: where each old vertex has gone. */
  method CreateIdTranslationMapping(reorderedNodes: seq<Vertex>) returns (vertexOrdering: seq<nat>)
    requires forall i :: 0 <= i < |reorderedNodes| ==> reorderedNodes[i].id < |reorderedNodes|
    requires DistinctIds(reorderedNodes)
    ensures |vertexOrdering| == |reorderedNodes|
    ensures forall i :: 0 <= i < |reorderedNodes| ==> vertexOrdering[reorderedNodes[i].id] == i
  {
    vertexOrdering := seq(|reorderedNodes|, _ => 0);
    for i := 0 to |reorderedNodes|
      invariant |vertexOrdering| == |reorderedNodes|
      invariant forall j :: 0 <= j < i ==> vertexOrdering[reorderedNodes[j].id] == j
    {
      vertexOrdering := vertexOrdering[reorderedNodes[i].id := i];
    }
  }

  /** hilbertReorder: the ordering is the permutation that ranks vertices by key and old id. */
  method HilbertReorder(keys: seq<nat>) returns (vertexOrdering: seq<nat>)
    ensures OrdersByKey(keys, vertexOrdering)
  {
    hide Sorted, VertexComparator, OrdersByKey;
    SortedAscends(Nodes(keys));
    SortedNodes(keys);
    vertexOrdering := CreateIdTranslationMapping(Sorted(Nodes(keys)));
    RanksOrder(keys, Sorted(Nodes(keys)), vertexOrdering);
  }

  lemma SortedNodes(keys: seq<nat>)
    ensures var s := Sorted(Nodes(keys));
            && |s| == |keys| && DistinctIds(Nodes(keys)) && DistinctIds(s)
            && (forall i :: 0 <= i < |s| ==> s[i].id < |keys| && s[i].hilbertId == keys[s[i].id])
            && forall v: nat :: v < |keys| ==> Vertex(v, keys[v]) in s
  {
    hide Sorted, VertexComparator;
    var n, s := Nodes(keys), Sorted(Nodes(keys));
    SortedAscends(n);
    forall i | 0 <= i < |s| ensures s[i].id < |keys| && s[i].hilbertId == keys[s[i].id] {
      assert s[i] in multiset(s);
      assert s[i] in multiset(n);
      assert s[i] in n;
    }
    forall i, j | 0 <= i < j < |s| ensures s[i].id != s[j].id {
      NotItself(s[i], s[j]);
    }
    forall v: nat | v < |keys| ensures Vertex(v, keys[v]) in s {
      assert n[v] in multiset(n);
      assert n[v] in multiset(s);
    }
  }

  lemma NotItself(a: Vertex, b: Vertex)
    requires VertexComparator(a, b)
    ensures a != b && (a.id == b.id ==> a.hilbertId != b.hilbertId)
  {
  }

  lemma RanksOrder(keys: seq<nat>, s: seq<Vertex>, ordering: seq<nat>)
    requires |s| == |keys| == |ordering| && Ascends(s) && forall i :: 0 <= i < |s| ==>
             s[i].id < |keys| && s[i].hilbertId == keys[s[i].id]
    requires forall v: nat :: v < |keys| ==> Vertex(v, keys[v]) in s
    requires forall i :: 0 <= i < |s| ==> ordering[s[i].id] == i
    ensures OrdersByKey(keys, ordering)
  {
    hide VertexComparator;
    forall v: nat | v < |keys| ensures ordering[v] < |s| && s[ordering[v]] == Vertex(v, keys[v]) {
      var i :| 0 <= i < |s| && s[i] == Vertex(v, keys[v]);
    }
    forall k: nat | k < |s| ensures k in ordering {
      assert ordering[s[k].id] == k;
    }
    forall v, w | 0 <= v < |keys| && 0 <= w < |keys|
      ensures ordering[v] < ordering[w] <==> keys[v] < keys[w] || (keys[v] == keys[w] && v < w)
      ensures ordering[v] == ordering[w] ==> v == w {
      RankIsOrder(Vertex(v, keys[v]), Vertex(w, keys[w]), s, ordering[v], ordering[w]);
    }
  }

  lemma RankIsOrder(a: Vertex, b: Vertex, s: seq<Vertex>, i: nat, j: nat)
    requires Ascends(s) && i < |s| && j < |s| && s[i] == a && s[j] == b
    ensures i < j <==> a.hilbertId < b.hilbertId || (a.hilbertId == b.hilbertId && a.id < b.id)
    ensures i == j ==> a == b
  {
    if i > j { assert VertexComparator(b, a); }
    if i < j { assert VertexComparator(a, b); }
  }

  // ---------- Endpoints and fields ----------

  /** Where component x of element i is stored. */
  function Slot(dim: nat, i: nat, x: nat): (k: nat)
  {
    W.Times(dim, i) + x
  }

  lemma SlotBelow(dim: nat, i: nat, x: nat, n: nat)
    requires x < dim && i < n
    ensures Slot(dim, i, x) < W.Times(dim, n)
  {
    W.TimesAdd(dim, i, 1);
    W.TimesOne(dim);
    W.TimesMono(dim, i + 1, n);
  }

  lemma SlotUnique(dim: nat, i: nat, x: nat, j: nat, y: nat)
    requires x < dim && y < dim && Slot(dim, i, x) == Slot(dim, j, y)
    ensures i == j && x == y
  {
    W.TimesIs(dim, i);
    W.TimesIs(dim, j);
    W.DivModOf(i, x, dim);
    W.DivModOf(j, y, dim);
  }

  /** reorderEdgeSetByVertexOrdering: every endpoint becomes the new id of its vertex. */
  method ReorderEndpoints(endpoints: array<nat>, vertexOrdering: seq<nat>)
    requires forall k :: 0 <= k < endpoints.Length ==> endpoints[k] < |vertexOrdering|
    modifies endpoints
    ensures forall k :: 0 <= k < endpoints.Length ==>
            old(endpoints[k]) < |vertexOrdering| && endpoints[k] == vertexOrdering[old(endpoints[k])]
  {
    for i := 0 to endpoints.Length
      invariant forall k :: 0 <= k < i ==>
                old(endpoints[k]) < |vertexOrdering| && endpoints[k] == vertexOrdering[old(endpoints[k])]
      invariant forall k :: i <= k < endpoints.Length ==> endpoints[k] == old(endpoints[k])
    {
      endpoints[i] := vertexOrdering[endpoints[i]];
    }
  }

  /** The components of element i stand in `after` where they go, at element j. */
  ghost predicate MovedTo<T>(before: seq<T>, after: seq<T>, dim: nat, i: nat, j: nat)
  {
    forall x: nat :: x < dim ==>
      Slot(dim, i, x) < |before| && Slot(dim, j, x) < |after| && after[Slot(dim, j, x)] == before[Slot(dim, i, x)]
  }

  /** The inner loop of reorderFieldData. */
  method CopyElement<T>(data: array<T>, newData: array<T>, dim: nat, i: nat, j: nat, n: nat)
    requires i < n && j < n && data != newData && W.Times(dim, n) <= data.Length && W.Times(dim, n) <= newData.Length
    modifies newData
    ensures MovedTo(data[..], newData[..], dim, i, j)
    ensures forall k, x: nat :: 0 <= k < n && k != j && x < dim ==>
              Slot(dim, k, x) < newData.Length && newData[Slot(dim, k, x)] == old(newData[..])[Slot(dim, k, x)]
  {
    hide Slot, W.Times;
    ghost var before := newData[..];
    forall k: nat, x: nat | k < n && x < dim ensures Slot(dim, k, x) < W.Times(dim, n) { SlotBelow(dim, k, x, n); }
    for x := 0 to dim
      invariant forall y: nat :: y < x ==> newData[Slot(dim, j, y)] == data[Slot(dim, i, y)]
      invariant forall k: nat, y: nat :: k < n && k != j && y < dim ==>
                newData[Slot(dim, k, y)] == before[Slot(dim, k, y)]
    {
      forall y: nat | y < x ensures Slot(dim, j, y) != Slot(dim, j, x) {
        if Slot(dim, j, y) == Slot(dim, j, x) { SlotUnique(dim, j, y, j, x); }
      }
      forall k: nat, y: nat | k < n && k != j && y < dim ensures Slot(dim, k, y) != Slot(dim, j, x) {
        if Slot(dim, k, y) == Slot(dim, j, x) { SlotUnique(dim, k, y, j, x); }
      }
      newData[Slot(dim, j, x)] := data[Slot(dim, i, x)];
    }
  }

  /** reorderFieldData: every element moves to its new place, with all its components. */
  method ReorderFieldData<T(0)>(data: array<T>, vertexOrdering: seq<nat>, dim: nat)
    requires IsPermutation(vertexOrdering) && dim > 0 && W.Times(dim, |vertexOrdering|) <= data.Length
    modifies data
    ensures forall i :: 0 <= i < |vertexOrdering| ==> MovedTo(old(data[..]), data[..], dim, i, vertexOrdering[i])
    ensures data[W.Times(dim, |vertexOrdering|)..] == old(data[W.Times(dim, |vertexOrdering|)..])
  {
    hide Slot, W.Times, MovedTo;
    var capacity := |vertexOrdering|;
    var newData := new T[W.Times(dim, capacity)];
    for i := 0 to capacity
      invariant data[..] == old(data[..])
      invariant forall j :: 0 <= j < i ==> MovedTo(data[..], newData[..], dim, j, vertexOrdering[j])
    {
      ghost var before := newData[..];
      CopyElement(data, newData, dim, i, vertexOrdering[i], capacity);
      forall j | 0 <= j < i ensures MovedTo(data[..], newData[..], dim, j, vertexOrdering[j]) {
        StillMoved(data[..], before, newData[..], dim, j, vertexOrdering[j]);
      }
    }
    ghost var was, moved := data[..], newData[..];
    for k := 0 to newData.Length
      invariant newData[..] == moved && data[..k] == newData[..k] && data[newData.Length..] == was[newData.Length..]
    {
      data[k] := newData[k];
    }
    assert data[..newData.Length] == moved && was == old(data[..]);
    forall i | 0 <= i < capacity ensures MovedTo(was, data[..], dim, i, vertexOrdering[i]) {
      PrefixMoved(was, moved, data[..], dim, i, vertexOrdering[i]);
    }
  }

  /** Component x of element i stands at place i * dim + x, and goes to component x of element j. */
  lemma ComponentMoved<T>(before: seq<T>, after: seq<T>, dim: nat, i: nat, j: nat, x: nat)
    requires MovedTo(before, after, dim, i, j) && x < dim
    ensures 0 <= i * dim + x < |before| && 0 <= j * dim + x < |after| && after[j * dim + x] == before[i * dim + x]
  {
    W.TimesIs(dim, i);
    W.TimesIs(dim, j);
    assert after[Slot(dim, j, x)] == before[Slot(dim, i, x)];
  }

  lemma StillMoved<T>(data: seq<T>, before: seq<T>, after: seq<T>, dim: nat, i: nat, j: nat)
    requires MovedTo(data, before, dim, i, j)
    requires |before| == |after| && forall x: nat :: x < dim ==>
             Slot(dim, j, x) < |after| && after[Slot(dim, j, x)] == before[Slot(dim, j, x)]
    ensures MovedTo(data, after, dim, i, j)
  {
    hide Slot;
  }

  lemma PrefixMoved<T>(was: seq<T>, moved: seq<T>, now: seq<T>, dim: nat, i: nat, j: nat)
    requires MovedTo(was, moved, dim, i, j) && |moved| <= |now| && now[..|moved|] == moved
    ensures MovedTo(was, now, dim, i, j)
  {
    hide Slot;
    forall x: nat | x < dim ensures Slot(dim, j, x) < |now| && now[Slot(dim, j, x)] == was[Slot(dim, i, x)] {
      assert moved[Slot(dim, j, x)] == now[..|moved|][Slot(dim, j, x)];
    }
  }

  /** A vertex field: its data and the number of components per vertex. */
  datatype Field = Field(data: array<real>, dim: nat)

  /** reorderVertexSet: read through any endpoint of any edge, every field has the value it had. */
  method ReorderVertexSet(endpoints: array<nat>, fields: seq<Field>, vertexOrdering: seq<nat>)
    requires IsPermutation(vertexOrdering) && forall k :: 0 <= k < endpoints.Length ==> endpoints[k] < |vertexOrdering|
    requires forall f :: 0 <= f < |fields| ==>
             fields[f].dim > 0 && W.Times(fields[f].dim, |vertexOrdering|) <= fields[f].data.Length
    requires forall f, g :: 0 <= f < g < |fields| ==> fields[f].data != fields[g].data
    modifies endpoints, set f | 0 <= f < |fields| :: fields[f].data
    ensures forall k :: 0 <= k < endpoints.Length ==> endpoints[k] < |vertexOrdering|
    ensures forall k, f :: 0 <= k < endpoints.Length && 0 <= f < |fields| ==>
              MovedTo(old(fields[f].data[..]), fields[f].data[..], fields[f].dim, old(endpoints[k]), endpoints[k])
  {
    hide Slot, W.Times, MovedTo;
    ReorderEndpoints(endpoints, vertexOrdering);
    ghost var now := endpoints[..];
    for f := 0 to |fields|
      invariant endpoints[..] == now
      invariant forall g :: f <= g < |fields| ==> fields[g].data[..] == old(fields[g].data[..])
      invariant forall g, i :: 0 <= g < f && 0 <= i < |vertexOrdering| ==>
                  MovedTo(old(fields[g].data[..]), fields[g].data[..], fields[g].dim, i, vertexOrdering[i])
    {
      ReorderFieldData(fields[f].data, vertexOrdering, fields[f].dim);
    }
  }
}
