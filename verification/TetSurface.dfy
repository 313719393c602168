/** Extraction of the surface of a tetrahedral mesh. */
module TetSurface {
  import opened Vectors

  type Point = Vec
  type Triangle = (int, int, int)

  /** A face of the mesh: element and face number. */
  type Face = (nat, nat)

  // ---------- Tetrahedra ----------

  /** Four different vertices. */
  ghost predicate Proper(t: seq<nat>) {
    |t| == 4 && t[0] != t[1] && t[0] != t[2] && t[0] != t[3] && t[1] != t[2] && t[1] != t[3] && t[2] != t[3]
  }

  /** The table of faces. */
  function TetFace(f: nat, k: nat): (i: nat)
    requires f < 4 && k < 3
    ensures i < 4 && i != Opposite(f)
  {
    if f == 0 then [0, 2, 1][k]
    else if f == 1 then [0, 3, 2][k]
    else if f == 2 then [0, 1, 3][k]
    else [1, 2, 3][k]
  }

  /** The vertex that a face leaves out. */
  function Opposite(f: nat): (i: nat)
    requires f < 4
    ensures i < 4
  {
    [3, 1, 2, 0][f]
  }

  function Corner(t: seq<nat>, f: nat, k: nat): (x: nat)
    requires |t| == 4 && f < 4 && k < 3
  {
    t[TetFace(f, k)]
  }

  /** x is a vertex of face f. */
  predicate OnFace(t: seq<nat>, f: nat, x: nat)
    requires |t| == 4 && f < 4
  {
    x == Corner(t, f, 0) || x == Corner(t, f, 1) || x == Corner(t, f, 2)
  }

  function Vertices(t: seq<nat>): (s: set<nat>)
    ensures forall x :: x in s <==> x in t
  {
    set x | x in t
  }

  /** All vertices of face f are vertices of b. */
  predicate FaceIn(a: seq<nat>, f: nat, b: seq<nat>)
    requires |a| == 4 && f < 4
  {
    Corner(a, f, 0) in b && Corner(a, f, 1) in b && Corner(a, f, 2) in b
  }

  /** b has the face, and another fourth vertex. */
  predicate SharesAt(a: seq<nat>, b: seq<nat>, f: nat)
    requires |a| == 4 && f < 4
  {
    FaceIn(a, f, b) && a[Opposite(f)] !in b
  }

  function One(b: bool): (n: nat) { if b then 1 else 0 }

  lemma CommonVertices(a: seq<nat>, b: seq<nat>)
    requires Proper(a)
    ensures |Vertices(a) * Vertices(b)| == One(a[0] in b) + One(a[1] in b) + One(a[2] in b) + One(a[3] in b)
  {
    hide Pick;
    CommonPicks(a, b);
    PickMore({}, a[0], b);
    PickMore({} + Pick(a[0], b), a[1], b);
    PickMore({} + Pick(a[0], b) + Pick(a[1], b), a[2], b);
    PickMore({} + Pick(a[0], b) + Pick(a[1], b) + Pick(a[2], b), a[3], b);
  }

  lemma CommonPicks(a: seq<nat>, b: seq<nat>)
    requires |a| == 4
    ensures Vertices(a) * Vertices(b) == {} + Pick(a[0], b) + Pick(a[1], b) + Pick(a[2], b) + Pick(a[3], b)
  {
    hide Pick, Vertices;
    assert forall y :: y in a <==> y == a[0] || y == a[1] || y == a[2] || y == a[3];
  }

  function Pick(x: nat, b: seq<nat>): (s: set<nat>)
    ensures forall y :: y in s <==> y == x && x in b
  {
    if x in b then {x} else {}
  }

  lemma PickMore(s: set<nat>, x: nat, b: seq<nat>)
    requires x !in s
    ensures |s + Pick(x, b)| == |s| + One(x in b)
  {
    assert s + {} == s;
  }

  lemma FourVertices(a: seq<nat>)
    requires Proper(a)
    ensures |Vertices(a)| == 4
  {
    CommonVertices(a, a);
    assert Vertices(a) * Vertices(a) == Vertices(a);
  }

  /** Two tetrahedra have five vertices together exactly when they share one face. */
  lemma FiveVertices(a: seq<nat>, b: seq<nat>)
    requires Proper(a) && Proper(b)
    ensures |Vertices(a) + Vertices(b)| == 5 <==> exists f :: 0 <= f < 4 && SharesAt(a, b, f)
    ensures forall f, g :: 0 <= f < 4 && 0 <= g < 4 && SharesAt(a, b, f) && FaceIn(a, g, b) ==> f == g
  {
    FourVertices(a);
    FourVertices(b);
    CommonVertices(a, b);
    assert |Vertices(a) + Vertices(b)| == 8 - |Vertices(a) * Vertices(b)|;
    if |Vertices(a) + Vertices(b)| == 5 {
      if a[3] !in b { assert SharesAt(a, b, 0); }
      if a[1] !in b { assert SharesAt(a, b, 1); }
      if a[2] !in b { assert SharesAt(a, b, 2); }
      if a[0] !in b { assert SharesAt(a, b, 3); }
    }
  }

  lemma SharingIsSymmetric(a: seq<nat>, b: seq<nat>, f: nat)
    requires Proper(a) && Proper(b) && f < 4 && SharesAt(a, b, f)
    ensures exists g :: 0 <= g < 4 && SharesAt(b, a, g)
  {
    FiveVertices(a, b);
    FiveVertices(b, a);
    assert Vertices(a) + Vertices(b) == Vertices(b) + Vertices(a);
  }

  /** Between different vertex sets, having the face's vertices is sharing the face. */
  lemma SharedFace(a: seq<nat>, b: seq<nat>, f: nat)
    requires Proper(a) && Proper(b) && f < 4 && Vertices(a) != Vertices(b)
    ensures SharesAt(a, b, f) <==> FaceIn(a, f, b)
  {
    if FaceIn(a, f, b) && a[Opposite(f)] in b {
      AllIn(a, f, b);
      FourVertices(a);
      FourVertices(b);
      SubsetSize(Vertices(a), Vertices(b));
    }
  }

  lemma AllIn(a: seq<nat>, f: nat, b: seq<nat>)
    requires |a| == 4 && f < 4 && FaceIn(a, f, b) && a[Opposite(f)] in b
    ensures Vertices(a) <= Vertices(b)
  {
    assert a[0] in b && a[1] in b && a[2] in b && a[3] in b;
  }

  lemma SubsetSize(s: set<nat>, t: set<nat>)
    requires s <= t && |s| == |t|
    ensures s == t
  {
    assert |t - s| == 0;
  }

  // ---------- Meshes ----------

  ghost predicate AllProper(e: seq<seq<nat>>) {
    forall i :: 0 <= i < |e| ==> |e[i]| == 4 && Proper(e[i])
  }

  ghost predicate ValidMesh(points: nat, e: seq<seq<nat>>) {
    && AllProper(e)
    && (forall i, q :: 0 <= i < |e| && 0 <= q < 4 ==> e[i][q] < points)
  }

  /** Every vertex is used: the loop over its elements runs to one before their number. */
  ghost predicate EveryVertexUsed(points: nat, e: seq<seq<nat>>) {
    forall x: nat :: x < points ==> Used(e, x)
  }

  ghost predicate Used(e: seq<seq<nat>>, x: nat) {
    exists i :: 0 <= i < |e| && x in e[i]
  }

  /** Face f of element i is kept: no other element has it. */
  ghost predicate Kept(e: seq<seq<nat>>, i: nat, f: nat)
    requires i < |e| && |e[i]| == 4 && f < 4
  {
    forall k: nat :: k < |e| && k != i ==> !SharesAt(e[i], e[k], f)
  }

  ghost predicate NoDuplicates(e: seq<seq<nat>>) {
    forall i, k :: 0 <= i < k < |e| ==> Vertices(e[i]) != Vertices(e[k])
  }

  /** Without duplicate elements a face is kept exactly when no other element has its vertices. */
  lemma KeptMeans(points: nat, e: seq<seq<nat>>, i: nat, f: nat)
    requires ValidMesh(points, e) && NoDuplicates(e) && i < |e| && f < 4
    ensures Kept(e, i, f) <==> forall k: nat :: k < |e| && k != i ==> !FaceIn(e[i], f, e[k])
  {
    forall k: nat | k < |e| && k != i ensures SharesAt(e[i], e[k], f) <==> FaceIn(e[i], f, e[k]) {
      SharedFace(e[i], e[k], f);
    }
  }

  /** No other element has the vertices of face f of element i. */
  ghost predicate OnlyIn(e: seq<seq<nat>>, i: nat, f: nat)
    requires i < |e| && |e[i]| == 4 && f < 4
  {
    forall k: nat :: k < |e| && k != i ==> !FaceIn(e[i], f, e[k])
  }

  /** Exactly the faces are kept that no other element has. */
  ghost predicate KeepsSurface(e: seq<seq<nat>>)
    requires AllProper(e)
  {
    forall i: nat, f: nat :: i < |e| && f < 4 ==> (Kept(e, i, f) <==> OnlyIn(e, i, f))
  }

  /** Elements i and k are duplicates. */
  ghost predicate Twins(e: seq<seq<nat>>, i: nat, k: nat) {
    i < |e| && k < |e| && i != k && Vertices(e[i]) == Vertices(e[k])
  }

  /** Some element with another fourth vertex has face f of element i. */
  ghost predicate Covered(e: seq<seq<nat>>, i: nat, f: nat)
    requires i < |e| && |e[i]| == 4 && f < 4
  {
    exists l: nat :: l < |e| && SharesAt(e[i], e[l], f)
  }

  /** On any mesh that is so exactly if every face of every duplicated element belongs to an element with
      another fourth vertex too: a duplicate keeps the faces that only its twins have. */
  lemma KeepsSurfaceExactly(points: nat, e: seq<seq<nat>>)
    requires ValidMesh(points, e)
    ensures KeepsSurface(e) <==>
            forall i: nat, k: nat, f: nat :: Twins(e, i, k) && f < 4 ==> Covered(e, i, f)
  {
    forall i: nat, k: nat, f: nat | Twins(e, i, k) && f < 4 && !Covered(e, i, f)
      ensures Kept(e, i, f) && !OnlyIn(e, i, f) {
      TwinHasFaces(e[i], e[k], f);
    }
    forall i: nat, f: nat | i < |e| && f < 4 && !(Kept(e, i, f) <==> OnlyIn(e, i, f))
      ensures exists k: nat :: Twins(e, i, k) && !Covered(e, i, f) {
      var k: nat :| k < |e| && k != i && FaceIn(e[i], f, e[k]);
      if Vertices(e[i]) != Vertices(e[k]) { SharedFace(e[i], e[k], f); }
      assert Twins(e, i, k);
    }
  }

  lemma TwinHasFaces(a: seq<nat>, b: seq<nat>, f: nat)
    requires Proper(a) && f < 4 && Vertices(a) == Vertices(b)
    ensures FaceIn(a, f, b) && !SharesAt(a, b, f)
  {
    assert forall q :: 0 <= q < 4 ==> a[q] in Vertices(a);
  }

  // ---------- Marking interior faces ----------

  /** The elements that contain each vertex, ascending. */
  ghost predicate IsNeighborList(points: nat, e: seq<seq<nat>>, n: nat, lists: seq<seq<nat>>)
    requires n <= |e|
  {
    && |lists| == points
    && forall x: nat :: x < points ==>
         && (forall i: nat :: i in lists[x] <==> i < n && x in e[i])
         && forall a, b :: 0 <= a < b < |lists[x]| ==> lists[x][a] < lists[x][b]
  }

  /** The number of elements each vertex occurs in, as a map: 1, or 2 if it is in both. */
  ghost predicate IsOverlap(im: map<nat, nat>, a: seq<nat>, b: seq<nat>) {
    && im.Keys == Vertices(a) + Vertices(b)
    && forall x :: x in im ==> (im[x] == if x in a && x in b then 2 else 1)
  }

  method Overlap(a: seq<nat>, b: seq<nat>) returns (im: map<nat, nat>)
    requires Proper(b)
    ensures IsOverlap(im, a, b) && |im| == |Vertices(a) + Vertices(b)|
  {
    im := map[];
    for vv := 0 to |a|
      invariant im.Keys == Vertices(a[..vv]) && forall x :: x in im ==> im[x] == 1
    {
      im := im[a[vv] := 1];
      assert a[..vv + 1] == a[..vv] + [a[vv]];
    }
    assert a[..|a|] == a;
    for vv := 0 to |b|
      invariant im.Keys == Vertices(a) + Vertices(b[..vv])
      invariant forall x :: x in im ==> (im[x] == if x in a && x in b[..vv] then 2 else 1)
    {
      var key := b[vv];
      assert key !in b[..vv];
      if key in im {
        im := im[key := 2];
      } else {
        im := im[key := 1];
      }
      assert b[..vv + 1] == b[..vv] + [b[vv]];
    }
    assert b[..|b|] == b;
    assert |im| == |im.Keys|;
  }

  /** findTetFace: the first face whose vertices all occur twice. */
  method FindTetFace(im: map<nat, nat>, t: seq<nat>) returns (fi: nat)
    requires Proper(t) && forall q :: 0 <= q < 4 ==> t[q] in im
    ensures fi < 4
    ensures forall f :: 0 <= f < 4 && AllTwice(im, t, f) && (forall g :: 0 <= g < f ==> !AllTwice(im, t, g)) ==> fi == f
    ensures (forall f :: 0 <= f < 4 ==> !AllTwice(im, t, f)) ==> fi == 0
  {
    for f := 0 to 4
      invariant forall g :: 0 <= g < f ==> !AllTwice(im, t, g)
    {
      var cnt := 0;
      for fv := 0 to 3
        invariant cnt == (if fv > 0 then One(im[Corner(t, f, 0)] == 2) else 0) +
                         (if fv > 1 then One(im[Corner(t, f, 1)] == 2) else 0) +
                         (if fv > 2 then One(im[Corner(t, f, 2)] == 2) else 0)
      {
        if im[Corner(t, f, fv)] == 2 {
          cnt := cnt + 1;
        }
      }
      if cnt == 3 {
        assert AllTwice(im, t, f);
        return f;
      }
    }
    fi := 0;
  }

  ghost predicate AllTwice(im: map<nat, nat>, t: seq<nat>, f: nat)
    requires |t| == 4 && f < 4 && forall q :: 0 <= q < 4 ==> t[q] in im
  {
    im[Corner(t, f, 0)] == 2 && im[Corner(t, f, 1)] == 2 && im[Corner(t, f, 2)] == 2
  }

  /** The face that two elements share, found by their overlap. */
  method SharedFaceOf(im: map<nat, nat>, t: seq<nat>, u: seq<nat>) returns (fi: nat)
    requires Proper(t) && Proper(u) && IsOverlap(im, t, u) && |Vertices(t) + Vertices(u)| == 5
    ensures fi < 4 && forall f: nat :: f < 4 ==> (SharesAt(t, u, f) <==> f == fi)
  {
    hide IsOverlap, SharesAt, AllTwice;
    OverlapValues(im, t, u);
    FiveVertices(t, u);
    ghost var f :| 0 <= f < 4 && SharesAt(t, u, f);
    SharesGivesFace(t, u, f);
    fi := FindTetFace(im, t);
    forall g: nat | g < 4 && SharesAt(t, u, g) ensures g == f { SharesGivesFace(t, u, g); }
  }

  lemma OverlapValues(im: map<nat, nat>, t: seq<nat>, u: seq<nat>)
    requires Proper(t) && IsOverlap(im, t, u)
    ensures forall q :: 0 <= q < 4 ==> t[q] in im
    ensures forall f: nat :: f < 4 ==> (AllTwice(im, t, f) <==> FaceIn(t, f, u))
  {
  }

  lemma SharesGivesFace(t: seq<nat>, u: seq<nat>, f: nat)
    requires |t| == 4 && f < 4 && SharesAt(t, u, f)
    ensures FaceIn(t, f, u)
  {
  }

  /** Ordered pairs of different elements. */
  ghost predicate PairsOf(n: nat, pairs: set<(nat, nat)>) {
    forall p :: p in pairs ==> p.0 < n && p.1 < n && p.0 != p.1
  }

  /** The marks after the pairs have been compared: a face is interior if a compared element shares it. */
  ghost predicate Marks(e: seq<seq<nat>>, exterior: seq<seq<bool>>, pairs: set<(nat, nat)>)
    requires PairsOf(|e|, pairs) && AllProper(e)
  {
    && |exterior| == |e| && (forall i :: 0 <= i < |e| ==> |exterior[i]| == 4)
    && forall i: nat, f: nat :: i < |e| && f < 4 ==> (exterior[i][f] <==> Open(e, pairs, i, f))
  }

  ghost predicate Open(e: seq<seq<nat>>, pairs: set<(nat, nat)>, i: nat, f: nat)
    requires PairsOf(|e|, pairs) && i < |e| && |e[i]| == 4 && f < 4
  {
    forall k: nat :: (i, k) in pairs ==> !SharesAt(e[i], e[k], f)
  }

  /** The pairs of members of a list. */
  ghost predicate Covers(pairs: set<(nat, nat)>, list: seq<nat>) {
    forall a, b :: 0 <= a < b < |list| ==> (list[a], list[b]) in pairs && (list[b], list[a]) in pairs
  }

  /** Comparing one more pair. */
  lemma MarkOne(e: seq<seq<nat>>, before: seq<seq<bool>>, after: seq<seq<bool>>, pairs: set<(nat, nat)>, j: nat, k: nat)
    requires PairsOf(|e|, pairs) && AllProper(e) && j < |e| && k < |e| && j != k
    requires Marks(e, before, pairs) && |after| == |before| && |after[j]| == 4
    requires forall i :: 0 <= i < |e| && i != j ==> after[i] == before[i]
    requires forall f: nat :: f < 4 ==> (after[j][f] <==> before[j][f] && !SharesAt(e[j], e[k], f))
    ensures PairsOf(|e|, pairs + {(j, k)}) && Marks(e, after, pairs + {(j, k)})
  {
    hide SharesAt, Proper;
    forall i: nat, f: nat | i < |e| && f < 4 ensures after[i][f] <==> Open(e, pairs + {(j, k)}, i, f) {
      assert Open(e, pairs, i, f) <==> before[i][f];
      assert Open(e, pairs + {(j, k)}, i, f) <==> Open(e, pairs, i, f) && (i == j ==> !SharesAt(e[j], e[k], f)) by {
        OpenMore(e, pairs, j, k, i, f);
      }
    }
  }

  lemma OpenMore(e: seq<seq<nat>>, pairs: set<(nat, nat)>, j: nat, k: nat, i: nat, f: nat)
    requires PairsOf(|e|, pairs) && j < |e| && k < |e| && j != k && i < |e| && |e[i]| == 4 && f < 4
    ensures PairsOf(|e|, pairs + {(j, k)})
    ensures Open(e, pairs + {(j, k)}, i, f) <==> Open(e, pairs, i, f) && (i == j ==> !SharesAt(e[i], e[k], f))
  {
    hide SharesAt;
    assert (j, k) in pairs + {(j, k)};
  }

  /** When every two elements with a common vertex have been compared, a face is marked exterior
      exactly when it is kept. */
  lemma MarksAreKept(points: nat, e: seq<seq<nat>>, lists: seq<seq<nat>>, exterior: seq<seq<bool>>,
                     pairs: set<(nat, nat)>, i: nat, f: nat)
    requires ValidMesh(points, e) && IsNeighborList(points, e, |e|, lists)
    requires PairsOf(|e|, pairs) && Marks(e, exterior, pairs) && forall x :: 0 <= x < points ==> Covers(pairs, lists[x])
    requires i < |e| && f < 4
    ensures exterior[i][f] <==> Kept(e, i, f)
  {
    forall k: nat | k < |e| && k != i && SharesAt(e[i], e[k], f) ensures (i, k) in pairs {
      var x := Corner(e[i], f, 0);
      assert x in e[i] && x in e[k];
      assert i in lists[x] && k in lists[x];
      var a :| 0 <= a < |lists[x]| && lists[x][a] == i;
      var b :| 0 <= b < |lists[x]| && lists[x][b] == k;
      assert Covers(pairs, lists[x]);
    }
    assert exterior[i][f] <==> Open(e, pairs, i, f);
  }

  // ---------- Faces and vertices of the surface ----------

  ghost predicate FourEach(exterior: seq<seq<bool>>) {
    forall i :: 0 <= i < |exterior| ==> |exterior[i]| == 4
  }

  /** The exterior faces before face f of element i, in order. */
  function FacesBefore(exterior: seq<seq<bool>>, i: nat, f: nat): (faces: seq<Face>)
    requires FourEach(exterior) && f <= 4 && (i < |exterior| || (i == |exterior| && f == 0))
    ensures forall x :: x in faces ==>
            x.0 < |exterior| && x.1 < 4 && exterior[x.0][x.1] && (x.0 < i || (x.0 == i && x.1 < f))
    decreases i, f
  {
    if f > 0 then FacesBefore(exterior, i, f - 1) + (if exterior[i][f - 1] then [(i, f - 1)] else [])
    else if i > 0 then FacesBefore(exterior, i - 1, 4)
    else []
  }

  lemma FacesNext(exterior: seq<seq<bool>>, i: nat, f: nat)
    requires FourEach(exterior) && f < 4 && i < |exterior|
    ensures exterior[i][f] ==> FacesBefore(exterior, i, f + 1) == FacesBefore(exterior, i, f) + [(i, f)]
    ensures !exterior[i][f] ==> FacesBefore(exterior, i, f + 1) == FacesBefore(exterior, i, f)
    ensures FacesBefore(exterior, 0, 0) == [] && FacesBefore(exterior, i + 1, 0) == FacesBefore(exterior, i, 4)
  {
  }

  /** The faces of the surface. */
  function SurfaceFaces(exterior: seq<seq<bool>>): (faces: seq<Face>)
    requires FourEach(exterior)
  {
    FacesBefore(exterior, |exterior|, 0)
  }

  ghost predicate FacesOf(e: seq<seq<nat>>, faces: seq<Face>) {
    forall x :: x in faces ==> x.0 < |e| && |e[x.0]| == 4 && x.1 < 4
  }

  function FaceVertices(e: seq<seq<nat>>, faces: seq<Face>): (s: set<nat>)
    requires FacesOf(e, faces)
  {
    if faces == [] then {} else
      var last := faces[|faces| - 1];
      FaceVertices(e, faces[..|faces| - 1]) +
      {Corner(e[last.0], last.1, 0), Corner(e[last.0], last.1, 1), Corner(e[last.0], last.1, 2)}
  }

  lemma FaceVerticesNext(e: seq<seq<nat>>, faces: seq<Face>, x: Face)
    requires FacesOf(e, faces) && x.0 < |e| && |e[x.0]| == 4 && x.1 < 4
    ensures FacesOf(e, faces + [x]) && FaceVertices(e, []) == {}
    ensures FaceVertices(e, faces + [x]) ==
            FaceVertices(e, faces) + {Corner(e[x.0], x.1, 0), Corner(e[x.0], x.1, 1), Corner(e[x.0], x.1, 2)}
  {
    assert (faces + [x])[..|faces|] == faces;
  }

  /** A vertex is on the surface exactly when it is on one of its faces. */
  lemma {:induction false} FaceVerticesIn(e: seq<seq<nat>>, faces: seq<Face>, y: nat)
    requires FacesOf(e, faces)
    ensures y in FaceVertices(e, faces) <==> exists x :: x in faces && OnFace(e[x.0], x.1, y)
  {
    if faces != [] {
      var last := faces[|faces| - 1];
      FaceVerticesIn(e, faces[..|faces| - 1], y);
      assert forall x :: x in faces <==> x in faces[..|faces| - 1] || x == last;
    }
  }

  /** order lists the numbered vertices: vidx is its inverse, -1 elsewhere, and the surface has their
      positions. */
  ghost predicate Numbers(v: seq<Point>, vidx: seq<int>, surfV: seq<Point>, seen: set<nat>, order: seq<nat>) {
    && |vidx| == |v| && |order| == |surfV|
    && (forall k :: 0 <= k < |order| ==> order[k] < |v| && vidx[order[k]] == k && surfV[k] == v[order[k]])
    && (forall x: nat :: x < |v| && vidx[x] >= 0 ==> vidx[x] < |order| && order[vidx[x]] == x)
    && (forall x: nat :: x < |v| && vidx[x] < 0 ==> vidx[x] == -1)
    && (forall x: nat :: x < |v| ==> (vidx[x] >= 0 <==> x in seen))
  }

  ghost predicate Numbered(v: seq<Point>, vidx: seq<int>, surfV: seq<Point>, seen: set<nat>) {
    exists order :: Numbers(v, vidx, surfV, seen, order)
  }

  /** k is the number of a vertex. */
  ghost predicate IsNumber(vidx: seq<int>, seen: set<nat>, k: int) {
    exists x: nat :: x < |vidx| && x in seen && vidx[x] == k
  }

  /** vidx maps the numbered vertices one to one onto 0..n-1. */
  lemma NumberedBijection(v: seq<Point>, vidx: seq<int>, surfV: seq<Point>, seen: set<nat>)
    requires Numbered(v, vidx, surfV, seen)
    ensures |vidx| == |v|
    ensures forall x: nat :: x < |v| ==>
            (x in seen ==> 0 <= vidx[x] < |surfV| && surfV[vidx[x]] == v[x]) && (x !in seen ==> vidx[x] == -1)
    ensures forall x: nat, y: nat :: x < |v| && y < |v| && x in seen && y in seen && vidx[x] == vidx[y] ==> x == y
    ensures forall k :: 0 <= k < |surfV| ==> IsNumber(vidx, seen, k)
  {
    var order :| Numbers(v, vidx, surfV, seen, order);
    forall k | 0 <= k < |surfV| ensures IsNumber(vidx, seen, k) {
      assert vidx[order[k]] == k;
    }
  }

  lemma NumberedStart(v: seq<Point>, vidx: seq<int>)
    requires |vidx| == |v| && forall x :: 0 <= x < |v| ==> vidx[x] == -1
    ensures Numbered(v, vidx, [], {})
  {
    assert Numbers(v, vidx, [], {}, []);
  }

  lemma NumberedAgain(v: seq<Point>, vidx: seq<int>, surfV: seq<Point>, seen: set<nat>, x: nat)
    requires Numbered(v, vidx, surfV, seen) && x < |v| && |vidx| == |v| && vidx[x] >= 0
    ensures Numbered(v, vidx, surfV, seen + {x})
  {
    var order :| Numbers(v, vidx, surfV, seen, order);
    assert Numbers(v, vidx, surfV, seen + {x}, order);
  }

  lemma NumberedNew(v: seq<Point>, vidx: seq<int>, surfV: seq<Point>, seen: set<nat>, x: nat)
    requires Numbered(v, vidx, surfV, seen) && x < |v| && |vidx| == |v| && vidx[x] < 0
    ensures Numbered(v, vidx[x := |surfV|], surfV + [v[x]], seen + {x})
  {
    var order :| Numbers(v, vidx, surfV, seen, order);
    assert Numbers(v, vidx[x := |surfV|], surfV + [v[x]], seen + {x}, order + [x]);
  }

  /** The triangles of faces, in terms of surface vertices. */
  function Triangles(e: seq<seq<nat>>, vidx: seq<int>, faces: seq<Face>): (t: seq<Triangle>)
    requires FacesOf(e, faces) && forall i, q :: 0 <= i < |e| && 0 <= q < |e[i]| ==> e[i][q] < |vidx|
    ensures |t| == |faces|
  {
    seq(|faces|, k requires 0 <= k < |faces| => TriangleOf(e, vidx, faces[k]))
  }

  function TriangleOf(e: seq<seq<nat>>, vidx: seq<int>, x: Face): (t: Triangle)
    requires x.0 < |e| && |e[x.0]| == 4 && x.1 < 4 && forall i, q :: 0 <= i < |e| && 0 <= q < |e[i]| ==>
             e[i][q] < |vidx|
  {
    (vidx[Corner(e[x.0], x.1, 0)], vidx[Corner(e[x.0], x.1, 1)], vidx[Corner(e[x.0], x.1, 2)])
  }

  /** What makeTetSurf leaves behind. */
  ghost predicate IsSurface(v: seq<Point>, e: seq<seq<nat>>, exterior: seq<seq<bool>>, vidx: seq<int>,
                            surfV: seq<Point>, surfT: seq<Triangle>) {
    && ValidMesh(|v|, e) && |exterior| == |e| && FourEach(exterior) && |vidx| == |v| &&
      FacesOf(e, SurfaceFaces(exterior))
    && (forall i: nat, f: nat :: i < |e| && f < 4 ==> (exterior[i][f] <==> Kept(e, i, f)))
    && Numbered(v, vidx, surfV, FaceVertices(e, SurfaceFaces(exterior)))
    && surfT == Triangles(e, vidx, SurfaceFaces(exterior))
  }

  // ---------- The mesh ----------

  class MeshVol {
    var v: seq<Point>
    var e: seq<seq<nat>>
    var exterior: seq<seq<bool>>
    var vidx: seq<int>
    var surfV: seq<Point>
    var surfT: seq<Triangle>

    constructor (v: seq<Point>, e: seq<seq<nat>>)
      ensures this.v == v && this.e == e && exterior == [] && vidx == [] && surfV == [] && surfT == []
    {
      this.v, this.e := v, e;
      exterior, vidx, surfV, surfT := [], [], [], [];
    }

    /** elementNeighbors */
    method ElementNeighbors() returns (eleNeighbor: seq<seq<nat>>)
      requires ValidMesh(|v|, e)
      ensures IsNeighborList(|v|, e, |e|, eleNeighbor)
    {
      eleNeighbor := seq(|v|, _ => []);
      for ii := 0 to |e|
        invariant IsNeighborList(|v|, e, ii, eleNeighbor)
      {
        ghost var before := eleNeighbor;
        for jj := 0 to |e[ii]|
          invariant |eleNeighbor| == |v|
          invariant forall x: nat :: x < |v| ==> eleNeighbor[x] == before[x] + if x in e[ii][..jj] then [ii] else []
        {
          assert e[ii][jj] !in e[ii][..jj];
          assert e[ii][..jj + 1] == e[ii][..jj] + [e[ii][jj]];
          eleNeighbor := eleNeighbor[e[ii][jj] := eleNeighbor[e[ii][jj]] + [ii]];
        }
        assert e[ii][..|e[ii]|] == e[ii];
        ListsGrow(|v|, e, ii, before, eleNeighbor);
      }
    }

    /** Compares elements jj and kk. */
    method MarkPair(jj: nat, kk: nat, ghost pairs: set<(nat, nat)>)
      requires ValidMesh(|v|, e) && PairsOf(|e|, pairs) && Marks(e, exterior, pairs) && jj < |e| && kk < |e| && jj != kk
      modifies this`exterior
      ensures PairsOf(|e|, pairs + {(jj, kk)} + {(kk, jj)}) && Marks(e, exterior, pairs + {(jj, kk)} + {(kk, jj)})
    {
      hide Marks, SharesAt, Proper, Open, IsOverlap;
      MarksShape(e, exterior, pairs);
      var im := Overlap(e[jj], e[kk]);
      ghost var before := exterior;
      if |im| == 5 {
        var fi := SharedFaceOf(im, e[jj], e[kk]);
        exterior := exterior[jj := exterior[jj][fi := false]];
        MarkOne(e, before, exterior, pairs, jj, kk);
        MarksShape(e, exterior, pairs + {(jj, kk)});
        ghost var middle := exterior;
        OverlapSwaps(im, e[jj], e[kk]);
        fi := SharedFaceOf(im, e[kk], e[jj]);
        exterior := exterior[kk := exterior[kk][fi := false]];
        MarkOne(e, middle, exterior, pairs + {(jj, kk)}, kk, jj);
      } else {
        OverlapSwaps(im, e[jj], e[kk]);
        FiveVertices(e[jj], e[kk]);
        FiveVertices(e[kk], e[jj]);
        MarkOne(e, before, exterior, pairs, jj, kk);
        MarkOne(e, before, exterior, pairs + {(jj, kk)}, kk, jj);
      }
    }

    /** Compares every two elements in a vertex's list. */
    method MarkVertex(list: seq<nat>, ghost pairs: set<(nat, nat)>) returns (ghost after: set<(nat, nat)>)
      requires ValidMesh(|v|, e) && PairsOf(|e|, pairs) && Marks(e, exterior, pairs)
      requires |list| > 0 && (forall a :: 0 <= a < |list| ==> list[a] < |e|) && forall a, b :: 0 <= a < b < |list| ==>
               list[a] < list[b]
      modifies this`exterior
      ensures pairs <= after && Covers(after, list) && PairsOf(|e|, after) && Marks(e, exterior, after)
    {
      hide Marks, Proper;
      after := pairs;
      for nj := 0 to |list| - 1
        invariant pairs <= after && PairsOf(|e|, after) && Marks(e, exterior, after)
        invariant forall a, b :: 0 <= a < nj && a < b < |list| ==>
                  (list[a], list[b]) in after && (list[b], list[a]) in after
      {
        var jj := list[nj];
        for nk := nj + 1 to |list|
          invariant pairs <= after && PairsOf(|e|, after) && Marks(e, exterior, after)
          invariant forall a, b :: 0 <= a < nj && a < b < |list| ==>
                    (list[a], list[b]) in after && (list[b], list[a]) in after
          invariant forall b :: nj < b < nk ==> (jj, list[b]) in after && (list[b], jj) in after
        {
          var kk := list[nk];
          MarkPair(jj, kk, after);
          after := after + {(jj, kk)} + {(kk, jj)};
        }
      }
    }

    /** Finds the exterior faces. */
    method MarkExterior()
      requires ValidMesh(|v|, e) && EveryVertexUsed(|v|, e) && exterior == []
      modifies this`exterior
      ensures |exterior| == |e| && FourEach(exterior)
      ensures forall i: nat, f: nat :: i < |e| && f < 4 ==> (exterior[i][f] <==> Kept(e, i, f))
    {
      var elements := e;
      exterior := seq(|e|, i requires 0 <= i < |elements| => seq(|elements[i]|, _ => true));
      ghost var pairs: set<(nat, nat)> := {};
      var eleNeighbor := ElementNeighbors();
      hide Marks, SharesAt, Covers, Kept;
      assert Marks(e, exterior, pairs) by { NothingMarked(e, exterior); }
      for ii := 0 to |v|
        invariant PairsOf(|e|, pairs) && Marks(e, exterior, pairs)
        invariant forall x :: 0 <= x < ii ==> Covers(pairs, eleNeighbor[x])
      {
        NeighborsUsable(|v|, e, eleNeighbor, ii);
        ghost var before := pairs;
        pairs := MarkVertex(eleNeighbor[ii], pairs);
        forall x | 0 <= x < ii ensures Covers(pairs, eleNeighbor[x]) { CoversMore(before, pairs, eleNeighbor[x]); }
      }
      MarksShape(e, exterior, pairs);
      forall i: nat, f: nat | i < |e| && f < 4 ensures exterior[i][f] <==> Kept(e, i, f) {
        MarksAreKept(|v|, e, eleNeighbor, exterior, pairs, i, f);
      }
    }

    /** Gives a vertex of the surface its number, the first time it is met. */
    method NumberVertex(vi: nat, ghost seen: set<nat>)
      requires vi < |v| && |vidx| == |v| && Numbered(v, vidx, surfV, seen)
      modifies this`vidx, this`surfV
      ensures |vidx| == |v| && Numbered(v, vidx, surfV, seen + {vi})
    {
      hide Numbered;
      if vidx[vi] < 0 {
        NumberedNew(v, vidx, surfV, seen, vi);
        vidx := vidx[vi := |surfV|];
        surfV := surfV + [v[vi]];
      } else {
        NumberedAgain(v, vidx, surfV, seen, vi);
      }
    }

    /** Numbers the vertices of one exterior face. */
    method NumberFace(ii: nat, fi: nat, ghost faces: seq<Face>)
      requires ValidMesh(|v|, e) && ii < |e| && fi < 4 && FacesOf(e, faces)
      requires |vidx| == |v| && Numbered(v, vidx, surfV, FaceVertices(e, faces))
      modifies this`vidx, this`surfV
      ensures FacesOf(e, faces + [(ii, fi)])
      ensures |vidx| == |v| && Numbered(v, vidx, surfV, FaceVertices(e, faces + [(ii, fi)]))
    {
      hide Numbered, FaceVertices, FacesOf;
      ghost var seen := FaceVertices(e, faces);
      FaceVerticesNext(e, faces, (ii, fi));
      NumberVertex(Corner(e[ii], fi, 0), seen);
      NumberVertex(Corner(e[ii], fi, 1), seen + {Corner(e[ii], fi, 0)});
      NumberVertex(Corner(e[ii], fi, 2), seen + {Corner(e[ii], fi, 0)} + {Corner(e[ii], fi, 1)});
      assert seen + {Corner(e[ii], fi, 0)} + {Corner(e[ii], fi, 1)} + {Corner(e[ii], fi, 2)} ==
             seen + {Corner(e[ii], fi, 0), Corner(e[ii], fi, 1), Corner(e[ii], fi, 2)};
    }

    /** Numbers the vertices of the exterior faces. */
    method SaveVertices()
      requires ValidMesh(|v|, e) && |exterior| == |e| && FourEach(exterior) && vidx == [] && surfV == []
      modifies this`vidx, this`surfV
      ensures FacesOf(e, SurfaceFaces(exterior)) && |vidx| == |v|
      ensures Numbered(v, vidx, surfV, FaceVertices(e, SurfaceFaces(exterior)))
    {
      hide Numbered, FaceVertices, FacesBefore, Proper;
      vidx := seq(|v|, _ => -1);
      NumberedStart(v, vidx);
      NoFaceVertices(e);
      NoFaces(exterior);
      for ii := 0 to |e|
        invariant |vidx| == |v| && FacesOf(e, FacesBefore(exterior, ii, 0))
        invariant Numbered(v, vidx, surfV, FaceVertices(e, FacesBefore(exterior, ii, 0)))
      {
        FacesNext(exterior, ii, 0);
        for fi := 0 to 4
          invariant |vidx| == |v| && FacesOf(e, FacesBefore(exterior, ii, fi))
          invariant Numbered(v, vidx, surfV, FaceVertices(e, FacesBefore(exterior, ii, fi)))
        {
          FacesNext(exterior, ii, fi);
          if exterior[ii][fi] {
            NumberFace(ii, fi, FacesBefore(exterior, ii, fi));
          }
        }
      }
    }

    /** The triangles of the exterior faces. */
    method SaveFaces()
      requires ValidMesh(|v|, e) && |exterior| == |e| && FourEach(exterior) && |vidx| == |v| && surfT == []
      modifies this`surfT
      ensures FacesOf(e, SurfaceFaces(exterior)) && surfT == Triangles(e, vidx, SurfaceFaces(exterior))
    {
      hide FacesBefore, Triangles, Proper;
      NoFaces(exterior);
      NoTriangles(e, vidx);
      for ii := 0 to |e|
        invariant FacesOf(e, FacesBefore(exterior, ii, 0)) && surfT == Triangles(e, vidx, FacesBefore(exterior, ii, 0))
      {
        FacesNext(exterior, ii, 0);
        for fi := 0 to 4
          invariant FacesOf(e, FacesBefore(exterior, ii, fi)) &&
                    surfT == Triangles(e, vidx, FacesBefore(exterior, ii, fi))
        {
          FacesNext(exterior, ii, fi);
          if exterior[ii][fi] {
            TrianglesNext(e, vidx, FacesBefore(exterior, ii, fi), (ii, fi));
            surfT := surfT + [TriangleOf(e, vidx, (ii, fi))];
          }
        }
      }
    }

    /** makeTetSurf, on a mesh whose surface has not been made yet. */
    method MakeTetSurf()
      requires ValidMesh(|v|, e) && EveryVertexUsed(|v|, e)
      requires exterior == [] && vidx == [] && surfV == [] && surfT == []
      modifies this
      ensures v == old(v) && e == old(e)
      ensures IsSurface(v, e, exterior, vidx, surfV, surfT)
    {
      hide Kept, Numbered, FaceVertices, EveryVertexUsed, Triangles;
      MarkExterior();
      SaveVertices();
      SaveFaces();
    }

    /** updateSurfVert: moved vertices are copied to the surface. */
    method UpdateSurfVert(ghost was: seq<Point>, ghost seen: set<nat>)
      requires |was| == |v| && Numbered(was, vidx, surfV, seen)
      modifies this`surfV
      ensures Numbered(v, vidx, surfV, seen)
    {
      ghost var order :| Numbers(was, vidx, surfV, seen, order);
      for ii := 0 to |v|
        invariant |surfV| == |order|
        invariant forall x: nat :: x < ii && vidx[x] >= 0 ==> surfV[vidx[x]] == v[x]
      {
        if vidx[ii] >= 0 {
          surfV := surfV[vidx[ii] := v[ii]];
        }
      }
      assert Numbers(v, vidx, surfV, seen, order);
    }
  }

  lemma ListsGrow(points: nat, e: seq<seq<nat>>, n: nat, before: seq<seq<nat>>, after: seq<seq<nat>>)
    requires n < |e| && IsNeighborList(points, e, n, before) && |after| == points
    requires forall x: nat :: x < points ==> after[x] == before[x] + if x in e[n] then [n] else []
    ensures IsNeighborList(points, e, n + 1, after)
  {
    forall x: nat | x < points
      ensures forall i: nat :: i in after[x] <==> i < n + 1 && x in e[i]
      ensures forall a, b :: 0 <= a < b < |after[x]| ==> after[x][a] < after[x][b]
    {
      forall a | 0 <= a < |before[x]| ensures before[x][a] < n { assert before[x][a] in before[x]; }
    }
  }

  lemma MarksShape(e: seq<seq<nat>>, exterior: seq<seq<bool>>, pairs: set<(nat, nat)>)
    requires PairsOf(|e|, pairs) && AllProper(e) && Marks(e, exterior, pairs)
    ensures |exterior| == |e| && FourEach(exterior)
  {
  }

  lemma NothingMarked(e: seq<seq<nat>>, exterior: seq<seq<bool>>)
    requires AllProper(e) && |exterior| == |e|
    requires forall i :: 0 <= i < |e| ==> exterior[i] == seq(4, _ => true)
    ensures PairsOf(|e|, {}) && Marks(e, exterior, {})
  {
  }

  lemma OverlapSwaps(im: map<nat, nat>, a: seq<nat>, b: seq<nat>)
    requires IsOverlap(im, a, b)
    ensures IsOverlap(im, b, a) && Vertices(a) + Vertices(b) == Vertices(b) + Vertices(a)
  {
  }

  lemma NeighborsUsable(points: nat, e: seq<seq<nat>>, lists: seq<seq<nat>>, x: nat)
    requires IsNeighborList(points, e, |e|, lists) && EveryVertexUsed(points, e) && x < points
    ensures |lists[x]| > 0 && (forall a :: 0 <= a < |lists[x]| ==> lists[x][a] < |e|)
    ensures forall a, b :: 0 <= a < b < |lists[x]| ==> lists[x][a] < lists[x][b]
  {
    assert Used(e, x);
    var i :| 0 <= i < |e| && x in e[i];
    assert i in lists[x];
    forall a | 0 <= a < |lists[x]| ensures lists[x][a] < |e| { assert lists[x][a] in lists[x]; }
  }

  lemma CoversMore(pairs: set<(nat, nat)>, more: set<(nat, nat)>, list: seq<nat>)
    requires pairs <= more && Covers(pairs, list)
    ensures Covers(more, list)
  {
  }

  lemma NoTriangles(e: seq<seq<nat>>, vidx: seq<int>)
    requires forall i, q :: 0 <= i < |e| && 0 <= q < |e[i]| ==> e[i][q] < |vidx|
    ensures Triangles(e, vidx, []) == []
  {
  }

  lemma TrianglesNext(e: seq<seq<nat>>, vidx: seq<int>, faces: seq<Face>, x: Face)
    requires FacesOf(e, faces) && x.0 < |e| && |e[x.0]| == 4 && x.1 < 4
    requires forall i, q :: 0 <= i < |e| && 0 <= q < |e[i]| ==> e[i][q] < |vidx|
    ensures FacesOf(e, faces + [x]) &&
            Triangles(e, vidx, faces + [x]) == Triangles(e, vidx, faces) + [TriangleOf(e, vidx, x)]
  {
    hide TriangleOf;
  }

  lemma NoFaces(exterior: seq<seq<bool>>)
    requires FourEach(exterior)
    ensures FacesBefore(exterior, 0, 0) == []
  {
  }

  lemma NoFaceVertices(e: seq<seq<nat>>)
    ensures FaceVertices(e, []) == {}
  {
  }
}
