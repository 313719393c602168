/** The extracted surface has no boundary. */
module TetSurfaceClosed {
  import opened TetSurface

  // ---------- Counting ----------

  function Count<T>(s: seq<T>, p: T -> bool): (n: nat)
  {
    if s == [] then 0 else Count(s[..|s| - 1], p) + (if p(s[|s| - 1]) then 1 else 0)
  }

  lemma {:induction false} SameCount<T, U>(s: seq<T>, p: T -> bool, t: seq<U>, q: U -> bool)
    requires |s| == |t| && forall k :: 0 <= k < |s| ==> p(s[k]) == q(t[k])
    ensures Count(s, p) == Count(t, q)
  {
    if s != [] { SameCount(s[..|s| - 1], p, t[..|t| - 1], q); }
  }

  ghost predicate Different<T>(s: seq<T>) {
    forall i, j :: 0 <= i < j < |s| ==> s[i] != s[j]
  }

  /** Counting in a list without repetitions is the size of a set. */
  lemma {:induction false} CountIsSize(s: seq<Face>, p: Face -> bool, found: set<Face>)
    requires Different(s) && forall x :: x in found <==> x in s && p(x)
    ensures Count(s, p) == |found|
  {
    if s != [] {
      var front, last := s[..|s| - 1], s[|s| - 1];
      assert s == front + [last] && last !in front;
      CountIsSize(front, p, found - {last});
    } else {
      assert found == {};
    }
  }

  /** Maps in both directions that undo each other give equal sizes. */
  lemma {:induction false} SameSize(s: set<Face>, t: set<Face>, there: map<Face, Face>, back: map<Face, Face>)
    requires s <= there.Keys && t <= back.Keys
    requires forall x :: x in s ==> there[x] in t && back[there[x]] == x
    requires forall y :: y in t ==> back[y] in s && there[back[y]] == y
    ensures |s| == |t|
    decreases |s|
  {
    if s == {} {
      if y :| y in t { assert back[y] in s; }
      assert t == {};
    } else {
      var x :| x in s;
      SameSize(s - {x}, t - {there[x]}, there, back);
    }
  }

  /** The map exchanges the members of s in pairs. */
  ghost predicate Pairs(s: set<Face>, pair: map<Face, Face>) {
    s <= pair.Keys && forall x :: x in s ==> pair[x] in s && pair[x] != x && pair[pair[x]] == x
  }

  /** A pairing without fixed points gives an even size. */
  lemma {:induction false} PairedSize(s: set<Face>, pair: map<Face, Face>)
    requires Pairs(s, pair)
    ensures |s| % 2 == 0
    decreases |s|
  {
    if s != {} {
      var x :| x in s;
      PairedSize(s - {x, pair[x]}, pair);
      assert |s - {x, pair[x]}| == |s| - 2;
    }
  }

  // ---------- Edges of faces ----------

  /** The edge from a to b, in either direction, belongs to face f. */
  predicate HasEdge(t: seq<nat>, f: nat, a: nat, b: nat)
    requires |t| == 4 && f < 4
  {
    OnFace(t, f, a) && OnFace(t, f, b)
  }

  /** b follows a around face f. */
  predicate Follows(t: seq<nat>, f: nat, a: nat, b: nat)
    requires |t| == 4 && f < 4
  {
    || (a == Corner(t, f, 0) && b == Corner(t, f, 1))
    || (a == Corner(t, f, 1) && b == Corner(t, f, 2))
    || (a == Corner(t, f, 2) && b == Corner(t, f, 0))
  }

  /** The other face of the tetrahedron at an edge. */
  function OtherFace(t: seq<nat>, f: nat, a: nat, b: nat): (g: nat)
    requires |t| == 4 && f < 4
    ensures g < 4
  {
    if f != 0 && HasEdge(t, 0, a, b) then 0
    else if f != 1 && HasEdge(t, 1, a, b) then 1
    else if f != 2 && HasEdge(t, 2, a, b) then 2
    else 3
  }

  /** Every edge of a tetrahedron belongs to two of its faces, which run through it in opposite
      directions. */
  lemma OtherFaceWorks(t: seq<nat>, f: nat, a: nat, b: nat)
    requires Proper(t) && f < 4 && a != b && HasEdge(t, f, a, b)
    ensures var g := OtherFace(t, f, a, b);
            && g != f && HasEdge(t, g, a, b) && OtherFace(t, g, a, b) == f
            && (Follows(t, f, a, b) <==> Follows(t, g, b, a))
  {
    if f == 0 || f == 1 { OtherOfFirst(t, f, a, b); } else { OtherOfLast(t, f, a, b); }
  }

  lemma OtherOfFirst(t: seq<nat>, f: nat, a: nat, b: nat)
    requires Proper(t) && f < 2 && a != b && HasEdge(t, f, a, b)
    ensures var g := OtherFace(t, f, a, b);
            && g != f && HasEdge(t, g, a, b) && OtherFace(t, g, a, b) == f
            && (Follows(t, f, a, b) <==> Follows(t, g, b, a))
  {
    if f == 0 {} else {}
  }

  lemma OtherOfLast(t: seq<nat>, f: nat, a: nat, b: nat)
    requires Proper(t) && 2 <= f < 4 && a != b && HasEdge(t, f, a, b)
    ensures var g := OtherFace(t, f, a, b);
            && g != f && HasEdge(t, g, a, b) && OtherFace(t, g, a, b) == f
            && (Follows(t, f, a, b) <==> Follows(t, g, b, a))
  {
    if f == 2 {} else {}
  }

  lemma FollowsIsEdge(t: seq<nat>, f: nat, a: nat, b: nat)
    requires Proper(t) && f < 4
    ensures Follows(t, f, a, b) ==> HasEdge(t, f, a, b) && HasEdge(t, f, b, a) && a != b
    ensures HasEdge(t, f, a, b) && a != b ==> Follows(t, f, a, b) != Follows(t, f, b, a)
  {
  }

  // ---------- The partner of an interior face ----------

  /** No face belongs to three elements. */
  ghost predicate AtMostTwo(e: seq<seq<nat>>)
    requires AllProper(e)
  {
    forall i: nat, k: nat, l: nat, f: nat :: i < |e| && k < |e| && l < |e| && f < 4 && i != k && i != l && k != l ==>
      !(FaceIn(e[i], f, e[k]) && FaceIn(e[i], f, e[l]))
  }

  /** x and y are one face, seen from two elements. */
  ghost predicate Partners(e: seq<seq<nat>>, x: Face, y: Face)
    requires AllProper(e) && x.0 < |e| && y.0 < |e| && x.1 < 4 && y.1 < 4
  {
    x.0 != y.0 && SharesAt(e[x.0], e[y.0], x.1) && SharesAt(e[y.0], e[x.0], y.1)
  }

  /** Partners have the same vertices. */
  lemma PartnersAgree(e: seq<seq<nat>>, x: Face, y: Face, a: nat)
    requires AllProper(e) && x.0 < |e| && y.0 < |e| && x.1 < 4 && y.1 < 4 && Partners(e, x, y)
    ensures OnFace(e[x.0], x.1, a) <==> OnFace(e[y.0], y.1, a)
  {
    FaceAndApex(e[x.0], x.1, a);
    FaceAndApex(e[y.0], y.1, a);
  }

  lemma FaceAndApex(t: seq<nat>, f: nat, a: nat)
    requires Proper(t) && f < 4
    ensures a in t <==> OnFace(t, f, a) || a == t[Opposite(f)]
  {
  }

  lemma HasPartner(e: seq<seq<nat>>, x: Face)
    requires AllProper(e) && x.0 < |e| && x.1 < 4 && !Kept(e, x.0, x.1)
    ensures exists y: Face :: y.0 < |e| && y.1 < 4 && Partners(e, x, y)
  {
    hide SharesAt;
    var k: nat :| k < |e| && k != x.0 && SharesAt(e[x.0], e[k], x.1);
    SharingIsSymmetric(e[x.0], e[k], x.1);
    var g :| 0 <= g < 4 && SharesAt(e[k], e[x.0], g);
    assert Partners(e, x, (k, g));
  }

  /** A face has at most one partner, and a partner is interior. */
  lemma OnePartner(e: seq<seq<nat>>, x: Face, y: Face, z: Face)
    requires AllProper(e) && AtMostTwo(e) && x.0 < |e| && y.0 < |e| && z.0 < |e| && x.1 < 4 && y.1 < 4 && z.1 < 4
    requires Partners(e, x, y) && Partners(e, x, z)
    ensures y == z && !Kept(e, y.0, y.1)
  {
    assert FaceIn(e[x.0], x.1, e[y.0]) && FaceIn(e[x.0], x.1, e[z.0]);
    FiveVertices(e[y.0], e[x.0]);
  }

  /** The faces of all elements. */
  function AllFaces(n: nat): (s: set<Face>)
    ensures forall x :: x in s <==> x.0 < n && x.1 < 4
  {
    if n == 0 then {} else AllFaces(n - 1) + {(n - 1, 0), (n - 1, 1), (n - 1, 2), (n - 1, 3)}
  }

  ghost function Partner(e: seq<seq<nat>>, x: Face): (y: Face)
    requires AllProper(e) && x.0 < |e| && x.1 < 4 && !Kept(e, x.0, x.1)
    ensures y.0 < |e| && y.1 < 4 && Partners(e, x, y)
  {
    HasPartner(e, x);
    var y: Face :| y.0 < |e| && y.1 < 4 && Partners(e, x, y);
    y
  }

  lemma PartnerOfPartner(e: seq<seq<nat>>, x: Face)
    requires AllProper(e) && AtMostTwo(e) && x.0 < |e| && x.1 < 4 && !Kept(e, x.0, x.1)
    ensures var y := Partner(e, x);
            y != x && !Kept(e, y.0, y.1) && Partner(e, y) == x
  {
    hide SharesAt, Kept;
    var y := Partner(e, x);
    OnePartner(e, x, y, y);
    OnePartner(e, y, x, Partner(e, y));
  }

  // ---------- Sets of faces at an edge ----------

  ghost function EdgeFaces(e: seq<seq<nat>>, a: nat, b: nat): (s: set<Face>)
    requires AllProper(e)
  {
    set x | x in AllFaces(|e|) && HasEdge(e[x.0], x.1, a, b)
  }

  ghost function DirectedFaces(e: seq<seq<nat>>, a: nat, b: nat): (s: set<Face>)
    requires AllProper(e)
  {
    set x | x in AllFaces(|e|) && Follows(e[x.0], x.1, a, b)
  }

  ghost function Interior(e: seq<seq<nat>>, s: set<Face>): (r: set<Face>)
    requires AllProper(e) && forall x :: x in s ==> x.0 < |e| && x.1 < 4
  {
    set x | x in s && !Kept(e, x.0, x.1)
  }

  lemma OutsideAndInside(e: seq<seq<nat>>, s: set<Face>)
    requires AllProper(e) && forall x :: x in s ==> x.0 < |e| && x.1 < 4
    ensures |s| == |s - Interior(e, s)| + |Interior(e, s)|
  {
    assert s == (s - Interior(e, s)) + Interior(e, s);
  }

  ghost function OtherFaces(e: seq<seq<nat>>, a: nat, b: nat): (m: map<Face, Face>)
    requires AllProper(e)
  {
    map x | x in AllFaces(|e|) :: (x.0, OtherFace(e[x.0], x.1, a, b))
  }

  ghost function PartnerMap(e: seq<seq<nat>>): (m: map<Face, Face>)
    requires AllProper(e)
  {
    map x | x in AllFaces(|e|) && !Kept(e, x.0, x.1) :: Partner(e, x)
  }

  /** Elements contribute two faces to an edge each; interior faces come in pairs: what is left is
      even. */
  lemma KeptFacesEven(e: seq<seq<nat>>, a: nat, b: nat)
    requires AllProper(e) && AtMostTwo(e) && a != b
    ensures var s := EdgeFaces(e, a, b); |s - Interior(e, s)| % 2 == 0
  {
    hide Kept, EdgeFaces, Interior, OtherFaces, PartnerMap, AtMostTwo;
    var s := EdgeFaces(e, a, b);
    EdgeFacesValid(e, a, b);
    OthersPair(e, a, b);
    PairedSize(s, OtherFaces(e, a, b));
    PartnersPair(e, a, b);
    PairedSize(Interior(e, s), PartnerMap(e));
    OutsideAndInside(e, s);
  }

  lemma EdgeFacesValid(e: seq<seq<nat>>, a: nat, b: nat)
    requires AllProper(e)
    ensures forall x :: x in EdgeFaces(e, a, b) ==> x.0 < |e| && x.1 < 4
    ensures EdgeFaces(e, a, b) <= OtherFaces(e, a, b).Keys
    ensures Interior(e, EdgeFaces(e, a, b)) <= PartnerMap(e).Keys
  {
    hide Kept, HasEdge, Partners;
  }

  lemma OthersPair(e: seq<seq<nat>>, a: nat, b: nat)
    requires AllProper(e) && a != b
    ensures Pairs(EdgeFaces(e, a, b), OtherFaces(e, a, b))
  {
    hide HasEdge, Proper, OtherFace;
    var s, others := EdgeFaces(e, a, b), OtherFaces(e, a, b);
    forall x | x in s ensures others[x] in s && others[x] != x && others[others[x]] == x {
      OtherFaceWorks(e[x.0], x.1, a, b);
    }
  }

  lemma PartnersPair(e: seq<seq<nat>>, a: nat, b: nat)
    requires AllProper(e) && AtMostTwo(e) && forall x :: x in EdgeFaces(e, a, b) ==> x.0 < |e| && x.1 < 4
    ensures Pairs(Interior(e, EdgeFaces(e, a, b)), PartnerMap(e))
  {
    hide Kept, HasEdge, Partners, Proper, AtMostTwo;
    var inner, partners := Interior(e, EdgeFaces(e, a, b)), PartnerMap(e);
    forall x | x in inner ensures partners[x] in inner && partners[x] != x && partners[partners[x]] == x {
      PartnerOfPartner(e, x);
      PartnerEdges(e, x, Partner(e, x), a, b);
    }
  }

  lemma PartnerEdges(e: seq<seq<nat>>, x: Face, y: Face, a: nat, b: nat)
    requires AllProper(e) && x.0 < |e| && y.0 < |e| && x.1 < 4 && y.1 < 4 && Partners(e, x, y)
    ensures HasEdge(e[x.0], x.1, a, b) <==> HasEdge(e[y.0], y.1, a, b)
  {
    hide OnFace, Partners;
    PartnersAgree(e, x, y, a);
    PartnersAgree(e, x, y, b);
  }

  /** Elements that share a face run around it in opposite directions. */
  ghost predicate Oriented(e: seq<seq<nat>>)
    requires AllProper(e)
  {
    forall x: Face, y: Face, a: nat, b: nat :: x.0 < |e| && y.0 < |e| && x.1 < 4 && y.1 < 4 && Partners(e, x, y) ==>
      (Follows(e[x.0], x.1, a, b) <==> Follows(e[y.0], y.1, b, a))
  }

  /** In an oriented mesh directed edges cancel. */
  lemma KeptFacesCancel(e: seq<seq<nat>>, a: nat, b: nat)
    requires AllProper(e) && AtMostTwo(e) && Oriented(e)
    ensures var s, t := DirectedFaces(e, a, b), DirectedFaces(e, b, a);
            |s - Interior(e, s)| == |t - Interior(e, t)|
  {
    hide Kept, HasEdge, Follows, Partners, SharesAt, Proper, OtherFace, AtMostTwo;
    var s, t := DirectedFaces(e, a, b), DirectedFaces(e, b, a);
    OtherDirection(e, a, b);
    OtherDirection(e, b, a);
    SameSize(s, t, OtherFaces(e, a, b), OtherFaces(e, b, a));
    var inner, outer := Interior(e, s), Interior(e, t);
    PartnerDirection(e, a, b);
    PartnerDirection(e, b, a);
    SameSize(inner, outer, PartnerMap(e), PartnerMap(e));
    OutsideAndInside(e, s);
    OutsideAndInside(e, t);
  }

  lemma OtherDirection(e: seq<seq<nat>>, a: nat, b: nat)
    requires AllProper(e)
    ensures forall x :: x in DirectedFaces(e, a, b) ==>
              var y := OtherFaces(e, a, b)[x];
              y in DirectedFaces(e, b, a) && OtherFaces(e, b, a)[y] == x
  {
    hide HasEdge, Follows, Proper, OtherFace;
    forall x | x in DirectedFaces(e, a, b)
      ensures var y := OtherFaces(e, a, b)[x];
              y in DirectedFaces(e, b, a) && OtherFaces(e, b, a)[y] == x {
      FollowsIsEdge(e[x.0], x.1, a, b);
      OtherFaceWorks(e[x.0], x.1, a, b);
      OtherFaceSymmetric(e[x.0], OtherFace(e[x.0], x.1, a, b), a, b);
    }
  }

  lemma OtherFaceSymmetric(t: seq<nat>, f: nat, a: nat, b: nat)
    requires |t| == 4 && f < 4
    ensures OtherFace(t, f, a, b) == OtherFace(t, f, b, a)
  {
    hide OnFace;
  }

  lemma PartnerDirection(e: seq<seq<nat>>, a: nat, b: nat)
    requires AllProper(e) && AtMostTwo(e) && Oriented(e)
    ensures forall x :: x in Interior(e, DirectedFaces(e, a, b)) ==>
              x in PartnerMap(e) && PartnerMap(e)[x] in Interior(e, DirectedFaces(e, b, a)) &&
              PartnerMap(e)[x] in PartnerMap(e) && PartnerMap(e)[PartnerMap(e)[x]] == x
  {
    hide Kept, Follows, Partners, SharesAt, Proper, AtMostTwo;
    forall x | x in Interior(e, DirectedFaces(e, a, b))
      ensures x in PartnerMap(e) && PartnerMap(e)[x] in Interior(e, DirectedFaces(e, b, a)) &&
              PartnerMap(e)[x] in PartnerMap(e) && PartnerMap(e)[PartnerMap(e)[x]] == x {
      PartnerOfPartner(e, x);
    }
  }

  // ---------- The surface ----------

  lemma {:induction false} FacesBeforeIn(exterior: seq<seq<bool>>, i: nat, f: nat)
    requires FourEach(exterior) && f <= 4 && (i < |exterior| || (i == |exterior| && f == 0))
    ensures Different(FacesBefore(exterior, i, f))
    ensures forall x: Face ::
              x.0 < |exterior| && x.1 < 4 && exterior[x.0][x.1] && (x.0 < i || (x.0 == i && x.1 < f)) ==>
                x in FacesBefore(exterior, i, f)
    decreases i, f
  {
    if f > 0 {
      FacesBeforeIn(exterior, i, f - 1);
      var front := FacesBefore(exterior, i, f - 1);
      assert (i, f - 1) !in front;
    } else if i > 0 {
      FacesBeforeIn(exterior, i - 1, 4);
    }
  }

  predicate Has(t: Triangle, p: int) {
    t.0 == p || t.1 == p || t.2 == p
  }

  predicate Turns(t: Triangle, p: int, q: int) {
    (t.0 == p && t.1 == q) || (t.1 == p && t.2 == q) || (t.2 == p && t.0 == q)
  }

  /** How many surface triangles contain both vertices. */
  function EdgeCount(tris: seq<Triangle>, p: int, q: int): (n: nat)
  {
    Count(tris, (t: Triangle) => Has(t, p) && Has(t, q))
  }

  /** In how many surface triangles q follows p. */
  function DirectedCount(tris: seq<Triangle>, p: int, q: int): (n: nat)
  {
    Count(tris, (t: Triangle) => Turns(t, p, q))
  }

  /** A triangle contains the number of a vertex exactly when its face contains the vertex. */
  lemma CornerNumbers(v: seq<Point>, e: seq<seq<nat>>, vidx: seq<int>, surfV: seq<Point>, faces: seq<Face>, x: Face,
                      a: nat, b: nat)
    requires ValidMesh(|v|, e) && |vidx| == |v| && FacesOf(e, faces) && x in faces
    requires Numbered(v, vidx, surfV, FaceVertices(e, faces)) && a < |v| && b < |v|
    requires a in FaceVertices(e, faces) && b in FaceVertices(e, faces)
    ensures Has(TriangleOf(e, vidx, x), vidx[a]) <==> OnFace(e[x.0], x.1, a)
    ensures Turns(TriangleOf(e, vidx, x), vidx[a], vidx[b]) <==> Follows(e[x.0], x.1, a, b)
  {
    hide Numbered, FaceVertices;
    NumberedBijection(v, vidx, surfV, FaceVertices(e, faces));
    forall k | 0 <= k < 3 ensures Corner(e[x.0], x.1, k) in FaceVertices(e, faces) {
      FaceVerticesIn(e, faces, Corner(e[x.0], x.1, k));
      assert OnFace(e[x.0], x.1, Corner(e[x.0], x.1, k));
    }
  }

  lemma KeptSet(e: seq<seq<nat>>, exterior: seq<seq<bool>>, s: set<Face>)
    requires AllProper(e) && |exterior| == |e| && FourEach(exterior) && forall x :: x in s ==> x.0 < |e| && x.1 < 4
    requires forall i: nat, f: nat :: i < |e| && f < 4 ==> (exterior[i][f] <==> Kept(e, i, f))
    ensures Different(SurfaceFaces(exterior))
    ensures forall x :: x in s - Interior(e, s) <==> x in SurfaceFaces(exterior) && x in s
  {
    hide Kept, FacesBefore;
    FacesBeforeIn(exterior, |exterior|, 0);
  }

  lemma SurfaceVertex(v: seq<Point>, e: seq<seq<nat>>, exterior: seq<seq<bool>>, vidx: seq<int>, surfV: seq<Point>,
                      surfT: seq<Triangle>, p: nat)
      returns (a: nat)
    requires IsSurface(v, e, exterior, vidx, surfV, surfT) && p < |surfV|
    ensures a < |v| && a in FaceVertices(e, SurfaceFaces(exterior)) && vidx[a] == p
  {
    hide Numbered, FaceVertices;
    NumberedBijection(v, vidx, surfV, FaceVertices(e, SurfaceFaces(exterior)));
    assert IsNumber(vidx, FaceVertices(e, SurfaceFaces(exterior)), p);
    a :| a < |vidx| && a in FaceVertices(e, SurfaceFaces(exterior)) && vidx[a] == p;
  }

  /** The surface is closed: every edge lies in an even number of its triangles. */
  lemma SurfaceIsClosed(v: seq<Point>, e: seq<seq<nat>>, exterior: seq<seq<bool>>, vidx: seq<int>, surfV: seq<Point>,
                        surfT: seq<Triangle>,
                        p: nat, q: nat)
    requires IsSurface(v, e, exterior, vidx, surfV, surfT) && AtMostTwo(e) && p < |surfV| && q < |surfV| && p != q
    ensures EdgeCount(surfT, p, q) % 2 == 0
  {
    hide Numbered, FaceVertices, FacesBefore, Kept, HasEdge, AtMostTwo, Has, OnFace, Proper, TriangleOf;
    var a := SurfaceVertex(v, e, exterior, vidx, surfV, surfT, p);
    var b := SurfaceVertex(v, e, exterior, vidx, surfV, surfT, q);
    var faces, s := SurfaceFaces(exterior), EdgeFaces(e, a, b);
    KeptFacesEven(e, a, b);
    KeptSet(e, exterior, s);
    CountIsSize(faces, x => x in s, s - Interior(e, s));
    forall k | 0 <= k < |faces| ensures (Has(surfT[k], p) && Has(surfT[k], q)) == (faces[k] in s) {
      CornerNumbers(v, e, vidx, surfV, faces, faces[k], a, b);
      CornerNumbers(v, e, vidx, surfV, faces, faces[k], b, a);
      EdgeMember(e, faces[k], a, b);
    }
    SameCount(surfT, (t: Triangle) => Has(t, p) && Has(t, q), faces, x => x in s);
  }

  lemma EdgeMember(e: seq<seq<nat>>, x: Face, a: nat, b: nat)
    requires AllProper(e) && x.0 < |e| && x.1 < 4
    ensures x in EdgeFaces(e, a, b) <==> OnFace(e[x.0], x.1, a) && OnFace(e[x.0], x.1, b)
    ensures x in DirectedFaces(e, a, b) <==> Follows(e[x.0], x.1, a, b)
  {
    hide OnFace, Follows;
  }

  /** If elements that share a face orient it oppositely, the surface is oriented: every edge is run
      through equally often in both directions. */
  lemma SurfaceIsOriented(v: seq<Point>, e: seq<seq<nat>>, exterior: seq<seq<bool>>, vidx: seq<int>, surfV: seq<Point>,
                          surfT: seq<Triangle>,
                          p: nat, q: nat)
    requires IsSurface(v, e, exterior, vidx, surfV, surfT) && AtMostTwo(e) && Oriented(e) && p < |surfV| && q < |surfV|
    ensures DirectedCount(surfT, p, q) == DirectedCount(surfT, q, p)
  {
    hide Numbered, FaceVertices, FacesBefore, Kept, Follows, Turns, AtMostTwo, Oriented, Has, OnFace, Proper,
      TriangleOf;
    var a := SurfaceVertex(v, e, exterior, vidx, surfV, surfT, p);
    var b := SurfaceVertex(v, e, exterior, vidx, surfV, surfT, q);
    KeptFacesCancel(e, a, b);
    DirectedIsSize(v, e, exterior, vidx, surfV, surfT, a, b);
    DirectedIsSize(v, e, exterior, vidx, surfV, surfT, b, a);
  }

  lemma DirectedIsSize(v: seq<Point>, e: seq<seq<nat>>, exterior: seq<seq<bool>>, vidx: seq<int>, surfV: seq<Point>,
                       surfT: seq<Triangle>,
                       a: nat, b: nat)
    requires IsSurface(v, e, exterior, vidx, surfV, surfT) && a < |v| && b < |v|
    requires a in FaceVertices(e, SurfaceFaces(exterior)) && b in FaceVertices(e, SurfaceFaces(exterior))
    ensures var s := DirectedFaces(e, a, b);
            DirectedCount(surfT, vidx[a], vidx[b]) == |s - Interior(e, s)|
  {
    hide Numbered, FaceVertices, FacesBefore, Kept, Follows, Turns, Has, OnFace, Proper, TriangleOf;
    var faces, s := SurfaceFaces(exterior), DirectedFaces(e, a, b);
    KeptSet(e, exterior, s);
    CountIsSize(faces, x => x in s, s - Interior(e, s));
    forall k | 0 <= k < |faces| ensures Turns(surfT[k], vidx[a], vidx[b]) == (faces[k] in s) {
      CornerNumbers(v, e, vidx, surfV, faces, faces[k], a, b);
      EdgeMember(e, faces[k], a, b);
    }
    SameCount(surfT, (t: Triangle) => Turns(t, vidx[a], vidx[b]), faces, x => x in s);
  }

  /** If no face belongs to three elements, exactly the faces are kept that no other element has if and only
      if there are no duplicates. */
  lemma KeepsSurfaceUnlessDuplicated(points: nat, e: seq<seq<nat>>)
    requires ValidMesh(points, e) && AtMostTwo(e)
    ensures KeepsSurface(e) <==> NoDuplicates(e)
  {
    hide Vertices, Kept, OnlyIn, AtMostTwo;
    KeepsSurfaceExactly(points, e);
    forall i: nat, k: nat | Twins(e, i, k) ensures !Covered(e, i, 0) { TwinUncovered(e, i, k); }
    if !NoDuplicates(e) {
      var i, k :| 0 <= i < k < |e| && Vertices(e[i]) == Vertices(e[k]);
      assert Twins(e, i, k);
    }
  }

  lemma TwinUncovered(e: seq<seq<nat>>, i: nat, k: nat)
    requires AllProper(e) && AtMostTwo(e) && Twins(e, i, k)
    ensures !Covered(e, i, 0)
  {
    TwinHasFaces(e[i], e[k], 0);
    TwinHasFaces(e[i], e[i], 0);
  }
}
