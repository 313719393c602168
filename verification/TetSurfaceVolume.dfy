/** The extracted surface encloses the volume of the mesh, seen from outside. */
module TetSurfaceVolume {
  import opened Vectors
  import opened TetSurface
  import opened TetSurfaceClosed

  ghost predicate InMesh(v: seq<Point>, t: seq<nat>) {
    |t| == 4 && forall q :: 0 <= q < 4 ==> t[q] < |v|
  }

  /** Six times the signed volume of an element. */
  function ElementVolume(v: seq<Point>, t: seq<nat>): (x: real)
    requires InMesh(v, t)
  {
    Tetra(v[t[0]], v[t[1]], v[t[2]], v[t[3]])
  }

  /** A face with the vertex that it leaves out: the vertex lies behind the face where the element has positive
      volume, so the corners of the face run counter-clockwise seen from outside. */
  lemma FaceLooksOut(v: seq<Point>, t: seq<nat>, f: nat)
    requires InMesh(v, t) && f < 4
    ensures Tetra(v[Corner(t, f, 0)], v[Corner(t, f, 1)], v[Corner(t, f, 2)], v[t[Opposite(f)]]) ==
            -ElementVolume(v, t)
  {
    hide Det;
    var a, b, c, d := v[t[0]], v[t[1]], v[t[2]], v[t[3]];
    TetraByCones(a, b, c, d);
    DetSwaps(a, b, c);
    DetSwaps(a, b, d);
    DetSwaps(a, c, d);
    DetSwaps(b, c, d);
    DetTurns(a, b, c);
    DetTurns(a, b, d);
    DetTurns(a, c, d);
    if f == 0 { TetraByCones(a, c, b, d); }
    else if f == 1 { TetraByCones(a, d, c, b); }
    else if f == 2 { TetraByCones(a, b, d, c); }
    else { TetraByCones(b, c, d, a); }
  }

  // ---------- Cones over faces ----------

  /** Six times the signed volume of the cone from the origin over a face. */
  function Cone(v: seq<Point>, t: seq<nat>, f: nat): (x: real)
    requires InMesh(v, t) && f < 4
  {
    Det(v[Corner(t, f, 0)], v[Corner(t, f, 1)], v[Corner(t, f, 2)])
  }

  /** The cones over the faces of an element make up the element. */
  lemma ConesOfElement(v: seq<Point>, t: seq<nat>)
    requires InMesh(v, t)
    ensures Cone(v, t, 0) + Cone(v, t, 1) + Cone(v, t, 2) + Cone(v, t, 3) == ElementVolume(v, t)
  {
    hide Det;
    var a, b, c, d := v[t[0]], v[t[1]], v[t[2]], v[t[3]];
    TetraByCones(a, b, c, d);
    DetSwaps(a, b, c);
    DetSwaps(a, c, d);
  }

  /** A face seen from the other side. */
  lemma PartnerCone(v: seq<Point>, e: seq<seq<nat>>, x: Face, y: Face)
    requires ValidMesh(|v|, e) && Oriented(e) && x.0 < |e| && y.0 < |e| && x.1 < 4 && y.1 < 4 && Partners(e, x, y)
    ensures Cone(v, e[y.0], y.1) == -Cone(v, e[x.0], x.1)
  {
    hide Det, Partners;
    var t, u, f, g := e[x.0], e[y.0], x.1, y.1;
    var a, b, c := Corner(t, f, 0), Corner(t, f, 1), Corner(t, f, 2);
    assert Follows(u, g, b, a) && Follows(u, g, c, b) && Follows(u, g, a, c);
    DetSwaps(v[a], v[b], v[c]);
    DetTurns(v[a], v[c], v[b]);
    DetTurns(v[c], v[b], v[a]);
    FaceIs(u, g, a, b, c);
  }

  lemma FaceIs(u: seq<nat>, g: nat, a: nat, b: nat, c: nat)
    requires Proper(u) && g < 4 && a != b && a != c && b != c
    requires Follows(u, g, b, a) && Follows(u, g, c, b) && Follows(u, g, a, c)
    ensures var p, q, r := Corner(u, g, 0), Corner(u, g, 1), Corner(u, g, 2);
            (p == a && q == c && r == b) || (p == c && q == b && r == a) || (p == b && q == a && r == c)
  {
  }

  // ---------- Sums over faces ----------

  function ConeIn(v: seq<Point>, e: seq<seq<nat>>, s: set<Face>, i: nat, f: nat): (x: real)
    requires i < |e| && InMesh(v, e[i]) && f < 4
  {
    if (i, f) in s then Cone(v, e[i], f) else 0.0
  }

  /** The cones over those faces of the first n elements that are in s. */
  function ConeSum(v: seq<Point>, e: seq<seq<nat>>, s: set<Face>, n: nat): (x: real)
    requires n <= |e| && forall i :: 0 <= i < |e| ==> InMesh(v, e[i])
  {
    if n == 0 then 0.0
    else ConeSum(v, e, s, n - 1) + ConeIn(v, e, s, n - 1, 0) + ConeIn(v, e, s, n - 1, 1) +
         ConeIn(v, e, s, n - 1, 2) + ConeIn(v, e, s, n - 1, 3)
  }

  ghost predicate AllInMesh(v: seq<Point>, e: seq<seq<nat>>) {
    forall i :: 0 <= i < |e| ==> InMesh(v, e[i])
  }

  lemma {:induction false} ConeSumWithout(v: seq<Point>, e: seq<seq<nat>>, s: set<Face>, x: Face, n: nat)
    requires n <= |e| && AllInMesh(v, e) && x in s && x.0 < |e| && x.1 < 4
    ensures ConeSum(v, e, s - {x}, n) == ConeSum(v, e, s, n) - if x.0 < n then Cone(v, e[x.0], x.1) else 0.0
  {
    hide Cone;
    if n > 0 { ConeSumWithout(v, e, s, x, n - 1); }
  }

  lemma {:induction false} ConeSumSplit(v: seq<Point>, e: seq<seq<nat>>, s: set<Face>, t: set<Face>, n: nat)
    requires n <= |e| && AllInMesh(v, e) && s !! t
    ensures ConeSum(v, e, s + t, n) == ConeSum(v, e, s, n) + ConeSum(v, e, t, n)
  {
    hide Cone;
    if n > 0 { ConeSumSplit(v, e, s, t, n - 1); }
  }

  lemma {:induction false} ConeSumNone(v: seq<Point>, e: seq<seq<nat>>, n: nat)
    requires n <= |e| && AllInMesh(v, e)
    ensures ConeSum(v, e, {}, n) == 0.0
  {
    hide Cone;
    if n > 0 { ConeSumNone(v, e, n - 1); }
  }

  /** Faces that come in opposite pairs add up to nothing. */
  lemma {:induction false} ConeSumPaired(v: seq<Point>, e: seq<seq<nat>>, s: set<Face>, pair: map<Face, Face>)
    requires AllInMesh(v, e) && Pairs(s, pair) && forall x :: x in s ==> x.0 < |e| && x.1 < 4
    requires forall x :: x in s ==> Cone(v, e[pair[x].0], pair[x].1) == -Cone(v, e[x.0], x.1)
    ensures ConeSum(v, e, s, |e|) == 0.0
    decreases |s|
  {
    hide Cone, ConeSum;
    if s == {} {
      ConeSumNone(v, e, |e|);
    } else {
      var x :| x in s;
      var y := pair[x];
      var rest := s - {x} - {y};
      ConeSumWithout(v, e, s, x, |e|);
      ConeSumWithout(v, e, s - {x}, y, |e|);
      assert |rest| < |s| by { assert rest < s; Fewer(rest, s); }
      ConeSumPaired(v, e, rest, pair);
    }
  }

  lemma Fewer(a: set<Face>, b: set<Face>)
    requires a < b
    ensures |a| < |b|
  {
    assert b == a + (b - a) && |b - a| > 0;
  }

  /** The volumes of the first n elements, times six. */
  function MeshVolume(v: seq<Point>, e: seq<seq<nat>>, n: nat): (x: real)
    requires n <= |e| && forall i :: 0 <= i < |e| ==> InMesh(v, e[i])
  {
    if n == 0 then 0.0 else MeshVolume(v, e, n - 1) + ElementVolume(v, e[n - 1])
  }

  lemma {:induction false} AllCones(v: seq<Point>, e: seq<seq<nat>>, n: nat)
    requires n <= |e| && AllInMesh(v, e)
    ensures ConeSum(v, e, AllFaces(|e|), n) == MeshVolume(v, e, n)
  {
    hide Cone, ElementVolume, AllFaces;
    if n > 0 {
      AllCones(v, e, n - 1);
      ConesOfElement(v, e[n - 1]);
    }
  }

  /** Interior faces cancel. */
  lemma KeptCones(v: seq<Point>, e: seq<seq<nat>>)
    requires ValidMesh(|v|, e) && AllInMesh(v, e) && AtMostTwo(e) && Oriented(e)
    ensures ConeSum(v, e, AllFaces(|e|) - Interior(e, AllFaces(|e|)), |e|) == MeshVolume(v, e, |e|)
  {
    hide Cone, ConeSum, AllFaces, AtMostTwo, Oriented, Kept, InMesh, Partners, Proper;
    var all := AllFaces(|e|);
    var inner := Interior(e, all);
    forall x | x in inner
      ensures x in PartnerMap(e) && Pairing(v, e, inner, x, PartnerMap(e)[x]) && PartnerMap(e)[PartnerMap(e)[x]] == x {
      PartnerPairs(v, e, x);
    }
    ConeSumPaired(v, e, inner, PartnerMap(e));
    AllCones(v, e, |e|);
    ConeSumSplit(v, e, all - inner, inner, |e|);
    assert all - inner + inner == all;
  }

  ghost predicate Pairing(v: seq<Point>, e: seq<seq<nat>>, inner: set<Face>, x: Face, y: Face)
    requires AllInMesh(v, e) && x.0 < |e| && x.1 < 4
  {
    y in inner && y != x && y.0 < |e| && y.1 < 4 && Cone(v, e[y.0], y.1) == -Cone(v, e[x.0], x.1)
  }

  lemma PartnerPairs(v: seq<Point>, e: seq<seq<nat>>, x: Face)
    requires ValidMesh(|v|, e) && AllInMesh(v, e) && AtMostTwo(e) && Oriented(e) && x in AllFaces(|e|)
    requires !Kept(e, x.0, x.1)
    ensures x in PartnerMap(e) && Pairing(v, e, Interior(e, AllFaces(|e|)), x, PartnerMap(e)[x])
    ensures PartnerMap(e)[x] in PartnerMap(e) && PartnerMap(e)[PartnerMap(e)[x]] == x
  {
    hide Cone, Kept, AtMostTwo, Oriented, Partners, Proper;
    PartnerOfPartner(e, x);
    PartnerCone(v, e, x, Partner(e, x));
  }

  // ---------- The triangles ----------

  predicate Indexed(surfV: seq<Point>, t: Triangle) {
    0 <= t.0 < |surfV| && 0 <= t.1 < |surfV| && 0 <= t.2 < |surfV|
  }

  /** Six times the volume that the triangles enclose: the cones from the origin over them. */
  function EnclosedVolume(surfV: seq<Point>, surfT: seq<Triangle>): (x: real)
    requires forall k :: 0 <= k < |surfT| ==> Indexed(surfV, surfT[k])
  {
    if surfT == [] then 0.0 else
      var t := surfT[|surfT| - 1];
      assert Indexed(surfV, t);
      EnclosedVolume(surfV, surfT[..|surfT| - 1]) + Det(surfV[t.0], surfV[t.1], surfV[t.2])
  }

  /** The cones over listed faces. */
  function ListedCones(v: seq<Point>, e: seq<seq<nat>>, faces: seq<Face>): (x: real)
    requires FacesOf(e, faces) && forall i :: 0 <= i < |e| ==> InMesh(v, e[i])
  {
    if faces == [] then 0.0 else
      var x := faces[|faces| - 1];
      ListedCones(v, e, faces[..|faces| - 1]) + Cone(v, e[x.0], x.1)
  }

  ghost predicate Matches(v: seq<Point>, e: seq<seq<nat>>, surfV: seq<Point>, t: Triangle, x: Face)
    requires x.0 < |e| && InMesh(v, e[x.0]) && x.1 < 4
  {
    && Indexed(surfV, t) && surfV[t.0] == v[Corner(e[x.0], x.1, 0)] && surfV[t.1] == v[Corner(e[x.0], x.1, 1)]
    && surfV[t.2] == v[Corner(e[x.0], x.1, 2)]
  }

  lemma {:induction false} TrianglesAreFaces(v: seq<Point>, e: seq<seq<nat>>, surfV: seq<Point>, surfT: seq<Triangle>,
                                             faces: seq<Face>)
    requires AllInMesh(v, e) && FacesOf(e, faces) && |surfT| == |faces|
    requires forall k :: 0 <= k < |faces| ==> Matches(v, e, surfV, surfT[k], faces[k])
    ensures forall k :: 0 <= k < |surfT| ==> Indexed(surfV, surfT[k])
    ensures EnclosedVolume(surfV, surfT) == ListedCones(v, e, faces)
  {
    hide Det, InMesh, Corner;
    if faces != [] {
      var n := |faces| - 1;
      TrianglesAreFaces(v, e, surfV, surfT[..n], faces[..n]);
      assert Matches(v, e, surfV, surfT[n], faces[n]);
    }
  }

  lemma ListedNext(v: seq<Point>, e: seq<seq<nat>>, faces: seq<Face>, x: Face)
    requires AllInMesh(v, e) && FacesOf(e, faces) && x.0 < |e| && x.1 < 4 && |e[x.0]| == 4
    ensures FacesOf(e, faces + [x]) && ListedCones(v, e, faces + [x]) == ListedCones(v, e, faces) + Cone(v, e[x.0], x.1)
    ensures ListedCones(v, e, []) == 0.0
  {
    hide Cone;
    assert (faces + [x])[..|faces|] == faces;
  }

  /** The exterior faces. */
  ghost function ExteriorSet(exterior: seq<seq<bool>>): (s: set<Face>)
    requires FourEach(exterior)
  {
    set x | x in AllFaces(|exterior|) && x.0 < |exterior| && x.1 < 4 && exterior[x.0][x.1]
  }

  lemma OneFace(v: seq<Point>, e: seq<seq<nat>>, exterior: seq<seq<bool>>, i: nat, f: nat)
    requires AllInMesh(v, e) && |exterior| == |e| && FourEach(exterior) && i < |e| && f < 4
    requires FacesOf(e, FacesBefore(exterior, i, f))
    ensures FacesOf(e, FacesBefore(exterior, i, f + 1))
    ensures ListedCones(v, e, FacesBefore(exterior, i, f + 1)) ==
            ListedCones(v, e, FacesBefore(exterior, i, f)) + ConeIn(v, e, ExteriorSet(exterior), i, f)
  {
    hide Cone, FacesBefore, ListedCones;
    FacesNext(exterior, i, f);
    ListedNext(v, e, FacesBefore(exterior, i, f), (i, f));
  }

  lemma {:induction false} ListedFaces(v: seq<Point>, e: seq<seq<nat>>, exterior: seq<seq<bool>>, n: nat)
    requires AllInMesh(v, e) && |exterior| == |e| && FourEach(exterior) && n <= |e|
    ensures FacesOf(e, FacesBefore(exterior, n, 0))
    ensures ListedCones(v, e, FacesBefore(exterior, n, 0)) == ConeSum(v, e, ExteriorSet(exterior), n)
  {
    hide Cone, FacesBefore, ListedCones, ConeIn, FacesOf, ExteriorSet;
    if n > 0 {
      ListedFaces(v, e, exterior, n - 1);
      OneFace(v, e, exterior, n - 1, 0);
      OneFace(v, e, exterior, n - 1, 1);
      OneFace(v, e, exterior, n - 1, 2);
      OneFace(v, e, exterior, n - 1, 3);
      FacesNext(exterior, n - 1, 0);
    } else {
      NoFaces(exterior);
      NoListed(v, e);
    }
  }

  lemma NoListed(v: seq<Point>, e: seq<seq<nat>>)
    requires AllInMesh(v, e)
    ensures FacesOf(e, []) && ListedCones(v, e, []) == 0.0
  {
  }

  /** The surface encloses exactly the volume of the mesh, with its sign: where elements have positive volume its
      triangles run counter-clockwise seen from outside. */
  lemma SurfaceVolume(v: seq<Point>, e: seq<seq<nat>>, exterior: seq<seq<bool>>, vidx: seq<int>, surfV: seq<Point>,
                      surfT: seq<Triangle>)
    requires IsSurface(v, e, exterior, vidx, surfV, surfT) && AtMostTwo(e) && Oriented(e)
    ensures forall k :: 0 <= k < |surfT| ==> Indexed(surfV, surfT[k])
    ensures AllInMesh(v, e) && EnclosedVolume(surfV, surfT) == MeshVolume(v, e, |e|)
  {
    hide Numbered, FaceVertices, FacesBefore, Kept, AtMostTwo, Oriented, Proper, ListedCones, ConeSum, MeshVolume,
      EnclosedVolume, Matches;
    var faces := SurfaceFaces(exterior);
    forall k | 0 <= k < |faces| ensures Matches(v, e, surfV, surfT[k], faces[k]) {
      TriangleMatches(v, e, vidx, surfV, faces, faces[k]);
    }
    TrianglesAreFaces(v, e, surfV, surfT, faces);
    ListedFaces(v, e, exterior, |e|);
    KeptCones(v, e);
    assert ExteriorSet(exterior) == AllFaces(|e|) - Interior(e, AllFaces(|e|));
  }

  lemma TriangleMatches(v: seq<Point>, e: seq<seq<nat>>, vidx: seq<int>, surfV: seq<Point>, faces: seq<Face>, x: Face)
    requires ValidMesh(|v|, e) && |vidx| == |v| && FacesOf(e, faces) && x in faces
    requires Numbered(v, vidx, surfV, FaceVertices(e, faces))
    ensures InMesh(v, e[x.0]) && Matches(v, e, surfV, TriangleOf(e, vidx, x), x)
  {
    hide Numbered, FaceVertices;
    NumberedBijection(v, vidx, surfV, FaceVertices(e, faces));
    forall k | 0 <= k < 3 ensures Corner(e[x.0], x.1, k) in FaceVertices(e, faces) {
      FaceVerticesIn(e, faces, Corner(e[x.0], x.1, k));
      assert OnFace(e[x.0], x.1, Corner(e[x.0], x.1, k));
    }
  }
}
