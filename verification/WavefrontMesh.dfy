/**
  The mesh reader of designs.ts: `parseWavefrontObj`, from the tokens of each line on.

  A number that does not parse is None.  Without a vertex the bounds stay infinite, here None.
*/
module WavefrontMesh {
  import opened Wrappers

  datatype Line =
    | VertexLine(parts: seq<Option<real>>)
    | FaceLine(refs: seq<Option<int>>)
    | OtherLine

  datatype Vertex = Vertex(x: real, y: real, z: real)

  datatype Range = Range(min: real, max: real)

  datatype Bounds = Bounds(x: Range, y: Range, z: Range)

  type Edge = (int, int)

  datatype Mesh = Mesh(vertices: seq<Vertex>, faces: seq<seq<int>>, wireframeEdges: seq<Edge>, bounds: Option<Bounds>)

  // ---- lines ------------------------------------------------------------------------------------

  predicate AcceptsVertex(parts: seq<Option<real>>) {
    |parts| >= 3 && forall p :: p in parts ==> p.Some?
  }

  function VertexAt(parts: seq<Option<real>>): Vertex
    requires AcceptsVertex(parts)
  {
    assert parts[0] in parts && parts[1] in parts && parts[2] in parts;
    Vertex(parts[0].value, parts[1].value, parts[2].value)
  }

  /** A positive reference counts from one, any other back from the vertices read so far. */
  function Index(ref: int, vertexCount: nat): int {
    if ref > 0 then ref - 1 else vertexCount + ref
  }

  function FaceIndices(refs: seq<Option<int>>, vertexCount: nat): seq<int> {
    if refs == [] then [] else
      var n := |refs| - 1;
      FaceIndices(refs[..n], vertexCount) + (if refs[n].Some? then [Index(refs[n].value, vertexCount)] else [])
  }

  function VerticesOf(lines: seq<Line>): seq<Vertex> {
    if lines == [] then [] else
      var n := |lines| - 1;
      VerticesOf(lines[..n]) +
      (match lines[n]
       case VertexLine(parts) =>
         (if AcceptsVertex(parts) then [VertexAt(parts)] else [])
       case _ => [])
  }

  function FacesOf(lines: seq<Line>): (faces: seq<seq<int>>)
    ensures forall f :: f in faces ==> |f| >= 3
  {
    if lines == [] then [] else
      var n := |lines| - 1;
      FacesOf(lines[..n]) +
      (match lines[n]
       case FaceLine(refs) =>
         (var f := FaceIndices(refs, |VerticesOf(lines[..n])|); if |f| >= 3 then [f] else [])
       case _ => [])
  }

  lemma NextLine(lines: seq<Line>, i: nat)
    requires i < |lines|
    ensures VerticesOf(lines[..i + 1]) == VerticesOf(lines[..i]) +
              (if lines[i].VertexLine? && AcceptsVertex(lines[i].parts) then [VertexAt(lines[i].parts)] else [])
    ensures FacesOf(lines[..i + 1]) == FacesOf(lines[..i]) +
              (if lines[i].FaceLine? && |FaceIndices(lines[i].refs, |VerticesOf(lines[..i])|)| >= 3
               then [FaceIndices(lines[i].refs, |VerticesOf(lines[..i])|)] else [])
  {
    assert lines[..i + 1][..i] == lines[..i];
  }

  // ---- edges --------------------------------------------------------------------------------------

  /** The two orientations of an edge are one. */
  function Unordered(e: Edge): Edge {
    if e.0 < e.1 then e else (e.1, e.0)
  }

  function Side(f: seq<int>, i: nat): Edge
    requires i < |f|
  {
    (f[i], f[(i + 1) % |f|])
  }

  predicate Drawn(edges: seq<Edge>, e: Edge) {
    exists d :: d in edges && Unordered(d) == Unordered(e)
  }

  /** An edge is appended unless it is there in either orientation. */
  function Draw(edges: seq<Edge>, e: Edge): seq<Edge> {
    if Drawn(edges, e) then edges else edges + [e]
  }

  function DrawSides(edges: seq<Edge>, f: seq<int>, n: nat): seq<Edge>
    requires n <= |f|
  {
    if n == 0 then edges else Draw(DrawSides(edges, f, n - 1), Side(f, n - 1))
  }

  function EdgesOf(faces: seq<seq<int>>): seq<Edge> {
    if faces == [] then [] else
      var n := |faces| - 1;
      DrawSides(EdgesOf(faces[..n]), faces[n], |faces[n]|)
  }

  ghost predicate NoEdgeTwice(edges: seq<Edge>) {
    forall i, j :: 0 <= i < j < |edges| ==> Unordered(edges[i]) != Unordered(edges[j])
  }

  lemma DrawKeeps(edges: seq<Edge>, e: Edge)
    requires NoEdgeTwice(edges)
    ensures NoEdgeTwice(Draw(edges, e))
    ensures forall d :: Drawn(Draw(edges, e), d) <==> Drawn(edges, d) || Unordered(d) == Unordered(e)
  {
  }

  /** One of the first n sides of the face, in either orientation. */
  ghost predicate IsSideOf(f: seq<int>, n: nat, e: Edge)
    requires n <= |f|
  {
    exists i :: 0 <= i < n && Unordered(Side(f, i)) == Unordered(e)
  }

  /** The side of some face of the list, in either orientation. */
  ghost predicate IsSide(faces: seq<seq<int>>, e: Edge) {
    exists f :: f in faces && IsSideOf(f, |f|, e)
  }

  lemma {:induction false} SidesAreDrawn(edges: seq<Edge>, f: seq<int>, n: nat)
    requires n <= |f| && NoEdgeTwice(edges)
    ensures NoEdgeTwice(DrawSides(edges, f, n))
    ensures forall e :: Drawn(DrawSides(edges, f, n), e) <==> Drawn(edges, e) || IsSideOf(f, n, e)
  {
    if n > 0 {
      SidesAreDrawn(edges, f, n - 1);
      DrawKeeps(DrawSides(edges, f, n - 1), Side(f, n - 1));
      forall e ensures IsSideOf(f, n, e) <==> IsSideOf(f, n - 1, e) || Unordered(Side(f, n - 1)) == Unordered(e) {
        OneMoreSide(f, n, e);
      }
    }
  }

  lemma OneMoreSide(f: seq<int>, n: nat, e: Edge)
    requires 0 < n <= |f|
    ensures IsSideOf(f, n, e) <==> IsSideOf(f, n - 1, e) || Unordered(Side(f, n - 1)) == Unordered(e)
  {
  }

  /** The wireframe holds each side of each face exactly once, whatever its orientation, and nothing else. */
  lemma {:induction false} WireframeIsExact(faces: seq<seq<int>>)
    ensures NoEdgeTwice(EdgesOf(faces))
    ensures forall e :: Drawn(EdgesOf(faces), e) <==> IsSide(faces, e)
  {
    if faces != [] {
      var n := |faces| - 1;
      WireframeIsExact(faces[..n]);
      SidesAreDrawn(EdgesOf(faces[..n]), faces[n], |faces[n]|);
      assert faces == faces[..n] + [faces[n]];
      forall e ensures Drawn(EdgesOf(faces), e) <==> IsSide(faces, e) {
        if IsSide(faces[..n], e) {
          var f :| f in faces[..n] && IsSideOf(f, |f|, e);
          assert f in faces;
        }
      }
    }
  }

  /** Every edge joins two consecutive corners of a face in the direction the face runs. */
  lemma {:induction false} EdgesRunWithFaces(faces: seq<seq<int>>)
    ensures forall e :: e in EdgesOf(faces) ==> exists f, i :: f in faces && 0 <= i < |f| && e == Side(f, i)
  {
    if faces != [] {
      var n := |faces| - 1;
      EdgesRunWithFaces(faces[..n]);
      SidesRunWithFace(EdgesOf(faces[..n]), faces[n], |faces[n]|);
      assert faces == faces[..n] + [faces[n]];
      forall e | e in EdgesOf(faces[..n]) ensures exists f, i :: f in faces && 0 <= i < |f| && e == Side(f, i) {
        var f, i :| f in faces[..n] && 0 <= i < |f| && e == Side(f, i);
        assert f in faces;
      }
    }
  }

  lemma {:induction false} SidesRunWithFace(edges: seq<Edge>, f: seq<int>, n: nat)
    requires n <= |f|
    ensures forall e :: e in DrawSides(edges, f, n) ==> e in edges || exists i :: 0 <= i < n && e == Side(f, i)
  {
    if n > 0 {
      SidesRunWithFace(edges, f, n - 1);
    }
  }

  // ---- bounds ---------------------------------------------------------------------------------------

  /** The range holds every number and has both ends among them. */
  ghost predicate IsRange(numbers: seq<real>, r: Range) {
    && (forall a :: a in numbers ==> r.min <= a <= r.max)
    && r.min in numbers && r.max in numbers
  }

  function Xs(vs: seq<Vertex>): seq<real> {
    seq(|vs|, i requires 0 <= i < |vs| => vs[i].x)
  }

  function Ys(vs: seq<Vertex>): seq<real> {
    seq(|vs|, i requires 0 <= i < |vs| => vs[i].y)
  }

  function Zs(vs: seq<Vertex>): seq<real> {
    seq(|vs|, i requires 0 <= i < |vs| => vs[i].z)
  }

  /** In each of the three directions the bounds hold every vertex and are attained. */
  ghost predicate Encloses(b: Bounds, vs: seq<Vertex>) {
    IsRange(Xs(vs), b.x) && IsRange(Ys(vs), b.y) && IsRange(Zs(vs), b.z)
  }

  function Widened(r: Range, a: real): Range {
    Range(if a < r.min then a else r.min, if a > r.max then a else r.max)
  }

  lemma OneIsEnclosed(v: Vertex)
    ensures Encloses(Bounds(Range(v.x, v.x), Range(v.y, v.y), Range(v.z, v.z)), [v])
  {
    assert Xs([v]) == [v.x] && Ys([v]) == [v.y] && Zs([v]) == [v.z];
  }

  lemma WidenedEncloses(b: Bounds, vs: seq<Vertex>, v: Vertex)
    requires Encloses(b, vs)
    ensures Encloses(Bounds(Widened(b.x, v.x), Widened(b.y, v.y), Widened(b.z, v.z)), vs + [v])
  {
    assert Xs(vs + [v]) == Xs(vs) + [v.x];
    assert Ys(vs + [v]) == Ys(vs) + [v.y];
    assert Zs(vs + [v]) == Zs(vs) + [v.z];
  }

  method MeasureBounds(vertices: seq<Vertex>) returns (bounds: Option<Bounds>)
    ensures bounds.None? <==> vertices == []
    ensures bounds.Some? ==> Encloses(bounds.value, vertices)
  {
    if |vertices| == 0 {
      return None;
    }
    var v := vertices[0];
    var x, y, z := Range(v.x, v.x), Range(v.y, v.y), Range(v.z, v.z);
    assert vertices[..1] == [v];
    OneIsEnclosed(v);
    for i := 1 to |vertices|
      invariant Encloses(Bounds(x, y, z), vertices[..i])
    {
      v := vertices[i];
      WidenedEncloses(Bounds(x, y, z), vertices[..i], v);
      assert vertices[..i + 1] == vertices[..i] + [v];
      x, y, z := Widened(x, v.x), Widened(y, v.y), Widened(z, v.z);
    }
    assert vertices[..|vertices|] == vertices;
    bounds := Some(Bounds(x, y, z));
  }

  // ---- the loops --------------------------------------------------------------------------------------

  method ReadFace(refs: seq<Option<int>>, vertexCount: nat) returns (faceIndices: seq<int>)
    ensures faceIndices == FaceIndices(refs, vertexCount)
  {
    faceIndices := [];
    for k := 0 to |refs|
      invariant faceIndices == FaceIndices(refs[..k], vertexCount)
    {
      assert refs[..k + 1][..k] == refs[..k];
      if refs[k].Some? {
        var vIdx := refs[k].value;
        var index := if vIdx > 0 then vIdx - 1 else vertexCount + vIdx;
        faceIndices := faceIndices + [index];
      }
    }
    assert refs[..|refs|] == refs;
  }

  /** The edge set holds the key of every edge drawn so far: its smaller and its larger corner. */
  ghost predicate Keys(edgeSet: set<Edge>, edges: seq<Edge>) {
    forall e: Edge :: Unordered(e) in edgeSet <==> Drawn(edges, e)
  }

  method DrawFace(f: seq<int>, edges0: seq<Edge>, edgeSet0: set<Edge>) returns (edges: seq<Edge>, edgeSet: set<Edge>)
    requires Keys(edgeSet0, edges0)
    ensures edges == DrawSides(edges0, f, |f|)
    ensures Keys(edgeSet, edges)
  {
    edges, edgeSet := edges0, edgeSet0;
    for i := 0 to |f|
      invariant edges == DrawSides(edges0, f, i)
      invariant Keys(edgeSet, edges)
    {
      var a, b := f[i], f[(i + 1) % |f|];
      var key := if a < b then (a, b) else (b, a);
      assert (a, b) == Side(f, i) && key == Unordered((a, b));
      if key !in edgeSet {
        KeysAfter(edgeSet, edges, (a, b));
        edgeSet := edgeSet + {key};
        edges := edges + [(a, b)];
      }
    }
  }

  lemma KeysAfter(edgeSet: set<Edge>, edges: seq<Edge>, e: Edge)
    requires Keys(edgeSet, edges)
    ensures Keys(edgeSet + {Unordered(e)}, edges + [e])
  {
  }

  method ParseWavefrontObj(lines: seq<Line>) returns (mesh: Mesh)
    ensures mesh.vertices == VerticesOf(lines) && mesh.faces == FacesOf(lines)
    ensures mesh.wireframeEdges == EdgesOf(mesh.faces)
    ensures mesh.bounds.None? <==> mesh.vertices == []
    ensures mesh.bounds.Some? ==> Encloses(mesh.bounds.value, mesh.vertices)
  {
    var rawVertices: seq<Vertex> := [];
    var faces: seq<seq<int>> := [];
    var wireframeEdges: seq<Edge> := [];
    var edgeSet: set<Edge> := {};
    for i := 0 to |lines|
      invariant rawVertices == VerticesOf(lines[..i]) && faces == FacesOf(lines[..i])
      invariant wireframeEdges == EdgesOf(faces)
      invariant Keys(edgeSet, wireframeEdges)
    {
      NextLine(lines, i);
      match lines[i]
      case VertexLine(parts) =>
        if AcceptsVertex(parts) {
          rawVertices := rawVertices + [VertexAt(parts)];
        }
      case FaceLine(refs) =>
        var faceIndices := ReadFace(refs, |rawVertices|);
        if |faceIndices| >= 3 {
          faces := faces + [faceIndices];
          wireframeEdges, edgeSet := DrawFace(faceIndices, wireframeEdges, edgeSet);
        }
      case OtherLine =>
    }
    assert lines[..|lines|] == lines;
    var bounds := MeasureBounds(rawVertices);
    mesh := Mesh(rawVertices, faces, wireframeEdges, bounds);
  }

  // ---- what each line adds --------------------------------------------------------------------

  /** A vertex line adds its first three numbers as x, y and z, when there are three and all can be read. */
  lemma {:induction false} VertexLineAdds(lines: seq<Line>, parts: seq<Option<real>>)
    ensures FacesOf(lines + [VertexLine(parts)]) == FacesOf(lines)
    ensures |parts| < 3 || None in parts ==> VerticesOf(lines + [VertexLine(parts)]) == VerticesOf(lines)
    ensures |parts| >= 3 && None !in parts ==>
              exists v :: VerticesOf(lines + [VertexLine(parts)]) == VerticesOf(lines) + [v] && IsAt(v, parts)
  {
    assert (lines + [VertexLine(parts)])[..|lines|] == lines;
    if |parts| >= 3 && None !in parts {
      assert AcceptsVertex(parts) && IsAt(VertexAt(parts), parts);
    }
  }

  /** The first three numbers of the line, in this order. */
  ghost predicate IsAt(v: Vertex, parts: seq<Option<real>>)
    requires |parts| >= 3
  {
    parts[0] == Some(v.x) && parts[1] == Some(v.y) && parts[2] == Some(v.z)
  }

  /** A face line adds the face its references name, when it has three corners or more; it adds no vertex. */
  lemma {:induction false} FaceLineAdds(lines: seq<Line>, refs: seq<Option<int>>)
    ensures VerticesOf(lines + [FaceLine(refs)]) == VerticesOf(lines)
    ensures var f := FaceIndices(refs, |VerticesOf(lines)|);
      FacesOf(lines + [FaceLine(refs)]) == if |f| >= 3 then FacesOf(lines) + [f] else FacesOf(lines)
    ensures VerticesOf(lines + [OtherLine]) == VerticesOf(lines) && FacesOf(lines + [OtherLine]) == FacesOf(lines)
    ensures VerticesOf([]) == [] && FacesOf([]) == []
  {
    assert (lines + [FaceLine(refs)])[..|lines|] == lines;
    assert (lines + [OtherLine])[..|lines|] == lines;
  }

  /**
    References are read one by one: what cannot be read is skipped, the positive r is the r-th vertex,
    and -r the r-th from the last one read so far.
  */
  lemma {:induction false} ReferencesAreRead(a: seq<Option<int>>, b: seq<Option<int>>, ref: int, n: nat)
    ensures FaceIndices([], n) == [] && FaceIndices([None], n) == []
    ensures ref > 0 ==> FaceIndices([Some(ref)], n) == [ref - 1]
    ensures ref <= 0 ==> FaceIndices([Some(ref)], n) == [n + ref]
    ensures FaceIndices(a + b, n) == FaceIndices(a, n) + FaceIndices(b, n)
    decreases |b|
  {
    var one: seq<Option<int>>, none: seq<Option<int>> := [Some(ref)], [None];
    assert one[..0] == [] && none[..0] == [];
    if b == [] {
      assert a + b == a;
    } else {
      var m := |b| - 1;
      ReferencesAreRead(a, b[..m], ref, n);
      assert (a + b)[..|a| + m] == a + b[..m];
    }
  }

  /** A reference names a vertex read so far exactly when it is not zero and, its sign aside, at most their number. */
  lemma {:induction false} ReferenceNamesVertex(ref: int, n: nat)
    ensures 0 <= FaceIndices([Some(ref)], n)[0] < n <==> ref != 0 && 0 - n <= ref <= n
  {
    ReferencesAreRead([], [], ref, n);
  }

  // ---- the wireframe, in terms of corners ---------------------------------------------------

  /** Corner `b` comes next after corner `a` in the face, the first one after the last. */
  ghost predicate ComesNext(f: seq<int>, a: int, b: int) {
    || (exists i :: 0 <= i < |f| - 1 && f[i] == a && f[i + 1] == b)
    || (f != [] && f[|f| - 1] == a && f[0] == b)
  }

  lemma NextIsSide(f: seq<int>, a: int, b: int)
    ensures ComesNext(f, a, b) <==> exists i :: 0 <= i < |f| && Side(f, i) == (a, b)
  {
    if i :| 0 <= i < |f| - 1 && f[i] == a && f[i + 1] == b {
      SideIs(f, i);
    }
    if f != [] {
      SideIs(f, |f| - 1);
    }
    if i :| 0 <= i < |f| && Side(f, i) == (a, b) {
      SideIs(f, i);
    }
  }

  lemma SideIs(f: seq<int>, i: nat)
    requires i < |f|
    ensures Side(f, i) == (f[i], if i + 1 < |f| then f[i + 1] else f[0])
  {
  }

  lemma UnorderedAlike(d: Edge, e: Edge)
    ensures Unordered(d) == Unordered(e) <==> d == e || d == (e.1, e.0)
  {
  }

  /**
    Two numbers are joined in the wireframe exactly when one comes next after the other in some face;
    every edge runs as a face does, and no two edges join the same two numbers.
  */
  lemma {:induction false} WireframeJoinsCorners(faces: seq<seq<int>>, a: int, b: int)
    ensures var edges := EdgesOf(faces);
      && ((a, b) in edges || (b, a) in edges <==>
            exists f :: f in faces && (ComesNext(f, a, b) || ComesNext(f, b, a)))
      && ((a, b) in edges ==> exists f :: f in faces && ComesNext(f, a, b))
      && forall i, j :: 0 <= i < j < |edges| ==> edges[i] != edges[j] && edges[i] != (edges[j].1, edges[j].0)
  {
    var edges := EdgesOf(faces);
    WireframeIsExact(faces);
    EdgesRunWithFaces(faces);
    forall f: seq<int>, x, y ensures ComesNext(f, x, y) <==> exists i :: 0 <= i < |f| && Side(f, i) == (x, y) {
      NextIsSide(f, x, y);
    }
    forall d: Edge, e: Edge ensures Unordered(d) == Unordered(e) <==> d == e || d == (e.1, e.0) {
      UnorderedAlike(d, e);
    }
    JoinedIffDrawn(edges, a, b);
    SideIffNext(faces, a, b);
    assert Drawn(edges, (a, b)) <==> IsSide(faces, (a, b));
  }

  lemma JoinedIffDrawn(edges: seq<Edge>, a: int, b: int)
    ensures Drawn(edges, (a, b)) <==> (a, b) in edges || (b, a) in edges
  {
    if d :| d in edges && Unordered(d) == Unordered((a, b)) {
      UnorderedAlike(d, (a, b));
    }
    UnorderedAlike((b, a), (a, b));
  }

  lemma SideIffNext(faces: seq<seq<int>>, a: int, b: int)
    ensures IsSide(faces, (a, b)) <==> exists f :: f in faces && (ComesNext(f, a, b) || ComesNext(f, b, a))
  {
    forall f: seq<int> ensures IsSideOf(f, |f|, (a, b)) <==> ComesNext(f, a, b) || ComesNext(f, b, a) {
      NextIsSide(f, a, b);
      NextIsSide(f, b, a);
      forall i | 0 <= i < |f|
        ensures Unordered(Side(f, i)) == Unordered((a, b)) <==> Side(f, i) == (a, b) || Side(f, i) == (b, a)
      {
        UnorderedAlike(Side(f, i), (a, b));
      }
    }
  }
}
