/** The vertex and index expansion of Importer::ImportMeshData: every
    triangle of every mesh becomes three fresh MeshData records and three
    consecutive indices.

    The placement transforms are float matrix arithmetic and are passed in
    as opaque functions: `toWorld(placement, p)` stands for the model matrix
    applied to the point p, and `normalToWorld(placement, v)` for the inverse
    transposed model matrix applied to the normal v. */
module MeshImport {
  import opened SceneProxy
  import opened Fbx

  type Placement = (Mat4, Vec3) -> Vec3

  /** The texture coordinate corner t of polygon j ends up with. The loop
      reads three UVs from the first UV set but stores the third one into
      the second corner, over the second one, and never stores one into the
      third corner. */
  function CornerUv(m: Mesh, j: nat, t: nat): Vec2
    requires Triangulated(m) && j < m.polygonCount && t < 3
  {
    if |m.uvSets| == 0 || t == 2 then DefaultMeshData().uv
    else if t == 0 then m.uvSets[0][3 * j]
    else m.uvSets[0][3 * j + 2]
  }

  /** The record built for corner t of polygon j: position from the control
      point that polygon vertex 3j+t names, normal from polygon vertex 3j+t,
      the corner's texture coordinate, and default joint slots. */
  function Corner(m: Mesh, j: nat, t: nat, toWorld: Placement, normalToWorld: Placement): MeshData
    requires Triangulated(m) && j < m.polygonCount && t < 3
  {
    DefaultMeshData().(vertex := toWorld(m.placement, m.controlPoints[m.polygonVertices[3 * j + t]]),
                       normal := normalToWorld(m.placement, m.normals[3 * j + t]),
                       uv := CornerUv(m, j, t))
  }

  /** The records of the first `count` polygons of m, three per polygon. */
  function MeshVertices(m: Mesh, count: nat, toWorld: Placement, normalToWorld: Placement): seq<MeshData>
    requires Triangulated(m) && count <= m.polygonCount
  {
    if count == 0 then []
    else MeshVertices(m, count - 1, toWorld, normalToWorld)
         + [Corner(m, count - 1, 0, toWorld, normalToWorld),
            Corner(m, count - 1, 1, toWorld, normalToWorld),
            Corner(m, count - 1, 2, toWorld, normalToWorld)]
  }

  /** Every mesh of the scene is triangulated. */
  predicate AllTriangulated(meshes: seq<Mesh>)
  {
    forall k :: 0 <= k < |meshes| ==> Triangulated(meshes[k])
  }

  /** The records of all polygons of the first `count` meshes, mesh after
      mesh. */
  function SceneVertices(meshes: seq<Mesh>, count: nat, toWorld: Placement, normalToWorld: Placement): seq<MeshData>
    requires AllTriangulated(meshes) && count <= |meshes|
  {
    if count == 0 then []
    else SceneVertices(meshes, count - 1, toWorld, normalToWorld)
         + MeshVertices(meshes[count - 1], meshes[count - 1].polygonCount, toWorld, normalToWorld)
  }

  /** The number of polygons of the first `count` meshes. */
  function PolygonTotal(meshes: seq<Mesh>, count: nat): nat
    requires count <= |meshes|
  {
    if count == 0 then 0 else PolygonTotal(meshes, count - 1) + meshes[count - 1].polygonCount
  }

  /** Appends the triangles of every mesh to `mesh` and their indices to
      `index`. The function's `return 0` makes it report false. */
  method ImportMeshData(scene: seq<Mesh>, mesh: seq<MeshData>, index: seq<int>,
                        toWorld: Placement, normalToWorld: Placement)
    returns (ok: bool, meshOut: seq<MeshData>, indexOut: seq<int>)
    requires AllTriangulated(scene)
    ensures !ok
    ensures meshOut == mesh + SceneVertices(scene, |scene|, toWorld, normalToWorld)
    ensures |meshOut| - |mesh| == |indexOut| - |index| == 3 * PolygonTotal(scene, |scene|)
    ensures indexOut[..|index|] == index
    ensures forall k :: |index| <= k < |indexOut| ==> indexOut[k] == k
  {
    meshOut, indexOut := mesh, index;
    var i := 0;
    while i < |scene|
      invariant 0 <= i <= |scene|
      invariant meshOut == mesh + SceneVertices(scene, i, toWorld, normalToWorld)
      invariant |indexOut| == |index| + 3 * PolygonTotal(scene, i)
      invariant indexOut[..|index|] == index
      invariant forall k :: |index| <= k < |indexOut| ==> indexOut[k] == k
    {
      var pMesh := scene[i];
      ghost var before := indexOut;
      meshOut, indexOut := ImportPolygons(pMesh, meshOut, indexOut, toWorld, normalToWorld);
      assert indexOut[..|index|] == before[..|index|];
      AppendAssoc(mesh, SceneVertices(scene, i, toWorld, normalToWorld),
                  MeshVertices(pMesh, pMesh.polygonCount, toWorld, normalToWorld));
      assert PolygonTotal(scene, i + 1) == PolygonTotal(scene, i) + pMesh.polygonCount;
      i := i + 1;
    }
    SceneVerticesLength(scene, |scene|, toWorld, normalToWorld);
    ok := false;
  }

  /** The polygon loop of ImportMeshData for one mesh: three indices
      continuing from the current index-list size and three records per
      triangle. */
  method ImportPolygons(pMesh: Mesh, mesh: seq<MeshData>, index: seq<int>,
                        toWorld: Placement, normalToWorld: Placement)
    returns (meshOut: seq<MeshData>, indexOut: seq<int>)
    requires Triangulated(pMesh)
    ensures meshOut == mesh + MeshVertices(pMesh, pMesh.polygonCount, toWorld, normalToWorld)
    ensures |indexOut| == |index| + 3 * pMesh.polygonCount
    ensures indexOut[..|index|] == index
    ensures forall k :: |index| <= k < |indexOut| ==> indexOut[k] == k
  {
    meshOut, indexOut := mesh, index;
    var n := 0 + |indexOut|;
    var j := 0;
    while j < pMesh.polygonCount
      invariant 0 <= j <= pMesh.polygonCount
      invariant meshOut == mesh + MeshVertices(pMesh, j, toWorld, normalToWorld)
      invariant |indexOut| == n + 3 * j
      invariant indexOut[..n] == index
      invariant forall k :: n <= k < |indexOut| ==> indexOut[k] == k
    {
      indexOut := indexOut + [n + 3 * j + 0];
      indexOut := indexOut + [n + 3 * j + 1];
      indexOut := indexOut + [n + 3 * j + 2];

      var p1, p2, p3 := TriangleRecords(pMesh, j, toWorld, normalToWorld);
      AppendThree(mesh, MeshVertices(pMesh, j, toWorld, normalToWorld), p1, p2, p3);
      meshOut := meshOut + [p1];
      meshOut := meshOut + [p2];
      meshOut := meshOut + [p3];
      j := j + 1;
    }
  }

  /** The three vertex records the polygon loop builds for polygon j. */
  method TriangleRecords(pMesh: Mesh, j: nat, toWorld: Placement, normalToWorld: Placement)
    returns (p1: MeshData, p2: MeshData, p3: MeshData)
    requires Triangulated(pMesh) && j < pMesh.polygonCount
    ensures p1 == Corner(pMesh, j, 0, toWorld, normalToWorld)
    ensures p2 == Corner(pMesh, j, 1, toWorld, normalToWorld)
    ensures p3 == Corner(pMesh, j, 2, toWorld, normalToWorld)
  {
    p1, p2, p3 := DefaultMeshData(), DefaultMeshData(), DefaultMeshData();
    p1 := p1.(vertex := toWorld(pMesh.placement, pMesh.controlPoints[pMesh.polygonVertices[3 * j + 0]]));
    p2 := p2.(vertex := toWorld(pMesh.placement, pMesh.controlPoints[pMesh.polygonVertices[3 * j + 1]]));
    p3 := p3.(vertex := toWorld(pMesh.placement, pMesh.controlPoints[pMesh.polygonVertices[3 * j + 2]]));
    p1 := p1.(normal := normalToWorld(pMesh.placement, pMesh.normals[3 * j + 0]));
    p2 := p2.(normal := normalToWorld(pMesh.placement, pMesh.normals[3 * j + 1]));
    p3 := p3.(normal := normalToWorld(pMesh.placement, pMesh.normals[3 * j + 2]));

    if |pMesh.uvSets| > 0 {
      var uv1, uv2, uv3 := pMesh.uvSets[0][3 * j + 0], pMesh.uvSets[0][3 * j + 1], pMesh.uvSets[0][3 * j + 2];
      p1 := p1.(uv := uv1);
      p2 := p2.(uv := uv2);
      p2 := p2.(uv := uv3);
    }
  }

  // ---------------------------------------------------------------------

  lemma AppendThree<T>(a: seq<T>, b: seq<T>, x: T, y: T, z: T)
    ensures a + b + [x] + [y] + [z] == a + (b + [x, y, z])
  {
  }

  lemma ConcatAt<T>(a: seq<T>, b: seq<T>, k: nat)
    requires k < |a| + |b|
    ensures (a + b)[k] == if k < |a| then a[k] else b[k - |a|]
  {
  }

  lemma PrefixOfConcat<T>(a: seq<T>, b: seq<T>, n: nat)
    requires n <= |a|
    ensures (a + b)[..n] == a[..n]
  {
  }

  lemma PrefixAt<T>(s: seq<T>, n: nat, k: nat)
    requires k < n <= |s|
    ensures s[..n][k] == s[k]
  {
  }

  lemma AppendAssoc<T>(a: seq<T>, b: seq<T>, c: seq<T>)
    ensures a + b + c == a + (b + c)
  {
  }

  lemma {:induction false} MeshVerticesLength(m: Mesh, count: nat, f: Placement, g: Placement)
    requires Triangulated(m) && count <= m.polygonCount
    ensures |MeshVertices(m, count, f, g)| == 3 * count
  {
    if count > 0 {
      MeshVerticesLength(m, count - 1, f, g);
    }
  }

  /** Record 3j+t of a mesh's expansion is corner t of polygon j. */
  lemma {:induction false} MeshVertexAt(m: Mesh, count: nat, j: nat, t: nat, f: Placement, g: Placement)
    requires Triangulated(m) && count <= m.polygonCount && j < count && t < 3
    ensures |MeshVertices(m, count, f, g)| == 3 * count
    ensures MeshVertices(m, count, f, g)[3 * j + t] == Corner(m, j, t, f, g)
  {
    MeshVerticesLength(m, count, f, g);
    if j < count - 1 {
      MeshVertexAt(m, count - 1, j, t, f, g);
      assert MeshVertices(m, count, f, g)[3 * j + t] == MeshVertices(m, count - 1, f, g)[3 * j + t];
    } else {
      MeshVerticesLength(m, count - 1, f, g);
    }
  }

  lemma {:induction false} SceneVerticesLength(meshes: seq<Mesh>, count: nat, f: Placement, g: Placement)
    requires AllTriangulated(meshes) && count <= |meshes|
    ensures |SceneVertices(meshes, count, f, g)| == 3 * PolygonTotal(meshes, count)
  {
    if count > 0 {
      var last := meshes[count - 1];
      SceneVerticesLength(meshes, count - 1, f, g);
      MeshVerticesLength(last, last.polygonCount, f, g);
    }
  }

  /** The record at position 3(P + j) + t of the scene's expansion, where P
      counts the polygons of the meshes before mesh i, is corner t of polygon
      j of mesh i; so the index list, which names every position in order,
      draws each mesh's triangles with that mesh's data. */
  lemma SceneVertexAt(scene: seq<Mesh>, count: nat, i: nat, j: nat, t: nat,
                       f: Placement, g: Placement)
    requires AllTriangulated(scene) && count <= |scene| && i < count
    requires j < scene[i].polygonCount && t < 3
    ensures |SceneVertices(scene, count, f, g)| == 3 * PolygonTotal(scene, count)
    ensures 3 * (PolygonTotal(scene, i) + j) + t < 3 * PolygonTotal(scene, count)
    ensures SceneVertices(scene, count, f, g)[3 * (PolygonTotal(scene, i) + j) + t]
              == Corner(scene[i], j, t, f, g)
  {
    var k := 3 * (PolygonTotal(scene, i) + j) + t;
    SceneVerticesLength(scene, count, f, g);
    SceneVerticesPrefix(scene, i + 1, count, f, g);
    MeshInSceneAt(scene, i, j, t, f, g);
    PrefixAt(SceneVertices(scene, count, f, g), |SceneVertices(scene, i + 1, f, g)|, k);
  }

  /** Within the expansion of meshes 0..i, corner t of polygon j of mesh i
      sits after the records of the meshes before it. */
  lemma MeshInSceneAt(scene: seq<Mesh>, i: nat, j: nat, t: nat, f: Placement, g: Placement)
    requires AllTriangulated(scene) && i < |scene| && j < scene[i].polygonCount && t < 3
    ensures 3 * (PolygonTotal(scene, i) + j) + t < |SceneVertices(scene, i + 1, f, g)|
    ensures SceneVertices(scene, i + 1, f, g)[3 * (PolygonTotal(scene, i) + j) + t]
              == Corner(scene[i], j, t, f, g)
  {
    var before := SceneVertices(scene, i, f, g);
    var last := MeshVertices(scene[i], scene[i].polygonCount, f, g);
    SceneVerticesLength(scene, i, f, g);
    MeshVertexAt(scene[i], scene[i].polygonCount, j, t, f, g);
    ConcatAt(before, last, |before| + 3 * j + t);
  }

  /** The expansion of the first m meshes is a prefix of that of the first
      count. */
  lemma {:induction false} SceneVerticesPrefix(scene: seq<Mesh>, m: nat, count: nat, f: Placement, g: Placement)
    requires AllTriangulated(scene) && m <= count <= |scene|
    ensures |SceneVertices(scene, m, f, g)| <= |SceneVertices(scene, count, f, g)|
    ensures SceneVertices(scene, count, f, g)[..|SceneVertices(scene, m, f, g)|] == SceneVertices(scene, m, f, g)
    decreases count - m
  {
    if m < count {
      SceneVerticesPrefix(scene, m, count - 1, f, g);
      var before := SceneVertices(scene, count - 1, f, g);
      var last := MeshVertices(scene[count - 1], scene[count - 1].polygonCount, f, g);
      PrefixOfConcat(before, last, |SceneVertices(scene, m, f, g)|);
    } else {
      var s := SceneVertices(scene, count, f, g);
      assert s[..|s|] == s;
    }
  }

  /** Each corner takes its position from the control point its polygon
      vertex names and its normal from the same polygon vertex; its joint
      slots keep the defaults -1 and 0. */
  lemma CornerData(m: Mesh, j: nat, t: nat, f: Placement, g: Placement)
    requires Triangulated(m) && j < m.polygonCount && t < 3
    ensures |MeshVertices(m, m.polygonCount, f, g)| == 3 * m.polygonCount
    ensures MeshVertices(m, m.polygonCount, f, g)[3 * j + t].vertex
              == f(m.placement, m.controlPoints[m.polygonVertices[3 * j + t]])
    ensures MeshVertices(m, m.polygonCount, f, g)[3 * j + t].normal
              == g(m.placement, m.normals[3 * j + t])
    ensures Influences(MeshVertices(m, m.polygonCount, f, g)[3 * j + t]) == 0
  {
    MeshVertexAt(m, m.polygonCount, j, t, f, g);
    assert Slots(Corner(m, j, t, f, g)) == Slots(DefaultMeshData());
  }

  /** The UV slip: with a UV set, the first corner of polygon j gets UV 3j,
      the second corner gets UV 3j+2 (not 3j+1), and the third keeps the
      default; without one every corner keeps the default. */
  lemma UvSlip(m: Mesh, j: nat, f: Placement, g: Placement)
    requires Triangulated(m) && j < m.polygonCount
    ensures var vs := MeshVertices(m, m.polygonCount, f, g);
            |vs| == 3 * m.polygonCount &&
            if |m.uvSets| > 0 then
              vs[3 * j].uv == m.uvSets[0][3 * j] &&
              vs[3 * j + 1].uv == m.uvSets[0][3 * j + 2] &&
              vs[3 * j + 2].uv == ZeroVec2
            else
              vs[3 * j].uv == vs[3 * j + 1].uv == vs[3 * j + 2].uv == ZeroVec2
  {
    MeshVertexAt(m, m.polygonCount, j, 0, f, g);
    MeshVertexAt(m, m.polygonCount, j, 1, f, g);
    MeshVertexAt(m, m.polygonCount, j, 2, f, g);
  }
}
