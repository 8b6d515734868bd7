/** The external FBX scene as the importer sees it, reduced to values: nodes
    with their attributes, names, a global translation and children; meshes
    with their control points, triangulated polygon-vertex arrays, normals, UV
    sets and deformers. What the FBX SDK computes (transform evaluation,
    triangulation) arrives here already evaluated. */
module Fbx {
  import opened SceneProxy

  /** FbxNodeAttribute::EType. */
  datatype AttributeType =
    | eUnknown | eNull | eMarker | eSkeleton | eMesh | eNurbs | ePatch | eCamera
    | eCameraStereo | eCameraSwitcher | eLight | eOpticalReference | eOpticalMarker
    | eNurbsCurve | eTrimNurbsSurface | eBoundary | eNurbsSurface | eShape
    | eLODGroup | eSubDiv | eCachedEffect | eLine

  datatype NodeAttribute = NodeAttribute(kind: AttributeType, name: string)

  /** An FbxNode: its name, its attributes (the first is the node's default
      attribute), the translation part of its global transform at time 0, and
      its children in order. */
  datatype Node = Node(name: string, attributes: seq<NodeAttribute>,
                       globalTranslation: Vec3, children: seq<Node>)

  /** The test of Importer.cpp:561: the node has a default attribute, its
      type is not eUnknown (the enum's 0), and its type is eSkeleton. The
      middle test is implied by the last. */
  predicate IsSkeletonNode(n: Node): (b: bool)
    ensures b <==> |n.attributes| > 0 && n.attributes[0].kind == eSkeleton
  {
    |n.attributes| > 0 && n.attributes[0].kind != eUnknown && n.attributes[0].kind == eSkeleton
  }

  /** A skin cluster: the name of the joint node it links to, and the control
      points it influences with their weights. */
  datatype Cluster = Cluster(linkName: string, controlPointIndices: seq<int>, weights: seq<real>)

  /** FbxDeformer, by FbxDeformer::EDeformerType. */
  datatype Deformer = Skin(clusters: seq<Cluster>) | BlendShape | VertexCache | UnknownDeformer

  /** A triangulated FbxMesh. `placement` is the model matrix built from the
      mesh node's local translation, rotation and scaling; `polygonVertices`
      is GetPolygonVertices(), three control-point indices per polygon;
      `normals` is GetPolygonVertexNormals(), one per polygon vertex; each UV
      set holds one coordinate per polygon vertex. */
  datatype Mesh = Mesh(name: string, placement: Mat4, controlPoints: seq<Vec3>,
                       polygonCount: nat, polygonVertices: seq<int>, normals: seq<Vec3>,
                       uvSets: seq<seq<Vec2>>, deformers: seq<Deformer>)

  /** What the importer relies on after FbxGeometryConverter::Triangulate:
      three polygon vertices per polygon, each naming an existing control
      point, one normal per polygon vertex, and a full first UV set if any. */
  predicate Triangulated(m: Mesh)
  {
    && |m.polygonVertices| == 3 * m.polygonCount
    && (forall v :: 0 <= v < |m.polygonVertices| ==> 0 <= m.polygonVertices[v] < |m.controlPoints|)
    && |m.normals| >= 3 * m.polygonCount
    && (|m.uvSets| > 0 ==> |m.uvSets[0]| >= 3 * m.polygonCount)
  }
}
