/** The records of SceneProxy.h: the vertex record handed to the renderer, the
    skeleton and animation records, the texture-slot enumeration and the
    draw-type setter of the SceneProxy class. Vectors and matrices are kept as
    opaque bags of reals: the model never computes with them. */
module SceneProxy {

  datatype Vec2 = Vec2(x: real, y: real)
  datatype Vec3 = Vec3(x: real, y: real, z: real)
  datatype Vec4 = Vec4(x: real, y: real, z: real, w: real)
  /** glm::ivec4 */
  datatype IVec4 = IVec4(x: int, y: int, z: int, w: int)
  /** glm::quat */
  datatype Quat = Quat(w: real, x: real, y: real, z: real)
  /** glm::mat4, column by column; opaque to the model. */
  datatype Mat4 = Mat4(columns: seq<Vec4>)

  const ZeroVec2 := Vec2(0.0, 0.0)
  const ZeroVec3 := Vec3(0.0, 0.0, 0.0)

  /** The value of a default-constructed glm::mat4 (the identity). */
  const DefaultMat4 := Mat4([Vec4(1.0, 0.0, 0.0, 0.0), Vec4(0.0, 1.0, 0.0, 0.0),
                             Vec4(0.0, 0.0, 1.0, 0.0), Vec4(0.0, 0.0, 0.0, 1.0)])

  /** One rendered vertex: position, normal, texture coordinate, padding,
      tangent frame, and four (joint index, weight) influence slots. */
  datatype MeshData = MeshData(vertex: Vec3, normal: Vec3, uv: Vec2, padding: Vec2,
                               tangent: Vec3, bitangent: Vec3, index: IVec4, weight: Vec4)

  /** The joint index glm::ivec4 slots hold when no joint influences them. */
  const NoJoint := -1

  /** MeshData(): every joint slot -1, every weight 0; the members the
      constructor does not initialise are taken as zero vectors. Such a
      vertex has no influence. */
  function DefaultMeshData(): (r: MeshData)
    ensures forall s :: s in Slots(r) ==> s.index == NoJoint && s.weight == 0.0
    ensures Influences(r) == 0
  {
    MeshData(ZeroVec3, ZeroVec3, ZeroVec2, ZeroVec2, ZeroVec3, ZeroVec3,
             IVec4(NoJoint, NoJoint, NoJoint, NoJoint), Vec4(0.0, 0.0, 0.0, 0.0))
  }

  /** The four influence slots of a vertex, in slot order. */
  function Slots(v: MeshData): seq<BlendingWeight>
  {
    [BlendingWeight(v.index.x, v.weight.x), BlendingWeight(v.index.y, v.weight.y),
     BlendingWeight(v.index.z, v.weight.z), BlendingWeight(v.index.w, v.weight.w)]
  }

  /** Number of slots among the first k that name a joint. */
  function CountInfluences(s: seq<BlendingWeight>, k: nat): (r: nat)
    requires k <= |s|
    ensures r <= k
  {
    if k == 0 then 0
    else CountInfluences(s, k - 1) + (if s[k - 1].index != NoJoint then 1 else 0)
  }

  /** How many joints influence a vertex. */
  function Influences(v: MeshData): nat
  {
    CountInfluences(Slots(v), 4)
  }

  /** A vertex record has room for no more than four influences. */
  lemma AtMostFourInfluences(v: MeshData)
    ensures |Slots(v)| == 4 && Influences(v) <= 4
  {
  }

  /** One (joint index, weight) pair. */
  datatype BlendingWeight = BlendingWeight(index: int, weight: real)

  /** enum class TextureType : int8_t. Several names share a value. */
  newtype TextureType = x: int | -128 <= x < 128

  const SkyBox: TextureType := -1
  const Ohter: TextureType := -1
  const Albedo: TextureType := 0
  const Normal: TextureType := 1
  const Roughness: TextureType := 2
  const Metalic: TextureType := 3
  const AmbientOcclusion: TextureType := 4
  const PB_Diffuse: TextureType := 0
  const PB_Specular: TextureType := 1
  const PB_Normal: TextureType := 2
  const PB_Displacement: TextureType := 3

  /** The enumeration aliases its values: a texture type cannot tell a sky box
      from "other", an albedo map from a diffuse map, or a normal map from a
      specular map. */
  lemma TextureTypeAliases()
    ensures SkyBox == Ohter
    ensures Albedo == PB_Diffuse && Normal == PB_Specular
    ensures Roughness == PB_Normal && Metalic == PB_Displacement
  {
  }

  /** One joint of the bind skeleton. */
  datatype Joint = Joint(inversed: Mat4, coord: Vec3, name: string, parent_index: int)

  datatype Skeleton = Skeleton(joints: seq<Joint>)

  /** One joint's sampled pose. */
  datatype JointPose = JointPose(rot: Quat, trans: Vec4, scale: real,
                                 global_inverse_matrix: Mat4, parent_index: int)

  /** One snapshot of every joint's pose. */
  datatype AnimationSample = AnimationSample(jointposes: seq<JointPose>)

  /** A clip: its frame rate, frame count, samples and looping flag. The
      non-owning pSkeleton pointer is not part of the value. */
  datatype AnimationClip = AnimationClip(frame_per_second: real, frame_count: int,
                                         samples: seq<AnimationSample>, is_looping: bool)

  /** A point of the debug skeleton drawing. */
  datatype AnimationSkeleton = AnimationSkeleton(pos: Vec3, index: int)

  /** enum class DrawType: the OpenGL primitive a proxy draws with. */
  datatype DrawType = LINE | TRIANGLE | PATCHES

  /** The draw-type state of a SceneProxy; its OpenGL buffer handles are not
      part of the model. */
  class SceneProxy {
    var originaltype: DrawType
    var drawtype: DrawType

    constructor ()
      ensures originaltype == TRIANGLE && drawtype == TRIANGLE
    {
      originaltype := TRIANGLE;
      drawtype := TRIANGLE;
    }

    /** Changes the draw type and nothing else: the original type is kept. */
    method SetDrawType(i_drawtype: DrawType)
      modifies this`drawtype
      ensures drawtype == i_drawtype
      ensures originaltype == old(originaltype)
    {
      drawtype := i_drawtype;
    }
  }
}
