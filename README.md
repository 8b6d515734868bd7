# AnimationSystem importer core, modelled in Dafny

This project models the FBX import path of AnimationSystem and the playback
step of its render loop:

- the skeleton import: `ImportSkeletonMeshData` flattens the scene's
  eSkeleton nodes into `Skeleton::joints`, and `FindJointIndexUsingName`
  looks a joint up by name;
- the mesh import: `ImportMeshData` expands each triangulated mesh into
  three `MeshData` records and three indices per polygon;
- the frame arithmetic of `ImportAnimationData`, and the skin/cluster loop of
  `ProcessJointsAndAnimations`;
- the node printer, `PrintNode`, `PrintAttribute`, `PrintTabs` and
  `ImportNode`, which share the global `numTabs`, and `GetAttributeTypeName`;
- the render loop's `animation_sample_count` counter and the per-joint copy of
  `global_inverse_matrix` into the fixed-capacity matrix array;
- the value types of SceneProxy.h and `SceneProxy::SetDrawType`.

Modules follow the program. `SceneProxy` holds the SceneProxy.h types. `Fbx`
is the scene as the importer reads it, with what the FBX SDK evaluates
already evaluated. `SkeletonImport`, `MeshImport`, `AnimationImport` and
`NodePrinter` model Importer.cpp. `SkeletonParents` proves what the skeleton
walk records as parent indices. `RenderLoop` models main.cpp.

Code that changes state step by step is modelled as methods with loops:
- the recursive skeleton walk;
- the mesh loops that push into `mesh` and `index`;
- the frame and cluster loops;
- the printer, a class whose fields are `numTabs` and the output written so
  far;
- the render loop, a class with the counter and an `array` of matrices.

Each method is proved against a function of its inputs (`Walk`,
`SceneVertices`, `FrameRange`, `BindPoses`, `Render`, `CountAfter`). The
properties are proved as lemmas about those functions.

Transforms are left abstract. Matrix and vector arithmetic (model matrices,
inverse-transpose normals, bind-pose inverses, per-frame global transforms) is
floating point, so it appears as parameters: `toWorld` and `normalToWorld` in
`MeshImport`. Where the code computes a matrix and discards it, it is not
modelled. `glm::mat4()` is taken as the identity (`DefaultMat4`), and
`convertFBXMatrix` returns that default matrix. Members that `MeshData()` does
not initialise are taken as zero. Both rest on glm's default constructors
initialising, which depends on the glm version (see "## Left out").

### How the code's parent indices differ from the natural rule

The natural rule for a flattened skeleton is that a joint's parent is its
nearest joint ancestor, and that the parent comes before the child in the
list. The model follows the code, which does not always do this.

- Each recursive call passes `skeleton.joints.size()` as the child's `myIndex`
  (Importer.cpp:574). A joint records the `myIndex` of its parent node's call
  (line 564). For a parent node entered by such a recursive call, that is, one
  deeper than the root's children, this is the position of the first joint
  pushed in the parent node's subtree. It is the parent's own position when the
  parent node is itself a joint (`SkeletonParents.ParentJointPosition`).
- Every top-level call passes `myIndex = 0` and `inParentIndex = -1`
  (line 195). So joints directly below the scene root get parent -1, and
  joints directly below any of the root's children get parent 0, whichever
  child they are under (`SkeletonParents.TopLevelParents`). A scene whose
  first joints hang from a plain root child puts one of them at position 0,
  and that joint names itself as its parent
  (`SkeletonParents.JointsUnderNullNode`).
- Deeper than the root's children, below a node that is not a joint, a joint's
  parent index is the position of the first joint under that node, which can
  be the joint itself (`SkeletonParents.ParentUnderNonJoint`). This holds even
  when the non-joint node itself hangs from a joint: for A (a joint), then B
  (a plain node), then C (a joint), C records position 1, its own, and not
  A's position 0 (`SkeletonParents.JointUnderNullBelowJoint`).
- "Every parent index is -1 or smaller than the joint's own" holds when every
  skeleton node below the root's children hangs from a skeleton node
  (`SkeletonParents.CleanHierarchyParentsPrecede`). That condition is
  sufficient, not necessary: C below a plain root child that follows the
  joint A records A's position 0 (`SkeletonParents.JointUnderNullAfterJoint`).
  Without the condition, a joint can also name itself as its parent.

Two other code behaviours are kept as written:
- In `ImportMeshData` the second corner's UV is overwritten with the third
  corner's (Importer.cpp:173-177), and the third corner keeps the default UV
  (`MeshImport.UvSlip`).
- `ImportMeshData` returns `false` (`return 0`) although it completes.

## Model

| member | source | states |
|---|---|---|
| `Fbx.IsSkeletonNode` | AnimationSystem/Importer.cpp:561 | The three-part test holds exactly when the node has a default attribute of type eSkeleton; the test against eUnknown adds nothing. |
| `SkeletonImport.ProcessSkeletonHierarchyRecursively` | AnimationSystem/Importer.cpp:559-576 | The joint list after the call is `Walk` of the node: the node's own joint, if it is an eSkeleton node, with parent `inParentIndex`; then each child walked with the current list size as its `myIndex` and this call's `myIndex` as its parent. |
| `SkeletonImport.ImportSkeletonMeshData` | AnimationSystem/Importer.cpp:190-199 | It always reports success. It leaves `ImportedJoints`: each child of the scene root walked with `myIndex` 0 and parent -1. |
| `SkeletonImport.IndexOfName` | AnimationSystem/Importer.cpp:438-448 | The result is -1 exactly when no joint has the name. Otherwise it is the first position whose joint has the name. |
| `SkeletonImport.FindJointIndexUsingName` | AnimationSystem/Importer.cpp:438-448 | The loop with early return yields `IndexOfName` of the skeleton's joints. |
| `SkeletonParents.WalkShape` | AnimationSystem/Importer.cpp:559-576 | A walk keeps the joints it was given. It appends one joint per skeleton node of the subtree, in preorder, with that node's name and translation. The parent index is the `myIndex` of the parent node's call. |
| `SkeletonParents.ImportShape` | AnimationSystem/Importer.cpp:192-196 | The import appends one joint per skeleton-node path below the root, in that order. Each gets the parent index of the top-level rule. |
| `SkeletonParents.OneJointPerSkeletonNode` | AnimationSystem/Importer.cpp:561-570 | Existing joints are kept. Exactly one joint is appended per skeleton node below the root, never for the root, with no path twice. Each carries its node's name, its translation and the default inverse bind matrix. |
| `SkeletonParents.ChildJointPathsDistinct` | AnimationSystem/Importer.cpp:572-575 | The walk never visits a node twice: the listed joint paths are pairwise distinct. |
| `SkeletonParents.TopLevelParents` | AnimationSystem/Importer.cpp:192-195 | Joints directly below the scene root get parent -1. Joints directly below a child of the root get parent 0. |
| `SkeletonParents.ParentJointPosition` | AnimationSystem/Importer.cpp:572-575 | Below the root's children, a joint whose parent node is a joint records that joint's position, which is smaller than its own. |
| `SkeletonParents.ParentUnderNonJoint` | AnimationSystem/Importer.cpp:572-575 | Below the root's children (a path of length at least 3), a joint whose parent node is not a joint records the position of a joint in that node's subtree, at most its own, and no joint of that subtree comes earlier: it is the first one. |
| `SkeletonParents.CleanParentPrecedes` | AnimationSystem/Importer.cpp:564 | If every skeleton node below the root's children hangs from a skeleton node, each appended parent index is -1 or an earlier position. |
| `SkeletonParents.CleanHierarchyParentsPrecede` | AnimationSystem/Importer.cpp:190-199 | Under the same condition, the import keeps "every parent index is -1 or earlier" true of the whole joint list. |
| `SkeletonParents.JointsUnderNullNode` | AnimationSystem/Importer.cpp:195 | For two joints under a null node below the root, the first records itself as parent and the second records its sibling. |
| `SkeletonParents.JointUnderNullAfterJoint` | AnimationSystem/Importer.cpp:195 | For the joint A and then a null node B holding the joint C, both children of the root, the import gives A parent -1 and C parent 0: every parent comes earlier although C does not hang from a skeleton node. |
| `SkeletonParents.JointUnderNullBelowJoint` | AnimationSystem/Importer.cpp:574 | For a joint A with a null child B whose child is the joint C, the import gives A parent -1 and C parent 1: C names itself as its parent. |
| `MeshImport.ImportMeshData` | AnimationSystem/Importer.cpp:74-188 | It reports false. It appends `SceneVertices` of all meshes to `mesh`. `mesh` and `index` each grow by three per polygon. The old indices are kept, and every new index equals its own position. |
| `MeshImport.ImportPolygons` | AnimationSystem/Importer.cpp:117-183 | For one mesh, it appends the mesh's corner records and the indices `n+3j`, `n+3j+1`, `n+3j+2`, where `n` is the index count at the mesh's start. |
| `MeshImport.TriangleRecords` | AnimationSystem/Importer.cpp:126-178 | The field-by-field build of `p1`, `p2`, `p3` yields `Corner` 0, 1 and 2 of the polygon. |
| `MeshImport.MeshVerticesLength` | AnimationSystem/Importer.cpp:120-183 | A mesh yields exactly three records per polygon. |
| `MeshImport.MeshVertexAt` | AnimationSystem/Importer.cpp:120-183 | Record `3j+t` of a mesh is corner `t` of polygon `j`. |
| `MeshImport.SceneVerticesLength` | AnimationSystem/Importer.cpp:79-185 | All meshes together yield three records per polygon of the scene. |
| `MeshImport.SceneVerticesPrefix` | AnimationSystem/Importer.cpp:79-185 | The records of the first meshes are a prefix of those of all meshes. |
| `MeshImport.MeshInSceneAt` | AnimationSystem/Importer.cpp:117-124 | Corner `t` of polygon `j` of mesh `i` comes right after the records of the meshes before it. |
| `MeshImport.SceneVertexAt` | AnimationSystem/Importer.cpp:117-124 | Position `3*(polygons before mesh i + j) + t`, which is the index pushed for that corner, holds corner `t` of polygon `j` of mesh `i`. |
| `MeshImport.CornerData` | AnimationSystem/Importer.cpp:128-158 | A corner's position comes from the control point its polygon vertex names, and its normal from the same polygon vertex. Its joint slots keep the default -1 and weights 0. |
| `MeshImport.UvSlip` | AnimationSystem/Importer.cpp:161-178 | With a UV set, corner 0 gets UV `3j` and corner 1 gets UV `3j+2`; corner 2 keeps the default. Without a UV set, every corner keeps the default. |
| `AnimationImport.FrameRange` | AnimationSystem/Importer.cpp:215 | Defined one frame at a time from `start`; in closed form there are `end - start + 1` frames when start <= end, else none, and frame `k` is `start + k`. |
| `AnimationImport.FrameSpan` | AnimationSystem/Importer.cpp:395-404 | The frame loop visits `end - start + 1` frames (none when end < start), and its `k`-th frame is `start + k`. |
| `AnimationImport.FramesAreFrameRange` | AnimationSystem/Importer.cpp:215-224 | Any list with that length and those elements is `FrameRange`. |
| `AnimationImport.FrameRangeVisitsEachFrameOnce` | AnimationSystem/Importer.cpp:392-395 | A frame is visited exactly when it lies in `[start, end]`, and the frames strictly increase, so none is visited twice. |
| `AnimationImport.ImportAnimationData` | AnimationSystem/Importer.cpp:201-227 | It reports success. `mAnimationLength == end - start + 1`. When start <= end, the loop visits that many frames, which are `FrameRange`; otherwise it visits none. |
| `AnimationImport.Skins` | AnimationSystem/Importer.cpp:345-353 | The skins of a mesh, which `GetDeformer(i, eSkin)` returns; there are never more than the deformers. |
| `AnimationImport.BindPoses` | AnimationSystem/Importer.cpp:356-370 | Writing a bind matrix into the joint each cluster names keeps the number of joints. |
| `AnimationImport.ProcessJointsAndAnimations` | AnimationSystem/Importer.cpp:331-406 | The local skeleton copy ends as `BindPoses` of all skin clusters. Cluster `k` is visited once, in order, with the joint its link resolves to and with every frame of the take. |
| `AnimationImport.ProcessSkin` | AnimationSystem/Importer.cpp:355-405 | One skin's cluster loop extends the bound skeleton and the visit list by that skin's clusters. |
| `AnimationImport.BindPosesAt` | AnimationSystem/Importer.cpp:360-370 | A joint gets the default inverse bind matrix exactly when some cluster resolves to it. Every other joint is unchanged. |
| `AnimationImport.BindPosesOnlySetInverses` | AnimationSystem/Importer.cpp:370 | The number of joints is kept. No name, coordinate or parent index changes; only `inversed` may. |
| `AnimationImport.SkinsSkipOtherDeformers` | AnimationSystem/Importer.cpp:349-353 | A non-skin deformer adds no cluster to visit. A skin adds its clusters at the end. |
| `AnimationImport.ResolvesToLast` | AnimationSystem/Importer.cpp:358-360 | A cluster list resolves to joint `i` exactly when its prefix does or its last link's name finds `i`. |
| `NodePrinter.AttributeTypeNames` | AnimationSystem/Importer.cpp:483-509 | Of `GetAttributeTypeName`: each of these holds in both directions: "skeleton" is the name of eSkeleton alone; "unidentified" of eUnknown alone; "marker" of both eMarker and eOpticalMarker; "unknown" of the unlisted eCachedEffect and eLine. So the mapping is not injective. |
| `NodePrinter.Printer.constructor` | AnimationSystem/Importer.cpp:461 | `numTabs` starts at 0, and nothing has been written. |
| `NodePrinter.Printer.PrintTabs` | AnimationSystem/Importer.cpp:466-470 | The loop adds `numTabs` pending tabs (none when the counter is negative) and changes nothing else. |
| `NodePrinter.Printer.EndLine` | AnimationSystem/Importer.cpp:556 | A `printf` ending in a newline, as at lines 522, 536 and 556, appends one line whose indentation is the tabs written since the previous line; none are pending afterwards, and `numTabs` is unchanged. |
| `NodePrinter.Printer.PrintAttribute` | AnimationSystem/Importer.cpp:514-523 | It writes one line, indented `numTabs` deep, with the attribute's type name and name. |
| `NodePrinter.Printer.PrintNode` | AnimationSystem/Importer.cpp:527-557 | It writes `Render(node, numTabs)`: the opening tag, its attributes and children one level deeper, and the closing tag. `numTabs` ends where it started. |
| `NodePrinter.Printer.PrintAttributes` | AnimationSystem/Importer.cpp:545-548 | The attribute loop writes one attribute line per attribute, in order. |
| `NodePrinter.Printer.ImportNode` | AnimationSystem/Importer.cpp:472-478 | It prints each child of the node in order at the current `numTabs`, and leaves `numTabs` where it was. |
| `NodePrinter.RenderNested` | AnimationSystem/Importer.cpp:527-557 | From counter value `d`, PrintNode writes one complete element. Every line is indented by `d` plus the number of elements open around it. No prefix closes more than it opened, and everything opened is closed. |
| `NodePrinter.ChildLinesNested` | AnimationSystem/Importer.cpp:551-552 | The children's output, one after another, is a sequence of complete elements at the same indentation. |
| `NodePrinter.NestedConcat` | AnimationSystem/Importer.cpp:551-552 | Complete element sequences at one indentation, printed one after the other, stay complete. |
| `NodePrinter.NestedWrap` | AnimationSystem/Importer.cpp:541-556 | An opening and a closing tag at depth `d`, around complete output at depth `d+1` (the `numTabs++` ... `numTabs--` bracket), form one complete element. |
| `NodePrinter.AttributeLinesNested` | AnimationSystem/Importer.cpp:545-548 | Attribute lines sit at the current depth and open nothing. |
| `NodePrinter.NestAtLeast` | AnimationSystem/Importer.cpp:541-556 | Output read from a depth at or above a floor never has a line indented less than the floor. |
| `NodePrinter.RenderIndentedFrom` | AnimationSystem/Importer.cpp:527-557 | No line of PrintNode from counter `d` has fewer than `d` tabs. Its first and last lines have exactly `d`. |
| `NodePrinter.RenderAttributes` | AnimationSystem/Importer.cpp:527-548 | The opening tag comes first. The node's attributes follow in order, one tab deeper, and the closing tag comes last. |
| `RenderLoop.NextCount` | AnimationSystem/main.cpp:173-180 | On the counter's range 0..13, the update stays in 0..13 and is a step modulo 14. |
| `RenderLoop.CountAfter` | AnimationSystem/main.cpp:154 | After `k` frames from the initial 0, the counter is `k mod 14`. So the first frame reads sample 1, and sample 0 is read every fourteenth frame. |
| `RenderLoop.CountPeriod` | AnimationSystem/main.cpp:173-180 | The counter returns to a value exactly when a multiple of 14 frames have passed: its period is 14 and nothing shorter. |
| `RenderLoop.Playback.Tick` | AnimationSystem/main.cpp:173-180 | The counter takes `NextCount` of its old value and stays in 0..13. |
| `RenderLoop.Playback.CopyPose` | AnimationSystem/main.cpp:208-215 | With no samples, nothing changes. Otherwise slot `i` holds joint `i`'s `global_inverse_matrix` of the current sample, for every joint of the sample, and higher slots are unchanged. |
| `RenderLoop.Playback.RenderFrame` | AnimationSystem/main.cpp:173-215 | One loop pass: the counter advances first, then the matrices of the new counter's sample are copied. |
| `RenderLoop.Playback.Play` | AnimationSystem/main.cpp:159-215 | After `frames` passes, the counter is `CountAfter(frames)`. The array is unchanged for a clip without samples. Otherwise the array holds the last sample read. |
| `RenderLoop.Playback.constructor` | AnimationSystem/main.cpp:154 | The counter starts at 0. |
| `SceneProxy.AtMostFourInfluences` | AnimationSystem/SceneProxy.h:16-17 | A vertex has four (joint, weight) slots, so at most four influences. |
| `SceneProxy.DefaultMeshData` | AnimationSystem/SceneProxy.h:19 | `MeshData()` sets every joint slot to -1 and every weight to 0, so it has no influence. |
| `SceneProxy.TextureTypeAliases` | AnimationSystem/SceneProxy.h:37-56 | SkyBox equals Ohter, and each PB_ value equals the Albedo..Metalic value of the same number. |
| `SceneProxy.SceneProxy.constructor` | AnimationSystem/SceneProxy.h:129-130 | Both draw types start as TRIANGLE. |
| `SceneProxy.SceneProxy.SetDrawType` | AnimationSystem/SceneProxy.h:137-140 | The draw type becomes the argument, and the original type is kept. |

## Left out

- FBX SDK session handling (`Init`, `CleanUp`, `PrintData`, the static scene handles and `exit(-1)`), `printf` and `std::cout` output other than the node printer's: foreign-library calls and console I/O.
- The node printer's `printf` text is a line of (tab count, tag). A node's local translation, rotation and scaling are floating-point output and are not part of a line.
- `PrintAttribute`'s early return for a null attribute pointer: attributes are values here, never null.
- The per-cluster weight loop of `ProcessJointsAndAnimations` (Importer.cpp:374-381): it builds a `BlendingWeight` and discards it, so it has no effect to model.
- Matrix and vector arithmetic: model matrices, inverse-transpose normals, `GetGeometryTransformation`, the bind-pose inverse product, and the per-frame `EvaluateGlobalTransform`. All are floating point. Positions and normals go through abstract `toWorld` and `normalToWorld` parameters; results the code discards are not modelled.
- `convertFBXMatrix` ignores its argument and returns a default `glm::mat4`; the model writes `DefaultMat4` directly.
- glm defaults: the model takes `glm::mat4()` as the identity and the `MeshData` members that its constructor leaves out (position, normal, UVs, tangent, bitangent) as zero. That holds for glm 0.9.8 and earlier, or with `GLM_FORCE_CTOR_INIT`. From glm 0.9.9 on, without that macro, `glm::mat4()` is the zero matrix, and glm members left to default initialisation (such as `Joint::inversed` or `MeshData::uv`) are indeterminate. `DefaultMat4`, `SceneProxy.DefaultMeshData`, `MeshImport.UvSlip`'s default UV and `AnimationImport.BindPosesAt`'s default inverse bind matrix rest on this assumption.
- The take lookup in `ImportAnimationData` and `ProcessJointsAndAnimations` (anim stack, take info, 24 fps frame counts) is replaced by the frame numbers `start` and `end` as parameters.
- `ImportAnimationData` refers to members that do not exist in the class (`mSkeleton`, `currJointIndex`, `inNode`, `geometryTransform`, `currCluster`). Only its length arithmetic and its frame loop are modelled.
- Integer widths: `FbxLongLong` frame counters and `int` index arithmetic are unbounded integers here; overflow is not modelled.
- `AnimationImport.ProcessJointsAndAnimations`: requires that every cluster's link name resolve to a joint. The code writes `skeleton.joints[-1]` when one does not, which is undefined behaviour.
- `RenderLoop.Playback.CopyPose`: requires that the counter index a sample and that the sample fit the matrix array. The code checks neither.
- ConstantData::Skeleton is not part of this model. Its capacity is taken as the length of the matrix array, and its initial contents as default matrices.
- The window loop condition, camera rotation (`GetCameraRotation` and the `angle` wrap), drawing and constant-buffer upload in main.cpp, and the GL code of SceneProxy.cpp, ConstantBuffer.h, Shader.h and Source.cpp: renderer and windowing plumbing. The loop's end is a frame count.
- `IsSkeletonNode` takes a node's first attribute as its default attribute.
- The inner loops of `ImportMeshData`, `ProcessJointsAndAnimations` and `PrintNode` are factored into helper methods (`ImportPolygons`, `TriangleRecords`, `ProcessSkin`, `PrintAttributes`). `PrintNode`'s child loop, which is the same loop as `ImportNode`'s, is a call to `ImportNode`. The order of effects is unchanged.
- Node and attribute names are compared as strings. The code's `strcmp` on C strings stops at the first NUL, and the model has no NUL handling.
