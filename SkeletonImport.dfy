/** The skeleton half of Importer.cpp: ImportSkeletonMeshData and
    ProcessSkeletonHierarchyRecursively flatten the scene's eSkeleton nodes
    into Skeleton::joints by a depth-first walk, and FindJointIndexUsingName
    looks a joint up by name.

    The walk is modelled as written. A call receives `myIndex`, the size of
    the joint list when the call was made, and `inParentIndex`, the
    `myIndex` of its caller; a joint records `inParentIndex` as its parent.
    The top-level loop passes `myIndex = 0` and `inParentIndex = -1` to every
    child of the scene root. The consequences are proved in SkeletonParents. */
module SkeletonImport {
  import opened SceneProxy
  import opened Fbx

  /** The Joint pushed for a skeleton node: default inverse bind matrix, the
      node's global translation at time 0, its name and the given parent. */
  function JointOf(n: Node, parentIndex: int): Joint
  {
    Joint(DefaultMat4, n.globalTranslation, n.name, parentIndex)
  }

  /** The joint list after ProcessSkeletonHierarchyRecursively(n, _, myIndex,
      parentIndex, skeleton) on a skeleton whose joints were js. */
  function Walk(n: Node, myIndex: int, parentIndex: int, js: seq<Joint>): seq<Joint>
    decreases n, |n.children| + 1
  {
    WalkChildren(n, 0, myIndex, if IsSkeletonNode(n) then js + [JointOf(n, parentIndex)] else js)
  }

  /** The joint list after the child loop of that call has visited children
      i.. of n, starting from js; each child gets the current list size as its
      `myIndex` and n's `myIndex` as its parent index. */
  function WalkChildren(n: Node, i: nat, myIndex: int, js: seq<Joint>): seq<Joint>
    requires i <= |n.children|
    decreases n, |n.children| - i
  {
    if i == |n.children| then js
    else WalkChildren(n, i + 1, myIndex, Walk(n.children[i], |js|, myIndex, js))
  }

  /** The joint list after the loop of ImportSkeletonMeshData has visited the
      root's children i.., each with myIndex 0 and parent index -1. */
  function TopLevelWalk(root: Node, i: nat, js: seq<Joint>): seq<Joint>
    requires i <= |root.children|
    decreases |root.children| - i
  {
    if i == |root.children| then js
    else TopLevelWalk(root, i + 1, Walk(root.children[i], 0, -1, js))
  }

  /** The joint list ImportSkeletonMeshData leaves in a skeleton that held js. */
  function ImportedJoints(root: Node, js: seq<Joint>): seq<Joint>
  {
    TopLevelWalk(root, 0, js)
  }

  method ProcessSkeletonHierarchyRecursively(inNode: Node, inDepth: nat, myIndex: int,
                                             inParentIndex: int, skeleton: Skeleton)
    returns (result: Skeleton)
    ensures result.joints == Walk(inNode, myIndex, inParentIndex, skeleton.joints)
    decreases inNode
  {
    result := skeleton;
    if IsSkeletonNode(inNode) {
      var currJoint := Joint(DefaultMat4, inNode.globalTranslation, inNode.name, inParentIndex);
      result := result.(joints := result.joints + [currJoint]);
    }
    ghost var afterOwn := result.joints;
    var i := 0;
    while i < |inNode.children|
      invariant 0 <= i <= |inNode.children|
      invariant WalkChildren(inNode, i, myIndex, result.joints) == WalkChildren(inNode, 0, myIndex, afterOwn)
    {
      result := ProcessSkeletonHierarchyRecursively(inNode.children[i], inDepth + 1,
                                                    |result.joints|, myIndex, result);
      i := i + 1;
    }
  }

  /** Flattens the scene below lRootNode into the skeleton; always reports
      success. */
  method ImportSkeletonMeshData(lRootNode: Node, skeleton: Skeleton) returns (ok: bool, result: Skeleton)
    ensures ok
    ensures result.joints == ImportedJoints(lRootNode, skeleton.joints)
  {
    result := skeleton;
    var childIndex := 0;
    while childIndex < |lRootNode.children|
      invariant 0 <= childIndex <= |lRootNode.children|
      invariant TopLevelWalk(lRootNode, childIndex, result.joints) == ImportedJoints(lRootNode, skeleton.joints)
    {
      var currNode := lRootNode.children[childIndex];
      result := ProcessSkeletonHierarchyRecursively(currNode, 0, 0, -1, result);
      childIndex := childIndex + 1;
    }
    ok := true;
  }

  /** The position of the first joint called `name`, or -1 when none is. */
  function IndexOfName(joints: seq<Joint>, name: string): (r: int)
    ensures -1 <= r < |joints|
    ensures r == -1 <==> forall k :: 0 <= k < |joints| ==> joints[k].name != name
    ensures 0 <= r ==> joints[r].name == name && forall k :: 0 <= k < r ==> joints[k].name != name
  {
    if |joints| == 0 then -1
    else if joints[0].name == name then 0
    else
      var r := IndexOfName(joints[1..], name);
      assert forall k :: 1 <= k < |joints| ==> joints[k] == joints[1..][k - 1];
      if r == -1 then -1 else r + 1
  }

  /** A first-match linear search over the joints of a skeleton passed by
      value. */
  method FindJointIndexUsingName(name: string, skeleton: Skeleton) returns (r: int)
    ensures r == IndexOfName(skeleton.joints, name)
  {
    var i := 0;
    while i < |skeleton.joints|
      invariant 0 <= i <= |skeleton.joints|
      invariant forall k :: 0 <= k < i ==> skeleton.joints[k].name != name
    {
      if skeleton.joints[i].name == name {
        return i;
      }
      i := i + 1;
    }
    return -1;
  }
}
