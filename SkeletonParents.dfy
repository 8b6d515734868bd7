/** What the skeleton walk of Importer.cpp records as each joint's parent.

    A node of the scene is named by its path: the child indices that lead to
    it. JointPaths(n) lists the paths of the skeleton nodes below n in
    depth-first preorder, the order the walk pushes them in. Start(n, p) is
    how many of those come before the subtree at p, which is the list size at
    the moment the walk enters that subtree: the `myIndex` the code hands to
    the call for the node at p.

    The rule the code follows (WalkShape, ImportShape): a joint's parent index
    is the `myIndex` of its parent node's call, which is the position of the
    first joint of the parent node's subtree. That is the parent's own
    position when the parent is a joint entered through the recursive call
    (ParentJointPosition); it is -1 below the scene root and 0 below the
    root's children (TopLevelParents); below a node that is not a joint it is
    the position of the first joint under that node, the joint's own or an
    earlier one (ParentUnderNonJoint). */
module SkeletonParents {
  import opened SceneProxy
  import opened Fbx
  import opened SkeletonImport

  type Path = seq<nat>

  /** The path of a node's parent. */
  function Parent(p: Path): Path
    requires p != []
  {
    p[..|p| - 1]
  }

  /** The node at the end of path p below n (n itself once a step leaves the tree). */
  function NodeAt(n: Node, p: Path): Node
    decreases |p|
  {
    if p == [] || p[0] >= |n.children| then n else NodeAt(n.children[p[0]], p[1..])
  }

  /** p leads from n to a node. */
  predicate IsPathIn(n: Node, p: Path)
    decreases |p|
  {
    p == [] || (p[0] < |n.children| && IsPathIn(n.children[p[0]], p[1..]))
  }

  /** 1 when n itself is pushed as a joint. */
  function Own(n: Node): nat
  {
    if IsSkeletonNode(n) then 1 else 0
  }

  /** The paths of the skeleton nodes of n's subtree, in depth-first preorder. */
  function JointPaths(n: Node): seq<Path>
    decreases n, |n.children| + 1
  {
    (if IsSkeletonNode(n) then [[]] else []) + ChildJointPaths(n, 0)
  }

  /** The paths, relative to n, of the skeleton nodes below children i.. of n. */
  function ChildJointPaths(n: Node, i: nat): seq<Path>
    requires i <= |n.children|
    decreases n, |n.children| - i
  {
    if i == |n.children| then [] else Prefixed(i, JointPaths(n.children[i])) + ChildJointPaths(n, i + 1)
  }

  function Prefixed(k: nat, ps: seq<Path>): (r: seq<Path>)
    ensures |r| == |ps| && forall x :: 0 <= x < |ps| ==> r[x] == [k] + ps[x]
  {
    seq(|ps|, x requires 0 <= x < |ps| => [k] + ps[x])
  }

  /** How many joints the subtrees of children 0..k-1 of n hold. */
  function CountBefore(n: Node, k: nat): nat
    requires k <= |n.children|
  {
    if k == 0 then 0 else CountBefore(n, k - 1) + |JointPaths(n.children[k - 1])|
  }

  /** How many joints of n's subtree the walk pushes before it enters the
      subtree at p. */
  function Start(n: Node, p: Path): nat
    decreases |p|, 1
  {
    if p == [] then 0 else Own(n) + ChildStart(n, p)
  }

  /** The same, not counting n itself. */
  function ChildStart(n: Node, p: Path): nat
    requires p != []
    decreases |p|, 0
  {
    if p[0] < |n.children| then CountBefore(n, p[0]) + Start(n.children[p[0]], p[1..])
    else CountBefore(n, |n.children|)
  }

  /** The parent index the code records for the joint at path p of a call
      Walk(n, myIndex, parentIndex, js) with |js| == base. */
  function ParentRule(n: Node, myIndex: int, parentIndex: int, base: int, p: Path): int
  {
    if p == [] then parentIndex
    else if |p| == 1 then myIndex
    else base + Start(n, Parent(p))
  }

  /** The parent index ImportSkeletonMeshData records for the joint at path
      p below the scene root, on a skeleton that held `base` joints. */
  function TopRule(root: Node, base: int, p: Path): int
    requires p != []
  {
    if |p| == 1 then -1
    else if |p| == 2 then 0
    else base + ChildStart(root, Parent(p))
  }

  /** Every path below the children of n starts with a child index. */
  lemma {:induction false} ChildPathsStartWithChild(n: Node, i: nat)
    requires i <= |n.children|
    ensures forall x :: 0 <= x < |ChildJointPaths(n, i)| ==>
              ChildJointPaths(n, i)[x] != [] && i <= ChildJointPaths(n, i)[x][0] < |n.children|
    decreases |n.children| - i
  {
    if i < |n.children| {
      ChildPathsStartWithChild(n, i + 1);
    }
  }

  lemma PrefixedPaths(k: nat, s: Path)
    ensures ([k] + s)[1..] == s && ([k] + s)[0] == k
  {
  }

  lemma ParentOfPrefixed(k: nat, s: Path)
    requires s != []
    ensures Parent([k] + s) == [k] + Parent(s)
  {
  }

  // ---------------------------------------------------------------------
  // Shape of the walk: what it appends, and with which parent index.

  /** ProcessSkeletonHierarchyRecursively only appends, and it appends one
      joint per skeleton node of its subtree, in preorder, each carrying the
      node's name and translation and the parent index given by ParentRule. */
  lemma {:induction false} WalkShape(n: Node, myIndex: int, parentIndex: int, js: seq<Joint>)
    ensures |Walk(n, myIndex, parentIndex, js)| == |js| + |JointPaths(n)|
    ensures Walk(n, myIndex, parentIndex, js)[..|js|] == js
    ensures forall q :: 0 <= q < |JointPaths(n)| ==>
              Walk(n, myIndex, parentIndex, js)[|js| + q]
                == JointOf(NodeAt(n, JointPaths(n)[q]), ParentRule(n, myIndex, parentIndex, |js|, JointPaths(n)[q]))
    decreases n, |n.children| + 1
  {
    var own := if IsSkeletonNode(n) then js + [JointOf(n, parentIndex)] else js;
    WalkChildrenShape(n, 0, myIndex, |js|, own);
    var w := Walk(n, myIndex, parentIndex, js);
    var P := JointPaths(n);
    var C := ChildJointPaths(n, 0);
    assert w == WalkChildren(n, 0, myIndex, own);
    assert P == (if IsSkeletonNode(n) then [[]] else []) + C;
    forall q | 0 <= q < |P|
      ensures w[|js| + q] == JointOf(NodeAt(n, P[q]), ParentRule(n, myIndex, parentIndex, |js|, P[q]))
    {
      if IsSkeletonNode(n) && q == 0 {
        assert w[|js|] == own[|js|];
      } else {
        ChildPathsStartWithChild(n, 0);
        assert P[q] == C[q - Own(n)] != [];
        assert w[|js| + q] == w[|own| + (q - Own(n))];
      }
    }
  }

  lemma {:induction false} WalkChildrenShape(n: Node, i: nat, myIndex: int, base: int, acc: seq<Joint>)
    requires i <= |n.children|
    requires |acc| == base + Own(n) + CountBefore(n, i)
    ensures |WalkChildren(n, i, myIndex, acc)| == |acc| + |ChildJointPaths(n, i)|
    ensures WalkChildren(n, i, myIndex, acc)[..|acc|] == acc
    ensures forall q :: 0 <= q < |ChildJointPaths(n, i)| ==>
              WalkChildren(n, i, myIndex, acc)[|acc| + q]
                == JointOf(NodeAt(n, ChildJointPaths(n, i)[q]),
                           ParentRule(n, myIndex, 0, base, ChildJointPaths(n, i)[q]))
    decreases n, |n.children| - i
  {
    if i < |n.children| {
      var c := n.children[i];
      var acc1 := Walk(c, |acc|, myIndex, acc);
      WalkShape(c, |acc|, myIndex, acc);
      WalkChildrenShape(n, i + 1, myIndex, base, acc1);
      var w := WalkChildren(n, i, myIndex, acc);
      assert w == WalkChildren(n, i + 1, myIndex, acc1);
      var Pc := JointPaths(c);
      var C := ChildJointPaths(n, i);
      var C1 := ChildJointPaths(n, i + 1);
      assert C == Prefixed(i, Pc) + C1;
      assert w[..|acc|] == acc1[..|acc1|][..|acc|];
      forall q | 0 <= q < |C|
        ensures w[|acc| + q] == JointOf(NodeAt(n, C[q]), ParentRule(n, myIndex, 0, base, C[q]))
      {
        if q < |Pc| {
          var s := Pc[q];
          assert C[q] == [i] + s;
          PrefixedPaths(i, s);
          assert w[|acc| + q] == acc1[|acc| + q];
          assert NodeAt(n, C[q]) == NodeAt(c, s);
          if s != [] {
            ParentOfPrefixed(i, s);
            assert Start(n, Parent(C[q])) == Own(n) + CountBefore(n, i) + Start(c, Parent(s));
          }
        } else {
          assert C[q] == C1[q - |Pc|];
          assert w[|acc| + q] == w[|acc1| + (q - |Pc|)];
        }
      }
    }
  }

  /** ImportSkeletonMeshData only appends, one joint per skeleton node below
      the scene root, in preorder, with the parent index given by TopRule. */
  lemma {:induction false} TopLevelShape(root: Node, i: nat, base: int, acc: seq<Joint>)
    requires i <= |root.children|
    requires |acc| == base + CountBefore(root, i)
    ensures |TopLevelWalk(root, i, acc)| == |acc| + |ChildJointPaths(root, i)|
    ensures TopLevelWalk(root, i, acc)[..|acc|] == acc
    ensures forall q :: 0 <= q < |ChildJointPaths(root, i)| ==>
              ChildJointPaths(root, i)[q] != [] &&
              TopLevelWalk(root, i, acc)[|acc| + q]
                == JointOf(NodeAt(root, ChildJointPaths(root, i)[q]),
                           TopRule(root, base, ChildJointPaths(root, i)[q]))
    decreases |root.children| - i
  {
    if i < |root.children| {
      var c := root.children[i];
      var acc1 := Walk(c, 0, -1, acc);
      WalkShape(c, 0, -1, acc);
      TopLevelShape(root, i + 1, base, acc1);
      var w := TopLevelWalk(root, i, acc);
      assert w == TopLevelWalk(root, i + 1, acc1);
      var Pc := JointPaths(c);
      var C := ChildJointPaths(root, i);
      var C1 := ChildJointPaths(root, i + 1);
      assert C == Prefixed(i, Pc) + C1;
      assert w[..|acc|] == acc1[..|acc1|][..|acc|];
      forall q | 0 <= q < |C|
        ensures C[q] != [] && w[|acc| + q] == JointOf(NodeAt(root, C[q]), TopRule(root, base, C[q]))
      {
        if q < |Pc| {
          var s := Pc[q];
          assert C[q] == [i] + s;
          PrefixedPaths(i, s);
          assert w[|acc| + q] == acc1[|acc| + q];
          assert NodeAt(root, C[q]) == NodeAt(c, s);
          if |s| >= 2 {
            ParentOfPrefixed(i, s);
            assert ChildStart(root, Parent(C[q])) == CountBefore(root, i) + Start(c, Parent(s));
          }
        } else {
          assert C[q] == C1[q - |Pc|];
          assert w[|acc| + q] == w[|acc1| + (q - |Pc|)];
        }
      }
    }
  }

  lemma ImportShape(root: Node, js: seq<Joint>)
    ensures |ImportedJoints(root, js)| == |js| + |ChildJointPaths(root, 0)|
    ensures ImportedJoints(root, js)[..|js|] == js
    ensures forall q :: 0 <= q < |ChildJointPaths(root, 0)| ==>
              ChildJointPaths(root, 0)[q] != [] &&
              ImportedJoints(root, js)[|js| + q]
                == JointOf(NodeAt(root, ChildJointPaths(root, 0)[q]),
                           TopRule(root, |js|, ChildJointPaths(root, 0)[q]))
  {
    TopLevelShape(root, 0, |js|, js);
  }

  // ---------------------------------------------------------------------
  // Where subtrees begin.

  /** The walk enters the subtree of a joint exactly when it pushes that
      joint: Start of the q-th joint path is q. */
  lemma {:induction false} StartOfJointPath(n: Node, a: nat)
    requires a < |JointPaths(n)|
    ensures Start(n, JointPaths(n)[a]) == a
    decreases n, |n.children| + 1
  {
    var P := JointPaths(n);
    var C := ChildJointPaths(n, 0);
    assert P == (if IsSkeletonNode(n) then [[]] else []) + C;
    if !(IsSkeletonNode(n) && a == 0) {
      assert P[a] == C[a - Own(n)];
      ChildStartOfPath(n, 0, a - Own(n));
    }
  }

  lemma {:induction false} ChildStartOfPath(n: Node, i: nat, x: nat)
    requires i <= |n.children| && x < |ChildJointPaths(n, i)|
    ensures ChildJointPaths(n, i)[x] != []
    ensures ChildStart(n, ChildJointPaths(n, i)[x]) == CountBefore(n, i) + x
    decreases n, |n.children| - i
  {
    var c := n.children[i];
    var Pc := JointPaths(c);
    var C := ChildJointPaths(n, i);
    var C1 := ChildJointPaths(n, i + 1);
    assert C == Prefixed(i, Pc) + C1;
    if x < |Pc| {
      PrefixedPaths(i, Pc[x]);
      assert C[x] == [i] + Pc[x];
      StartOfJointPath(c, x);
    } else {
      assert C[x] == C1[x - |Pc|];
      ChildStartOfPath(n, i + 1, x - |Pc|);
    }
  }

  /** The subtree of any node on the path of the q-th joint is entered no
      later than that joint is pushed. */
  lemma {:induction false} PrefixStartBound(n: Node, q: nat, t: nat)
    requires q < |JointPaths(n)| && t <= |JointPaths(n)[q]|
    ensures Start(n, JointPaths(n)[q][..t]) <= q
    decreases n, |n.children| + 1
  {
    if t > 0 {
      var P := JointPaths(n);
      var C := ChildJointPaths(n, 0);
      assert P == (if IsSkeletonNode(n) then [[]] else []) + C;
      assert !(IsSkeletonNode(n) && q == 0);
      assert P[q] == C[q - Own(n)];
      ChildPrefixStartBound(n, 0, q - Own(n), t);
    }
  }

  lemma {:induction false} ChildPrefixStartBound(n: Node, i: nat, x: nat, t: nat)
    requires i <= |n.children| && x < |ChildJointPaths(n, i)|
    requires 1 <= t <= |ChildJointPaths(n, i)[x]|
    ensures ChildStart(n, ChildJointPaths(n, i)[x][..t]) <= CountBefore(n, i) + x
    decreases n, |n.children| - i
  {
    var c := n.children[i];
    var Pc := JointPaths(c);
    var C := ChildJointPaths(n, i);
    var C1 := ChildJointPaths(n, i + 1);
    assert C == Prefixed(i, Pc) + C1;
    if x < |Pc| {
      var s := Pc[x];
      assert C[x] == [i] + s;
      assert C[x][..t] == [i] + s[..t - 1];
      PrefixedPaths(i, s[..t - 1]);
      PrefixStartBound(c, x, t - 1);
    } else {
      assert C[x] == C1[x - |Pc|];
      ChildPrefixStartBound(n, i + 1, x - |Pc|, t);
    }
  }

  /** The joint pushed first on entering the subtree of a node on the path of
      the q-th joint lies in that subtree. */
  lemma {:induction false} FirstOfSubtree(n: Node, q: nat, t: nat)
    requires q < |JointPaths(n)| && t <= |JointPaths(n)[q]|
    ensures Start(n, JointPaths(n)[q][..t]) < |JointPaths(n)|
    ensures |JointPaths(n)[Start(n, JointPaths(n)[q][..t])]| >= t
    ensures JointPaths(n)[Start(n, JointPaths(n)[q][..t])][..t] == JointPaths(n)[q][..t]
    decreases n, |n.children| + 1, 1
  {
    PrefixStartBound(n, q, t);
    if t > 0 {
      FirstBelowNode(n, q, t);
    }
  }

  /** The case of FirstOfSubtree for a node strictly below n. */
  lemma {:induction false} FirstBelowNode(n: Node, q: nat, t: nat)
    requires q < |JointPaths(n)| && 1 <= t <= |JointPaths(n)[q]|
    ensures Start(n, JointPaths(n)[q][..t]) < |JointPaths(n)|
    ensures |JointPaths(n)[Start(n, JointPaths(n)[q][..t])]| >= t
    ensures JointPaths(n)[Start(n, JointPaths(n)[q][..t])][..t] == JointPaths(n)[q][..t]
    decreases n, |n.children| + 1, 0
  {
    var P := JointPaths(n);
    var C := ChildJointPaths(n, 0);
    assert P == (if IsSkeletonNode(n) then [[]] else []) + C;
    assert !(IsSkeletonNode(n) && q == 0);
    var x := q - Own(n);
    assert P[q] == C[x];
    ChildFirstOfSubtree(n, 0, x, t);
    assert CountBefore(n, 0) == 0;
    var u := ChildStart(n, C[x][..t]);
    assert |C[u]| >= t && C[u][..t] == C[x][..t];
    var st := Start(n, P[q][..t]);
    assert st == Own(n) + u;
    assert P[st] == C[u];
  }

  lemma {:induction false} ChildFirstOfSubtree(n: Node, i: nat, x: nat, t: nat)
    requires i <= |n.children| && x < |ChildJointPaths(n, i)|
    requires 1 <= t <= |ChildJointPaths(n, i)[x]|
    ensures CountBefore(n, i) <= ChildStart(n, ChildJointPaths(n, i)[x][..t])
    ensures ChildStart(n, ChildJointPaths(n, i)[x][..t]) - CountBefore(n, i) < |ChildJointPaths(n, i)|
    ensures var u := ChildStart(n, ChildJointPaths(n, i)[x][..t]) - CountBefore(n, i);
            |ChildJointPaths(n, i)[u]| >= t && ChildJointPaths(n, i)[u][..t] == ChildJointPaths(n, i)[x][..t]
    decreases n, |n.children| - i, 1
  {
    var Pc := JointPaths(n.children[i]);
    var C := ChildJointPaths(n, i);
    var C1 := ChildJointPaths(n, i + 1);
    assert C == Prefixed(i, Pc) + C1;
    if x < |Pc| {
      FirstInChild(n, i, x, t);
    } else {
      var y := x - |Pc|;
      assert C[x] == C1[y];
      ChildFirstOfSubtree(n, i + 1, y, t);
      assert CountBefore(n, i + 1) == CountBefore(n, i) + |Pc|;
      var u := ChildStart(n, C1[y][..t]) - CountBefore(n, i + 1);
      assert |C1[u]| >= t && C1[u][..t] == C1[y][..t];
      assert u + |Pc| < |C|;
      assert C[u + |Pc|] == C1[u];
      assert ChildStart(n, C[x][..t]) - CountBefore(n, i) == u + |Pc|;
    }
  }

  /** The case of ChildFirstOfSubtree where the joint lies below child i. */
  lemma {:induction false} FirstInChild(n: Node, i: nat, x: nat, t: nat)
    requires i < |n.children| && x < |JointPaths(n.children[i])|
    requires 1 <= t <= 1 + |JointPaths(n.children[i])[x]|
    ensures |ChildJointPaths(n, i)| > x
    ensures CountBefore(n, i) <= ChildStart(n, ChildJointPaths(n, i)[x][..t])
    ensures ChildStart(n, ChildJointPaths(n, i)[x][..t]) - CountBefore(n, i) < |ChildJointPaths(n, i)|
    ensures var u := ChildStart(n, ChildJointPaths(n, i)[x][..t]) - CountBefore(n, i);
            |ChildJointPaths(n, i)[u]| >= t && ChildJointPaths(n, i)[u][..t] == ChildJointPaths(n, i)[x][..t]
    decreases n, |n.children| - i, 0
  {
    var c := n.children[i];
    var Pc := JointPaths(c);
    var C := ChildJointPaths(n, i);
    assert C == Prefixed(i, Pc) + ChildJointPaths(n, i + 1);
    var s := Pc[x];
    assert C[x] == [i] + s;
    assert C[x][..t] == [i] + s[..t - 1];
    PrefixedPaths(i, s[..t - 1]);
    FirstOfSubtree(c, x, t - 1);
    var u := Start(c, s[..t - 1]);
    assert C[u] == [i] + Pc[u];
    assert C[u][..t] == [i] + Pc[u][..t - 1];
  }

  // ---------------------------------------------------------------------
  // JointPaths lists every skeleton node once.

  /** Every listed path leads to a skeleton node. */
  lemma {:induction false} JointPathsSound(n: Node)
    ensures forall q :: 0 <= q < |JointPaths(n)| ==>
              IsPathIn(n, JointPaths(n)[q]) && IsSkeletonNode(NodeAt(n, JointPaths(n)[q]))
    decreases n, |n.children| + 1
  {
    var P := JointPaths(n);
    var C := ChildJointPaths(n, 0);
    assert P == (if IsSkeletonNode(n) then [[]] else []) + C;
    ChildJointPathsSound(n, 0);
    forall q | 0 <= q < |P|
      ensures IsPathIn(n, P[q]) && IsSkeletonNode(NodeAt(n, P[q]))
    {
      if !(IsSkeletonNode(n) && q == 0) {
        assert P[q] == C[q - Own(n)];
      }
    }
  }

  lemma {:induction false} ChildJointPathsSound(n: Node, i: nat)
    requires i <= |n.children|
    ensures forall x :: 0 <= x < |ChildJointPaths(n, i)| ==>
              IsPathIn(n, ChildJointPaths(n, i)[x]) && IsSkeletonNode(NodeAt(n, ChildJointPaths(n, i)[x]))
    decreases n, |n.children| - i
  {
    if i < |n.children| {
      var c := n.children[i];
      var Pc := JointPaths(c);
      var C := ChildJointPaths(n, i);
      var C1 := ChildJointPaths(n, i + 1);
      assert C == Prefixed(i, Pc) + C1;
      JointPathsSound(c);
      ChildJointPathsSound(n, i + 1);
      forall x | 0 <= x < |C|
        ensures IsPathIn(n, C[x]) && IsSkeletonNode(NodeAt(n, C[x]))
      {
        if x < |Pc| {
          assert C[x] == [i] + Pc[x];
          PrefixedPaths(i, Pc[x]);
        } else {
          assert C[x] == C1[x - |Pc|];
        }
      }
    }
  }

  /** Every path to a skeleton node is listed. */
  lemma {:induction false} JointPathsComplete(n: Node, p: Path)
    requires IsPathIn(n, p) && IsSkeletonNode(NodeAt(n, p))
    ensures p in JointPaths(n)
    decreases |p|
  {
    var P := JointPaths(n);
    assert P == (if IsSkeletonNode(n) then [[]] else []) + ChildJointPaths(n, 0);
    if p == [] {
      assert P[0] == [];
    } else {
      var k := p[0];
      var c := n.children[k];
      JointPathsComplete(c, p[1..]);
      var y :| 0 <= y < |JointPaths(c)| && JointPaths(c)[y] == p[1..];
      ChildJointPathsContain(n, 0, k, y);
      assert [k] + p[1..] == p;
    }
  }

  lemma {:induction false} ChildJointPathsContain(n: Node, i: nat, k: nat, y: nat)
    requires i <= k < |n.children| && y < |JointPaths(n.children[k])|
    ensures [k] + JointPaths(n.children[k])[y] in ChildJointPaths(n, i)
    decreases |n.children| - i
  {
    var C := ChildJointPaths(n, i);
    var Pc := JointPaths(n.children[i]);
    assert C == Prefixed(i, Pc) + ChildJointPaths(n, i + 1);
    if i == k {
      assert C[y] == [k] + Pc[y];
    } else {
      ChildJointPathsContain(n, i + 1, k, y);
    }
  }

  /** No path is listed twice. */
  lemma ChildJointPathsDistinct(n: Node)
    ensures forall a, b :: 0 <= a < b < |ChildJointPaths(n, 0)| ==>
              ChildJointPaths(n, 0)[a] != ChildJointPaths(n, 0)[b]
  {
    var C := ChildJointPaths(n, 0);
    forall a, b | 0 <= a < b < |C|
      ensures C[a] != C[b]
    {
      ChildStartOfPath(n, 0, a);
      ChildStartOfPath(n, 0, b);
    }
  }

  // ---------------------------------------------------------------------
  // What ImportSkeletonMeshData produces.

  /** ImportSkeletonMeshData leaves the joints already in the skeleton as
      they were and appends exactly one joint per skeleton node below the
      scene root (the root itself is never visited), in depth-first preorder,
      with that node's name and translation and the default inverse bind
      matrix. */
  lemma OneJointPerSkeletonNode(root: Node, js: seq<Joint>)
    ensures var w := ImportedJoints(root, js); var Q := ChildJointPaths(root, 0);
            && |w| == |js| + |Q|
            && w[..|js|] == js
            && (forall q :: 0 <= q < |Q| ==>
                  && IsPathIn(root, Q[q]) && IsSkeletonNode(NodeAt(root, Q[q]))
                  && w[|js| + q].name == NodeAt(root, Q[q]).name
                  && w[|js| + q].coord == NodeAt(root, Q[q]).globalTranslation
                  && w[|js| + q].inversed == DefaultMat4)
            && (forall p :: p != [] && IsPathIn(root, p) && IsSkeletonNode(NodeAt(root, p)) ==> p in Q)
            && (forall a, b :: 0 <= a < b < |Q| ==> Q[a] != Q[b])
  {
    ImportShape(root, js);
    ChildJointPathsSound(root, 0);
    ChildJointPathsDistinct(root);
    var P := JointPaths(root);
    assert P == (if IsSkeletonNode(root) then [[]] else []) + ChildJointPaths(root, 0);
    forall p | p != [] && IsPathIn(root, p) && IsSkeletonNode(NodeAt(root, p))
      ensures p in ChildJointPaths(root, 0)
    {
      JointPathsComplete(root, p);
    }
  }

  /** A joint directly below the scene root gets parent index -1; a joint
      directly below one of the root's children gets parent index 0, whatever
      that child's position (every top-level call passes myIndex 0). */
  lemma TopLevelParents(root: Node, js: seq<Joint>)
    ensures |ImportedJoints(root, js)| == |js| + |ChildJointPaths(root, 0)|
    ensures var w := ImportedJoints(root, js); var Q := ChildJointPaths(root, 0);
            forall q :: 0 <= q < |Q| ==>
              (|Q[q]| == 1 ==> w[|js| + q].parent_index == -1) &&
              (|Q[q]| == 2 ==> w[|js| + q].parent_index == 0)
  {
    ImportShape(root, js);
  }

  /** Below the root's children, a joint whose parent node is a joint records
      that joint's position, which comes before its own. */
  lemma ParentJointPosition(root: Node, js: seq<Joint>, a: nat, q: nat)
    requires var Q := ChildJointPaths(root, 0);
             a < |Q| && q < |Q| && |Q[q]| >= 3 && Q[a] == Parent(Q[q])
    ensures |ImportedJoints(root, js)| == |js| + |ChildJointPaths(root, 0)|
    ensures ImportedJoints(root, js)[|js| + q].parent_index == |js| + a
    ensures a < q
  {
    var Q := ChildJointPaths(root, 0);
    ImportShape(root, js);
    ChildStartOfPath(root, 0, a);
    ChildPrefixStartBound(root, 0, q, |Q[q]| - 1);
  }

  /** Below the root's children, a joint whose parent node is not a joint
      records the position of the first joint under that parent node: its
      own position, or that of a joint pushed earlier under the same node,
      and no joint under that node comes before it. */
  lemma ParentUnderNonJoint(root: Node, js: seq<Joint>, q: nat)
    requires var Q := ChildJointPaths(root, 0);
             q < |Q| && |Q[q]| >= 3 && Parent(Q[q]) !in Q
    ensures |ImportedJoints(root, js)| == |js| + |ChildJointPaths(root, 0)|
    ensures var Q := ChildJointPaths(root, 0);
            var r := ImportedJoints(root, js)[|js| + q].parent_index - |js|;
            0 <= r <= q && |Q[r]| >= |Q[q]| - 1 && Q[r][..|Q[q]| - 1] == Parent(Q[q])
    ensures var Q := ChildJointPaths(root, 0);
            var r := ImportedJoints(root, js)[|js| + q].parent_index - |js|;
            forall r2 :: 0 <= r2 < |Q| && |Q[r2]| >= |Q[q]| - 1 && Q[r2][..|Q[q]| - 1] == Parent(Q[q]) ==> r <= r2
  {
    var Q := ChildJointPaths(root, 0);
    ImportShape(root, js);
    ChildFirstOfSubtree(root, 0, q, |Q[q]| - 1);
    ChildPrefixStartBound(root, 0, q, |Q[q]| - 1);
    forall r2 | 0 <= r2 < |Q| && |Q[r2]| >= |Q[q]| - 1 && Q[r2][..|Q[q]| - 1] == Parent(Q[q])
      ensures ImportedJoints(root, js)[|js| + q].parent_index - |js| <= r2
    {
      ChildPrefixStartBound(root, 0, r2, |Q[q]| - 1);
    }
  }

  /** Every parent index is -1 or the position of an earlier joint. */
  ghost predicate ParentsPrecede(js: seq<Joint>)
  {
    forall k :: 0 <= k < |js| ==> js[k].parent_index == -1 || 0 <= js[k].parent_index < k
  }

  /** Below the root's children, every skeleton node's parent node is a
      skeleton node too. */
  ghost predicate JointParentsAreJoints(root: Node)
  {
    var Q := ChildJointPaths(root, 0);
    forall q :: 0 <= q < |Q| && |Q[q]| >= 2 ==> Parent(Q[q]) in Q
  }

  /** Where the scene's joints hang only from joints, each appended joint's
      parent index points backwards. */
  lemma CleanParentPrecedes(root: Node, js: seq<Joint>, q: nat)
    requires JointParentsAreJoints(root) && q < |ChildJointPaths(root, 0)|
    ensures |ImportedJoints(root, js)| == |js| + |ChildJointPaths(root, 0)|
    ensures var p := ImportedJoints(root, js)[|js| + q].parent_index;
            p == -1 || 0 <= p < |js| + q
  {
    var Q := ChildJointPaths(root, 0);
    ImportShape(root, js);
    var p := ImportedJoints(root, js)[|js| + q].parent_index;
    assert p == TopRule(root, |js|, Q[q]);
    if |Q[q]| >= 2 {
      var a :| 0 <= a < |Q| && Q[a] == Parent(Q[q]);
      if |Q[q]| == 2 {
        ChildStartOfPath(root, 0, a);
        ChildPrefixStartBound(root, 0, q, 1);
        assert Q[q][..1] == Q[a];
        assert a != q;
      } else {
        ParentJointPosition(root, js, a, q);
      }
    }
  }

  /** Where the scene's joints hang only from joints, the import keeps every
      parent index pointing backwards. */
  lemma CleanHierarchyParentsPrecede(root: Node, js: seq<Joint>)
    requires JointParentsAreJoints(root) && ParentsPrecede(js)
    ensures ParentsPrecede(ImportedJoints(root, js))
  {
    var w := ImportedJoints(root, js);
    ImportShape(root, js);
    forall k | 0 <= k < |w|
      ensures w[k].parent_index == -1 || 0 <= w[k].parent_index < k
    {
      if k < |js| {
        assert w[k] == w[..|js|][k];
      } else {
        CleanParentPrecedes(root, js, k - |js|);
      }
    }
  }

  /** A scene whose only joints hang from a plain transform node ("Armature",
      an eNull): the first joint records itself as parent, the second records
      its sibling. */
  lemma JointsUnderNullNode()
    ensures var z := ZeroVec3;
            var hips := Node("Hips", [NodeAttribute(eSkeleton, "Hips")], z, []);
            var tail := Node("Tail", [NodeAttribute(eSkeleton, "Tail")], z, []);
            var armature := Node("Armature", [NodeAttribute(eNull, "Armature")], z, [hips, tail]);
            var root := Node("RootNode", [], z, [armature]);
            ImportedJoints(root, []) == [Joint(DefaultMat4, z, "Hips", 0), Joint(DefaultMat4, z, "Tail", 0)]
  {
    var z := ZeroVec3;
    var hips := Node("Hips", [NodeAttribute(eSkeleton, "Hips")], z, []);
    var tail := Node("Tail", [NodeAttribute(eSkeleton, "Tail")], z, []);
    var armature := Node("Armature", [NodeAttribute(eNull, "Armature")], z, [hips, tail]);
    var root := Node("RootNode", [], z, [armature]);
    var jh := Joint(DefaultMat4, z, "Hips", 0);
    var jt := Joint(DefaultMat4, z, "Tail", 0);
    assert Walk(hips, 0, 0, []) == WalkChildren(hips, 0, 0, [jh]) == [jh];
    assert Walk(tail, 1, 0, [jh]) == WalkChildren(tail, 0, 1, [jh, jt]) == [jh, jt];
    assert WalkChildren(armature, 0, 0, []) == WalkChildren(armature, 1, 0, [jh])
        == WalkChildren(armature, 2, 0, [jh, jt]) == [jh, jt];
    assert Walk(armature, 0, -1, []) == [jh, jt];
    assert TopLevelWalk(root, 0, []) == TopLevelWalk(root, 1, [jh, jt]) == [jh, jt];
  }

  /** A plain transform node between two joints (A, then an eNull B, then
      C): C is pushed at position 1 with parent index 1, so it names
      itself as its parent instead of A. */
  lemma JointUnderNullBelowJoint()
    ensures var z := ZeroVec3;
            var c := Node("C", [NodeAttribute(eSkeleton, "C")], z, []);
            var b := Node("B", [NodeAttribute(eNull, "B")], z, [c]);
            var a := Node("A", [NodeAttribute(eSkeleton, "A")], z, [b]);
            var root := Node("RootNode", [], z, [a]);
            ImportedJoints(root, []) == [Joint(DefaultMat4, z, "A", -1), Joint(DefaultMat4, z, "C", 1)]
  {
    var z := ZeroVec3;
    var c := Node("C", [NodeAttribute(eSkeleton, "C")], z, []);
    var b := Node("B", [NodeAttribute(eNull, "B")], z, [c]);
    var a := Node("A", [NodeAttribute(eSkeleton, "A")], z, [b]);
    var root := Node("RootNode", [], z, [a]);
    var ja := Joint(DefaultMat4, z, "A", -1);
    var jc := Joint(DefaultMat4, z, "C", 1);
    assert Walk(c, 1, 1, [ja]) == WalkChildren(c, 0, 1, [ja, jc]) == [ja, jc];
    assert WalkChildren(b, 0, 1, [ja]) == WalkChildren(b, 1, 1, [ja, jc]) == [ja, jc];
    assert Walk(b, 1, 0, [ja]) == [ja, jc];
    assert WalkChildren(a, 0, 0, [ja]) == WalkChildren(a, 1, 0, [ja, jc]) == [ja, jc];
    assert IsSkeletonNode(a) && JointOf(a, -1) == ja;
    assert [] + [ja] == [ja];
    assert Walk(a, 0, -1, []) == WalkChildren(a, 0, 0, [ja]);
    assert TopLevelWalk(root, 0, []) == TopLevelWalk(root, 1, [ja, jc]) == [ja, jc];
  }

  /** A joint under a plain root child that follows a joint root child (A,
      then an eNull B holding the joint C): C records parent 0, A's position,
      so every parent comes earlier although C does not hang from a skeleton
      node. */
  lemma JointUnderNullAfterJoint()
    ensures var z := ZeroVec3;
            var a := Node("A", [NodeAttribute(eSkeleton, "A")], z, []);
            var c := Node("C", [NodeAttribute(eSkeleton, "C")], z, []);
            var b := Node("B", [NodeAttribute(eNull, "B")], z, [c]);
            var root := Node("RootNode", [], z, [a, b]);
            ImportedJoints(root, []) == [Joint(DefaultMat4, z, "A", -1), Joint(DefaultMat4, z, "C", 0)]
  {
    var z := ZeroVec3;
    var a := Node("A", [NodeAttribute(eSkeleton, "A")], z, []);
    var c := Node("C", [NodeAttribute(eSkeleton, "C")], z, []);
    var b := Node("B", [NodeAttribute(eNull, "B")], z, [c]);
    var root := Node("RootNode", [], z, [a, b]);
    var ja := Joint(DefaultMat4, z, "A", -1);
    var jc := Joint(DefaultMat4, z, "C", 0);
    assert IsSkeletonNode(a) && JointOf(a, -1) == ja;
    assert [] + [ja] == [ja];
    assert Walk(a, 0, -1, []) == WalkChildren(a, 0, 0, [ja]) == [ja];
    assert Walk(c, 1, 0, [ja]) == WalkChildren(c, 0, 1, [ja, jc]) == [ja, jc];
    assert Walk(b, 0, -1, [ja]) == WalkChildren(b, 0, 0, [ja]) == WalkChildren(b, 1, 0, [ja, jc]) == [ja, jc];
    assert TopLevelWalk(root, 0, []) == TopLevelWalk(root, 1, [ja]) == TopLevelWalk(root, 2, [ja, jc]) == [ja, jc];
  }
}
