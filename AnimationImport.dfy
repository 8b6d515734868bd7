/** The frame arithmetic of Importer::ImportAnimationData and the skin loop
    of Importer::ProcessJointsAndAnimations.

    Frames are counted in the 24-frames-per-second time mode; `start` and
    `end` are the frame numbers of the take's local time span, supplied by
    the caller because they come from the FBX scene. The per-frame transform
    evaluation is matrix arithmetic whose results the code discards, so a
    frame loop is modelled by the frame numbers it visits. */
module AnimationImport {
  import opened SceneProxy
  import opened Fbx
  import opened SkeletonImport

  /** mAnimationLength: the number of frames from start to end inclusive. */
  function AnimationLength(start: int, end: int): int
  {
    end - start + 1
  }

  /** The frames start, start + 1, ..., end, one at a time (none when
      end < start); in closed form, AnimationLength frames, the k-th being
      start + k. */
  function FrameRange(start: int, end: int): (r: seq<int>)
    ensures |r| == if start <= end then AnimationLength(start, end) else 0
    ensures forall k :: 0 <= k < |r| ==> r[k] == start + k
    decreases end - start + 1
  {
    if start > end then [] else [start] + FrameRange(start + 1, end)
  }

  /** The frame loop `for (i = start; i <= end; ++i)`: the frame numbers in
      the order the loop visits them. */
  method FrameSpan(start: int, end: int) returns (frames: seq<int>)
    ensures |frames| == if start <= end then AnimationLength(start, end) else 0
    ensures forall k :: 0 <= k < |frames| ==> frames[k] == start + k
  {
    frames := [];
    var i := start;
    while i <= end
      invariant start <= i && (i <= end + 1 || i == start)
      invariant |frames| == i - start
      invariant forall k :: 0 <= k < |frames| ==> frames[k] == start + k
      decreases end - i
    {
      frames := frames + [i];
      i := i + 1;
    }
  }

  /** FrameRange is the only list with the length and elements FrameSpan
      promises. */
  lemma FramesAreFrameRange(start: int, end: int, frames: seq<int>)
    requires |frames| == if start <= end then AnimationLength(start, end) else 0
    requires forall k :: 0 <= k < |frames| ==> frames[k] == start + k
    ensures frames == FrameRange(start, end)
  {
    var r := FrameRange(start, end);
    assert |frames| == |r|;
    forall k | 0 <= k < |r|
      ensures frames[k] == r[k]
    {
    }
  }

  /** The loop visits every frame of [start, end] exactly once and in
      increasing order, and visits nothing else. */
  lemma FrameRangeVisitsEachFrameOnce(start: int, end: int)
    ensures forall f :: f in FrameRange(start, end) <==> start <= f <= end
    ensures forall a, b :: 0 <= a < b < |FrameRange(start, end)| ==>
              FrameRange(start, end)[a] < FrameRange(start, end)[b]
  {
    var r := FrameRange(start, end);
    forall f | start <= f <= end
      ensures f in r
    {
      assert r[f - start] == f;
    }
  }

  /** What ImportAnimationData computes of the take: its length and the
      frames its loop visits; it always reports success. */
  method ImportAnimationData(start: int, end: int) returns (ok: bool, length: int, frames: seq<int>)
    ensures ok
    ensures length == AnimationLength(start, end)
    ensures start <= end ==> |frames| == length
    ensures end < start ==> frames == [] && length <= 0
    ensures frames == FrameRange(start, end)
  {
    length := end - start + 1;
    frames := FrameSpan(start, end);
    FramesAreFrameRange(start, end, frames);
    ok := true;
  }

  // ---------------------------------------------------------------------
  // The skin loop.

  /** The cluster lists of the skin deformers of ds, in order. These are what
      GetDeformer(0, eSkin), GetDeformer(1, eSkin), ... return. */
  function Skins(ds: seq<Deformer>): (r: seq<seq<Cluster>>)
    ensures |r| <= |ds|
  {
    if ds == [] then []
    else Skins(ds[..|ds| - 1]) + (if ds[|ds| - 1].Skin? then [ds[|ds| - 1].clusters] else [])
  }

  /** The clusters of a sequence of cluster lists, list after list. */
  function Concat(ss: seq<seq<Cluster>>): seq<Cluster>
  {
    if ss == [] then [] else Concat(ss[..|ss| - 1]) + ss[|ss| - 1]
  }

  /** Every skin cluster of the mesh, in the order the loop visits them. */
  function SkinClusters(m: Mesh): seq<Cluster>
  {
    Concat(Skins(m.deformers))
  }

  /** Every cluster links to a joint of the skeleton; the code writes to
      `joints[currJointIndex]` without checking that the lookup succeeded. */
  predicate LinksResolve(js: seq<Joint>, cs: seq<Cluster>)
  {
    forall k :: 0 <= k < |cs| ==> IndexOfName(js, cs[k].linkName) != -1
  }

  /** The joints after the loop has stored the bind-pose inverse of clusters
      cs, in order; the stub convertFBXMatrix yields glm::mat4(). */
  function BindPoses(js: seq<Joint>, cs: seq<Cluster>): (r: seq<Joint>)
    requires LinksResolve(js, cs)
    ensures |r| == |js|
  {
    if cs == [] then js
    else
      var prev := BindPoses(js, cs[..|cs| - 1]);
      var i := IndexOfName(js, cs[|cs| - 1].linkName);
      prev[i := prev[i].(inversed := DefaultMat4)]
  }

  /** One cluster's visit: the joint it was resolved to and the frames the
      frame loop ran over. */
  datatype ClusterVisit = ClusterVisit(joint: int, frames: seq<int>)

  /** ProcessJointsAndAnimations on a skeleton received by value. `bound` is
      that local copy when the function returns; the caller's skeleton, a
      separate value, is never written. */
  method ProcessJointsAndAnimations(currMesh: Mesh, skeleton: Skeleton, start: int, end: int)
    returns (bound: Skeleton, visits: seq<ClusterVisit>)
    requires LinksResolve(skeleton.joints, SkinClusters(currMesh))
    ensures bound.joints == BindPoses(skeleton.joints, SkinClusters(currMesh))
    ensures |visits| == |SkinClusters(currMesh)|
    ensures forall k :: 0 <= k < |visits| ==>
              visits[k] == ClusterVisit(IndexOfName(skeleton.joints, SkinClusters(currMesh)[k].linkName),
                                        FrameRange(start, end))
  {
    var ds := currMesh.deformers;
    var skins := Skins(ds);
    var all := SkinClusters(currMesh);
    bound := skeleton;
    visits := [];
    var numOfDeformers := |ds|;
    var deformerIndex := 0;
    while deformerIndex < numOfDeformers
      invariant 0 <= deformerIndex <= numOfDeformers
      invariant var done := Concat(skins[..Min(deformerIndex, |skins|)]);
                LinksResolve(skeleton.joints, done) && bound.joints == BindPoses(skeleton.joints, done) &&
                Visited(skeleton.joints, done, start, end, visits)
    {
      if deformerIndex >= |skins| {
        deformerIndex := deformerIndex + 1;
        continue;
      }
      var currSkin := skins[deformerIndex];
      ghost var before := Concat(skins[..deformerIndex]);
      assert skins[..deformerIndex + 1][..deformerIndex] == skins[..deformerIndex];
      ConcatPrefix(skins, deformerIndex + 1);
      ConcatOfPrefix(skins, deformerIndex + 1);
      PrefixResolves(skeleton.joints, before + currSkin, all);
      PrefixResolves(skeleton.joints, before, before + currSkin);
      bound, visits := ProcessSkin(currSkin, skeleton.joints, before, bound, visits, start, end);
      deformerIndex := deformerIndex + 1;
    }
    assert skins[..Min(numOfDeformers, |skins|)] == skins;
  }

  /** The cluster loop of one skin: resolves each cluster's joint by name in
      the local skeleton, stores the stub bind-pose inverse there, and runs
      the frame loop. `js` are the joints the function received and `done`
      the clusters of the skins before this one. */
  method ProcessSkin(currSkin: seq<Cluster>, ghost js: seq<Joint>, ghost done: seq<Cluster>,
                     skeleton: Skeleton, visited: seq<ClusterVisit>, start: int, end: int)
    returns (bound: Skeleton, visits: seq<ClusterVisit>)
    requires LinksResolve(js, done) && LinksResolve(js, done + currSkin)
    requires skeleton.joints == BindPoses(js, done) && Visited(js, done, start, end, visited)
    ensures bound.joints == BindPoses(js, done + currSkin)
    ensures Visited(js, done + currSkin, start, end, visits)
  {
    bound, visits := skeleton, visited;
    var clusterIndex := 0;
    ghost var cs := done;
    while clusterIndex < |currSkin|
      invariant 0 <= clusterIndex <= |currSkin|
      invariant cs == done + currSkin[..clusterIndex]
      invariant LinksResolve(js, cs)
      invariant bound.joints == BindPoses(js, cs)
      invariant Visited(js, cs, start, end, visits)
    {
      var currCluster := currSkin[clusterIndex];
      PrefixStep(done, currSkin, clusterIndex);
      PrefixResolves(js, cs + [currCluster], done + currSkin);
      ghost var i := BindPosesStep(js, cs, currCluster);
      BindPosesKeepNames(js, cs);
      SameNamesSameIndex(bound.joints, js, currCluster.linkName);
      var currJointIndex := FindJointIndexUsingName(currCluster.linkName, bound);
      bound := bound.(joints := bound.joints[currJointIndex := bound.joints[currJointIndex].(inversed := DefaultMat4)]);
      var frames := FrameSpan(start, end);
      FramesAreFrameRange(start, end, frames);
      VisitedStep(js, cs, currCluster, start, end, visits, ClusterVisit(currJointIndex, frames));
      visits := visits + [ClusterVisit(currJointIndex, frames)];
      cs := cs + [currCluster];
      clusterIndex := clusterIndex + 1;
    }
    assert currSkin[..|currSkin|] == currSkin;
  }

  function Min(a: int, b: int): int
  {
    if a <= b then a else b
  }

  predicate PrefixOf(a: seq<Cluster>, b: seq<Cluster>)
  {
    |a| <= |b| && b[..|a|] == a
  }

  /** `visits` records clusters cs, one visit each, in order. */
  predicate Visited(js: seq<Joint>, cs: seq<Cluster>, start: int, end: int, visits: seq<ClusterVisit>)
  {
    |visits| == |cs| &&
    forall k :: 0 <= k < |cs| ==> visits[k] == ClusterVisit(IndexOfName(js, cs[k].linkName), FrameRange(start, end))
  }

  // ---------------------------------------------------------------------
  // Helpers of the loop proof.

  lemma ConcatPrefix(ss: seq<seq<Cluster>>, m: nat)
    requires 0 < m <= |ss|
    ensures Concat(ss[..m]) == Concat(ss[..m - 1]) + ss[m - 1]
  {
    assert ss[..m][..m - 1] == ss[..m - 1];
  }

  lemma {:induction false} ConcatOfPrefix(ss: seq<seq<Cluster>>, m: nat)
    requires m <= |ss|
    ensures PrefixOf(Concat(ss[..m]), Concat(ss))
    decreases |ss|
  {
    if m < |ss| {
      var init := ss[..|ss| - 1];
      assert init[..m] == ss[..m];
      ConcatOfPrefix(init, m);
      assert Concat(ss) == Concat(init) + ss[|ss| - 1];
      assert Concat(ss)[..|Concat(init)|] == Concat(init);
    } else {
      assert ss[..m] == ss;
    }
  }

  lemma PrefixStep(before: seq<Cluster>, skin: seq<Cluster>, n: nat)
    requires n < |skin|
    ensures before + skin[..n + 1] == before + skin[..n] + [skin[n]]
    ensures PrefixOf(before + skin[..n + 1], before + skin)
  {
    assert skin[..n + 1] == skin[..n] + [skin[n]];
    assert before + skin[..n + 1] == (before + skin)[..|before| + n + 1];
  }

  /** One more cluster stores the default matrix into the joint it resolves
      to. */
  lemma BindPosesStep(js: seq<Joint>, cs: seq<Cluster>, c: Cluster) returns (i: int)
    requires LinksResolve(js, cs + [c])
    ensures LinksResolve(js, cs)
    ensures i == IndexOfName(js, c.linkName) && 0 <= i < |js|
    ensures BindPoses(js, cs + [c]) == BindPoses(js, cs)[i := BindPoses(js, cs)[i].(inversed := DefaultMat4)]
  {
    assert (cs + [c])[..|cs|] == cs;
    assert (cs + [c])[|cs|] == c;
    PrefixResolves(js, cs, cs + [c]);
    i := IndexOfName(js, c.linkName);
  }

  lemma VisitedStep(js: seq<Joint>, cs: seq<Cluster>, c: Cluster, start: int, end: int,
                    visits: seq<ClusterVisit>, v: ClusterVisit)
    requires Visited(js, cs, start, end, visits)
    requires v == ClusterVisit(IndexOfName(js, c.linkName), FrameRange(start, end))
    ensures Visited(js, cs + [c], start, end, visits + [v])
  {
    assert forall k :: 0 <= k < |cs| ==> (cs + [c])[k] == cs[k] && (visits + [v])[k] == visits[k];
  }

  lemma PrefixResolves(js: seq<Joint>, cs: seq<Cluster>, all: seq<Cluster>)
    requires PrefixOf(cs, all) && LinksResolve(js, all)
    ensures LinksResolve(js, cs)
  {
    forall k | 0 <= k < |cs|
      ensures IndexOfName(js, cs[k].linkName) != -1
    {
      assert cs[k] == all[k];
    }
  }

  lemma {:induction false} BindPosesKeepNames(js: seq<Joint>, cs: seq<Cluster>)
    requires LinksResolve(js, cs)
    ensures forall i :: 0 <= i < |js| ==> BindPoses(js, cs)[i].name == js[i].name
  {
    if cs != [] {
      PrefixResolves(js, cs[..|cs| - 1], cs);
      BindPosesKeepNames(js, cs[..|cs| - 1]);
    }
  }

  lemma {:induction false} SameNamesSameIndex(a: seq<Joint>, b: seq<Joint>, name: string)
    requires |a| == |b| && forall i :: 0 <= i < |a| ==> a[i].name == b[i].name
    ensures IndexOfName(a, name) == IndexOfName(b, name)
  {
    if |a| > 0 && a[0].name != name {
      SameNamesSameIndex(a[1..], b[1..], name);
    }
  }

  // ---------------------------------------------------------------------
  // What the loop does, stated independently of the loop.

  /** Some cluster of cs resolves to joint i. */
  predicate ResolvesTo(js: seq<Joint>, cs: seq<Cluster>, i: int)
  {
    exists k :: 0 <= k < |cs| && IndexOfName(js, cs[k].linkName) == i
  }

  lemma ResolvesToLast(js: seq<Joint>, cs: seq<Cluster>, i: int)
    requires cs != []
    ensures ResolvesTo(js, cs, i) <==>
              ResolvesTo(js, cs[..|cs| - 1], i) || IndexOfName(js, cs[|cs| - 1].linkName) == i
  {
    var init := cs[..|cs| - 1];
    if ResolvesTo(js, init, i) {
      var k :| 0 <= k < |init| && IndexOfName(js, init[k].linkName) == i;
      assert cs[k] == init[k];
    }
    if ResolvesTo(js, cs, i) {
      var k :| 0 <= k < |cs| && IndexOfName(js, cs[k].linkName) == i;
      if k < |init| {
        assert init[k] == cs[k];
      }
    }
  }

  /** Joint i ends up with the default inverse bind matrix exactly when some
      cluster resolves to it; every other joint, and every other field of
      every joint, is left as it was. */
  lemma {:induction false} BindPosesAt(js: seq<Joint>, cs: seq<Cluster>, i: nat)
    requires LinksResolve(js, cs) && i < |js|
    ensures BindPoses(js, cs)[i] ==
              if ResolvesTo(js, cs, i) then js[i].(inversed := DefaultMat4) else js[i]
  {
    if cs != [] {
      var init := cs[..|cs| - 1];
      PrefixResolves(js, init, cs);
      BindPosesAt(js, init, i);
      ResolvesToLast(js, cs, i);
    }
  }

  /** The loop neither adds nor removes joints and changes no name, position
      or parent index; only the inverse bind matrices move. */
  lemma BindPosesOnlySetInverses(js: seq<Joint>, cs: seq<Cluster>)
    requires LinksResolve(js, cs)
    ensures |BindPoses(js, cs)| == |js|
    ensures forall i :: 0 <= i < |js| ==>
              BindPoses(js, cs)[i].(inversed := js[i].inversed) == js[i]
  {
    forall i | 0 <= i < |js|
      ensures BindPoses(js, cs)[i].(inversed := js[i].inversed) == js[i]
    {
      BindPosesAt(js, cs, i);
    }
  }

  /** Deformers that are not skins contribute no cluster: appending one
      leaves the visited clusters as they were, appending a skin adds its
      clusters at the end. */
  lemma SkinsSkipOtherDeformers(ds: seq<Deformer>, d: Deformer)
    ensures Concat(Skins(ds + [d])) == if d.Skin? then Concat(Skins(ds)) + d.clusters else Concat(Skins(ds))
  {
    assert (ds + [d])[..|ds|] == ds;
    if d.Skin? {
      assert Skins(ds + [d]) == Skins(ds) + [d.clusters];
      assert Skins(ds + [d])[..|Skins(ds)|] == Skins(ds);
    } else {
      assert Skins(ds + [d]) == Skins(ds);
    }
  }
}
