/** The animation part of the render loop in main.cpp: the sample counter
    `animation_sample_count`, advanced once per frame through 0..13, and the
    copy of the current sample's global inverse matrices into the
    fixed-capacity matrix array handed to the shader's constant buffer.

    Window, camera, drawing and buffer upload are left out; whether the
    window has been closed is replaced by a number of frames to render. */
module RenderLoop {
  import opened SceneProxy

  /** The number of counter values: the counter runs 0, 1, ..., 13. */
  const SampleCycle := 14

  /** The update at the top of each frame: count up below 13, else back to
      0. On the values the counter takes it is a step modulo 14. */
  function NextCount(c: int): (r: int)
    ensures 0 <= c <= 13 ==> 0 <= r <= 13 && r == (c + 1) % SampleCycle
  {
    if c < 13 then c + 1 else 0
  }

  /** The counter value after k frames, starting from its initial 0: frame k
      reads sample k mod 14, so the first frame reads sample 1 and sample 0
      is read every fourteenth frame. */
  function CountAfter(k: nat): (r: int)
    ensures r == k % SampleCycle
    ensures 0 <= r <= 13
  {
    if k == 0 then 0 else NextCount(CountAfter(k - 1))
  }

  /** The counter repeats with period 14 and with no shorter period: it
      is back to a value exactly when a multiple of 14 frames have passed. */
  lemma CountPeriod(k: nat, m: nat)
    ensures CountAfter(k + m) == CountAfter(k) <==> m % SampleCycle == 0
  {
    var a, r := k % 14, m % 14;
    var x := 14 * (k / 14 + m / 14);
    assert k + m == x + (a + r);
    if a + r < 14 {
      ModOfSum(x, a + r);
    } else {
      ModOfSum(x + 14, a + r - 14);
    }
  }

  lemma ModOfSum(x: nat, y: nat)
    requires x % 14 == 0 && y < 14
    ensures (x + y) % 14 == y
  {
  }

  /** The per-frame state main() keeps for playback: the sample counter and
      the skinning-matrix array of animation_inversed_matrix. */
  class Playback {
    var animation_sample_count: int
    const global_inversed_matrix: array<Mat4>

    /** The counter's range is 0..13 at every point of the loop. */
    predicate Valid()
      reads this
    {
      0 <= animation_sample_count <= 13
    }

    /** The counter starts at 0; the array holds `capacity` matrices. */
    constructor (capacity: nat)
      ensures Valid() && animation_sample_count == 0
      ensures fresh(global_inversed_matrix) && global_inversed_matrix.Length == capacity
      ensures forall i :: 0 <= i < capacity ==> global_inversed_matrix[i] == DefaultMat4
    {
      animation_sample_count := 0;
      global_inversed_matrix := new Mat4[capacity](_ => DefaultMat4);
    }

    /** The counter update, before any use of the counter in the frame. */
    method Tick()
      requires Valid()
      modifies this
      ensures Valid()
      ensures animation_sample_count == NextCount(old(animation_sample_count))
    {
      if animation_sample_count < 13 {
        animation_sample_count := animation_sample_count + 1;
      } else {
        animation_sample_count := 0;
      }
    }

    /** The copy of the current sample's matrices, skipped when the clip has
        no samples. The source checks neither that the counter indexes a
        sample nor that the sample fits the array; both are required here. */
    method CopyPose(clip: AnimationClip)
      requires FrameFits(clip, animation_sample_count, global_inversed_matrix.Length)
      modifies global_inversed_matrix
      ensures |clip.samples| == 0 ==> global_inversed_matrix[..] == old(global_inversed_matrix[..])
      ensures |clip.samples| > 0 ==> SlotsHold(global_inversed_matrix[..], old(global_inversed_matrix[..]),
                                               clip.samples[animation_sample_count])
    {
      if |clip.samples| != 0 {
        var sample := clip.samples[animation_sample_count];
        var i := 0;
        while i < |sample.jointposes|
          invariant 0 <= i <= |sample.jointposes|
          invariant forall j :: 0 <= j < i ==> global_inversed_matrix[j] == sample.jointposes[j].global_inverse_matrix
          invariant forall j :: i <= j < global_inversed_matrix.Length ==> global_inversed_matrix[j] == old(global_inversed_matrix[j])
        {
          global_inversed_matrix[i] := sample.jointposes[i].global_inverse_matrix;
          i := i + 1;
        }
      }
    }

    /** One pass of the render loop: advance the counter, then copy. */
    method RenderFrame(clip: AnimationClip)
      requires Valid()
      requires FrameFits(clip, NextCount(animation_sample_count), global_inversed_matrix.Length)
      modifies this, global_inversed_matrix
      ensures Valid()
      ensures animation_sample_count == NextCount(old(animation_sample_count))
      ensures |clip.samples| == 0 ==> global_inversed_matrix[..] == old(global_inversed_matrix[..])
      ensures |clip.samples| > 0 ==> SlotsHold(global_inversed_matrix[..], old(global_inversed_matrix[..]),
                                               clip.samples[animation_sample_count])
    {
      Tick();
      CopyPose(clip);
    }

    /** The render loop run for `frames` frames from a fresh counter. */
    method Play(clip: AnimationClip, frames: nat)
      requires Valid() && animation_sample_count == 0
      requires forall f :: 1 <= f <= frames ==> FrameFits(clip, CountAfter(f), global_inversed_matrix.Length)
      modifies this, global_inversed_matrix
      ensures Valid() && animation_sample_count == CountAfter(frames)
      ensures |clip.samples| == 0 ==> global_inversed_matrix[..] == old(global_inversed_matrix[..])
      ensures frames > 0 ==> FrameFits(clip, CountAfter(frames), global_inversed_matrix.Length)
      ensures |clip.samples| > 0 && frames > 0 ==>
        forall i :: 0 <= i < |clip.samples[CountAfter(frames)].jointposes| ==>
          global_inversed_matrix[i] == clip.samples[CountAfter(frames)].jointposes[i].global_inverse_matrix
    {
      var f := 0;
      while f < frames
        invariant 0 <= f <= frames
        invariant Valid() && animation_sample_count == CountAfter(f)
        invariant |clip.samples| == 0 ==> global_inversed_matrix[..] == old(global_inversed_matrix[..])
        invariant |clip.samples| > 0 && f > 0 ==>
          forall i :: 0 <= i < |clip.samples[CountAfter(f)].jointposes| ==>
            global_inversed_matrix[i] == clip.samples[CountAfter(f)].jointposes[i].global_inverse_matrix
      {
        assert FrameFits(clip, CountAfter(f + 1), global_inversed_matrix.Length);
        RenderFrame(clip);
        f := f + 1;
      }
    }
  }

  /** When the clip has samples, `count` indexes one of them and that
      sample's joints fit an array of `capacity` matrices. */
  predicate FrameFits(clip: AnimationClip, count: int, capacity: nat)
  {
    |clip.samples| > 0 ==>
      0 <= count < |clip.samples| && |clip.samples[count].jointposes| <= capacity
  }

  /** After copying `sample` over `before`: slot i holds joint i's global
      inverse matrix for every joint of the sample, and every higher slot is
      unchanged. */
  predicate SlotsHold(after: seq<Mat4>, before: seq<Mat4>, sample: AnimationSample)
  {
    && |after| == |before|
    && |sample.jointposes| <= |after|
    && (forall i :: 0 <= i < |sample.jointposes| ==> after[i] == sample.jointposes[i].global_inverse_matrix)
    && (forall i :: |sample.jointposes| <= i < |after| ==> after[i] == before[i])
  }
}
