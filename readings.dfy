/**
 * The read-only projections of the facade over the handle's animation data:
 * the total number of frames, and the current frame and frame rate found by
 * scanning the animatables and then their runtime animations in order.
 */
module Readings {
  import opened Engine

  /** The frame of the last key of a targeted animation. */
  function LastFrame(keys: seq<int>): int
    requires |keys| > 0
  {
    keys[|keys| - 1]
  }

  /** There is at least one targeted animation, and every one has a key. */
  predicate HasFrames(tracks: seq<seq<int>>)
  {
    |tracks| > 0 && forall i :: 0 <= i < |tracks| ==> |tracks[i]| > 0
  }

  /** The last-key frame of each targeted animation, in order. */
  function LastFrames(tracks: seq<seq<int>>): seq<int>
    requires forall i :: 0 <= i < |tracks| ==> |tracks[i]| > 0
  {
    seq(|tracks|, i requires 0 <= i < |tracks| => LastFrame(tracks[i]))
  }

  /** The largest element of a non-empty sequence. */
  function Max(s: seq<int>): (m: int)
    requires |s| > 0
    ensures forall i :: 0 <= i < |s| ==> s[i] <= m
    ensures exists i :: 0 <= i < |s| && s[i] == m
  {
    if |s| == 1 then s[0]
    else
      var rest := Max(s[1..]);
      assert forall i :: 1 <= i < |s| ==> s[i] == s[1..][i - 1];
      if s[0] >= rest then s[0] else rest
  }

  /** The animation's length in frames: the largest last-key frame over all
      targeted animations. */
  function TotalFrames(tracks: seq<seq<int>>): (r: int)
    requires HasFrames(tracks)
    ensures forall i :: 0 <= i < |tracks| ==> LastFrame(tracks[i]) <= r
    ensures exists i :: 0 <= i < |tracks| && LastFrame(tracks[i]) == r
  {
    var frames := LastFrames(tracks);
    assert forall i :: 0 <= i < |tracks| ==> frames[i] == LastFrame(tracks[i]);
    Max(frames)
  }

  /** Two targeted animations whose last keys are at frames 30 and 60 last 60 frames. */
  lemma TotalFramesExample()
    ensures TotalFrames([[0, 30], [0, 15, 60]]) == 60
  {
  }

  /** Which value of a runtime animation a scan looks for. */
  datatype Reading = FrameReading | FpsReading

  /** The value a scan reads from one runtime animation; 0 stands for a value
      that does not stop the scan (frame 0, no animation attached, or rate 0). */
  function ReadingOf(ra: RuntimeAnimation, which: Reading): int
  {
    match which
    case FrameReading => ra.currentFrame
    case FpsReading =>
      match ra.framePerSecond
      case Some(fps) => fps
      case None => 0
  }

  /** The first nonzero reading among the runtime animations of one animatable, or 0. */
  function FirstNonzeroIn(animations: seq<RuntimeAnimation>, which: Reading): int
  {
    if |animations| == 0 then 0
    else if ReadingOf(animations[0], which) != 0 then ReadingOf(animations[0], which)
    else FirstNonzeroIn(animations[1..], which)
  }

  /** The first nonzero reading over all animatables in order, each scanned in
      order of its runtime animations, or 0 when there is none. */
  function FirstNonzero(animatables: seq<seq<RuntimeAnimation>>, which: Reading): int
  {
    if |animatables| == 0 then 0
    else if FirstNonzeroIn(animatables[0], which) != 0 then FirstNonzeroIn(animatables[0], which)
    else FirstNonzero(animatables[1..], which)
  }

  /** The nested scan with early return, as the facade's getters run it. */
  method Scan(animatables: seq<seq<RuntimeAnimation>>, which: Reading) returns (r: int)
    ensures r == FirstNonzero(animatables, which)
  {
    var i := 0;
    while i < |animatables|
      invariant 0 <= i <= |animatables|
      invariant FirstNonzero(animatables[i..], which) == FirstNonzero(animatables, which)
    {
      var animations := animatables[i];
      assert animatables[i..][0] == animations && animatables[i..][1..] == animatables[i + 1..];
      if |animations| == 0 {
        i := i + 1;
        continue;
      }
      var idx := 0;
      while idx < |animations|
        invariant 0 <= idx <= |animations|
        invariant FirstNonzeroIn(animations[idx..], which) == FirstNonzeroIn(animations, which)
      {
        var v := ReadingOf(animations[idx], which);
        assert animations[idx..][0] == animations[idx] && animations[idx..][1..] == animations[idx + 1..];
        if v != 0 {
          return v;
        }
        idx := idx + 1;
      }
      i := i + 1;
    }
    return 0;
  }

  // ---------------------------------------------------------------------
  // The scan as a first match in animatable-then-animation order.

  ghost predicate IsPosition(animatables: seq<seq<RuntimeAnimation>>, i: int, k: int)
  {
    0 <= i < |animatables| && 0 <= k < |animatables[i]|
  }

  /** Every reading at a position before (i, k) in scan order is 0. */
  ghost predicate ZeroBefore(animatables: seq<seq<RuntimeAnimation>>, which: Reading, i: int, k: int)
  {
    forall i', k' :: IsPosition(animatables, i', k') && (i' < i || (i' == i && k' < k)) ==>
      ReadingOf(animatables[i'][k'], which) == 0
  }

  lemma {:induction false} FirstNonzeroInAt(animations: seq<RuntimeAnimation>, which: Reading, k: int)
    requires 0 <= k < |animations| && ReadingOf(animations[k], which) != 0
    requires forall j :: 0 <= j < k ==> ReadingOf(animations[j], which) == 0
    ensures FirstNonzeroIn(animations, which) == ReadingOf(animations[k], which)
  {
    if k > 0 {
      assert ReadingOf(animations[0], which) == 0;
      assert forall j :: 0 <= j < k - 1 ==> animations[1..][j] == animations[j + 1];
      FirstNonzeroInAt(animations[1..], which, k - 1);
    }
  }

  lemma {:induction false} FirstNonzeroInZero(animations: seq<RuntimeAnimation>, which: Reading)
    ensures FirstNonzeroIn(animations, which) == 0 <==>
      forall k :: 0 <= k < |animations| ==> ReadingOf(animations[k], which) == 0
  {
    if |animations| > 0 {
      FirstNonzeroInZero(animations[1..], which);
      assert forall k :: 1 <= k < |animations| ==> animations[k] == animations[1..][k - 1];
    }
  }

  lemma {:induction false} FirstNonzeroInFound(animations: seq<RuntimeAnimation>, which: Reading)
    requires FirstNonzeroIn(animations, which) != 0
    ensures exists k :: (0 <= k < |animations| && ReadingOf(animations[k], which) == FirstNonzeroIn(animations, which) &&
                         forall j :: 0 <= j < k ==> ReadingOf(animations[j], which) == 0)
  {
    if ReadingOf(animations[0], which) == 0 {
      FirstNonzeroInFound(animations[1..], which);
      var k :| 0 <= k < |animations| - 1 && ReadingOf(animations[1..][k], which) == FirstNonzeroIn(animations[1..], which) &&
        forall j :: 0 <= j < k ==> ReadingOf(animations[1..][j], which) == 0;
      assert forall j :: 1 <= j < k + 1 ==> animations[j] == animations[1..][j - 1];
      assert ReadingOf(animations[k + 1], which) == FirstNonzeroIn(animations, which);
    } else {
      assert ReadingOf(animations[0], which) == FirstNonzeroIn(animations, which);
    }
  }

  /** If (i, k) holds a nonzero reading and all readings before it are 0, the
      scan returns that reading. */
  lemma {:induction false} FirstNonzeroAt(animatables: seq<seq<RuntimeAnimation>>, which: Reading, i: int, k: int)
    requires IsPosition(animatables, i, k) && ReadingOf(animatables[i][k], which) != 0
    requires ZeroBefore(animatables, which, i, k)
    ensures FirstNonzero(animatables, which) == ReadingOf(animatables[i][k], which)
  {
    if i == 0 {
      assert forall j :: 0 <= j < k ==> IsPosition(animatables, 0, j);
      FirstNonzeroInAt(animatables[0], which, k);
    } else {
      assert forall j :: 0 <= j < |animatables[0]| ==> IsPosition(animatables, 0, j);
      FirstNonzeroInZero(animatables[0], which);
      var rest := animatables[1..];
      forall i', k' | IsPosition(rest, i', k') && (i' < i - 1 || (i' == i - 1 && k' < k))
        ensures ReadingOf(rest[i'][k'], which) == 0
      {
        assert rest[i'] == animatables[i' + 1] && IsPosition(animatables, i' + 1, k');
      }
      assert rest[i - 1] == animatables[i];
      FirstNonzeroAt(rest, which, i - 1, k);
    }
  }

  /** The scan returns 0 exactly when every reading is 0. */
  lemma {:induction false} FirstNonzeroZero(animatables: seq<seq<RuntimeAnimation>>, which: Reading)
    ensures FirstNonzero(animatables, which) == 0 <==>
      forall i, k :: IsPosition(animatables, i, k) ==> ReadingOf(animatables[i][k], which) == 0
  {
    if |animatables| > 0 {
      var rest := animatables[1..];
      FirstNonzeroInZero(animatables[0], which);
      FirstNonzeroZero(rest, which);
      assert forall i :: 1 <= i < |animatables| ==> animatables[i] == rest[i - 1];
      if FirstNonzero(animatables, which) == 0 {
        forall i, k | IsPosition(animatables, i, k)
          ensures ReadingOf(animatables[i][k], which) == 0
        {
          if i > 0 { assert IsPosition(rest, i - 1, k); }
        }
      } else {
        if FirstNonzeroIn(animatables[0], which) == 0 {
          var i, k :| IsPosition(rest, i, k) && ReadingOf(rest[i][k], which) != 0;
          assert IsPosition(animatables, i + 1, k);
        } else {
          var k :| 0 <= k < |animatables[0]| && ReadingOf(animatables[0][k], which) != 0;
          assert IsPosition(animatables, 0, k);
        }
      }
    }
  }

  /** A nonzero result is the reading at some position all of whose
      predecessors in scan order read 0. */
  lemma {:induction false} FirstNonzeroFound(animatables: seq<seq<RuntimeAnimation>>, which: Reading)
    requires FirstNonzero(animatables, which) != 0
    ensures exists i, k :: (IsPosition(animatables, i, k) &&
                            ReadingOf(animatables[i][k], which) == FirstNonzero(animatables, which) &&
                            ZeroBefore(animatables, which, i, k))
  {
    var r := FirstNonzero(animatables, which);
    if FirstNonzeroIn(animatables[0], which) != 0 {
      FirstNonzeroInFound(animatables[0], which);
      var k :| 0 <= k < |animatables[0]| && ReadingOf(animatables[0][k], which) == r &&
        forall j :: 0 <= j < k ==> ReadingOf(animatables[0][j], which) == 0;
      assert IsPosition(animatables, 0, k) && ZeroBefore(animatables, which, 0, k);
    } else {
      var rest := animatables[1..];
      FirstNonzeroInZero(animatables[0], which);
      FirstNonzeroFound(rest, which);
      var i, k :| IsPosition(rest, i, k) && ReadingOf(rest[i][k], which) == r && ZeroBefore(rest, which, i, k);
      assert rest[i] == animatables[i + 1];
      forall i', k' | IsPosition(animatables, i', k') && (i' < i + 1 || (i' == i + 1 && k' < k))
        ensures ReadingOf(animatables[i'][k'], which) == 0
      {
        if i' > 0 {
          assert rest[i' - 1] == animatables[i'] && IsPosition(rest, i' - 1, k');
        }
      }
      assert IsPosition(animatables, i + 1, k) && ZeroBefore(animatables, which, i + 1, k);
    }
  }

  /** An animatable without runtime animations does not affect the scan,
      wherever it stands. */
  lemma {:induction false} FirstNonzeroSkipsEmpty(animatables: seq<seq<RuntimeAnimation>>, which: Reading, i: int)
    requires 0 <= i <= |animatables|
    ensures FirstNonzero(animatables[..i] + [[]] + animatables[i..], which) == FirstNonzero(animatables, which)
  {
    var with := animatables[..i] + [[]] + animatables[i..];
    if i == 0 {
      assert with[0] == [] && with[1..] == animatables;
    } else {
      var rest := animatables[1..];
      assert with[0] == animatables[0];
      assert with[1..] == rest[..i - 1] + [[]] + rest[i - 1..];
      FirstNonzeroSkipsEmpty(rest, which, i - 1);
    }
  }
}
