/**
 * The head-nod detector of nod_detection.py: a classifier over a window of eye
 * positions (`track_head_movement`) and the per-frame update of that window in the
 * capture loop. Camera capture, the Haar cascade and drawing are outside the model:
 * a frame is the list of eye bounding boxes the cascade reported for it.
 */
module NodDetection {
  import opened Wrappers

  /** Minimum mean movement, in pixels, that counts as head motion. */
  const HeadMovementThreshold: int := 10
  /** Number of two-eye frames the classifier needs. */
  const HeadMovementFrames: nat := 10

  datatype Point = Point(x: int, y: int)
  /** The top-left corners of the first and second detected eye of one frame. */
  datatype EyeSample = EyeSample(left: Point, right: Point)
  /** A bounding box `(x, y, w, h)` as the cascade reports it. */
  datatype Box = Box(x: int, y: int, w: int, h: int)
  datatype Nod = Yes | No

  function Lefts(window: seq<EyeSample>): (r: seq<Point>)
    ensures |r| == |window| && forall i :: 0 <= i < |window| ==> r[i] == window[i].left
  {
    if window == [] then [] else [window[0].left] + Lefts(window[1..])
  }

  function Rights(window: seq<EyeSample>): (r: seq<Point>)
    ensures |r| == |window| && forall i :: 0 <= i < |window| ==> r[i] == window[i].right
  {
    if window == [] then [] else [window[0].right] + Rights(window[1..])
  }

  function Xs(ps: seq<Point>): (r: seq<int>)
    ensures |r| == |ps| && forall i :: 0 <= i < |ps| ==> r[i] == ps[i].x
  {
    if ps == [] then [] else [ps[0].x] + Xs(ps[1..])
  }

  function Ys(ps: seq<Point>): (r: seq<int>)
    ensures |r| == |ps| && forall i :: 0 <= i < |ps| ==> r[i] == ps[i].y
  {
    if ps == [] then [] else [ps[0].y] + Ys(ps[1..])
  }

  /** `np.diff`: the steps between consecutive values. */
  function Diff(xs: seq<int>): (r: seq<int>)
    ensures |xs| >= 1 ==> |r| == |xs| - 1
    ensures |xs| == 0 ==> r == []
    ensures forall i :: 0 <= i < |r| ==> r[i] == xs[i + 1] - xs[i]
  {
    if |xs| <= 1 then [] else [xs[1] - xs[0]] + Diff(xs[1..])
  }

  /** Element-wise sum of two equally long arrays (numpy `+`). */
  function AddSeq(a: seq<int>, b: seq<int>): (r: seq<int>)
    requires |a| == |b|
    ensures |r| == |a| && forall i :: 0 <= i < |a| ==> r[i] == a[i] + b[i]
  {
    if a == [] then [] else [a[0] + b[0]] + AddSeq(a[1..], b[1..])
  }

  function Sum(xs: seq<int>): int {
    if xs == [] then 0 else xs[0] + Sum(xs[1..])
  }

  /** `np.mean` of a non-empty integer array. */
  function Mean(xs: seq<int>): real
    requires |xs| > 0
  {
    Sum(xs) as real / |xs| as real
  }

  function AbsReal(r: real): real { if r < 0.0 then -r else r }
  function AbsInt(n: int): nat { if n < 0 then -n else n }

  /** The steps of a sequence add up to its last value minus its first (telescoping). */
  lemma {:induction false} SumDiffTelescopes(xs: seq<int>)
    requires |xs| >= 1
    ensures Sum(Diff(xs)) == xs[|xs| - 1] - xs[0]
  {
    if |xs| > 1 {
      SumDiffTelescopes(xs[1..]);
    }
  }

  lemma {:induction false} SumAddSeq(a: seq<int>, b: seq<int>)
    requires |a| == |b|
    ensures Sum(AddSeq(a, b)) == Sum(a) + Sum(b)
  {
    if a != [] {
      SumAddSeq(a[1..], b[1..]);
    }
  }

  /** Comparing a mean over `n` steps with the threshold is comparing the sum with `threshold * n`. */
  lemma MeanAgainstThreshold(s: int, n: int, t: int)
    requires n > 0
    ensures AbsReal(s as real / n as real) > t as real <==> AbsInt(s) > t * n
    ensures AbsReal(s as real / n as real) < t as real <==> AbsInt(s) < t * n
  {
    var q := s as real / n as real;
    assert q * n as real == s as real;
    assert AbsReal(q) * n as real == AbsInt(s) as real;
    assert (t * n) as real == t as real * n as real;
  }

  /** The horizontal displacement of both eyes between the first and the last sample. */
  function DisplacementX(window: seq<EyeSample>): int
    requires |window| >= 1
  {
    (window[|window| - 1].left.x - window[0].left.x) + (window[|window| - 1].right.x - window[0].right.x)
  }

  /** The vertical displacement of both eyes between the first and the last sample. */
  function DisplacementY(window: seq<EyeSample>): int
    requires |window| >= 1
  {
    (window[|window| - 1].left.y - window[0].left.y) + (window[|window| - 1].right.y - window[0].right.y)
  }

  /** The direction test of nod_detection.py:70-75 on the two mean steps. */
  function Decide(dx: real, dy: real): Option<Nod>
  {
    var t := HeadMovementThreshold as real;
    if AbsReal(dx) > t && AbsReal(dy) < t then Some(No)
    else if AbsReal(dy) > t && AbsReal(dx) < t then Some(Yes)
    else None
  }

  /** The same test in integers: total displacements `sx`, `sy` over `n` steps against
    * `threshold * n`. A reference definition that avoids the division. */
  function DecideByDisplacement(sx: int, sy: int, n: nat): Option<Nod>
  {
    var t := HeadMovementThreshold * n;
    if AbsInt(sx) > t && AbsInt(sy) < t then Some(No)
    else if AbsInt(sy) > t && AbsInt(sx) < t then Some(Yes)
    else None
  }

  /** Dividing by the step count and comparing with the threshold decides as the integer test. */
  lemma DecideAgreesWithDisplacement(sx: int, sy: int, n: nat)
    requires n > 0
    ensures Decide(sx as real / n as real, sy as real / n as real) == DecideByDisplacement(sx, sy, n)
  {
    MeanAgainstThreshold(sx, n, HeadMovementThreshold);
    MeanAgainstThreshold(sy, n, HeadMovementThreshold);
  }

  /** `dx` of nod_detection.py:56-66: the mean of the summed x steps of both eyes. */
  function MeanStepX(window: seq<EyeSample>): real
    requires |window| >= 2
  {
    var leftEyePositions, rightEyePositions := Lefts(window), Rights(window);
    var leftEyeDx, rightEyeDx := Diff(Xs(leftEyePositions)), Diff(Xs(rightEyePositions));
    Mean(AddSeq(leftEyeDx, rightEyeDx))
  }

  /** `dy` of nod_detection.py:56-67: the mean of the summed y steps of both eyes. */
  function MeanStepY(window: seq<EyeSample>): real
    requires |window| >= 2
  {
    var leftEyePositions, rightEyePositions := Lefts(window), Rights(window);
    var leftEyeDy, rightEyeDy := Diff(Ys(leftEyePositions)), Diff(Ys(rightEyePositions));
    Mean(AddSeq(leftEyeDy, rightEyeDy))
  }

  /** The mean steps are the net displacements divided by the number of steps. */
  lemma MeanStepIsDisplacement(window: seq<EyeSample>)
    requires |window| >= 2
    ensures MeanStepX(window) == DisplacementX(window) as real / (|window| - 1) as real
    ensures MeanStepY(window) == DisplacementY(window) as real / (|window| - 1) as real
  {
    var ls, rs := Lefts(window), Rights(window);
    var stepsX := AddSeq(Diff(Xs(ls)), Diff(Xs(rs)));
    var stepsY := AddSeq(Diff(Ys(ls)), Diff(Ys(rs)));
    MeanIsDisplacement(window);
    assert MeanStepX(window) == Mean(stepsX);
    assert MeanStepY(window) == Mean(stepsY);
  }

  lemma TrackAgreesWithDisplacement(window: seq<EyeSample>)
    requires |window| >= 2
    ensures Decide(MeanStepX(window), MeanStepY(window))
         == DecideByDisplacement(DisplacementX(window), DisplacementY(window), |window| - 1)
  {
    var n := |window| - 1;
    var sx, sy := DisplacementX(window), DisplacementY(window);
    MeanStepIsDisplacement(window);
    DecideAgreesWithDisplacement(sx, sy, n);
  }

  /** `track_head_movement`: the mean step of both eyes decides between a horizontal
    * shake ("No"), a vertical nod ("Yes") and no decision. */
  function TrackHeadMovement(window: seq<EyeSample>): (r: Option<Nod>)
    ensures |window| < HeadMovementFrames ==> r == None
    ensures |window| >= HeadMovementFrames ==>
              r == DecideByDisplacement(DisplacementX(window), DisplacementY(window), |window| - 1)
  {
    if |window| < HeadMovementFrames then None
    else
      TrackAgreesWithDisplacement(window);
      Decide(MeanStepX(window), MeanStepY(window))
  }

  /** A displacement of exactly the threshold on either axis decides nothing. */
  lemma ThresholdIsUndecided(sx: int, sy: int, n: nat)
    requires AbsInt(sx) == HeadMovementThreshold * n || AbsInt(sy) == HeadMovementThreshold * n
    ensures DecideByDisplacement(sx, sy, n) == None
  {
  }

  /** Summing the element-wise sum of the steps of two sequences gives both net changes. */
  lemma PairTelescopes(a: seq<int>, b: seq<int>)
    requires |a| == |b| >= 1
    ensures |Diff(a)| == |Diff(b)| == |a| - 1
    ensures Sum(AddSeq(Diff(a), Diff(b))) == (a[|a| - 1] - a[0]) + (b[|b| - 1] - b[0])
  {
    SumDiffTelescopes(a);
    SumDiffTelescopes(b);
    SumAddSeq(Diff(a), Diff(b));
  }

  /** The summed steps of both eyes telescope to the displacements between the first and
    * the last sample. */
  lemma MeanIsDisplacement(window: seq<EyeSample>)
    requires |window| >= 2
    ensures var ls, rs := Lefts(window), Rights(window);
            var sx := AddSeq(Diff(Xs(ls)), Diff(Xs(rs)));
            var sy := AddSeq(Diff(Ys(ls)), Diff(Ys(rs)));
            && |sx| == |window| - 1 && |sy| == |window| - 1
            && Sum(sx) == DisplacementX(window) && Sum(sy) == DisplacementY(window)
  {
    var ls, rs := Lefts(window), Rights(window);
    var last := |window| - 1;
    var lx, rx, ly, ry := Xs(ls), Xs(rs), Ys(ls), Ys(rs);
    assert lx[0] == window[0].left.x && lx[last] == window[last].left.x;
    assert rx[0] == window[0].right.x && rx[last] == window[last].right.x;
    assert ly[0] == window[0].left.y && ly[last] == window[last].left.y;
    assert ry[0] == window[0].right.y && ry[last] == window[last].right.y;
    PairTelescopes(lx, rx);
    PairTelescopes(ly, ry);
  }

  /** The sample a frame contributes: the top-left corners of its first two boxes. */
  function SampleOf(eyes: seq<Box>): EyeSample
    requires |eyes| == 2
  {
    EyeSample(Point(eyes[0].x, eyes[0].y), Point(eyes[1].x, eyes[1].y))
  }

  /** The window after the append-and-pop of one frame (nod_detection.py:91-94). */
  function Slide(window: seq<EyeSample>, eyes: seq<Box>): (r: seq<EyeSample>)
    ensures |eyes| != 2 ==> r == window
    ensures |eyes| == 2 ==> |r| >= 1 && r[|r| - 1] == SampleOf(eyes)
    ensures |eyes| == 2 && |window| < HeadMovementFrames ==> r == window + [SampleOf(eyes)]
    ensures |window| <= HeadMovementFrames ==> |r| <= HeadMovementFrames
  {
    if |eyes| == 2 then
      var appended := window + [SampleOf(eyes)];
      if |appended| > HeadMovementFrames then appended[1..] else appended
    else window
  }

  /** On a full window a two-eye frame drops exactly the oldest sample. */
  lemma SlideDropsOldest(window: seq<EyeSample>, eyes: seq<Box>)
    requires |window| == HeadMovementFrames && |eyes| == 2
    ensures Slide(window, eyes) == window[1..] + [SampleOf(eyes)]
  {
    assert (window + [SampleOf(eyes)])[1..] == window[1..] + [SampleOf(eyes)];
  }

  /** One iteration of the capture loop: the new window and the detected movement. */
  function Step(window: seq<EyeSample>, eyes: seq<Box>): (r: (seq<EyeSample>, Option<Nod>))
    ensures |window| <= HeadMovementFrames ==> |r.0| <= HeadMovementFrames
    ensures |window| <= HeadMovementFrames && r.1.Some? ==> |Slide(window, eyes)| == HeadMovementFrames && r.0 == []
  {
    var w := Slide(window, eyes);
    var movement := TrackHeadMovement(w);
    (if movement.Some? then [] else w, movement)
  }

  /** The samples of those of `frames` that show exactly two eyes, in order. */
  function TwoEyeSamples(frames: seq<seq<Box>>): (r: seq<EyeSample>)
    ensures |r| <= |frames|
  {
    if frames == [] then []
    else
      var last := frames[|frames| - 1];
      TwoEyeSamples(frames[..|frames| - 1]) + (if |last| == 2 then [SampleOf(last)] else [])
  }

  /** The window after running `frames` through the loop from `window`, and whether any
    * of them produced a movement. */
  function Run(window: seq<EyeSample>, frames: seq<seq<Box>>): (r: (seq<EyeSample>, bool))
    ensures |window| <= HeadMovementFrames ==> |r.0| <= HeadMovementFrames
  {
    if frames == [] then (window, false)
    else
      var (w, detected) := Run(window, frames[..|frames| - 1]);
      var (w', movement) := Step(w, frames[|frames| - 1]);
      (w', detected || movement.Some?)
  }

  /** After a reset, nothing is detected until ten two-eye frames have been seen: the window
    * holds exactly the samples of the two-eye frames so far, in order. */
  lemma {:induction false} FreshWindowNeedsTenFrames(frames: seq<seq<Box>>)
    requires |TwoEyeSamples(frames)| < HeadMovementFrames
    ensures Run([], frames).0 == TwoEyeSamples(frames)
    ensures !Run([], frames).1
  {
    if frames != [] {
      var prefix := frames[..|frames| - 1];
      FreshWindowNeedsTenFrames(prefix);
    }
  }

  function NodText(nod: Nod): string {
    match nod
    case Yes => "Yes"
    case No => "No"
  }

  /** The loop's state: the eye-position window and the message to show. */
  class NodTracker {
    var eyePositions: seq<EyeSample>
    var displayMessage: string

    ghost predicate Valid()
      reads this
    {
      |eyePositions| <= HeadMovementFrames
    }

    constructor ()
      ensures Valid() && eyePositions == [] && displayMessage == ""
    {
      eyePositions := [];
      displayMessage := "";
    }

    /** Lines 91-101 of one pass of the `while True` loop, for a frame whose detected eyes
      * are `eyes`; clearing the message after its display time is not modelled. */
    method ProcessFrame(eyes: seq<Box>) returns (movement: Option<Nod>)
      requires Valid()
      modifies this
      ensures Valid()
      ensures (eyePositions, movement) == Step(old(eyePositions), eyes)
      ensures movement.Some? ==> eyePositions == [] && displayMessage == NodText(movement.value)
      ensures movement.None? ==> displayMessage == old(displayMessage)
    {
      var window := eyePositions;
      if |eyes| == 2 {
        window := window + [SampleOf(eyes)];
        if |window| > HeadMovementFrames {
          window := window[1..];
        }
      }
      assert window == Slide(eyePositions, eyes);
      movement := TrackHeadMovement(window);
      if movement.Some? {
        displayMessage := NodText(movement.value);
        window := [];
      }
      eyePositions := window;
    }
  }
}
