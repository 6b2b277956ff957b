/** The face detector (apps/FaceDetector/app.py): each tick takes one camera
    image, asks the pose estimator for body landmarks and, when both eyes are
    visible, publishes the pixel midway between them if it falls inside the
    image. Image decoding, the pose estimator and the display window are
    outside this model: the image is its size, the estimator's answer and the
    key pressed in the window are parameters. */
module FaceDetector {
  import opened Wrappers
  import opened Bottle
  import Numeric

  /** A pose landmark: normalised image coordinates, depth and visibility. */
  datatype Landmark = Landmark(x: real, y: real, z: real, visibility: real)

  datatype State = State(display: bool, period: real)

  const DefaultPeriod: real := 0.1
  const VisibilityCriterion: real := 0.5
  const LeftEye := 2
  const RightEye := 5
  /** The pose estimator's landmark list always covers both eye indices. */
  const MinLandmarks := 6

  /** The constructor: no display, period 0.1. */
  function Initial(): (st: State)
    ensures !st.display && st.period == DefaultPeriod
  {
    State(false, DefaultPeriod)
  }

  /** `configure`: display only when the setting is present and true; the
      period falls back to 0.1 when absent or zero. */
  function Configure(st: State, display: Option<Value>, period: Option<Value>): (r: State)
    ensures r.display <==> display.Some? && AsBool(display.value)
    ensures period.Some? && AsFloat64(period.value) != 0.0 ==> r.period == AsFloat64(period.value)
    ensures period.None? || AsFloat64(period.value) == 0.0 ==> r.period == DefaultPeriod
    ensures r.period != 0.0
  {
    State(display.Some? && AsBool(display.value), FloatOr(period, DefaultPeriod))
  }

  /** Mean of two reals, as `np.mean` over the two eye indices. */
  function Mean(a: real, b: real): (m: real)
    ensures (a <= m <= b) || (b <= m <= a)
    ensures m - a == b - m
  {
    (a + b) / 2.0
  }

  /** `find_eye_midpoint` over the two eyes. */
  function EyeMidpoint(lm: seq<Landmark>): (p: (real, real, real))
    requires |lm| >= MinLandmarks
    ensures p.0 - lm[LeftEye].x == lm[RightEye].x - p.0
    ensures p.1 - lm[LeftEye].y == lm[RightEye].y - p.1
    ensures p.2 - lm[LeftEye].z == lm[RightEye].z - p.2
  {
    (Mean(lm[LeftEye].x, lm[RightEye].x), Mean(lm[LeftEye].y, lm[RightEye].y), Mean(lm[LeftEye].z, lm[RightEye].z))
  }

  predicate EyesVisible(lm: seq<Landmark>)
    requires |lm| >= MinLandmarks
  {
    lm[LeftEye].visibility > VisibilityCriterion && lm[RightEye].visibility > VisibilityCriterion
  }

  /** What a tick did with its image. */
  datatype Outcome =
    | NoImage
    | NoLandmarks
    | EyesNotVisible
    | OutOfBounds
    | Emitted(message: Message)

  datatype Tick = Tick(outcome: Outcome, keepRunning: bool)

  /** A normalised coordinate scaled to an image dimension. */
  function Scale(a: real, n: int): real
  {
    a * n as real
  }

  /** Image pixel of the eye midpoint: the normalised coordinates scaled by
      the image size and truncated toward zero, as `int(u * w)`. */
  function MidpointPixel(lm: seq<Landmark>, width: int, height: int): (c: (int, int))
    requires |lm| >= MinLandmarks
    ensures var u := Scale(EyeMidpoint(lm).0, width);
      if u >= 0.0 then c.0 as real <= u < c.0 as real + 1.0 else c.0 as real - 1.0 < u <= c.0 as real
    ensures var v := Scale(EyeMidpoint(lm).1, height);
      if v >= 0.0 then c.1 as real <= v < c.1 as real + 1.0 else c.1 as real - 1.0 < v <= c.1 as real
  {
    var m := EyeMidpoint(lm);
    (Numeric.Truncate(Scale(m.0, width)), Numeric.Truncate(Scale(m.1, height)))
  }

  /** Everything before the display step of `updateModule`. */
  function Detect(width: int, height: int, landmarks: Option<seq<Landmark>>): (o: Outcome)
    requires landmarks.Some? ==> |landmarks.value| >= MinLandmarks
    ensures o != NoImage
    ensures o.Emitted? ==> landmarks.Some? && EyesVisible(landmarks.value)
  {
    match landmarks
    case None => NoLandmarks
    case Some(lm) =>
      if !EyesVisible(lm) then EyesNotVisible
      else
        var c := MidpointPixel(lm, width, height);
        if 0 <= c.0 < width && 0 <= c.1 < height then Emitted([Int(c.0), Int(c.1)]) else OutOfBounds
  }

  /** `updateModule`: without an image, nothing happens; otherwise detect and,
      when displaying, stop if the key `q` was pressed. An empty landmark
      result is None. */
  function UpdateModule(st: State, image: Option<(int, int)>, landmarks: Option<seq<Landmark>>, quitKey: bool): (t: Tick)
    requires landmarks.Some? ==> |landmarks.value| >= MinLandmarks
    ensures image.None? ==> t == Tick(NoImage, true)
    ensures t.outcome.Emitted? ==> |t.outcome.message| == 2 && t.outcome.message[0].Int? && t.outcome.message[1].Int?
    ensures !t.keepRunning <==> image.Some? && st.display && quitKey
  {
    match image
    case None => Tick(NoImage, true)
    case Some((w, h)) => Tick(Detect(w, h, landmarks), !(st.display && quitKey))
  }

  /** `respond`: a `period` key sets the period; `quit` stops the module;
      anything else is refused. */
  datatype Response = Response(state: State, reply: seq<string>, keepRunning: bool)

  function Respond(st: State, cmd: Message): (r: Response)
    ensures r.state.display == st.display
    ensures Check(cmd, "period") ==> r.state.period == AsFloat64(Find(cmd, "period")) && r.reply == ["ack"] && r.keepRunning
    ensures !Check(cmd, "period") ==> r.state == st
    ensures !Check(cmd, "period") && IsQuit(Get(cmd, 0)) ==> r.reply == ["bye"] && !r.keepRunning
    ensures !Check(cmd, "period") && !IsQuit(Get(cmd, 0)) ==> r.reply == ["nack", "unknown command"] && r.keepRunning
  {
    if Check(cmd, "period") then Response(st.(period := AsFloat64(Find(cmd, "period"))), ["ack"], true)
    else if IsQuit(Get(cmd, 0)) then Response(st, ["bye"], false)
    else Response(st, ["nack", "unknown command"], true)
  }

  // ---------------------------------------------------------------------------
  // Properties

  /** The published midpoint is always a pixel of the image. */
  lemma EmittedInBounds(st: State, w: int, h: int, lm: seq<Landmark>, quitKey: bool)
    requires |lm| >= MinLandmarks
    ensures var t := UpdateModule(st, Some((w, h)), Some(lm), quitKey);
      t.outcome.Emitted? ==>
        var c := MidpointPixel(lm, w, h);
        t.outcome.message == [Int(c.0), Int(c.1)] && 0 <= c.0 < w && 0 <= c.1 < h
  {
  }

  /** A midpoint is published exactly when both eyes are visible and the scaled
      midpoint lies strictly between -1 and the image size on both axes: because
      of the truncation toward zero, a point up to one pixel left of or above
      the image is published as column or row 0. */
  lemma EmitsIff(st: State, w: int, h: int, lm: seq<Landmark>, quitKey: bool)
    requires |lm| >= MinLandmarks && w > 0 && h > 0
    ensures var t := UpdateModule(st, Some((w, h)), Some(lm), quitKey);
      var m := EyeMidpoint(lm);
      t.outcome.Emitted? <==>
        EyesVisible(lm)
        && -1.0 < Scale(m.0, w) < w as real
        && -1.0 < Scale(m.1, h) < h as real
  {
    var m := EyeMidpoint(lm);
    var c := MidpointPixel(lm, w, h);
    EmitsIffPixel(st, w, h, lm, quitKey);
    InRangeAxis(m.0, w, c.0);
    InRangeAxis(m.1, h, c.1);
  }

  /** One axis: the truncated scaled coordinate is an index exactly when the
      scaled coordinate lies strictly between -1 and the size. */
  lemma InRangeAxis(a: real, n: int, c: int)
    requires n > 0 && c == Numeric.Truncate(Scale(a, n))
    ensures 0 <= c < n <==> -1.0 < Scale(a, n) < n as real
  {
    Numeric.TruncateInRange(Scale(a, n), n);
  }

  /** The same, in terms of the truncated pixel. */
  lemma EmitsIffPixel(st: State, w: int, h: int, lm: seq<Landmark>, quitKey: bool)
    requires |lm| >= MinLandmarks
    ensures var c := MidpointPixel(lm, w, h);
      UpdateModule(st, Some((w, h)), Some(lm), quitKey).outcome.Emitted?
      <==> EyesVisible(lm) && 0 <= c.0 < w && 0 <= c.1 < h
  {
  }

  /** With both eyes inside the normalised image, so is their midpoint, and it is published. */
  lemma VisibleEyesInsideArePublished(st: State, w: int, h: int, lm: seq<Landmark>, quitKey: bool)
    requires |lm| >= MinLandmarks && w > 0 && h > 0 && EyesVisible(lm)
    requires 0.0 <= lm[LeftEye].x < 1.0 && 0.0 <= lm[RightEye].x < 1.0
    requires 0.0 <= lm[LeftEye].y < 1.0 && 0.0 <= lm[RightEye].y < 1.0
    ensures UpdateModule(st, Some((w, h)), Some(lm), quitKey).outcome.Emitted?
  {
    var m := EyeMidpoint(lm);
    assert 0.0 <= m.0 < 1.0 && 0.0 <= m.1 < 1.0;
    assert 0.0 <= Scale(m.0, w) < w as real by {
      MulBelow(m.0, w as real);
      assert Scale(m.0, w) == m.0 * w as real;
    }
    assert 0.0 <= Scale(m.1, h) < h as real by {
      MulBelow(m.1, h as real);
      assert Scale(m.1, h) == m.1 * h as real;
    }
    EmitsIff(st, w, h, lm, quitKey);
  }

  lemma MulBelow(a: real, n: real)
    requires 0.0 <= a < 1.0 && n > 0.0
    ensures 0.0 <= a * n < n
  {
  }

  /** A missing or invisible face publishes nothing and keeps the module running
      unless the display's quit key was pressed. */
  lemma NothingWithoutVisibleEyes(st: State, w: int, h: int, landmarks: Option<seq<Landmark>>, quitKey: bool)
    requires landmarks.Some? ==> |landmarks.value| >= MinLandmarks
    requires landmarks.None? || !EyesVisible(landmarks.value)
    ensures var t := UpdateModule(st, Some((w, h)), landmarks, quitKey);
      !t.outcome.Emitted? && (t.outcome == NoLandmarks <==> landmarks.None?)
  {
  }

  /** `period 0.5`, flat or as a group, sets the period to 0.5 and nothing else. */
  lemma PeriodCommand(st: State, p: real)
    ensures Respond(st, [Str("period"), Float(p)]) == Response(st.(period := p), ["ack"], true)
    ensures Respond(st, [List([Str("period"), Float(p)])]) == Response(st.(period := p), ["ack"], true)
  {
    var flat: Message := [Str("period"), Float(p)];
    assert Find(flat, "period") == Float(p);
    var group: Message := [List([Str("period"), Float(p)])];
    assert group[0].items[0] == Str("period");
    assert Find(group, "period") == Float(p);
  }
}
