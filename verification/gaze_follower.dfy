/** The gaze-follower pipeline (icubFollower/src/utilities/GazeFollower.py) and
    its two variants (faceFollower.py, clickFollower.py): a message arriving on
    the input port is turned into a pixel, rescaled to the robot camera's
    320x240 frame and, under the module's lock and unless the module is
    stopping, sent to the gaze controller as a look-at command; interrupting
    the module raises the stop flag and parks the gaze. Gaze-controller calls
    are recorded as events; the camera resolution is a parameter. */
module GazeFollower {
  import opened Wrappers
  import opened Bottle

  const FrameWidth := 320
  const FrameHeight := 240
  const DefaultPeriod: real := 0.1
  /** The camera and timeout passed with every look-at command. */
  const LookCamera := 0
  const LookTimeout: real := 0.8
  /** The park posture: azimuth, elevation, vergence. */
  const ParkAzimuth: real := 0.0
  const ParkElevation: real := 0.0
  const ParkVergence: real := 5.0

  datatype Pixel = Pixel(u: real, v: real)

  /** How a variant extracts its target pixel from an input message. */
  datatype Kind =
    | Face(indexFace: nat, indexPixel: nat)
    | Click

  datatype Follower = Follower(
    kind: Kind,
    name: string,
    srcPort: Option<string>,
    period: real,
    stop: bool,
    width: int,   // camera resolution, as reported for the robot
    height: int)

  datatype Event =
    | OpenInPort(port: string, source: Option<string>)
    | Acquire
    | Release
    | LookAtMonoPixelSync(camera: int, pixel: Pixel, timeout: real)
    | WaitMotionDone
    | LookAtAbsAngles(azimuth: real, elevation: real, vergence: real)
    | CloseDriver

  /** The face variant: named `faceFollower`, first face, landmark 27
      (between the eyes), reading from the given source port. */
  function NewFaceFollower(srcPort: string, width: int, height: int): (f: Follower)
    ensures f.kind == Face(0, 27) && f.name == "faceFollower"
    ensures f.srcPort == Some(srcPort) && f.period == DefaultPeriod && !f.stop
  {
    Follower(Face(0, 27), "faceFollower", Some(srcPort), DefaultPeriod, false, width, height)
  }

  /** The click variant: named `clickFollower`. */
  function NewClickFollower(srcPort: string, width: int, height: int): (f: Follower)
    ensures f.kind == Click && f.name == "clickFollower"
    ensures f.srcPort == Some(srcPort) && f.period == DefaultPeriod && !f.stop
  {
    Follower(Click, "clickFollower", Some(srcPort), DefaultPeriod, false, width, height)
  }

  /** `getPixelTarget` of the face variant: element `indexFace` must be a list
      (one face) and its element `indexPixel` a list (one landmark), whose first
      two entries are read as integers. A non-list raises, so None. */
  function FacePixel(bot: Message, indexFace: nat, indexPixel: nat): (r: Option<(int, int)>)
    ensures r.Some? <==> AsList(Get(bot, indexFace)).Some?
                         && AsList(Get(AsList(Get(bot, indexFace)).value, indexPixel)).Some?
  {
    match AsList(Get(bot, indexFace))
    case None => None
    case Some(face) =>
      match AsList(Get(face, indexPixel))
      case None => None
      case Some(landmark) => Some((AsInt32(Get(landmark, 0)), AsInt32(Get(landmark, 1))))
  }

  /** `getPixelTarget` of the click variant: the first two elements as integers. */
  function ClickPixel(bot: Message): (r: (int, int))
    ensures |bot| >= 2 && bot[0].Int? && bot[1].Int? ==> r == (bot[0].int32, bot[1].int32)
    ensures |bot| == 0 ==> r == (0, 0)
  {
    (AsInt32(Get(bot, 0)), AsInt32(Get(bot, 1)))
  }

  function PixelTarget(kind: Kind, bot: Message): Option<(int, int)>
  {
    match kind
    case Face(iFace, iPixel) => FacePixel(bot, iFace, iPixel)
    case Click => Some(ClickPixel(bot))
  }

  /** `__resizePixel__`: `u / (width / 320)` and `v / (height / 240)`; a zero
      width or height divides by zero, so None. The partner property: scaling
      the result back to the camera's resolution gives the pixel back. */
  function ResizePixel(u: int, v: int, width: int, height: int): (r: Option<Pixel>)
    ensures r.Some? <==> width != 0 && height != 0
    ensures r.Some? ==> r.value.u * (width as real) / (FrameWidth as real) == u as real
    ensures r.Some? ==> r.value.v * (height as real) / (FrameHeight as real) == v as real
  {
    if width == 0 || height == 0 then None
    else
      var sx := width as real / FrameWidth as real;
      var sy := height as real / FrameHeight as real;
      Some(Pixel(u as real / sx, v as real / sy))
  }

  /** `lookAtMonoPixel`: under the lock, unless stopping, look at the pixel and
      wait for the motion to end; always returns true. */
  function LookAtMonoPixel(f: Follower, p: Pixel): (r: (bool, seq<Event>))
    ensures r.0
    ensures f.stop ==> r.1 == [Acquire, Release]
    ensures !f.stop ==> r.1 == [Acquire, LookAtMonoPixelSync(LookCamera, p, LookTimeout), WaitMotionDone, Release]
  {
    var moves := if f.stop then [] else [LookAtMonoPixelSync(LookCamera, p, LookTimeout), WaitMotionDone];
    (true, [Acquire] + moves + [Release])
  }

  /** `callback`: extract, rescale, look. A failing extraction or a zero
      resolution raises before the lock is taken, so nothing is issued. */
  function Callback(f: Follower, bot: Message): (events: seq<Event>)
    ensures events == [] <==> PixelTarget(f.kind, bot).None? || f.width == 0 || f.height == 0
    ensures events != [] ==> events[0] == Acquire && events[|events| - 1] == Release
    ensures (exists i :: 0 <= i < |events| && events[i].LookAtMonoPixelSync?) ==> !f.stop
  {
    match PixelTarget(f.kind, bot)
    case None => []
    case Some((u, v)) =>
      match ResizePixel(u, v, f.width, f.height)
      case None => []
      case Some(p) => LookAtMonoPixel(f, p).1
  }

  /** `configure`: a given source port or period replaces the current one (the
      period with no fallback, so a given 0 stays 0); the input port is opened
      as `/<name>:i` towards the source port; returns whether not stopping. */
  function Configure(f: Follower, srcPort: Option<Value>, period: Option<Value>): (r: (Follower, bool, seq<Event>))
    ensures r.0.srcPort == (if srcPort.Some? then Some(AsString(srcPort.value)) else f.srcPort)
    ensures r.0.period == (if period.Some? then AsFloat64(period.value) else f.period)
    ensures r.0.kind == f.kind && r.0.stop == f.stop && r.0.name == f.name
    ensures r.1 == !f.stop
    ensures r.2 == [OpenInPort("/" + f.name + ":i", r.0.srcPort)]
  {
    var src := if srcPort.Some? then Some(AsString(srcPort.value)) else f.srcPort;
    var f' := f.(srcPort := src, period := if period.Some? then AsFloat64(period.value) else f.period);
    (f', !f.stop, [OpenInPort("/" + f.name + ":i", src)])
  }

  /** `updateModule`: keep running until stopped. */
  function UpdateModule(f: Follower): (keepRunning: bool)
    ensures keepRunning <==> !f.stop
  {
    !f.stop
  }

  /** `interruptModule`: raise the stop flag first, then park the gaze under
      the lock; returns the (now true) stop flag. */
  function InterruptModule(f: Follower): (r: (Follower, bool, seq<Event>))
    ensures r.0 == f.(stop := true) && r.1
    ensures r.2 == [Acquire, LookAtAbsAngles(ParkAzimuth, ParkElevation, ParkVergence), Release]
  {
    var f' := f.(stop := true);
    (f', f'.stop, [Acquire, LookAtAbsAngles(ParkAzimuth, ParkElevation, ParkVergence), Release])
  }

  /** `close`: close the gaze driver; returns the stop flag. */
  function Close(f: Follower): (r: (bool, seq<Event>))
    ensures r.0 == f.stop && r.1 == [CloseDriver]
  {
    (f.stop, [CloseDriver])
  }

  // ---------------------------------------------------------------------------
  // Concurrency at lock granularity. The port callback and the interrupt run on
  // different threads; every critical section is atomic under the lock, and the
  // interrupt sets the flag before taking the lock. The flag is written outside
  // the lock, so in real time it can be raised after a callback's section has
  // read it and before that section's look-at. A section reads the flag once,
  // at its start, so such a run issues the same events as one in which the
  // raise comes after the whole section. Every interleaving is therefore
  // equivalent to a sequence of these steps, with each interrupt's Park after
  // its RaiseStop.

  datatype Step = Deliver(bot: Message) | RaiseStop | Park | Update

  /** The follower after one step: only raising the stop flag changes it. */
  function Next(f: Follower, s: Step): Follower
  {
    if s.RaiseStop? then f.(stop := true) else f
  }

  /** The events one step issues. */
  function Effects(f: Follower, s: Step): seq<Event>
  {
    match s
    case Deliver(bot) => Callback(f, bot)
    case RaiseStop => []
    case Park => [Acquire, LookAtAbsAngles(ParkAzimuth, ParkElevation, ParkVergence), Release]
    case Update => []
  }

  /** The follower after a schedule of steps. */
  function Final(f: Follower, steps: seq<Step>): Follower
    decreases |steps|
  {
    if |steps| == 0 then f else Final(Next(f, steps[0]), steps[1..])
  }

  /** The events a schedule of steps issues, in order. */
  function Trace(f: Follower, steps: seq<Step>): seq<Event>
    decreases |steps|
  {
    if |steps| == 0 then [] else Effects(f, steps[0]) + Trace(Next(f, steps[0]), steps[1..])
  }

  /** Trace scanner for the lock: acquire only when free, release only when
      held, device commands only while held, and at most one look-at per
      critical section (`looked`). */
  predicate Disciplined(e: seq<Event>, held: bool, looked: bool)
    decreases |e|
  {
    if |e| == 0 then !held
    else match e[0]
      case Acquire => !held && Disciplined(e[1..], true, false)
      case Release => held && Disciplined(e[1..], false, false)
      case LookAtMonoPixelSync(_, _, _) => held && !looked && Disciplined(e[1..], held, true)
      case OpenInPort(_, _) => Disciplined(e[1..], held, looked)
      case _ => held && Disciplined(e[1..], held, looked)
  }

  function CountParks(e: seq<Event>): nat
    decreases |e|
  {
    if |e| == 0 then 0 else (if e[0].LookAtAbsAngles? then 1 else 0) + CountParks(e[1..])
  }

  function CountParkSteps(steps: seq<Step>): nat
    decreases |steps|
  {
    if |steps| == 0 then 0 else (if steps[0].Park? then 1 else 0) + CountParkSteps(steps[1..])
  }

  lemma {:induction false} DisciplinedConcat(a: seq<Event>, b: seq<Event>)
    requires Disciplined(a, false, false) && Disciplined(b, false, false)
    ensures Disciplined(a + b, false, false)
  {
    DisciplinedConcatFrom(a, b, false, false);
  }

  lemma {:induction false} DisciplinedConcatFrom(a: seq<Event>, b: seq<Event>, held: bool, looked: bool)
    requires Disciplined(a, held, looked) && Disciplined(b, false, false)
    requires held || !looked
    ensures Disciplined(a + b, held, looked)
    decreases |a|
  {
    if |a| == 0 {
      assert a + b == b;
    } else {
      assert (a + b)[1..] == a[1..] + b;
      match a[0]
      case Acquire => DisciplinedConcatFrom(a[1..], b, true, false);
      case Release => DisciplinedConcatFrom(a[1..], b, false, false);
      case LookAtMonoPixelSync(_, _, _) => DisciplinedConcatFrom(a[1..], b, held, true);
      case OpenInPort(_, _) => DisciplinedConcatFrom(a[1..], b, held, looked);
      case _ => DisciplinedConcatFrom(a[1..], b, held, looked);
    }
  }

  lemma CountParksConcat(a: seq<Event>, b: seq<Event>)
    ensures CountParks(a + b) == CountParks(a) + CountParks(b)
    decreases |a|
  {
    if |a| == 0 {
      assert a + b == b;
    } else {
      assert (a + b)[1..] == a[1..] + b;
      CountParksConcat(a[1..], b);
    }
  }

  /** Each step's events respect the lock and park exactly when the step parks. */
  lemma StepDisciplined(f: Follower, s: Step)
    ensures Disciplined(Effects(f, s), false, false)
    ensures CountParks(Effects(f, s)) == if s.Park? then 1 else 0
  {
    var e := Effects(f, s);
    if |e| == 4 {
      assert e[0] == Acquire && e[1].LookAtMonoPixelSync? && e[2] == WaitMotionDone && e[3] == Release;
      assert e[1..][1..][1..][1..] == [];
      assert Disciplined(e[1..][1..][1..], true, true);
      assert Disciplined(e[1..][1..], true, true);
      assert Disciplined(e[1..], true, false);
      assert CountParks(e[1..][1..][1..]) == 0;
      assert CountParks(e[1..][1..]) == 0;
    } else if |e| == 3 {
      assert e == [Acquire, LookAtAbsAngles(ParkAzimuth, ParkElevation, ParkVergence), Release];
      assert e[1..][1..][1..] == [];
      assert Disciplined(e[1..][1..], true, false);
      assert Disciplined(e[1..], true, false);
      assert CountParks(e[1..][1..]) == 0;
    } else if |e| == 2 {
      assert e == [Acquire, Release];
      assert e[1..][1..] == [];
      assert Disciplined(e[1..], true, false);
      assert CountParks(e[1..]) == 0;
    }
  }

  /** Under any schedule, the trace brackets every device command by the lock,
      issues at most one look-at per critical section, and parks once per
      interrupt. */
  lemma {:induction false} RunDisciplined(f: Follower, steps: seq<Step>)
    ensures Disciplined(Trace(f, steps), false, false)
    ensures CountParks(Trace(f, steps)) == CountParkSteps(steps)
    decreases |steps|
  {
    if |steps| > 0 {
      var rest := Trace(Next(f, steps[0]), steps[1..]);
      StepDisciplined(f, steps[0]);
      RunDisciplined(Next(f, steps[0]), steps[1..]);
      DisciplinedConcat(Effects(f, steps[0]), rest);
      CountParksConcat(Effects(f, steps[0]), rest);
    }
  }

  /** Once the stop flag is up it stays up, and no look-at command follows. */
  lemma {:induction false} StoppedNeverMoves(f: Follower, steps: seq<Step>)
    requires f.stop
    ensures Final(f, steps).stop
    ensures forall e :: e in Trace(f, steps) ==> !e.LookAtMonoPixelSync? && !e.WaitMotionDone?
    decreases |steps|
  {
    if |steps| > 0 {
      StoppedNeverMoves(Next(f, steps[0]), steps[1..]);
    }
  }

  lemma {:induction false} FinalConcat(f: Follower, a: seq<Step>, b: seq<Step>)
    ensures Final(f, a + b) == Final(Final(f, a), b)
    decreases |a|
  {
    if |a| == 0 {
      assert a + b == b;
    } else {
      assert (a + b)[0] == a[0];
      assert (a + b)[1..] == a[1..] + b;
      FinalConcat(Next(f, a[0]), a[1..], b);
    }
  }

  lemma {:induction false} TraceConcat(f: Follower, a: seq<Step>, b: seq<Step>)
    ensures Trace(f, a + b) == Trace(f, a) + Trace(Final(f, a), b)
    decreases |a|
  {
    if |a| == 0 {
      assert a + b == b;
      assert Trace(f, a) + Trace(f, b) == Trace(f, b);
    } else {
      var g := Next(f, a[0]);
      var head := Effects(f, a[0]);
      assert (a + b)[0] == a[0];
      assert (a + b)[1..] == a[1..] + b;
      TraceConcat(g, a[1..], b);
      var mid := Trace(g, a[1..]);
      var tail := Trace(Final(g, a[1..]), b);
      assert Trace(f, a + b) == head + (mid + tail);
      assert head + (mid + tail) == (head + mid) + tail;
    }
  }

  /** In the serialised order of steps, nothing after an interrupt's raising of
      the flag moves the gaze towards a pixel: every look-at in the trace comes
      before the raise, and so before the interrupt's park. */
  lemma NoLookAfterInterrupt(f: Follower, before: seq<Step>, after: seq<Step>)
    ensures var trace := Trace(f, before + [RaiseStop] + after);
      var n := |Trace(f, before)|;
      n <= |trace| &&
      forall i :: n <= i < |trace| ==> !trace[i].LookAtMonoPixelSync? && !trace[i].WaitMotionDone?
  {
    TraceConcat(f, before + [RaiseStop], after);
    TraceConcat(f, before, [RaiseStop]);
    FinalConcat(f, before, [RaiseStop]);
    var f1 := Final(f, before + [RaiseStop]);
    assert Trace(Final(f, before), [RaiseStop]) == [];
    StoppedNeverMoves(f1, after);
  }

  /** `interruptModule` is the two steps it is made of, in order. */
  lemma InterruptIsRaiseThenPark(f: Follower)
    ensures Final(f, [RaiseStop, Park]) == InterruptModule(f).0
    ensures Trace(f, [RaiseStop, Park]) == InterruptModule(f).2
  {
    assert [RaiseStop, Park][1..] == [Park];
    assert [Park][1..] == [];
  }

  /** The face variant reads landmark 27 of the first face. */
  lemma FaceFollowerReadsEyeCentre(srcPort: string, width: int, height: int, landmarks: seq<Value>, x: int, y: int, rest: Message)
    requires |landmarks| > 27 && landmarks[27] == List([Int(x), Int(y)] + rest)
    ensures PixelTarget(NewFaceFollower(srcPort, width, height).kind, [List(landmarks)]) == Some((x, y))
  {
    assert ([Int(x), Int(y)] + rest)[0] == Int(x);
    assert ([Int(x), Int(y)] + rest)[1] == Int(y);
  }

  /** The click variant ignores every element after the first two. */
  lemma ClickIgnoresTail(bot: Message, rest: Message)
    requires |bot| == 2
    ensures ClickPixel(bot + rest) == ClickPixel(bot)
  {
  }

  /** `callback` is `lookAtMonoPixel` of the rescaled target: with a readable
      target and a non-zero resolution, a running follower looks at the pixel
      scaled to the 320x240 frame and waits, all under the lock. */
  lemma CallbackLooksAtResized(f: Follower, bot: Message, u: int, v: int)
    requires PixelTarget(f.kind, bot) == Some((u, v)) && f.width != 0 && f.height != 0
    ensures var p := ResizePixel(u, v, f.width, f.height).value;
      && Callback(f, bot) == LookAtMonoPixel(f, p).1
      && p.u * (f.width as real) == (u * FrameWidth) as real
      && p.v * (f.height as real) == (v * FrameHeight) as real
      && (!f.stop ==> Callback(f, bot) == [Acquire, LookAtMonoPixelSync(LookCamera, p, LookTimeout), WaitMotionDone, Release])
  {
  }

  /** Doubling the camera width halves the rescaled column and keeps the row. */
  lemma ResizeDoubleWidth(u: int, v: int, width: int, height: int)
    requires width != 0 && height != 0
    ensures ResizePixel(u, v, 2 * width, height).value.u == ResizePixel(u, v, width, height).value.u / 2.0
    ensures ResizePixel(u, v, 2 * width, height).value.v == ResizePixel(u, v, width, height).value.v
  {
  }

  /** At the robot camera's own resolution the pixel is unchanged; at twice the
      width, the column is halved. */
  lemma ResizeAtNativeAndDoubleWidth(u: int, v: int)
    ensures ResizePixel(u, v, FrameWidth, FrameHeight) == Some(Pixel(u as real, v as real))
    ensures ResizePixel(u, v, 2 * FrameWidth, FrameHeight) == Some(Pixel(u as real / 2.0, v as real))
  {
  }
}
