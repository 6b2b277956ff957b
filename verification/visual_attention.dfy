/** The visual-attention module (apps/VisualAttention/app.py): two tracking
    flags, a camera index and a depth, set by RPC commands; a periodic tick
    that, if tracking, polls one input port and asks the gaze controller to
    observe the received point. The gaze controller lives outside this model:
    its calls are recorded as events, the 3D point it computes for a pixel is
    a parameter, and whether a one-shot observation raises is a parameter. */
module VisualAttention {
  import opened Wrappers
  import opened Bottle

  datatype Point = Point(x: real, y: real, z: real)

  datatype Event =
    | InitController(robot: string)
    | PollRobotPort
    | PollCameraPort
    | Get3DPoint(camera: int, u: int, v: int, depth: real)
    | ObservePoints(points: seq<Point>, fixationTime: real)
    | ObserveScene(center: seq<real>, width: real, height: real)
    | ObserveWorkspace(center: seq<real>, width: real, depth: real)

  datatype State = State(
    trackingRobot: bool,
    trackingCamera: bool,
    camera: Option<int>,   // None until the first start_camera_tracking
    depth: Option<real>,   // likewise
    period: real,
    robotName: string)

  const DefaultPeriod: real := 0.1
  const DefaultRobot := "icubSim"
  const FixationTime: real := 0.1

  /** Camera tracking is only ever switched on together with a camera and a depth. */
  predicate Inv(st: State)
  {
    st.trackingCamera ==> st.camera.Some? && st.depth.Some?
  }

  /** The constructor: nothing is tracked and the period is 0.1. */
  function Initial(): (st: State)
    ensures Inv(st) && !st.trackingRobot && !st.trackingCamera
    ensures st.camera.None? && st.depth.None? && st.period == DefaultPeriod
  {
    State(false, false, None, None, DefaultPeriod, "")
  }

  /** `configure`: the period falls back to 0.1 when it is absent or zero and
      the robot name to `icubSim` when it is absent or empty; the gaze
      controller is created for that robot. */
  function Configure(st: State, period: Option<Value>, robot: Option<Value>): (r: (State, seq<Event>))
    ensures r.0.period == (if period.Some? && AsFloat64(period.value) != 0.0 then AsFloat64(period.value) else 0.1)
    ensures r.0.robotName == (if robot.Some? && AsString(robot.value) != "" then AsString(robot.value) else "icubSim")
    ensures r.0.period != 0.0 && r.0.robotName != ""
    ensures r.1 == [InitController(r.0.robotName)]
    ensures r.0.trackingRobot == st.trackingRobot && r.0.trackingCamera == st.trackingCamera
    ensures r.0.camera == st.camera && r.0.depth == st.depth
  {
    var name := if robot.Some? then AsString(robot.value) else "";
    var st' := st.(period := FloatOr(period, DefaultPeriod),
                   robotName := if name != "" then name else DefaultRobot);
    (st', [InitController(st'.robotName)])
  }

  /** `tuple(map(float, value.toString().split()))` for the `center` argument:
      a list of numbers or a single number gives its numbers, the missing
      value gives the empty tuple, and anything else fails to parse. */
  function ParseCenter(v: Value): (c: Option<seq<real>>)
    ensures v.Null? ==> c == Some([])
    ensures v.Int? || v.Float? ==> c == Some([AsFloat64(v)])
    ensures v.List? ==> (c.Some? <==> forall i :: 0 <= i < |v.items| ==> v.items[i].Int? || v.items[i].Float?)
    ensures v.List? && c.Some? ==> |c.value| == |v.items| && forall i :: 0 <= i < |v.items| ==> c.value[i] == AsFloat64(v.items[i])
    ensures v.Str? || v.Vocab? ==> c.None?
  {
    match v
    case Null => Some([])
    case Int(i) => Some([i as real])
    case Float(x) => Some([x])
    case List(items) =>
      if forall i :: 0 <= i < |items| ==> items[i].Int? || items[i].Float? then
        Some(seq(|items|, i requires 0 <= i < |items| => AsFloat64(items[i])))
      else None
    case _ => None
  }

  datatype Response = Response(state: State, reply: seq<string>, keepRunning: bool, events: seq<Event>)

  const ErrorReply := ["nack", "error executing command"]

  /** A one-shot observation: the centre must parse and the controller call
      must return; either failure is the exception handler's reply. */
  function Observe(st: State, center: Option<seq<real>>, call: seq<real> -> Event, controllerOk: bool): (r: Response)
    ensures r.state == st && r.keepRunning
    ensures r.reply == (if center.Some? && controllerOk then ["ack"] else ErrorReply)
    ensures center.None? ==> r.events == []
    ensures center.Some? ==> r.events == [call(center.value)]
  {
    match center
    case None => Response(st, ErrorReply, true, [])
    case Some(c) => Response(st, if controllerOk then ["ack"] else ErrorReply, true, [call(c)])
  }

  /** `respond`: the first word selects start/stop of robot tracking or stop of
      camera tracking; otherwise the presence of a `start_camera_tracking`,
      `observe_scene` or `observe_workspace` key selects those; then `quit`;
      anything else is refused. Only `quit` stops the module. */
  function Respond(st: State, cmd: Message, controllerOk: bool): (r: Response)
    ensures Inv(st) ==> Inv(r.state)
    ensures r.state.period == st.period && r.state.robotName == st.robotName
    ensures !r.keepRunning <==> r.reply == ["bye"]
  {
    var word := AsString(Get(cmd, 0));
    if word == "start_robot_tracking" then
      Response(st.(trackingRobot := true), ["robot_tracking_started"], true, [])
    else if word == "stop_robot_tracking" then
      Response(st.(trackingRobot := false), ["robot_tracking_stopped"], true, [])
    else if word == "stop_camera_tracking" then
      Response(st.(trackingCamera := false), ["camera_tracking_stopped"], true, [])
    else if Check(cmd, "start_camera_tracking") then
      Response(st.(trackingCamera := true,
                   camera := Some(AsInt32(Find(cmd, "camera"))),
                   depth := Some(AsFloat64(Find(cmd, "z")))),
               ["camera_tracking_started"], true, [])
    else if Check(cmd, "observe_scene") then
      var width := AsFloat64(Find(cmd, "width"));
      var height := AsFloat64(Find(cmd, "height"));
      Observe(st, ParseCenter(Find(cmd, "center")), c => ObserveScene(c, width, height), controllerOk)
    else if Check(cmd, "observe_workspace") then
      var width := AsFloat64(Find(cmd, "width"));
      var depth := AsFloat64(Find(cmd, "depth"));
      Observe(st, ParseCenter(Find(cmd, "center")), c => ObserveWorkspace(c, width, depth), controllerOk)
    else if IsQuit(Get(cmd, 0)) then
      Response(st, ["bye"], false, [])
    else
      Response(st, ["nack", "unknown command"], true, [])
  }

  datatype Tick = Tick(events: seq<Event>, keepRunning: bool)

  /** `updateModule`: robot tracking has priority; a robot message counts only
      with exactly three elements and a camera message only with exactly two;
      a camera pixel is turned into a 3D point by the controller (`projected`
      is its answer) at the tracked camera and depth. */
  function UpdateModule(st: State, robotMsg: Option<Message>, cameraMsg: Option<Message>, projected: Point): (t: Tick)
    requires Inv(st)
    ensures t.keepRunning
    ensures st.trackingRobot ==> PollCameraPort !in t.events
  {
    if st.trackingRobot then
      if robotMsg.Some? && |robotMsg.value| == 3 then
        var b := robotMsg.value;
        Tick([PollRobotPort, ObservePoints([Point(AsFloat64(b[0]), AsFloat64(b[1]), AsFloat64(b[2]))], FixationTime)], true)
      else Tick([PollRobotPort], true)
    else if st.trackingCamera then
      if cameraMsg.Some? && |cameraMsg.value| == 2 then
        var b := cameraMsg.value;
        Tick([PollCameraPort, Get3DPoint(st.camera.value, AsInt32(b[0]), AsInt32(b[1]), st.depth.value),
              ObservePoints([projected], FixationTime)], true)
      else Tick([PollCameraPort], true)
    else Tick([], true)
  }

  // ---------------------------------------------------------------------------
  // Properties

  function CountObserve(events: seq<Event>): nat
  {
    if |events| == 0 then 0
    else (if events[0].ObservePoints? then 1 else 0) + CountObserve(events[1..])
  }

  /** Robot tracking starts or stops by flipping only its flag. */
  lemma RobotTrackingCommands(st: State, cmd: Message, ok: bool)
    requires AsString(Get(cmd, 0)) in ["start_robot_tracking", "stop_robot_tracking"]
    ensures var r := Respond(st, cmd, ok);
      && r.state == st.(trackingRobot := AsString(Get(cmd, 0)) == "start_robot_tracking")
      && r.reply == (if AsString(Get(cmd, 0)) == "start_robot_tracking" then ["robot_tracking_started"] else ["robot_tracking_stopped"])
      && r.keepRunning && r.events == []
  {
  }

  /** Stopping camera tracking clears the flag and keeps the camera and depth. */
  lemma StopCameraKeepsTarget(st: State, cmd: Message, ok: bool)
    requires AsString(Get(cmd, 0)) == "stop_camera_tracking"
    ensures var r := Respond(st, cmd, ok);
      && !r.state.trackingCamera
      && r.state.camera == st.camera && r.state.depth == st.depth
      && r.state.trackingRobot == st.trackingRobot
      && r.reply == ["camera_tracking_stopped"]
  {
  }

  /** `start_camera_tracking (camera c) (z d)` sets the flag, the camera and the depth. */
  lemma StartCameraTracking(st: State, c: int, d: real, ok: bool)
    ensures var r := Respond(st, [Str("start_camera_tracking"), List([Str("camera"), Int(c)]), List([Str("z"), Float(d)])], ok);
      && r.state == st.(trackingCamera := true, camera := Some(c), depth := Some(d))
      && r.reply == ["camera_tracking_started"]
  {
    CameraCommand(c, d);
    var cmd: Message := [Str("start_camera_tracking"), List([Str("camera"), Int(c)]), List([Str("z"), Float(d)])];
    CameraBranch(st, cmd, ok);
  }

  /** A command headed by none of the three tracking words but holding the
      `start_camera_tracking` key takes the camera branch. */
  lemma CameraBranch(st: State, cmd: Message, ok: bool)
    requires AsString(Get(cmd, 0)) !in {"start_robot_tracking", "stop_robot_tracking", "stop_camera_tracking"}
    requires Check(cmd, "start_camera_tracking")
    ensures Respond(st, cmd, ok)
      == Response(st.(trackingCamera := true, camera := Some(AsInt32(Find(cmd, "camera"))), depth := Some(AsFloat64(Find(cmd, "z")))),
                  ["camera_tracking_started"], true, [])
  {
  }

  /** How the bottle lookups read the `start_camera_tracking` command. */
  lemma CameraCommand(c: int, d: real)
    ensures var cmd: Message := [Str("start_camera_tracking"), List([Str("camera"), Int(c)]), List([Str("z"), Float(d)])];
      && AsString(Get(cmd, 0)) == "start_camera_tracking"
      && Check(cmd, "start_camera_tracking")
      && Find(cmd, "camera") == Int(c) && Find(cmd, "z") == Float(d)
  {
    var cmd: Message := [Str("start_camera_tracking"), List([Str("camera"), Int(c)]), List([Str("z"), Float(d)])];
    assert Hit(cmd, 0, "start_camera_tracking");
    assert !Hit(cmd, 0, "camera") && Hit(cmd, 1, "camera");
    assert !Hit(cmd, 0, "z") && !Hit(cmd, 1, "z") && Hit(cmd, 2, "z");
  }

  /** The two flags are not kept exclusive: both can be on at once. */
  lemma FlagsNotExclusive(c: int, d: real)
    ensures var s1 := Respond(Initial(), [Str("start_robot_tracking")], true).state;
      var s2 := Respond(s1, [Str("start_camera_tracking"), List([Str("camera"), Int(c)]), List([Str("z"), Float(d)])], true).state;
      s2.trackingRobot && s2.trackingCamera
  {
    var s1 := Respond(Initial(), [Str("start_robot_tracking")], true).state;
    StartCameraTracking(s1, c, d, true);
  }

  /** `quit` replies bye and stops; an unknown command is refused without change. */
  lemma QuitAndUnknown(st: State, cmd: Message, ok: bool)
    requires AsString(Get(cmd, 0)) !in ["start_robot_tracking", "stop_robot_tracking", "stop_camera_tracking"]
    requires !Check(cmd, "start_camera_tracking") && !Check(cmd, "observe_scene") && !Check(cmd, "observe_workspace")
    ensures var r := Respond(st, cmd, ok);
      && r.state == st && r.events == []
      && (IsQuit(Get(cmd, 0)) ==> r.reply == ["bye"] && !r.keepRunning)
      && (!IsQuit(Get(cmd, 0)) ==> r.reply == ["nack", "unknown command"] && r.keepRunning)
  {
  }

  /** A scene observation whose centre cannot be parsed, or whose controller
      call raises, is answered by the exception handler and keeps running. */
  lemma ObserveSceneErrors(st: State, cmd: Message, ok: bool)
    requires AsString(Get(cmd, 0)) !in ["start_robot_tracking", "stop_robot_tracking", "stop_camera_tracking"]
    requires !Check(cmd, "start_camera_tracking") && Check(cmd, "observe_scene")
    ensures var r := Respond(st, cmd, ok);
      && r.state == st && r.keepRunning
      && (r.reply == ErrorReply <==> ParseCenter(Find(cmd, "center")).None? || !ok)
    ensures var r := Respond(st, cmd, ok);
      var center := ParseCenter(Find(cmd, "center"));
      && (center.None? ==> r.events == [])
      && (center.Some? ==> r.events == [ObserveScene(center.value, AsFloat64(Find(cmd, "width")), AsFloat64(Find(cmd, "height")))])
  {
  }

  /** A workspace observation is the controller's `observe_workspace` with the
      parsed centre, the width and the depth; an unparsable centre or a raising
      controller is answered by the exception handler, and the module keeps
      running. */
  lemma ObserveWorkspaceErrors(st: State, cmd: Message, ok: bool)
    requires AsString(Get(cmd, 0)) !in ["start_robot_tracking", "stop_robot_tracking", "stop_camera_tracking"]
    requires !Check(cmd, "start_camera_tracking") && !Check(cmd, "observe_scene") && Check(cmd, "observe_workspace")
    ensures var r := Respond(st, cmd, ok);
      && r.state == st && r.keepRunning
      && (r.reply == ErrorReply <==> ParseCenter(Find(cmd, "center")).None? || !ok)
      && (r.reply != ErrorReply ==> r.reply == ["ack"])
    ensures var r := Respond(st, cmd, ok);
      var center := ParseCenter(Find(cmd, "center"));
      && (center.None? ==> r.events == [])
      && (center.Some? ==> r.events == [ObserveWorkspace(center.value, AsFloat64(Find(cmd, "width")), AsFloat64(Find(cmd, "depth")))])
  {
  }

  /** A tick observes at most one single point, with fixation time 0.1. */
  lemma TickObservesAtMostOnce(st: State, robotMsg: Option<Message>, cameraMsg: Option<Message>, p: Point)
    requires Inv(st)
    ensures var t := UpdateModule(st, robotMsg, cameraMsg, p);
      && CountObserve(t.events) <= 1
      && forall e :: e in t.events && e.ObservePoints? ==> |e.points| == 1 && e.fixationTime == FixationTime
  {
    var t := UpdateModule(st, robotMsg, cameraMsg, p);
    if |t.events| > 0 {
      CountLast(t.events);
    }
  }

  /** Robot tracking has priority: while it is on, the camera port is not read,
      so the tick does not depend on the camera message or the projection. */
  lemma RobotTrackingHasPriority(st: State, robotMsg: Option<Message>, c1: Option<Message>, c2: Option<Message>, p1: Point, p2: Point)
    requires Inv(st) && st.trackingRobot
    ensures UpdateModule(st, robotMsg, c1, p1) == UpdateModule(st, robotMsg, c2, p2)
    ensures UpdateModule(st, robotMsg, c1, p1).events[0] == PollRobotPort
  {
  }

  /** While robot tracking, a three-element message is observed as the point
      whose coordinates are its three elements read as floats. */
  lemma RobotTickObservesMessage(st: State, b: Message, cameraMsg: Option<Message>, p: Point)
    requires Inv(st) && st.trackingRobot && |b| == 3
    ensures UpdateModule(st, Some(b), cameraMsg, p).events
      == [PollRobotPort, ObservePoints([Point(AsFloat64(b[0]), AsFloat64(b[1]), AsFloat64(b[2]))], FixationTime)]
  {
  }

  /** While only camera tracking, a two-element message is a pixel (u, v): the
      controller projects it at the tracked camera and depth, and the projected
      point is observed. */
  lemma CameraTickObservesProjection(st: State, robotMsg: Option<Message>, b: Message, p: Point)
    requires Inv(st) && !st.trackingRobot && st.trackingCamera && |b| == 2
    ensures st.camera.Some? && st.depth.Some?
    ensures UpdateModule(st, robotMsg, Some(b), p).events
      == [PollCameraPort, Get3DPoint(st.camera.value, AsInt32(b[0]), AsInt32(b[1]), st.depth.value), ObservePoints([p], FixationTime)]
  {
  }

  /** A polled message leads to an observation exactly when it has the expected
      arity: three coordinates for the robot port, two pixel indices for the camera. */
  lemma ObservesIffArity(st: State, robotMsg: Option<Message>, cameraMsg: Option<Message>, p: Point)
    requires Inv(st)
    ensures var t := UpdateModule(st, robotMsg, cameraMsg, p);
      CountObserve(t.events) == 1 <==>
        if st.trackingRobot then robotMsg.Some? && |robotMsg.value| == 3
        else st.trackingCamera && cameraMsg.Some? && |cameraMsg.value| == 2
  {
    var t := UpdateModule(st, robotMsg, cameraMsg, p);
    if |t.events| > 0 {
      CountLast(t.events);
    }
  }

  /** When only the last event can observe, the count is that event's. */
  lemma {:induction false} CountLast(e: seq<Event>)
    requires |e| > 0
    requires forall i :: 0 <= i < |e| - 1 ==> !e[i].ObservePoints?
    ensures CountObserve(e) == if e[|e| - 1].ObservePoints? then 1 else 0
  {
    if |e| > 1 {
      CountLast(e[1..]);
    }
  }
}
