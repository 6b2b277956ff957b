# pyicub-apps decision logic in Dafny

This project models the decision logic inside four robot applications of
pyicub-apps and proves properties of it. The applications are middleware
modules (YARP `RFModule`s) for the iCub robot:

- **GPT** (`apps/GPT/app.py`): a chat bridge. It keeps a store of chat
  sessions with an active-session pointer, per-session token counters, a
  current model and a system prompt. RPC commands (`respond`) and text read
  from an input port (`updateModule`) drive it. Answers from the language
  model are cleaned before they are spoken: whitespace is collapsed, markdown
  is stripped by six regular-expression substitutions, and double quotes are
  removed.
- **VisualAttention** (`apps/VisualAttention/app.py`): two tracking flags,
  a camera index and a depth, all set by RPC commands. On each tick, robot
  tracking has priority over camera tracking, and a polled point is passed to
  the gaze controller.
- **Gaze followers** (`icubFollower/src/utilities/GazeFollower.py`,
  `faceFollower.py`, `clickFollower.py`): each message is turned into a pixel.
  The pixel is rescaled to the robot camera's 320x240 frame. Under a lock, and
  only while the module is not stopping, the gaze is sent there. Interrupting
  the module parks the gaze.
- **FaceDetector** (`apps/FaceDetector/app.py`): publishes the pixel midway
  between the eyes. This happens only when both eyes are visible and the
  pixel lies inside the image. It also handles a small RPC surface.

Every module is a set of pure functions over immutable state. An RPC command
maps state and message to a new state, a reply and a keep-running flag. A tick
maps state and optional input to events and a keep-running flag. Calls into
code outside the model become recorded `Event`s or oracle parameters:

- the language model's answer (`Option<string>`);
- the result of reading a prompt file;
- whether a gaze-controller call raised;
- the 3D point the controller computes for a pixel;
- the camera resolution;
- the pose estimator's landmarks;
- the key pressed in the display window.

Files (one module each):

- `wrappers.dfy`: `Option` and `Result`.
- `numeric.dfy`: Python `int()` on a float, which truncates toward zero.
- `bottle.dfy`: the middleware's message container and the accessors the
  modules use.
- `text.dfy`: Python's whitespace class, `strip`, `re.sub(r'\s+', ' ', …)`
  and `join`. It also defines `Erases(r, s, drop)`: `r` arises from `s` by
  deleting only characters that `drop` selects.
- `markdown.dfy`: `_markdown_to_text` and the reply clean-up. Each regular
  expression is a left-to-right scan, as `re.sub` performs it.
- `gpt.dfy`, `visual_attention.dfy`, `gaze_follower.dfy`,
  `face_detector.dfy`: the four applications.

## Model

| member | source | states |
|---|---|---|
| `Numeric.Truncate` | apps/FaceDetector/app.py:109 | `int(x)` lies within one of `x`, on the side of zero |
| `Numeric.TruncateInRange` | apps/FaceDetector/app.py:109-111 | `0 <= int(x) < n` holds exactly when `-1 < x < n`, so values just below zero pass the bounds test as 0 |
| `Bottle.Find` | apps/VisualAttention/app.py:90-91 | `find(key)` returns the value of the first element that is a group headed by the key or a bare key followed by a value; with no such element it returns the null value; a non-null result means the key occurs |
| `Bottle.CheckFindsKey` | apps/VisualAttention/app.py:88 | `check(key)` holds only when the key occurs, always when a group headed by the key exists, and whenever `find` returns a value |
| `Text.Strip` | apps/GPT/app.py:275 | the result neither starts nor ends with whitespace, and the input is whitespace + result + whitespace |
| `Text.StripErases` | apps/GPT/app.py:275 | stripping deletes whitespace only |
| `Text.StripTrimmed` | apps/GPT/app.py:243 | text without whitespace at either end is its own strip |
| `Text.CollapseSpaces` | apps/GPT/app.py:278 | the only whitespace left is `' '`, never doubled; non-whitespace characters are kept, in order |
| `Text.CollapseSpacesIdentity` | apps/GPT/app.py:278 | text whose only whitespace is single spaces is unchanged |
| `Text.CollapseSpacesRun` | apps/GPT/app.py:278 | a whitespace run at the front becomes one space |
| `Text.CollapseSpacesSplit` | apps/GPT/app.py:278 | a maximal whitespace run between two words becomes exactly one space and the text on either side is collapsed independently |
| `Text.CollapseSpacesConcat` | apps/GPT/app.py:278 | text ending in a non-whitespace character collapses independently of what follows |
| `Text.JoinAppend` | apps/GPT/app.py:327 | joining two non-empty lists of words is joining each and putting one separator between |
| `Text.ErasesRetains` | apps/GPT/app.py:222-243 | a deletion-only rewrite keeps, in order, exactly the characters it may not delete |
| `Markdown.FindClose` | apps/GPT/app.py:222-223 | the lazy `(.*?)\1` finds the first closing delimiter after the opening one with no newline before it, and when it finds none there is no such delimiter on the rest of the line |
| `Markdown.FindCloseFirst` | apps/GPT/app.py:222-223 | the first delimiter on the line after the opening one is the one the lazy search finds |
| `Markdown.StripEmphasis` | apps/GPT/app.py:222-223 | an emphasis substitution deletes only `*` and `_`; where a span opens at the start, its content follows with the delimiters removed |
| `Markdown.EmphasisPasses` | apps/GPT/app.py:222-223 | both emphasis substitutions together delete only `*` and `_` |
| `Markdown.StripEmphasisIdentity` | apps/GPT/app.py:222-223 | text without `*` or `_` is unchanged by an emphasis substitution |
| `Markdown.UnwrapSpan` | apps/GPT/app.py:222-223 | one emphasis substitution turns `d w d` into `w` for each of its delimiters `d`, when `w` holds no marks or newlines |
| `Markdown.EmphasisUnwrapsStrong` | apps/GPT/app.py:222-223 | `**w**` and `__w__` become `w` |
| `Markdown.EmphasisUnwrapsWeak` | apps/GPT/app.py:222-223 | `*w*` and `_w_` become `w`: the strong pass leaves them alone, the weak pass unwraps them |
| `Markdown.MatchAt` | apps/GPT/app.py:232-238 | a line pattern matches at the start of the text exactly when its marker is there; the match is non-empty markup and ends before non-whitespace (lists) or at the end of the line (rules) |
| `Markdown.MatchBullet` | apps/GPT/app.py:232 | `^\s*[-*+]\s+` matches exactly when the text starts with optional whitespace, a bullet and at least one whitespace; the match takes all the following whitespace |
| `Markdown.MatchNumbered` | apps/GPT/app.py:235 | `^\s*\d+\.\s+` matches exactly when the text starts with optional whitespace, digits, a dot and whitespace |
| `Markdown.MatchRule` | apps/GPT/app.py:238 | `^[-*_]{3,}$` matches exactly when the line is three or more rule marks |
| `Markdown.DeleteAtLineStarts` | apps/GPT/app.py:232-238 | a line-anchored substitution deletes only whitespace, digits and `-*+_.`; a marker at the start is removed in full |
| `Markdown.LinePasses` | apps/GPT/app.py:232-238 | the three line-anchored substitutions together delete only those characters |
| `Markdown.LinePassesBullet` | apps/GPT/app.py:232 | `- w`, `* w` and `+ w` on one line become `w` |
| `Markdown.LinePassesNumbered` | apps/GPT/app.py:235 | `12. w` becomes `w` |
| `Markdown.LinePassesRule` | apps/GPT/app.py:238 | a line of three or more rule marks becomes empty |
| `Markdown.DeleteAtLineStartsIdentity` | apps/GPT/app.py:232-238 | one line whose first character cannot start a marker is unchanged |
| `Markdown.CollapseNewlines` | apps/GPT/app.py:241 | deletes newlines only, leaves no run of three newlines and keeps a non-newline first character |
| `Markdown.CollapseNewlinesRun` | apps/GPT/app.py:241 | a run of two or more newlines becomes exactly two |
| `Markdown.CollapseNewlinesKeeps` | apps/GPT/app.py:241 | any other character, a lone newline included, is kept |
| `Markdown.CollapseNewlinesIdentity` | apps/GPT/app.py:241 | text without newlines is unchanged |
| `Markdown.PlainMarkdownUnchanged` | apps/GPT/app.py:202-243 | plain text passes all markdown substitutions unchanged |
| `Markdown.MarkdownToText` | apps/GPT/app.py:202-243 | the plain text is the markdown with some markup characters and whitespace deleted, and it has no whitespace at either end |
| `Markdown.RemoveQuotes` | apps/GPT/app.py:280 | deletes double quotes only, and none remains |
| `Markdown.RemoveQuotesIdentity` | apps/GPT/app.py:280 | text without double quotes is unchanged |
| `Markdown.CleanReply` | apps/GPT/app.py:275-280 | the spoken reply has no double quote and no whitespace other than `' '` |
| `Markdown.CleanReplyErases` | apps/GPT/app.py:275-280 | the spoken reply is a subsequence of the whitespace-collapsed answer, missing only markup characters and quotes |
| `Markdown.CleanReplyPlain` | apps/GPT/app.py:275-280 | an answer that is already plain text is spoken exactly as written |
| `Gpt.Configure` | apps/GPT/app.py:45-106 | configuration succeeds exactly when the folder, config path, config, client and default model are all usable; then only `default` exists, holds the system prompt and is active; the module starts idle with no query in progress |
| `Gpt.FreshSession` | apps/GPT/app.py:150-156 | create and reset both leave the session holding only the system message with token count 0; other sessions are untouched; a new id goes last in key order |
| `Gpt.FreshSessionKeepsInv` | apps/GPT/app.py:150-156 | creating or resetting a session keeps the store invariant |
| `Gpt.SaveEvents` | apps/GPT/app.py:290-291 | a session is saved after an answer exactly when it is not `default`, and the save always fails |
| `Gpt.SetSystemPrompt` | apps/GPT/app.py:309-312 | the prompt is replaced, the active session alone restarts from it, and the invariant holds |
| `Gpt.AppendTurns` | apps/GPT/app.py:267 | turns are appended to the active session only |
| `Gpt.AnswerChat` | apps/GPT/app.py:262-295 | empty input: warning, no change. Otherwise the model is first asked about the session with the user turn appended. Model failure: the user turn stays and an error is returned. Success: the cleaned reply is appended after the user turn and published, then a session other than `default` is saved. Status is idle again in every case |
| `Gpt.BeginAnswer` | apps/GPT/app.py:263-269 | before the model request the status is `generating`, the user turn is in the active session, and the model is asked about that session |
| `Gpt.FinishAnswer` | apps/GPT/app.py:271-295 | after the request the status is idle again; a failure changes nothing else; an answer appends the cleaned reply to the session active then, publishes it and saves |
| `Gpt.AnswerInTwoHalves` | apps/GPT/app.py:262-295 | the two halves run back to back are `answer_ChatGPT` in one piece |
| `Gpt.SwitchDuringAnswer` | apps/GPT/app.py:262-295 | a session switch while the model is asked leaves the user turn in the old session and puts the reply into the new one |
| `Gpt.Respond` | apps/GPT/app.py:314-364 | every command keeps the invariant and returns True; only `switch_session` moves the active pointer, and only to an existing session; sessions are never removed |
| `Gpt.RespondSessionCommand` | apps/GPT/app.py:340-364 | the session and model commands keep the invariant and return True; only `switch_session` moves the pointer, and only to an existing session; `list_sessions` replies with the ids joined by `, ` in creation order and changes nothing |
| `Gpt.UnknownIffNotCommand` | apps/GPT/app.py:317-362 | a first word reaches the unknown-command reply exactly when it is none of the ten command words |
| `Gpt.ArgumentTextOfCommand` | apps/GPT/app.py:327 | the argument text of a command is its words after the first, joined by single spaces and stripped |
| `Gpt.ArgumentText` | apps/GPT/app.py:327-333 | the argument text has no whitespace at either end, and is empty for a command without arguments |
| `Gpt.RespondQuery` | apps/GPT/app.py:325-331 | after a query the RPC flag is off again and the query text is remembered |
| `Gpt.SetPromptFromFile` | apps/GPT/app.py:297-312 | a path not starting with `/` (`os.path.isabs` on POSIX) is refused with no change; an unreadable file gives the error reply; otherwise the file's stripped text becomes the prompt and only the active session restarts |
| `Gpt.UpdateModule` | apps/GPT/app.py:366-376 | the input port is read exactly when no RPC query is in progress; no input, no change; a message is answered as its input text and that answer is published last; always True |
| `Gpt.InputTextOfMessage` | apps/GPT/app.py:370 | the input text of a message is all its words joined by single spaces and stripped |
| `Gpt.InputAnswersJoinedWords` | apps/GPT/app.py:366-376 | a message of words is answered as those words joined and stripped, and the answer is published last |
| `Gpt.QueryStart` | apps/GPT/app.py:325-329 | a query raises the RPC flag before the model is asked; a non-empty query is then `generating` |
| `Gpt.QueryFinish` | apps/GPT/app.py:329-331 | when the model returns, the RPC flag is lowered and the status is idle |
| `Gpt.InputStart` | apps/GPT/app.py:366-371 | with an RPC query in progress nothing happens; otherwise the port is read first, and a non-empty message puts the status to `generating` |
| `Gpt.InputFinish` | apps/GPT/app.py:371-376 | when the model returns, the status is idle and the answer is published last |
| `Gpt.QueryInTwoHalves` | apps/GPT/app.py:325-331 | the two halves of a query run back to back are the `query` command in one piece |
| `Gpt.InputInTwoHalves` | apps/GPT/app.py:366-376 | the two halves of an input tick run back to back are `updateModule` in one piece |
| `Gpt.QueryGatesInput` | apps/GPT/app.py:325-368 | while a query waits for the model, `updateModule` neither reads the input port nor changes anything |
| `Gpt.StatusReply` | apps/GPT/app.py:317-318 | `status` replies `idle` or `generating` as the status is, and changes nothing |
| `Gpt.StatusWhileAnswering` | apps/GPT/app.py:262-318 | `status` replies `generating` while a query or an input message waits for the model, and `idle` once the query is answered |
| `Gpt.SwitchSession` | apps/GPT/app.py:345-351 | an unknown id gives an error and no change; a known id moves only the pointer |
| `Gpt.ListSessions` | apps/GPT/app.py:352-353 | `list_sessions` replies with the session ids joined by `, ` in creation order, and changes nothing |
| `Gpt.ListAfterCreate` | apps/GPT/app.py:340-353 | after creating a new id the listing gains `, ` and the id at its end; recreating an existing id leaves the listing as it was |
| `Gpt.SetModel` | apps/GPT/app.py:354-360 | a non-deployment gives an error and no change; a deployment changes only the model |
| `Gpt.UnknownCommand` | apps/GPT/app.py:361-362 | an unknown command changes nothing and is named in the error |
| `Gpt.CreateSession` | apps/GPT/app.py:340-344 | the id is added, or an existing session is overwritten in place; the others are kept |
| `Gpt.SetPromptResetsOnlyActive` | apps/GPT/app.py:332-335 | the new prompt is the stripped joined arguments; only the active session is reset |
| `Gpt.Query` | apps/GPT/app.py:325-331 | the query text is arguments 1..n joined by spaces and stripped; all-whitespace arguments give the empty-input warning |
| `Gpt.QuitKeepsRunning` | apps/GPT/app.py:322-324 | `quit` closes the ports, replies, and still returns True |
| `Gpt.ResetActive` | apps/GPT/app.py:319-321 | `reset` restarts the active session and keeps the others |
| `Gpt.InputAnswerPublishedTwice` | apps/GPT/app.py:366-376 | a successfully answered input-port message is published twice |
| `Gpt.InputEvents` | apps/GPT/app.py:366-376 | an input message is read, answered, then its answer is published |
| `Gpt.Apply` | apps/GPT/app.py:314-376 | each command or input step keeps the invariant |
| `Gpt.RunKeepsInv` | apps/GPT/app.py:314-376 | after any sequence of steps, the active session exists, the keys of sessions and counters agree, every session starts with a system message, and no session has disappeared |
| `VisualAttention.Initial` | apps/VisualAttention/app.py:11-21 | nothing is tracked, camera and depth are unset, period 0.1 |
| `VisualAttention.Configure` | apps/VisualAttention/app.py:23-37 | the period falls back to 0.1 when absent or zero, the robot to `icubSim` when absent or empty; the controller is created for that robot; tracking state is untouched |
| `VisualAttention.ParseCenter` | apps/VisualAttention/app.py:97-105 | the null value parses as the empty tuple and a number as itself; a list parses exactly when all its items are numbers, giving them in order; text does not parse |
| `VisualAttention.Observe` | apps/VisualAttention/app.py:95-125 | a one-shot observation replies `ack` only when the centre parses and the controller returns; otherwise the exception reply; the state never changes |
| `VisualAttention.Respond` | apps/VisualAttention/app.py:68-125 | camera tracking is never on without a camera and depth; period and robot never change; the module stops exactly on `bye` |
| `VisualAttention.UpdateModule` | apps/VisualAttention/app.py:45-66 | always True; while robot tracking is on, the camera port is not read |
| `VisualAttention.RobotTrackingCommands` | apps/VisualAttention/app.py:72-80 | start and stop of robot tracking flip only that flag and reply accordingly |
| `VisualAttention.StopCameraKeepsTarget` | apps/VisualAttention/app.py:82-85 | stopping camera tracking clears the flag and keeps camera and depth |
| `VisualAttention.StartCameraTracking` | apps/VisualAttention/app.py:87-93 | `start_camera_tracking (camera c) (z d)` sets the flag, the camera `c` and the depth `d` |
| `VisualAttention.FlagsNotExclusive` | apps/VisualAttention/app.py:72-93 | both tracking flags can be on at once |
| `VisualAttention.QuitAndUnknown` | apps/VisualAttention/app.py:112-119 | `quit` replies `bye` and stops; anything unknown replies `nack unknown command`; neither changes the state |
| `VisualAttention.ObserveSceneErrors` | apps/VisualAttention/app.py:95-102 | a scene observation asks the controller with the parsed centre, the width and the height; it replies with the error exactly when the centre does not parse or the controller raises, and keeps running |
| `VisualAttention.ObserveWorkspaceErrors` | apps/VisualAttention/app.py:104-125 | a workspace observation asks the controller with the parsed centre, the width and the depth; it replies `ack`, or the error exactly when the centre does not parse or the controller raises, and keeps running |
| `VisualAttention.TickObservesAtMostOnce` | apps/VisualAttention/app.py:45-66 | a tick observes at most once, one point, fixation time 0.1 |
| `VisualAttention.RobotTrackingHasPriority` | apps/VisualAttention/app.py:46-53 | while robot tracking, the tick polls the robot port and does not depend on the camera message |
| `VisualAttention.ObservesIffArity` | apps/VisualAttention/app.py:46-63 | a tick observes exactly when the polled message has three (robot) or two (camera) elements |
| `VisualAttention.RobotTickObservesMessage` | apps/VisualAttention/app.py:46-52 | while robot tracking, a three-element message is observed as the point made of its three elements |
| `VisualAttention.CameraTickObservesProjection` | apps/VisualAttention/app.py:53-63 | while only camera tracking, a two-element message is the pixel (u, v), projected at the tracked camera and depth, and the projection is observed |
| `GazeFollower.NewFaceFollower` | icubFollower/src/faceFollower.py:16-21 | the face follower is named `faceFollower`, reads face 0, landmark 27, from the given source port; period 0.1, not stopping |
| `GazeFollower.NewClickFollower` | icubFollower/src/clickFollower.py:16-18 | the click follower is named `clickFollower` and reads from the given source port |
| `GazeFollower.FacePixel` | icubFollower/src/faceFollower.py:23-27 | a target exists exactly when the face and the landmark are lists |
| `GazeFollower.ClickPixel` | icubFollower/src/clickFollower.py:20-24 | the pixel is the first two integers of the message |
| `GazeFollower.ResizePixel` | icubFollower/src/utilities/GazeFollower.py:66-72 | a zero resolution fails; otherwise scaling back to the camera resolution gives the pixel back |
| `GazeFollower.LookAtMonoPixel` | icubFollower/src/utilities/GazeFollower.py:75-83 | under the lock, look and wait exactly when not stopping; always True |
| `GazeFollower.Callback` | icubFollower/src/utilities/GazeFollower.py:85-88 | nothing is issued when the target or resolution fails; otherwise one locked section, which moves only if not stopping |
| `GazeFollower.Configure` | icubFollower/src/utilities/GazeFollower.py:32-42 | a given source port or period replaces the current one; the port is opened as `/<name>:i`; returns not stopping |
| `GazeFollower.UpdateModule` | icubFollower/src/utilities/GazeFollower.py:47-48 | keeps running exactly while not stopping |
| `GazeFollower.InterruptModule` | icubFollower/src/utilities/GazeFollower.py:50-57 | sets stop, parks once at (0, 0, 5) under the lock, returns True |
| `GazeFollower.Close` | icubFollower/src/utilities/GazeFollower.py:59-63 | closes the driver and returns the stop flag |
| `GazeFollower.StepDisciplined` | icubFollower/src/utilities/GazeFollower.py:76-82 | each step's events respect the lock; the step parks once exactly when it is a park |
| `GazeFollower.RunDisciplined` | icubFollower/src/utilities/GazeFollower.py:50-88 | under any schedule, device commands happen only under the lock, at most one look-at per locked section, and one park per interrupt |
| `GazeFollower.StoppedNeverMoves` | icubFollower/src/utilities/GazeFollower.py:52 | once set, stop stays set and no look-at follows |
| `GazeFollower.NoLookAfterInterrupt` | icubFollower/src/utilities/GazeFollower.py:52-57 | in the serialised order of steps every look-at precedes the raising of the stop flag, hence the interrupt's park |
| `GazeFollower.InterruptIsRaiseThenPark` | icubFollower/src/utilities/GazeFollower.py:50-57 | `interruptModule` is raising the flag followed by the locked park |
| `GazeFollower.FaceFollowerReadsEyeCentre` | icubFollower/src/faceFollower.py:25-26 | the face follower targets landmark 27 of face 0, x then y |
| `GazeFollower.ClickIgnoresTail` | icubFollower/src/clickFollower.py:20-24 | elements after the first two do not matter |
| `GazeFollower.CallbackLooksAtResized` | icubFollower/src/utilities/GazeFollower.py:85-88 | the callback is `lookAtMonoPixel` of the rescaled target |
| `GazeFollower.ResizeDoubleWidth` | icubFollower/src/utilities/GazeFollower.py:70 | doubling the width halves the column and keeps the row |
| `GazeFollower.ResizeAtNativeAndDoubleWidth` | icubFollower/src/utilities/GazeFollower.py:66-72 | at the camera's own 320x240 resolution the pixel is unchanged, and a frame twice as wide halves the column |
| `FaceDetector.Initial` | apps/FaceDetector/app.py:46-49 | no display, period 0.1 |
| `FaceDetector.Configure` | apps/FaceDetector/app.py:67-68 | display only when set and true; the period is never zero, falling back to 0.1 |
| `FaceDetector.Mean` | apps/FaceDetector/app.py:151 | the mean lies between, and equally far from, both values |
| `FaceDetector.EyeMidpoint` | apps/FaceDetector/app.py:150-154 | each coordinate of the midpoint is equally far from the two eyes |
| `FaceDetector.MidpointPixel` | apps/FaceDetector/app.py:108-109 | each pixel coordinate is the scaled midpoint coordinate truncated toward zero: within one pixel of it, on the side of zero |
| `FaceDetector.Detect` | apps/FaceDetector/app.py:105-126 | a midpoint is published only when both eyes are visible |
| `FaceDetector.UpdateModule` | apps/FaceDetector/app.py:84-133 | no image: nothing and keep running; a publication is two integers; the module stops exactly when displaying and `q` is pressed |
| `FaceDetector.Respond` | apps/FaceDetector/app.py:135-148 | a `period` key sets the period and wins over `quit`; `quit` stops; anything else is refused with no change |
| `FaceDetector.EmittedInBounds` | apps/FaceDetector/app.py:109-117 | a published pixel is the truncated midpoint and lies inside the image |
| `FaceDetector.EmitsIff` | apps/FaceDetector/app.py:102-111 | publication happens exactly when both eyes are visible and the scaled midpoint lies strictly between -1 and the size on each axis |
| `FaceDetector.EmitsIffPixel` | apps/FaceDetector/app.py:107-111 | the same, stated on the truncated pixel |
| `FaceDetector.VisibleEyesInsideArePublished` | apps/FaceDetector/app.py:105-117 | visible eyes with normalised coordinates in [0, 1) are always published |
| `FaceDetector.NothingWithoutVisibleEyes` | apps/FaceDetector/app.py:105-126 | missing landmarks or invisible eyes publish nothing, and the outcome says which |
| `FaceDetector.PeriodCommand` | apps/FaceDetector/app.py:138-141 | `period p`, bare or grouped, sets the period to `p` and replies `ack` |

## Left out

- Ports, `RFModule` scheduling and logging. Opening, reading, writing,
  interrupting and closing ports is runtime plumbing. A tick or callback is
  a function call that takes an optional message. `interruptModule` and
  `close` of GPT, VisualAttention and FaceDetector only touch ports and
  return True, so they are not modelled.
- The language-model client. Client construction, `_query_llm` and the
  warm-up call are network code. Each answer is an `Option<string>`
  parameter: `None` stands for a failed request. The model records only two
  outcomes of configuration: a failed client construction, and the warm-up's
  lookup of the default model, which raises when that model is not a
  deployment.
- Files. Reading the configuration and the prompt file is an input (`Setup`,
  and the `promptFile` parameter of `Gpt.Respond`). Saving a session always
  fails, because `save_session_to_file` reads the nonexistent
  `self.session_id`, so it appears only as a logged `SaveFailed` event. The
  creation of the sessions folder is not modelled.
- Exceptions the source does not catch. Examples are a model response
  without content, and an `observe_points` call that raises during a tick.
- Token counting. The source only ever sets counters to 0. The model keeps
  that as an invariant and does not add accounting.
- `print(full_reply)` in `answer_ChatGPT`, which writes to standard output.
- Image copying, colour conversion, MediaPipe pose estimation and the OpenCV
  window. An image is its size. The landmarks and the pressed key are inputs.
  The estimator always returns 33 landmarks, so `FaceDetector.UpdateModule`
  requires at least the six it indexes.
- Gaze-controller internals (`get3DPoint`, `observe_points`,
  `observe_scene`, `observe_workspace`, `lookAtMonoPixelSync`,
  `waitMotionDone`, `lookAtAbsAngles`). The `pyicub` library that implements
  them is not part of this model, so they are recorded as events. The 3D
  point for a pixel is a parameter.
- Real threads. The follower's lock is modelled at critical-section
  granularity. Each callback section and each park is atomic, and an
  interrupt raises its flag before it parks. The flag is written outside the
  lock, so in real time a raise can fall between a section's test of the
  flag and its look-at. The model orders such a raise after the section,
  which issues the same events because the section reads the flag once. The gaze calls never fail in
  the model. In the source, if `lookAtMonoPixelSync` or `waitMotionDone`
  raises while the lock is held, the lock is never released and every later
  callback and `interruptModule` blocks. That deadlock is not modelled.
- GPT's two threads (RPC `respond` and `updateModule`) interleave in the
  model only at the model request: `query` and an input tick each split
  into a half up to the request and a half after it, and `Gpt.Run`
  accepts any order of whole steps and halves. Finer interleavings, inside
  a dictionary update say, are not modelled.
- GPT's `status` is one field shared by both threads. A query that ends
  while an input message is still waiting for the model sets it to idle,
  exactly as the source does; the model does not track the two answers
  separately.
- GPT exceptions the source does not catch. A model response without
  content, or an exception inside `answer_ChatGPT`, leaves `query_via_rpc`
  set and the status `generating` in the source. The model has no such
  path: an answer is either `None` (a caught request failure) or text.
- Floating point. Pixel arithmetic, means and periods use `real`. Rounding,
  NaN and float-to-text precision are not modelled.
- `VisualAttention.ParseCenter`: the model accepts a list of numbers, a
  single number, or the null value. It treats any string as unparsable. The
  source splits the value's text, so a string made of numbers would parse
  there.
- `Markdown.EmphasisPasses`: the contract states only that `*` and `_` are
  deleted. What is unwrapped is stated by `Markdown.EmphasisUnwrapsStrong`
  and `Markdown.EmphasisUnwrapsWeak` for a single span, not for text with
  several overlapping spans.
- `Markdown.LinePasses`: the contract states only which characters may be
  deleted. The removal of each marker is stated by
  `Markdown.LinePassesBullet`, `Markdown.LinePassesNumbered` and
  `Markdown.LinePassesRule` for a single line.
- `Markdown.CollapseNewlines`: the contract bounds runs to two newlines.
  That a longer run becomes exactly two and that everything else is kept is
  stated by `Markdown.CollapseNewlinesRun` and
  `Markdown.CollapseNewlinesKeeps`.
- `Text.CollapseSpaces`: the contract states the shape of the result and
  that non-whitespace is kept. That each run becomes exactly one space is
  stated by `Text.CollapseSpacesRun`, `Text.CollapseSpacesSplit` and
  `Text.CollapseSpacesConcat`.
- `Bottle.AsInt32`: a float outside the 32-bit range is truncated without
  wrap-around.
- `Bottle.IsQuit`: only the exact text or vocabulary `quit` counts. The
  middleware compares 32-bit vocabulary codes, which look only at the first
  four characters of a string.
- `Bottle.AsBool`: the exact rules for converting text to a boolean are
  assumed: a non-zero number or vocabulary is true, and so is the text
  `true`.
- Markdown `\d` and `\s` in the line patterns. The model treats ASCII digits
  and Python's whitespace class. Python's `\d` also matches other Unicode
  decimal digits.
- Demo and client scripts (`examples/`, `apps/GPT/test.py`,
  `apps/GPT/test_module.py`) and the legacy helper
  `apps/legacy/clickFollower/utilities/common.py`. They are outside the
  modelled logic: the robot name and gaze controller of a follower come
  from them, and the model takes both as given.
