/** The chat bridge module (apps/GPT/app.py): a store of chat sessions with
    an active-session pointer, per-session token counters, a current model
    and a system prompt, driven by RPC commands and by text arriving on an
    input port. The language model is an oracle: each call that asks it is
    given its answer (`Some(content)`, or `None` when the API call failed)
    as a parameter, and the request is recorded as an event. */
module Gpt {
  import opened Wrappers
  import opened Text
  import opened Bottle
  import Markdown

  datatype Role = System | User | Assistant
  datatype ChatMessage = ChatMessage(role: Role, content: string)
  datatype Status = Idle | Generating

  /** Side effects, in the order they happen. */
  datatype Event =
    | AskLlm(history: seq<ChatMessage>, deployment: string)  // chat completion request
    | Publish(text: string)                                  // write to the output port
    | ReadInput                                              // non-blocking read of the input port
    | ClosePorts
    | SaveFailed(sessionId: string)                          // logged failure of the session save

  const DefaultSession := "default"
  const DefaultPrompt := "You are a helpful assistant."

  datatype State = State(
    sessions: map<string, seq<ChatMessage>>,
    order: seq<string>,            // session ids in creation order (the dictionary's key order)
    tokenUsage: map<string, int>,
    active: string,
    systemPrompt: string,
    deployments: map<string, string>,
    currentModel: string,
    status: Status,
    queryViaRpc: bool,
    textViaRpc: string,
    portsOpen: bool)

  predicate NoDuplicates(s: seq<string>)
  {
    forall i, j :: 0 <= i < j < |s| ==> s[i] != s[j]
  }

  /** What holds of the session store in every state a configured module
      reaches, including the states in the middle of a model request. The
      status and the RPC-query flag are not part of it: a command can arrive
      while an answer is being generated. */
  ghost predicate Inv(st: State)
  {
    && st.active in st.sessions
    && st.sessions.Keys == st.tokenUsage.Keys
    && (forall id :: id in st.sessions ==> |st.sessions[id]| > 0 && st.sessions[id][0].role == System)
    && (forall id :: id in st.tokenUsage ==> st.tokenUsage[id] == 0)
    && NoDuplicates(st.order)
    && (forall id :: id in st.sessions <==> id in st.order)
    && st.currentModel in st.deployments
  }

  /** The fields a session operation does not touch agree (the status is
      compared separately, since answering changes it). */
  predicate SameSettings(a: State, b: State)
  {
    && a.active == b.active && a.systemPrompt == b.systemPrompt
    && a.deployments == b.deployments && a.currentModel == b.currentModel
    && a.queryViaRpc == b.queryViaRpc
    && a.textViaRpc == b.textViaRpc && a.portsOpen == b.portsOpen
  }

  // ---------------------------------------------------------------------------
  // Configuration

  /** The outcome of reading the configuration file. */
  datatype Config = Config(deployments: map<string, string>, defaultModel: string)

  /** What `configure` obtains from its environment: the resource finder's
      values, the parsed configuration file (None when unreadable), the system
      prompt read from the prompt file or the configuration, and whether the
      API client could be constructed. */
  datatype Setup = Setup(
    sessionsFolder: string, configPath: string, config: Option<Config>,
    systemPrompt: string, clientCreated: bool)

  datatype ConfigError =
    | MissingSessionsFolder | MissingConfigPath | ConfigUnreadable | ClientInitFailed
    | WarmupRaised   // the warm-up request looks up the default model among the deployments

  /** `configure`: fails, in the source's order, on a missing sessions folder,
      a missing configuration path, an unreadable configuration, a failed
      client construction, or a default model that is not a deployment (the
      warm-up request raises); otherwise one session, the default one, holds
      the system prompt and is active. */
  function Configure(setup: Setup): (r: Result<State, ConfigError>)
    ensures r.Ok? ==> Inv(r.value)
    ensures r.Ok? ==> r.value.sessions == map[DefaultSession := [ChatMessage(System, setup.systemPrompt)]]
    ensures r.Ok? ==> r.value.active == DefaultSession && setup.config.Some? && r.value.currentModel == setup.config.value.defaultModel
    ensures r.Ok? ==> r.value.status == Idle && !r.value.queryViaRpc && r.value.order == [DefaultSession]
    ensures r.Ok? <==> setup.sessionsFolder != "" && setup.configPath != "" && setup.config.Some?
                       && setup.clientCreated && setup.config.value.defaultModel in setup.config.value.deployments
  {
    if setup.sessionsFolder == "" then Err(MissingSessionsFolder)
    else if setup.configPath == "" then Err(MissingConfigPath)
    else if setup.config.None? then Err(ConfigUnreadable)
    else if !setup.clientCreated then Err(ClientInitFailed)
    else
      var cfg := setup.config.value;
      var empty := State(map[], [], map[], DefaultSession, setup.systemPrompt, cfg.deployments,
                         cfg.defaultModel, Idle, false, "", true);
      if cfg.defaultModel !in cfg.deployments then Err(WarmupRaised)
      else Ok(FreshSession(empty, DefaultSession))
  }

  // ---------------------------------------------------------------------------
  // Sessions

  /** `_create_session` and `_reset_session` (identical bodies): the session
      `id` holds only the system message, its token count is 0, and a new id
      joins the end of the key order while an existing one keeps its place. */
  function FreshSession(st: State, id: string): (r: State)
    ensures r.sessions.Keys == st.sessions.Keys + {id}
    ensures r.tokenUsage.Keys == st.tokenUsage.Keys + {id}
    ensures r.sessions[id] == [ChatMessage(System, st.systemPrompt)] && r.tokenUsage[id] == 0
    ensures forall k :: k in st.sessions && k != id ==> k in r.sessions && r.sessions[k] == st.sessions[k]
    ensures forall k :: k in st.tokenUsage && k != id ==> k in r.tokenUsage && r.tokenUsage[k] == st.tokenUsage[k]
    ensures id in st.sessions ==> r.order == st.order
    ensures id !in st.sessions ==> r.order == st.order + [id]
    ensures SameSettings(r, st) && r.status == st.status
  {
    st.(sessions := st.sessions[id := [ChatMessage(System, st.systemPrompt)]],
        tokenUsage := st.tokenUsage[id := 0],
        order := if id in st.sessions then st.order else st.order + [id])
  }

  /** Creating or resetting a session keeps the invariant, whatever the id. */
  lemma FreshSessionKeepsInv(st: State, id: string)
    requires Inv(st.(active := if st.active in st.sessions then st.active else id))
    ensures Inv(FreshSession(st, id).(active := if st.active in st.sessions then st.active else id))
  {
    FreshSessionStarts(st, id);
    FreshSessionOrder(st, id);
  }

  /** Every session still starts with a system message and every counter is 0. */
  lemma FreshSessionStarts(st: State, id: string)
    requires forall k :: k in st.sessions ==> |st.sessions[k]| > 0 && st.sessions[k][0].role == System
    requires forall k :: k in st.tokenUsage ==> st.tokenUsage[k] == 0
    ensures var r := FreshSession(st, id);
      && (forall k :: k in r.sessions ==> |r.sessions[k]| > 0 && r.sessions[k][0].role == System)
      && (forall k :: k in r.tokenUsage ==> r.tokenUsage[k] == 0)
  {
  }

  /** The key order stays duplicate-free and in step with the session keys. */
  lemma FreshSessionOrder(st: State, id: string)
    requires NoDuplicates(st.order) && (forall k :: k in st.sessions <==> k in st.order)
    ensures var r := FreshSession(st, id);
      NoDuplicates(r.order) && (forall k :: k in r.sessions <==> k in r.order)
  {
    var r := FreshSession(st, id);
    if id !in st.sessions {
      assert id !in st.order;
      NoDuplicatesAppend(st.order, id);
      assert forall k :: k in r.order <==> k in st.order || k == id;
    }
  }

  lemma NoDuplicatesAppend(s: seq<string>, x: string)
    requires NoDuplicates(s) && x !in s
    ensures NoDuplicates(s + [x])
  {
    var t := s + [x];
    forall i, j | 0 <= i < j < |t|
      ensures t[i] != t[j]
    {
      if j == |s| {
        assert t[i] == s[i];
      }
    }
  }

  /** `_set_system_prompt`: the prompt is replaced and the active session, and
      only it, restarts from the new prompt. */
  function SetSystemPrompt(st: State, prompt: string): (r: State)
    requires Inv(st)
    ensures Inv(r)
    ensures r.systemPrompt == prompt && r.active == st.active
    ensures r.sessions[r.active] == [ChatMessage(System, prompt)]
    ensures r.sessions.Keys == st.sessions.Keys && r.order == st.order
    ensures forall k :: k in st.sessions && k != st.active ==> r.sessions[k] == st.sessions[k]
  {
    NewPromptKeepsInv(st, prompt);
    FreshSession(st.(systemPrompt := prompt), st.active)
  }

  /** Restarting the active session from a new prompt keeps the invariant. */
  lemma NewPromptKeepsInv(st: State, prompt: string)
    requires Inv(st)
    ensures Inv(FreshSession(st.(systemPrompt := prompt), st.active))
  {
    var s := st.(systemPrompt := prompt);
    assert Inv(s.(active := if s.active in s.sessions then s.active else s.active));
    FreshSessionKeepsInv(s, s.active);
  }

  // ---------------------------------------------------------------------------
  // Answering

  /** Turns appended to the active session: the other sessions, the key
      order and the settings are untouched, and the invariant is kept. */
  function AppendTurns(st: State, turns: seq<ChatMessage>): (r: State)
    requires st.active in st.sessions
    ensures Inv(st) ==> Inv(r)
    ensures r.sessions.Keys == st.sessions.Keys && r.order == st.order && SameSettings(r, st) && r.status == st.status
    ensures r.sessions[st.active] == st.sessions[st.active] + turns
    ensures forall k :: k in st.sessions && k != st.active ==> r.sessions[k] == st.sessions[k]
  {
    AppendTurnsKeepsInv(st, turns);
    st.(sessions := st.sessions[st.active := st.sessions[st.active] + turns])
  }

  lemma AppendTurnsKeepsInv(st: State, turns: seq<ChatMessage>)
    requires st.active in st.sessions
    ensures Inv(st) ==> Inv(st.(sessions := st.sessions[st.active := st.sessions[st.active] + turns]))
  {
    if Inv(st) {
      assert (st.sessions[st.active] + turns)[0] == st.sessions[st.active][0];
    }
  }

  datatype Answer = Answer(state: State, reply: string, events: seq<Event>)

  /** The save after a successful answer: only a session other than the
      default one is saved, and saving always fails into a logged error. */
  function SaveEvents(id: string): (es: seq<Event>)
    ensures es == [] <==> id == DefaultSession
    ensures es != [] ==> es == [SaveFailed(id)]
  {
    if id != DefaultSession then [SaveFailed(id)] else []
  }

  /** `answer_ChatGPT(text)` given the model's answer `llm`, in one piece.
      Empty text is refused without any change, not even to the status.
      Otherwise the user turn is appended and the model is asked with the
      whole active session; on failure the user turn stays and an error is
      returned; on success the cleaned reply is published, appended as the
      assistant turn and returned. Either way the status is idle afterwards. */
  function AnswerChat(st: State, text: string, llm: Option<string>): (a: Answer)
    requires Inv(st)
    ensures Inv(a.state)
    ensures a.state.active == st.active && a.state.sessions.Keys == st.sessions.Keys && a.state.order == st.order
    ensures text == "" ==> a.state == st && a.reply == "[WARNING] Empty input" && a.events == []
    ensures text != "" ==> a.state.status == Idle
    ensures text != "" ==> |a.events| > 0 && a.events[0] == AskLlm(st.sessions[st.active] + [ChatMessage(User, text)], st.deployments[st.currentModel])
    ensures text != "" && llm.None? ==>
      a.state.sessions[st.active] == st.sessions[st.active] + [ChatMessage(User, text)]
      && a.reply == "[ERROR] Failed to get response." && |a.events| == 1
    ensures text != "" && llm.Some? ==>
      a.state.sessions[st.active] == st.sessions[st.active] + [ChatMessage(User, text), ChatMessage(Assistant, a.reply)]
      && a.reply == Markdown.CleanReply(llm.value)
      && a.events[1..] == [Publish(a.reply)] + SaveEvents(st.active)
    ensures forall k :: k in st.sessions && k != st.active ==> a.state.sessions[k] == st.sessions[k]
    ensures SameSettings(a.state, st)
  {
    if text == "" then Answer(st, "[WARNING] Empty input", [])
    else
      var ask := AskLlm(st.sessions[st.active] + [ChatMessage(User, text)], st.deployments[st.currentModel]);
      match llm
      case None =>
        Answer(AppendTurns(st, [ChatMessage(User, text)]).(status := Idle), "[ERROR] Failed to get response.", [ask])
      case Some(content) =>
        var reply := Markdown.CleanReply(content);
        var rest := [Publish(reply)] + SaveEvents(st.active);
        assert ([ask] + rest)[1..] == rest;
        Answer(AppendTurns(st, [ChatMessage(User, text), ChatMessage(Assistant, reply)]).(status := Idle), reply, [ask] + rest)
  }

  /** A state between two steps, with the side effects of the first. */
  datatype Half = Half(state: State, events: seq<Event>)

  /** `answer_ChatGPT` up to the model request: the status becomes generating,
      the user turn is appended to the active session, and the model is asked
      with that session. The request is where another thread can run. */
  function BeginAnswer(st: State, text: string): (h: Half)
    requires Inv(st) && text != ""
    ensures Inv(h.state) && h.state.status == Generating
    ensures h.state.sessions.Keys == st.sessions.Keys && h.state.order == st.order && SameSettings(h.state, st)
    ensures h.state.sessions[st.active] == st.sessions[st.active] + [ChatMessage(User, text)]
    ensures forall k :: k in st.sessions && k != st.active ==> h.state.sessions[k] == st.sessions[k]
    ensures h.events == [AskLlm(h.state.sessions[st.active], st.deployments[st.currentModel])]
  {
    var s := AppendTurns(st, [ChatMessage(User, text)]).(status := Generating);
    Half(s, [AskLlm(s.sessions[s.active], s.deployments[s.currentModel])])
  }

  /** `answer_ChatGPT` after the model request returned `llm`: a failure gives
      the error reply; an answer is cleaned, published and appended to the
      session that is active now. The status is idle again. */
  function FinishAnswer(st: State, llm: Option<string>): (a: Answer)
    requires Inv(st)
    ensures Inv(a.state) && a.state.status == Idle
    ensures a.state.sessions.Keys == st.sessions.Keys && a.state.order == st.order && SameSettings(a.state, st)
    ensures llm.None? ==> a.state == st.(status := Idle) && a.reply == "[ERROR] Failed to get response." && a.events == []
    ensures llm.Some? ==>
      a.reply == Markdown.CleanReply(llm.value)
      && a.state.sessions[st.active] == st.sessions[st.active] + [ChatMessage(Assistant, a.reply)]
      && a.events == [Publish(a.reply)] + SaveEvents(st.active)
    ensures forall k :: k in st.sessions && k != st.active ==> a.state.sessions[k] == st.sessions[k]
  {
    match llm
    case None => Answer(st.(status := Idle), "[ERROR] Failed to get response.", [])
    case Some(content) =>
      var reply := Markdown.CleanReply(content);
      Answer(AppendTurns(st, [ChatMessage(Assistant, reply)]).(status := Idle), reply, [Publish(reply)] + SaveEvents(st.active))
  }

  /** Answering in two halves, with nothing in between, is answering in one. */
  lemma AnswerInTwoHalves(st: State, text: string, llm: Option<string>)
    requires Inv(st) && text != ""
    ensures var h := BeginAnswer(st, text);
      var f := FinishAnswer(h.state, llm);
      AnswerChat(st, text, llm) == Answer(f.state, f.reply, h.events + f.events)
  {
    match llm
    case None => AnswerHalvesFailed(st, text);
    case Some(content) => AnswerHalvesAnswered(st, text, content);
  }

  lemma AnswerHalvesFailed(st: State, text: string)
    requires Inv(st) && text != ""
    ensures var h := BeginAnswer(st, text);
      var f := FinishAnswer(h.state, None);
      AnswerChat(st, text, None) == Answer(f.state, f.reply, h.events + f.events)
  {
  }

  lemma AnswerHalvesAnswered(st: State, text: string, content: string)
    requires Inv(st) && text != ""
    ensures var h := BeginAnswer(st, text);
      var f := FinishAnswer(h.state, Some(content));
      AnswerChat(st, text, Some(content)) == Answer(f.state, f.reply, h.events + f.events)
  {
    AnsweredSteps(st, text, content);
    AnsweredState(st, text, content);
  }

  lemma AnsweredState(st: State, text: string, content: string)
    requires Inv(st) && text != ""
    ensures AppendTurns(AppendTurns(st, [ChatMessage(User, text)]).(status := Generating), [ChatMessage(Assistant, Markdown.CleanReply(content))]).(status := Idle)
         == AppendTurns(st, [ChatMessage(User, text), ChatMessage(Assistant, Markdown.CleanReply(content))]).(status := Idle)
  {
    var user := ChatMessage(User, text);
    var asst := ChatMessage(Assistant, Markdown.CleanReply(content));
    AppendTurnsTwice(st, [user], [asst], Generating, Idle);
    assert [user] + [asst] == [user, asst];
  }

  /** The three answering functions on a successful answer, unfolded. */
  lemma AnsweredSteps(st: State, text: string, content: string)
    requires Inv(st) && text != ""
    ensures var user := ChatMessage(User, text);
      var reply := Markdown.CleanReply(content);
      var ask := AskLlm(st.sessions[st.active] + [user], st.deployments[st.currentModel]);
      var rest := [Publish(reply)] + SaveEvents(st.active);
      var s := AppendTurns(st, [user]).(status := Generating);
      && BeginAnswer(st, text) == Half(s, [ask])
      && FinishAnswer(s, Some(content)) == Answer(AppendTurns(s, [ChatMessage(Assistant, reply)]).(status := Idle), reply, rest)
      && AnswerChat(st, text, Some(content)) == Answer(AppendTurns(st, [user, ChatMessage(Assistant, reply)]).(status := Idle), reply, [ask] + rest)
  {
  }

  /** Appending turns in two goes, with a status change between, is appending
      them at once. */
  lemma AppendTurnsTwice(st: State, x: seq<ChatMessage>, y: seq<ChatMessage>, g: Status, g': Status)
    requires st.active in st.sessions
    ensures AppendTurns(AppendTurns(st, x).(status := g), y).(status := g') == AppendTurns(st, x + y).(status := g')
  {
    assert st.sessions[st.active] + x + y == st.sessions[st.active] + (x + y);
  }

  /** If `switch_session` runs while the model is being asked, the user turn
      stays in the session that was active when the question was put and the
      assistant turn goes to the session that is active when the answer comes
      back. */
  lemma SwitchDuringAnswer(st: State, text: string, id: string, content: string)
    requires Inv(st) && text != "" && id in st.sessions && id != st.active
    ensures var h := BeginAnswer(st, text).state;
      var f := FinishAnswer(h.(active := id), Some(content)).state;
      && f.sessions[st.active] == st.sessions[st.active] + [ChatMessage(User, text)]
      && f.sessions[id] == st.sessions[id] + [ChatMessage(Assistant, Markdown.CleanReply(content))]
  {
  }

  // ---------------------------------------------------------------------------
  // Commands

  /** The words of a message as strings (`" ".join(b.get(i).asString() ...)`). */
  function Words(b: Message): (ws: seq<string>)
    ensures |ws| == |b| && forall i :: 0 <= i < |b| ==> ws[i] == AsString(b[i])
  {
    seq(|b|, i requires 0 <= i < |b| => AsString(b[i]))
  }

  /** The text of arguments 1..n joined by single spaces and stripped: it
      neither starts nor ends with whitespace, and a bare command word has
      none. */
  function ArgumentText(cmd: Message): (r: string)
    ensures |r| > 0 ==> !IsSpace(r[0]) && !IsSpace(r[|r| - 1])
    ensures |cmd| <= 1 ==> r == ""
  {
    Strip(Join(Words(if |cmd| > 0 then cmd[1..] else []), " "))
  }

  /** The text of a message read from the input port: all its words joined by
      single spaces and stripped. */
  function InputText(b: Message): (r: string)
    ensures |r| > 0 ==> !IsSpace(r[0]) && !IsSpace(r[|r| - 1])
    ensures |b| == 0 ==> r == ""
  {
    Strip(Join(Words(b), " "))
  }

  /** POSIX `os.path.isabs`. */
  predicate IsAbsolutePath(path: string)
  {
    |path| > 0 && path[0] == '/'
  }

  datatype Response = Response(state: State, reply: string, keepRunning: bool, events: seq<Event>)

  /** The commands `respond` recognises, and everything else. */
  datatype Verb =
    | StatusVerb | ResetVerb | QuitVerb | QueryVerb | SetPromptVerb | SetPromptFileVerb
    | CreateVerb | SwitchVerb | ListVerb | SetModelVerb | UnknownVerb

  predicate IsCommandWord(w: string)
  {
    w in ["status", "reset", "quit", "query", "set_system_prompt", "set_system_prompt_from_file",
          "create_session", "switch_session", "list_sessions", "set_model"]
  }

  /** The branch of the `respond` chain a first word selects. */
  function VerbOf(word: string): Verb
  {
    if word == "status" then StatusVerb
    else if word == "reset" then ResetVerb
    else if word == "quit" then QuitVerb
    else if word == "query" then QueryVerb
    else if word == "set_system_prompt" then SetPromptVerb
    else if word == "set_system_prompt_from_file" then SetPromptFileVerb
    else if word == "create_session" then CreateVerb
    else if word == "switch_session" then SwitchVerb
    else if word == "list_sessions" then ListVerb
    else if word == "set_model" then SetModelVerb
    else UnknownVerb
  }

  /** Each command word selects its own branch. */
  lemma WordVerb(word: string)
    ensures word == "status" ==> VerbOf(word) == StatusVerb
    ensures word == "reset" ==> VerbOf(word) == ResetVerb
    ensures word == "quit" ==> VerbOf(word) == QuitVerb
    ensures word == "query" ==> VerbOf(word) == QueryVerb
    ensures word == "set_system_prompt" ==> VerbOf(word) == SetPromptVerb
    ensures word == "set_system_prompt_from_file" ==> VerbOf(word) == SetPromptFileVerb
    ensures word == "create_session" ==> VerbOf(word) == CreateVerb
    ensures word == "switch_session" ==> VerbOf(word) == SwitchVerb
    ensures word == "list_sessions" ==> VerbOf(word) == ListVerb
    ensures word == "set_model" ==> VerbOf(word) == SetModelVerb
  {
  }

  /** Exactly the words outside the command list fall through to the
      unknown-command reply. */
  lemma UnknownIffNotCommand(word: string)
    ensures VerbOf(word).UnknownVerb? <==> !IsCommandWord(word)
  {
  }

  /** `respond`: one command, its reply string, and always True. `promptFile`
      is the outcome of reading the file `set_system_prompt_from_file` names
      (its text, or the exception message). */
  function Respond(st: State, cmd: Message, llm: Option<string>, promptFile: Result<string, string>): (r: Response)
    requires Inv(st)
    ensures Inv(r.state)
    ensures r.keepRunning
    ensures r.state.deployments == st.deployments
    ensures r.state.active != st.active ==> VerbOf(AsString(Get(cmd, 0))) == SwitchVerb && r.state.active in st.sessions
    ensures st.sessions.Keys <= r.state.sessions.Keys
  {
    var arg := AsString(Get(cmd, 1));
    match VerbOf(AsString(Get(cmd, 0)))
    case StatusVerb =>
      Response(st, if st.status == Idle then "idle" else "generating", true, [])
    case ResetVerb =>
      FreshSessionKeepsInv(st, st.active);
      Response(FreshSession(st, st.active), "Session reset.", true, [])
    case QuitVerb =>
      Response(st.(portsOpen := false), "Quit command sent.", true, [ClosePorts])
    case QueryVerb => RespondQuery(st, cmd, llm)
    case SetPromptVerb =>
      Response(SetSystemPrompt(st, ArgumentText(cmd)), "System prompt updated.", true, [])
    case SetPromptFileVerb => SetPromptFromFile(st, arg, promptFile)
    case _ => RespondSessionCommand(st, cmd)
  }

  /** `respond("query …")`: the flag that keeps `updateModule` off the input
      port is raised while the argument text is answered, and lowered after. */
  function RespondQuery(st: State, cmd: Message, llm: Option<string>): (r: Response)
    requires Inv(st)
    ensures Inv(r.state) && r.keepRunning
    ensures !r.state.queryViaRpc && r.state.textViaRpc == ArgumentText(cmd)
    ensures r.state.active == st.active && r.state.sessions.Keys == st.sessions.Keys && r.state.deployments == st.deployments
  {
    var text := ArgumentText(cmd);
    var a := AnswerChat(st.(queryViaRpc := true, textViaRpc := text), text, llm);
    Response(a.state.(queryViaRpc := false), a.reply, true, a.events)
  }

  /** `_set_system_prompt_from_file(path)`, given the outcome of reading the
      file: a relative path is refused, an unreadable file is reported with the
      reason, and a readable one sets the stripped text as the prompt. */
  function SetPromptFromFile(st: State, path: string, file: Result<string, string>): (r: Response)
    requires Inv(st)
    ensures Inv(r.state) && r.keepRunning && r.events == []
    ensures r.state.active == st.active && r.state.sessions.Keys == st.sessions.Keys && r.state.deployments == st.deployments
    ensures !IsAbsolutePath(path) ==> r.state == st && r.reply == "[ERROR] filepath is not absolute!"
    ensures IsAbsolutePath(path) && file.Err? ==>
      r.state == st && r.reply == "[ERROR] Failed to load system prompt from " + path + " file: " + file.error
    ensures IsAbsolutePath(path) && file.Ok? ==>
      && r.state.systemPrompt == Strip(file.value) && r.reply == "System prompt updated."
      && r.state.sessions[st.active] == [ChatMessage(System, Strip(file.value))]
      && (forall k :: k in st.sessions && k != st.active ==> r.state.sessions[k] == st.sessions[k])
  {
    if !IsAbsolutePath(path) then
      Response(st, "[ERROR] filepath is not absolute!", true, [])
    else match file
      case Ok(content) => Response(SetSystemPrompt(st, Strip(content)), "System prompt updated.", true, [])
      case Err(e) => Response(st, "[ERROR] Failed to load system prompt from " + path + " file: " + e, true, [])
  }

  /** The rest of the `respond` chain: the session and model commands, and the
      reply to an unknown command. */
  function RespondSessionCommand(st: State, cmd: Message): (r: Response)
    requires Inv(st)
    ensures Inv(r.state)
    ensures r.keepRunning
    ensures r.state.deployments == st.deployments
    ensures r.state.active != st.active ==> VerbOf(AsString(Get(cmd, 0))) == SwitchVerb && r.state.active in st.sessions
    ensures st.sessions.Keys <= r.state.sessions.Keys
    ensures VerbOf(AsString(Get(cmd, 0))) == ListVerb ==> r == Response(st, Join(st.order, ", "), true, [])
  {
    var word := AsString(Get(cmd, 0));
    var arg := AsString(Get(cmd, 1));
    match VerbOf(word)
    case CreateVerb =>
      FreshSessionKeepsInv(st, arg);
      Response(FreshSession(st, arg), "Session '" + arg + "' created.", true, [SaveFailed(arg)])
    case SwitchVerb =>
      if arg in st.sessions then Response(st.(active := arg), "Switched to session '" + arg + "'.", true, [])
      else Response(st, "[ERROR] Session '" + arg + "' not found.", true, [])
    case ListVerb =>
      Response(st, Join(st.order, ", "), true, [])
    case SetModelVerb =>
      if arg in st.deployments then Response(st.(currentModel := arg), "Model set to '" + arg + "'.", true, [])
      else Response(st, "[ERROR] Unknown model '" + arg + "'.", true, [])
    case _ =>
      Response(st, "[ERROR] Unknown command '" + word + "'. Type 'help'.", true, [])
  }

  datatype Tick = Tick(state: State, keepRunning: bool, events: seq<Event>)

  /** `updateModule`: unless an RPC query is being answered, poll the input
      port; a message is joined into text, answered, and the answer published
      (the answering path has already published a successful reply once). */
  function UpdateModule(st: State, input: Option<Message>, llm: Option<string>): (t: Tick)
    requires Inv(st)
    ensures Inv(t.state)
    ensures t.keepRunning
    ensures st.queryViaRpc ==> t == Tick(st, true, [])
    ensures !st.queryViaRpc ==> |t.events| > 0 && t.events[0] == ReadInput
    ensures input.None? ==> t.state == st
    ensures t.state.sessions.Keys == st.sessions.Keys && t.state.active == st.active
    ensures !st.queryViaRpc && input.Some? ==>
      var a := AnswerChat(st, InputText(input.value), llm);
      t.state == a.state && t.events[|t.events| - 1] == Publish(a.reply)
  {
    if st.queryViaRpc then Tick(st, true, [])
    else match input
      case None => Tick(st, true, [ReadInput])
      case Some(b) =>
        var a := AnswerChat(st, InputText(b), llm);
        Tick(a.state, true, [ReadInput] + a.events + [Publish(a.reply)])
  }

  // ---------------------------------------------------------------------------
  // The two threads. `respond` runs on the RPC port's thread and
  // `updateModule` on the module's own; either can run while the other waits
  // for the model. These halves split each answering step at that request.

  /** `respond("query …")` up to the model request. Empty text makes no
      request: its whole answer is the second half. */
  function QueryStart(st: State, cmd: Message): (h: Half)
    requires Inv(st)
    ensures Inv(h.state) && h.state.queryViaRpc && h.state.textViaRpc == ArgumentText(cmd)
    ensures h.state.active == st.active && h.state.sessions.Keys == st.sessions.Keys
    ensures ArgumentText(cmd) == "" ==> h == Half(st.(queryViaRpc := true, textViaRpc := ""), [])
    ensures ArgumentText(cmd) != "" ==> h.state.status == Generating && |h.events| == 1 && h.events[0].AskLlm?
  {
    var text := ArgumentText(cmd);
    var s := st.(queryViaRpc := true, textViaRpc := text);
    if text == "" then Half(s, []) else BeginAnswer(s, text)
  }

  /** `respond("query …")` once the model request for `text` returned `llm`. */
  function QueryFinish(st: State, text: string, llm: Option<string>): (r: Response)
    requires Inv(st)
    ensures Inv(r.state) && r.keepRunning && !r.state.queryViaRpc
    ensures r.state.active == st.active && r.state.sessions.Keys == st.sessions.Keys
    ensures text == "" ==> r == Response(st.(queryViaRpc := false), "[WARNING] Empty input", true, [])
    ensures text != "" ==> r.state.status == Idle
  {
    if text == "" then Response(st.(queryViaRpc := false), "[WARNING] Empty input", true, [])
    else
      var a := FinishAnswer(st, llm);
      Response(a.state.(queryViaRpc := false), a.reply, true, a.events)
  }

  /** `updateModule` up to the model request: with an RPC query in progress it
      does nothing; otherwise it polls the input port and begins to answer the
      text of a message. */
  function InputStart(st: State, input: Option<Message>): (h: Half)
    requires Inv(st)
    ensures Inv(h.state)
    ensures h.state.active == st.active && h.state.sessions.Keys == st.sessions.Keys
    ensures st.queryViaRpc ==> h == Half(st, [])
    ensures !st.queryViaRpc ==> |h.events| > 0 && h.events[0] == ReadInput
    ensures !st.queryViaRpc && input.Some? && InputText(input.value) != "" ==> h.state.status == Generating
    ensures input.None? || InputText(input.value) == "" ==> h.state == st
  {
    if st.queryViaRpc then Half(st, [])
    else match input
      case None => Half(st, [ReadInput])
      case Some(b) =>
        var text := InputText(b);
        if text == "" then Half(st, [ReadInput])
        else
          var h := BeginAnswer(st, text);
          Half(h.state, [ReadInput] + h.events)
  }

  /** `updateModule` once the model request for `text` returned `llm`: the
      answer is finished and its reply published once more. */
  function InputFinish(st: State, text: string, llm: Option<string>): (t: Tick)
    requires Inv(st)
    ensures Inv(t.state) && t.keepRunning
    ensures t.state.active == st.active && t.state.sessions.Keys == st.sessions.Keys
    ensures text == "" ==> t == Tick(st, true, [Publish("[WARNING] Empty input")])
    ensures text != "" ==> t.state.status == Idle && |t.events| > 0 && t.events[|t.events| - 1].Publish?
  {
    if text == "" then Tick(st, true, [Publish("[WARNING] Empty input")])
    else
      var a := FinishAnswer(st, llm);
      Tick(a.state, true, a.events + [Publish(a.reply)])
  }

  /** A query whose halves run back to back is the query answered in one piece. */
  lemma QueryInTwoHalves(st: State, cmd: Message, llm: Option<string>, file: Result<string, string>)
    requires Inv(st)
    requires AsString(Get(cmd, 0)) == "query"
    ensures var h := QueryStart(st, cmd);
      var f := QueryFinish(h.state, ArgumentText(cmd), llm);
      Respond(st, cmd, llm, file) == Response(f.state, f.reply, true, h.events + f.events)
  {
    QueryBranch(st, cmd, llm, file);
    var text := ArgumentText(cmd);
    if text != "" {
      AnswerInTwoHalves(st.(queryViaRpc := true, textViaRpc := text), text, llm);
    }
  }

  /** An input tick whose halves run back to back is the tick in one piece. */
  lemma InputInTwoHalves(st: State, b: Message, llm: Option<string>)
    requires Inv(st) && !st.queryViaRpc
    ensures var h := InputStart(st, Some(b));
      var f := InputFinish(h.state, InputText(b), llm);
      UpdateModule(st, Some(b), llm) == Tick(f.state, true, h.events + f.events)
  {
    if InputText(b) != "" {
      InputHalvesAnswer(st, b, llm);
    } else {
      InputHalvesEmpty(st, b, llm);
    }
  }

  lemma InputHalvesEmpty(st: State, b: Message, llm: Option<string>)
    requires Inv(st) && !st.queryViaRpc && InputText(b) == ""
    ensures var h := InputStart(st, Some(b));
      var f := InputFinish(h.state, InputText(b), llm);
      UpdateModule(st, Some(b), llm) == Tick(f.state, true, h.events + f.events)
  {
    var warn := Publish("[WARNING] Empty input");
    assert AnswerChat(st, "", llm) == Answer(st, "[WARNING] Empty input", []);
    assert UpdateModule(st, Some(b), llm) == Tick(st, true, [ReadInput] + [] + [warn]);
    assert InputStart(st, Some(b)) == Half(st, [ReadInput]);
    assert InputFinish(st, "", llm) == Tick(st, true, [warn]);
    assert [ReadInput] + [] + [warn] == [ReadInput] + [warn];
  }

  lemma InputHalvesAnswer(st: State, b: Message, llm: Option<string>)
    requires Inv(st) && !st.queryViaRpc && InputText(b) != ""
    ensures var h := InputStart(st, Some(b));
      var f := InputFinish(h.state, InputText(b), llm);
      UpdateModule(st, Some(b), llm) == Tick(f.state, true, h.events + f.events)
  {
    var text := InputText(b);
    var h := BeginAnswer(st, text);
    var f := FinishAnswer(h.state, llm);
    InputSteps(st, b, llm);
    AnswerInTwoHalves(st, text, llm);
    Regroup([ReadInput], h.events, f.events, [Publish(f.reply)]);
  }

  /** The three input-tick functions on a non-empty message, unfolded. */
  lemma InputSteps(st: State, b: Message, llm: Option<string>)
    requires Inv(st) && !st.queryViaRpc && InputText(b) != ""
    ensures var text := InputText(b);
      var h := BeginAnswer(st, text);
      var f := FinishAnswer(h.state, llm);
      var a := AnswerChat(st, text, llm);
      && UpdateModule(st, Some(b), llm) == Tick(a.state, true, [ReadInput] + a.events + [Publish(a.reply)])
      && InputStart(st, Some(b)) == Half(h.state, [ReadInput] + h.events)
      && InputFinish(h.state, text, llm) == Tick(f.state, true, f.events + [Publish(f.reply)])
  {
  }

  lemma Regroup(a: seq<Event>, b: seq<Event>, c: seq<Event>, d: seq<Event>)
    ensures a + (b + c) + d == (a + b) + (c + d)
  {
  }

  /** While a query waits for the model, `updateModule` neither reads the
      input port nor changes anything. */
  lemma QueryGatesInput(st: State, cmd: Message, input: Option<Message>, llm: Option<string>)
    requires Inv(st)
    ensures var h := QueryStart(st, cmd).state;
      UpdateModule(h, input, llm) == Tick(h, true, []) && InputStart(h, input) == Half(h, [])
  {
  }

  /** `status` replies with the status and changes nothing. */
  lemma StatusReply(st: State, cmd: Message, llm: Option<string>, file: Result<string, string>)
    requires Inv(st)
    requires AsString(Get(cmd, 0)) == "status"
    ensures Respond(st, cmd, llm, file) == Response(st, if st.status == Idle then "idle" else "generating", true, [])
  {
    WordVerb(AsString(Get(cmd, 0)));
    assert VerbOf(AsString(Get(cmd, 0))) == StatusVerb;
  }

  /** A `status` command that arrives while a query or an input message waits
      for the model replies "generating"; once the query has been answered it
      replies "idle". */
  lemma StatusWhileAnswering(st: State, cmd: Message, b: Message, status: Message, llm: Option<string>, file: Result<string, string>)
    requires Inv(st)
    requires AsString(Get(cmd, 0)) == "query" && ArgumentText(cmd) != ""
    requires AsString(Get(status, 0)) == "status"
    ensures Respond(QueryStart(st, cmd).state, status, llm, file).reply == "generating"
    ensures Respond(Respond(st, cmd, llm, file).state, status, llm, file).reply == "idle"
    ensures !st.queryViaRpc && InputText(b) != "" ==> Respond(InputStart(st, Some(b)).state, status, llm, file).reply == "generating"
  {
    StatusWhileQuerying(st, cmd, status, llm, file);
    StatusAfterQuery(st, cmd, status, llm, file);
    if !st.queryViaRpc && InputText(b) != "" {
      StatusWhileReading(st, b, status, llm, file);
    }
  }

  lemma StatusWhileQuerying(st: State, cmd: Message, status: Message, llm: Option<string>, file: Result<string, string>)
    requires Inv(st) && ArgumentText(cmd) != ""
    requires AsString(Get(status, 0)) == "status"
    ensures Respond(QueryStart(st, cmd).state, status, llm, file).reply == "generating"
  {
    StatusReply(QueryStart(st, cmd).state, status, llm, file);
  }

  lemma StatusAfterQuery(st: State, cmd: Message, status: Message, llm: Option<string>, file: Result<string, string>)
    requires Inv(st)
    requires AsString(Get(cmd, 0)) == "query" && ArgumentText(cmd) != ""
    requires AsString(Get(status, 0)) == "status"
    ensures Respond(Respond(st, cmd, llm, file).state, status, llm, file).reply == "idle"
  {
    Query(st, cmd, llm, file);
    StatusReply(Respond(st, cmd, llm, file).state, status, llm, file);
  }

  lemma StatusWhileReading(st: State, b: Message, status: Message, llm: Option<string>, file: Result<string, string>)
    requires Inv(st) && !st.queryViaRpc && InputText(b) != ""
    requires AsString(Get(status, 0)) == "status"
    ensures Respond(InputStart(st, Some(b)).state, status, llm, file).reply == "generating"
  {
    StatusReply(InputStart(st, Some(b)).state, status, llm, file);
  }

  // ---------------------------------------------------------------------------
  // Properties of the command surface

  /** A command message made of words. */
  function Command(words: seq<string>): (cmd: Message)
    ensures |cmd| == |words| && forall i :: 0 <= i < |words| ==> cmd[i] == Str(words[i])
  {
    seq(|words|, i requires 0 <= i < |words| => Str(words[i]))
  }

  /** The argument text of a command built from words is the stripped join
      of the words after the first. */
  lemma ArgumentTextOfCommand(verb: string, words: seq<string>)
    ensures AsString(Get(Command([verb] + words), 0)) == verb
    ensures ArgumentText(Command([verb] + words)) == Strip(Join(words, " "))
  {
    var cmd := Command([verb] + words);
    assert Words(cmd[1..]) == words;
  }

  /** The text of an input message made of words is those words joined by
      single spaces and stripped. */
  lemma InputTextOfMessage(words: seq<string>)
    ensures InputText(Command(words)) == Strip(Join(words, " "))
  {
    assert Words(Command(words)) == words;
  }

  /** A message of words read from the input port is answered as its words
      joined by single spaces and stripped, and that answer is published last. */
  lemma InputAnswersJoinedWords(st: State, words: seq<string>, llm: Option<string>)
    requires Inv(st) && !st.queryViaRpc
    ensures var t := UpdateModule(st, Some(Command(words)), llm);
      var a := AnswerChat(st, Strip(Join(words, " ")), llm);
      t.state == a.state && t.events[|t.events| - 1] == Publish(a.reply)
  {
    InputTextOfMessage(words);
  }

  /** `list_sessions` replies with the session ids joined by ", ", in the
      order the sessions were first created, and changes nothing. */
  lemma ListSessions(st: State, cmd: Message, llm: Option<string>, file: Result<string, string>)
    requires Inv(st)
    requires AsString(Get(cmd, 0)) == "list_sessions"
    ensures Respond(st, cmd, llm, file) == Response(st, Join(st.order, ", "), true, [])
  {
    WordVerb(AsString(Get(cmd, 0)));
  }

  /** After `create_session` with a new id, the listing is the old listing
      followed by ", " and the new id; recreating an existing id keeps the
      listing as it was. */
  lemma ListAfterCreate(st: State, id: string, llm: Option<string>, file: Result<string, string>)
    requires Inv(st)
    ensures var r := Respond(st, Command(["create_session", id]), llm, file).state;
      Respond(r, Command(["list_sessions"]), llm, file).reply
        == if id in st.sessions then Join(st.order, ", ") else Join(st.order, ", ") + ", " + id
  {
    var cmd := Command(["create_session", id]);
    assert AsString(Get(cmd, 0)) == "create_session" && AsString(Get(cmd, 1)) == id;
    CreateBranch(st, cmd, llm, file);
    var r := FreshSession(st, id);
    ListSessions(r, Command(["list_sessions"]), llm, file);
    if id !in st.sessions {
      assert st.active in st.order;
      JoinAppend(st.order, [id], ", ");
    }
  }

  /** `switch_session` to an unknown id replies with an error and changes nothing;
      to a known id it moves the pointer and nothing else. */
  lemma SwitchSession(st: State, cmd: Message, llm: Option<string>, file: Result<string, string>)
    requires Inv(st)
    requires AsString(Get(cmd, 0)) == "switch_session"
    ensures var id := AsString(Get(cmd, 1));
      var r := Respond(st, cmd, llm, file);
      && r.events == []
      && (id !in st.sessions ==> r.state == st && r.reply == "[ERROR] Session '" + id + "' not found.")
      && (id in st.sessions ==> r.state == st.(active := id) && r.reply == "Switched to session '" + id + "'.")
  {
    WordVerb(AsString(Get(cmd, 0)));
    assert VerbOf(AsString(Get(cmd, 0))) == SwitchVerb;
  }

  /** `set_model` with a name that is not a deployment replies with an error
      and changes nothing; with a deployment it changes only the model. */
  lemma SetModel(st: State, cmd: Message, llm: Option<string>, file: Result<string, string>)
    requires Inv(st)
    requires AsString(Get(cmd, 0)) == "set_model"
    ensures var name := AsString(Get(cmd, 1));
      var r := Respond(st, cmd, llm, file);
      && r.events == []
      && (name !in st.deployments ==> r.state == st && r.reply == "[ERROR] Unknown model '" + name + "'.")
      && (name in st.deployments ==> r.state == st.(currentModel := name) && r.reply == "Model set to '" + name + "'.")
  {
    WordVerb(AsString(Get(cmd, 0)));
    assert VerbOf(AsString(Get(cmd, 0))) == SetModelVerb;
  }

  /** A command word the module does not know changes nothing and is named in
      the error reply. */
  lemma UnknownCommand(st: State, cmd: Message, llm: Option<string>, file: Result<string, string>)
    requires Inv(st)
    requires !IsCommandWord(AsString(Get(cmd, 0)))
    ensures var r := Respond(st, cmd, llm, file);
      r.state == st && r.events == [] && r.keepRunning
      && r.reply == "[ERROR] Unknown command '" + AsString(Get(cmd, 0)) + "'. Type 'help'."
  {
    UnknownIffNotCommand(AsString(Get(cmd, 0)));
  }

  /** `create_session` adds the id, or overwrites an existing session with a
      fresh one in place; every other session is kept, and the save of the new
      session fails into a logged error. */
  lemma CreateSession(st: State, cmd: Message, llm: Option<string>, file: Result<string, string>)
    requires Inv(st)
    requires AsString(Get(cmd, 0)) == "create_session"
    ensures var id := AsString(Get(cmd, 1));
      var r := Respond(st, cmd, llm, file);
      && r.state.sessions.Keys == st.sessions.Keys + {id}
      && r.state.sessions[id] == [ChatMessage(System, st.systemPrompt)]
      && r.state.tokenUsage[id] == 0
      && (forall k :: k in st.sessions && k != id ==> r.state.sessions[k] == st.sessions[k])
      && r.state.order == (if id in st.sessions then st.order else st.order + [id])
      && r.state.active == st.active
      && r.reply == "Session '" + id + "' created."
      && r.events == [SaveFailed(id)]
  {
    CreateBranch(st, cmd, llm, file);
  }

  lemma CreateBranch(st: State, cmd: Message, llm: Option<string>, file: Result<string, string>)
    requires Inv(st)
    requires AsString(Get(cmd, 0)) == "create_session"
    ensures var id := AsString(Get(cmd, 1));
      Respond(st, cmd, llm, file) == Response(FreshSession(st, id), "Session '" + id + "' created.", true, [SaveFailed(id)])
  {
    WordVerb(AsString(Get(cmd, 0)));
    assert VerbOf(AsString(Get(cmd, 0))) == CreateVerb;
  }

  /** `set_system_prompt` replaces the prompt with the argument text and
      resets only the active session. */
  lemma SetPromptResetsOnlyActive(st: State, cmd: Message, llm: Option<string>, file: Result<string, string>)
    requires Inv(st)
    requires AsString(Get(cmd, 0)) == "set_system_prompt"
    ensures var r := Respond(st, cmd, llm, file);
      var prompt := ArgumentText(cmd);
      && r.state.systemPrompt == prompt
      && r.state.active == st.active
      && r.state.sessions[st.active] == [ChatMessage(System, prompt)]
      && r.state.sessions.Keys == st.sessions.Keys
      && (forall k :: k in st.sessions && k != st.active ==> r.state.sessions[k] == st.sessions[k])
      && r.reply == "System prompt updated."
  {
    SetPromptBranch(st, cmd, llm, file);
  }

  lemma SetPromptBranch(st: State, cmd: Message, llm: Option<string>, file: Result<string, string>)
    requires Inv(st)
    requires AsString(Get(cmd, 0)) == "set_system_prompt"
    ensures Respond(st, cmd, llm, file) == Response(SetSystemPrompt(st, ArgumentText(cmd)), "System prompt updated.", true, [])
  {
    WordVerb(AsString(Get(cmd, 0)));
    assert VerbOf(AsString(Get(cmd, 0))) == SetPromptVerb;
  }

  /** `query` answers the argument text; arguments that are all whitespace
      give the empty-input warning and leave the sessions alone. */
  lemma Query(st: State, cmd: Message, llm: Option<string>, file: Result<string, string>)
    requires Inv(st)
    requires AsString(Get(cmd, 0)) == "query"
    ensures var r := Respond(st, cmd, llm, file);
      var text := ArgumentText(cmd);
      && r.state.textViaRpc == text
      && !r.state.queryViaRpc
      && r.reply == AnswerChat(st, text, llm).reply
      && (text != "" ==> r.state.status == Idle)
      && (text == "" ==> r.reply == "[WARNING] Empty input" && r.state == st.(queryViaRpc := false, textViaRpc := "") && r.events == [])
  {
    QueryBranch(st, cmd, llm, file);
  }

  lemma QueryBranch(st: State, cmd: Message, llm: Option<string>, file: Result<string, string>)
    requires Inv(st)
    requires AsString(Get(cmd, 0)) == "query"
    ensures var text := ArgumentText(cmd);
      var a := AnswerChat(st.(queryViaRpc := true, textViaRpc := text), text, llm);
      Respond(st, cmd, llm, file) == Response(a.state.(queryViaRpc := false), a.reply, true, a.events)
  {
    WordVerb(AsString(Get(cmd, 0)));
    assert VerbOf(AsString(Get(cmd, 0))) == QueryVerb;
  }

  /** `quit` closes the ports but, answering True, does not stop the module. */
  lemma QuitKeepsRunning(st: State, cmd: Message, llm: Option<string>, file: Result<string, string>)
    requires Inv(st)
    requires AsString(Get(cmd, 0)) == "quit"
    ensures var r := Respond(st, cmd, llm, file);
      r.state == st.(portsOpen := false) && r.reply == "Quit command sent." && r.keepRunning && r.events == [ClosePorts]
  {
    WordVerb(AsString(Get(cmd, 0)));
    assert VerbOf(AsString(Get(cmd, 0))) == QuitVerb;
  }

  /** `reset` restarts the active session from the system prompt and keeps the others. */
  lemma ResetActive(st: State, cmd: Message, llm: Option<string>, file: Result<string, string>)
    requires Inv(st)
    requires AsString(Get(cmd, 0)) == "reset"
    ensures var r := Respond(st, cmd, llm, file);
      && r.state.sessions[st.active] == [ChatMessage(System, st.systemPrompt)]
      && r.state.sessions.Keys == st.sessions.Keys && r.state.order == st.order
      && (forall k :: k in st.sessions && k != st.active ==> r.state.sessions[k] == st.sessions[k])
      && r.reply == "Session reset."
  {
    ResetBranch(st, cmd, llm, file);
  }

  lemma ResetBranch(st: State, cmd: Message, llm: Option<string>, file: Result<string, string>)
    requires Inv(st)
    requires AsString(Get(cmd, 0)) == "reset"
    ensures Respond(st, cmd, llm, file) == Response(FreshSession(st, st.active), "Session reset.", true, [])
  {
    WordVerb(AsString(Get(cmd, 0)));
    assert VerbOf(AsString(Get(cmd, 0))) == ResetVerb;
  }

  /** A message read from the input port that the model answers successfully is
      published twice: once while answering and once more by `updateModule`. */
  lemma InputAnswerPublishedTwice(st: State, b: Message, content: string)
    requires Inv(st) && !st.queryViaRpc
    requires InputText(b) != ""
    ensures var t := UpdateModule(st, Some(b), Some(content));
      var reply := Markdown.CleanReply(content);
      && t.events[|t.events| - 1] == Publish(reply)
      && Publish(reply) in t.events[..|t.events| - 1]
  {
    var a := AnswerChat(st, InputText(b), Some(content));
    InputEvents(st, b, Some(content));
    var t := UpdateModule(st, Some(b), Some(content));
    var front := t.events[..|t.events| - 1];
    assert front == [ReadInput] + a.events;
    assert front[2] == a.events[1];
  }

  lemma InputEvents(st: State, b: Message, llm: Option<string>)
    requires Inv(st) && !st.queryViaRpc
    ensures var a := AnswerChat(st, InputText(b), llm);
      UpdateModule(st, Some(b), llm).events == [ReadInput] + a.events + [Publish(a.reply)]
  {
  }

  /** A step of either thread: a command or an input tick in one piece, or
      one half of a query or of an input tick. Any order of steps is allowed,
      which covers every interleaving of the two threads. */
  datatype Step =
    | Rpc(cmd: Message, llm: Option<string>, file: Result<string, string>)
    | Input(input: Option<Message>, llm: Option<string>)
    | QueryBegin(query: Message)
    | QueryEnd(text: string, answer: Option<string>)
    | InputBegin(message: Option<Message>)
    | InputEnd(inputText: string, reply: Option<string>)

  function Apply(st: State, step: Step): (r: State)
    requires Inv(st)
    ensures Inv(r)
    ensures st.sessions.Keys <= r.sessions.Keys
  {
    match step
    case Rpc(cmd, llm, file) => Respond(st, cmd, llm, file).state
    case Input(input, llm) => UpdateModule(st, input, llm).state
    case QueryBegin(cmd) => QueryStart(st, cmd).state
    case QueryEnd(text, llm) => QueryFinish(st, text, llm).state
    case InputBegin(input) => InputStart(st, input).state
    case InputEnd(text, llm) => InputFinish(st, text, llm).state
  }

  function Run(st: State, steps: seq<Step>): (r: State)
    requires Inv(st)
    decreases |steps|
  {
    if |steps| == 0 then st else Run(Apply(st, steps[0]), steps[1..])
  }

  /** In every state a configured module reaches, the active session exists,
      sessions and token counters have the same keys, every session starts with
      a system message, and sessions are never removed. */
  lemma {:induction false} RunKeepsInv(st: State, steps: seq<Step>)
    requires Inv(st)
    ensures Inv(Run(st, steps))
    ensures st.sessions.Keys <= Run(st, steps).sessions.Keys
    decreases |steps|
  {
    if |steps| > 0 {
      RunKeepsInv(Apply(st, steps[0]), steps[1..]);
    }
  }
}
