/** The agent loop as a function of its oracles: what one step does to the loop's
    state, and where a whole run ends. The imperative loop in module AgentLoop is
    proved to compute exactly this. */
module LoopSpec {
  import opened PyText
  import opened Protocol

  /** The command-line arguments: `--goal`, `--success` and `--max-steps`. */
  datatype Config = Config(goal: string, success: string, maxSteps: int)

  /** The parts of the world the loop consults without consuming a script: the JSON
      decoder, and the shell, file reads and file writes. A step runs at most one
      command, reads or writes at most one file, so these are indexed by the step
      number and their argument. `writeFile` answers whether the write succeeded. */
  datatype Env = Env(
    decode: string -> Option<Plan>,
    runCommand: (int, string) -> CmdResult,
    readFile: (int, string) -> ReadResult,
    writeFile: (int, string, string) -> bool)

  /** The loop's state: the conversation and `last_output`, the replies the model
      backend has still to give and the answers still to be typed at the console,
      the session log, and the side effects performed so far. */
  datatype State = State(
    messages: seq<Message>,
    lastOutput: string,
    replies: seq<string>,
    answers: seq<string>,
    log: seq<LogEntry>,
    effects: seq<Effect>)

  /** The result of one step: carry on with the next step, or end the run. */
  datatype StepResult = Next(state: State) | Stop(state: State, outcome: Outcome)

  /** Where a run ends. */
  datatype Final = Final(state: State, outcome: Outcome)

  /** The state before the first step: the system instruction, then the goal. */
  function Initial(cfg: Config, replies: seq<string>, answers: seq<string>): State
  {
    State([Message(System, SystemPrompt), Message(User, cfg.goal)], "", replies, answers, [], [])
  }

  /** Appends one user message to the conversation. */
  function Feedback(st: State, text: string): State
  {
    st.(messages := st.messages + [Message(User, text)])
  }

  /** One iteration of the loop, `step` being its 1-based number. */
  function Step(env: Env, cfg: Config, st: State, step: int): StepResult
  {
    if Contains(st.lastOutput, cfg.success) then Stop(st, Exit(0))
    else if |st.replies| == 0 then Stop(st, Crash(BackendFailure))
    else
      var reply := st.replies[0];
      var st1 := st.(replies := st.replies[1..], log := st.log + [LogEntry(step, AssistantText, reply)]);
      match env.decode(BraceSpan(reply))
      case None => Next(Feedback(st1, NotJson))
      case Some(plan) => Execute(env, st1, plan, step)
  }

  /** The dispatch on the plan's action. */
  function Execute(env: Env, st: State, plan: Plan, step: int): StepResult
  {
    match ActionOf(plan)
    case Done => Stop(st, Exit(0))
    case Read => ReadStep(env, st, GetOr(plan, "path", ""), step)
    case Write => WriteStep(env, st, GetOr(plan, "path", ""), GetOr(plan, "content", ""), step)
    case Run => RunStep(env, st, GetOr(plan, "command", ""), step)
    case Unknown(name) => Next(Feedback(st, UnknownActionFeedback(name)))
  }

  /** `read`: the file's text, or the error in its place, under a header. */
  function ReadStep(env: Env, st: State, path: string, step: int): StepResult
  {
    if path == "" then Next(Feedback(st, MissingReadPath))
    else
      var content := match env.readFile(step, path)
        case FileText(text) => text
        case ReadFailed(error) => ReadErrorText(path, error);
      Next(Feedback(st, ReadFeedback(path, content)))
  }

  /** `write`: asks for approval, then writes the file. */
  function WriteStep(env: Env, st: State, path: string, content: string, step: int): StepResult
  {
    if path == "" then Next(Feedback(st, MissingWritePath))
    else if |st.answers| == 0 then Stop(st, Crash(ConsoleClosed))
    else
      var st1 := st.(answers := st.answers[1..]);
      if !Approves(st.answers[0]) then Next(Feedback(st1, WriteDenied))
      else if !env.writeFile(step, path, content) then Stop(st1, Crash(WriteFailed))
      else Next(Feedback(st1.(effects := st.effects + [Wrote(path, content)]), WroteFeedback(path, content)))
  }

  /** `run`: asks for approval, then runs the command and keeps its output. */
  function RunStep(env: Env, st: State, command: string, step: int): StepResult
  {
    if command == "" then Next(Feedback(st, MissingCommand))
    else if |st.answers| == 0 then Stop(st, Crash(ConsoleClosed))
    else
      var st1 := st.(answers := st.answers[1..]);
      if !Approves(st.answers[0]) then Next(Feedback(st1, CommandDenied))
      else
        var result := env.runCommand(step, command);
        var output := result.stdout + result.stderr;
        var st2 := st1.(
          lastOutput := output,
          effects := st.effects + [Ran(command)],
          log := st.log + [LogEntry(step, CommandText, command), LogEntry(step, OutputText, output)]);
        Next(Feedback(st2, CommandFeedback(command, output)))
  }

  /** One step as a function of the state and the step number. */
  function StepOf(env: Env, cfg: Config): (State, int) -> StepResult
  {
    (st: State, step: int) => Step(env, cfg, st, step)
  }

  /** `for step in range(step, last + 1)` over the loop body `next`, which either ends
      the run or hands the next state on; past the last step, exit code 2. */
  function Loop(next: (State, int) -> StepResult, last: int, st: State, step: int): Final
    decreases last + 1 - step
  {
    if step > last then Final(st, Exit(2))
    else
      match next(st, step)
      case Stop(st', outcome) => Final(st', outcome)
      case Next(st') => Loop(next, last, st', step + 1)
  }

  /** The steps `step`, `step + 1`, ..., `cfg.maxSteps` of the agent loop. */
  function RunFrom(env: Env, cfg: Config, st: State, step: int): Final
  {
    Loop(StepOf(env, cfg), cfg.maxSteps, st, step)
  }

  /** A whole run, `main()` after its arguments are parsed. */
  function RunAgent(env: Env, cfg: Config, replies: seq<string>, answers: seq<string>): Final
  {
    RunFrom(env, cfg, Initial(cfg, replies, answers), 1)
  }
}
