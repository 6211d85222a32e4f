/** The agent loop as the program runs it: an object holding the conversation and
    `last_output`, updated in place one step at a time, and the bounded loop over
    the steps. Each method is proved to compute what module LoopSpec specifies. */
module AgentLoop {
  import opened PyText
  import opened Protocol
  import opened LoopSpec
  import LoopProperties

  class Agent {
    const env: Env
    const cfg: Config
    /** The conversation, only ever appended to. */
    var messages: seq<Message>
    /** The output of the last approved command, searched for the success substring. */
    var lastOutput: string
    /** The replies the model backend has still to give. */
    var replies: seq<string>
    /** The answers still to be typed at the approval prompt. */
    var answers: seq<string>
    /** The session log under `.agent/`. */
    var log: seq<LogEntry>
    /** The commands run and the files written. */
    var effects: seq<Effect>

    /** The object's state as a LoopSpec value. */
    function Snapshot(): State
      reads this
    {
      State(messages, lastOutput, replies, answers, log, effects)
    }

    /** The conversation starts with the system instruction and the goal; nothing has
        been output, logged or done yet. */
    constructor (env: Env, cfg: Config, replies: seq<string>, answers: seq<string>)
      ensures this.env == env && this.cfg == cfg
      ensures Snapshot() == Initial(cfg, replies, answers)
    {
      this.env := env;
      this.cfg := cfg;
      messages := [Message(System, SystemPrompt), Message(User, cfg.goal)];
      lastOutput := "";
      this.replies := replies;
      this.answers := answers;
      log := [];
      effects := [];
    }

    /** `messages.append({"role": "user", "content": text})`. */
    method Say(text: string)
      modifies this
      ensures Snapshot() == Feedback(old(Snapshot()), text)
    {
      messages := messages + [Message(User, text)];
    }

    /** Consumes one console answer and reports whether it approves. */
    method Ask() returns (approved: bool)
      requires |answers| > 0
      modifies this
      ensures approved == Approves(old(answers)[0])
      ensures Snapshot() == old(Snapshot()).(answers := old(answers)[1..])
    {
      approved := Approves(answers[0]);
      answers := answers[1..];
    }

    /** One iteration of the loop body; `stop` is None when the loop goes on. */
    method Step(step: int) returns (stop: Option<Outcome>)
      modifies this
      ensures LoopSpec.Step(env, cfg, old(Snapshot()), step)
        == if stop.None? then Next(Snapshot()) else Stop(Snapshot(), stop.value)
    {
      if Contains(lastOutput, cfg.success) {
        return Some(Exit(0));
      }
      if |replies| == 0 {
        return Some(Crash(BackendFailure));
      }
      var reply := replies[0];
      replies := replies[1..];
      log := log + [LogEntry(step, AssistantText, reply)];

      var decoded := env.decode(BraceSpan(reply));
      if decoded.None? {
        Say(NotJson);
        return None;
      }
      var plan := decoded.value;
      var action := ActionOf(plan);

      if action.Done? {
        return Some(Exit(0));
      }

      if action.Read? {
        stop := ReadFile(GetOr(plan, "path", ""), step);
      } else if action.Write? {
        stop := WriteFile(GetOr(plan, "path", ""), GetOr(plan, "content", ""), step);
      } else if action.Run? {
        stop := RunCommand(GetOr(plan, "command", ""), step);
      } else {
        Say(UnknownActionFeedback(action.name));
        stop := None;
      }
    }

    /** The `read` branch: the file's text, or the error, goes back to the model. */
    method ReadFile(path: string, step: int) returns (stop: Option<Outcome>)
      modifies this
      ensures ReadStep(env, old(Snapshot()), path, step)
        == if stop.None? then Next(Snapshot()) else Stop(Snapshot(), stop.value)
    {
      if path == "" {
        Say(MissingReadPath);
        return None;
      }
      var content;
      match env.readFile(step, path) {
        case FileText(text) => content := text;
        case ReadFailed(error) => content := ReadErrorText(path, error);
      }
      Say(ReadFeedback(path, content));
      return None;
    }

    /** The `write` branch: asks at the console, then writes the file. */
    method WriteFile(path: string, content: string, step: int) returns (stop: Option<Outcome>)
      modifies this
      ensures WriteStep(env, old(Snapshot()), path, content, step)
        == if stop.None? then Next(Snapshot()) else Stop(Snapshot(), stop.value)
    {
      if path == "" {
        Say(MissingWritePath);
        return None;
      }
      if |answers| == 0 {
        return Some(Crash(ConsoleClosed));
      }
      var approved := Ask();
      if !approved {
        Say(WriteDenied);
        return None;
      }
      if !env.writeFile(step, path, content) {
        return Some(Crash(WriteFailed));
      }
      effects := effects + [Wrote(path, content)];
      Say(WroteFeedback(path, content));
      return None;
    }

    /** The `run` branch: asks at the console, then runs the command and keeps what it
        printed as `last_output`. */
    method RunCommand(command: string, step: int) returns (stop: Option<Outcome>)
      modifies this
      ensures RunStep(env, old(Snapshot()), command, step)
        == if stop.None? then Next(Snapshot()) else Stop(Snapshot(), stop.value)
    {
      if command == "" {
        Say(MissingCommand);
        return None;
      }
      if |answers| == 0 {
        return Some(Crash(ConsoleClosed));
      }
      var approved := Ask();
      if !approved {
        Say(CommandDenied);
        return None;
      }
      effects := effects + [Ran(command)];
      var result := env.runCommand(step, command);
      lastOutput := result.stdout + result.stderr;
      log := log + [LogEntry(step, CommandText, command), LogEntry(step, OutputText, lastOutput)];
      Say(CommandFeedback(command, lastOutput));
      return None;
    }

    /** `for step in range(1, max_steps + 1)`, then exit code 2. */
    method Run() returns (outcome: Outcome)
      modifies this
      ensures Final(Snapshot(), outcome) == RunFrom(env, cfg, old(Snapshot()), 1)
    {
      var step := 1;
      while step <= cfg.maxSteps
        invariant 1 <= step && (step <= cfg.maxSteps + 1 || step == 1)
        invariant RunFrom(env, cfg, Snapshot(), step) == RunFrom(env, cfg, old(Snapshot()), 1)
        decreases cfg.maxSteps + 1 - step
      {
        var stop := Step(step);
        if stop.Some? {
          return stop.value;
        }
        step := step + 1;
      }
      outcome := Exit(2);
    }
  }

  /** `main()` once its arguments are parsed: it returns 0 or 2 unless an exception
      escapes, and asks the model backend for at most `max_steps` replies. */
  method AgentMain(env: Env, cfg: Config, replies: seq<string>, answers: seq<string>)
    returns (outcome: Outcome, calls: nat)
    ensures RunAgent(env, cfg, replies, answers).outcome == outcome
    ensures calls <= |replies| && RunAgent(env, cfg, replies, answers).state.replies == replies[calls..]
    ensures outcome.Exit? ==> outcome.code == 0 || outcome.code == 2
    ensures calls <= if cfg.maxSteps < 0 then 0 else cfg.maxSteps
  {
    var agent := new Agent(env, cfg, replies, answers);
    outcome := agent.Run();
    ghost var init := Initial(cfg, replies, answers);
    LoopProperties.RunExtends(env, cfg, init, 1);
    LoopProperties.RunCallBudget(env, cfg, init, 1);
    LoopProperties.RunExitCodes(env, cfg, init, 1);
    calls := |replies| - |agent.replies|;
  }
}
