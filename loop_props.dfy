/** What the agent loop guarantees, proved of the specification in module LoopSpec:
    the step budget and the exit codes, when the success substring is honoured, the
    append-only conversation and log, and that nothing happens in the world without
    an approving answer. */
module LoopProperties {
  import opened PyText
  import opened Protocol
  import opened LoopSpec

  /** How many steps remain from `step` on: the most model calls left. */
  function Budget(cfg: Config, step: int): nat
  {
    if step > cfg.maxSteps then 0 else cfg.maxSteps + 1 - step
  }

  /** The replies the model backend gave between two states. */
  function Calls(before: State, after: State): int
  {
    |before.replies| - |after.replies|
  }

  ghost predicate IsPrefix<T>(p: seq<T>, s: seq<T>)
  {
    |p| <= |s| && s[..|p|] == p
  }

  ghost predicate IsSuffix<T>(p: seq<T>, s: seq<T>)
  {
    |p| <= |s| && s[|s| - |p|..] == p
  }

  lemma PrefixTransitive<T>(a: seq<T>, b: seq<T>, c: seq<T>)
    requires IsPrefix(a, b) && IsPrefix(b, c)
    ensures IsPrefix(a, c)
  {
    assert c[..|a|] == c[..|b|][..|a|];
  }

  lemma SuffixTransitive<T>(a: seq<T>, b: seq<T>, c: seq<T>)
    requires IsSuffix(a, b) && IsSuffix(b, c)
    ensures IsSuffix(a, c)
  {
    assert c[|c| - |a|..] == c[|c| - |b|..][|b| - |a|..];
  }

  /** `after` consumed a prefix of the replies and of the answers of `before`, and only
      appended to its conversation, its log and its effects. */
  ghost predicate Extends(before: State, after: State)
  {
    && IsSuffix(after.replies, before.replies)
    && IsSuffix(after.answers, before.answers)
    && IsPrefix(before.messages, after.messages)
    && IsPrefix(before.log, after.log)
    && IsPrefix(before.effects, after.effects)
  }

  /** Every message of `messages` from index `n` on is a user message. */
  ghost predicate UserFrom(messages: seq<Message>, n: int)
  {
    forall k :: 0 <= n <= k < |messages| ==> messages[k].role == User
  }

  lemma UserFromPrefix(a: seq<Message>, b: seq<Message>, n: int)
    requires IsPrefix(a, b) && 0 <= n <= |a|
    requires UserFrom(a, n) && UserFrom(b, |a|)
    ensures UserFrom(b, n)
  {
    forall k | n <= k < |a|
      ensures b[k].role == User
    {
      assert b[k] == b[..|a|][k];
    }
  }

  // ---------------------------------------------------------------------------
  // One step

  /** The counts of one step: at most one model call, made
      whenever the loop goes on; one message appended when it goes on and none when it
      stops; no exit code but 0 from a step. */
  ghost predicate CountFacts(st: State, r: StepResult)
  {
    && 0 <= Calls(st, r.state) <= 1
    && (r.Next? ==> Calls(st, r.state) == 1 && |r.state.messages| == |st.messages| + 1)
    && (r.Stop? ==> |r.state.messages| == |st.messages| && (r.outcome.Exit? ==> r.outcome.code == 0))
  }

  /** The contents of one step: it only consumes and appends,
      and what it appends to the conversation is a user message. */
  ghost predicate ShapeFacts(st: State, r: StepResult)
  {
    && Extends(st, r.state)
    && UserFrom(r.state.messages, |st.messages|)
  }

  /** A loop body each of whose steps has the count facts. */
  ghost predicate Counted(next: (State, int) -> StepResult)
  {
    forall st: State, step: int :: CountFacts(st, next(st, step))
  }

  /** A loop body each of whose steps has the content facts. */
  ghost predicate Shaped(next: (State, int) -> StepResult)
  {
    forall st: State, step: int :: ShapeFacts(st, next(st, step))
  }

  /** One step takes one reply unless the success substring is already present or the
      backend has no reply, and has the count and content facts above. */
  lemma StepShape(env: Env, cfg: Config, st: State, step: int)
    ensures var r := Step(env, cfg, st, step);
      && CountFacts(st, r) && ShapeFacts(st, r)
      && (Contains(st.lastOutput, cfg.success) ==> r == Stop(st, Exit(0)))
      && (!Contains(st.lastOutput, cfg.success) && |st.replies| == 0 ==> r == Stop(st, Crash(BackendFailure)))
      && (!Contains(st.lastOutput, cfg.success) && |st.replies| > 0 ==> Calls(st, r.state) == 1)
  {
    if !Contains(st.lastOutput, cfg.success) && |st.replies| > 0 {
      var reply := st.replies[0];
      var st1 := st.(replies := st.replies[1..], log := st.log + [LogEntry(step, AssistantText, reply)]);
      var r := Step(env, cfg, st, step);
      match env.decode(BraceSpan(reply))
      case None =>
        FeedbackExtends(st1, NotJson);
        assert r == Next(Feedback(st1, NotJson));
      case Some(plan) =>
        ExecuteShape(env, st1, plan, step);
        assert r == Execute(env, st1, plan, step);
      TakeReplyShape(st, st1, r);
    } else {
      ExtendsReflexive(st);
    }
  }

  /** Taking the first reply and then dispatching gives a step with the count and
      content facts, and one model call. */
  lemma TakeReplyShape(st: State, st1: State, r: StepResult)
    requires |st.replies| > 0 && st1.replies == st.replies[1..]
    requires st1.answers == st.answers && st1.messages == st.messages
    requires IsPrefix(st.log, st1.log) && st1.effects == st.effects
    requires DispatchShape(st1, r)
    ensures CountFacts(st, r) && ShapeFacts(st, r) && Calls(st, r.state) == 1
  {
    assert Extends(st, st1) by {
      assert st.replies[1..] == st.replies[|st.replies| - |st1.replies|..];
      assert st.answers == st.answers[|st.answers| - |st1.answers|..];
      assert st.messages == st.messages[..|st.messages|];
      assert st.effects == st.effects[..|st.effects|];
    }
    ExtendsTransitive(st, st1, r.state);
  }

  lemma FeedbackExtends(st: State, text: string)
    ensures Extends(st, Feedback(st, text))
  {
    assert st.replies == st.replies[0..];
    assert st.answers == st.answers[0..];
  }

  lemma ExtendsReflexive(st: State)
    ensures Extends(st, st)
  {
    assert st.replies == st.replies[0..];
    assert st.answers == st.answers[0..];
  }

  /** What every branch of the dispatch keeps: the replies, and the conversation up to
      at most one appended user message, appended exactly when the loop goes on. */
  ghost predicate DispatchShape(st: State, r: StepResult)
  {
    && Extends(st, r.state)
    && r.state.replies == st.replies
    && (r.Next? ==> |r.state.messages| == |st.messages| + 1 && r.state.messages[|st.messages|].role == User)
    && (r.Stop? ==> r.state.messages == st.messages)
    && (r.Stop? && r.outcome.Exit? ==> r.outcome.code == 0)
  }

  /** Consuming one answer, then adding effects or log entries, then one message. */
  lemma AnsweredExtends(st: State, st2: State, text: string)
    requires |st.answers| > 0
    requires st2.replies == st.replies && st2.answers == st.answers[1..] && st2.messages == st.messages
    requires |st.log| <= |st2.log| && st2.log[..|st.log|] == st.log
    requires |st.effects| <= |st2.effects| && st2.effects[..|st.effects|] == st.effects
    ensures Extends(st, st2) && DispatchShape(st, Next(Feedback(st2, text)))
  {
    assert st.replies == st.replies[0..];
    assert st2.answers == st.answers[|st.answers| - |st2.answers|..];
  }

  lemma ExecuteShape(env: Env, st: State, plan: Plan, step: int)
    ensures DispatchShape(st, Execute(env, st, plan, step))
  {
    match ActionOf(plan)
    case Done =>
      ExtendsReflexive(st);
    case Read =>
      ReadShape(env, st, GetOr(plan, "path", ""), step);
    case Unknown(name) =>
      FeedbackExtends(st, UnknownActionFeedback(name));
    case Write =>
      WriteShape(env, st, GetOr(plan, "path", ""), GetOr(plan, "content", ""), step);
    case Run =>
      RunShape(env, st, GetOr(plan, "command", ""), step);
  }

  lemma ReadShape(env: Env, st: State, path: string, step: int)
    ensures DispatchShape(st, ReadStep(env, st, path, step))
  {
    if path == "" {
      FeedbackExtends(st, MissingReadPath);
    } else {
      var content := match env.readFile(step, path)
        case FileText(text) => text
        case ReadFailed(error) => ReadErrorText(path, error);
      FeedbackExtends(st, ReadFeedback(path, content));
    }
  }

  lemma WriteShape(env: Env, st: State, path: string, content: string, step: int)
    ensures DispatchShape(st, WriteStep(env, st, path, content, step))
  {
    if path == "" {
      FeedbackExtends(st, MissingWritePath);
    } else if |st.answers| == 0 {
      ExtendsReflexive(st);
    } else if !Approves(st.answers[0]) {
      AnsweredExtends(st, st.(answers := st.answers[1..]), WriteDenied);
    } else if !env.writeFile(step, path, content) {
      WriteFailedShape(env, st, path, content, step);
    } else {
      WroteShape(env, st, path, content, step);
    }
  }

  lemma WriteFailedShape(env: Env, st: State, path: string, content: string, step: int)
    requires path != "" && |st.answers| > 0 && Approves(st.answers[0]) && !env.writeFile(step, path, content)
    ensures DispatchShape(st, WriteStep(env, st, path, content, step))
  {
    var st1 := st.(answers := st.answers[1..]);
    assert WriteStep(env, st, path, content, step) == Stop(st1, Crash(WriteFailed));
    AnsweredExtends(st, st1, "");
  }

  lemma WroteShape(env: Env, st: State, path: string, content: string, step: int)
    requires path != "" && |st.answers| > 0 && Approves(st.answers[0]) && env.writeFile(step, path, content)
    ensures DispatchShape(st, WriteStep(env, st, path, content, step))
  {
    var st2 := st.(answers := st.answers[1..], effects := st.effects + [Wrote(path, content)]);
    AnsweredExtends(st, st2, WroteFeedback(path, content));
  }

  lemma RunShape(env: Env, st: State, command: string, step: int)
    ensures DispatchShape(st, RunStep(env, st, command, step))
  {
    if command == "" {
      FeedbackExtends(st, MissingCommand);
    } else if |st.answers| == 0 {
      ExtendsReflexive(st);
    } else {
      var st1 := st.(answers := st.answers[1..]);
      if !Approves(st.answers[0]) {
        AnsweredExtends(st, st1, CommandDenied);
      } else {
        var result := env.runCommand(step, command);
        var output := result.stdout + result.stderr;
        AnsweredExtends(st, st1.(
            lastOutput := output,
            effects := st.effects + [Ran(command)],
            log := st.log + [LogEntry(step, CommandText, command), LogEntry(step, OutputText, output)]),
          CommandFeedback(command, output));
      }
    }
  }

  /** The step goes as far as the dispatch on `plan`: the success substring is absent,
      the backend replied, and the reply's brace span decoded to `plan`. */
  predicate Dispatches(env: Env, cfg: Config, st: State, plan: Plan)
  {
    && !Contains(st.lastOutput, cfg.success)
    && |st.replies| > 0
    && env.decode(BraceSpan(st.replies[0])) == Some(plan)
  }

  /** The step appended `text` as a user message and changed nothing else of the
      world: no answer consumed, no effect, the same `last_output`. */
  ghost predicate QuietFeedback(st: State, r: StepResult, text: string)
  {
    && r.Next?
    && r.state.messages == st.messages + [Message(User, text)]
    && r.state.answers == st.answers
    && r.state.effects == st.effects
    && r.state.lastOutput == st.lastOutput
  }

  /** The step consumed one console answer, appended `text`, and changed nothing else. */
  ghost predicate DeniedFeedback(st: State, r: StepResult, text: string)
  {
    && |st.answers| > 0
    && r.Next?
    && r.state.messages == st.messages + [Message(User, text)]
    && r.state.answers == st.answers[1..]
    && r.state.effects == st.effects
    && r.state.lastOutput == st.lastOutput
  }

  /** A reply whose brace span does not decode: nothing is executed, the fixed request
      for valid JSON is appended and the loop goes on. */
  lemma ParseFailureRecovers(env: Env, cfg: Config, st: State, step: int)
    requires !Contains(st.lastOutput, cfg.success) && |st.replies| > 0
    requires env.decode(BraceSpan(st.replies[0])) == None
    ensures QuietFeedback(st, Step(env, cfg, st, step), NotJson)
  {
  }

  /** A reply with no '{' before a later '}' (in particular one without '{' or without
      '}') never decodes, for any decoder that only yields objects for texts shaped
      like one. */
  lemma NoBracePairNoPlan(decode: string -> Option<Plan>, reply: string)
    requires ObjectsOnly(decode)
    requires !HasBracePair(reply)
    ensures decode(BraceSpan(reply)) == None
  {
    BraceSpanWithoutPair(reply);
  }

  /** `done` ends the run with 0 at once and appends nothing. */
  lemma DoneEndsRun(env: Env, cfg: Config, st: State, step: int, plan: Plan)
    requires Dispatches(env, cfg, st, plan) && ActionOf(plan) == Done
    ensures var r := Step(env, cfg, st, step);
      r.Stop? && r.outcome == Exit(0) && r.state.messages == st.messages
      && r.state.effects == st.effects && r.state.lastOutput == st.lastOutput
  {
  }

  /** An unknown or missing action gets the fixed "Unknown action" message naming it,
      and has no other effect. */
  lemma UnknownActionRefused(env: Env, cfg: Config, st: State, step: int, plan: Plan)
    requires Dispatches(env, cfg, st, plan) && ActionOf(plan).Unknown?
    ensures QuietFeedback(st, Step(env, cfg, st, step),
      UnknownActionFeedback(GetOr(plan, "action", "None")))
  {
  }

  /** An empty or absent `path` (read, write) or `command` (run) gets the fixed "Missing"
      message: no approval is asked, nothing is read, written or run, whatever the
      other members hold. */
  lemma MissingFieldRefused(env: Env, cfg: Config, st: State, step: int, plan: Plan)
    requires Dispatches(env, cfg, st, plan)
    ensures ActionOf(plan) == Read && GetOr(plan, "path", "") == "" ==>
      QuietFeedback(st, Step(env, cfg, st, step), MissingReadPath)
    ensures ActionOf(plan) == Write && GetOr(plan, "path", "") == "" ==>
      QuietFeedback(st, Step(env, cfg, st, step), MissingWritePath)
    ensures ActionOf(plan) == Run && GetOr(plan, "command", "") == "" ==>
      QuietFeedback(st, Step(env, cfg, st, step), MissingCommand)
  {
  }

  /** A read reports the file's text, or the error in its place, under a header naming
      the path; it asks for no approval and changes nothing. */
  lemma ReadReported(env: Env, cfg: Config, st: State, step: int, plan: Plan)
    requires Dispatches(env, cfg, st, plan) && ActionOf(plan) == Read
    requires GetOr(plan, "path", "") != ""
    ensures var path := GetOr(plan, "path", "");
      QuietFeedback(st, Step(env, cfg, st, step), ReadFeedback(path,
        match env.readFile(step, path)
        case FileText(text) => text
        case ReadFailed(error) => ReadErrorText(path, error)))
  {
  }

  /** A write or run that the answer does not approve performs nothing and gets the
      fixed denial message for its kind. */
  lemma DenialHasNoEffect(env: Env, cfg: Config, st: State, step: int, plan: Plan)
    requires Dispatches(env, cfg, st, plan)
    requires |st.answers| > 0 && !Approves(st.answers[0])
    ensures ActionOf(plan) == Write && GetOr(plan, "path", "") != "" ==>
      DeniedFeedback(st, Step(env, cfg, st, step), WriteDenied)
    ensures ActionOf(plan) == Run && GetOr(plan, "command", "") != "" ==>
      DeniedFeedback(st, Step(env, cfg, st, step), CommandDenied)
  {
  }

  /** An approved command runs; `last_output` becomes its stdout followed by its stderr,
      the command and that output are logged under the step, and the feedback shows both. */
  lemma ApprovedRunObserved(env: Env, cfg: Config, st: State, step: int, plan: Plan)
    requires Dispatches(env, cfg, st, plan) && ActionOf(plan) == Run
    requires GetOr(plan, "command", "") != "" && |st.answers| > 0 && Approves(st.answers[0])
    ensures var command, r := GetOr(plan, "command", ""), Step(env, cfg, st, step);
      var output := env.runCommand(step, command).stdout + env.runCommand(step, command).stderr;
      && r.Next?
      && r.state.lastOutput == output
      && r.state.effects == st.effects + [Ran(command)]
      && r.state.answers == st.answers[1..]
      && r.state.log[|st.log| + 1..] == [LogEntry(step, CommandText, command), LogEntry(step, OutputText, output)]
      && r.state.messages == st.messages + [Message(User, CommandFeedback(command, output))]
  {
  }

  /** An approved write writes the content and reports its length; if writing raises,
      the exception ends the run. */
  lemma ApprovedWritePerformed(env: Env, cfg: Config, st: State, step: int, plan: Plan)
    requires Dispatches(env, cfg, st, plan) && ActionOf(plan) == Write
    requires GetOr(plan, "path", "") != "" && |st.answers| > 0 && Approves(st.answers[0])
    ensures var path, content, r := GetOr(plan, "path", ""), GetOr(plan, "content", ""), Step(env, cfg, st, step);
      && r.state.lastOutput == st.lastOutput
      && r.state.answers == st.answers[1..]
      && (env.writeFile(step, path, content) ==>
            r.Next? && r.state.effects == st.effects + [Wrote(path, content)]
            && r.state.messages == st.messages + [Message(User, WroteFeedback(path, content))])
      && (!env.writeFile(step, path, content) ==>
            r == Stop(r.state, Crash(WriteFailed)) && r.state.effects == st.effects)
  {
  }

  /** The approval gate: anything performed in the world consumed exactly one answer,
      that answer approves, and only one thing was performed. */
  ghost predicate Gated(st: State, r: StepResult)
  {
    r.state.effects != st.effects ==>
      && |st.answers| > 0 && Approves(st.answers[0]) && r.state.answers == st.answers[1..]
      && |r.state.effects| == |st.effects| + 1 && r.state.effects[..|st.effects|] == st.effects
  }

  /** `last_output` changes only when a command ran, and then it is that command's
      stdout followed by its stderr, which the appended feedback shows. */
  ghost predicate OutputFromRun(env: Env, st: State, r: StepResult, step: int)
  {
    if |r.state.effects| > |st.effects| && r.state.effects[|st.effects|].Ran? then
      var command := r.state.effects[|st.effects|].command;
      && r.state.lastOutput == env.runCommand(step, command).stdout + env.runCommand(step, command).stderr
      && r.state.messages == st.messages + [Message(User, CommandFeedback(command, r.state.lastOutput))]
    else
      r.state.lastOutput == st.lastOutput
  }

  lemma ReadEffects(env: Env, st: State, path: string, step: int)
    ensures var r := ReadStep(env, st, path, step);
      Gated(st, r) && OutputFromRun(env, st, r, step) && r.state.log == st.log
  {
  }

  lemma WriteEffects(env: Env, st: State, path: string, content: string, step: int)
    ensures var r := WriteStep(env, st, path, content, step);
      Gated(st, r) && OutputFromRun(env, st, r, step) && r.state.log == st.log
  {
  }

  lemma RunEffects(env: Env, st: State, command: string, step: int)
    ensures var r := RunStep(env, st, command, step);
      && Gated(st, r) && OutputFromRun(env, st, r, step)
      && (r.state.log == st.log || r.state.log == st.log + [
            LogEntry(step, CommandText, command), LogEntry(step, OutputText, r.state.lastOutput)])
  {
  }

  /** The dispatch performs nothing without approval, changes `last_output` only by
      running a command, and logs only that command and its output. */
  lemma ExecuteEffects(env: Env, st: State, plan: Plan, step: int)
    ensures var r := Execute(env, st, plan, step);
      && Gated(st, r) && OutputFromRun(env, st, r, step)
      && (r.state.log == st.log || exists command :: r.state.log == st.log + [
            LogEntry(step, CommandText, command), LogEntry(step, OutputText, r.state.lastOutput)])
  {
    match ActionOf(plan)
    case Done =>
    case Unknown(_) =>
    case Read => ReadEffects(env, st, GetOr(plan, "path", ""), step);
    case Write => WriteEffects(env, st, GetOr(plan, "path", ""), GetOr(plan, "content", ""), step);
    case Run => RunEffects(env, st, GetOr(plan, "command", ""), step);
  }

  /** The approval gate, for a whole step: a step that performs anything consumed exactly
      one answer, and that answer approves; it performs at most one thing. */
  lemma EffectNeedsApproval(env: Env, cfg: Config, st: State, step: int)
    ensures Gated(st, Step(env, cfg, st, step))
  {
    StepEffects(env, cfg, st, step);
  }

  /** `last_output` changes only when an approved command runs, and then it is that
      command's stdout followed by its stderr, which the feedback message shows. */
  lemma LastOutputOnlyFromRun(env: Env, cfg: Config, st: State, step: int)
    ensures OutputFromRun(env, st, Step(env, cfg, st, step), step)
  {
    StepEffects(env, cfg, st, step);
  }

  lemma StepEffects(env: Env, cfg: Config, st: State, step: int)
    ensures var r := Step(env, cfg, st, step);
      && Gated(st, r) && OutputFromRun(env, st, r, step)
      && (r.state.log == st.log
          || (|st.replies| > 0 && r.state.log == st.log + [LogEntry(step, AssistantText, st.replies[0])])
          || (|st.replies| > 0 && exists command :: r.state.log == st.log + [
                LogEntry(step, AssistantText, st.replies[0]),
                LogEntry(step, CommandText, command), LogEntry(step, OutputText, r.state.lastOutput)]))
  {
    if !Contains(st.lastOutput, cfg.success) && |st.replies| > 0 {
      var reply := st.replies[0];
      var st1 := st.(replies := st.replies[1..], log := st.log + [LogEntry(step, AssistantText, reply)]);
      match env.decode(BraceSpan(reply))
      case None =>
      case Some(plan) =>
        ExecuteEffects(env, st1, plan, step);
        var r := Execute(env, st1, plan, step);
        if r.state.log != st1.log {
          var command :| r.state.log == st1.log + [
            LogEntry(step, CommandText, command), LogEntry(step, OutputText, r.state.lastOutput)];
          assert r.state.log == st.log + [LogEntry(step, AssistantText, reply),
            LogEntry(step, CommandText, command), LogEntry(step, OutputText, r.state.lastOutput)];
        }
    }
  }

  // ---------------------------------------------------------------------------
  // A whole run

  /** The agent's loop body has both. */
  lemma StepOfHasFacts(env: Env, cfg: Config)
    ensures Counted(StepOf(env, cfg)) && Shaped(StepOf(env, cfg))
  {
    var next := StepOf(env, cfg);
    forall st: State, step: int
      ensures CountFacts(st, next(st, step)) && ShapeFacts(st, next(st, step))
    {
      assert next(st, step) == Step(env, cfg, st, step);
      StepShape(env, cfg, st, step);
    }
  }

  /** For any loop body with the content facts, a loop only consumes and appends. */
  lemma {:induction false} LoopExtends(next: (State, int) -> StepResult, last: int, st: State, step: int)
    requires Shaped(next)
    decreases last + 1 - step
    ensures Extends(st, Loop(next, last, st, step).state)
  {
    if step <= last {
      var r := next(st, step);
      assert ShapeFacts(st, r);
      if r.Next? {
        LoopExtends(next, last, r.state, step + 1);
        ExtendsTransitive(st, r.state, Loop(next, last, r.state, step + 1).state);
      }
    } else {
      ExtendsReflexive(st);
    }
  }

  /** For any loop body with the content facts, a loop appends only user messages. */
  lemma {:induction false} LoopUserOnly(next: (State, int) -> StepResult, last: int, st: State, step: int)
    requires Shaped(next)
    decreases last + 1 - step
    ensures UserFrom(Loop(next, last, st, step).state.messages, |st.messages|)
  {
    if step <= last {
      var r := next(st, step);
      assert ShapeFacts(st, r);
      if r.Next? {
        LoopUserOnly(next, last, r.state, step + 1);
        LoopExtends(next, last, r.state, step + 1);
        UserFromPrefix(r.state.messages, Loop(next, last, r.state, step + 1).state.messages, |st.messages|);
      }
    }
  }

  /** For any loop body with the count facts, a loop takes at most one reply per
      remaining step, and one in every remaining step when it returns 2. */
  lemma {:induction false} LoopCallBudget(next: (State, int) -> StepResult, last: int, st: State, step: int)
    requires Counted(next)
    decreases last + 1 - step
    ensures var f := Loop(next, last, st, step);
      var budget := if step > last then 0 else last + 1 - step;
      && 0 <= Calls(st, f.state) <= budget
      && (f.outcome == Exit(2) ==> Calls(st, f.state) == budget)
  {
    if step <= last {
      var r := next(st, step);
      assert CountFacts(st, r);
      if r.Next? {
        LoopCallBudget(next, last, r.state, step + 1);
      }
    }
  }

  /** For any loop body with the count facts, a loop returns no exit code but 0 and 2. */
  lemma {:induction false} LoopExitCodes(next: (State, int) -> StepResult, last: int, st: State, step: int)
    requires Counted(next)
    decreases last + 1 - step
    ensures var f := Loop(next, last, st, step);
      f.outcome.Exit? ==> f.outcome.code == 0 || f.outcome.code == 2
  {
    if step <= last {
      var r := next(st, step);
      assert CountFacts(st, r);
      if r.Next? {
        LoopExitCodes(next, last, r.state, step + 1);
      }
    }
  }

  /** For any loop body with the count facts, each reply taken but the last appends one
      message, and every reply taken does when the loop returns 2. */
  lemma {:induction false} LoopMessageCount(next: (State, int) -> StepResult, last: int, st: State, step: int)
    requires Counted(next)
    decreases last + 1 - step
    ensures var f := Loop(next, last, st, step);
      var appended := |f.state.messages| - |st.messages|;
      && 0 <= appended <= Calls(st, f.state) <= appended + 1
      && (f.outcome == Exit(2) ==> appended == Calls(st, f.state))
  {
    if step <= last {
      var r := next(st, step);
      assert CountFacts(st, r);
      if r.Next? {
        LoopMessageCount(next, last, r.state, step + 1);
      }
    }
  }

  /** A run from `step` only appends to the conversation, the log and the effects, and
      consumes replies and answers in order. */
  lemma RunExtends(env: Env, cfg: Config, st: State, step: int)
    ensures Extends(st, RunFrom(env, cfg, st, step).state)
  {
    StepOfHasFacts(env, cfg);
    LoopExtends(StepOf(env, cfg), cfg.maxSteps, st, step);
  }

  /** Every message a run appends is a user message: the model's replies go to the
      log, never into the conversation. */
  lemma RunAppendsUserOnly(env: Env, cfg: Config, st: State, step: int)
    ensures UserFrom(RunFrom(env, cfg, st, step).state.messages, |st.messages|)
  {
    StepOfHasFacts(env, cfg);
    LoopUserOnly(StepOf(env, cfg), cfg.maxSteps, st, step);
  }

  /** A run from `step` makes at most one model call per remaining step, and when it
      runs out of steps (exit code 2) it has made one in every remaining step. */
  lemma RunCallBudget(env: Env, cfg: Config, st: State, step: int)
    ensures var f := RunFrom(env, cfg, st, step);
      && 0 <= Calls(st, f.state) <= Budget(cfg, step)
      && (f.outcome == Exit(2) ==> Calls(st, f.state) == Budget(cfg, step))
  {
    StepOfHasFacts(env, cfg);
    LoopCallBudget(StepOf(env, cfg), cfg.maxSteps, st, step);
  }

  /** The only exit codes a run returns are 0 and 2. */
  lemma RunExitCodes(env: Env, cfg: Config, st: State, step: int)
    ensures var f := RunFrom(env, cfg, st, step);
      f.outcome.Exit? ==> f.outcome.code == 0 || f.outcome.code == 2
  {
    StepOfHasFacts(env, cfg);
    LoopExitCodes(StepOf(env, cfg), cfg.maxSteps, st, step);
  }

  /** Each model call but the last of a run appends exactly one message, and when the
      run returns 2 every model call has appended one. */
  lemma RunMessageCount(env: Env, cfg: Config, st: State, step: int)
    ensures var f := RunFrom(env, cfg, st, step);
      var appended := |f.state.messages| - |st.messages|;
      && 0 <= appended <= Calls(st, f.state) <= appended + 1
      && (f.outcome == Exit(2) ==> appended == Calls(st, f.state))
  {
    StepOfHasFacts(env, cfg);
    LoopMessageCount(StepOf(env, cfg), cfg.maxSteps, st, step);
  }

  lemma ExtendsTransitive(a: State, b: State, c: State)
    requires Extends(a, b) && Extends(b, c)
    ensures Extends(a, c)
  {
    SuffixTransitive(c.replies, b.replies, a.replies);
    SuffixTransitive(c.answers, b.answers, a.answers);
    PrefixTransitive(a.messages, b.messages, c.messages);
    PrefixTransitive(a.log, b.log, c.log);
    PrefixTransitive(a.effects, b.effects, c.effects);
  }

  /** The success substring is tested before the model is asked: when it is already in
      `last_output` at a step within the budget, the run returns 0 without a model call
      and without changing anything. */
  lemma SuccessBeforeCall(env: Env, cfg: Config, st: State, step: int)
    requires step <= cfg.maxSteps && Contains(st.lastOutput, cfg.success)
    ensures RunFrom(env, cfg, st, step) == Final(st, Exit(0))
  {
  }

  /** Success output produced by a step before the last is honoured at the start of the
      next step, without another model call. */
  lemma SuccessHonouredNextStep(env: Env, cfg: Config, st: State, step: int)
    requires step < cfg.maxSteps
    requires Step(env, cfg, st, step).Next?
    requires Contains(Step(env, cfg, st, step).state.lastOutput, cfg.success)
    ensures RunFrom(env, cfg, st, step) == Final(Step(env, cfg, st, step).state, Exit(0))
  {
    var next, r := StepOf(env, cfg), Step(env, cfg, st, step);
    assert next(st, step) == r;
    SuccessStops(env, cfg, r.state, step + 1);
    assert next(r.state, step + 1) == Stop(r.state, Exit(0));
    LoopTwoSteps(next, cfg.maxSteps, st, step);
  }

  /** A step that finds the success substring ends the run with 0. */
  lemma SuccessStops(env: Env, cfg: Config, st: State, step: int)
    requires Contains(st.lastOutput, cfg.success)
    ensures Step(env, cfg, st, step) == Stop(st, Exit(0))
  {
  }

  /** A step that goes on followed by a step that stops ends the loop there. */
  lemma LoopTwoSteps(next: (State, int) -> StepResult, last: int, st: State, step: int)
    requires step < last && next(st, step).Next? && next(next(st, step).state, step + 1).Stop?
    ensures var r := next(next(st, step).state, step + 1);
      Loop(next, last, st, step) == Final(r.state, r.outcome)
  {
  }

  /** Success output produced by the last step is never honoured: the run returns 2. */
  lemma SuccessOnLastStepIgnored(env: Env, cfg: Config, st: State, step: int)
    requires step == cfg.maxSteps
    requires Step(env, cfg, st, step).Next?
    ensures RunFrom(env, cfg, st, step) == Final(Step(env, cfg, st, step).state, Exit(2))
  {
    var next, r := StepOf(env, cfg), Step(env, cfg, st, step);
    assert next(st, step) == r;
    assert Loop(next, cfg.maxSteps, r.state, step + 1) == Final(r.state, Exit(2));
  }

  /** An empty success substring is in every output, so a run with at least one step
      returns 0 at once, before any model call. */
  lemma EmptySuccessSucceedsAtOnce(env: Env, cfg: Config, replies: seq<string>, answers: seq<string>)
    requires cfg.success == "" && cfg.maxSteps >= 1
    ensures RunAgent(env, cfg, replies, answers) == Final(Initial(cfg, replies, answers), Exit(0))
  {
    ContainsEmpty("");
  }

  /** With no steps allowed, the run returns 2 without a model call. */
  lemma NoStepsNoCall(env: Env, cfg: Config, replies: seq<string>, answers: seq<string>)
    requires cfg.maxSteps < 1
    ensures RunAgent(env, cfg, replies, answers) == Final(Initial(cfg, replies, answers), Exit(2))
  {
  }

  /** The system instruction and the goal stay the first two messages of a run, and the
      rest of the conversation is user feedback. */
  lemma RunKeepsHeader(env: Env, cfg: Config, replies: seq<string>, answers: seq<string>)
    ensures var f := RunAgent(env, cfg, replies, answers);
      && 2 <= |f.state.messages|
      && f.state.messages[0] == Message(System, SystemPrompt)
      && f.state.messages[1] == Message(User, cfg.goal)
      && forall k :: 2 <= k < |f.state.messages| ==> f.state.messages[k].role == User
  {
    var init := Initial(cfg, replies, answers);
    var messages := RunFrom(env, cfg, init, 1).state.messages;
    RunExtends(env, cfg, init, 1);
    RunAppendsUserOnly(env, cfg, init, 1);
    assert messages[..2] == init.messages;
    assert messages[0] == messages[..2][0];
    assert messages[1] == messages[..2][1];
  }

  // ---------------------------------------------------------------------------
  // The session log

  /** The order of the artifacts within a step. */
  function Rank(kind: LogKind): int
  {
    match kind
    case AssistantText => 0
    case CommandText => 1
    case OutputText => 2
  }

  /** `a` is written before `b`: an earlier step, or an earlier kind in the same step. */
  predicate Precedes(a: LogEntry, b: LogEntry)
  {
    a.step < b.step || (a.step == b.step && Rank(a.kind) < Rank(b.kind))
  }

  /** Every entry precedes the later ones, so no two entries share a step and kind:
      no artifact is ever written twice. */
  predicate Ordered(log: seq<LogEntry>)
  {
    forall i, j :: 0 <= i < j < |log| ==> Precedes(log[i], log[j])
  }

  predicate StepsBelow(log: seq<LogEntry>, step: int)
  {
    forall i :: 0 <= i < |log| ==> log[i].step < step
  }

  /** Every entry `after` has beyond `before` is under step `step`. */
  predicate AddedUnder(before: seq<LogEntry>, after: seq<LogEntry>, step: int)
  {
    forall k :: |before| <= k < |after| ==> after[k].step == step
  }

  /** Every entry `after` has beyond `before` is under step `step` or a later one. */
  predicate AddedFrom(before: seq<LogEntry>, after: seq<LogEntry>, step: int)
  {
    forall k :: |before| <= k < |after| ==> step <= after[k].step
  }

  /** A step appends to the log only entries for itself, in the order assistant text,
      command, output. */
  lemma StepLog(env: Env, cfg: Config, st: State, step: int)
    requires Ordered(st.log) && StepsBelow(st.log, step)
    ensures var r := Step(env, cfg, st, step);
      && IsPrefix(st.log, r.state.log) && AddedUnder(st.log, r.state.log, step)
      && Ordered(r.state.log) && StepsBelow(r.state.log, step + 1)
  {
    StepEffects(env, cfg, st, step);
    var r := Step(env, cfg, st, step);
    if |st.replies| > 0 {
      StepEntriesOrdered(st.log, r.state.log, step, st.replies[0], r.state.lastOutput);
    } else {
      assert r.state.log == st.log;
    }
  }

  /** The entries one step may append keep an ordered log ordered. */
  lemma StepEntriesOrdered(log: seq<LogEntry>, after: seq<LogEntry>, step: int, reply: string, output: string)
    requires Ordered(log) && StepsBelow(log, step)
    requires || after == log
             || after == log + [LogEntry(step, AssistantText, reply)]
             || exists command :: after == log + [LogEntry(step, AssistantText, reply),
                  LogEntry(step, CommandText, command), LogEntry(step, OutputText, output)]
    ensures IsPrefix(log, after) && AddedUnder(log, after, step)
    ensures Ordered(after) && StepsBelow(after, step + 1)
  {
    if after != log {
      var added := after[|log|..];
      assert after == log + added;
      assert Ordered(added) && forall i :: 0 <= i < |added| ==> added[i].step == step;
      OrderedAppend(log, added, step);
    }
  }

  lemma OrderedAppend(log: seq<LogEntry>, added: seq<LogEntry>, step: int)
    requires Ordered(log) && StepsBelow(log, step)
    requires Ordered(added) && forall i :: 0 <= i < |added| ==> added[i].step == step
    ensures Ordered(log + added) && StepsBelow(log + added, step + 1)
  {
    var all := log + added;
    forall i, j | 0 <= i < j < |all|
      ensures Precedes(all[i], all[j])
    {
      if j < |log| {
        assert all[i] == log[i] && all[j] == log[j];
      } else if i < |log| {
        assert all[i] == log[i] && all[j] == added[j - |log|];
      } else {
        assert all[i] == added[i - |log|] && all[j] == added[j - |log|];
      }
    }
  }

  /** A step that takes no reply logs nothing; one that takes a reply logs under its own
      number only. */
  lemma StepLogCalls(env: Env, cfg: Config, st: State, step: int)
    requires Ordered(st.log) && StepsBelow(st.log, step)
    ensures var r := Step(env, cfg, st, step);
      && IsPrefix(st.log, r.state.log) && AddedUnder(st.log, r.state.log, step)
      && (Calls(st, r.state) == 0 ==> r.state.log == st.log)
      && Ordered(r.state.log) && StepsBelow(r.state.log, step + Calls(st, r.state))
  {
    StepShape(env, cfg, st, step);
    if !Contains(st.lastOutput, cfg.success) && |st.replies| > 0 {
      StepLog(env, cfg, st, step);
    }
  }

  /** The log facts of one step, from an ordered log whose entries fall below `step`:
      the step only appends, under its own number, and nothing when it takes no reply,
      and the log stays ordered. */
  ghost predicate LogFacts(st: State, step: int, r: StepResult)
  {
    Ordered(st.log) && StepsBelow(st.log, step) ==>
      && IsPrefix(st.log, r.state.log) && AddedUnder(st.log, r.state.log, step)
      && (Calls(st, r.state) == 0 ==> r.state.log == st.log)
      && Ordered(r.state.log) && StepsBelow(r.state.log, step + Calls(st, r.state))
  }

  /** A loop body each of whose steps has the log facts. */
  ghost predicate LogKept(next: (State, int) -> StepResult)
  {
    forall st: State, step: int :: LogFacts(st, step, next(st, step))
  }

  /** The agent's loop body keeps the log. */
  lemma StepOfKeepsLog(env: Env, cfg: Config)
    ensures LogKept(StepOf(env, cfg))
  {
    var next := StepOf(env, cfg);
    forall st: State, step: int
      ensures LogFacts(st, step, next(st, step))
    {
      assert next(st, step) == Step(env, cfg, st, step);
      if Ordered(st.log) && StepsBelow(st.log, step) {
        StepLogCalls(env, cfg, st, step);
      }
    }
  }

  /** For any loop body with the count and log facts, a loop only appends to the log and
      keeps it ordered, every entry it adds under a step from `step` up to but excluding
      `step` plus the replies taken. */
  lemma {:induction false} LoopLogOrdered(next: (State, int) -> StepResult, last: int, st: State, step: int)
    requires Counted(next) && LogKept(next)
    requires Ordered(st.log) && StepsBelow(st.log, step)
    decreases last + 1 - step
    ensures var f := Loop(next, last, st, step);
      && IsPrefix(st.log, f.state.log) && AddedFrom(st.log, f.state.log, step)
      && Ordered(f.state.log) && StepsBelow(f.state.log, step + Calls(st, f.state))
  {
    if step <= last {
      var r := next(st, step);
      assert CountFacts(st, r) && LogFacts(st, step, r);
      if r.Next? {
        LoopLogOrdered(next, last, r.state, step + 1);
        AddedFromAppend(st.log, r.state.log, Loop(next, last, r.state, step + 1).state.log, step);
      }
    } else {
      assert st.log[..|st.log|] == st.log;
    }
  }

  /** Entries under `step` followed by entries under later steps are all under `step`
      or later. */
  lemma AddedFromAppend(a: seq<LogEntry>, b: seq<LogEntry>, c: seq<LogEntry>, step: int)
    requires IsPrefix(a, b) && IsPrefix(b, c)
    requires AddedUnder(a, b, step) && AddedFrom(b, c, step + 1)
    ensures IsPrefix(a, c) && AddedFrom(a, c, step)
  {
    PrefixTransitive(a, b, c);
    forall k | |a| <= k < |c|
      ensures step <= c[k].step
    {
      if k < |b| {
        assert c[k] == c[..|b|][k];
      }
    }
  }

  /** A run keeps the log ordered: each artifact of each step is written once, and only
      under a step the run reached, one that took a reply. */
  lemma RunLogOrdered(env: Env, cfg: Config, st: State, step: int)
    requires Ordered(st.log) && StepsBelow(st.log, step)
    ensures var f := RunFrom(env, cfg, st, step);
      && IsPrefix(st.log, f.state.log) && AddedFrom(st.log, f.state.log, step)
      && Ordered(f.state.log) && StepsBelow(f.state.log, step + Calls(st, f.state))
  {
    StepOfHasFacts(env, cfg);
    StepOfKeepsLog(env, cfg);
    LoopLogOrdered(StepOf(env, cfg), cfg.maxSteps, st, step);
  }

  /** A whole run's log has one artifact per step and kind at most. */
  lemma RunLogDistinct(env: Env, cfg: Config, replies: seq<string>, answers: seq<string>)
    ensures var log := RunAgent(env, cfg, replies, answers).state.log;
      && Ordered(log)
      && forall i, j :: 0 <= i < j < |log| ==> (log[i].step, log[i].kind) != (log[j].step, log[j].kind)
  {
    RunLogOrdered(env, cfg, Initial(cfg, replies, answers), 1);
  }
}
