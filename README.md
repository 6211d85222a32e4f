# Agent control loop

A Dafny model of the control loop of the sandbox coding agent. The loop is
`main()` in `development-help/ai_vim_sandbox/agent/agent_loop.py`. It starts
with two messages: the system instruction and the operator's goal. Then, for at
most `--max-steps` steps, it:

- checks whether the success substring occurs in the output of the last
  approved command, and returns exit code 0 if it does;
- asks the model backend for a reply;
- cuts from the reply the text between the first `{` and the last `}`, and
  decodes that text as JSON;
- dispatches on the plan's `action`:
  - `done` returns 0;
  - `read` reports a file;
  - `write` writes a file, after the operator types an approving answer;
  - `run` runs a shell command, also after approval;
  - anything else is refused;
- appends exactly one user message of feedback, then goes on to the next step.

When the steps run out, the loop returns 2.

The project has five modules:

- `PyText` (`pytext.dfy`) models the Python string operations the loop relies
  on, with Python's semantics:
  - `find`/`rfind` return -1 when the character is absent;
  - slicing with a negative start counts from the end;
  - `strip()` and the `.lower() == "y"` approval test;
  - the `in` substring test;
  - `str()` of a length.
- `Protocol` (`protocol.dfy`) holds:
  - messages, roles and plans;
  - the action read from a plan;
  - the fixed system instruction and feedback texts, character for character;
  - the log entries, the effects and the two kinds of outcome.
- `LoopSpec` (`loop_spec.dfy`) specifies the loop with pure functions:
  - `Step` is one iteration;
  - `Loop`/`RunFrom` are the bounded `for` loop;
  - `RunAgent` is the whole run.
- `LoopProperties` (`loop_props.dfy`) proves what the loop guarantees about
  `LoopSpec`:
  - the step budget and the exit codes;
  - when the success substring is honoured;
  - the append-only conversation and log;
  - the approval gate;
  - the exact feedback of each branch.
- `AgentLoop` (`agent.dfy`) is the loop as the program runs it:
  - an `Agent` object whose conversation, `last_output` and log are updated in
    place;
  - a `Step` method;
  - a `while` loop over the steps.

  Each method is proved to compute exactly the `LoopSpec` function, so every
  lemma of `LoopProperties` holds of the imperative loop too.

The outside world is supplied as data:

- the model backend is a sequence of replies, consumed one per step;
- the operator's console is a sequence of answers, consumed one per approval
  prompt;
- the JSON decoder is a function of the text in `LoopSpec.Env`;
- the shell, file reads and file writes are functions in `LoopSpec.Env` of the
  step number and their arguments.

A run ends in one of two ways:

- `Exit(code)`: `main()` returned `code`.
- `Crash(fault)`: an exception escaped. This happens when the backend has no
  reply, when the console is closed at the approval prompt, or when a write
  raises.

## Model

| member | source | states |
|---|---|---|
| PyText.Find | development-help/ai_vim_sandbox/agent/agent_loop.py:89 | `find('{')`: -1 exactly when the character is absent; otherwise the index of an occurrence with none before it |
| PyText.RFind | development-help/ai_vim_sandbox/agent/agent_loop.py:90 | `rfind('}')`: -1 exactly when the character is absent; otherwise the index of an occurrence with none after it |
| PyText.SliceBound | development-help/ai_vim_sandbox/agent/agent_loop.py:91 | a Python slice bound resolves into 0..len: a bound in 0..len is kept, one in -len..-1 counts from the end, one below -len becomes 0 and one above len becomes len |
| PyText.BraceSpan | development-help/ai_vim_sandbox/agent/agent_loop.py:88-91 | no contract; its properties are stated by `BraceSpanOfPair`, `BraceSpanWithoutPair`, `BraceSpanOfEmbedded` and `BraceSpanExample` |
| PyText.Slice | development-help/ai_vim_sandbox/agent/agent_loop.py:91 | only the length bound `|r| <= |s|`; the bounds are stated by `SliceBound`, the slice of a reply by the `BraceSpan*` lemmas |
| PyText.Strip | development-help/ai_vim_sandbox/agent/agent_loop.py:129 | no contract; its properties are stated by `StripStart`, `StripEnd` and `ApprovesIff` |
| PyText.Approves | development-help/ai_vim_sandbox/agent/agent_loop.py:143 | no contract; its properties are stated by `ApprovesIff` |
| PyText.Contains | development-help/ai_vim_sandbox/agent/agent_loop.py:80 | no contract; its properties are stated by `ContainsIff` and `ContainsEmpty` |
| LoopSpec.Initial | development-help/ai_vim_sandbox/agent/agent_loop.py:62-77 | no contract; its properties are stated by `RunKeepsHeader` and `Agent.constructor` |
| LoopSpec.Feedback | development-help/ai_vim_sandbox/agent/agent_loop.py:94-99 | no contract; its properties are stated by `FeedbackExtends` and `Agent.Say` |
| LoopSpec.Step | development-help/ai_vim_sandbox/agent/agent_loop.py:79-154 | no contract; its properties are stated by `StepShape`, `StepEffects`, `StepLog`, `EffectNeedsApproval`, `LastOutputOnlyFromRun`, `ParseFailureRecovers` and the other per-branch lemmas, and `Agent.Step` is proved equal to it |
| LoopSpec.Execute | development-help/ai_vim_sandbox/agent/agent_loop.py:102-154 | no contract; its properties are stated by `ExecuteShape` and `ExecuteEffects` |
| LoopSpec.ReadStep | development-help/ai_vim_sandbox/agent/agent_loop.py:110-120 | no contract; its properties are stated by `ReadShape`, `ReadEffects` and `ReadReported` |
| LoopSpec.WriteStep | development-help/ai_vim_sandbox/agent/agent_loop.py:122-135 | no contract; its properties are stated by `WriteShape`, `WriteEffects`, `DenialHasNoEffect` and `ApprovedWritePerformed` |
| LoopSpec.RunStep | development-help/ai_vim_sandbox/agent/agent_loop.py:137-152 | no contract; its properties are stated by `RunShape`, `RunEffects`, `DenialHasNoEffect` and `ApprovedRunObserved` |
| LoopSpec.Loop | development-help/ai_vim_sandbox/agent/agent_loop.py:79-157 | no contract; its properties are stated by `LoopExtends`, `LoopUserOnly`, `LoopCallBudget`, `LoopExitCodes`, `LoopMessageCount` and `LoopLogOrdered` |
| LoopSpec.RunFrom | development-help/ai_vim_sandbox/agent/agent_loop.py:79-157 | no contract; its properties are stated by the `Run*` and `Success*` lemmas, and `Agent.Run` is proved equal to it |
| LoopSpec.RunAgent | development-help/ai_vim_sandbox/agent/agent_loop.py:47-157 | no contract; its properties are stated by `RunKeepsHeader`, `RunLogDistinct`, `EmptySuccessSucceedsAtOnce`, `NoStepsNoCall` and `AgentMain` |
| PyText.BraceSpanOfPair | development-help/ai_vim_sandbox/agent/agent_loop.py:88-91 | with a '{' before a later '}', the span starts with '{' and ends with '}'; the reply is the prefix, then the span, then the suffix; no '{' is before the span and no '}' is after it |
| PyText.BraceSpanWithoutPair | development-help/ai_vim_sandbox/agent/agent_loop.py:88-91 | without such a pair the span is "" or "}" (a missing '{' makes the slice start at the last character) |
| PyText.BraceSpanOfEmbedded | development-help/ai_vim_sandbox/agent/agent_loop.py:88-91 | conversely, an object-shaped text with no '{' before it and no '}' after it is exactly the span, whatever braces it holds |
| PyText.BraceSpanExample | development-help/ai_vim_sandbox/agent/agent_loop.py:87-91 | a JSON object wrapped in prose is handed to the decoder without the prose |
| PyText.StripStart | development-help/ai_vim_sandbox/agent/agent_loop.py:129 | `lstrip()` removes exactly the leading white space: the result is a suffix, everything removed is white space, and the result does not start with white space |
| PyText.StripEnd | development-help/ai_vim_sandbox/agent/agent_loop.py:129 | `rstrip()` removes exactly the trailing white space, with the mirror-image properties |
| PyText.LowerChar | development-help/ai_vim_sandbox/agent/agent_loop.py:129 | a character changes exactly when it is an upper-case ASCII letter, and then it becomes the lower-case letter at the same place in the alphabet; every other character is kept |
| PyText.ApprovesIff | development-help/ai_vim_sandbox/agent/agent_loop.py:129 | `input().strip().lower() == "y"`, the test of lines 129 and 143, holds exactly when the stripped answer is "y" or "Y" (both directions) |
| PyText.ContainsIff | development-help/ai_vim_sandbox/agent/agent_loop.py:80 | the recursive `in` test holds exactly when the substring occurs at some offset (both directions) |
| PyText.ContainsEmpty | development-help/ai_vim_sandbox/agent/agent_loop.py:80 | the empty substring is in every output |
| PyText.NatToString | development-help/ai_vim_sandbox/agent/agent_loop.py:134 | `str(len(content))` is a non-empty string of decimal digits without leading zeros |
| PyText.NatToStringRoundTrip | development-help/ai_vim_sandbox/agent/agent_loop.py:134 | reading back the printed digits gives the length |
| Protocol.ActionOf | development-help/ai_vim_sandbox/agent/agent_loop.py:102-154 | the action is Done, Read, Write or Run exactly when the "action" member is "done", "read", "write" or "run" respectively (both directions); it is Unknown exactly when the member is absent or none of these, and then it names the member's value, or `None` when absent |
| LoopProperties.StepShape | development-help/ai_vim_sandbox/agent/agent_loop.py:79-154 | a step with the success substring present stops with 0 and changes nothing; with no reply left, it crashes; otherwise it takes exactly one reply. It only consumes replies and answers and only appends to the conversation, log and effects. It appends one user message when it goes on and none when it stops, and it returns no exit code but 0 |
| LoopProperties.TakeReplyShape | development-help/ai_vim_sandbox/agent/agent_loop.py:84-85 | taking the reply and logging it, then any dispatch, is one model call with the same shape facts |
| LoopProperties.ParseFailureRecovers | development-help/ai_vim_sandbox/agent/agent_loop.py:92-100 | an undecodable span appends exactly the "not valid JSON" message; no answer is consumed, nothing is performed, `last_output` is unchanged, and the loop goes on |
| LoopProperties.NoBracePairNoPlan | development-help/ai_vim_sandbox/agent/agent_loop.py:88-100 | a reply with no '{' before a later '}' never decodes, for any decoder that yields an object only for a text containing both a '{' and a '}' |
| LoopProperties.DoneEndsRun | development-help/ai_vim_sandbox/agent/agent_loop.py:106-108 | `done` stops with exit code 0 and appends nothing, performs nothing, leaves `last_output` |
| LoopProperties.UnknownActionRefused | development-help/ai_vim_sandbox/agent/agent_loop.py:154 | any other or missing action appends exactly `Unknown action '<action>'. Use run/write/read/done.` and has no other effect |
| LoopProperties.MissingFieldRefused | development-help/ai_vim_sandbox/agent/agent_loop.py:111-141 | an empty or absent path (read, write) or command (run) appends the fixed "Missing" message for its kind; no answer is consumed and nothing is performed, whatever `content` holds |
| LoopProperties.ReadReported | development-help/ai_vim_sandbox/agent/agent_loop.py:110-120 | a read appends `READ <path>` and the file's text, or `ERROR reading <path>: <error>` in its place; it consumes no answer and performs nothing |
| LoopProperties.DenialHasNoEffect | development-help/ai_vim_sandbox/agent/agent_loop.py:128-145 | a refused write or run consumes one answer, performs nothing, leaves `last_output`, and appends exactly the denial message of its kind |
| LoopProperties.ApprovedRunObserved | development-help/ai_vim_sandbox/agent/agent_loop.py:146-151 | an approved command is performed; `last_output` becomes its stdout followed by its stderr; the command and output are logged under the step; the feedback is `COMMAND: <cmd>\nOUTPUT:\n<output>` |
| LoopProperties.ApprovedWritePerformed | development-help/ai_vim_sandbox/agent/agent_loop.py:132-134 | an approved write is performed and reported as `WROTE <path> (<len> bytes).`; when writing raises, the run ends with that exception and nothing is recorded as written |
| LoopProperties.ReadEffects | development-help/ai_vim_sandbox/agent/agent_loop.py:110-120 | the read branch obeys the approval gate, leaves `last_output`, and logs nothing |
| LoopProperties.WriteEffects | development-help/ai_vim_sandbox/agent/agent_loop.py:122-135 | the write branch performs something only after one approving answer, leaves `last_output`, and logs nothing |
| LoopProperties.RunEffects | development-help/ai_vim_sandbox/agent/agent_loop.py:137-152 | the run branch performs something only after one approving answer, sets `last_output` only to that command's output, and logs only that command and its output |
| LoopProperties.ExecuteEffects | development-help/ai_vim_sandbox/agent/agent_loop.py:102-154 | the same three facts for the whole dispatch |
| LoopProperties.StepEffects | development-help/ai_vim_sandbox/agent/agent_loop.py:79-154 | a step obeys the approval gate and the `last_output` rule. It logs nothing, or the reply, or the reply followed by one command and its output |
| LoopProperties.EffectNeedsApproval | development-help/ai_vim_sandbox/agent/agent_loop.py:128-151 | nothing is written or run unless the step consumed exactly one answer and that answer approves; at most one thing is performed per step |
| LoopProperties.LastOutputOnlyFromRun | development-help/ai_vim_sandbox/agent/agent_loop.py:146-151 | `last_output` changes only when an approved command runs, and then equals its stdout followed by its stderr, which the appended feedback shows |
| LoopProperties.StepOfHasFacts | development-help/ai_vim_sandbox/agent/agent_loop.py:79-154 | every step of the agent, in every state, has the count and content facts of StepShape |
| LoopProperties.LoopExtends | development-help/ai_vim_sandbox/agent/agent_loop.py:79-157 | a loop whose body only consumes and appends does the same over all its steps |
| LoopProperties.LoopUserOnly | development-help/ai_vim_sandbox/agent/agent_loop.py:79-157 | a loop whose body appends only user messages does the same over all its steps |
| LoopProperties.LoopCallBudget | development-help/ai_vim_sandbox/agent/agent_loop.py:79-157 | a loop whose body takes at most one reply, and one whenever it goes on, takes at most one reply per remaining step, and one in every remaining step when it returns 2 |
| LoopProperties.LoopExitCodes | development-help/ai_vim_sandbox/agent/agent_loop.py:79-157 | a loop whose body returns only 0 returns only 0 or 2 |
| LoopProperties.LoopMessageCount | development-help/ai_vim_sandbox/agent/agent_loop.py:79-157 | a loop whose body appends one message when it goes on appends one message per reply taken, except possibly the last; when it returns 2, one for every reply taken |
| LoopProperties.RunExtends | development-help/ai_vim_sandbox/agent/agent_loop.py:76-154 | a run consumes replies and answers in order and only appends to the conversation, the log and the effects |
| LoopProperties.RunAppendsUserOnly | development-help/ai_vim_sandbox/agent/agent_loop.py:94-154 | every message a run appends is a user message |
| LoopProperties.RunCallBudget | development-help/ai_vim_sandbox/agent/agent_loop.py:79-84 | a run from step `i` asks the backend at most `max_steps - i + 1` times; when it returns 2 it asked exactly that often |
| LoopProperties.RunExitCodes | development-help/ai_vim_sandbox/agent/agent_loop.py:79-157 | the only exit codes are 0 and 2 |
| LoopProperties.RunMessageCount | development-help/ai_vim_sandbox/agent/agent_loop.py:84-154 | each model call except possibly the last appends exactly one message; when the run returns 2, every call did |
| LoopProperties.SuccessBeforeCall | development-help/ai_vim_sandbox/agent/agent_loop.py:80-82 | when the success substring is already in `last_output` at a step within the budget, the run returns 0 at once, without a model call or any change |
| LoopProperties.SuccessHonouredNextStep | development-help/ai_vim_sandbox/agent/agent_loop.py:79-82 | success output produced by a step before the last ends the run with 0 at the start of the next step, with no further model call |
| LoopProperties.SuccessOnLastStepIgnored | development-help/ai_vim_sandbox/agent/agent_loop.py:156-157 | when the last step goes on, the run returns 2, even if its command printed the success substring |
| LoopProperties.EmptySuccessSucceedsAtOnce | development-help/ai_vim_sandbox/agent/agent_loop.py:77-82 | with an empty success substring and at least one step, the run returns 0 before any model call |
| LoopProperties.NoStepsNoCall | development-help/ai_vim_sandbox/agent/agent_loop.py:79-157 | with `max_steps` below 1, the run returns 2 without a model call |
| LoopProperties.RunKeepsHeader | development-help/ai_vim_sandbox/agent/agent_loop.py:76 | the system instruction and the goal stay the first two messages of a run, and everything after them is a user message |
| LoopProperties.StepLog | development-help/ai_vim_sandbox/agent/agent_loop.py:85-149 | from an ordered log of earlier steps, a step only appends to the log, every entry it appends is under its own number, and the log stays ordered by step and then kind (assistant text, command, output) |
| LoopProperties.StepLogCalls | development-help/ai_vim_sandbox/agent/agent_loop.py:79-149 | a step only appends to the log, under its own number; when it takes no reply the log is unchanged; the log stays ordered, with every entry below the step plus the replies taken |
| LoopProperties.StepOfKeepsLog | development-help/ai_vim_sandbox/agent/agent_loop.py:79-149 | every step of the agent, from any state whose log is ordered and under earlier steps, has the facts of `StepLogCalls`: append-only, under its own number, nothing without a reply, still ordered |
| LoopProperties.LoopLogOrdered | development-help/ai_vim_sandbox/agent/agent_loop.py:79-157 | by induction, a loop whose every step has those facts only appends to the log and keeps it ordered; every entry it adds is under a step from the first one up to, but not including, the first plus the replies taken |
| LoopProperties.RunLogOrdered | development-help/ai_vim_sandbox/agent/agent_loop.py:85-149 | a run from step `i` only appends to the log and keeps it strictly ordered by step and kind; every entry it adds is under a step `k` with `i <= k < i + replies taken`: a step the run reached and in which it asked the backend |
| LoopProperties.RunLogDistinct | development-help/ai_vim_sandbox/agent/agent_loop.py:85-149 | no two log entries of a run share a step and kind: no `.agent/step_NN_<kind>.txt` artifact is written twice |
| AgentLoop.Agent.constructor | development-help/ai_vim_sandbox/agent/agent_loop.py:62-77 | the conversation starts as the system instruction then the goal; `last_output` starts empty |
| AgentLoop.Agent.Say | development-help/ai_vim_sandbox/agent/agent_loop.py:94-99 | `messages.append` of a user message and nothing else |
| AgentLoop.Agent.Ask | development-help/ai_vim_sandbox/agent/agent_loop.py:142-143 | consumes exactly one answer and reports whether it approves |
| AgentLoop.Agent.Step | development-help/ai_vim_sandbox/agent/agent_loop.py:79-154 | the loop body changes the object exactly as `LoopSpec.Step` specifies, and stops exactly when it does, with the same outcome |
| AgentLoop.Agent.ReadFile | development-help/ai_vim_sandbox/agent/agent_loop.py:110-120 | the read branch in place, as `LoopSpec.ReadStep` |
| AgentLoop.Agent.WriteFile | development-help/ai_vim_sandbox/agent/agent_loop.py:122-135 | the write branch in place, as `LoopSpec.WriteStep` |
| AgentLoop.Agent.RunCommand | development-help/ai_vim_sandbox/agent/agent_loop.py:137-152 | the run branch in place, as `LoopSpec.RunStep` |
| AgentLoop.Agent.Run | development-help/ai_vim_sandbox/agent/agent_loop.py:79-157 | the `for` loop ends in the state and with the outcome `LoopSpec.RunFrom` gives from step 1 |
| AgentLoop.AgentMain | development-help/ai_vim_sandbox/agent/agent_loop.py:47-157 | `main()` returns what `RunAgent` specifies. It asks the backend at most `max_steps` times and consumes a prefix of the replies. It returns no exit code but 0 and 2 |

## Left out

- `call_ollama` (the HTTP request to the model backend) is replaced by the
  sequence of replies. Any failure of the backend is the single fault
  `BackendFailure`, and the model assumes the backend is reached when a reply
  remains. The `--model` argument and the environment defaults only select
  the backend, so they are not modelled.
- `run_cmd` (the shell) is the function `Env.runCommand`, and
  `cp.stdout or ""` is its string result. Timeouts and exit statuses are not
  modelled; the loop ignores the exit status.
- `Env.runCommand` never fails. In the program, `subprocess.run` can raise
  (an `OSError` when the shell cannot start, a `UnicodeDecodeError` when the
  output is not valid text). That exception escapes `main()` after the
  command may already have run, and before `last_output` is set. The model
  has no fault for this, so every approved command completes.
- `json.loads` is the function `Env.decode`, which yields a plan or nothing.
  A plan is a map from member names to string values. JSON members whose
  values are not strings, and the way Python formats them in the feedback,
  are not modelled. `NoBracePairNoPlan` assumes only that the decoder yields
  an object only for a text containing a '{' and a '}'. `json.loads` meets
  this even when white space surrounds the object.
- File reads and writes are the functions `Env.readFile` and `Env.writeFile`.
  The `mkdir` of the parent directories is part of the write: an exception
  from either is `WriteFailed`.
- A `WriteFailed` write records no effect. In the program, a failed write may
  already have created parent directories or truncated the file. The model
  treats a failed write as one that changed nothing.
- The `.agent` directory and its `step_NN_<kind>.txt` files are an
  append-only log of (step, kind, text) entries. An exception while writing
  a log file is not modelled.
- `argparse` is the `Config` value, so the default of 20 steps is not
  modelled. The `print` calls, including the printing of `rationale`, have no
  effect on the loop and are left out. `input()` is the sequence of answers;
  an exhausted sequence is `ConsoleClosed`, Python's `EOFError`.
- PyText.Slice: its own contract states only that a slice is no longer than
  the string. The bounds it uses are stated by `SliceBound`, and what the
  slice of a reply holds is stated by the `BraceSpan` lemmas.
- PyText.LowerChar: lower-cases only ASCII letters. No other character
  lower-cases to "y", so the approval test agrees with Python, but `Lower` is
  not Python's `str.lower()` elsewhere.
- `sample_outputs/vim_sandbox/simple_http_server.py` is a socket server
  unrelated to the loop; it is not part of this model.
