/** The agent's conversation and action protocol: role-tagged messages, the plan the
    model proposes, the fixed system instruction and the feedback messages the loop
    sends back, and what the loop records outside the conversation. */
module Protocol {
  import opened PyText

  datatype Option<T> = None | Some(value: T)

  datatype Role = System | User | Assistant

  datatype Message = Message(role: Role, content: string)

  /** A decoded plan: the members of the JSON object the model sent. Only string
      values are modelled. */
  type Plan = map<string, string>

  /** `plan.get(key, default)`. */
  function GetOr(plan: Plan, key: string, default: string): string
  {
    if key in plan then plan[key] else default
  }

  /** The action a plan proposes, read from its "action" member. */
  datatype Action = Done | Read | Write | Run | Unknown(name: string)

  /** Matches "action" against the four known words; anything else, including a
      missing member (which Python formats as `None`), is Unknown and keeps the
      text the feedback message shows. */
  function ActionOf(plan: Plan): (a: Action)
    ensures a.Unknown? <==>
      ("action" in plan ==> plan["action"] !in {"done", "read", "write", "run"})
    ensures a.Unknown? ==> a.name == GetOr(plan, "action", "None")
    ensures a == Done <==> "action" in plan && plan["action"] == "done"
    ensures a == Read <==> "action" in plan && plan["action"] == "read"
    ensures a == Write <==> "action" in plan && plan["action"] == "write"
    ensures a == Run <==> "action" in plan && plan["action"] == "run"
  {
    var action := GetOr(plan, "action", "None");
    if "action" !in plan then Unknown(action)
    else if action == "done" then Done
    else if action == "read" then Read
    else if action == "write" then Write
    else if action == "run" then Run
    else Unknown(action)
  }

  /** A decoder that only ever yields an object for a text holding both braces: a JSON
      text whose top-level value is an object contains a '{' and a '}', whatever white
      space surrounds it. */
  ghost predicate ObjectsOnly(decode: string -> Option<Plan>)
  {
    forall t :: decode(t).Some? ==> '{' in t && '}' in t
  }

  /** The system instruction, the first message of every conversation. */
  const SystemPrompt: string :=
    "You are a coding agent running INSIDE a sandbox container. "
    + "Propose ONE step at a time as JSON with keys: "
    + "action (one of: 'run', 'write', 'read', 'done'), "
    + "command (for run), "
    + "path (for read/write), "
    + "content (for write), "
    + "rationale (short). "
    + "Never propose destructive commands like rm -rf / or modifying system packages."

  const NotJson: string := "Your last response was not valid JSON. Reply again with ONLY the JSON object."
  const MissingReadPath: string := "Missing 'path' for read."
  const MissingWritePath: string := "Missing 'path' for write."
  const WriteDenied: string := "Write not approved. Propose another step."
  const MissingCommand: string := "Missing 'command' for run."
  const CommandDenied: string := "Command not approved. Propose another step."

  function UnknownActionFeedback(name: string): string
  {
    "Unknown action '" + name + "'. Use run/write/read/done."
  }

  function ReadFeedback(path: string, content: string): string
  {
    "READ " + path + "\n" + content
  }

  function ReadErrorText(path: string, error: string): string
  {
    "ERROR reading " + path + ": " + error
  }

  /** The length Python reports is `len(content)`, a count of characters. */
  function WroteFeedback(path: string, content: string): string
  {
    "WROTE " + path + " (" + NatToString(|content|) + " bytes)."
  }

  function CommandFeedback(command: string, output: string): string
  {
    "COMMAND: " + command + "\nOUTPUT:\n" + output
  }

  /** What a shell command printed. */
  datatype CmdResult = CmdResult(stdout: string, stderr: string)

  /** The outcome of reading a file: its text, or the message of the exception raised. */
  datatype ReadResult = FileText(text: string) | ReadFailed(message: string)

  /** A change the loop makes to the world outside the conversation. */
  datatype Effect = Wrote(path: string, content: string) | Ran(command: string)

  /** The session log: one artifact per step and kind, `.agent/step_NN_<kind>.txt`. */
  datatype LogKind = AssistantText | CommandText | OutputText

  datatype LogEntry = LogEntry(step: int, kind: LogKind, text: string)

  /** An exception that escapes the loop and ends the run abnormally. */
  datatype Fault =
    | BackendFailure  // the model backend gave no reply
    | ConsoleClosed   // `input()` found the end of the console input
    | WriteFailed     // creating the parent directories or writing the file raised

  /** How a run ends: a returned exit code, or an escaping exception. */
  datatype Outcome = Exit(code: int) | Crash(fault: Fault)
}
