/** The operating-system capabilities the mail sender uses, replaced by injected
    values: a scripted console, the configuration file as a value, a map of
    readable text files, the `EDITOR` variable, the editor's behaviour, the
    mail relay's reply, and an append-only log of everything observable. */
module Io {
  import opened Base
  import opened Toml

  /** One answer of the scripted console: a raw line as `read_line` delivers
      it (newline included), or a read error. */
  datatype ReadResult = Line(raw: string) | ReadFailure

  /** What is at the configuration file's path, abstracted to what
      `toml::from_str` makes of its text: a value tree, or a syntax error; or
      an entry that exists but `fs::read_to_string` cannot read (a directory,
      a file without read permission, or one that is not UTF-8). */
  datatype ConfigFile = Parsed(root: Value) | Unparsable | Unreadable

  /** The fields of the message handed to the relay. */
  datatype Message = Message(from: string, to: string, subject: string, body: string)

  /** The SMTP login pair. */
  datatype Credentials = Credentials(user: string, pass: string)

  /** Why the process panicked. */
  datatype AbortReason =
    | Expect(msg: string)               // `.expect(msg)` on an error whose payload is not modelled
    | ExpectErr(msg: string, err: string) // `.expect(msg)` on `Err(err)`
    | UnwrapFailed                      // `.unwrap()` on `None` or `Err`
    | KeyNotFound(key: string)          // indexing a TOML value or table with an absent key

  /** Everything the run does that is visible from outside, in order. */
  datatype Event =
    | Prompt(text: string)              // a prompt printed before one line is read
    | ReadFile(path: string)            // `fs::read_to_string` on a path
    | WriteFile(path: string)           // the configuration file is created and written
    | CreateTemp(path: string)          // a named temporary file is created
    | Launch(editor: string, path: string) // spawning the editor on a file is attempted
    | ReadTemp(path: string)            // the temporary file is read back
    | RemoveTemp(path: string)          // the temporary file is deleted as its handle is dropped
    | SendAttempt(message: Message, host: string, creds: Credentials)
    | Print(line: string)               // a line on standard output
    | PrintErr(line: string)            // a line on standard error
    | Abort(reason: AbortReason)        // a panic
    | Exit(code: int)                   // `process::exit`

  /** The relay's answer to a send: accepted, or an error (its debug rendering). */
  datatype Reply = Accepted | Rejected(diagnostic: string)

  /** What running the editor leaves behind: its exit status, and the text a
      read of the temporary file then yields (`None` when it is not UTF-8). */
  datatype EditorRun = EditorRun(status: int, text: Option<string>)

  /** The fixed surroundings of one invocation. */
  datatype Env = Env(
    configDir: Option<string>,          // `dirs::config_dir()`
    appDirExists: bool,                 // whether `<configDir>/emu` exists, so the file can be created
    files: map<string, string>,         // the text files `fs::read_to_string` can read
    editorVar: Option<string>,          // `EDITOR`, `None` when unset or not Unicode
    launchable: set<string>,            // the editor commands that can be spawned
    editorRun: EditorRun,               // what the editor does once spawned
    tempPath: Option<string>,           // the path a new temporary file gets; `None` when creation fails
    isMailbox: string -> bool,          // which strings parse as mailboxes
    relayUsable: string -> bool,        // for which hosts `SmtpTransport::relay` succeeds
    reply: Reply)                       // the relay's answer to a send

  /** The meaning of one step of the program: the events it logs, the console
      input it leaves unread, and its result, `None` when the process ended
      (a panic, or `exit`) and nothing after the step runs. */
  datatype Step<T> = Step(events: seq<Event>, rest: seq<ReadResult>, out: Option<T>)

  /** A step that ended the process after logging `events`. */
  function Halt<T>(events: seq<Event>, rest: seq<ReadResult>): Step<T>
  {
    Step(events, rest, None)
  }

  /** The number of send attempts in a log. */
  function Sends(events: seq<Event>): nat
  {
    if events == [] then 0
    else (if events[0].SendAttempt? then 1 else 0) + Sends(events[1..])
  }

  lemma {:induction false} SendsAppend(a: seq<Event>, b: seq<Event>)
    ensures Sends(a + b) == Sends(a) + Sends(b)
  {
    if a == [] {
      assert a + b == b;
    } else {
      assert (a + b)[0] == a[0] && (a + b)[1..] == a[1..] + b;
      SendsAppend(a[1..], b);
    }
  }

  /** A log without send attempts counts none. */
  lemma {:induction false} SendsNone(events: seq<Event>)
    requires forall i | 0 <= i < |events| :: !events[i].SendAttempt?
    ensures Sends(events) == 0
  {
    if events != [] {
      SendsNone(events[1..]);
    }
  }

  /** Logging one step's events and then another's leaves the log with
      their concatenation: the law by which each procedure chains its steps. */
  lemma LogAssoc(log: seq<Event>, a: seq<Event>, b: seq<Event>)
    ensures (log + a) + b == log + (a + b)
  {
  }

  /** The process-wide state one run works on: the console input not yet read,
      the log so far, and the configuration file at the fixed path. */
  class World {
    const env: Env
    var input: seq<ReadResult>
    var log: seq<Event>
    var config: Option<ConfigFile>

    constructor (env: Env, input: seq<ReadResult>, config: Option<ConfigFile>)
      ensures this.env == env && this.input == input && this.config == config && log == []
    {
      this.env := env;
      this.input := input;
      this.config := config;
      log := [];
    }

    /** The world changed exactly as `s` describes and the configuration file
        stayed as it was. */
    twostate predicate Performed<T>(s: Step<T>)
      reads this
    {
      log == old(log) + s.events && input == s.rest && config == old(config)
    }
  }
}
