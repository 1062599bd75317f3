/** The program's entry point (src/main.rs): make sure a configuration exists,
    compose the message in one of two modes, load the credentials, and hand
    everything to `send_email`. */
module Emu {
  import opened Base
  import opened Io
  import opened Config
  import Input
  import Send

  /** The four optional flags, as `get_matches` resolves them. */
  datatype Args = Args(recipient: Option<string>, subject: Option<string>,
                       body: Option<string>, file: Option<string>)

  /** clap never lets `--body` and `--file` through together (src/app.rs). */
  predicate ArgsAccepted(args: Args)
  {
    !(args.body.Some? && args.file.Some?)
  }

  /** Where the body of an explicit-mode message comes from. */
  datatype BodySource = Literal(text: string) | FromFile(path: string) | Ask

  /** The message fields `send_email` receives. */
  datatype Draft = Draft(to: string, subject: string, body: string)

  const BodyPrompt := "Enter the email body:"
  const RecipientPrompt := "Enter the email of the recipient:"
  const SubjectPrompt := "Enter the subject of the email:"
  const FileFailed := "Failed to read file"
  const TempFailed := "Failed to create temporary file"
  const TempReadFailed := "Failed to read temporary file"
  const ConfigReadFailed := "Error reading TOML config file"
  const ConfigParseFailed := "Error parsing TOML"
  const DetailsFailed := "Error creating UserDetails from TOML"

  /** The body source: the literal body if given, else the file if given,
      else a prompt. The literal body wins even when a file is named too. */
  function BodySourceOf(body: Option<string>, file: Option<string>): (src: BodySource)
    ensures src.Literal? <==> body.Some?
    ensures src.Literal? ==> src.text == body.value
    ensures src.FromFile? <==> body.None? && file.Some?
    ensures src.FromFile? ==> src.path == file.value
    ensures src.Ask? <==> body.None? && file.None?
  {
    if body.Some? then Literal(body.value)
    else if file.Some? then FromFile(file.value)
    else Ask
  }

  /** Explicit mode (a recipient was given): the recipient as given, the
      subject or "" when absent, and the body from its source; reading the
      file panics when it cannot be read. */
  function ExplicitStep(env: Env, args: Args, input: seq<ReadResult>): (s: Step<Draft>)
    requires args.recipient.Some?
    ensures s.out.Some? ==> s.out.value.to == args.recipient.value
    ensures s.out.Some? ==> s.out.value.subject == args.subject.GetOr("")
    ensures args.body.Some? ==>
      s == Step([], input, Some(Draft(args.recipient.value, args.subject.GetOr(""), args.body.value)))
    ensures args.body.None? && args.file.Some? ==>
      && s.rest == input && |s.events| > 0 && s.events[0] == ReadFile(args.file.value)
      && (s.out.Some? <==> args.file.value in env.files)
      && (s.out.Some? ==> s.out.value.body == env.files[args.file.value] && |s.events| == 1)
      && (s.out.None? ==> s.events == [ReadFile(args.file.value), Abort(Expect(FileFailed))])
    ensures args.body.None? && args.file.None? ==>
      var answer := Input.UserInput(BodyPrompt, input);
      && s.events == answer.events && s.rest == answer.rest
      && (s.out.Some? <==> answer.out.Some?)
      && (s.out.Some? ==> s.out.value.body == answer.out.value)
  {
    var to := args.recipient.value;
    var subject := args.subject.GetOr("");
    match BodySourceOf(args.body, args.file)
    case Literal(text) => Step([], input, Some(Draft(to, subject, text)))
    case FromFile(path) =>
      if path in env.files then Step([ReadFile(path)], input, Some(Draft(to, subject, env.files[path])))
      else Halt([ReadFile(path), Abort(Expect(FileFailed))], input)
    case Ask =>
      var answer := Input.UserInput(BodyPrompt, input);
      match answer.out
      case None => Halt(answer.events, answer.rest)
      case Some(text) => Step(answer.events, answer.rest, Some(Draft(to, subject, text)))
  }

  /** Reading the credentials: the file at the fixed path, its TOML parse, and
      `from_toml`, each failure a panic. An `Err` of `from_toml` panics with
      its message attached; a missing key panics inside `from_toml` itself. */
  function LoadStep(env: Env, config: Option<ConfigFile>, input: seq<ReadResult>): (s: Step<UserDetails>)
    ensures s.rest == input
    ensures env.configDir.None? ==> s.events == [Abort(UnwrapFailed)]
    ensures env.configDir.Some? && config in {None, Some(Unreadable)} ==>
      s.events == [ReadFile(ConfigPath(env.configDir.value)), Abort(Expect(ConfigReadFailed))]
    ensures s.out.Some? <==>
      env.configDir.Some? && config.Some? && config.value.Parsed? && FromToml(config.value.root).Loaded?
    ensures s.out.Some? ==>
      s.out.value == FromToml(config.value.root).details && s.events == [ReadFile(ConfigPath(env.configDir.value))]
  {
    match env.configDir
    case None => Halt([Abort(UnwrapFailed)], input)
    case Some(dir) =>
      var read := ReadFile(ConfigPath(dir));
      match config
      case None => Halt([read, Abort(Expect(ConfigReadFailed))], input)
      case Some(Unreadable) => Halt([read, Abort(Expect(ConfigReadFailed))], input)
      case Some(Unparsable) => Halt([read, Abort(Expect(ConfigParseFailed))], input)
      case Some(Parsed(root)) =>
        match FromToml(root)
        case Loaded(d) => Step([read], input, Some(d))
        case Invalid(msg) => Halt([read, Abort(ExpectErr(DetailsFailed, msg))], input)
        case KeyMissing(key) => Halt([read, Abort(KeyNotFound(key))], input)
  }

  /** The credentials are loaded, then the composed fields go to `send_email`
      unchanged. */
  function DeliverStep(env: Env, config: Option<ConfigFile>, draft: Draft, input: seq<ReadResult>): (s: Step<()>)
  {
    var l := LoadStep(env, config, input);
    match l.out
    case None => Halt(l.events, l.rest)
    case Some(d) =>
      var s := Send.SendStep(env, d, draft.to, draft.subject, draft.body, l.rest);
      Step(l.events + s.events, s.rest, s.out)
  }

  /** The editor session: `open_editor` on the temporary file, then its whole
      contents read back as the body, untrimmed. */
  function EditStep(env: Env, path: string, input: seq<ReadResult>): (s: Step<string>)
    ensures s.rest == input
    ensures s.out.Some? <==> Input.EditorName(env.editorVar) in env.launchable && env.editorRun.text.Some?
    ensures s.out.Some? ==>
      s.out.value == env.editorRun.text.value
      && s.events == [Launch(Input.EditorName(env.editorVar), path), ReadTemp(path)]
  {
    var o := Input.OpenEditorStep(env, path, input);
    match o.out
    case None => Halt(o.events, o.rest)
    case Some(_) =>
      match env.editorRun.text
      case None => Halt(o.events + [ReadTemp(path), Abort(Expect(TempReadFailed))], o.rest)
      case Some(text) => Step(o.events + [ReadTemp(path)], o.rest, Some(text))
  }

  /** The whole explicit branch: compose, then deliver. */
  function ExplicitRun(env: Env, args: Args, config: Option<ConfigFile>, input: seq<ReadResult>): (s: Step<()>)
    requires args.recipient.Some?
  {
    var c := ExplicitStep(env, args, input);
    match c.out
    case None => Halt(c.events, c.rest)
    case Some(draft) =>
      var d := DeliverStep(env, config, draft, c.rest);
      Step(c.events + d.events, d.rest, d.out)
  }

  /** What interactive composition leaves: its events, the script after it,
      the draft (`None` when the process ended), and the temporary file it
      created, which still exists when the process ends after its creation. */
  datatype Composed = Composed(events: seq<Event>, rest: seq<ReadResult>,
                               draft: Option<Draft>, temp: Option<string>)

  /** Interactive mode (no recipient): ask for the recipient, then the
      subject, create the temporary file and let the editor fill it. */
  function InteractiveStep(env: Env, input: seq<ReadResult>): (c: Composed)
  {
    var t := Input.UserInput(RecipientPrompt, input);
    match t.out
    case None => Composed(t.events, t.rest, None, None)
    case Some(to) =>
      var u := Input.UserInput(SubjectPrompt, t.rest);
      match u.out
      case None => Composed(t.events + u.events, u.rest, None, None)
      case Some(subject) =>
        match env.tempPath
        case None => Composed(t.events + u.events + [Abort(Expect(TempFailed))], u.rest, None, None)
        case Some(path) =>
          var b := EditStep(env, path, u.rest);
          var draft := match b.out
            case None => None
            case Some(body) => Some(Draft(to, subject, body));
          Composed(t.events + u.events + [CreateTemp(path)] + b.events, b.rest, draft, Some(path))
  }

  /** What follows interactive composition: delivery of the draft, if one was
      composed, and the deletion of the temporary file when its handle goes
      out of scope, which happens on every path once it exists (a panic
      unwinds through the drop). */
  function InteractiveFinish(env: Env, config: Option<ConfigFile>, draft: Option<Draft>,
                             temp: Option<string>, input: seq<ReadResult>): (s: Step<()>)
  {
    var tail := match draft
      case None => Halt([], input)
      case Some(draft) => DeliverStep(env, config, draft, input);
    var cleanup := match temp
      case None => []
      case Some(path) => [RemoveTemp(path)];
    Step(tail.events + cleanup, tail.rest, tail.out)
  }

  /** The whole interactive branch: compose, then finish. */
  function InteractiveRun(env: Env, config: Option<ConfigFile>, input: seq<ReadResult>): (s: Step<()>)
  {
    var c := InteractiveStep(env, input);
    var f := InteractiveFinish(env, config, c.draft, c.temp, c.rest);
    Step(c.events + f.events, f.rest, f.out)
  }

  /** One invocation. The configuration check comes first, and a first run
      generates the configuration and stops; otherwise the mode follows from
      whether a recipient was given. */
  function RunStep(env: Env, args: Args, input: seq<ReadResult>, config: Option<ConfigFile>): (s: Step<()>)
    requires ArgsAccepted(args)
  {
    if !ConfigFileExists(env, config) then
      var g := Generate(env, input, AsWritten);
      Halt(g.events, g.rest)
    else if args.recipient.Some? then ExplicitRun(env, args, config, input)
    else InteractiveRun(env, config, input)
  }

  /** The configuration file after one invocation: only a first run writes it. */
  function ConfigAfter(env: Env, input: seq<ReadResult>, config: Option<ConfigFile>): Option<ConfigFile>
  {
    if ConfigFileExists(env, config) then config
    else match Generate(env, input, AsWritten).written
      case None => config
      case Some(root) => Some(Parsed(root))
  }

  // ---------------------------------------------------------------------
  // Properties of one invocation

  /** A first run only generates the configuration: the run ends inside the
      generator, nothing is composed and nothing is sent. What it stores is
      the source's tree, so every later load of the credentials panics with
      the structure error. */
  lemma FirstRunOnlyGenerates(env: Env, args: Args, input: seq<ReadResult>, config: Option<ConfigFile>,
                              next: seq<ReadResult>)
    requires ArgsAccepted(args) && !ConfigFileExists(env, config)
    ensures var s := RunStep(env, args, input, config);
      && s.events == Generate(env, input, AsWritten).events && s.out == None && Sends(s.events) == 0
    ensures var after := ConfigAfter(env, input, config);
      after != config ==>
        && after == Some(Parsed(Generate(env, input, AsWritten).written.value))
        && LoadStep(env, after, next) ==
           Halt([ReadFile(ConfigPath(env.configDir.value)), Abort(ExpectErr(DetailsFailed, BadStructure))], next)
  {
    GenerateHalts(env, input, AsWritten);
    var g := Generate(env, input, AsWritten);
    if g.written.Some? {
      var p := Input.UserInput(PasswordPrompt, input);
      var e := Input.UserInput(EmailPrompt, p.rest);
      var h := Input.UserInput(HostPrompt, e.rest);
      var d := UserDetails(p.out.value, e.out.value, h.out.value);
      assert g.written.value == WrittenShape(d);
      WrittenShapeDoesNotLoad(d);
    }
  }

  /** With the corrected layout, what a first run stores loads back on the
      next run as exactly the three trimmed answers. */
  lemma CorrectedGeneratorLoadsBack(env: Env, a: string, b: string, c: string, rest: seq<ReadResult>,
                                    next: seq<ReadResult>)
    ensures var g := Generate(env, [Line(a), Line(b), Line(c)] + rest, Corrected);
      g.written.Some? ==>
        LoadStep(env, Some(Parsed(g.written.value)), next) ==
        Step([ReadFile(ConfigPath(env.configDir.value))], next,
             Some(UserDetails(Input.Trim(a), Input.Trim(b), Input.Trim(c))))
  {
    GenerateAsksInOrder(env, a, b, c, rest, Corrected);
  }

  /** An entry at the configuration path that cannot be read still passes the
      existence check, so the run composes the message and then panics when
      it reads the file. */
  lemma UnreadableConfigPanicsAfterComposing(env: Env, args: Args, input: seq<ReadResult>)
    requires ArgsAccepted(args) && env.configDir.Some?
    ensures ConfigFileExists(env, Some(Unreadable))
    ensures LoadStep(env, Some(Unreadable), input) ==
      Halt([ReadFile(ConfigPath(env.configDir.value)), Abort(Expect(ConfigReadFailed))], input)
    ensures args.recipient.Some? && args.body.Some? ==>
      RunStep(env, args, input, Some(Unreadable)) ==
      Halt([ReadFile(ConfigPath(env.configDir.value)), Abort(Expect(ConfigReadFailed))], input)
  {
  }

  /** Interactive mode never looks at `--subject`, `--body` or `--file`. */
  lemma InteractiveIgnoresFlags(env: Env, a1: Args, a2: Args, input: seq<ReadResult>, config: Option<ConfigFile>)
    requires ArgsAccepted(a1) && ArgsAccepted(a2)
    requires a1.recipient.None? && a2.recipient.None?
    ensures RunStep(env, a1, input, config) == RunStep(env, a2, input, config)
  {
  }

  /** Interactive mode asks for the recipient first and then the subject,
      takes both answers trimmed, and takes the editor's text as the body
      exactly as read back. */
  lemma InteractiveDraftFields(env: Env, input: seq<ReadResult>)
    ensures var s := InteractiveStep(env, input);
      && |s.events| > 0 && s.events[0] == Prompt(RecipientPrompt)
      && (Input.NextLine(input).Line? ==> |s.events| > 1 && s.events[1] == Prompt(SubjectPrompt))
    ensures var s := InteractiveStep(env, input);
      s.draft.Some? ==>
        && s.draft.value.to == Input.Trim(Input.NextLine(input).raw)
        && s.draft.value.subject == Input.Trim(Input.NextLine(Input.Remaining(input)).raw)
        && s.draft.value.body == env.editorRun.text.value
        && s.temp == env.tempPath
        && s.rest == Input.Remaining(Input.Remaining(input))
  {
  }

  /** The configuration file is present, parses, and holds the record `d`. */
  predicate Holds(env: Env, config: Option<ConfigFile>, d: UserDetails)
  {
    env.configDir.Some? && config.Some? && config.value.Parsed? && FromToml(config.value.root) == Loaded(d)
  }

  /** Explicit mode with a literal body: the file flag is not read, nothing is
      asked before the confirmation, the configuration is read after the
      body is known, and exactly the given recipient, the subject (or "") and
      the body are sent, from the stored address with the stored login. */
  lemma ExplicitLiteralBodyRun(env: Env, args: Args, d: UserDetails, raw: string, rest: seq<ReadResult>,
                               config: Option<ConfigFile>)
    requires ArgsAccepted(args) && args.recipient.Some? && args.body.Some?
    requires Holds(env, config, d) && Send.Deliverable(env, d, args.recipient.value)
    requires Send.IsAffirmative(Input.Trim(raw))
    ensures var s := RunStep(env, args, [Line(raw)] + rest, config);
      && s.events == [ReadFile(ConfigPath(env.configDir.value)), Prompt(Send.ConfirmPrompt),
           SendAttempt(Message(d.email, args.recipient.value, args.subject.GetOr(""), args.body.value),
                       d.host, Credentials(d.email, d.password)),
           Send.Report(env.reply)]
      && s.rest == rest && s.out == Some(())
  {
    var draft := Draft(args.recipient.value, args.subject.GetOr(""), args.body.value);
    DeliverConfirmed(env, config, d, draft, raw, rest);
  }

  /** When composing fails, the run stops there: the configuration file is
      not read and nothing is sent. In interactive mode the only thing still
      logged is the removal of the temporary file. */
  lemma CompositionFailureEndsRun(env: Env, args: Args, input: seq<ReadResult>, config: Option<ConfigFile>)
    requires ArgsAccepted(args) && ConfigFileExists(env, config)
    ensures args.recipient.Some? && ExplicitStep(env, args, input).out.None? ==>
      RunStep(env, args, input, config) == Halt(ExplicitStep(env, args, input).events, ExplicitStep(env, args, input).rest)
    ensures args.recipient.None? && InteractiveStep(env, input).draft.None? ==>
      var c := InteractiveStep(env, input);
      RunStep(env, args, input, config).events == c.events + (if c.temp.Some? then [RemoveTemp(c.temp.value)] else [])
  {
  }

  /** Interactive mode end to end: recipient, then subject, then the editor on
      a fresh temporary file, then the configuration, then the confirmation;
      the body sent is the editor's text verbatim (not trimmed), and the
      temporary file is removed last. */
  lemma InteractiveRunTrace(env: Env, args: Args, d: UserDetails, to: string, subject: string, answer: string,
                            rest: seq<ReadResult>, config: Option<ConfigFile>)
    requires ArgsAccepted(args) && args.recipient.None?
    requires env.tempPath.Some? && Input.EditorName(env.editorVar) in env.launchable && env.editorRun.text.Some?
    requires Holds(env, config, d) && Send.Deliverable(env, d, Input.Trim(to))
    requires Send.IsAffirmative(Input.Trim(answer))
    ensures var path := env.tempPath.value;
      var s := RunStep(env, args, [Line(to), Line(subject), Line(answer)] + rest, config);
      && s.events ==
           [Prompt(RecipientPrompt), Prompt(SubjectPrompt), CreateTemp(path),
            Launch(Input.EditorName(env.editorVar), path), ReadTemp(path)] +
           [ReadFile(ConfigPath(env.configDir.value)), Prompt(Send.ConfirmPrompt),
            SendAttempt(Message(d.email, Input.Trim(to), Input.Trim(subject), env.editorRun.text.value),
                        d.host, Credentials(d.email, d.password)),
            Send.Report(env.reply)] +
           [RemoveTemp(path)]
      && s.rest == rest && s.out == Some(())
  {
    var input := [Line(to), Line(subject), Line(answer)] + rest;
    var path := env.tempPath.value;
    var draft := Draft(Input.Trim(to), Input.Trim(subject), env.editorRun.text.value);
    InteractiveComposeTrace(env, to, subject, [Line(answer)] + rest);
    FinishConfirmed(env, config, d, draft, path, answer, rest);
    DeliverConfirmed(env, config, d, draft, answer, rest);
    var composed, delivered := InteractiveStep(env, input).events, DeliverStep(env, config, draft, [Line(answer)] + rest).events;
    LogAssoc(composed, delivered, [RemoveTemp(path)]);
  }

  /** What follows a composed draft when delivery is confirmed: the delivery,
      then the removal of the temporary file. */
  lemma FinishConfirmed(env: Env, config: Option<ConfigFile>, d: UserDetails, draft: Draft, path: string,
                        answer: string, rest: seq<ReadResult>)
    requires Holds(env, config, d) && Send.Deliverable(env, d, draft.to)
    requires Send.IsAffirmative(Input.Trim(answer))
    ensures var delivered := DeliverStep(env, config, draft, [Line(answer)] + rest);
      && InteractiveFinish(env, config, Some(draft), Some(path), [Line(answer)] + rest)
           == Step(delivered.events + [RemoveTemp(path)], rest, Some(()))
  {
    DeliverConfirmed(env, config, d, draft, answer, rest);
  }

  /** Interactive composition on two answers, with the temporary file and
      the editor available. */
  lemma InteractiveComposeTrace(env: Env, to: string, subject: string, rest: seq<ReadResult>)
    requires env.tempPath.Some? && Input.EditorName(env.editorVar) in env.launchable && env.editorRun.text.Some?
    ensures var path := env.tempPath.value;
      InteractiveStep(env, [Line(to), Line(subject)] + rest) ==
        Composed([Prompt(RecipientPrompt), Prompt(SubjectPrompt), CreateTemp(path),
                  Launch(Input.EditorName(env.editorVar), path), ReadTemp(path)],
                 rest, Some(Draft(Input.Trim(to), Input.Trim(subject), env.editorRun.text.value)), Some(path))
  {
    var input := [Line(to), Line(subject)] + rest;
    assert input[1..] == [Line(subject)] + rest;
    assert input[1..][1..] == rest;
  }

  /** Delivery when the credentials load, the addresses and the relay are
      usable and the answer confirms: the configuration read, the question,
      one send of the draft with the stored login, and the report. */
  lemma DeliverConfirmed(env: Env, config: Option<ConfigFile>, d: UserDetails, draft: Draft,
                         answer: string, rest: seq<ReadResult>)
    requires Holds(env, config, d) && Send.Deliverable(env, d, draft.to)
    requires Send.IsAffirmative(Input.Trim(answer))
    ensures var s := DeliverStep(env, config, draft, [Line(answer)] + rest);
      && s.events ==
           [ReadFile(ConfigPath(env.configDir.value)), Prompt(Send.ConfirmPrompt),
            SendAttempt(Message(d.email, draft.to, draft.subject, draft.body), d.host, Credentials(d.email, d.password)),
            Send.Report(env.reply)]
      && s.rest == rest && s.out == Some(())
  {
    Send.ConfirmSendsOnce(env, d, draft.to, draft.subject, draft.body, answer, rest);
  }

  /** At most one send attempt per invocation, whatever the inputs. */
  lemma AtMostOneSend(env: Env, args: Args, input: seq<ReadResult>, config: Option<ConfigFile>)
    requires ArgsAccepted(args)
    ensures Sends(RunStep(env, args, input, config).events) <= 1
  {
    var s := RunStep(env, args, input, config);
    if !ConfigFileExists(env, config) {
      GenerateHalts(env, input, AsWritten);
    } else if args.recipient.Some? {
      var c := ExplicitStep(env, args, input);
      ExplicitSendsNone(env, args, input);
      if c.out.Some? {
        DeliverAtMostOnce(env, config, c.out.value, c.rest);
        SendsAppend(c.events, DeliverStep(env, config, c.out.value, c.rest).events);
      }
    } else {
      var c := InteractiveStep(env, input);
      InteractiveSendsNone(env, input);
      var tail := if c.draft.Some? then DeliverStep(env, config, c.draft.value, c.rest) else Halt([], c.rest);
      if c.draft.Some? {
        DeliverAtMostOnce(env, config, c.draft.value, c.rest);
      }
      var cleanup := if c.temp.Some? then [RemoveTemp(c.temp.value)] else [];
      assert s.events == c.events + (tail.events + cleanup);
      SendsAppend(c.events, tail.events + cleanup);
      SendsAppend(tail.events, cleanup);
      assert forall i | 0 <= i < |cleanup| :: !cleanup[i].SendAttempt?;
      SendsNone(cleanup);
    }
  }

  lemma ExplicitSendsNone(env: Env, args: Args, input: seq<ReadResult>)
    requires args.recipient.Some?
    ensures Sends(ExplicitStep(env, args, input).events) == 0
  {
    var s := ExplicitStep(env, args, input);
    assert forall i | 0 <= i < |s.events| :: !s.events[i].SendAttempt?;
    SendsNone(s.events);
  }

  lemma InteractiveSendsNone(env: Env, input: seq<ReadResult>)
    ensures Sends(InteractiveStep(env, input).events) == 0
  {
    var s := InteractiveStep(env, input);
    assert forall i | 0 <= i < |s.events| :: !s.events[i].SendAttempt?;
    SendsNone(s.events);
  }

  lemma DeliverAtMostOnce(env: Env, config: Option<ConfigFile>, draft: Draft, input: seq<ReadResult>)
    ensures Sends(DeliverStep(env, config, draft, input).events) <= 1
  {
    var l := LoadStep(env, config, input);
    assert forall i | 0 <= i < |l.events| :: !l.events[i].SendAttempt?;
    SendsNone(l.events);
    if l.out.Some? {
      Send.SendStepBounds(env, l.out.value, draft.to, draft.subject, draft.body, l.rest);
      SendsAppend(l.events, Send.SendStep(env, l.out.value, draft.to, draft.subject, draft.body, l.rest).events);
    }
  }

  // ---------------------------------------------------------------------
  // The procedure itself

  /** `handle_config`, which src/config.rs does not define: the configuration
      is generated, which ends the process, unless the file exists. */
  method EnsureConfig(w: World) returns (ok: bool)
    modifies w
    ensures ok == ConfigFileExists(w.env, old(w.config))
    ensures ok ==> w.log == old(w.log) && w.input == old(w.input) && w.config == old(w.config)
    ensures !ok ==>
      var g := Generate(w.env, old(w.input), AsWritten);
      && w.log == old(w.log) + g.events && w.input == g.rest
      && w.config == ConfigAfter(w.env, old(w.input), old(w.config))
  {
    ok := ConfigFileExists(w.env, w.config);
    if !ok {
      GenerateConfig(w);
    }
  }

  method ComposeExplicit(w: World, args: Args) returns (draft: Option<Draft>)
    requires args.recipient.Some?
    modifies w
    ensures w.Performed(ExplicitStep(w.env, args, old(w.input)))
    ensures draft == ExplicitStep(w.env, args, old(w.input)).out
  {
    var to := args.recipient.value;
    var subject := args.subject.GetOr("");
    var body: string;
    if args.body.Some? {
      body := args.body.value;
    } else if args.file.Some? {
      var path := args.file.value;
      w.log := w.log + [ReadFile(path)];
      if path !in w.env.files {
        w.log := w.log + [Abort(Expect(FileFailed))];
        return None;
      }
      body := w.env.files[path];
    } else {
      var answer := Input.GetUserInput(w, BodyPrompt);
      if answer.None? {
        return None;
      }
      body := answer.value;
    }
    draft := Some(Draft(to, subject, body));
  }

  method LoadConfig(w: World) returns (details: Option<UserDetails>)
    modifies w
    ensures w.Performed(LoadStep(w.env, w.config, old(w.input)))
    ensures details == LoadStep(w.env, w.config, old(w.input)).out
  {
    if w.env.configDir.None? {
      w.log := w.log + [Abort(UnwrapFailed)];
      return None;
    }
    w.log := w.log + [ReadFile(ConfigPath(w.env.configDir.value))];
    if w.config.None? || w.config.value.Unreadable? {
      w.log := w.log + [Abort(Expect(ConfigReadFailed))];
      return None;
    }
    match w.config.value
    case Unparsable =>
      w.log := w.log + [Abort(Expect(ConfigParseFailed))];
      details := None;
    case Parsed(root) =>
      match FromToml(root)
      case Loaded(d) =>
        details := Some(d);
      case Invalid(msg) =>
        w.log := w.log + [Abort(ExpectErr(DetailsFailed, msg))];
        details := None;
      case KeyMissing(key) =>
        w.log := w.log + [Abort(KeyNotFound(key))];
        details := None;
  }

  method Deliver(w: World, draft: Draft) returns (ok: bool)
    modifies w
    ensures w.Performed(DeliverStep(w.env, w.config, draft, old(w.input)))
    ensures ok == DeliverStep(w.env, w.config, draft, old(w.input)).out.Some?
  {
    ghost var input0, log0 := w.input, w.log;
    var details := LoadConfig(w);
    if details.None? {
      return false;
    }
    ghost var l := LoadStep(w.env, w.config, input0);
    ok := Send.SendEmail(w, details.value, draft.to, draft.subject, draft.body);
    ghost var sent := Send.SendStep(w.env, details.value, draft.to, draft.subject, draft.body, l.rest).events;
    LogAssoc(log0, l.events, sent);
  }

  method EditBody(w: World, path: string) returns (body: Option<string>)
    modifies w
    ensures w.Performed(EditStep(w.env, path, old(w.input)))
    ensures body == EditStep(w.env, path, old(w.input)).out
  {
    var ok := Input.OpenEditor(w, path);
    if !ok {
      return None;
    }
    w.log := w.log + [ReadTemp(path)];
    match w.env.editorRun.text
    case None =>
      w.log := w.log + [Abort(Expect(TempReadFailed))];
      body := None;
    case Some(text) =>
      body := Some(text);
  }

  method ComposeInteractive(w: World) returns (draft: Option<Draft>, temp: Option<string>)
    modifies w
    ensures var c := InteractiveStep(w.env, old(w.input));
      && w.log == old(w.log) + c.events && w.input == c.rest && w.config == old(w.config)
      && draft == c.draft && temp == c.temp
  {
    ghost var input0, log0 := w.input, w.log;
    temp := None;
    var to := Input.GetUserInput(w, RecipientPrompt);
    if to.None? {
      return None, None;
    }
    ghost var t := Input.UserInput(RecipientPrompt, input0);
    var subject := Input.GetUserInput(w, SubjectPrompt);
    ghost var u := Input.UserInput(SubjectPrompt, t.rest);
    LogAssoc(log0, t.events, u.events);
    if subject.None? {
      return None, None;
    }
    if w.env.tempPath.None? {
      w.log := w.log + [Abort(Expect(TempFailed))];
      LogAssoc(log0, t.events + u.events, [Abort(Expect(TempFailed))]);
      return None, None;
    }
    var path := w.env.tempPath.value;
    w.log := w.log + [CreateTemp(path)];
    LogAssoc(log0, t.events + u.events, [CreateTemp(path)]);
    temp := Some(path);
    ghost var front := t.events + u.events + [CreateTemp(path)];
    var body := EditBody(w, path);
    ghost var edited := EditStep(w.env, path, u.rest).events;
    LogAssoc(log0, front, edited);
    if body.None? {
      return None, temp;
    }
    draft := Some(Draft(to.value, subject.value, body.value));
  }

  /** `main`. */
  method Run(w: World, args: Args)
    requires ArgsAccepted(args)
    modifies w
    ensures w.log == old(w.log) + RunStep(w.env, args, old(w.input), old(w.config)).events
    ensures w.input == RunStep(w.env, args, old(w.input), old(w.config)).rest
    ensures w.config == ConfigAfter(w.env, old(w.input), old(w.config))
  {
    var ok := EnsureConfig(w);
    if !ok {
      return;
    }
    if args.recipient.Some? {
      ExplicitMode(w, args);
    } else {
      InteractiveMode(w);
    }
  }

  method ExplicitMode(w: World, args: Args)
    requires args.recipient.Some?
    modifies w
    ensures w.Performed(ExplicitRun(w.env, args, w.config, old(w.input)))
  {
    ghost var input0, log0 := w.input, w.log;
    var draft := ComposeExplicit(w, args);
    ghost var c := ExplicitStep(w.env, args, input0);
    if draft.None? {
      return;
    }
    var ok := Deliver(w, draft.value);
    ghost var delivered := DeliverStep(w.env, w.config, draft.value, c.rest).events;
    LogAssoc(log0, c.events, delivered);
  }

  method InteractiveMode(w: World)
    modifies w
    ensures w.Performed(InteractiveRun(w.env, w.config, old(w.input)))
  {
    ghost var input0, log0 := w.input, w.log;
    var draft, temp := ComposeInteractive(w);
    ghost var c := InteractiveStep(w.env, input0);
    Finish(w, draft, temp);
    ghost var finished := InteractiveFinish(w.env, w.config, c.draft, c.temp, c.rest).events;
    LogAssoc(log0, c.events, finished);
  }

  method Finish(w: World, draft: Option<Draft>, temp: Option<string>)
    modifies w
    ensures w.Performed(InteractiveFinish(w.env, w.config, draft, temp, old(w.input)))
  {
    ghost var input0, log0 := w.input, w.log;
    if draft.Some? {
      var ok := Deliver(w, draft.value);
    }
    ghost var tail := if draft.Some? then DeliverStep(w.env, w.config, draft.value, input0) else Halt([], input0);
    if temp.Some? {
      w.log := w.log + [RemoveTemp(temp.value)];
      LogAssoc(log0, tail.events, [RemoveTemp(temp.value)]);
    }
  }
}
