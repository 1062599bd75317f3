# emu — a model of the command-line mail sender

`emu` sends one e-mail per invocation. On the first run, when no configuration
file exists, it asks for the account password, the sender address and the SMTP
host, writes them to `<config dir>/emu/config.toml`, and exits. Later runs have
two modes:

- **Explicit mode** (`--recipient` given). It takes the subject from
  `--subject` ("" when absent). The body is the `--body` text, else the contents
  of the `--file` path, else one prompt answer.
- **Interactive mode**. It asks for the recipient and the subject, opens
  `$EDITOR` (default `nano`) on a fresh temporary file, and takes the file's
  contents as the body.

In both modes the stored credentials are loaded after the message is composed.
`send_email` then builds the message, asks "Send the mail? (Y/n)" once, and on
confirmation makes one SMTP attempt whose outcome is only printed.

The model replaces the operating system with injected values (module `Io`):

- `Env` holds the fixed surroundings: the configuration directory, the readable
  files, `EDITOR`, what the editor leaves in the temporary file, which strings
  parse as mailboxes, which hosts give a usable relay, and the relay's reply.
- The console is a script of `ReadResult`s. At the end of the script,
  `read_line` yields an empty line.
- The configuration file is the TOML value tree its text parses to (module
  `Toml`), or `Unparsable`, or `Unreadable`: something exists at the path but
  cannot be read as text.
- Everything observable is appended to an event log: prompts, file reads and
  writes, the editor launch, temporary-file creation and removal, send attempts,
  printed lines, panics and `exit`.

Each effectful procedure has two parts:

- A pure *step function* gives the meaning: the events logged, the script left
  unread, and the result, which is `None` when the process ended by a panic or
  `exit`.
- A *method* over the `World` object changes the log, the script position and
  the configuration file step by step. Its postcondition ties the new state to
  the step function.

The properties are proved as lemmas about the step functions.

Modules follow the source files:

- `Input` covers `src/input.rs`.
- `Config` covers `src/config.rs`.
- `Send` covers `src/email/send.rs`.
- `Emu` covers `src/main.rs`.
- `Base`, `Toml` and `Io` hold the shared definitions.

The model keeps to what the code does, including where that is narrower
than one might expect:

- Only `""`, `y` and `Y` confirm, so `yes` declines.
- The loader expects the three fields nested under a `details` table. The
  generator, as written, stores `details` as a string. So a configuration the
  program generated never loads (see "## Findings"). `Config.Generate` takes a
  `Layout`: the program itself is `AsWritten`, and `Corrected` is the tree the
  loader accepts.
- `config_file_exists` only asks whether something is at the path. An
  unreadable entry there (a directory, say) passes the check, and the run
  panics later, when it reads the file.
- The configuration directory is not created: if `<config dir>/emu` is missing,
  creating the file panics.
- A missing key makes `from_toml` panic on indexing. It does not produce a
  field-specific error.
- `main` calls `handle_config()`, which `src/config.rs` does not define. The
  model gives it the evident meaning: `config_file_exists()`, and when that is
  false, `generate_config()`, which never returns (`Emu.EnsureConfig`).

## Model

| member | source | states |
|---|---|---|
| Input.Trim | src/input.rs:10 | the meaning of `str::trim`, as `trim_end` after `trim_start`; its properties are the lemmas below |
| Input.TrimStartSuffix | src/input.rs:10 | `trim_start` keeps a suffix of the line, drops only whitespace, and the kept part does not start with whitespace |
| Input.TrimEndPrefix | src/input.rs:10 | `trim_end` keeps a prefix of the line, drops only whitespace, and the kept part does not end with whitespace |
| Input.TrimSlice | src/input.rs:10 | a trimmed answer is a contiguous slice of the raw line with its interior unchanged; only whitespace lies outside it, and it neither starts nor ends with whitespace |
| Input.TrimEmptyIff | src/input.rs:10 | trimming yields "" exactly when the line is all whitespace (a bare newline included) |
| Input.TrimCharacterized | src/input.rs:10 | any slice bounded by whitespace outside and non-whitespace inside is the trimmed answer (independent characterisation, uniqueness) |
| Input.TrimIdempotent | src/input.rs:10 | trimming an answer again changes nothing |
| Input.UserInput | src/input.rs:4-11 | prints the prompt first, consumes exactly one line, answers that line trimmed; a read error panics with "Failed to read input" after the prompt |
| Input.GetUserInput | src/input.rs:4-11 | the console procedure logs, consumes and answers exactly as `UserInput` says, and leaves the configuration alone |
| Input.EditorName | src/input.rs:14 | the editor is the `EDITOR` value when set, else `nano` |
| Input.OpenEditorStep | src/input.rs:13-19 | the editor is launched on the given path; the run continues exactly when it can be spawned, and otherwise panics |
| Input.EditorStatusIgnored | src/input.rs:17-18 | the editor's exit status never changes what happens |
| Input.OpenEditor | src/input.rs:13-19 | the launch procedure performs exactly `OpenEditorStep` |
| Config.FromToml | src/config.rs:15-34 | `Loaded` exactly when `details` is a table whose `password`, `email` and `host` are strings (the independent `WellFormed`), and then the record holds exactly those strings; never a partial record |
| Config.DetailsNotTable | src/config.rs:16 | a present `details` that is not a table gives `Err("Invalid TOML structure")` whatever its fields |
| Config.FirstBadFieldDecides | src/config.rs:17-28 | fields are checked in order password, email, host, and the first non-string one decides the error message |
| Config.MissingKeyPanics | src/config.rs:16-25 | an absent `details`, `password`, `email` or `host` is a panic on indexing, distinct from `Err`; every `Err` carries one of the four fixed messages |
| Config.ExtraRootKeysIgnored | src/config.rs:16 | root keys other than `details` do not affect the result |
| Config.ExtraDetailKeysIgnored | src/config.rs:17-28 | keys of `details` other than the three fields do not affect the result |
| Config.ConfigFileExists | src/config.rs:37-45 | the file counts as existing exactly when the configuration directory is known and something is at the path, readable or not |
| Config.ConfigPath | src/main.rs:38 | the path is the configuration directory followed by `/emu/config.toml` |
| Config.WrittenShape | src/config.rs:60-68 | the tree `generate_config` builds: a root table whose `details` entry is the record serialised to a string |
| Config.WrittenShapeDoesNotLoad | src/config.rs:60-68 | the tree as the source writes it (`details` a string) is rejected by the loader with "Invalid TOML structure", for every record |
| Config.IntendedShape | src/config.rs:64-65 | the corrected stored tree always has the shape the loader accepts |
| Config.IntendedShapeRoundTrips | src/config.rs:15-34 | loading the corrected stored tree gives back exactly the record that was stored |
| Config.StoredTreeLoads | src/config.rs:60-68 | the source's stored tree is rejected with "Invalid TOML structure" for every record; the corrected one loads back as the record |
| Config.Generate | src/config.rs:47-74 | the meaning of `generate_config`: three prompts, then the write of the record's tree, the two messages and `exit(0)`; a read error ends it at its prompt |
| Config.WriteStep | src/config.rs:69-89 | the meaning of `write_config_file` and what follows it: a panic when the directory is unknown or missing, otherwise the file holds the tree, then the two messages and `exit(0)` |
| Config.GenerateAsksInOrder | src/config.rs:47-74 | the generator asks for password, then address, then host, one line each. It stores the tree of the three trimmed answers, exactly when the directory is known and present. As written, that tree is rejected with "Invalid TOML structure"; under the corrected layout it loads back unchanged. It ends with `exit(0)` or a panic |
| Config.GenerateHalts | src/config.rs:47-74 | on every script the generator's last event is `exit` or a panic, and it sends nothing |
| Config.WriteStepHalts | src/config.rs:69-89 | writing the file ends the process, with `exit(0)` after the two messages or with a panic, and sends nothing |
| Config.GenerateConfig | src/config.rs:47-74 | the generator procedure logs, consumes and stores what `Generate(…, AsWritten)` describes. It asks three prompts, inserts `details` as the serialised string into a fresh table, writes, prints two messages and exits |
| Config.WriteAndExit | src/config.rs:69-89 | `write_config_file` on any tree: it panics when the directory is unknown or the file cannot be created; otherwise it stores the tree, then prints the two messages and exits |
| Send.ToLowerEach | src/email/send.rs:19 | lower-casing keeps the length and maps each character on its own |
| Send.IsAffirmative | src/email/send.rs:19 | the confirmation test: the answer lower-cases to `y`, or is empty; characterised by the two lemmas below |
| Send.AffirmativeExactly | src/email/send.rs:19 | the confirmation is affirmative exactly for "", "y" and "Y" |
| Send.ConfirmsRawLine | src/email/send.rs:18-19 | on the raw line: an all-whitespace line (a bare newline included) confirms, and so does `y`/`Y` with any surrounding whitespace; nothing else does |
| Send.ConfirmationExamples | src/email/send.rs:19 | "yes" in any case, "n", "no" and "x" decline; "", "y" and "Y" confirm |
| Send.Report | src/email/send.rs:33-37 | an accepted send prints "Email sent successfully!"; a rejected one prints the error on standard error |
| Send.BadAddressAbortsBeforePrompt | src/email/send.rs:11-16 | a bad sender or recipient address panics while the message is built, before anything is asked or sent |
| Send.DeclineNeverSends | src/email/send.rs:36-40 | a decline prints "Email not sent.", makes no send attempt, never consults the relay, and returns normally |
| Send.ConfirmSendsOnce | src/email/send.rs:11-37 | a confirmation gives exactly the question, one attempt and the report. The attempt's from is the stored address, to is the given recipient, subject and body are verbatim, the login is (email, password), and the relay is the stored host. The call returns normally |
| Send.SendStep | src/email/send.rs:6-41 | the meaning of `send_email`: build the message (a bad address panics), ask once, then either "Email not sent." or one attempt and its report; its properties are the lemmas around it |
| Send.SendStepBounds | src/email/send.rs:6-41 | at most one send attempt on every input; with valid addresses the confirmation question comes first and is the only question asked |
| Send.SendEmail | src/email/send.rs:6-41 | the send procedure performs exactly `SendStep` |
| Emu.BodySourceOf | src/main.rs:29-36 | body precedence: the literal body if given (even if a file is named); else the file if given; else a prompt |
| Emu.ExplicitStep | src/main.rs:23-36 | explicit mode: the recipient as given, the subject or ""; a literal body reads nothing and asks nothing; a file is read once and its contents taken whole, and an unreadable file panics with "Failed to read file"; otherwise one prompt gives the body |
| Emu.LoadStep | src/main.rs:38-43 | credentials load exactly when the directory is known, the file exists, it parses, and `from_toml` accepts it; the result is `from_toml`'s record; console input is untouched |
| Emu.DeliverStep | src/main.rs:38-46 | the meaning of loading the credentials and calling `send_email` with the composed fields unchanged |
| Emu.InteractiveStep | src/main.rs:48-61 | the meaning of interactive composition: recipient, subject, temporary file, editor, read-back |
| Emu.InteractiveFinish | src/main.rs:52-77 | the meaning of what follows interactive composition: delivery if a draft exists, then the removal of the temporary file once it exists |
| Emu.InteractiveRun | src/main.rs:47-77 | the meaning of the interactive branch: composition, then what follows it |
| Emu.ExplicitRun | src/main.rs:22-46 | the meaning of the explicit branch: composition, then delivery |
| Emu.RunStep | src/main.rs:17-79 | the meaning of one invocation: the generator on a first run, else the branch the recipient flag selects |
| Emu.ConfigAfter | src/main.rs:18 | the configuration after one invocation: only a first run that reaches the write changes it, to the source's tree |
| Emu.EditStep | src/main.rs:55-61 | the body is the editor's text read back whole, untrimmed; it fails when the editor cannot be spawned or the text cannot be read |
| Emu.FirstRunOnlyGenerates | src/main.rs:18 | with no configuration, a run does only what the generator does, sends nothing and ends. It stores the source's tree, so the next load of the credentials panics with "Error creating UserDetails from TOML" and "Invalid TOML structure" |
| Emu.CorrectedGeneratorLoadsBack | src/main.rs:38-43 | with the corrected layout, the next load gives exactly the three trimmed answers |
| Emu.UnreadableConfigPanicsAfterComposing | src/main.rs:38-43 | an unreadable entry at the path passes the existence check; loading then panics with "Error reading TOML config file", and an explicit run with a literal body does only that |
| Emu.InteractiveIgnoresFlags | src/main.rs:47-77 | without a recipient, `--subject`, `--body` and `--file` never change the run |
| Emu.InteractiveDraftFields | src/main.rs:48-61 | interactive mode asks for the recipient, then the subject, takes both trimmed, and takes the editor's text as the body |
| Emu.ExplicitLiteralBodyRun | src/main.rs:22-46 | the whole explicit trace with a literal body: the configuration read (after composition), the question, one send of exactly the given recipient, the subject or "" and the body, and the report |
| Emu.CompositionFailureEndsRun | src/main.rs:31-61 | when composing fails, neither the configuration is read nor anything sent; interactive mode then only removes its temporary file |
| Emu.InteractiveRunTrace | src/main.rs:47-77 | the interactive trace in order: two prompts, a temporary file, the editor, the read-back, the configuration read, the confirmation, one send of the editor's text verbatim, the report, and the temporary file's removal last |
| Emu.InteractiveComposeTrace | src/main.rs:48-61 | on two answers with a temporary file and an editor available, interactive composition gives the two prompts, the file, the launch and the read-back, in that order |
| Emu.DeliverConfirmed | src/main.rs:64-77 | with a stored record and a confirming answer, delivery reads the configuration, asks, sends the composed fields once with the stored login, and reports |
| Emu.FinishConfirmed | src/main.rs:52-77 | after a confirmed delivery the temporary file is removed, and nothing else follows |
| Emu.DeliverAtMostOnce | src/main.rs:38-46 | loading the credentials and then sending makes at most one send attempt |
| Emu.AtMostOneSend | src/main.rs:17-79 | every invocation makes at most one send attempt, on every input |
| Emu.EnsureConfig | src/main.rs:18 | with a configuration, nothing happens; without one, exactly the generator as written runs and stores the source's tree |
| Emu.ComposeExplicit | src/main.rs:23-36 | the explicit composition procedure performs exactly `ExplicitStep` |
| Emu.LoadConfig | src/main.rs:38-43 | the credential loading procedure performs exactly `LoadStep` |
| Emu.Deliver | src/main.rs:38-46 | loading then `send_email` performs exactly `DeliverStep` |
| Emu.EditBody | src/main.rs:55-61 | the editor session performs exactly `EditStep` |
| Emu.ComposeInteractive | src/main.rs:48-61 | the interactive composition procedure performs exactly `InteractiveStep` and reports the temporary file it holds |
| Emu.ExplicitMode | src/main.rs:22-46 | the explicit branch performs exactly `ExplicitRun` |
| Emu.InteractiveMode | src/main.rs:47-77 | the interactive branch performs exactly `InteractiveRun` |
| Emu.Finish | src/main.rs:52-77 | after composition: delivery if a draft exists, then the removal of the temporary file if one was created, exactly as `InteractiveFinish` says |
| Emu.Run | src/main.rs:17-79 | one invocation logs and consumes what `RunStep` describes, and changes the configuration only on a first run, to the source's tree |

## Left out

- The TOML text format. Parsing, serialisation and string escaping are not
  modelled; a configuration file is the value tree it parses to, or
  `Unparsable`.
- Mailbox syntax. Which strings `parse()` accepts as addresses is the injected
  predicate `isMailbox`.
- SMTP, TLS and authentication. Whether `SmtpTransport::relay` succeeds is the
  injected predicate `relayUsable`, and a send attempt's outcome is the injected
  `reply`.
- Command-line parsing. Help and version output and clap's own error exits are
  not modelled. Its `conflicts_with` rule in `src/app.rs` becomes the
  precondition `ArgsAccepted`.
- In the model, the arguments are given before `handle_config` runs. The source
  parses them after it; on a first run they are never used.
- `write_all` failing after the configuration file was created ("Failed to write
  to config file") is not modelled. Creating the file fails only when the
  directory is missing or unknown.
- The `to_str().unwrap()` of the temporary file's path is not modelled: paths
  are strings.
- The editor's side effects beyond the text it leaves in the temporary file are
  not modelled. This includes saving by renaming the file.
- Process exit codes of panics are not modelled. Panics are `Abort` events.
- Send.ToLower and Send.ToLowerEach: lower-case ASCII letters only, where the
  source uses Unicode `to_lowercase`. `ToLowerEach`'s length preservation does
  not hold for Unicode lower-casing ('İ' becomes two characters). The
  confirmation test is still exact, because no other character lower-cases to
  `y` and lower-casing never shortens a string.
- The two `toml::to_string(…).expect(…)` calls in `generate_config` are not
  modelled as failing: a table of strings always serialises.
- Emu.InteractiveFinish: the temporary file's removal is logged after a panic in
  the interactive branch too (unwinding drops the handle); a process killed
  without unwinding is not modelled.

## Findings

| source | as written | input that shows it | evidently intended | confidence | as-written member | corrected member |
|---|---|---|---|---|---|---|
| src/config.rs:60-68 | `generate_config` stores `details` as a string holding the record's serialised TOML | any first run: after answering the three prompts, the next run's `from_toml` fails with "Invalid TOML structure" | `details` stored as a table of the three strings, which `from_toml` (src/config.rs:16) accepts and loads back; this is the `Corrected` layout of `Config.Generate` | not executed | Config.WrittenShapeDoesNotLoad | Config.IntendedShapeRoundTrips |
