/** The stored credentials (src/config.rs): the record, the loader that
    validates a TOML value tree, the existence test and the first-run generator. */
module Config {
  import opened Base
  import opened Toml
  import opened Io
  import Input

  /** `UserDetails`: the three stored strings. */
  datatype UserDetails = UserDetails(password: string, email: string, host: string)

  /** What `UserDetails::from_toml` does with a value tree: returns the record,
      returns `Err(msg)`, or panics because an indexed key is absent. */
  datatype Loaded = Loaded(details: UserDetails) | Invalid(msg: string) | KeyMissing(key: string)

  const DetailsKey := "details"
  const PasswordKey := "password"
  const EmailKey := "email"
  const HostKey := "host"

  const BadStructure := "Invalid TOML structure"
  const BadPassword := "Missing or invalid password"
  const BadEmail := "Missing or invalid email"
  const BadHost := "Missing or invalid host"

  /** Whether `t[key]` holds a string. */
  predicate HasString(t: map<string, Value>, key: string)
  {
    key in t && t[key].Str?
  }

  /** The shape the loader accepts, stated on its own: a root table whose
      `details` entry is a table with string `password`, `email` and `host`. */
  predicate WellFormed(root: Value)
  {
    && root.Table? && DetailsKey in root.entries
    && root.entries[DetailsKey].Table?
    && var t := root.entries[DetailsKey].entries;
       HasString(t, PasswordKey) && HasString(t, EmailKey) && HasString(t, HostKey)
  }

  /** `UserDetails::from_toml`. `toml["details"]` and `table[key]` panic on an
      absent key (and indexing a non-table root finds nothing); `.as_table()`
      and `.as_str()` turn a value of the wrong kind into an `Err`. The three
      fields are looked at in the order password, email, host, and the first
      failure ends the search. */
  function FromToml(root: Value): (r: Loaded)
    ensures r.Loaded? <==> WellFormed(root)
    ensures r.Loaded? ==>
      var t := root.entries[DetailsKey].entries;
      r.details == UserDetails(t[PasswordKey].text, t[EmailKey].text, t[HostKey].text)
  {
    if !(root.Table? && DetailsKey in root.entries) then KeyMissing(DetailsKey)
    else
      var details := root.entries[DetailsKey];
      if !details.Table? then Invalid(BadStructure)
      else
        var t := details.entries;
        if PasswordKey !in t then KeyMissing(PasswordKey)
        else if !t[PasswordKey].Str? then Invalid(BadPassword)
        else if EmailKey !in t then KeyMissing(EmailKey)
        else if !t[EmailKey].Str? then Invalid(BadEmail)
        else if HostKey !in t then KeyMissing(HostKey)
        else if !t[HostKey].Str? then Invalid(BadHost)
        else Loaded(UserDetails(t[PasswordKey].text, t[EmailKey].text, t[HostKey].text))
  }

  /** A `details` entry that is present but not a table gives the structure
      error, whatever else the tree holds. */
  lemma DetailsNotTable(root: Value)
    requires root.Table? && DetailsKey in root.entries && !root.entries[DetailsKey].Table?
    ensures FromToml(root) == Invalid(BadStructure)
  {
  }

  /** The first field that is present but not a string decides the error, in
      the order password, email, host; fields after it are never looked at,
      so they may even be absent. */
  lemma FirstBadFieldDecides(root: Value)
    requires root.Table? && DetailsKey in root.entries && root.entries[DetailsKey].Table?
    ensures var t := root.entries[DetailsKey].entries;
      && (PasswordKey in t && !t[PasswordKey].Str? ==> FromToml(root) == Invalid(BadPassword))
      && (HasString(t, PasswordKey) && EmailKey in t && !t[EmailKey].Str? ==> FromToml(root) == Invalid(BadEmail))
      && (HasString(t, PasswordKey) && HasString(t, EmailKey) && HostKey in t && !t[HostKey].Str? ==>
            FromToml(root) == Invalid(BadHost))
  {
  }

  /** An absent key panics rather than returning an error: no `Err` of the
      loader ever reports a missing key. */
  lemma MissingKeyPanics(root: Value)
    ensures !(root.Table? && DetailsKey in root.entries) ==> FromToml(root) == KeyMissing(DetailsKey)
    ensures root.Table? && DetailsKey in root.entries && root.entries[DetailsKey].Table? ==>
      var t := root.entries[DetailsKey].entries;
      && (PasswordKey !in t ==> FromToml(root) == KeyMissing(PasswordKey))
      && (HasString(t, PasswordKey) && EmailKey !in t ==> FromToml(root) == KeyMissing(EmailKey))
      && (HasString(t, PasswordKey) && HasString(t, EmailKey) && HostKey !in t ==>
            FromToml(root) == KeyMissing(HostKey))
    ensures FromToml(root).Invalid? ==>
      FromToml(root).msg in {BadStructure, BadPassword, BadEmail, BadHost}
  {
  }

  /** Keys of the root other than `details` do not matter. */
  lemma ExtraRootKeysIgnored(m: map<string, Value>, key: string, v: Value)
    requires key != DetailsKey
    ensures FromToml(Table(m[key := v])) == FromToml(Table(m))
  {
    assert (DetailsKey in m[key := v]) == (DetailsKey in m);
    if DetailsKey in m {
      assert m[key := v][DetailsKey] == m[DetailsKey];
    }
  }

  /** Keys of the `details` table other than the three fields do not matter. */
  lemma ExtraDetailKeysIgnored(m: map<string, Value>, t: map<string, Value>, key: string, v: Value)
    requires key !in {PasswordKey, EmailKey, HostKey}
    ensures FromToml(Table(m[DetailsKey := Table(t[key := v])])) == FromToml(Table(m[DetailsKey := Table(t)]))
  {
    var t' := t[key := v];
    assert forall k | k in {PasswordKey, EmailKey, HostKey} :: (k in t' <==> k in t) && (k in t ==> t'[k] == t[k]);
  }

  /** `config_file_exists`: the configuration directory is known and something
      is at the path. `Path::exists` does not ask whether it can be read, so
      an unreadable entry counts as existing. */
  function ConfigFileExists(env: Env, config: Option<ConfigFile>): (b: bool)
    ensures env.configDir.None? ==> !b
    ensures config.None? ==> !b
    ensures env.configDir.Some? && config.Some? ==> b
    ensures config == Some(Unreadable) ==> (b <==> env.configDir.Some?)
  {
    env.configDir.Some? && config.Some?
  }

  /** The fixed location of the file inside a configuration directory. */
  function ConfigPath(dir: string): (path: string)
    ensures |dir| < |path| && path[..|dir|] == dir && path[|dir|..] == "/emu/config.toml"
  {
    dir + "/emu/config.toml"
  }

  /** The `details` table of a record: its three fields as strings. */
  function DetailsTable(d: UserDetails): map<string, Value>
  {
    map[PasswordKey := Str(d.password), EmailKey := Str(d.email), HostKey := Str(d.host)]
  }

  /** The TOML text `toml::to_string` gives a record (string escaping is not
      modelled; only the fact that it is a string matters below). */
  function DetailsText(d: UserDetails): string
  {
    "password = \"" + d.password + "\"\nemail = \"" + d.email + "\"\nhost = \"" + d.host + "\"\n"
  }

  /** The tree `generate_config` writes, as the source has it: `details` holds
      the record serialised to a TOML string. */
  function WrittenShape(d: UserDetails): Value
  {
    Table(map[DetailsKey := Str(DetailsText(d))])
  }

  /** The written shape cannot be loaded: for every record, the loader rejects
      it with the structure error. */
  lemma WrittenShapeDoesNotLoad(d: UserDetails)
    ensures FromToml(WrittenShape(d)) == Invalid(BadStructure)
  {
  }

  /** The shape the loader expects: `details` holds the record as a table.
      This is what the generator was evidently meant to write. */
  function IntendedShape(d: UserDetails): (v: Value)
    ensures WellFormed(v)
  {
    Table(map[DetailsKey := Table(DetailsTable(d))])
  }

  /** Generating and loading round-trip on the intended shape. */
  lemma IntendedShapeRoundTrips(d: UserDetails)
    ensures FromToml(IntendedShape(d)) == Loaded(d)
  {
  }

  /** Which tree the generator stores: the one the source builds, or the
      corrected one. */
  datatype Layout = AsWritten | Corrected

  /** The tree stored for record `d` under a layout. */
  function StoredTree(layout: Layout, d: UserDetails): Value
  {
    match layout
    case AsWritten => WrittenShape(d)
    case Corrected => IntendedShape(d)
  }

  /** Under the source's layout the stored tree never loads; under the
      corrected one it loads back as the record. */
  lemma StoredTreeLoads(layout: Layout, d: UserDetails)
    ensures layout == AsWritten ==> FromToml(StoredTree(layout, d)) == Invalid(BadStructure)
    ensures layout == Corrected ==> FromToml(StoredTree(layout, d)) == Loaded(d)
  {
    if layout == AsWritten {
      WrittenShapeDoesNotLoad(d);
    } else {
      IntendedShapeRoundTrips(d);
    }
  }

  /** What the generator does: its events, the script it leaves, and the
      tree it stores (`None` when nothing was written). */
  datatype Generated = Generated(events: seq<Event>, rest: seq<ReadResult>, written: Option<Value>)

  const PasswordPrompt := "Enter your email password:"
  const EmailPrompt := "Enter your email address:"
  const HostPrompt := "Enter your email host (e.g., smtp.gmail.com):"
  const CreateFailed := "Failed to create config file"
  const GeneratedLine := "Config file generated successfully!"
  const RerunLine := "Re-run emu to send an email"

  /** `write_config_file` on the tree `root`, followed by the two messages and
      `exit(0)`. */
  function WriteStep(env: Env, root: Value): (seq<Event>, Option<Value>)
  {
    match env.configDir
    case None => ([Abort(UnwrapFailed)], None)
    case Some(dir) =>
      if !env.appDirExists then ([Abort(Expect(CreateFailed))], None)
      else ([WriteFile(ConfigPath(dir)), Print(GeneratedLine), Print(RerunLine), Exit(0)], Some(root))
  }

  /** `generate_config`: ask for the password, then the address, then the host;
      write the record's tree under `layout`; report and exit. The program
      itself is `Generate(env, input, AsWritten)`. */
  function Generate(env: Env, input: seq<ReadResult>, layout: Layout): (g: Generated)
  {
    var p := Input.UserInput(PasswordPrompt, input);
    if p.out.None? then Generated(p.events, p.rest, None)
    else
      var e := Input.UserInput(EmailPrompt, p.rest);
      if e.out.None? then Generated(p.events + e.events, e.rest, None)
      else
        var h := Input.UserInput(HostPrompt, e.rest);
        if h.out.None? then Generated(p.events + e.events + h.events, h.rest, None)
        else
          var (w, written) := WriteStep(env, StoredTree(layout, UserDetails(p.out.value, e.out.value, h.out.value)));
          Generated(p.events + e.events + h.events + w, h.rest, written)
  }

  /** The generator asks in the order password, address, host, consumes one
      line per question, and stores the tree of the three trimmed answers. As
      the source builds that tree, the next load rejects it with the structure
      error; under the corrected layout it loads back unchanged. It never lets
      the run continue: its last event is `exit(0)` or a panic. */
  lemma GenerateAsksInOrder(env: Env, a: string, b: string, c: string, rest: seq<ReadResult>, layout: Layout)
    ensures var g := Generate(env, [Line(a), Line(b), Line(c)] + rest, layout);
      var d := UserDetails(Input.Trim(a), Input.Trim(b), Input.Trim(c));
      && g.events[..3] == [Prompt(PasswordPrompt), Prompt(EmailPrompt), Prompt(HostPrompt)]
      && g.rest == rest
      && g.events[|g.events| - 1] in {Exit(0), Abort(UnwrapFailed), Abort(Expect(CreateFailed))}
      && (g.written.Some? <==> env.configDir.Some? && env.appDirExists)
      && (g.written.Some? ==> g.written.value == StoredTree(layout, d))
      && (g.written.Some? && layout == AsWritten ==> FromToml(g.written.value) == Invalid(BadStructure))
      && (g.written.Some? && layout == Corrected ==> FromToml(g.written.value) == Loaded(d))
  {
    var input := [Line(a), Line(b), Line(c)] + rest;
    assert input[1..] == [Line(b), Line(c)] + rest;
    assert input[1..][1..] == [Line(c)] + rest;
    assert input[1..][1..][1..] == rest;
    var d := UserDetails(Input.Trim(a), Input.Trim(b), Input.Trim(c));
    var (w, written) := WriteStep(env, StoredTree(layout, d));
    assert Generate(env, input, layout) ==
      Generated([Prompt(PasswordPrompt), Prompt(EmailPrompt), Prompt(HostPrompt)] + w, rest, written);
    StoredTreeLoads(layout, d);
  }

  /** Writing the file ends the process: with `exit(0)` after the two
      messages, or with a panic; nothing is sent. */
  lemma WriteStepHalts(env: Env, root: Value)
    ensures var w := WriteStep(env, root).0;
      && |w| > 0 && (w[|w| - 1].Exit? || w[|w| - 1].Abort?)
      && forall i | 0 <= i < |w| :: !w[i].SendAttempt?
  {
  }

  /** The generator never lets the run continue: its last event is `exit(0)`
      or a panic, and it makes no send attempt. */
  lemma GenerateHalts(env: Env, input: seq<ReadResult>, layout: Layout)
    ensures var g := Generate(env, input, layout);
      && |g.events| > 0 && (g.events[|g.events| - 1].Exit? || g.events[|g.events| - 1].Abort?)
      && Sends(g.events) == 0
  {
    var g := Generate(env, input, layout);
    var p := Input.UserInput(PasswordPrompt, input);
    var e := Input.UserInput(EmailPrompt, p.rest);
    var h := Input.UserInput(HostPrompt, e.rest);
    var failed := Abort(Expect(Input.ReadInputFailed));
    if p.out.None? {
      assert g.events == [Prompt(PasswordPrompt), failed];
    } else if e.out.None? {
      assert g.events == [Prompt(PasswordPrompt), Prompt(EmailPrompt), failed];
    } else if h.out.None? {
      assert g.events == [Prompt(PasswordPrompt), Prompt(EmailPrompt), Prompt(HostPrompt), failed];
    } else {
      var root := StoredTree(layout, UserDetails(p.out.value, e.out.value, h.out.value));
      var w := WriteStep(env, root).0;
      WriteStepHalts(env, root);
      assert g.events == [Prompt(PasswordPrompt), Prompt(EmailPrompt), Prompt(HostPrompt)] + w;
    }
    assert forall i | 0 <= i < |g.events| :: !g.events[i].SendAttempt?;
    SendsNone(g.events);
  }

  /** The generator as the source has it: `details` is inserted as the
      string the record serialises to. */
  method GenerateConfig(w: World)
    modifies w
    ensures var g := Generate(w.env, old(w.input), AsWritten);
      && w.log == old(w.log) + g.events && w.input == g.rest
      && w.config == if g.written.Some? then Some(Parsed(g.written.value)) else old(w.config)
  {
    ghost var input0, log0 := w.input, w.log;
    var password := Input.GetUserInput(w, PasswordPrompt);
    if password.None? { return; }
    ghost var p := Input.UserInput(PasswordPrompt, input0);
    var email := Input.GetUserInput(w, EmailPrompt);
    ghost var e := Input.UserInput(EmailPrompt, p.rest);
    LogAssoc(log0, p.events, e.events);
    if email.None? { return; }
    var host := Input.GetUserInput(w, HostPrompt);
    ghost var h := Input.UserInput(HostPrompt, e.rest);
    LogAssoc(log0, p.events + e.events, h.events);
    if host.None? { return; }
    var details := UserDetails(password.value, email.value, host.value);
    var table: map<string, Value> := map[];
    table := table[DetailsKey := Str(DetailsText(details))];
    assert Table(table) == WrittenShape(details);
    WriteAndExit(w, Table(table));
    ghost var front := p.events + e.events + h.events;
    LogAssoc(log0, front, WriteStep(w.env, Table(table)).0);
  }

  /** `write_config_file` on the tree `root`, then the two messages and
      `exit(0)`. */
  method WriteAndExit(w: World, root: Value)
    modifies w
    ensures w.log == old(w.log) + WriteStep(w.env, root).0 && w.input == old(w.input)
    ensures w.config == if WriteStep(w.env, root).1.Some? then Some(Parsed(root)) else old(w.config)
  {
    if w.env.configDir.None? {
      w.log := w.log + [Abort(UnwrapFailed)];
      return;
    }
    if !w.env.appDirExists {
      w.log := w.log + [Abort(Expect(CreateFailed))];
      return;
    }
    w.log := w.log + [WriteFile(ConfigPath(w.env.configDir.value))];
    w.config := Some(Parsed(root));
    w.log := w.log + [Print(GeneratedLine), Print(RerunLine), Exit(0)];
  }
}
