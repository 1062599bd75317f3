/** Console input and the editor launch (src/input.rs). */
module Input {
  import opened Base
  import opened Io

  /** `char::is_whitespace`: the characters with Unicode's White_Space property. */
  predicate IsWhitespace(c: char)
  {
    || ('\t' <= c <= '\r')
    || c == ' ' || c == '\U{0085}' || c == '\U{00A0}' || c == '\U{1680}'
    || ('\U{2000}' <= c <= '\U{200A}')
    || c == '\U{2028}' || c == '\U{2029}' || c == '\U{202F}' || c == '\U{205F}' || c == '\U{3000}'
  }

  predicate AllWhitespace(s: string)
  {
    forall i | 0 <= i < |s| :: IsWhitespace(s[i])
  }

  /** `str::trim_start`: drop the leading whitespace. */
  function TrimStart(s: string): (r: string)
    ensures |r| <= |s|
  {
    if s != [] && IsWhitespace(s[0]) then TrimStart(s[1..]) else s
  }

  /** `str::trim_end`: drop the trailing whitespace. */
  function TrimEnd(s: string): (r: string)
    ensures |r| <= |s|
  {
    if s != [] && IsWhitespace(s[|s| - 1]) then TrimEnd(s[..|s| - 1]) else s
  }

  /** `TrimStart` leaves a suffix that starts with non-whitespace, and what
      it drops is whitespace. */
  lemma {:induction false} TrimStartSuffix(s: string)
    ensures |TrimStart(s)| <= |s| && TrimStart(s) == s[|s| - |TrimStart(s)|..]
    ensures AllWhitespace(s[..|s| - |TrimStart(s)|])
    ensures TrimStart(s) == [] || !IsWhitespace(TrimStart(s)[0])
  {
    if s != [] && IsWhitespace(s[0]) {
      TrimStartSuffix(s[1..]);
      var n := |s| - |TrimStart(s)|;
      assert s[..n] == [s[0]] + s[1..][..n - 1];
    }
  }

  /** `TrimEnd` leaves a prefix that ends with non-whitespace, and what it
      drops is whitespace. */
  lemma {:induction false} TrimEndPrefix(s: string)
    ensures |TrimEnd(s)| <= |s| && TrimEnd(s) == s[..|TrimEnd(s)|]
    ensures AllWhitespace(s[|TrimEnd(s)|..])
    ensures TrimEnd(s) == [] || !IsWhitespace(TrimEnd(s)[|TrimEnd(s)| - 1])
  {
    if s != [] && IsWhitespace(s[|s| - 1]) {
      var p := s[..|s| - 1];
      TrimEndPrefix(p);
      var n := |TrimEnd(s)|;
      assert s[n..] == p[n..] + [s[|s| - 1]];
      assert p[..n] == s[..n];
    }
  }

  /** How many characters `Trim` drops at the front. */
  function Leading(s: string): nat
  {
    |s| - |TrimStart(s)|
  }

  /** `str::trim`: drop the leading and the trailing whitespace. */
  function Trim(s: string): string
  {
    TrimEnd(TrimStart(s))
  }

  /** `Trim` returns the slice of `s` between its leading and its trailing
      whitespace, with everything in between untouched; the slice neither
      starts nor ends with whitespace. */
  lemma TrimSlice(s: string)
    ensures Leading(s) + |Trim(s)| <= |s|
    ensures Trim(s) == s[Leading(s)..Leading(s) + |Trim(s)|]
    ensures AllWhitespace(s[..Leading(s)]) && AllWhitespace(s[Leading(s) + |Trim(s)|..])
    ensures Trim(s) == [] || (!IsWhitespace(Trim(s)[0]) && !IsWhitespace(Trim(s)[|Trim(s)| - 1]))
  {
    var t := TrimStart(s);
    var r := TrimEnd(t);
    TrimStartSuffix(s);
    TrimEndPrefix(t);
    assert s[Leading(s)..][..|r|] == s[Leading(s)..Leading(s) + |r|];
    assert s[Leading(s) + |r|..] == t[|r|..];
  }

  /** A character before the end of an all-whitespace prefix is whitespace. */
  lemma InWhitespacePrefix(s: string, a: nat, b: nat)
    requires a < b <= |s| && AllWhitespace(s[..b])
    ensures IsWhitespace(s[a])
  {
    assert s[..b][a] == s[a];
  }

  /** A character inside an all-whitespace suffix is whitespace. */
  lemma InWhitespaceSuffix(s: string, a: nat, b: nat)
    requires b <= a < |s| && AllWhitespace(s[b..])
    ensures IsWhitespace(s[a])
  {
    assert s[b..][a - b] == s[a];
  }

  /** `Trim` yields the empty string exactly on lines made only of whitespace. */
  lemma TrimEmptyIff(s: string)
    ensures Trim(s) == [] <==> AllWhitespace(s)
  {
    var k := Leading(s);
    TrimSlice(s);
    TrimStartSuffix(s);
    if Trim(s) == [] {
      assert AllWhitespace(s[k..]);
      assert TrimStart(s) == s[k..];
      assert TrimStart(s) == [];
      assert s[..k] == s;
    } else {
      assert Trim(s)[0] == s[k];
    }
  }

  /** Two positions that both end an all-whitespace prefix and both hold a
      non-whitespace character are the same. */
  lemma FirstNonWhitespace(s: string, a: nat, b: nat)
    requires a < |s| && b < |s|
    requires AllWhitespace(s[..a]) && !IsWhitespace(s[a])
    requires AllWhitespace(s[..b]) && !IsWhitespace(s[b])
    ensures a == b
  {
    if a < b {
      InWhitespacePrefix(s, a, b);
      assert false;
    } else if b < a {
      InWhitespacePrefix(s, b, a);
      assert false;
    }
  }

  /** Two positions that both start an all-whitespace suffix and both follow a
      non-whitespace character are the same. */
  lemma LastNonWhitespace(s: string, a: nat, b: nat)
    requires 0 < a <= |s| && 0 < b <= |s|
    requires AllWhitespace(s[a..]) && !IsWhitespace(s[a - 1])
    requires AllWhitespace(s[b..]) && !IsWhitespace(s[b - 1])
    ensures a == b
  {
    if a < b {
      assert false;
    } else if b < a {
      assert false;
    }
  }

  /** The characterisation is complete: any slice of `s` that is bounded by
      whitespace outside and by non-whitespace inside is what `Trim` returns. */
  lemma TrimCharacterized(s: string, i: nat, j: nat)
    requires i <= j <= |s|
    requires AllWhitespace(s[..i]) && AllWhitespace(s[j..])
    requires i == j || (!IsWhitespace(s[i]) && !IsWhitespace(s[j - 1]))
    ensures Trim(s) == s[i..j]
  {
    if i == j {
      forall n | 0 <= n < |s| ensures IsWhitespace(s[n]) {
        if n < i { InWhitespacePrefix(s, n, i); } else { InWhitespaceSuffix(s, n, j); }
      }
      TrimEmptyIff(s);
    } else {
      var r, k := Trim(s), Leading(s);
      TrimSlice(s);
      TrimEmptyIff(s);
      assert !AllWhitespace(s) by { assert !IsWhitespace(s[i]); }
      assert r[0] == s[k] && r[|r| - 1] == s[k + |r| - 1];
      FirstNonWhitespace(s, i, k);
      LastNonWhitespace(s, j, k + |r|);
    }
  }

  /** Trimming twice changes nothing. */
  lemma TrimIdempotent(s: string)
    ensures Trim(Trim(s)) == Trim(s)
  {
    var r := Trim(s);
    TrimSlice(s);
    assert r[..0] == [] && r[|r|..] == [];
    TrimCharacterized(r, 0, |r|);
    assert r[0..|r|] == r;
  }

  /** What `read_line` leaves in the buffer: the next scripted answer, or
      nothing at end of input (`read_line` then succeeds with no bytes). */
  function NextLine(input: seq<ReadResult>): ReadResult
  {
    if input == [] then Line("") else input[0]
  }

  /** The script after one `read_line`. */
  function Remaining(input: seq<ReadResult>): seq<ReadResult>
  {
    if input == [] then [] else input[1..]
  }

  const ReadInputFailed := "Failed to read input"

  /** `get_user_input(prompt)`: print the prompt, read one line, and answer it
      trimmed; a read error panics. */
  function UserInput(prompt: string, input: seq<ReadResult>): (s: Step<string>)
    ensures s.rest == Remaining(input)
    ensures |s.events| > 0 && s.events[0] == Prompt(prompt)
    ensures s.out.Some? <==> NextLine(input).Line?
    ensures s.out.Some? ==> s.out.value == Trim(NextLine(input).raw) && s.events == [Prompt(prompt)]
    ensures s.out.None? ==> s.events == [Prompt(prompt), Abort(Expect(ReadInputFailed))]
  {
    match NextLine(input)
    case Line(raw) => Step([Prompt(prompt)], Remaining(input), Some(Trim(raw)))
    case ReadFailure => Halt([Prompt(prompt), Abort(Expect(ReadInputFailed))], Remaining(input))
  }

  method GetUserInput(w: World, prompt: string) returns (answer: Option<string>)
    modifies w
    ensures w.Performed(UserInput(prompt, old(w.input)))
    ensures answer == UserInput(prompt, old(w.input)).out
  {
    w.log := w.log + [Prompt(prompt)];
    var line := Line("");
    if w.input != [] {
      line := w.input[0];
      w.input := w.input[1..];
    }
    match line
    case Line(raw) =>
      answer := Some(Trim(raw));
    case ReadFailure =>
      w.log := w.log + [Abort(Expect(ReadInputFailed))];
      answer := None;
  }

  const DefaultEditor := "nano"

  /** The editor command: the `EDITOR` value when it is set, else `nano`. */
  function EditorName(editorVar: Option<string>): (editor: string)
    ensures editorVar.Some? ==> editor == editorVar.value
    ensures editorVar.None? ==> editor == DefaultEditor
  {
    editorVar.GetOr(DefaultEditor)
  }

  const EditorFailed := "Failed to open editor"

  /** `open_editor(path)`: spawn the editor on `path` and wait for it. Only a
      failure to spawn panics; whatever the editor exits with is dropped. */
  function OpenEditorStep(env: Env, path: string, input: seq<ReadResult>): (s: Step<()>)
    ensures s.rest == input
    ensures |s.events| > 0 && s.events[0] == Launch(EditorName(env.editorVar), path)
    ensures s.out.Some? <==> EditorName(env.editorVar) in env.launchable
  {
    var editor := EditorName(env.editorVar);
    if editor in env.launchable then Step([Launch(editor, path)], input, Some(()))
    else Halt([Launch(editor, path), Abort(Expect(EditorFailed))], input)
  }

  /** The editor's exit status never changes what happens. */
  lemma EditorStatusIgnored(env: Env, path: string, input: seq<ReadResult>, status: int)
    ensures OpenEditorStep(env.(editorRun := env.editorRun.(status := status)), path, input)
         == OpenEditorStep(env, path, input)
  {
  }

  method OpenEditor(w: World, path: string) returns (ok: bool)
    modifies w
    ensures w.Performed(OpenEditorStep(w.env, path, old(w.input)))
    ensures ok == OpenEditorStep(w.env, path, old(w.input)).out.Some?
  {
    var editor := EditorName(w.env.editorVar);
    w.log := w.log + [Launch(editor, path)];
    ok := editor in w.env.launchable;
    if !ok {
      w.log := w.log + [Abort(Expect(EditorFailed))];
    }
  }
}
