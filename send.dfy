/** Message building, the confirmation gate and the single delivery attempt
    (src/email/send.rs). */
module Send {
  import opened Base
  import opened Io
  import opened Config
  import Input

  const ConfirmPrompt := "Send the mail? (Y/n)"
  const SentLine := "Email sent successfully!"
  const NotSentLine := "Email not sent."
  const SendErrorPrefix := "Error sending email: "

  /** Lower-casing of one character, for the ASCII letters. */
  function LowerChar(c: char): char
  {
    if 'A' <= c <= 'Z' then (c as int - 'A' as int + 'a' as int) as char else c
  }

  /** `str::to_lowercase`, restricted to ASCII letters (see README: this is
      exact for the comparison with "y" below). */
  function ToLower(s: string): string
  {
    if s == [] then [] else [LowerChar(s[0])] + ToLower(s[1..])
  }

  /** Lower-casing keeps the length and works character by character. */
  lemma {:induction false} ToLowerEach(s: string)
    ensures |ToLower(s)| == |s|
    ensures forall i | 0 <= i < |s| :: ToLower(s)[i] == LowerChar(s[i])
  {
    if s != [] {
      ToLowerEach(s[1..]);
    }
  }

  /** The confirmation test: the answer lower-cases to exactly `y`, or is empty. */
  predicate IsAffirmative(answer: string)
  {
    ToLower(answer) == "y" || answer == ""
  }

  /** Exactly three answers confirm: the empty one, `y` and `Y`. */
  lemma AffirmativeExactly(answer: string)
    ensures IsAffirmative(answer) <==> answer in {"", "y", "Y"}
  {
    ToLowerEach(answer);
    if ToLower(answer) == "y" {
      assert |answer| == 1 && LowerChar(answer[0]) == 'y';
      assert answer == [answer[0]];
    }
    if answer == "Y" {
      assert ToLower(answer)[0] == 'y';
    }
  }

  /** On a raw console line (the answer is trimmed before the test): a line of
      whitespace alone, such as a bare newline, confirms, and so does `y` or
      `Y` with any surrounding whitespace; everything else declines. */
  lemma ConfirmsRawLine(raw: string)
    ensures IsAffirmative(Input.Trim(raw)) <==> Input.AllWhitespace(raw) || Input.Trim(raw) in {"y", "Y"}
  {
    AffirmativeExactly(Input.Trim(raw));
    Input.TrimEmptyIff(raw);
  }

  /** The answers the prompt's "(Y/n)" suggests, and some it does not: `yes`
      in any case declines, as do `n`, `no` and `x`. */
  lemma ConfirmationExamples()
    ensures IsAffirmative("") && IsAffirmative("y") && IsAffirmative("Y")
    ensures !IsAffirmative("yes") && !IsAffirmative("YES") && !IsAffirmative("Yes")
    ensures !IsAffirmative("n") && !IsAffirmative("no") && !IsAffirmative("x")
  {
    AffirmativeExactly("yes");
    AffirmativeExactly("YES");
    AffirmativeExactly("Yes");
    AffirmativeExactly("no");
    assert ToLower("Y") == "y";
  }

  /** What is printed once the relay has answered. */
  function Report(reply: Reply): (e: Event)
    ensures reply.Accepted? ==> e == Print(SentLine)
    ensures reply.Rejected? ==> e == PrintErr(SendErrorPrefix + reply.diagnostic)
  {
    match reply
    case Accepted => Print(SentLine)
    case Rejected(diagnostic) => PrintErr(SendErrorPrefix + diagnostic)
  }

  /** The relay accepts the stored login's host and both addresses parse. */
  predicate Deliverable(env: Env, d: UserDetails, to: string)
  {
    env.isMailbox(d.email) && env.isMailbox(to) && env.relayUsable(d.host)
  }

  /** What `send_email(d, to, subject, body)` does. The message is built first:
      both addresses are parsed with `unwrap`, so a bad one panics before
      anything is asked. Then the one confirmation question. A decline prints
      "Email not sent."; a confirmation logs in with `(email, password)` at
      relay `host` and makes one attempt, whose failure is only printed. */
  function SendStep(env: Env, d: UserDetails, to: string, subject: string, body: string,
                    input: seq<ReadResult>): (s: Step<()>)
  {
    if !env.isMailbox(d.email) || !env.isMailbox(to) then Halt([Abort(UnwrapFailed)], input)
    else
      var message := Message(d.email, to, subject, body);
      var answer := Input.UserInput(ConfirmPrompt, input);
      match answer.out
      case None => Halt(answer.events, answer.rest)
      case Some(a) =>
        if !IsAffirmative(a) then Step(answer.events + [Print(NotSentLine)], answer.rest, Some(()))
        else if !env.relayUsable(d.host) then Halt(answer.events + [Abort(UnwrapFailed)], answer.rest)
        else
          var attempt := SendAttempt(message, d.host, Credentials(d.email, d.password));
          Step(answer.events + [attempt, Report(env.reply)], answer.rest, Some(()))
  }

  /** A bad sender or recipient address panics while the message is built:
      nothing is asked, nothing is read and nothing is sent. */
  lemma BadAddressAbortsBeforePrompt(env: Env, d: UserDetails, to: string, subject: string, body: string,
                                     input: seq<ReadResult>)
    requires !env.isMailbox(d.email) || !env.isMailbox(to)
    ensures SendStep(env, d, to, subject, body, input) == Halt([Abort(UnwrapFailed)], input)
  {
  }

  /** A decline (after trimming) prints "Email not sent.", makes no send
      attempt, and returns normally; the relay is never consulted. */
  lemma DeclineNeverSends(env: Env, d: UserDetails, to: string, subject: string, body: string,
                          raw: string, rest: seq<ReadResult>)
    requires env.isMailbox(d.email) && env.isMailbox(to)
    requires !IsAffirmative(Input.Trim(raw))
    ensures var s := SendStep(env, d, to, subject, body, [Line(raw)] + rest);
      && s.events == [Prompt(ConfirmPrompt), Print(NotSentLine)]
      && s.rest == rest && s.out == Some(())
      && Sends(s.events) == 0
  {
    assert ([Line(raw)] + rest)[1..] == rest;
    var s := SendStep(env, d, to, subject, body, [Line(raw)] + rest);
    assert forall i | 0 <= i < |s.events| :: !s.events[i].SendAttempt?;
    SendsNone(s.events);
  }

  /** A confirmation leads to exactly one send attempt, of the message with
      `from` the stored address and `to`, subject and body as given, logged in
      with the stored address and password at the stored host; if the relay
      accepts, success is printed, otherwise an error goes to standard error.
      Either way the call returns normally. */
  lemma ConfirmSendsOnce(env: Env, d: UserDetails, to: string, subject: string, body: string,
                         raw: string, rest: seq<ReadResult>)
    requires Deliverable(env, d, to)
    requires IsAffirmative(Input.Trim(raw))
    ensures var s := SendStep(env, d, to, subject, body, [Line(raw)] + rest);
      && s.events == [Prompt(ConfirmPrompt),
                      SendAttempt(Message(d.email, to, subject, body), d.host, Credentials(d.email, d.password)),
                      Report(env.reply)]
      && Sends(s.events) == 1
      && s.rest == rest && s.out == Some(())
  {
    assert ([Line(raw)] + rest)[1..] == rest;
    var s := SendStep(env, d, to, subject, body, [Line(raw)] + rest);
    assert Sends(s.events[2..]) == 0;
    assert s.events == [s.events[0], s.events[1]] + s.events[2..];
  }

  /** Whatever happens, at most one send attempt is made. A bad address
      panics first and alone; otherwise the confirmation question comes
      first and is the only question asked. */
  lemma SendStepBounds(env: Env, d: UserDetails, to: string, subject: string, body: string,
                       input: seq<ReadResult>)
    ensures var s := SendStep(env, d, to, subject, body, input);
      Sends(s.events) <= 1
    ensures var s := SendStep(env, d, to, subject, body, input);
      !(env.isMailbox(d.email) && env.isMailbox(to)) ==> s.events == [Abort(UnwrapFailed)]
    ensures var s := SendStep(env, d, to, subject, body, input);
      env.isMailbox(d.email) && env.isMailbox(to) ==>
        && |s.events| > 0 && s.events[0] == Prompt(ConfirmPrompt)
        && forall i | 1 <= i < |s.events| :: !s.events[i].Prompt?
  {
    var s := SendStep(env, d, to, subject, body, input);
    if env.isMailbox(d.email) && env.isMailbox(to) {
      var answer := Input.UserInput(ConfirmPrompt, input);
      if answer.out.Some? && IsAffirmative(answer.out.value) && env.relayUsable(d.host) {
        assert s.events == [Prompt(ConfirmPrompt)] + [s.events[1]] + [s.events[2]];
        SendsAppend([Prompt(ConfirmPrompt)] + [s.events[1]], [s.events[2]]);
      } else {
        assert forall i | 0 <= i < |s.events| :: !s.events[i].SendAttempt?;
        SendsNone(s.events);
      }
    }
  }

  method SendEmail(w: World, d: UserDetails, to: string, subject: string, body: string) returns (ok: bool)
    modifies w
    ensures w.Performed(SendStep(w.env, d, to, subject, body, old(w.input)))
    ensures ok == SendStep(w.env, d, to, subject, body, old(w.input)).out.Some?
  {
    // Message::builder(): `from` and `to` are parsed with unwrap.
    if !w.env.isMailbox(d.email) {
      w.log := w.log + [Abort(UnwrapFailed)];
      return false;
    }
    if !w.env.isMailbox(to) {
      w.log := w.log + [Abort(UnwrapFailed)];
      return false;
    }
    var message := Message(d.email, to, subject, body);
    var answer := Input.GetUserInput(w, ConfirmPrompt);
    if answer.None? {
      return false;
    }
    if IsAffirmative(answer.value) {
      var creds := Credentials(d.email, d.password);
      if !w.env.relayUsable(d.host) {
        w.log := w.log + [Abort(UnwrapFailed)];
        return false;
      }
      w.log := w.log + [SendAttempt(message, d.host, creds)];
      w.log := w.log + [Report(w.env.reply)];
    } else {
      w.log := w.log + [Print(NotSentLine)];
    }
    ok := true;
  }
}
