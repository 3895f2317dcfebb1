// `SmsSender.send` of custom_components/gsm_call/hardware/sms_sender.py: text
// mode (a reply holding ERROR aborts), the address command with the number as
// given (a reply without the ">" prompt aborts), then the body; success only
// when the final reply holds +CMGS. Nothing is written on failure.

module SmsStrict {
  import opened Text
  import opened ModemIo
  import opened Sms

  const AddressTimeoutMs: nat := 10000
  const BodyTimeoutMs: nat := 30000

  /** The address command, with the number inserted as given. */
  function AddressCommand(phoneNumber: string): string
  {
    "AT+CMGS=\"+" + phoneNumber + "\""
  }

  /** The three writes of a complete submission. */
  function Commands(phoneNumber: string, message: string): seq<string>
  {
    [TextModeCommand + DefaultEol, AddressCommand(phoneNumber) + DefaultEol, message + SmsTerminator]
  }

  /** The last step: success only on a reply holding "+CMGS". */
  function Finish(body: Response): SmsResult
  {
    if body.Raised? then SmsFailed(ReadRaised)
    else if !Contains(ReplyText(body), "+CMGS") then SmsFailed(BodyFailed(ReplyText(body)))
    else Sent
  }

  /** One submission. */
  function Submit(script: seq<Incoming>, l: Link, phoneNumber: string, message: string): (r: (Link, SmsResult))
    requires l.cursor <= |script|
    ensures l.cursor <= r.0.cursor <= |script|
  {
    var (l1, mode) := Exec(script, l, TextModeCommand, TextModeTimeoutMs, TextModeMarkers, DefaultEol);
    if mode.Raised? then (l1, SmsFailed(ReadRaised))
    else if Contains(ReplyText(mode), "ERROR") then (l1, SmsFailed(TextModeFailed(ReplyText(mode))))
    else
      var (l2, prompt) := Exec(script, l1, AddressCommand(phoneNumber), AddressTimeoutMs, AddressMarkers, DefaultEol);
      if prompt.Raised? then (l2, SmsFailed(ReadRaised))
      else if !Contains(ReplyText(prompt), ">") then (l2, SmsFailed(PromptMissing(ReplyText(prompt))))
      else
        var (l3, body) := Exec(script, l2, message, BodyTimeoutMs, BodyMarkers, SmsTerminator);
        (l3, Finish(body))
  }

  /** Success exactly when the final reply holds "+CMGS": a reply with "OK" alone is a failure. */
  lemma FinishDecides(body: Response)
    ensures Finish(body) == Sent <==> !body.Raised? && Contains(ReplyText(body), "+CMGS")
    ensures Finish(Complete(["OK"])) == SmsFailed(BodyFailed("OK"))
  {
    assert ReplyText(Complete(["OK"])) == "OK";
    assert !Contains("OK", "+CMGS") by {
      forall i | 0 <= i <= 2 ensures !("+CMGS" <= "OK"[i..]) {
        assert |"OK"[i..]| < |"+CMGS"|;
      }
    }
  }

  /** A submission stops after the first, the second or the third command, and
      which one is told by its result. */
  lemma SubmitStages(script: seq<Incoming>, l: Link, phoneNumber: string, message: string)
    requires l.cursor <= |script|
    ensures var (l1, result) := Submit(script, l, phoneNumber, message);
      var a := Exec(script, l, TextModeCommand, TextModeTimeoutMs, TextModeMarkers, DefaultEol).0;
      var b := Exec(script, a, AddressCommand(phoneNumber), AddressTimeoutMs, AddressMarkers, DefaultEol).0;
      var c := Exec(script, b, message, BodyTimeoutMs, BodyMarkers, SmsTerminator).0;
      && (l1 == a || l1 == b || l1 == c)
      && (result.SmsFailed? && result.error.TextModeFailed? ==> l1 == a)
      && (result.SmsFailed? && result.error.PromptMissing? ==> l1 == b)
      && (result == Sent || (result.SmsFailed? && result.error.BodyFailed?) ==> l1 == c)
  {
  }

  /** The writes are the three commands in order, or a prefix of them, and nothing
      else: no reset on failure. How far the prefix goes tells which step failed. */
  lemma SubmitWrites(script: seq<Incoming>, l: Link, phoneNumber: string, message: string)
    requires l.cursor <= |script|
    ensures var (l1, result) := Submit(script, l, phoneNumber, message);
      var before := Writes(l.trace);
      var cmds := Commands(phoneNumber, message);
      && (exists n :: 1 <= n <= 3 && Writes(l1.trace) == before + cmds[..n])
      && (result.SmsFailed? && result.error.TextModeFailed? ==> Writes(l1.trace) == before + cmds[..1])
      && (result.SmsFailed? && result.error.PromptMissing? ==> Writes(l1.trace) == before + cmds[..2])
      && (result == Sent || (result.SmsFailed? && result.error.BodyFailed?) ==> Writes(l1.trace) == before + cmds)
  {
    var cmds := Commands(phoneNumber, message);
    var before := Writes(l.trace);
    var a := Exec(script, l, TextModeCommand, TextModeTimeoutMs, TextModeMarkers, DefaultEol).0;
    ExecWritesOnce(script, l, TextModeCommand, TextModeTimeoutMs, TextModeMarkers, DefaultEol);
    assert Writes(a.trace) == before + cmds[..1];
    var b := Exec(script, a, AddressCommand(phoneNumber), AddressTimeoutMs, AddressMarkers, DefaultEol).0;
    ExecWritesOnce(script, a, AddressCommand(phoneNumber), AddressTimeoutMs, AddressMarkers, DefaultEol);
    assert Writes(b.trace) == before + cmds[..2];
    var c := Exec(script, b, message, BodyTimeoutMs, BodyMarkers, SmsTerminator).0;
    ExecWritesOnce(script, b, message, BodyTimeoutMs, BodyMarkers, SmsTerminator);
    assert Writes(c.trace) == before + cmds[..3];
    assert cmds[..3] == cmds;
    SubmitStages(script, l, phoneNumber, message);
  }

  /** Strictness: a text-mode reply holding "ERROR" stops before the address
      command; an address reply without ">" (an echo cut by the timeout, a bare OK
      or ERROR, an empty reply) stops before the body; only an address reply with
      ">" leads to the body, whose reply then decides. */
  lemma SubmitStops(script: seq<Incoming>, l: Link, phoneNumber: string, message: string)
    requires l.cursor <= |script|
    ensures var (l1, mode) := Exec(script, l, TextModeCommand, TextModeTimeoutMs, TextModeMarkers, DefaultEol);
      var (l2, prompt) := Exec(script, l1, AddressCommand(phoneNumber), AddressTimeoutMs, AddressMarkers, DefaultEol);
      var (l3, body) := Exec(script, l2, message, BodyTimeoutMs, BodyMarkers, SmsTerminator);
      var r := Submit(script, l, phoneNumber, message);
      var modeOk := !mode.Raised? && !Contains(ReplyText(mode), "ERROR");
      && (!mode.Raised? && Contains(ReplyText(mode), "ERROR") ==> r == (l1, SmsFailed(TextModeFailed(ReplyText(mode)))))
      && (modeOk && !prompt.Raised? && !Contains(ReplyText(prompt), ">") ==> r == (l2, SmsFailed(PromptMissing(ReplyText(prompt)))))
      && (modeOk && !prompt.Raised? && Contains(ReplyText(prompt), ">") ==> r == (l3, Finish(body)))
      && (modeOk && l1.cursor < |script| && script[l1.cursor] == Expiry ==> r.1 == SmsFailed(PromptMissing("")))
  {
    var (l1, mode) := Exec(script, l, TextModeCommand, TextModeTimeoutMs, TextModeMarkers, DefaultEol);
    if l1.cursor < |script| && script[l1.cursor] == Expiry {
      TimeoutReturnsCollected(script, l1.cursor, l1.cursor + 1, AddressMarkers);
      assert ReplyText(Partial([])) == "";
    }
  }

  /** `send` of the strict sender. */
  method SendSms(modem: Modem, phoneNumber: string, message: string) returns (result: SmsResult)
    requires modem.Valid()
    modifies modem`trace, modem`cursor
    ensures modem.Valid()
    ensures (modem.State(), result) == Submit(modem.script, old(modem.State()), phoneNumber, message)
  {
    var mode := modem.ExecuteAt(TextModeCommand, TextModeTimeoutMs, TextModeMarkers, DefaultEol);
    if mode.Raised? {
      return SmsFailed(ReadRaised);
    }
    var reply := Join(mode.lines, " ");
    if Contains(reply, "ERROR") {
      return SmsFailed(TextModeFailed(reply));
    }
    var prompt := modem.ExecuteAt("AT+CMGS=\"+" + phoneNumber + "\"", AddressTimeoutMs, AddressMarkers, DefaultEol);
    if prompt.Raised? {
      return SmsFailed(ReadRaised);
    }
    reply := Join(prompt.lines, " ");
    if !Contains(reply, ">") {
      return SmsFailed(PromptMissing(reply));
    }
    var body := modem.ExecuteAt(message, BodyTimeoutMs, BodyMarkers, SmsTerminator);
    if body.Raised? {
      return SmsFailed(ReadRaised);
    }
    reply := Join(body.lines, " ");
    if !Contains(reply, "+CMGS") {
      return SmsFailed(BodyFailed(reply));
    }
    return Sent;
  }
}
