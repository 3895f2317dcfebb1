// `SmsSender.send` of custom_components/gsm_call/sms/sms_sender.py: an ESC
// reset, text mode (a reply without OK is tolerated), the address command
// (an exception there counts as an empty reply, and the ">" prompt is never
// checked), a pause, then the body; success when the final reply holds +CMGS
// or OK, otherwise one more ESC and an error.

module SmsLenient {
  import opened Text
  import opened ModemIo
  import opened Sms

  const ResetTimeoutMs: nat := 2000
  const ResetSettleMs: nat := 1000
  const TextModeSettleMs: nat := 1000
  const AddressTimeoutMs: nat := 3000
  /** The pause that gives the modem time to open its text buffer. */
  const PromptSettleMs: nat := 2000
  const BodyTimeoutMs: nat := 25000
  const FinalResetTimeoutMs: nat := 1000

  /** The address command: every '+' removed from the number, and one put back. */
  function AddressCommand(phoneNumber: string): string
  {
    "AT+CMGS=\"+" + RemoveAll(phoneNumber, '+') + "\""
  }

  /** ESC reset, pause, text mode, pause; false when one of the two reads raised. */
  function Prelude(script: seq<Incoming>, l: Link): (r: (Link, bool))
    requires l.cursor <= |script|
    ensures l.cursor <= r.0.cursor <= |script|
  {
    var (l1, reset) := Exec(script, l, Esc, ResetTimeoutMs, [], DefaultEol);
    if reset.Raised? then (l1, false)
    else
      var (l2, mode) := Exec(script, Pause(l1, ResetSettleMs), TextModeCommand, TextModeTimeoutMs, TextModeMarkers, DefaultEol);
      if mode.Raised? then (l2, false)
      else (Pause(l2, TextModeSettleMs), true)
  }

  /** The address step; an exception during it leaves the reply empty. */
  function AddressReply(script: seq<Incoming>, l: Link, phoneNumber: string): (r: (Link, string))
    requires l.cursor <= |script|
    ensures l.cursor <= r.0.cursor <= |script|
  {
    var (l1, reply) := Exec(script, l, AddressCommand(phoneNumber), AddressTimeoutMs, AddressMarkers, DefaultEol);
    (l1, ReplyText(reply))
  }

  /** The last step: judge the body reply, resetting once more when it failed. */
  function Finish(script: seq<Incoming>, l: Link, body: Response): (r: (Link, SmsResult))
    requires l.cursor <= |script|
    ensures l.cursor <= r.0.cursor <= |script|
  {
    if body.Raised? then (l, SmsFailed(ReadRaised))
    else
      var reply := ReplyText(body);
      if !Contains(reply, "+CMGS") && !Contains(reply, "OK") then
        var (l1, reset) := Exec(script, l, Esc, FinalResetTimeoutMs, [], DefaultEol);
        (l1, SmsFailed(if reset.Raised? then ReadRaised else BodyFailed(reply)))
      else (l, Sent)
  }

  /** One submission. */
  function Submit(script: seq<Incoming>, l: Link, phoneNumber: string, message: string): (r: (Link, SmsResult))
    requires l.cursor <= |script|
    ensures l.cursor <= r.0.cursor <= |script|
  {
    var (l1, ready) := Prelude(script, l);
    if !ready then (l1, SmsFailed(ReadRaised))
    else
      var (l2, reply) := AddressReply(script, l1, phoneNumber);
      if Contains(reply, "ERROR") then (l2, SmsFailed(Rejected(reply)))
      else
        var (l3, body) := Exec(script, Pause(l2, PromptSettleMs), message, BodyTimeoutMs, BodyMarkers, SmsTerminator);
        Finish(script, l3, body)
  }

  /** The address command has the form AT+CMGS="+" number "\"" with no other '+'
      after the opening quote, whatever '+' signs the number carried. */
  lemma AddressCommandShape(phoneNumber: string)
    ensures var c := AddressCommand(phoneNumber);
      && |c| >= 11 && c[..10] == "AT+CMGS=\"+" && c[|c| - 1] == '"'
      && (forall k :: 10 <= k < |c| ==> c[k] != '+')
  {
    var clean := RemoveAll(phoneNumber, '+');
    var c := "AT+CMGS=\"+" + clean + "\"";
    assert AddressCommand(phoneNumber) == c;
    forall k | 10 <= k < |c| ensures c[k] != '+' {
      if k < |c| - 1 {
        assert c[k] == clean[k - 10];
      }
    }
  }

  /** The reply to the final step decides: success exactly when it holds "+CMGS" or
      "OK"; on failure exactly one ESC is written, read with no end markers. */
  lemma FinishDecides(script: seq<Incoming>, l: Link, body: Response)
    requires l.cursor <= |script|
    requires !body.Raised?
    ensures var (l1, result) := Finish(script, l, body);
      var reply := ReplyText(body);
      && (result == Sent <==> Contains(reply, "+CMGS") || Contains(reply, "OK"))
      && (result == Sent ==> l1 == l)
      && (result != Sent ==>
            l1.trace == l.trace + [Wrote(Esc + DefaultEol), Awaited(FinalResetTimeoutMs, [])]
            && Writes(l1.trace) == Writes(l.trace) + [Esc + DefaultEol]
            && (result == SmsFailed(BodyFailed(reply)) || result == SmsFailed(ReadRaised)))
  {
    ExecWritesOnce(script, l, Esc, FinalResetTimeoutMs, [], DefaultEol);
  }

  /** The writes of a submission, in order: ESC, text mode, address, then the body
      with the SMS terminator; a rejected address stops before the body, and a
      failed body is followed by exactly one more ESC. */
  lemma SubmitWrites(script: seq<Incoming>, l: Link, phoneNumber: string, message: string)
    requires l.cursor <= |script|
    ensures var (l1, result) := Submit(script, l, phoneNumber, message);
      var before := Writes(l.trace);
      var three := [Esc + DefaultEol, TextModeCommand + DefaultEol, AddressCommand(phoneNumber) + DefaultEol];
      && (result == Sent ==> Writes(l1.trace) == before + three + [message + SmsTerminator])
      && (result.SmsFailed? && result.error.Rejected? ==> Writes(l1.trace) == before + three)
      && (result.SmsFailed? && result.error.BodyFailed? ==>
            Writes(l1.trace) == before + three + [message + SmsTerminator, Esc + DefaultEol])
  {
    var (l1, ready) := Prelude(script, l);
    var (e1, reset) := Exec(script, l, Esc, ResetTimeoutMs, [], DefaultEol);
    ExecWritesOnce(script, l, Esc, ResetTimeoutMs, [], DefaultEol);
    SendAndPauseWrites(e1, "", "", ResetSettleMs);
    var p1 := Pause(e1, ResetSettleMs);
    ExecWritesOnce(script, p1, TextModeCommand, TextModeTimeoutMs, TextModeMarkers, DefaultEol);
    var e2 := Exec(script, p1, TextModeCommand, TextModeTimeoutMs, TextModeMarkers, DefaultEol).0;
    SendAndPauseWrites(e2, "", "", TextModeSettleMs);
    if ready {
      assert Writes(l1.trace) == Writes(l.trace) + [Esc + DefaultEol, TextModeCommand + DefaultEol];
      var (l2, reply) := AddressReply(script, l1, phoneNumber);
      ExecWritesOnce(script, l1, AddressCommand(phoneNumber), AddressTimeoutMs, AddressMarkers, DefaultEol);
      if !Contains(reply, "ERROR") {
        var p2 := Pause(l2, PromptSettleMs);
        SendAndPauseWrites(l2, "", "", PromptSettleMs);
        var (l3, body) := Exec(script, p2, message, BodyTimeoutMs, BodyMarkers, SmsTerminator);
        ExecWritesOnce(script, p2, message, BodyTimeoutMs, BodyMarkers, SmsTerminator);
        if !body.Raised? {
          FinishDecides(script, l3, body);
        }
      }
    }
  }

  /** Leniency: a submission never fails for a text-mode reply without OK, nor for
      a missing ">" prompt; it fails only on a raising read, on an address reply
      holding "ERROR", or on a final reply with neither "+CMGS" nor "OK". An
      address reply holding "ERROR" does fail it, before the body is written. */
  lemma SubmitErrors(script: seq<Incoming>, l: Link, phoneNumber: string, message: string)
    requires l.cursor <= |script|
    ensures var result := Submit(script, l, phoneNumber, message).1;
      result.SmsFailed? ==>
        || result.error == ReadRaised
        || (result.error.Rejected? && Contains(result.error.reply, "ERROR"))
        || (result.error.BodyFailed? && !Contains(result.error.reply, "+CMGS") && !Contains(result.error.reply, "OK"))
    ensures var (l1, ready) := Prelude(script, l);
      var (l2, reply) := AddressReply(script, l1, phoneNumber);
      ready && Contains(reply, "ERROR") ==> Submit(script, l, phoneNumber, message) == (l2, SmsFailed(Rejected(reply)))
  {
    var (l1, ready) := Prelude(script, l);
    if ready {
      var (l2, reply) := AddressReply(script, l1, phoneNumber);
      if !Contains(reply, "ERROR") {
        var (l3, body) := Exec(script, Pause(l2, PromptSettleMs), message, BodyTimeoutMs, BodyMarkers, SmsTerminator);
        if !body.Raised? {
          FinishDecides(script, l3, body);
        }
      }
    }
  }

  /** An address step whose read raises is treated as an empty reply: the
      submission goes on and writes the body. */
  lemma AddressExceptionSwallowed(script: seq<Incoming>, l: Link, phoneNumber: string, message: string)
    requires l.cursor <= |script|
    requires var l1 := Prelude(script, l).0;
      Prelude(script, l).1 && ReadFrom(script, l1.cursor, AddressMarkers, []).response.Raised?
    ensures var l1 := Submit(script, l, phoneNumber, message).0;
      var before := Writes(l.trace);
      |Writes(l1.trace)| >= |before| + 4 && Writes(l1.trace)[|before| + 3] == message + SmsTerminator
  {
    var (l1, ready) := Prelude(script, l);
    var (e1, reset) := Exec(script, l, Esc, ResetTimeoutMs, [], DefaultEol);
    ExecWritesOnce(script, l, Esc, ResetTimeoutMs, [], DefaultEol);
    SendAndPauseWrites(e1, "", "", ResetSettleMs);
    var p1 := Pause(e1, ResetSettleMs);
    ExecWritesOnce(script, p1, TextModeCommand, TextModeTimeoutMs, TextModeMarkers, DefaultEol);
    var e2 := Exec(script, p1, TextModeCommand, TextModeTimeoutMs, TextModeMarkers, DefaultEol).0;
    SendAndPauseWrites(e2, "", "", TextModeSettleMs);
    var (l2, reply) := AddressReply(script, l1, phoneNumber);
    assert reply == "";
    assert !Contains(reply, "ERROR");
    ExecWritesOnce(script, l1, AddressCommand(phoneNumber), AddressTimeoutMs, AddressMarkers, DefaultEol);
    var p2 := Pause(l2, PromptSettleMs);
    SendAndPauseWrites(l2, "", "", PromptSettleMs);
    var (l3, body) := Exec(script, p2, message, BodyTimeoutMs, BodyMarkers, SmsTerminator);
    ExecWritesOnce(script, p2, message, BodyTimeoutMs, BodyMarkers, SmsTerminator);
    var l4 := Submit(script, l, phoneNumber, message).0;
    assert l3.trace <= l4.trace;
    WritesPrefix(l3.trace, l4.trace);
  }

  /** `send` of the lenient sender. */
  method SendSms(modem: Modem, phoneNumber: string, message: string) returns (result: SmsResult)
    requires modem.Valid()
    modifies modem`trace, modem`cursor
    ensures modem.Valid()
    ensures (modem.State(), result) == Submit(modem.script, old(modem.State()), phoneNumber, message)
  {
    ghost var start := modem.State();
    var reset := modem.ExecuteAt(Esc, ResetTimeoutMs, [], DefaultEol);
    if reset.Raised? {
      return SmsFailed(ReadRaised);
    }
    modem.Sleep(ResetSettleMs);
    var mode := modem.ExecuteAt(TextModeCommand, TextModeTimeoutMs, TextModeMarkers, DefaultEol);
    if mode.Raised? {
      return SmsFailed(ReadRaised);
    }
    // a reply without OK only earns a warning
    modem.Sleep(TextModeSettleMs);
    assert (modem.State(), true) == Prelude(modem.script, start);
    ghost var afterPrelude := modem.State();
    var cleanNumber := RemoveAll(phoneNumber, '+');
    var address := modem.ExecuteAt("AT+CMGS=\"+" + cleanNumber + "\"", AddressTimeoutMs, AddressMarkers, DefaultEol);
    var reply := if address.Raised? then "" else Join(address.lines, " ");
    assert (modem.State(), reply) == AddressReply(modem.script, afterPrelude, phoneNumber);
    if Contains(reply, "ERROR") {
      return SmsFailed(Rejected(reply));
    }
    modem.Sleep(PromptSettleMs);
    var body := modem.ExecuteAt(message, BodyTimeoutMs, BodyMarkers, SmsTerminator);
    if body.Raised? {
      return SmsFailed(ReadRaised);
    }
    var finalReply := Join(body.lines, " ");
    if !Contains(finalReply, "+CMGS") && !Contains(finalReply, "OK") {
      var finalReset := modem.ExecuteAt(Esc, FinalResetTimeoutMs, [], DefaultEol);
      if finalReset.Raised? {
        return SmsFailed(ReadRaised);
      }
      return SmsFailed(BodyFailed(finalReply));
    }
    return Sent;
  }
}
