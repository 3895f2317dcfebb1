// `ATDialer.dial` of custom_components/gsm_call/hardware/at_dialer.py: no
// reset, the number inserted verbatim, reply checks, answer polling, then an
// AT+CHUP hangup that is written but whose reply is never read.

module HardwareDialer {
  import opened Text
  import opened ModemIo
  import opened Const
  import opened CallProgress
  import opened Dialing

  const HangupCommand: string := "AT+CHUP"

  /** The dial command, with the number inserted as given. */
  function DialCommand(phoneNumber: string): string
  {
    AtCommand + "+" + phoneNumber + ";"
  }

  /** Everything up to the hangup. */
  function UpToHangup(script: seq<Incoming>, latency: nat -> nat, dialMs: nat, callMs: nat,
                      l: Link, phoneNumber: string): (st: Stage)
    requires l.cursor <= |script|
    ensures l.cursor <= st.link.cursor <= |script|
  {
    var (dialLink, dialReply) := Exec(script, l, DialCommand(phoneNumber), DialTimeoutMs, DialMarkers, DefaultEol);
    AfterDialReply(script, latency, dialMs, callMs, dialLink, dialReply)
  }

  /** One attempt: after polling, write AT+CHUP without reading and report the reason. */
  function Attempt(script: seq<Incoming>, latency: nat -> nat, dialMs: nat, callMs: nat,
                   l: Link, phoneNumber: string): (r: (Link, DialResult))
    requires l.cursor <= |script|
  {
    match UpToHangup(script, latency, dialMs, callMs, l, phoneNumber)
    case Stopped(l1, result) => (l1, result)
    case Polled(l1, reason) => (Send(l1, HangupCommand, DefaultEol), Ended(reason))
  }

  /** A refused or failed dial neither polls nor hangs up. After polling the
      hangup is a single write with no read, it cannot fail, and the reason reported
      is exactly the polling outcome. */
  lemma AttemptOutcome(script: seq<Incoming>, latency: nat -> nat, dialMs: nat, callMs: nat,
                       l: Link, phoneNumber: string)
    requires l.cursor <= |script|
    ensures var st := UpToHangup(script, latency, dialMs, callMs, l, phoneNumber);
      var (l1, result) := Attempt(script, latency, dialMs, callMs, l, phoneNumber);
      && (st.Stopped? ==> l1 == st.link && result == st.result)
      && (st.Polled? ==> l1.cursor == st.link.cursor && l1.trace == st.link.trace + [Wrote(HangupCommand + DefaultEol)]
                         && result == Ended(st.reason))
      && (result.Ended? <==> st.Polled?)
  {
    var (dialLink, dialReply) := Exec(script, l, DialCommand(phoneNumber), DialTimeoutMs, DialMarkers, DefaultEol);
    DialReplyDecides(script, latency, dialMs, callMs, dialLink, dialReply);
  }

  /** The first write is the dial command, with no reset before it. A refused dial
      writes nothing else; an attempt that reports a reason wrote the dial command,
      one status query per poll and AT+CHUP. */
  lemma AttemptWrites(script: seq<Incoming>, latency: nat -> nat, dialMs: nat, callMs: nat,
                      l: Link, phoneNumber: string)
    requires l.cursor <= |script|
    ensures var (l1, result) := Attempt(script, latency, dialMs, callMs, l, phoneNumber);
      var before := Writes(l.trace);
      && |Writes(l1.trace)| > |before| && Writes(l1.trace)[..|before| + 1] == before + [DialCommand(phoneNumber) + DefaultEol]
      && (result == DialFailed(Busy) || (result.DialFailed? && result.error.ModemReplied?) ==>
            Writes(l1.trace) == before + [DialCommand(phoneNumber) + DefaultEol])
      && (result.Ended? ==>
            exists k :: k >= 1 && Writes(l1.trace) == before + [DialCommand(phoneNumber) + DefaultEol]
                                                     + StatusQueries(k) + [HangupCommand + DefaultEol])
  {
    var (dialLink, dialReply) := Exec(script, l, DialCommand(phoneNumber), DialTimeoutMs, DialMarkers, DefaultEol);
    ExecWritesOnce(script, l, DialCommand(phoneNumber), DialTimeoutMs, DialMarkers, DefaultEol);
    DialReplyDecides(script, latency, dialMs, callMs, dialLink, dialReply);
    var st := AfterDialReply(script, latency, dialMs, callMs, dialLink, dialReply);
    var (l1, result) := Attempt(script, latency, dialMs, callMs, l, phoneNumber);
    var before := Writes(l.trace);
    if st.Polled? {
      PollingDecides(script, latency, dialMs, callMs, dialLink, dialReply);
      SendAndPauseWrites(st.link, HangupCommand, DefaultEol, 0);
      var k :| k >= 1 && Writes(st.link.trace) == Writes(dialLink.trace) + StatusQueries(k);
      assert Writes(l1.trace) == before + [DialCommand(phoneNumber) + DefaultEol] + StatusQueries(k) + [HangupCommand + DefaultEol];
    }
    assert st.link.trace <= l1.trace;
    WritesPrefix(dialLink.trace, l1.trace);
    assert Writes(dialLink.trace)[..|before| + 1] == before + [DialCommand(phoneNumber) + DefaultEol];
  }

  /** The voice dialer of custom_components/gsm_call/hardware/at_dialer.py. */
  class AtDialer {
    const dialMs: nat
    const callMs: nat

    constructor (dialTimeoutSec: nat, callDurationSec: nat)
      ensures dialMs == dialTimeoutSec * 1000 && callMs == callDurationSec * 1000
    {
      dialMs := dialTimeoutSec * 1000;
      callMs := callDurationSec * 1000;
    }

    method Dial(modem: Modem, phoneNumber: string, latency: nat -> nat) returns (result: DialResult)
      requires modem.Valid()
      modifies modem`trace, modem`cursor
      ensures modem.Valid()
      ensures (modem.State(), result) == Attempt(modem.script, latency, dialMs, callMs, old(modem.State()), phoneNumber)
    {
      var lines := modem.ExecuteAt(AtCommand + "+" + phoneNumber + ";", DialTimeoutMs, DialMarkers, DefaultEol);
      if lines.Raised? {
        return DialFailed(ReadFailed);
      }
      var reply := Join(lines.lines, " ");
      if Contains(reply, "BUSY") {
        return DialFailed(Busy);
      }
      if Contains(reply, "ERROR") || Contains(reply, "NO CARRIER") {
        return DialFailed(ModemReplied(reply));
      }
      var waited := WaitForAnswer(modem, dialMs, callMs, latency);
      var endedReason: EndedReason;
      match waited {
        case Returned(r) => endedReason := r;
        case DeadlineExpired => endedReason := NotAnswered;
        case Failed => return DialFailed(ReadFailed);
      }
      modem.SendCommand(HangupCommand, DefaultEol);
      return Ended(endedReason);
    }
  }
}
