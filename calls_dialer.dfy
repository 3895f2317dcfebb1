// `ATDialer.dial` of custom_components/gsm_call/calls/at_dialer.py: ESC reset,
// settle pause, dial with every '+' removed from the number and one put back,
// reply checks, answer polling, then an ATH hangup.
//
// As written, the hangup call `execute_at("ATH", timeout=2)` leaves out the
// required `end_markers` argument, so it raises a TypeError before writing
// anything (`AttemptAsWritten`). `Attempt` is the evidently intended dial, which
// reads the hangup reply with the status-query end markers; the AtDialer class
// implements it.

module CallsDialer {
  import opened Text
  import opened ModemIo
  import opened Const
  import opened CallProgress
  import opened Dialing

  const ResetTimeoutMs: nat := 2000
  /** The stability pause after the reset. */
  const ResetSettleMs: nat := 1000
  const HangupCommand: string := "ATH"
  const HangupTimeoutMs: nat := 2000
  /** End markers of the corrected hangup read. */
  const HangupMarkers: seq<string> := StatusMarkers

  /** The dial command: the number with every '+' removed, behind a single '+', then ';' for voice. */
  function DialCommand(phoneNumber: string): string
  {
    AtCommand + "+" + RemoveAll(phoneNumber, '+') + ";"
  }

  /** The ESC reset, the pause and the dial command: the link and the dial reply
      (Raised when either read raised). */
  function ResetAndDial(script: seq<Incoming>, l: Link, phoneNumber: string): (r: (Link, Response))
    requires l.cursor <= |script|
    ensures l.cursor <= r.0.cursor <= |script|
  {
    var (l1, reset) := Exec(script, l, Esc, ResetTimeoutMs, [], DefaultEol);
    if reset.Raised? then (l1, Raised)
    else Exec(script, Pause(l1, ResetSettleMs), DialCommand(phoneNumber), DialTimeoutMs, DialMarkers, DefaultEol)
  }

  /** Everything up to the hangup. */
  function UpToHangup(script: seq<Incoming>, latency: nat -> nat, dialMs: nat, callMs: nat,
                      l: Link, phoneNumber: string): (st: Stage)
    requires l.cursor <= |script|
    ensures l.cursor <= st.link.cursor <= |script|
  {
    var (dialLink, dialReply) := ResetAndDial(script, l, phoneNumber);
    AfterDialReply(script, latency, dialMs, callMs, dialLink, dialReply)
  }

  /** One attempt of the corrected dial: after polling, hang up with ATH and report the reason. */
  function Attempt(script: seq<Incoming>, latency: nat -> nat, dialMs: nat, callMs: nat,
                   l: Link, phoneNumber: string): (r: (Link, DialResult))
    requires l.cursor <= |script|
    ensures l.cursor <= r.0.cursor <= |script|
  {
    match UpToHangup(script, latency, dialMs, callMs, l, phoneNumber)
    case Stopped(l1, result) => (l1, result)
    case Polled(l1, reason) =>
      var (l2, hangup) := Exec(script, l1, HangupCommand, HangupTimeoutMs, HangupMarkers, DefaultEol);
      (l2, if hangup.Raised? then DialFailed(ReadFailed) else Ended(reason))
  }

  /** One attempt as written: the hangup call raises TypeError before it writes. */
  function AttemptAsWritten(script: seq<Incoming>, latency: nat -> nat, dialMs: nat, callMs: nat,
                            l: Link, phoneNumber: string): (r: (Link, DialResult))
    requires l.cursor <= |script|
  {
    match UpToHangup(script, latency, dialMs, callMs, l, phoneNumber)
    case Stopped(l1, result) => (l1, result)
    case Polled(l1, _) => (l1, DialFailed(HangupArgumentMissing))
  }

  /** The dial command has the form "ATD+" number ";" with no other '+'. */
  lemma DialCommandShape(phoneNumber: string)
    ensures var c := DialCommand(phoneNumber);
      && |c| >= 5 && c[..4] == "ATD+" && c[|c| - 1] == ';'
      && (forall k :: 4 <= k < |c| ==> c[k] != '+')
  {
    var clean := RemoveAll(phoneNumber, '+');
    var c := "ATD+" + clean + ";";
    assert DialCommand(phoneNumber) == c;
    forall k | 4 <= k < |c| ensures c[k] != '+' {
      if k < |c| - 1 {
        assert c[k] == clean[k - 4];
      }
    }
  }

  /** A leading '+' on the number makes no difference, and a number without any
      '+' is inserted verbatim. */
  lemma DialCommandNumber(phoneNumber: string)
    ensures DialCommand("+" + phoneNumber) == DialCommand(phoneNumber)
    ensures (forall k :: 0 <= k < |phoneNumber| ==> phoneNumber[k] != '+') ==>
      DialCommand(phoneNumber) == "ATD+" + phoneNumber + ";"
  {
    assert ("+" + phoneNumber)[1..] == phoneNumber;
    assert RemoveAll("+" + phoneNumber, '+') == RemoveAll(phoneNumber, '+');
    if forall k :: 0 <= k < |phoneNumber| ==> phoneNumber[k] != '+' {
      RemoveAllAbsent(phoneNumber, '+');
    }
  }

  /** The reset comes first: ESC, read with no end markers; then, unless that read
      raised, the dial command. */
  lemma ResetAndDialWrites(script: seq<Incoming>, l: Link, phoneNumber: string)
    requires l.cursor <= |script|
    ensures var (l1, reply) := ResetAndDial(script, l, phoneNumber);
      && |l1.trace| >= |l.trace| + 2
      && l1.trace[|l.trace|] == Wrote(Esc + DefaultEol)
      && l1.trace[|l.trace| + 1] == Awaited(ResetTimeoutMs, [])
      && (Writes(l1.trace) == Writes(l.trace) + [Esc + DefaultEol] ||
          Writes(l1.trace) == Writes(l.trace) + [Esc + DefaultEol, DialCommand(phoneNumber) + DefaultEol])
      && (!reply.Raised? ==> Writes(l1.trace) == Writes(l.trace) + [Esc + DefaultEol, DialCommand(phoneNumber) + DefaultEol])
  {
    var (l1, reset) := Exec(script, l, Esc, ResetTimeoutMs, [], DefaultEol);
    ExecWritesOnce(script, l, Esc, ResetTimeoutMs, [], DefaultEol);
    if !reset.Raised? {
      var l2 := Pause(l1, ResetSettleMs);
      SendAndPauseWrites(l1, "", "", ResetSettleMs);
      ExecWritesOnce(script, l2, DialCommand(phoneNumber), DialTimeoutMs, DialMarkers, DefaultEol);
      assert l2.trace[|l.trace|] == l1.trace[|l.trace|];
    }
  }

  /** The first thing an attempt writes is ESC, whatever happens next. */
  lemma AttemptWritesEscFirst(script: seq<Incoming>, latency: nat -> nat, dialMs: nat, callMs: nat,
                              l: Link, phoneNumber: string)
    requires l.cursor <= |script|
    ensures var l1 := Attempt(script, latency, dialMs, callMs, l, phoneNumber).0;
      var before := Writes(l.trace);
      |Writes(l1.trace)| > |before| && Writes(l1.trace)[..|before| + 1] == before + [Esc + DefaultEol]
  {
    var (dialLink, dialReply) := ResetAndDial(script, l, phoneNumber);
    ResetAndDialWrites(script, l, phoneNumber);
    var st := AfterDialReply(script, latency, dialMs, callMs, dialLink, dialReply);
    var l1 := Attempt(script, latency, dialMs, callMs, l, phoneNumber).0;
    assert st.link.trace <= l1.trace;
    WritesPrefix(dialLink.trace, l1.trace);
    var before := Writes(l.trace);
    assert Writes(dialLink.trace)[..|before| + 1] == before + [Esc + DefaultEol];
  }

  /** A dial refused with BUSY or an error writes ESC and the dial command and nothing else. */
  lemma AttemptRefusedWrites(script: seq<Incoming>, latency: nat -> nat, dialMs: nat, callMs: nat,
                             l: Link, phoneNumber: string)
    requires l.cursor <= |script|
    ensures var (l1, result) := Attempt(script, latency, dialMs, callMs, l, phoneNumber);
      result == DialFailed(Busy) || (result.DialFailed? && result.error.ModemReplied?) ==>
        Writes(l1.trace) == Writes(l.trace) + [Esc + DefaultEol, DialCommand(phoneNumber) + DefaultEol]
  {
    var (dialLink, dialReply) := ResetAndDial(script, l, phoneNumber);
    ResetAndDialWrites(script, l, phoneNumber);
    DialReplyDecides(script, latency, dialMs, callMs, dialLink, dialReply);
  }

  /** An attempt that reports a reason wrote ESC, the dial command, one status query
      per poll (at least one) and finally ATH. */
  lemma AttemptEndedWrites(script: seq<Incoming>, latency: nat -> nat, dialMs: nat, callMs: nat,
                           l: Link, phoneNumber: string)
    requires l.cursor <= |script|
    ensures var (l1, result) := Attempt(script, latency, dialMs, callMs, l, phoneNumber);
      result.Ended? ==>
        exists k :: k >= 1 && Writes(l1.trace) == Writes(l.trace) + [Esc + DefaultEol, DialCommand(phoneNumber) + DefaultEol]
                                                  + StatusQueries(k) + [HangupCommand + DefaultEol]
  {
    var (dialLink, dialReply) := ResetAndDial(script, l, phoneNumber);
    var st := AfterDialReply(script, latency, dialMs, callMs, dialLink, dialReply);
    if st.Polled? {
      ResetAndDialWrites(script, l, phoneNumber);
      DialReplyDecides(script, latency, dialMs, callMs, dialLink, dialReply);
      PollingDecides(script, latency, dialMs, callMs, dialLink, dialReply);
      ExecWritesOnce(script, st.link, HangupCommand, HangupTimeoutMs, HangupMarkers, DefaultEol);
      var k :| k >= 1 && Writes(st.link.trace) == Writes(dialLink.trace) + StatusQueries(k);
      var l1 := Attempt(script, latency, dialMs, callMs, l, phoneNumber).0;
      assert Writes(l1.trace) == Writes(l.trace) + [Esc + DefaultEol, DialCommand(phoneNumber) + DefaultEol]
                                 + StatusQueries(k) + [HangupCommand + DefaultEol];
    }
  }

  /** A refused or failed dial neither polls nor hangs up; an attempt that polled
      to a reason always hangs up with ATH, and the reason it reports is exactly the
      polling outcome. */
  lemma AttemptOutcome(script: seq<Incoming>, latency: nat -> nat, dialMs: nat, callMs: nat,
                       l: Link, phoneNumber: string)
    requires l.cursor <= |script|
    ensures var st := UpToHangup(script, latency, dialMs, callMs, l, phoneNumber);
      var (l1, result) := Attempt(script, latency, dialMs, callMs, l, phoneNumber);
      && (st.Stopped? ==> l1 == st.link && result == st.result)
      && (st.Polled? ==> Writes(l1.trace) == Writes(st.link.trace) + [HangupCommand + DefaultEol]
                         && (result == Ended(st.reason) || result == DialFailed(ReadFailed)))
      && (result.Ended? <==> st.Polled? && result == Ended(st.reason))
  {
    var st := UpToHangup(script, latency, dialMs, callMs, l, phoneNumber);
    if st.Polled? {
      ExecWritesOnce(script, st.link, HangupCommand, HangupTimeoutMs, HangupMarkers, DefaultEol);
    }
  }

  /** The defect as written: no attempt ever reports a reason. Every attempt that
      gets through polling fails with the TypeError and writes no ATH, while the
      corrected attempt writes ATH at exactly that point. */
  lemma AsWrittenNeverReportsReason(script: seq<Incoming>, latency: nat -> nat, dialMs: nat, callMs: nat,
                                    l: Link, phoneNumber: string)
    requires l.cursor <= |script|
    ensures !AttemptAsWritten(script, latency, dialMs, callMs, l, phoneNumber).1.Ended?
    ensures var st := UpToHangup(script, latency, dialMs, callMs, l, phoneNumber);
      st.Polled? ==>
        && AttemptAsWritten(script, latency, dialMs, callMs, l, phoneNumber) == (st.link, DialFailed(HangupArgumentMissing))
        && Writes(Attempt(script, latency, dialMs, callMs, l, phoneNumber).0.trace) == Writes(st.link.trace) + [HangupCommand + DefaultEol]
  {
    var st := UpToHangup(script, latency, dialMs, callMs, l, phoneNumber);
    var (dialLink, dialReply) := ResetAndDial(script, l, phoneNumber);
    DialReplyDecides(script, latency, dialMs, callMs, dialLink, dialReply);
    if st.Polled? {
      ExecWritesOnce(script, st.link, HangupCommand, HangupTimeoutMs, HangupMarkers, DefaultEol);
    }
  }

  /** An attempt does not depend on what happened on the link before it: started
      after other events, it reads, writes and ends the same way. */
  lemma AttemptRebase(script: seq<Incoming>, latency: nat -> nat, dialMs: nat, callMs: nat,
                      l: Link, phoneNumber: string, t: seq<Event>, t2: seq<Event>)
    requires l.cursor <= |script| && t <= l.trace
    ensures var (l1, result) := Attempt(script, latency, dialMs, callMs, l, phoneNumber);
      t <= l1.trace && Attempt(script, latency, dialMs, callMs, Rebase(l, t, t2), phoneNumber) == (Rebase(l1, t, t2), result)
  {
    var (l1, reset) := Exec(script, l, Esc, ResetTimeoutMs, [], DefaultEol);
    RebaseCommutes(script, l, t, t2, Esc, ResetTimeoutMs, [], DefaultEol, ResetSettleMs);
    RebaseCommutes(script, l1, t, t2, Esc, ResetTimeoutMs, [], DefaultEol, ResetSettleMs);
    var l2 := Pause(l1, ResetSettleMs);
    RebaseCommutes(script, l2, t, t2, DialCommand(phoneNumber), DialTimeoutMs, DialMarkers, DefaultEol, 0);
    var (dialLink, dialReply) := ResetAndDial(script, l, phoneNumber);
    assert ResetAndDial(script, Rebase(l, t, t2), phoneNumber) == (Rebase(dialLink, t, t2), dialReply);
    AfterDialReplyRebase(script, latency, dialMs, callMs, dialLink, dialReply, t, t2);
    var st := AfterDialReply(script, latency, dialMs, callMs, dialLink, dialReply);
    RebaseCommutes(script, st.link, t, t2, HangupCommand, HangupTimeoutMs, HangupMarkers, DefaultEol, 0);
  }

  /** The voice dialer of the "atd" hardware setting. */
  class AtDialer {
    const dialMs: nat
    const callMs: nat

    constructor (dialTimeoutSec: nat, callDurationSec: nat)
      ensures dialMs == dialTimeoutSec * 1000 && callMs == callDurationSec * 1000
    {
      dialMs := dialTimeoutSec * 1000;
      callMs := callDurationSec * 1000;
    }

    /** `dial`, with the hangup corrected. */
    method Dial(modem: Modem, phoneNumber: string, latency: nat -> nat) returns (result: DialResult)
      requires modem.Valid()
      modifies modem`trace, modem`cursor
      ensures modem.Valid()
      ensures (modem.State(), result) == Attempt(modem.script, latency, dialMs, callMs, old(modem.State()), phoneNumber)
    {
      ghost var start := modem.State();
      var reset := modem.ExecuteAt(Esc, ResetTimeoutMs, [], DefaultEol);
      if reset.Raised? {
        return DialFailed(ReadFailed);
      }
      modem.Sleep(ResetSettleMs);
      var cleanNumber := RemoveAll(phoneNumber, '+');
      var lines := modem.ExecuteAt(AtCommand + "+" + cleanNumber + ";", DialTimeoutMs, DialMarkers, DefaultEol);
      assert (modem.State(), lines) == ResetAndDial(modem.script, start, phoneNumber);
      if lines.Raised? {
        return DialFailed(ReadFailed);
      }
      var reply := Join(lines.lines, " ");
      if Contains(reply, "BUSY") {
        return DialFailed(Busy);
      }
      if Contains(reply, "ERROR") || Contains(reply, "NO CARRIER") {
        return DialFailed(ModemReplied(reply));
      }
      var waited := WaitForAnswer(modem, dialMs, callMs, latency);
      var endedReason: EndedReason;
      match waited {
        case Returned(r) => endedReason := r;
        case DeadlineExpired => endedReason := NotAnswered;
        case Failed => return DialFailed(ReadFailed);
      }
      var hangup := modem.ExecuteAt(HangupCommand, HangupTimeoutMs, HangupMarkers, DefaultEol);
      if hangup.Raised? {
        return DialFailed(ReadFailed);
      }
      return Ended(endedReason);
    }
  }
}
