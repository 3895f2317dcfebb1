// `ZTEDialer.dial` of custom_components/gsm_call/calls/zte_dialer.py: a vendor
// command written without reading its reply, a half-second pause, then the
// whole dial of custom_components/gsm_call/calls/at_dialer.py. The subclass is
// modelled by composition: the ZTE dialer holds a calls dialer with the same
// timeouts and delegates to it.

module ZteDialing {
  import opened ModemIo
  import opened Dialing
  import CallsDialer

  const VendorCommand: string := "AT%icscall=1,0"
  const VendorSettleMs: nat := 500

  /** One attempt: the vendor command and pause, then the calls dial. */
  function Attempt(script: seq<Incoming>, latency: nat -> nat, dialMs: nat, callMs: nat,
                   l: Link, phoneNumber: string): (r: (Link, DialResult))
    requires l.cursor <= |script|
  {
    CallsDialer.Attempt(script, latency, dialMs, callMs, Pause(Send(l, VendorCommand, DefaultEol), VendorSettleMs), phoneNumber)
  }

  /** The vendor command is written and nothing is read for it; after the pause the
      calls dial runs exactly as it would on its own at the same point of the
      conversation: same reads, same writes, same outcome or error. */
  lemma VendorCommandThenBaseDial(script: seq<Incoming>, latency: nat -> nat, dialMs: nat, callMs: nat,
                                  l: Link, phoneNumber: string)
    requires l.cursor <= |script|
    ensures var (z, zResult) := Attempt(script, latency, dialMs, callMs, l, phoneNumber);
      var (c, cResult) := CallsDialer.Attempt(script, latency, dialMs, callMs, l, phoneNumber);
      && zResult == cResult
      && z.cursor == c.cursor
      && |l.trace| <= |c.trace|
      && z.trace == l.trace + [Wrote(VendorCommand + DefaultEol), Paused(VendorSettleMs)] + c.trace[|l.trace|..]
  {
    var prelude := l.trace + [Wrote(VendorCommand + DefaultEol), Paused(VendorSettleMs)];
    CallsDialer.AttemptRebase(script, latency, dialMs, callMs, l, phoneNumber, l.trace, prelude);
    assert Pause(Send(l, VendorCommand, DefaultEol), VendorSettleMs) == Rebase(l, l.trace, prelude);
  }

  /** The first two writes of an attempt are the vendor command and then ESC. */
  lemma VendorCommandFirst(script: seq<Incoming>, latency: nat -> nat, dialMs: nat, callMs: nat,
                           l: Link, phoneNumber: string)
    requires l.cursor <= |script|
    ensures var z := Attempt(script, latency, dialMs, callMs, l, phoneNumber).0;
      var before := Writes(l.trace);
      |Writes(z.trace)| >= |before| + 2 &&
      Writes(z.trace)[..|before| + 2] == before + [VendorCommand + DefaultEol, Esc + DefaultEol]
  {
    var l1 := Pause(Send(l, VendorCommand, DefaultEol), VendorSettleMs);
    SendAndPauseWrites(l, VendorCommand, DefaultEol, VendorSettleMs);
    SendAndPauseWrites(Send(l, VendorCommand, DefaultEol), VendorCommand, DefaultEol, VendorSettleMs);
    CallsDialer.AttemptWritesEscFirst(script, latency, dialMs, callMs, l1, phoneNumber);
    var z := Attempt(script, latency, dialMs, callMs, l, phoneNumber).0;
    var before := Writes(l.trace);
    assert Writes(l1.trace) == before + [VendorCommand + DefaultEol];
    assert Writes(z.trace)[..|before| + 2] == Writes(z.trace)[..|Writes(l1.trace)| + 1];
  }

  /** The ZTE voice dialer: the calls dialer with a vendor command in front. */
  class ZteDialer {
    const base: CallsDialer.AtDialer

    constructor (dialTimeoutSec: nat, callDurationSec: nat)
      ensures base.dialMs == dialTimeoutSec * 1000 && base.callMs == callDurationSec * 1000
    {
      base := new CallsDialer.AtDialer(dialTimeoutSec, callDurationSec);
    }

    method Dial(modem: Modem, phoneNumber: string, latency: nat -> nat) returns (result: DialResult)
      requires modem.Valid()
      modifies modem`trace, modem`cursor
      ensures modem.Valid()
      ensures (modem.State(), result) == Attempt(modem.script, latency, base.dialMs, base.callMs, old(modem.State()), phoneNumber)
    {
      modem.SendCommand(VendorCommand, DefaultEol);
      modem.Sleep(VendorSettleMs);
      result := base.Dial(modem, phoneNumber, latency);
    }
  }
}
