// The notification services of custom_components/gsm_call/notify.py: which
// service and dialer a configuration selects, the class-level modem slots the
// services guard on, and the target loops of the two `async_send_message`
// methods.
//
// Opening the serial port is `Connect`, which builds a Modem over the script
// of what the device will send; it does not fail in this model.

module Notify {
  import opened ModemIo
  import opened Const
  import opened Dialing
  import opened Sms
  import opened PhoneNumber
  import CallsDialer
  import ZteDialing
  import SmsLenient

  datatype Option<T> = None | Some(value: T)

  /** The configuration keys `get_service` reads. `serviceType` is None when the
      "type" key is absent; the others carry the schema's defaults when not given. */
  datatype Config = Config(serviceType: Option<string>, device: string, hardware: string, atCommand: string,
                           dialTimeoutSec: nat, callDurationSec: nat)

  datatype DialerKind = Atd | Atdt | Zte | Gtm382

  /** SUPPORTED_DIALERS. */
  const SupportedDialers: map<string, DialerKind> := map["atd" := Atd, "atdt" := Atdt, "zte" := Zte, "gtm382" := Gtm382]

  /** What `get_service` builds; UnknownHardware is the KeyError of the table lookup. */
  datatype Selection =
    | SmsService(device: string)
    | CallService(device: string, dialer: DialerKind, dialTimeoutSec: nat, callDurationSec: nat)
    | UnknownHardware

  /** The dialer name: the hardware setting, with "atd" plus at_command "ATDT" read as "atdt". */
  function DialerName(config: Config): string
  {
    if config.hardware == "atd" && config.atCommand == "ATDT" then "atdt" else config.hardware
  }

  /** `get_service`. */
  function SelectService(config: Config): Selection
  {
    var serviceType := if config.serviceType.Some? then config.serviceType.value else "call";
    if serviceType == "sms" then SmsService(config.device)
    else
      var name := DialerName(config);
      if name in SupportedDialers then
        CallService(config.device, SupportedDialers[name], config.dialTimeoutSec, config.callDurationSec)
      else UnknownHardware
  }

  /** Type "sms" selects the SMS service whatever the hardware; any other type, or
      none, selects a call service whose dialer is the table entry of the hardware,
      except that "atd" with at_command "ATDT" becomes the tone dialer; at_command
      matters for no other hardware. */
  lemma SelectionTable(config: Config)
    ensures SelectService(config).SmsService? <==> config.serviceType == Some("sms")
    ensures config.serviceType != Some("sms") && config.hardware in SupportedDialers ==>
      SelectService(config) == CallService(config.device,
        if config.hardware == "atd" && config.atCommand == "ATDT" then Atdt else SupportedDialers[config.hardware],
        config.dialTimeoutSec, config.callDurationSec)
    ensures SelectService(config).CallService? && SelectService(config).dialer == Atdt <==>
      config.serviceType != Some("sms") && (config.hardware == "atdt" || (config.hardware == "atd" && config.atCommand == "ATDT"))
    ensures SelectService(config) == UnknownHardware <==>
      config.serviceType != Some("sms") && config.hardware !in SupportedDialers
  {
    assert "atdt" in SupportedDialers && SupportedDialers["atdt"] == Atdt;
    assert SupportedDialers["atd"] == Atd && SupportedDialers["zte"] == Zte && SupportedDialers["gtm382"] == Gtm382;
  }

  /** The class-level `modem` attributes. GsmSmsNotificationService reads its own
      attribute, which falls back to the base class's until the SMS service first
      assigns it; from then on it shadows the base class's, even once reset to None. */
  class ServiceSlots {
    /** GsmBaseNotificationService.modem */
    var baseModem: Modem?
    /** whether GsmSmsNotificationService has an attribute `modem` of its own */
    var smsOwn: bool
    /** that attribute */
    var smsModem: Modem?

    constructor ()
      ensures baseModem == null && !smsOwn && smsModem == null
    {
      baseModem := null;
      smsOwn := false;
      smsModem := null;
    }

    /** GsmSmsNotificationService.modem, as attribute lookup resolves it. */
    function SmsView(): Modem?
      reads this
    {
      if smsOwn then smsModem else baseModem
    }
  }

  /** A call ended: the payload of the gsm_call_ended event. */
  datatype CallEnded = CallEnded(phoneNumber: string, reason: EndedReason)

  /** The dialers the call service can hold in this model. */
  datatype CallDialer = AtdDialer(atd: CallsDialer.AtDialer) | ZteCallDialer(zte: ZteDialing.ZteDialer)

  /** `dialer.dial` for the dialer held. */
  function DialSpec(d: CallDialer, script: seq<Incoming>, latency: nat -> nat, l: Link, phoneNumber: string): (r: (Link, DialResult))
    requires l.cursor <= |script|
    ensures l.cursor <= r.0.cursor <= |script|
  {
    match d
    case AtdDialer(a) => CallsDialer.Attempt(script, latency, a.dialMs, a.callMs, l, phoneNumber)
    case ZteCallDialer(z) => ZteDialing.Attempt(script, latency, z.base.dialMs, z.base.callMs, l, phoneNumber)
  }

  /** The numbers the valid targets normalize to, in order. */
  function ValidNumbers(targets: seq<string>): seq<string>
  {
    if targets == [] then []
    else (match Validate(targets[0]) case Valid(n) => [n] case Invalid => []) + ValidNumbers(targets[1..])
  }

  function CalledNumbers(events: seq<CallEnded>): seq<string>
  {
    if events == [] then [] else [events[0].phoneNumber] + CalledNumbers(events[1..])
  }

  /** The call service's target loop: invalid targets are skipped, each valid one is
      dialed and reported; the first dial that raises ends the loop with its error. */
  function CallTargets(d: CallDialer, script: seq<Incoming>, latency: nat -> nat, l: Link, targets: seq<string>)
    : (r: (Link, seq<CallEnded>, Option<DialError>))
    requires l.cursor <= |script|
    ensures l.cursor <= r.0.cursor <= |script|
    decreases |targets|
  {
    if targets == [] then (l, [], None)
    else
      match Validate(targets[0])
      case Invalid => CallTargets(d, script, latency, l, targets[1..])
      case Valid(phoneNumber) =>
        var (l1, result) := DialSpec(d, script, latency, l, phoneNumber);
        match result
        case DialFailed(error) => (l1, [], Some(error))
        case Ended(reason) =>
          var (l2, events, error) := CallTargets(d, script, latency, l1, targets[1..]);
          (l2, [CallEnded(phoneNumber, reason)] + events, error)
  }

  /** Every valid target is called, in order, under its normalized number, and no
      invalid one is; a dial that raises stops the loop, and its number is not
      reported, so the numbers reported are then a strict prefix. */
  lemma {:induction false} CallTargetsNumbers(d: CallDialer, script: seq<Incoming>, latency: nat -> nat, l: Link, targets: seq<string>)
    requires l.cursor <= |script|
    ensures var (_, events, error) := CallTargets(d, script, latency, l, targets);
      && (error.None? ==> CalledNumbers(events) == ValidNumbers(targets))
      && (error.Some? ==> CalledNumbers(events) < ValidNumbers(targets))
    decreases |targets|
  {
    if targets != [] {
      match Validate(targets[0])
      case Invalid =>
        CallTargetsNumbers(d, script, latency, l, targets[1..]);
      case Valid(phoneNumber) =>
        var (l1, result) := DialSpec(d, script, latency, l, phoneNumber);
        if result.Ended? {
          CallTargetsNumbers(d, script, latency, l1, targets[1..]);
          var (l2, events, error) := CallTargets(d, script, latency, l1, targets[1..]);
          assert CalledNumbers([CallEnded(phoneNumber, result.reason)] + events) == [phoneNumber] + CalledNumbers(events) by {
            assert ([CallEnded(phoneNumber, result.reason)] + events)[1..] == events;
          }
        }
    }
  }

  /** The SMS service's target loop: invalid targets are skipped, the message is
      sent to each valid one; the first send that raises ends the loop. */
  function SmsTargets(script: seq<Incoming>, l: Link, targets: seq<string>, message: string)
    : (r: (Link, seq<string>, Option<SmsError>))
    requires l.cursor <= |script|
    ensures l.cursor <= r.0.cursor <= |script|
    decreases |targets|
  {
    if targets == [] then (l, [], None)
    else
      match Validate(targets[0])
      case Invalid => SmsTargets(script, l, targets[1..], message)
      case Valid(phoneNumber) =>
        var (l1, result) := SmsLenient.Submit(script, l, phoneNumber, message);
        match result
        case SmsFailed(error) => (l1, [], Some(error))
        case Sent =>
          var (l2, sentTo, error) := SmsTargets(script, l1, targets[1..], message);
          (l2, [phoneNumber] + sentTo, error)
  }

  /** The message goes to every valid target, in order, and to no invalid one;
      a send that raises stops the loop and is not counted as sent. */
  lemma {:induction false} SmsTargetsNumbers(script: seq<Incoming>, l: Link, targets: seq<string>, message: string)
    requires l.cursor <= |script|
    ensures var (_, sentTo, error) := SmsTargets(script, l, targets, message);
      && (error.None? ==> sentTo == ValidNumbers(targets))
      && (error.Some? ==> sentTo < ValidNumbers(targets))
    decreases |targets|
  {
    if targets != [] {
      match Validate(targets[0])
      case Invalid =>
        SmsTargetsNumbers(script, l, targets[1..], message);
      case Valid(phoneNumber) =>
        var (l1, result) := SmsLenient.Submit(script, l, phoneNumber, message);
        if result.Sent? {
          SmsTargetsNumbers(script, l1, targets[1..], message);
        }
    }
  }

  /** `kwargs.get(ATTR_TARGET)` is truthy: present and not empty. */
  predicate HasTargets(targets: Option<seq<string>>)
  {
    targets.Some? && targets.value != []
  }

  /** How a call request ends. */
  datatype CallRun =
    | CallNoTargets                                  // "At least 1 target is required"
    | CallBusy                                       // "Already making a voice call"
    | CallsDone(events: seq<CallEnded>)
    | CallsAborted(events: seq<CallEnded>, error: DialError)

  /** How an SMS request ends. */
  datatype SmsRun =
    | SmsNoTargets                                   // "At least 1 target is required"
    | SmsEmptyMessage                                // "SMS requires a non-empty message"
    | SmsBadCharacters                               // the HomeAssistantError of the alphabet check
    | SmsBusy                                        // "Already connected to the modem for SMS"
    | SmsDone(sentTo: seq<string>)
    | SmsAborted(sentTo: seq<string>, error: SmsError)

  /** `dialer.dial` on the dialer held. */
  method DialWith(d: CallDialer, modem: Modem, phoneNumber: string, latency: nat -> nat) returns (result: DialResult)
    requires modem.Valid()
    modifies modem`trace, modem`cursor
    ensures modem.Valid()
    ensures (modem.State(), result) == DialSpec(d, modem.script, latency, old(modem.State()), phoneNumber)
  {
    match d {
      case AtdDialer(a) => result := a.Dial(modem, phoneNumber, latency);
      case ZteCallDialer(z) => result := z.Dial(modem, phoneNumber, latency);
    }
  }

  /** The `for target in targets` loop of GsmCallNotificationService.async_send_message. */
  method DialTargets(d: CallDialer, modem: Modem, targets: seq<string>, latency: nat -> nat)
    returns (events: seq<CallEnded>, error: Option<DialError>)
    requires modem.Valid()
    modifies modem`trace, modem`cursor
    ensures modem.Valid()
    ensures (modem.State(), events, error) == CallTargets(d, modem.script, latency, old(modem.State()), targets)
  {
    ghost var goal := CallTargets(d, modem.script, latency, modem.State(), targets);
    events := [];
    var i := 0;
    assert targets[i..] == targets && events + goal.1 == goal.1;
    while i < |targets|
      invariant 0 <= i <= |targets| && modem.Valid()
      invariant var r := CallTargets(d, modem.script, latency, modem.State(), targets[i..]);
        r.0 == goal.0 && events + r.1 == goal.1 && r.2 == goal.2
    {
      assert targets[i..][0] == targets[i] && targets[i..][1..] == targets[i + 1..];
      var validated := Validate(targets[i]);
      if validated.Invalid? {
        i := i + 1;
        continue;
      }
      var result := DialWith(d, modem, validated.number, latency);
      if result.DialFailed? {
        assert events + [] == events;
        return events, Some(result.error);
      }
      var ev := CallEnded(validated.number, result.reason);
      ghost var rest := CallTargets(d, modem.script, latency, modem.State(), targets[i + 1..]);
      assert (events + [ev]) + rest.1 == events + ([ev] + rest.1);
      events := events + [ev];
      i := i + 1;
    }
    assert targets[i..] == [] && events + [] == events;
    error := None;
  }

  /** The `for target in targets` loop of GsmSmsNotificationService.async_send_message. */
  method SendToTargets(modem: Modem, targets: seq<string>, message: string)
    returns (sentTo: seq<string>, error: Option<SmsError>)
    requires modem.Valid()
    modifies modem`trace, modem`cursor
    ensures modem.Valid()
    ensures (modem.State(), sentTo, error) == SmsTargets(modem.script, old(modem.State()), targets, message)
  {
    ghost var goal := SmsTargets(modem.script, modem.State(), targets, message);
    sentTo := [];
    var i := 0;
    assert targets[i..] == targets && sentTo + goal.1 == goal.1;
    while i < |targets|
      invariant 0 <= i <= |targets| && modem.Valid()
      invariant var r := SmsTargets(modem.script, modem.State(), targets[i..], message);
        r.0 == goal.0 && sentTo + r.1 == goal.1 && r.2 == goal.2
    {
      assert targets[i..][0] == targets[i] && targets[i..][1..] == targets[i + 1..];
      var validated := Validate(targets[i]);
      if validated.Invalid? {
        i := i + 1;
        continue;
      }
      var result := SmsLenient.SendSms(modem, validated.number, message);
      if result.SmsFailed? {
        assert sentTo + [] == sentTo;
        return sentTo, Some(result.error);
      }
      ghost var rest := SmsTargets(modem.script, modem.State(), targets[i + 1..], message);
      assert (sentTo + [validated.number]) + rest.1 == sentTo + ([validated.number] + rest.1);
      sentTo := sentTo + [validated.number];
      i := i + 1;
    }
    assert targets[i..] == [] && sentTo + [] == sentTo;
    error := None;
  }

  /** GsmCallNotificationService. */
  class GsmCallService {
    const devicePath: string
    const dialer: CallDialer
    const slots: ServiceSlots

    constructor (devicePath: string, dialer: CallDialer, slots: ServiceSlots)
      ensures this.devicePath == devicePath && this.dialer == dialer && this.slots == slots
    {
      this.devicePath := devicePath;
      this.dialer := dialer;
      this.slots := slots;
    }

    /** `connect`: open the device and store the modem in the base-class slot. */
    method Connect(script: seq<Incoming>) returns (modem: Modem)
      modifies slots`baseModem
      ensures fresh(modem) && modem.Valid() && modem.script == script
      ensures modem.State() == Link(0, []) && !modem.closed
      ensures slots.baseModem == modem
    {
      modem := new Modem(script);
      slots.baseModem := modem;
    }

    /** `terminate`: close the base-class modem, if any, and clear the slot. */
    method Terminate()
      modifies slots`baseModem, slots.baseModem
      ensures slots.baseModem == null
      ensures old(slots.baseModem) != null ==>
        old(slots.baseModem).closed && old(slots.baseModem).State() == old(slots.baseModem.State())
    {
      if slots.baseModem == null {
        return;
      }
      slots.baseModem.Close();
      slots.baseModem := null;
    }

    /** `async_send_message`. `connected` is the modem the request opened, if any. */
    method AsyncSendMessage(targets: Option<seq<string>>, script: seq<Incoming>, latency: nat -> nat)
      returns (run: CallRun, ghost connected: Modem?)
      modifies slots`baseModem
      ensures !HasTargets(targets) ==> run == CallNoTargets && connected == null && slots.baseModem == old(slots.baseModem)
      ensures HasTargets(targets) && old(slots.baseModem) != null ==>
        run == CallBusy && connected == null && slots.baseModem == old(slots.baseModem)
      ensures HasTargets(targets) && old(slots.baseModem) == null ==>
        && connected != null && fresh(connected) && connected.closed && slots.baseModem == null
        && var (l, events, error) := CallTargets(dialer, script, latency, Link(0, []), targets.value);
           connected.State() == l && run == (if error.None? then CallsDone(events) else CallsAborted(events, error.value))
    {
      connected := null;
      if !HasTargets(targets) {
        return CallNoTargets, connected;
      }
      if slots.baseModem != null {
        return CallBusy, connected;
      }
      var modem := Connect(script);
      connected := modem;
      var events, error := DialTargets(dialer, modem, targets.value, latency);
      Terminate();
      run := if error.None? then CallsDone(events) else CallsAborted(events, error.value);
    }
  }

  /** GsmSmsNotificationService. `inAlphabet` is the verdict of the GSM_7BIT_ALPHABET
      match on the message. */
  class GsmSmsService {
    const devicePath: string
    const slots: ServiceSlots

    constructor (devicePath: string, slots: ServiceSlots)
      ensures this.devicePath == devicePath && this.slots == slots
    {
      this.devicePath := devicePath;
      this.slots := slots;
    }

    /** `connect`: open the device and store the modem in the SMS class's own slot. */
    method Connect(script: seq<Incoming>) returns (modem: Modem)
      modifies slots`smsOwn, slots`smsModem
      ensures fresh(modem) && modem.Valid() && modem.script == script
      ensures modem.State() == Link(0, []) && !modem.closed
      ensures slots.smsOwn && slots.smsModem == modem
    {
      modem := new Modem(script);
      slots.smsOwn := true;
      slots.smsModem := modem;
    }

    /** `terminate`: close the modem the SMS class sees, if any, and clear its own slot. */
    method Terminate()
      modifies slots`smsOwn, slots`smsModem, slots.SmsView()
      ensures slots.SmsView() == null && slots.baseModem == old(slots.baseModem)
      ensures old(slots.SmsView()) == null ==> slots.smsOwn == old(slots.smsOwn) && slots.smsModem == old(slots.smsModem)
      ensures old(slots.SmsView()) != null ==>
        && old(slots.SmsView()).closed && old(slots.SmsView()).State() == old(slots.SmsView().State())
        && slots.smsOwn && slots.smsModem == null
    {
      if slots.SmsView() == null {
        return;
      }
      slots.SmsView().Close();
      slots.smsOwn := true;
      slots.smsModem := null;
    }

    /** `async_send_message`. `connected` is the modem the request opened, if any. */
    method AsyncSendMessage(message: string, targets: Option<seq<string>>, inAlphabet: bool, script: seq<Incoming>)
      returns (run: SmsRun, ghost connected: Modem?)
      modifies slots`smsOwn, slots`smsModem
      ensures !HasTargets(targets) ==> run == SmsNoTargets
      ensures HasTargets(targets) && message == [] ==> run == SmsEmptyMessage
      ensures HasTargets(targets) && message != [] && !inAlphabet ==> run == SmsBadCharacters
      ensures HasTargets(targets) && message != [] && inAlphabet && old(slots.SmsView()) != null ==> run == SmsBusy
      ensures run.SmsNoTargets? || run.SmsEmptyMessage? || run.SmsBadCharacters? || run.SmsBusy? ==>
        connected == null && slots.smsOwn == old(slots.smsOwn) && slots.smsModem == old(slots.smsModem)
      ensures HasTargets(targets) && message != [] && inAlphabet && old(slots.SmsView()) == null ==>
        && connected != null && fresh(connected) && connected.closed
        && slots.smsOwn && slots.smsModem == null && slots.SmsView() == null
        && var (l, sentTo, error) := SmsTargets(script, Link(0, []), targets.value, message);
           connected.State() == l && run == (if error.None? then SmsDone(sentTo) else SmsAborted(sentTo, error.value))
    {
      connected := null;
      if !HasTargets(targets) {
        return SmsNoTargets, connected;
      }
      if message == [] {
        return SmsEmptyMessage, connected;
      }
      if !inAlphabet {
        return SmsBadCharacters, connected;
      }
      if slots.SmsView() != null {
        return SmsBusy, connected;
      }
      var modem := Connect(script);
      connected := modem;
      var sentTo, error := SendToTargets(modem, targets.value, message);
      Terminate();
      run := if error.None? then SmsDone(sentTo) else SmsAborted(sentTo, error.value);
    }
  }
}
