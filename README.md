# GSM call and SMS notifications: a Dafny model

This project models the core of the `gsm_call` Home Assistant integration. The
integration places voice calls and sends SMS messages through a GSM modem that
is driven with AT commands over a serial line. It has four parts:

- **The AT transaction engine** (`Modem.execute_at`, `send_command` and
  `_read_response`), in module `ModemIo`. One write of `command + terminator`
  is followed by reading stripped, non-blank reply lines. Reading stops at the
  first line that equals or starts with an end marker. When the command's
  timeout fires, the read returns the lines collected so far. The serial line
  is a script of incoming tokens:
  - a raw line;
  - the moment the current command's timeout fires;
  - a read that raises.

  The modem is a class with a read cursor, an event trace and a `closed` flag.
  The trace records writes, awaited reads and pauses.
- **The voice dialers**:
  - `CallsDialer`: the ESC reset, '+' stripping and an ATH hangup;
  - `HardwareDialer`: no reset, the number verbatim and an AT+CHUP hangup
    that is written but never read;
  - `ZteDialing`: a vendor command in front of the `CallsDialer` dial.

  They share the dial-reply checks (`Dialing`) and the answer-polling loop
  `_wait_for_answer` (`CallProgress`). Polling runs on an abstract millisecond
  clock. `latency(k)` is how long the k-th status query of an attempt takes.
  The deadline is re-armed once, on the first ringing reply.
- **The SMS senders**. `SmsLenient` is the sender the notification service
  uses: an ESC reset, a text mode that tolerates a missing OK, and an address
  step whose exceptions are swallowed. It also accepts OK as success and writes
  one more ESC after a failure. `SmsStrict` requires the `>` prompt and
  `+CMGS`. Module `Sms` holds what the two share.
- **The notification glue** (`Notify`, `PhoneNumber`):
  - phone-number validation;
  - service and dialer selection;
  - the class-level `modem` slots that act as the busy guard, including the SMS
    class's attribute that shadows the base class's once assigned;
  - the target loops of both `async_send_message` methods;
  - `terminate`.

Each imperative operation is a method proved against a specification function
on link values: `Exec`, `ReadFrom`, `PollFrom`, `Attempt`, `Submit`,
`CallTargets` and `SmsTargets`. The properties are lemmas about those
functions.

## Model

| member | source | states |
|---|---|---|
| `ModemIo.MatchIsPrefixTest` | custom_components/gsm_call/modem.py:42 | the "equals or starts with a marker" test holds exactly when some end marker is a prefix of the line |
| `ModemIo.ReadFromStops` | custom_components/gsm_call/modem.py:33-46 | a read consumes only lines before its last token. It raises exactly when that token is a failing read. It completes only on a line. A partial result comes from the timeout or from the end of the script |
| `ModemIo.ReadFromLines` | custom_components/gsm_call/modem.py:32-41 | the lines returned are the lines already collected, followed by the stripped non-blank lines of the consumed stretch, in arrival order |
| `ModemIo.ReadFromFirstMatch` | custom_components/gsm_call/modem.py:41-43 | a completed read ends on its first matching line. Its last line matches and no earlier new line does |
| `ModemIo.ReadSkipsPassing` | custom_components/gsm_call/modem.py:33-43 | the read goes past blank lines and lines matching no end marker, collecting the non-blank ones, and then carries on as from the first line after them |
| `ModemIo.MatchEndsRead` | custom_components/gsm_call/modem.py:41-43 | a non-blank line that equals or starts with an end marker, reached with only lines the read goes past before it, ends the read as complete right after that line, with every line collected up to and including it |
| `ModemIo.SilenceEndsRead` | custom_components/gsm_call/modem.py:33-46 | when the device falls silent after lines the read goes past, the read ends at the end of the script and returns every one of them, collected |
| `ModemIo.CollectedClean` | custom_components/gsm_call/modem.py:37-40 | every collected line is non-empty and has no surrounding whitespace |
| `ModemIo.ReplyIsCollectedLines` | custom_components/gsm_call/modem.py:32-40 | the reply of a command is exactly the non-blank incoming lines, stripped and in order, up to where the read stopped. None of them is empty or has surrounding whitespace |
| `ModemIo.CompleteEndsAtFirstMatch` | custom_components/gsm_call/modem.py:42-43 | a reply ended by a match is non-empty. Its last line starts with some end marker and no earlier line starts with any marker |
| `ModemIo.TimeoutReturnsCollected` | custom_components/gsm_call/modem.py:44-46 | a timeout never propagates. Lines the read goes past (blank, or matching no end marker), then the timeout, return exactly those lines, collected, and the read resumes after the timeout. A timeout before any line returns the empty list |
| `ModemIo.NoMarkersReadsUntilTimeout` | custom_components/gsm_call/modem.py:42-46 | with no end markers a read never completes on a line. It runs to the timeout, a failing read or the end of the script, and returns everything collected |
| `ModemIo.ExecWritesOnce` | custom_components/gsm_call/modem.py:20-27 | `execute_at` writes exactly once, and what it writes is the command followed by the terminator |
| `ModemIo.SendAndPauseWrites` | custom_components/gsm_call/modem.py:25-27 | `send_command` writes exactly `command + terminator` and reads nothing. A pause neither writes nor reads |
| `ModemIo.RebaseCommutes` | custom_components/gsm_call/modem.py:20-27 | `execute_at`, `send_command` and a pause behave the same whatever events came before them on the link |
| `ModemIo.Modem.constructor` | custom_components/gsm_call/modem.py:16-18 | a new modem is at the start of its script, with an empty trace, and is open |
| `ModemIo.Modem.SendCommand` | custom_components/gsm_call/modem.py:25-27 | appends one write of `command + terminator` and leaves the read position alone |
| `ModemIo.Modem.ExecuteAt` | custom_components/gsm_call/modem.py:20-23 | the new modem state and the response are those of `Exec` on the old state |
| `ModemIo.Modem.ReadResponse` | custom_components/gsm_call/modem.py:31-46 | the loop returns the response and read position of the specification `ReadFrom` and records one awaited read |
| `ModemIo.Modem.Sleep` | custom_components/gsm_call/calls/at_dialer.py:22 | a settle delay is one pause event and changes nothing else |
| `ModemIo.Modem.Close` | custom_components/gsm_call/notify.py:183-184 | closing the writer marks the modem closed |
| `Text.StripFacts` | custom_components/gsm_call/modem.py:37 | a stripped line has no surrounding whitespace. It is empty exactly when the raw line was all whitespace |
| `Text.RemoveAll` | custom_components/gsm_call/calls/at_dialer.py:25 | `replace("+", "")` leaves no '+' and never lengthens the number |
| `Text.RemoveAllAbsent` | custom_components/gsm_call/calls/at_dialer.py:25 | removing a character that does not occur changes nothing |
| `Text.RemoveAllSingle` | custom_components/gsm_call/calls/at_dialer.py:25 | a single character is dropped when it is the removed one and kept otherwise |
| `Text.RemoveAllAppend` | custom_components/gsm_call/calls/at_dialer.py:25 | removal distributes over concatenation, so the other characters stay in their order |
| `Text.RemoveAllKeepsOthers` | custom_components/gsm_call/calls/at_dialer.py:25 | only the removed character goes: every other character keeps its number of occurrences |
| `Text.RemoveAllExample` | custom_components/gsm_call/calls/at_dialer.py:25 | "12+34" becomes "1234" |
| `CallProgress.PollStep` | custom_components/gsm_call/calls/at_dialer.py:64-92 | each pass of the loop only advances the read position, the trace and the clock. It either leaves the loop, turns ringing on, or strictly shortens the time left before the deadline, so polling ends |
| `CallProgress.StatusNesting` | custom_components/gsm_call/calls/at_dialer.py:77-89 | a reply showing the call active or ringing also lists the call, so no reply is both ANSWERED and DECLINED |
| `CallProgress.StepMeaning` | custom_components/gsm_call/calls/at_dialer.py:68-92 | one pass ends ANSWERED only on a reply holding "+CLCC: 1,0,0" before the deadline. It ends DECLINED only on a reply without "+CLCC: 1,0". The deadline ending needs the clock at the deadline. A re-arm happens only on the first ringing and sets the deadline to now + call duration |
| `CallProgress.StepDecides` | custom_components/gsm_call/calls/at_dialer.py:68-92 | for every input, the result of a pass. The deadline reached after the status read gives the deadline ending. A raising read gives the failure. The first reply holding "+CLCC: 1,0,3" re-arms the deadline to now + call duration with no pause. Otherwise a reply holding "+CLCC: 1,0,0" gives ANSWERED, one without "+CLCC: 1,0" gives DECLINED, and any other reply sleeps one second, then ends on the deadline or goes round again |
| `CallProgress.FirstStopDecides` | custom_components/gsm_call/calls/at_dialer.py:68-92 | the loop's outcome is that of the first pass that leaves it |
| `CallProgress.RearmAtMostOnce` | custom_components/gsm_call/calls/at_dialer.py:62-82 | however many replies report ringing, the deadline is re-armed at most once per attempt |
| `CallProgress.OutcomeMeaning` | custom_components/gsm_call/calls/at_dialer.py:84-89 | over the whole loop, ANSWERED and DECLINED are each reached only on the matching reply, before the deadline. The deadline ending is reached only when the clock has reached the deadline |
| `CallProgress.RingingStaysRinging` | custom_components/gsm_call/calls/at_dialer.py:77-82 | once ringing has been seen, the deadline and the re-arm count never change again |
| `CallProgress.DeadlineRearm` | custom_components/gsm_call/calls/at_dialer.py:76-81 | without a re-arm the deadline never moves. A re-arm replaces the deadline with the time of a reply plus the call duration, so the final deadline lies between the start of polling plus the call duration and its end plus the call duration, and the dial timeout no longer counts |
| `CallProgress.StepEvents` | custom_components/gsm_call/calls/at_dialer.py:68-72 | one pass writes the status query, awaits its reply and may pause for the poll interval, nothing else |
| `CallProgress.PollsOnlyQueryStatus` | custom_components/gsm_call/hardware/at_dialer.py:60-82 | every event polling adds is a status query, its awaited reply or the one-second pause |
| `CallProgress.StepWrites` | custom_components/gsm_call/hardware/at_dialer.py:60-64 | one pass writes exactly one "AT+CLCC" and counts one poll |
| `CallProgress.PollWrites` | custom_components/gsm_call/calls/at_dialer.py:63-92 | polling polls at least once and writes exactly one "AT+CLCC" per poll |
| `CallProgress.StepRebase` | custom_components/gsm_call/hardware/at_dialer.py:65-82 | one pass behaves the same whatever events came before it |
| `CallProgress.PollRebase` | custom_components/gsm_call/hardware/at_dialer.py:50-82 | polling reads, writes and ends the same whatever events came before it |
| `CallProgress.WaitForAnswer` | custom_components/gsm_call/hardware/at_dialer.py:50-82 | the loop with the mutable `is_ringing` flag and deadline ends in the state and with the result of `PollFrom` |
| `Dialing.DialReplyDecides` | custom_components/gsm_call/calls/at_dialer.py:35-42 | BUSY in the reply fails with "Busy", even with ERROR present. "+CME ERROR" counts as ERROR. ERROR or NO CARRIER without BUSY fails with the reply text. Both failures happen at once, with nothing more read or written. Polling happens only after a clean reply |
| `Dialing.BusyLineFailsBusy` | custom_components/gsm_call/calls/at_dialer.py:35-39 | a line holding BUSY anywhere in the dial reply fails with "Busy", whether the reply completed or timed out |
| `Dialing.PollingDecides` | custom_components/gsm_call/calls/at_dialer.py:44-47 | after a clean reply the reason is the polling outcome, and deadline expiry reads as NOT_ANSWERED, not as an error. Only a failing status read stops the attempt. Polling writes only status queries, at least one |
| `Dialing.AfterDialReplyRebase` | custom_components/gsm_call/hardware/at_dialer.py:31-46 | what follows the dial reply does not depend on earlier events |
| `CallsDialer.DialCommandShape` | custom_components/gsm_call/calls/at_dialer.py:30-31 | the dial command is "ATD+", the number, then ";", with no '+' after the first |
| `CallsDialer.DialCommandNumber` | custom_components/gsm_call/calls/at_dialer.py:24-25 | a leading '+' on the number makes no difference. A number without '+' is inserted verbatim |
| `CallsDialer.ResetAndDialWrites` | custom_components/gsm_call/calls/at_dialer.py:20-34 | the first events are the ESC write and a read with no end markers. Then, unless that read raised, the dial command is written |
| `CallsDialer.AttemptWritesEscFirst` | custom_components/gsm_call/calls/at_dialer.py:21 | the first thing any attempt writes is ESC |
| `CallsDialer.AttemptRefusedWrites` | custom_components/gsm_call/calls/at_dialer.py:38-42 | a dial refused with BUSY or an error writes ESC and the dial command and nothing else: no AT+CLCC and no ATH |
| `CallsDialer.AttemptEndedWrites` | custom_components/gsm_call/calls/at_dialer.py:21-54 | an attempt that reports a reason wrote, in order, ESC, the dial command, one AT+CLCC per poll (at least one) and ATH |
| `CallsDialer.AttemptOutcome` | custom_components/gsm_call/calls/at_dialer.py:49-54 | a refused or failed dial neither polls nor hangs up. After polling, ATH is always written and the reported reason is exactly the polling outcome |
| `CallsDialer.AsWrittenNeverReportsReason` | custom_components/gsm_call/calls/at_dialer.py:51 | as written, no attempt ever returns a reason. Every attempt that gets through polling ends in the TypeError, with no ATH written |
| `CallsDialer.AttemptRebase` | custom_components/gsm_call/calls/at_dialer.py:18-57 | an attempt reads, writes and ends the same whatever events came before it |
| `CallsDialer.AtDialer.constructor` | custom_components/gsm_call/calls/at_dialer.py:14-16 | the dial timeout and call duration are kept, in milliseconds |
| `CallsDialer.AtDialer.Dial` | custom_components/gsm_call/calls/at_dialer.py:18-57 | the dial method ends in the state and with the result of `Attempt` |
| `HardwareDialer.AttemptOutcome` | custom_components/gsm_call/hardware/at_dialer.py:42-46 | a refused or failed dial neither polls nor hangs up. After polling, the hangup is exactly one AT+CHUP write with no read, it cannot fail, and the reason is the polling outcome |
| `HardwareDialer.AttemptWrites` | custom_components/gsm_call/hardware/at_dialer.py:21-35 | the first write is "ATD+" with the number verbatim and ";", with no reset before it. A refused dial writes nothing else. An attempt that reports a reason wrote the dial command, one AT+CLCC per poll and AT+CHUP |
| `HardwareDialer.AtDialer.constructor` | custom_components/gsm_call/hardware/at_dialer.py:16-18 | the dial timeout and call duration are kept, in milliseconds |
| `HardwareDialer.AtDialer.Dial` | custom_components/gsm_call/hardware/at_dialer.py:20-48 | the dial method ends in the state and with the result of `Attempt` |
| `ZteDialing.VendorCommandThenBaseDial` | custom_components/gsm_call/calls/zte_dialer.py:13-18 | the vendor command is written and not read, and a 500 ms pause follows. The calls dial then runs unchanged: same reads, same writes, same outcome or error |
| `ZteDialing.VendorCommandFirst` | custom_components/gsm_call/calls/zte_dialer.py:15 | the first two writes of a ZTE attempt are "AT%icscall=1,0" and then ESC |
| `ZteDialing.ZteDialer.constructor` | custom_components/gsm_call/calls/zte_dialer.py:12 | the inherited timeouts are those given, in milliseconds |
| `ZteDialing.ZteDialer.Dial` | custom_components/gsm_call/calls/zte_dialer.py:13-18 | the ZTE dial ends in the state and with the result of the vendor prelude followed by `CallsDialer.Attempt` |
| `SmsLenient.AddressCommandShape` | custom_components/gsm_call/sms/sms_sender.py:22-28 | the address command is `AT+CMGS="+`, the number, then `"`, with no other '+' after the quote, whatever '+' signs the number had |
| `SmsLenient.FinishDecides` | custom_components/gsm_call/sms/sms_sender.py:56-59 | success exactly when the final reply holds "+CMGS" or "OK". On failure exactly one ESC is written, read with no markers, before the error |
| `SmsLenient.SubmitWrites` | custom_components/gsm_call/sms/sms_sender.py:10-59 | the writes are, in order, ESC, AT+CMGF=1, the address command, then the body with "\r\x1A". A rejected address stops before the body. A failed body is followed by one ESC |
| `SmsLenient.SubmitErrors` | custom_components/gsm_call/sms/sms_sender.py:14-39 | a text-mode reply without OK and a missing ">" never fail a submission. It fails only on a failing read, an address reply holding ERROR, or a final reply with neither +CMGS nor OK. Once text mode is set, an address reply holding ERROR does fail it as rejected, and nothing is written after the address command |
| `SmsLenient.AddressExceptionSwallowed` | custom_components/gsm_call/sms/sms_sender.py:33-38 | an exception in the address step counts as an empty reply, and the body is still written |
| `SmsLenient.SendSms` | custom_components/gsm_call/sms/sms_sender.py:7-61 | the sender ends in the state and with the result of `Submit` |
| `SmsStrict.FinishDecides` | custom_components/gsm_call/hardware/sms_sender.py:40-41 | success exactly when the final reply holds "+CMGS". A reply of "OK" alone is a failure |
| `SmsStrict.SubmitStages` | custom_components/gsm_call/hardware/sms_sender.py:14-37 | a submission ends after the text-mode, the address or the body command, and its result names which: a text-mode failure after the first, a missing prompt after the second, success or a body failure after the third |
| `SmsStrict.SubmitWrites` | custom_components/gsm_call/hardware/sms_sender.py:14-37 | the writes are AT+CMGF=1, the address command with the number verbatim and the body with "\r\x1A", or a prefix of these, and nothing else. A text-mode failure stops after the first and a missing prompt after the second |
| `SmsStrict.SubmitStops` | custom_components/gsm_call/hardware/sms_sender.py:17-29 | ERROR in the text-mode reply fails before the address command. Any address reply without ">" fails "Failed to initiate SMS" before the body. This includes an echo cut by the timeout, a bare OK or ERROR, and an empty reply. An address reply with ">" leads to the body, and the body's reply decides |
| `SmsStrict.SendSms` | custom_components/gsm_call/hardware/sms_sender.py:11-43 | the sender ends in the state and with the result of `Submit` |
| `PhoneNumber.DigitsOnly` | custom_components/gsm_call/notify.py:121 | `re.sub(r"\D", "", s)` yields only digits and never lengthens the input |
| `PhoneNumber.ScanDigitsMeaning` | custom_components/gsm_call/notify.py:117 | the regular-expression run over `\d{1,14}$` accepts exactly an all-digit run up to the end, or up to a final newline, of the allowed length |
| `PhoneNumber.ScanMatchesPattern` | custom_components/gsm_call/notify.py:117-118 | the scan accepts exactly an optional '+', a digit run of 2 to 15 digits not starting with '0', and an optional final newline |
| `PhoneNumber.DigitsOnlyAppend` | custom_components/gsm_call/notify.py:121 | removing non-digits distributes over concatenation |
| `PhoneNumber.DigitsOnlyOfDigits` | custom_components/gsm_call/notify.py:121 | removing non-digits from a digit string changes nothing |
| `PhoneNumber.SplitAroundDigits` | custom_components/gsm_call/notify.py:117 | an accepted input is the optional '+', the digits and the optional newline, and neither end part holds a digit |
| `PhoneNumber.ValidateMeaning` | custom_components/gsm_call/notify.py:115-121 | validation succeeds exactly on the pattern. The number returned is the input's digit run: normalized, with the '+' and a final newline gone |
| `PhoneNumber.NormalizedAccepted` | custom_components/gsm_call/notify.py:117-121 | every normalized number is accepted and comes back unchanged: alone, behind a '+', and before a final newline |
| `PhoneNumber.ValidateIdempotent` | custom_components/gsm_call/notify.py:115-121 | validating a validated number gives it back unchanged |
| `Notify.SelectionTable` | custom_components/gsm_call/notify.py:61-75 | type "sms" selects the SMS service whatever the hardware. Otherwise the dialer is the table entry of the hardware, and "atd" with at_command "ATDT" becomes the tone dialer. An unknown hardware name is the table's KeyError |
| `Notify.ServiceSlots.constructor` | custom_components/gsm_call/notify.py:82 | both class-level modem slots start empty, and the SMS class has no attribute of its own |
| `Notify.CallTargetsNumbers` | custom_components/gsm_call/notify.py:146-157 | every valid target is called, in order, under its normalized number, and no invalid one is. A dial that raises stops the loop and is not reported, so the reported numbers are then a strict prefix |
| `Notify.SmsTargetsNumbers` | custom_components/gsm_call/notify.py:219-226 | the message goes to every valid target, in order, and to no invalid one. A send that raises stops the loop and is not counted |
| `Notify.DialWith` | custom_components/gsm_call/notify.py:153 | dialing with whichever dialer is held ends as that dialer's `Attempt` |
| `Notify.DialTargets` | custom_components/gsm_call/notify.py:146-157 | the call loop ends in the state, events and error of `CallTargets` |
| `Notify.SendToTargets` | custom_components/gsm_call/notify.py:219-226 | the SMS loop ends in the state, recipients and error of `SmsTargets` |
| `Notify.GsmCallService.constructor` | custom_components/gsm_call/notify.py:127-130 | the service keeps its device path, its dialer and the shared slots |
| `Notify.GsmCallService.Connect` | custom_components/gsm_call/notify.py:161-175 | a fresh, open modem at the start of its script is stored in the base-class slot |
| `Notify.GsmCallService.Terminate` | custom_components/gsm_call/notify.py:177-185 | the modem in the base-class slot, if any, is closed with its state otherwise unchanged, and the slot is left empty |
| `Notify.GsmCallService.AsyncSendMessage` | custom_components/gsm_call/notify.py:132-159 | no targets: nothing is opened. A modem already in the slot: busy, nothing opened. Otherwise a modem is opened, the target loop runs as `CallTargets`, and the modem ends closed with the slot empty, after a dial error too |
| `Notify.GsmSmsService.constructor` | custom_components/gsm_call/notify.py:191-194 | the service keeps its device path and the shared slots |
| `Notify.GsmSmsService.Connect` | custom_components/gsm_call/notify.py:230-244 | a fresh, open modem is stored in the SMS class's own attribute, which from then on shadows the base class's |
| `Notify.GsmSmsService.Terminate` | custom_components/gsm_call/notify.py:246-254 | if the SMS class sees a modem (its own, or the base class's through the fallback), that modem is closed and the SMS class's own attribute becomes None. Otherwise nothing changes |
| `Notify.GsmSmsService.AsyncSendMessage` | custom_components/gsm_call/notify.py:196-228 | no targets, an empty message, characters outside the alphabet or a modem already visible each end the request before anything is opened, in that order. Otherwise the loop runs as `SmsTargets` and the modem ends closed with the SMS slot empty |

## Left out

- Opening the serial port and its parameters are I/O. `Notify.GsmCallService.Connect` and `Notify.GsmSmsService.Connect` always succeed and build a modem over the script the device will send.
- `GsmBaseNotificationService.connect` and `terminate` (notify.py:89-113) are overridden by both services and never reached through them, so they are not modelled.
- `GsmBaseNotificationService.__init__` (notify.py:84-87) does run, through `super().__init__(device_path)` in both services. It stores `device_path`, which the services' constructors keep. It also sets the instance attribute `self.modem` to None. No service reads that attribute: they use the class attributes. So the model has no field for it.
- The Home Assistant event bus: the `gsm_call_ended` events are returned as the `events` of `CallsDone`/`CallsAborted` and not fired.
- The voluptuous schema, its defaults and `cv.isdevice`: `Config` carries the values after validation. Logging is not modelled.
- `Notify.GsmSmsService.AsyncSendMessage`: the `GSM_7BIT_ALPHABET` match is the boolean input `inAlphabet`, not a model of the regular expression.
- The `atdt` and `gtm382` dialers: `calls/at_tone_dialer.py` and `calls/gtm382_dialer.py` are not part of this model. `SelectService` selects them, but `CallDialer` only holds the `atd` and `zte` dialers.
- `hardware/at_dialer.py` and `hardware/sms_sender.py` are modelled on their own. The notification services use `calls/at_dialer.py` and `sms/sms_sender.py`, and so does `Notify`.
- asyncio timing is an abstract clock:
  - `asyncio.timeout` of a read is the `Expiry` token in the script;
  - sleeps are `Paused` events;
  - the polling deadline is compared with the clock after each status read and each one-second sleep, the only points where it can fire.
- `CallProgress.WaitForAnswer`: a status read cut short by the polling deadline is modelled as having consumed its whole reply.
- `Notify.DialTargets`: every attempt of one request uses the same `latency` function, indexed by the poll number within the attempt.
- Encoding and decoding of bytes are left out: lines are already-decoded strings.
- A serial EOF is left out: once the script ends the device is silent and a read ends as at its timeout.
- A line longer than `READ_LIMIT` is one of the reads that raise (`Broken`).
- "Timeout while dialing" (calls/at_dialer.py:56-57, hardware/at_dialer.py:47-48) cannot be reached, because `_read_response` swallows the timeout, so it has no model.
- `PhoneNumber.Validate`: `\d` is taken as the ASCII digits. Python's `re` also accepts other Unicode decimal digits, and `re.sub(r"\D", "")` would keep them.
- Concurrency: two requests interleaving at their awaits are not modelled. Each `AsyncSendMessage` runs from start to end in one piece, so the busy guard is checked without races.
- `ZTEDialer` subclasses `ATDialer`. `ZteDialing.ZteDialer` holds a `CallsDialer.AtDialer` and delegates to it instead.
- Exceptions raised inside a dial or send leave `AsyncSendMessage` after `terminate`. They are the `error` of `CallsAborted`/`SmsAborted`, not raised.
- `SmsBadCharacters` stands for the HomeAssistantError of the alphabet check. Like every other ending, it is a `SmsRun` value.
- `Notify.DialWith`, `Notify.CallTargetsNumbers`, `Notify.DialTargets` and `Notify.GsmCallService.AsyncSendMessage` are modelled over the corrected `CallsDialer.Attempt`. As written, a target whose attempt gets through polling raises TypeError at the ATH call (see Findings). The call loop then stops at that target and fires no `gsm_call_ended` event. That behaviour is `CallsDialer.AttemptAsWritten`, and the service loop is not modelled over it.
- `ZteDialing.ZteDialer.Dial`, `ZteDialing.VendorCommandThenBaseDial` and `ZteDialing.VendorCommandFirst` likewise run the corrected `CallsDialer.Attempt`. As written, a ZTE dial that gets through polling raises the same TypeError before ATH is written.
- `CallsDialer.Attempt`: the end markers of the corrected ATH read are assumed to be those of the status query, OK, ERROR and +CME ERROR. The source gives none (see Findings).

## Findings

| source | as written | input that shows it | evidently intended | confidence | as-written member | corrected member |
|---|---|---|---|---|---|---|
| custom_components/gsm_call/calls/at_dialer.py:51 | `modem.execute_at("ATH", timeout=2)` leaves out the required `end_markers` argument. The call raises TypeError before anything is written, so `dial` never returns a reason and never hangs up. | ESC read times out, dial reply "OK", then a status reply "+CLCC: 1,0,0" and "OK" | ATH is written and its reply read, and `dial` returns ANSWERED | high; not executed | `CallsDialer.AttemptAsWritten`, shown by `CallsDialer.AsWrittenNeverReportsReason` | `CallsDialer.Attempt`, with `CallsDialer.AttemptOutcome` and `CallsDialer.AttemptEndedWrites` |
