// What the two SMS senders share: the text-mode command, the end markers of
// the three SMS steps, and the errors a submission can end with.

module Sms {
  const TextModeCommand: string := "AT+CMGF=1"
  const TextModeTimeoutMs: nat := 5000
  const TextModeMarkers: seq<string> := ["OK", "ERROR", "+CME ERROR"]
  /** End markers of the address step: the ">" prompt or an error. */
  const AddressMarkers: seq<string> := [">", "ERROR", "+CME ERROR"]
  const BodyMarkers: seq<string> := ["+CMGS:", "OK", "ERROR", "+CME ERROR"]

  /** The HomeAssistantError messages of the senders, and a read that raised. */
  datatype SmsError =
    | ReadRaised                  // a read raised; the exception propagates unchanged
    | TextModeFailed(reply: string) // "Failed to set text mode: <reply>"
    | PromptMissing(reply: string)  // "Failed to initiate SMS: <reply>"
    | Rejected(reply: string)       // "Modem rejected SMS command: <reply>"
    | BodyFailed(reply: string)     // "Failed to send SMS body: <reply>" / "Failed to send SMS: <reply>"

  datatype SmsResult = Sent | SmsFailed(error: SmsError)
}
