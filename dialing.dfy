// What the two `ATDialer.dial` variants share once the dial command has been
// answered: the checks on its reply, the answer polling, and the mapping of the
// polling outcome to the reason reported (custom_components/gsm_call/calls/at_dialer.py
// and custom_components/gsm_call/hardware/at_dialer.py).

module Dialing {
  import opened Text
  import opened ModemIo
  import opened Const
  import opened CallProgress

  /** `ATDialer.at_command`. */
  const AtCommand: string := "ATD"
  const DialMarkers: seq<string> := ["OK", "ERROR", "BUSY", "NO CARRIER", "+CME ERROR"]
  const DialTimeoutMs: nat := 10000

  /** The HomeAssistantError messages and the exceptions `dial` lets through. */
  datatype DialError =
    | Busy                      // "Busy"
    | ModemReplied(reply: string) // "Modem replied with an error: <reply>"
    | ReadFailed                // a read raised; the exception propagates unchanged
    | HangupArgumentMissing     // the TypeError of a call to execute_at without end_markers

  datatype DialResult = Ended(reason: EndedReason) | DialFailed(error: DialError)

  /** How far an attempt got before the hangup: stopped with a result, or polled to a reason. */
  datatype Stage = Stopped(link: Link, result: DialResult) | Polled(link: Link, reason: EndedReason)

  /** The attempt after the dial command: `dial_link` and `dial_reply` are the link
      and the reply just after the dial command was answered. */
  function AfterDialReply(script: seq<Incoming>, latency: nat -> nat, dialMs: nat, callMs: nat,
                          dialLink: Link, dialReply: Response): (st: Stage)
    requires dialLink.cursor <= |script|
    ensures dialLink.cursor <= st.link.cursor <= |script|
    ensures dialLink.trace <= st.link.trace
  {
    if dialReply.Raised? then Stopped(dialLink, DialFailed(ReadFailed))
    else
      var reply := ReplyText(dialReply);
      if Contains(reply, "BUSY") then Stopped(dialLink, DialFailed(Busy))
      else if Contains(reply, "ERROR") || Contains(reply, "NO CARRIER") then Stopped(dialLink, DialFailed(ModemReplied(reply)))
      else
        var e := PollFrom(script, latency, callMs, PollStart(dialLink, dialMs));
        match e.result
        case Returned(reason) => Polled(e.link, reason)
        case DeadlineExpired => Polled(e.link, NotAnswered)
        case Failed => Stopped(e.link, DialFailed(ReadFailed))
  }

  /** The dial reply decides between stopping at once and polling: BUSY wins over
      ERROR, "+CME ERROR" counts as ERROR, and in both stopping cases nothing more is
      written or read. Only a clean reply leads to polling. */
  lemma DialReplyDecides(script: seq<Incoming>, latency: nat -> nat, dialMs: nat, callMs: nat,
                         dialLink: Link, dialReply: Response)
    requires dialLink.cursor <= |script|
    ensures var st := AfterDialReply(script, latency, dialMs, callMs, dialLink, dialReply);
      var reply := ReplyText(dialReply);
      && (st == Stopped(dialLink, DialFailed(Busy)) <==> !dialReply.Raised? && Contains(reply, "BUSY"))
      && (!dialReply.Raised? && !Contains(reply, "BUSY") && Contains(reply, "+CME ERROR") ==>
            st == Stopped(dialLink, DialFailed(ModemReplied(reply))))
      && (st.Stopped? && st.result.DialFailed? && st.result.error.ModemReplied? <==>
            !dialReply.Raised? && !Contains(reply, "BUSY") && (Contains(reply, "ERROR") || Contains(reply, "NO CARRIER")))
      && (st.Stopped? && st.result.DialFailed? && st.result.error.ModemReplied? ==> st == Stopped(dialLink, DialFailed(ModemReplied(reply))))
      && (st.Polled? ==> !dialReply.Raised? && !Contains(reply, "BUSY") && !Contains(reply, "ERROR") && !Contains(reply, "NO CARRIER"))
  {
    var st := AfterDialReply(script, latency, dialMs, callMs, dialLink, dialReply);
    var reply := ReplyText(dialReply);
    if Contains(reply, "+CME ERROR") {
      assert "ERROR" <= "+CME ERROR"[5..];
      ContainsTrans(reply, "+CME ERROR", "ERROR");
    }
  }

  /** A line holding BUSY anywhere in the dial reply, complete or cut short by the
      timeout, fails the attempt with Busy whatever the other lines say. */
  lemma BusyLineFailsBusy(script: seq<Incoming>, latency: nat -> nat, dialMs: nat, callMs: nat,
                          dialLink: Link, lines: seq<string>, k: nat)
    requires dialLink.cursor <= |script|
    requires k < |lines| && Contains(lines[k], "BUSY")
    ensures AfterDialReply(script, latency, dialMs, callMs, dialLink, Complete(lines)) == Stopped(dialLink, DialFailed(Busy))
    ensures AfterDialReply(script, latency, dialMs, callMs, dialLink, Partial(lines)) == Stopped(dialLink, DialFailed(Busy))
  {
    ContainsInJoin(lines, " ", k, "BUSY");
  }

  /** Once polling starts, the reason is the polling outcome and the deadline
      ending reads as NOT_ANSWERED, not as an error; only a failing status read stops
      the attempt. Polling writes only status queries, one per poll. */
  lemma PollingDecides(script: seq<Incoming>, latency: nat -> nat, dialMs: nat, callMs: nat,
                       dialLink: Link, dialReply: Response)
    requires dialLink.cursor <= |script|
    requires !dialReply.Raised?
    requires var reply := ReplyText(dialReply);
      !Contains(reply, "BUSY") && !Contains(reply, "ERROR") && !Contains(reply, "NO CARRIER")
    ensures var st := AfterDialReply(script, latency, dialMs, callMs, dialLink, dialReply);
      var e := PollFrom(script, latency, callMs, PollStart(dialLink, dialMs));
      && st.link == e.link
      && (st.Polled? <==> e.result != Failed)
      && (e.result == DeadlineExpired ==> st.Polled? && st.reason == NotAnswered)
      && (e.result.Returned? ==> st.Polled? && st.reason == e.result.reason)
      && (exists k :: k >= 1 && Writes(st.link.trace) == Writes(dialLink.trace) + StatusQueries(k))
  {
    var e := PollFrom(script, latency, callMs, PollStart(dialLink, dialMs));
    PollWrites(script, latency, callMs, PollStart(dialLink, dialMs));
    assert Writes(e.link.trace) == Writes(dialLink.trace) + StatusQueries(e.polls - 0);
  }

  function RebaseStage(st: Stage, t: seq<Event>, t2: seq<Event>): Stage
    requires t <= st.link.trace
  {
    match st
    case Stopped(l, result) => Stopped(Rebase(l, t, t2), result)
    case Polled(l, reason) => Polled(Rebase(l, t, t2), reason)
  }

  /** The part of the attempt after the dial reply does not depend on earlier events. */
  lemma AfterDialReplyRebase(script: seq<Incoming>, latency: nat -> nat, dialMs: nat, callMs: nat,
                             dialLink: Link, dialReply: Response, t: seq<Event>, t2: seq<Event>)
    requires dialLink.cursor <= |script| && t <= dialLink.trace
    ensures var st := AfterDialReply(script, latency, dialMs, callMs, dialLink, dialReply);
      t <= st.link.trace &&
      AfterDialReply(script, latency, dialMs, callMs, Rebase(dialLink, t, t2), dialReply) == RebaseStage(st, t, t2)
  {
    PollRebase(script, latency, callMs, PollStart(dialLink, dialMs), t, t2);
    assert RebaseState(PollStart(dialLink, dialMs), t, t2) == PollStart(Rebase(dialLink, t, t2), dialMs);
  }
}
