// The answer-polling loop `_wait_for_answer`, identical in
// custom_components/gsm_call/calls/at_dialer.py and
// custom_components/gsm_call/hardware/at_dialer.py.
//
// Time is an abstract clock in milliseconds that starts at 0 when polling
// starts. `latency(k)` is how long the k-th AT+CLCC exchange of the attempt
// takes. The asyncio deadline can fire only while the loop awaits: during a
// status read or during the one-second sleep, so the model compares the clock
// with the deadline after each of them. A read cut short by the deadline is
// modelled as having consumed its whole reply.
//
// The time a status read takes (`latency`) and the point where its own 2 s
// timeout fires (an `Expiry` token in the script) are independent inputs: a
// read ending on `Expiry` may take any time, 0 ms included. Every result holds
// for every latency, so nothing relies on the two agreeing.

module CallProgress {
  import opened Text
  import opened ModemIo
  import opened Const

  const StatusQuery: string := "AT+CLCC"
  const StatusMarkers: seq<string> := ["OK", "ERROR", "+CME ERROR"]
  const StatusTimeoutMs: nat := 2000
  /** Pause between two polls; shorter intervals provoke "+CME ERROR: 100" on some modems. */
  const PollIntervalMs: nat := 1000

  /** Call 1, mobile-originated, state 3: the far end is ringing. */
  const RingingStatus: string := "+CLCC: 1,0,3"
  /** Call 1, mobile-originated, state 0: the call is active. */
  const ActiveStatus: string := "+CLCC: 1,0,0"
  /** Call 1 is listed at all (any state). */
  const ListedStatus: string := "+CLCC: 1,0"

  /** How `_wait_for_answer` ends: a returned reason, the asyncio TimeoutError of
      the polling deadline, or an exception raised by a status read. */
  datatype WaitResult = Returned(reason: EndedReason) | DeadlineExpired | Failed

  /** The loop's variables: the link, the clock, the (re-armable) deadline, the
      `is_ringing` flag, the number of polls made and of re-arms done. */
  datatype PollState = PollState(link: Link, now: nat, deadline: nat, isRinging: bool, polls: nat, rearms: nat)

  datatype PollEnd = PollEnd(link: Link, result: WaitResult, now: nat, deadline: nat, polls: nat, rearms: nat, lastReply: string)

  /** The state in which polling starts: deadline `dialMs` away, not ringing. */
  function PollStart(l: Link, dialMs: nat): PollState
  {
    PollState(l, 0, dialMs, false, 0, 0)
  }

  function PollMeasure(p: PollState): nat
  {
    if p.now < p.deadline then p.deadline - p.now else 0
  }

  /** One pass of the loop body: it either leaves the loop or goes round again. */
  datatype Step = Stop(end: PollEnd) | Again(next: PollState)

  /** One pass of the loop body of `_wait_for_answer` from state `p`. */
  function PollStep(script: seq<Incoming>, latency: nat -> nat, callMs: nat, p: PollState): (s: Step)
    requires p.link.cursor <= |script|
    ensures s.Stop? ==> p.link.cursor <= s.end.link.cursor <= |script| && p.link.trace <= s.end.link.trace && p.now <= s.end.now
    ensures s.Again? ==> p.link.cursor <= s.next.link.cursor <= |script| && p.link.trace <= s.next.link.trace && p.now <= s.next.now
    ensures s.Again? ==> (!p.isRinging && s.next.isRinging) || (p.isRinging == s.next.isRinging && PollMeasure(s.next) < PollMeasure(p))
  {
    var (link1, response) := Exec(script, p.link, StatusQuery, StatusTimeoutMs, StatusMarkers, DefaultEol);
    var now1 := p.now + latency(p.polls);
    if now1 >= p.deadline then
      Stop(PollEnd(link1, DeadlineExpired, now1, p.deadline, p.polls + 1, p.rearms, ""))
    else if response.Raised? then
      Stop(PollEnd(link1, Failed, now1, p.deadline, p.polls + 1, p.rearms, ""))
    else
      var reply := Join(response.lines, " ");
      if !p.isRinging && Contains(reply, RingingStatus) then
        // first ringing: re-arm the deadline to now + call duration and poll again at once
        Again(PollState(link1, now1, now1 + callMs, true, p.polls + 1, p.rearms + 1))
      else if Contains(reply, ActiveStatus) then
        Stop(PollEnd(link1, Returned(Answered), now1, p.deadline, p.polls + 1, p.rearms, reply))
      else if !Contains(reply, ListedStatus) then
        Stop(PollEnd(link1, Returned(Declined), now1, p.deadline, p.polls + 1, p.rearms, reply))
      else
        var link2 := Pause(link1, PollIntervalMs);
        var now2 := now1 + PollIntervalMs;
        if now2 >= p.deadline then
          Stop(PollEnd(link2, DeadlineExpired, now2, p.deadline, p.polls + 1, p.rearms, reply))
        else
          Again(PollState(link2, now2, p.deadline, p.isRinging, p.polls + 1, p.rearms))
  }

  /** `_wait_for_answer` from state `p`: loop passes until one leaves the loop. */
  function PollFrom(script: seq<Incoming>, latency: nat -> nat, callMs: nat, p: PollState): (e: PollEnd)
    requires p.link.cursor <= |script|
    ensures p.link.cursor <= e.link.cursor <= |script|
    ensures p.link.trace <= e.link.trace
    ensures p.now <= e.now
    decreases (if p.isRinging then 0 else 1), PollMeasure(p)
  {
    match PollStep(script, latency, callMs, p)
    case Stop(e) => e
    case Again(q) => PollFrom(script, latency, callMs, q)
  }

  /** The status strings nest: a reply showing the call active or ringing also
      lists it, so no reply is read as both ANSWERED and DECLINED, and a ringing
      reply after the first never reads as DECLINED. */
  lemma StatusNesting(reply: string)
    ensures Contains(reply, ActiveStatus) ==> Contains(reply, ListedStatus)
    ensures Contains(reply, RingingStatus) ==> Contains(reply, ListedStatus)
  {
    if Contains(reply, ActiveStatus) {
      assert ListedStatus <= ActiveStatus;
      ContainsPrefixOf(reply, ListedStatus, ActiveStatus);
    }
    if Contains(reply, RingingStatus) {
      assert ListedStatus <= RingingStatus;
      ContainsPrefixOf(reply, ListedStatus, RingingStatus);
    }
  }

  /** What a single pass establishes: how it stops, and how it changes the deadline. */
  lemma StepMeaning(script: seq<Incoming>, latency: nat -> nat, callMs: nat, p: PollState)
    requires p.link.cursor <= |script|
    ensures var s := PollStep(script, latency, callMs, p);
      && (s.Stop? ==> s.end.deadline == p.deadline && s.end.rearms == p.rearms)
      && (s.Stop? && s.end.result == Returned(Answered) ==> Contains(s.end.lastReply, ActiveStatus) && s.end.now < s.end.deadline)
      && (s.Stop? && s.end.result == Returned(Declined) ==> !Contains(s.end.lastReply, ListedStatus) && s.end.now < s.end.deadline)
      && (s.Stop? && s.end.result == DeadlineExpired ==> s.end.now >= s.end.deadline)
      && (s.Again? && s.next.rearms != p.rearms ==>
            !p.isRinging && s.next.isRinging && s.next.rearms == p.rearms + 1 && s.next.deadline == s.next.now + callMs)
      && (s.Again? && s.next.rearms == p.rearms ==> s.next.deadline == p.deadline && s.next.isRinging == p.isRinging)
  {
  }

  /** Which status reply leads to which outcome of a pass, for every input. `now1`
      is the clock after the status read. The deadline is checked first, then a
      raising read; the first ringing reply re-arms the deadline without a pause;
      otherwise an active call is ANSWERED, a call no longer listed is DECLINED, and
      a listed call that is not active sleeps the poll interval and goes round again
      unless the deadline passes during the sleep. */
  lemma StepDecides(script: seq<Incoming>, latency: nat -> nat, callMs: nat, p: PollState)
    requires p.link.cursor <= |script|
    ensures var (l1, response) := Exec(script, p.link, StatusQuery, StatusTimeoutMs, StatusMarkers, DefaultEol);
      var now1 := p.now + latency(p.polls);
      var reply := ReplyText(response);
      var s := PollStep(script, latency, callMs, p);
      var read := now1 < p.deadline && !response.Raised?;
      var settled := read && (p.isRinging || !Contains(reply, RingingStatus));
      && (now1 >= p.deadline ==> s == Stop(PollEnd(l1, DeadlineExpired, now1, p.deadline, p.polls + 1, p.rearms, "")))
      && (now1 < p.deadline && response.Raised? ==> s == Stop(PollEnd(l1, Failed, now1, p.deadline, p.polls + 1, p.rearms, "")))
      && (read && !p.isRinging && Contains(reply, RingingStatus) ==>
            s == Again(PollState(l1, now1, now1 + callMs, true, p.polls + 1, p.rearms + 1)))
      && (settled && Contains(reply, ActiveStatus) ==>
            s == Stop(PollEnd(l1, Returned(Answered), now1, p.deadline, p.polls + 1, p.rearms, reply)))
      && (settled && !Contains(reply, ListedStatus) ==>
            s == Stop(PollEnd(l1, Returned(Declined), now1, p.deadline, p.polls + 1, p.rearms, reply)))
      && (settled && Contains(reply, ListedStatus) && !Contains(reply, ActiveStatus) ==>
            var l2 := Pause(l1, PollIntervalMs);
            var now2 := now1 + PollIntervalMs;
            s == (if now2 >= p.deadline then Stop(PollEnd(l2, DeadlineExpired, now2, p.deadline, p.polls + 1, p.rearms, reply))
                  else Again(PollState(l2, now2, p.deadline, p.isRinging, p.polls + 1, p.rearms))))
  {
    var response := Exec(script, p.link, StatusQuery, StatusTimeoutMs, StatusMarkers, DefaultEol).1;
    StatusNesting(ReplyText(response));
  }

  /** Over the whole loop: the first pass that leaves it decides the outcome. A
      pass that stops ends polling with its own ending; a pass that goes round
      again hands over to the next one. */
  lemma FirstStopDecides(script: seq<Incoming>, latency: nat -> nat, callMs: nat, p: PollState)
    requires p.link.cursor <= |script|
    ensures var s := PollStep(script, latency, callMs, p);
      && (s.Stop? ==> PollFrom(script, latency, callMs, p) == s.end)
      && (s.Again? ==> PollFrom(script, latency, callMs, p) == PollFrom(script, latency, callMs, s.next))
  {
  }

  /** The deadline is re-armed at most once per attempt, however many replies report ringing. */
  lemma {:induction false} RearmAtMostOnce(script: seq<Incoming>, latency: nat -> nat, callMs: nat, p: PollState)
    requires p.link.cursor <= |script|
    requires p.rearms == (if p.isRinging then 1 else 0)
    ensures PollFrom(script, latency, callMs, p).rearms <= 1
    decreases (if p.isRinging then 0 else 1), PollMeasure(p)
  {
    StepMeaning(script, latency, callMs, p);
    match PollStep(script, latency, callMs, p)
    case Stop(e) =>
    case Again(q) => RearmAtMostOnce(script, latency, callMs, q);
  }

  /** What each ending means: ANSWERED only on a reply listing the call as active,
      DECLINED only on a reply that no longer lists the call, both before the
      deadline; the deadline ending only once the clock has reached the deadline. */
  lemma {:induction false} OutcomeMeaning(script: seq<Incoming>, latency: nat -> nat, callMs: nat, p: PollState)
    requires p.link.cursor <= |script|
    ensures var e := PollFrom(script, latency, callMs, p);
      && (e.result == Returned(Answered) ==> Contains(e.lastReply, ActiveStatus) && e.now < e.deadline)
      && (e.result == Returned(Declined) ==> !Contains(e.lastReply, ListedStatus) && e.now < e.deadline)
      && (e.result == DeadlineExpired ==> e.now >= e.deadline)
    decreases (if p.isRinging then 0 else 1), PollMeasure(p)
  {
    StepMeaning(script, latency, callMs, p);
    match PollStep(script, latency, callMs, p)
    case Stop(e) =>
    case Again(q) => OutcomeMeaning(script, latency, callMs, q);
  }

  /** Once ringing has been seen, the deadline and the re-arm count stay as they are. */
  lemma {:induction false} RingingStaysRinging(script: seq<Incoming>, latency: nat -> nat, callMs: nat, p: PollState)
    requires p.link.cursor <= |script| && p.isRinging
    ensures var e := PollFrom(script, latency, callMs, p);
      e.deadline == p.deadline && e.rearms == p.rearms
    decreases PollMeasure(p)
  {
    StepMeaning(script, latency, callMs, p);
    match PollStep(script, latency, callMs, p)
    case Stop(e) =>
    case Again(q) => RingingStaysRinging(script, latency, callMs, q);
  }

  /** Without ringing the deadline never moves; after the first ringing reply it is
      replaced by (time of that reply) + call duration, not extended by it. */
  lemma {:induction false} DeadlineRearm(script: seq<Incoming>, latency: nat -> nat, callMs: nat, p: PollState)
    requires p.link.cursor <= |script|
    ensures var e := PollFrom(script, latency, callMs, p);
      && (e.rearms == p.rearms ==> e.deadline == p.deadline)
      && (e.rearms != p.rearms ==> !p.isRinging && p.now + callMs <= e.deadline <= e.now + callMs)
    decreases (if p.isRinging then 0 else 1), PollMeasure(p)
  {
    StepMeaning(script, latency, callMs, p);
    match PollStep(script, latency, callMs, p)
    case Stop(e) =>
    case Again(q) =>
      if q.rearms != p.rearms {
        RingingStaysRinging(script, latency, callMs, q);
      } else {
        DeadlineRearm(script, latency, callMs, q);
      }
  }

  /** The events polling is allowed to produce. */
  predicate PollEvent(ev: Event)
  {
    ev == Wrote(StatusQuery + DefaultEol) || ev == Awaited(StatusTimeoutMs, StatusMarkers) || ev == Paused(PollIntervalMs)
  }

  /** Every event of `t` from position `from` on is a polling event. */
  predicate PollEventsFrom(t: seq<Event>, from: nat)
  {
    forall k :: from <= k < |t| ==> PollEvent(t[k])
  }

  /** A single pass writes the status query, waits for its reply, and may pause. */
  lemma StepEvents(script: seq<Incoming>, latency: nat -> nat, callMs: nat, p: PollState)
    requires p.link.cursor <= |script|
    ensures var s := PollStep(script, latency, callMs, p);
      && (s.Stop? ==> PollEventsFrom(s.end.link.trace, |p.link.trace|))
      && (s.Again? ==> PollEventsFrom(s.next.link.trace, |p.link.trace|))
  {
    var t1 := Exec(script, p.link, StatusQuery, StatusTimeoutMs, StatusMarkers, DefaultEol).0.trace;
    assert t1 == p.link.trace + [Wrote(StatusQuery + DefaultEol), Awaited(StatusTimeoutMs, StatusMarkers)];
    assert Pause(Exec(script, p.link, StatusQuery, StatusTimeoutMs, StatusMarkers, DefaultEol).0, PollIntervalMs).trace
      == t1 + [Paused(PollIntervalMs)];
  }

  /** While polling, the only thing written is the status query, and the only pause is the poll interval. */
  lemma {:induction false} PollsOnlyQueryStatus(script: seq<Incoming>, latency: nat -> nat, callMs: nat, p: PollState)
    requires p.link.cursor <= |script|
    ensures PollEventsFrom(PollFrom(script, latency, callMs, p).link.trace, |p.link.trace|)
    decreases (if p.isRinging then 0 else 1), PollMeasure(p)
  {
    StepEvents(script, latency, callMs, p);
    match PollStep(script, latency, callMs, p)
    case Stop(e) =>
    case Again(q) =>
      PollsOnlyQueryStatus(script, latency, callMs, q);
      var e := PollFrom(script, latency, callMs, q);
      forall k | |p.link.trace| <= k < |e.link.trace| ensures PollEvent(e.link.trace[k]) {
        if k < |q.link.trace| {
          assert e.link.trace[k] == q.link.trace[k];
        }
      }
  }

  /** `n` copies of the status query as written to the line. */
  function StatusQueries(n: nat): seq<string>
  {
    seq(n, _ => StatusQuery + DefaultEol)
  }

  /** After one pass the link is that of the status query, followed by the poll
      interval when the loop slept, and one more poll has been counted. */
  lemma StepShape(script: seq<Incoming>, latency: nat -> nat, callMs: nat, p: PollState)
    requires p.link.cursor <= |script|
    ensures var l1 := Exec(script, p.link, StatusQuery, StatusTimeoutMs, StatusMarkers, DefaultEol).0;
      var s := PollStep(script, latency, callMs, p);
      && (s.Stop? ==> s.end.polls == p.polls + 1 && (s.end.link == l1 || s.end.link == Pause(l1, PollIntervalMs)))
      && (s.Again? ==> s.next.polls == p.polls + 1 && (s.next.link == l1 || s.next.link == Pause(l1, PollIntervalMs)))
  {
  }

  /** A single pass writes exactly one status query. */
  lemma StepWrites(script: seq<Incoming>, latency: nat -> nat, callMs: nat, p: PollState)
    requires p.link.cursor <= |script|
    ensures var s := PollStep(script, latency, callMs, p);
      && (s.Stop? ==> s.end.polls == p.polls + 1 && Writes(s.end.link.trace) == Writes(p.link.trace) + [StatusQuery + DefaultEol])
      && (s.Again? ==> s.next.polls == p.polls + 1 && Writes(s.next.link.trace) == Writes(p.link.trace) + [StatusQuery + DefaultEol])
  {
    var l1 := Exec(script, p.link, StatusQuery, StatusTimeoutMs, StatusMarkers, DefaultEol).0;
    ExecWritesOnce(script, p.link, StatusQuery, StatusTimeoutMs, StatusMarkers, DefaultEol);
    SendAndPauseWrites(l1, StatusQuery, DefaultEol, PollIntervalMs);
    StepShape(script, latency, callMs, p);
  }

  /** Polling writes nothing but the status query, once per poll, and polls at least once. */
  lemma {:induction false} PollWrites(script: seq<Incoming>, latency: nat -> nat, callMs: nat, p: PollState)
    requires p.link.cursor <= |script|
    ensures var e := PollFrom(script, latency, callMs, p);
      p.polls < e.polls && Writes(e.link.trace) == Writes(p.link.trace) + StatusQueries(e.polls - p.polls)
    decreases (if p.isRinging then 0 else 1), PollMeasure(p)
  {
    StepWrites(script, latency, callMs, p);
    match PollStep(script, latency, callMs, p)
    case Stop(e) =>
      assert StatusQueries(1) == [StatusQuery + DefaultEol];
    case Again(q) =>
      PollWrites(script, latency, callMs, q);
      var e := PollFrom(script, latency, callMs, q);
      assert StatusQueries(e.polls - p.polls) == [StatusQuery + DefaultEol] + StatusQueries(e.polls - q.polls);
  }

  function RebaseState(p: PollState, t: seq<Event>, t2: seq<Event>): PollState
    requires t <= p.link.trace
  {
    p.(link := Rebase(p.link, t, t2))
  }

  lemma StepRebase(script: seq<Incoming>, latency: nat -> nat, callMs: nat, p: PollState, t: seq<Event>, t2: seq<Event>)
    requires p.link.cursor <= |script| && t <= p.link.trace
    ensures var s := PollStep(script, latency, callMs, p);
      var s2 := PollStep(script, latency, callMs, RebaseState(p, t, t2));
      && (s.Stop? ==> t <= s.end.link.trace && s2 == Stop(s.end.(link := Rebase(s.end.link, t, t2))))
      && (s.Again? ==> t <= s.next.link.trace && s2 == Again(RebaseState(s.next, t, t2)))
  {
    var (l1, r1) := Exec(script, p.link, StatusQuery, StatusTimeoutMs, StatusMarkers, DefaultEol);
    RebaseCommutes(script, p.link, t, t2, StatusQuery, StatusTimeoutMs, StatusMarkers, DefaultEol, PollIntervalMs);
    RebaseCommutes(script, l1, t, t2, StatusQuery, StatusTimeoutMs, StatusMarkers, DefaultEol, PollIntervalMs);
  }

  /** Polling does not depend on what happened on the link before: started after
      other events, it reads, writes and ends the same way. */
  lemma {:induction false} PollRebase(script: seq<Incoming>, latency: nat -> nat, callMs: nat, p: PollState,
                                      t: seq<Event>, t2: seq<Event>)
    requires p.link.cursor <= |script| && t <= p.link.trace
    ensures var e := PollFrom(script, latency, callMs, p);
      t <= e.link.trace && PollFrom(script, latency, callMs, RebaseState(p, t, t2)) == e.(link := Rebase(e.link, t, t2))
    decreases (if p.isRinging then 0 else 1), PollMeasure(p)
  {
    StepRebase(script, latency, callMs, p, t, t2);
    match PollStep(script, latency, callMs, p)
    case Stop(e) =>
    case Again(q) => PollRebase(script, latency, callMs, q, t, t2);
  }

  /** `_wait_for_answer`: the loop with the mutable `is_ringing` flag and deadline. */
  method WaitForAnswer(modem: Modem, dialMs: nat, callMs: nat, latency: nat -> nat) returns (result: WaitResult)
    requires modem.Valid()
    modifies modem`trace, modem`cursor
    ensures modem.Valid()
    ensures var e := PollFrom(modem.script, latency, callMs, PollStart(old(modem.State()), dialMs));
      modem.State() == e.link && result == e.result
  {
    ghost var goal := PollFrom(modem.script, latency, callMs, PollStart(modem.State(), dialMs));
    var isRinging := false;
    var deadline: nat := dialMs;
    var now: nat := 0;
    var polls: nat := 0;
    ghost var rearms: nat := 0;
    while true
      invariant modem.Valid()
      invariant PollFrom(modem.script, latency, callMs, PollState(modem.State(), now, deadline, isRinging, polls, rearms)) == goal
      decreases (if isRinging then 0 else 1), PollMeasure(PollState(modem.State(), now, deadline, isRinging, polls, rearms))
    {
      ghost var before := PollState(modem.State(), now, deadline, isRinging, polls, rearms);
      ghost var step := PollStep(modem.script, latency, callMs, before);
      var response := modem.ExecuteAt(StatusQuery, StatusTimeoutMs, StatusMarkers, DefaultEol);
      now := now + latency(polls);
      polls := polls + 1;
      if now >= deadline {
        assert step == Stop(PollEnd(modem.State(), DeadlineExpired, now, deadline, polls, rearms, ""));
        return DeadlineExpired;
      }
      if response.Raised? {
        assert step == Stop(PollEnd(modem.State(), Failed, now, deadline, polls, rearms, ""));
        return Failed;
      }
      var reply := Join(response.lines, " ");
      if !isRinging && Contains(reply, RingingStatus) {
        isRinging := true;
        deadline := now + callMs;
        rearms := rearms + 1;
        assert step == Again(PollState(modem.State(), now, deadline, isRinging, polls, rearms));
        continue;
      }
      if Contains(reply, ActiveStatus) {
        assert step == Stop(PollEnd(modem.State(), Returned(Answered), now, deadline, polls, rearms, reply));
        return Returned(Answered);
      }
      if !Contains(reply, ListedStatus) {
        assert step == Stop(PollEnd(modem.State(), Returned(Declined), now, deadline, polls, rearms, reply));
        return Returned(Declined);
      }
      modem.Sleep(PollIntervalMs);
      now := now + PollIntervalMs;
      if now >= deadline {
        assert step == Stop(PollEnd(modem.State(), DeadlineExpired, now, deadline, polls, rearms, reply));
        return DeadlineExpired;
      }
      assert step == Again(PollState(modem.State(), now, deadline, isRinging, polls, rearms));
    }
  }
}
