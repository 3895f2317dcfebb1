// The AT transaction engine: one write of `command + terminator`, then
// stripped, non-blank reply lines collected until one starts with an end
// marker or the command's own timeout fires.
//
// The serial line is a script of incoming tokens: a raw line as readline
// returns it, the moment at which the command's timeout fires, or a read that
// raises. Once the script is exhausted the device stays silent, so a read in
// progress ends as at a timeout.

module ModemIo {
  import opened Text

  const DefaultEol: string := "\r\n"
  const SmsTerminator: string := "\r\U{1A}"
  /** The ESC byte the senders write to reset the modem's input buffer. */
  const Esc: string := "\U{1B}"

  datatype Incoming =
    | Line(raw: string)   // one line from readline, already decoded
    | Expiry              // the timeout of the command being read fires here
    | Broken              // readline raises (I/O error, line over READ_LIMIT)

  /** What the session does, in order: writes, reads with their end markers, pauses. */
  datatype Event =
    | Wrote(data: string)
    | Awaited(timeoutMs: nat, endMarkers: seq<string>)
    | Paused(ms: nat)

  /** The result of reading one reply. */
  datatype Response =
    | Complete(lines: seq<string>)   // the last line matched an end marker
    | Partial(lines: seq<string>)    // the timeout fired: the lines collected so far
    | Raised                         // the read raised; the exception propagates

  datatype ReadEnd = ReadEnd(response: Response, next: nat)

  /** The state of the link as the model sees it: read position and trace. */
  datatype Link = Link(cursor: nat, trace: seq<Event>)

  /** The reply lines joined as `" ".join(lines)`; "" when the read raised. */
  function ReplyText(r: Response): string
  {
    if r.Raised? then "" else Join(r.lines, " ")
  }

  /** The match rule of _read_response: `any(line == m or line.startswith(m) for m in endMarkers)`. */
  predicate MatchesMarker(line: string, endMarkers: seq<string>)
  {
    if endMarkers == [] then false
    else line == endMarkers[0] || endMarkers[0] <= line || MatchesMarker(line, endMarkers[1..])
  }

  /** Equality is a special case of the prefix test, so the rule is a prefix test alone. */
  lemma {:induction false} MatchIsPrefixTest(line: string, endMarkers: seq<string>)
    ensures MatchesMarker(line, endMarkers) <==> exists m :: m in endMarkers && m <= line
  {
    if endMarkers != [] {
      MatchIsPrefixTest(line, endMarkers[1..]);
      if MatchesMarker(line, endMarkers) {
        if line == endMarkers[0] || endMarkers[0] <= line {
          assert endMarkers[0] in endMarkers && endMarkers[0] <= line;
        } else {
          var m :| m in endMarkers[1..] && m <= line;
          assert m in endMarkers;
        }
      }
      if exists m :: m in endMarkers && m <= line {
        var m :| m in endMarkers && m <= line;
        if m != endMarkers[0] {
          assert m in endMarkers[1..];
        }
      }
    }
  }

  /** The reply lines a stretch of the script contributes: stripped, blank ones dropped. */
  function Collected(items: seq<Incoming>): seq<string>
  {
    if items == [] then []
    else
      (match items[0]
       case Line(raw) => if Strip(raw) == [] then [] else [Strip(raw)]
       case _ => []) + Collected(items[1..])
  }

  /** _read_response from script position `i`, with `acc` the lines collected so far. */
  function ReadFrom(script: seq<Incoming>, i: nat, endMarkers: seq<string>, acc: seq<string>): (e: ReadEnd)
    requires i <= |script|
    ensures i <= e.next <= |script|
    decreases |script| - i
  {
    if i == |script| then ReadEnd(Partial(acc), i)
    else
      match script[i]
      case Expiry => ReadEnd(Partial(acc), i + 1)
      case Broken => ReadEnd(Raised, i + 1)
      case Line(raw) =>
        var decoded := Strip(raw);
        if decoded == [] then ReadFrom(script, i + 1, endMarkers, acc)
        else if MatchesMarker(decoded, endMarkers) then ReadEnd(Complete(acc + [decoded]), i + 1)
        else ReadFrom(script, i + 1, endMarkers, acc + [decoded])
  }

  /** The data written to the serial line, in order. */
  function Writes(trace: seq<Event>): seq<string>
  {
    if trace == [] then []
    else (if trace[0].Wrote? then [trace[0].data] else []) + Writes(trace[1..])
  }

  /** send_command on the link value. */
  function Send(l: Link, command: string, terminator: string): Link
  {
    Link(l.cursor, l.trace + [Wrote(command + terminator)])
  }

  /** A settle delay (asyncio.sleep) on the link value. */
  function Pause(l: Link, ms: nat): Link
  {
    Link(l.cursor, l.trace + [Paused(ms)])
  }

  /** execute_at on the link value: one write, then one read. */
  function Exec(script: seq<Incoming>, l: Link, command: string, timeoutMs: nat,
                endMarkers: seq<string>, terminator: string): (r: (Link, Response))
    requires l.cursor <= |script|
    ensures l.cursor <= r.0.cursor <= |script|
  {
    var e := ReadFrom(script, l.cursor, endMarkers, []);
    (Link(e.next, l.trace + [Wrote(command + terminator), Awaited(timeoutMs, endMarkers)]), e.response)
  }

  lemma {:induction false} WritesAppend(a: seq<Event>, b: seq<Event>)
    ensures Writes(a + b) == Writes(a) + Writes(b)
  {
    if a == [] {
      assert a + b == b;
    } else {
      assert (a + b)[1..] == a[1..] + b;
      WritesAppend(a[1..], b);
    }
  }

  /** Where a read stops: at a matching line, at the timeout, at a raising read, or at
      the end of the script; every token before the stopping one is a line. */
  lemma {:induction false} ReadFromStops(script: seq<Incoming>, i: nat, endMarkers: seq<string>, acc: seq<string>)
    requires i <= |script|
    ensures var e := ReadFrom(script, i, endMarkers, acc);
      && (forall j :: i <= j < e.next - 1 ==> script[j].Line?)
      && (e.response.Raised? <==> e.next > i && script[e.next - 1].Broken?)
      && (e.response.Complete? ==> e.next > i && script[e.next - 1].Line?)
      && (e.response.Partial? ==>
            (e.next > i && script[e.next - 1].Expiry?) ||
            (e.next == |script| && forall j :: i <= j < |script| ==> script[j].Line?))
    decreases |script| - i
  {
    var e := ReadFrom(script, i, endMarkers, acc);
    if i == |script| {
      assert e == ReadEnd(Partial(acc), i);
    } else {
      match script[i]
      case Expiry =>
        assert e == ReadEnd(Partial(acc), i + 1);
      case Broken =>
        assert e == ReadEnd(Raised, i + 1);
      case Line(raw) =>
        var decoded := Strip(raw);
        if decoded == [] {
          ReadFromStops(script, i + 1, endMarkers, acc);
          assert e == ReadFrom(script, i + 1, endMarkers, acc);
        } else if MatchesMarker(decoded, endMarkers) {
          assert e == ReadEnd(Complete(acc + [decoded]), i + 1);
        } else {
          ReadFromStops(script, i + 1, endMarkers, acc + [decoded]);
          assert e == ReadFrom(script, i + 1, endMarkers, acc + [decoded]);
        }
    }
  }

  /** The lines returned are those collected before plus the collected lines of the
      stretch of script the read consumed. */
  lemma {:induction false} ReadFromLines(script: seq<Incoming>, i: nat, endMarkers: seq<string>, acc: seq<string>)
    requires i <= |script|
    ensures var e := ReadFrom(script, i, endMarkers, acc);
      !e.response.Raised? ==> e.response.lines == acc + Collected(script[i..e.next])
    decreases |script| - i
  {
    var e := ReadFrom(script, i, endMarkers, acc);
    if i == |script| {
      assert e == ReadEnd(Partial(acc), i);
      assert script[i..e.next] == [];
    } else {
      match script[i]
      case Expiry =>
        assert e == ReadEnd(Partial(acc), i + 1);
          assert script[i..e.next] == [script[i]];
      case Broken =>
        assert e == ReadEnd(Raised, i + 1);
      case Line(raw) =>
        var decoded := Strip(raw);
        if decoded == [] {
          ReadFromLines(script, i + 1, endMarkers, acc);
          assert script[i..e.next] == [script[i]] + script[i + 1..e.next];
          assert e == ReadFrom(script, i + 1, endMarkers, acc);
        } else if MatchesMarker(decoded, endMarkers) {
          assert e == ReadEnd(Complete(acc + [decoded]), i + 1);
          assert script[i..e.next] == [script[i]];
        } else {
          ReadFromLines(script, i + 1, endMarkers, acc + [decoded]);
          assert script[i..e.next] == [script[i]] + script[i + 1..e.next];
          assert e == ReadFrom(script, i + 1, endMarkers, acc + [decoded]);
        }
    }
  }

  /** A read that ends on a match ends on the first line that matches. */
  lemma {:induction false} ReadFromFirstMatch(script: seq<Incoming>, i: nat, endMarkers: seq<string>, acc: seq<string>)
    requires i <= |script|
    ensures var e := ReadFrom(script, i, endMarkers, acc);
      e.response.Complete? ==>
        && |acc| < |e.response.lines|
        && MatchesMarker(e.response.lines[|e.response.lines| - 1], endMarkers)
        && forall k :: |acc| <= k < |e.response.lines| - 1 ==> !MatchesMarker(e.response.lines[k], endMarkers)
    decreases |script| - i
  {
    var e := ReadFrom(script, i, endMarkers, acc);
    if i == |script| {
      assert e == ReadEnd(Partial(acc), i);
    } else {
      match script[i]
      case Expiry =>
        assert e == ReadEnd(Partial(acc), i + 1);
      case Broken =>
        assert e == ReadEnd(Raised, i + 1);
      case Line(raw) =>
        var decoded := Strip(raw);
        if decoded == [] {
          ReadFromFirstMatch(script, i + 1, endMarkers, acc);
          assert e == ReadFrom(script, i + 1, endMarkers, acc);
        } else if MatchesMarker(decoded, endMarkers) {
          assert e == ReadEnd(Complete(acc + [decoded]), i + 1);
        } else {
          ReadFromFirstMatch(script, i + 1, endMarkers, acc + [decoded]);
          ReadFromLines(script, i + 1, endMarkers, acc + [decoded]);
          assert e == ReadFrom(script, i + 1, endMarkers, acc + [decoded]);
        }
    }
  }

  /** A line the read goes past: a blank one, or one that matches no end marker. */
  predicate PassesRead(item: Incoming, endMarkers: seq<string>)
  {
    item.Line? && (Strip(item.raw) == [] || !MatchesMarker(Strip(item.raw), endMarkers))
  }

  lemma {:induction false} CollectedAppend(a: seq<Incoming>, b: seq<Incoming>)
    ensures Collected(a + b) == Collected(a) + Collected(b)
  {
    if a == [] {
      assert a + b == b;
    } else {
      assert (a + b)[1..] == a[1..] + b;
      CollectedAppend(a[1..], b);
    }
  }

  /** One line the read goes past: it is collected (unless blank) and the read moves on. */
  lemma PassOne(script: seq<Incoming>, i: nat, endMarkers: seq<string>, acc: seq<string>)
    requires i < |script| && PassesRead(script[i], endMarkers)
    ensures ReadFrom(script, i, endMarkers, acc) == ReadFrom(script, i + 1, endMarkers, acc + Collected([script[i]]))
  {
    var decoded := Strip(script[i].raw);
    assert [script[i]][1..] == [];
    if decoded == [] {
      assert Collected([script[i]]) == [];
      assert acc + [] == acc;
    } else {
      assert Collected([script[i]]) == [decoded];
      assert ReadFrom(script, i, endMarkers, acc) == ReadFrom(script, i + 1, endMarkers, acc + [decoded]);
    }
  }

  /** Lines the read goes past are collected and the read carries on after them. */
  lemma {:induction false} ReadSkipsPassing(script: seq<Incoming>, i: nat, j: nat, endMarkers: seq<string>, acc: seq<string>)
    requires i <= j <= |script|
    requires forall k :: i <= k < j ==> PassesRead(script[k], endMarkers)
    ensures ReadFrom(script, i, endMarkers, acc) == ReadFrom(script, j, endMarkers, acc + Collected(script[i..j]))
    decreases j - i
  {
    if i == j {
      assert acc + Collected(script[i..j]) == acc;
    } else {
      var here := Collected([script[i]]);
      PassOne(script, i, endMarkers, acc);
      ReadSkipsPassing(script, i + 1, j, endMarkers, acc + here);
      assert script[i..j] == [script[i]] + script[i + 1..j];
      CollectedAppend([script[i]], script[i + 1..j]);
      assert acc + here + Collected(script[i + 1..j]) == acc + (here + Collected(script[i + 1..j]));
    }
  }

  /** The converse of ReadFromFirstMatch: a non-blank line that matches an end marker,
      reached with only lines the read goes past before it, ends the read as
      complete on that line, with everything collected up to it. */
  lemma MatchEndsRead(script: seq<Incoming>, i: nat, j: nat, endMarkers: seq<string>, acc: seq<string>)
    requires i <= j < |script|
    requires script[j].Line? && Strip(script[j].raw) != [] && MatchesMarker(Strip(script[j].raw), endMarkers)
    requires forall k :: i <= k < j ==> PassesRead(script[k], endMarkers)
    ensures ReadFrom(script, i, endMarkers, acc) == ReadEnd(Complete(acc + Collected(script[i..j + 1])), j + 1)
  {
    ReadSkipsPassing(script, i, j, endMarkers, acc);
    CollectedAppend(script[i..j], [script[j]]);
    assert script[i..j + 1] == script[i..j] + [script[j]];
    assert Collected([script[j]]) == [Strip(script[j].raw)];
    var before := acc + Collected(script[i..j]);
    assert ReadFrom(script, j, endMarkers, before) == ReadEnd(Complete(before + [Strip(script[j].raw)]), j + 1);
    assert before + [Strip(script[j].raw)] == acc + Collected(script[i..j + 1]);
  }

  /** The same, when the device falls silent after lines the read goes past: the read
      ends at the end of the script with every line collected. */
  lemma SilenceEndsRead(script: seq<Incoming>, i: nat, endMarkers: seq<string>, acc: seq<string>)
    requires i <= |script|
    requires forall k :: i <= k < |script| ==> PassesRead(script[k], endMarkers)
    ensures ReadFrom(script, i, endMarkers, acc) == ReadEnd(Partial(acc + Collected(script[i..])), |script|)
  {
    ReadSkipsPassing(script, i, |script|, endMarkers, acc);
    assert script[i..|script|] == script[i..];
  }

  /** Every collected line is non-empty and has no surrounding whitespace. */
  lemma {:induction false} CollectedClean(items: seq<Incoming>)
    ensures forall k :: 0 <= k < |Collected(items)| ==>
      Collected(items)[k] != [] && IsStripped(Collected(items)[k])
  {
    if items != [] {
      CollectedClean(items[1..]);
      if items[0].Line? {
        StripFacts(items[0].raw);
      }
    }
  }

  /** execute_at writes exactly once, and what it writes is the command followed by the terminator. */
  lemma ExecWritesOnce(script: seq<Incoming>, l: Link, command: string, timeoutMs: nat,
                       endMarkers: seq<string>, terminator: string)
    requires l.cursor <= |script|
    ensures Writes(Exec(script, l, command, timeoutMs, endMarkers, terminator).0.trace)
         == Writes(l.trace) + [command + terminator]
  {
    var added := [Wrote(command + terminator), Awaited(timeoutMs, endMarkers)];
    WritesAppend(l.trace, added);
    assert Writes(added[1..]) == [] by {
      assert added[1..][1..] == [];
    }
    assert Writes(added) == [command + terminator] + Writes(added[1..]);
  }

  /** A longer trace has written at least what a shorter one has. */
  lemma WritesPrefix(a: seq<Event>, b: seq<Event>)
    requires a <= b
    ensures Writes(a) <= Writes(b)
  {
    assert b == a + b[|a|..];
    WritesAppend(a, b[|a|..]);
  }

  /** send_command writes exactly once and reads nothing; a pause neither writes nor reads. */
  lemma SendAndPauseWrites(l: Link, command: string, terminator: string, ms: nat)
    ensures Writes(Send(l, command, terminator).trace) == Writes(l.trace) + [command + terminator]
    ensures Writes(Pause(l, ms).trace) == Writes(l.trace)
    ensures Send(l, command, terminator).cursor == l.cursor && Pause(l, ms).cursor == l.cursor
  {
    WritesAppend(l.trace, [Wrote(command + terminator)]);
    WritesAppend(l.trace, [Paused(ms)]);
  }

  /** The link `l` with its trace prefix `t` replaced by `t2`: the same session
      preceded by other events. */
  function Rebase(l: Link, t: seq<Event>, t2: seq<Event>): Link
    requires t <= l.trace
  {
    Link(l.cursor, t2 + l.trace[|t|..])
  }

  /** The trace is only ever appended to: what execute_at, send_command and a pause
      do, read and return does not depend on the events before them. */
  lemma RebaseCommutes(script: seq<Incoming>, l: Link, t: seq<Event>, t2: seq<Event>,
                       command: string, timeoutMs: nat, endMarkers: seq<string>, terminator: string, ms: nat)
    requires l.cursor <= |script| && t <= l.trace
    ensures var (l1, r1) := Exec(script, l, command, timeoutMs, endMarkers, terminator);
      t <= l1.trace && Exec(script, Rebase(l, t, t2), command, timeoutMs, endMarkers, terminator) == (Rebase(l1, t, t2), r1)
    ensures t <= Send(l, command, terminator).trace && Send(Rebase(l, t, t2), command, terminator) == Rebase(Send(l, command, terminator), t, t2)
    ensures t <= Pause(l, ms).trace && Pause(Rebase(l, t, t2), ms) == Rebase(Pause(l, ms), t, t2)
  {
    var added := [Wrote(command + terminator), Awaited(timeoutMs, endMarkers)];
    assert (l.trace + added)[|t|..] == l.trace[|t|..] + added;
    assert (t2 + l.trace[|t|..]) + added == t2 + (l.trace + added)[|t|..];
    assert (l.trace + [Wrote(command + terminator)])[|t|..] == l.trace[|t|..] + [Wrote(command + terminator)];
    assert (t2 + l.trace[|t|..]) + [Wrote(command + terminator)] == t2 + (l.trace + [Wrote(command + terminator)])[|t|..];
    assert (l.trace + [Paused(ms)])[|t|..] == l.trace[|t|..] + [Paused(ms)];
    assert (t2 + l.trace[|t|..]) + [Paused(ms)] == t2 + (l.trace + [Paused(ms)])[|t|..];
  }

  /** The reply lines are exactly the non-blank incoming lines, stripped, in arrival order,
      up to where the read stopped; none is empty and none has surrounding whitespace. */
  lemma ReplyIsCollectedLines(script: seq<Incoming>, i: nat, endMarkers: seq<string>)
    requires i <= |script|
    ensures var e := ReadFrom(script, i, endMarkers, []);
      && (!e.response.Raised? ==> e.response.lines == Collected(script[i..e.next]))
      && (!e.response.Raised? ==> forall k :: 0 <= k < |e.response.lines| ==>
            e.response.lines[k] != [] && IsStripped(e.response.lines[k]))
  {
    ReadFromLines(script, i, endMarkers, []);
    var e := ReadFrom(script, i, endMarkers, []);
    CollectedClean(script[i..e.next]);
  }

  /** A reply that ends on a match ends with the first matching line: its last line
      starts with an end marker and no earlier line starts with one. */
  lemma CompleteEndsAtFirstMatch(script: seq<Incoming>, i: nat, endMarkers: seq<string>)
    requires i <= |script|
    ensures var e := ReadFrom(script, i, endMarkers, []);
      e.response.Complete? ==>
        && |e.response.lines| > 0
        && (exists m :: m in endMarkers && m <= e.response.lines[|e.response.lines| - 1])
        && forall k, m :: 0 <= k < |e.response.lines| - 1 && m in endMarkers ==> !(m <= e.response.lines[k])
  {
    ReadFromFirstMatch(script, i, endMarkers, []);
    var r := ReadFrom(script, i, endMarkers, []).response;
    if r.Complete? {
      forall k | 0 <= k < |r.lines| {
        MatchIsPrefixTest(r.lines[k], endMarkers);
      }
    }
  }

  /** A timeout never propagates: lines the read goes past followed by the timeout
      return exactly those lines, collected; a timeout before any line returns the
      empty list. */
  lemma TimeoutReturnsCollected(script: seq<Incoming>, i: nat, j: nat, endMarkers: seq<string>)
    requires i < j <= |script| && script[j - 1] == Expiry
    requires forall k :: i <= k < j - 1 ==> PassesRead(script[k], endMarkers)
    ensures ReadFrom(script, i, endMarkers, []) == ReadEnd(Partial(Collected(script[i..j])), j)
    ensures j == i + 1 ==> ReadFrom(script, i, endMarkers, []) == ReadEnd(Partial([]), i + 1)
  {
    ReadSkipsPassing(script, i, j - 1, endMarkers, []);
    CollectedAppend(script[i..j - 1], [script[j - 1]]);
    assert script[i..j] == script[i..j - 1] + [script[j - 1]];
    assert Collected([script[j - 1]]) == [];
    assert [] + Collected(script[i..j - 1]) == Collected(script[i..j]);
  }

  /** With no end markers nothing can match: the read always runs until the timeout
      (or the end of the script) and returns every line collected on the way. */
  lemma NoMarkersReadsUntilTimeout(script: seq<Incoming>, i: nat)
    requires i <= |script|
    ensures var e := ReadFrom(script, i, [], []);
      && !e.response.Complete?
      && (e.response.Partial? ==> e.response.lines == Collected(script[i..e.next]))
      && (e.next == |script| || (e.next > i && !script[e.next - 1].Line?))
  {
    ReadFromStops(script, i, [], []);
    ReadFromLines(script, i, [], []);
    ReadFromFirstMatch(script, i, [], []);
  }

  class Modem {
    const script: seq<Incoming>
    var cursor: nat
    var trace: seq<Event>
    var closed: bool

    ghost predicate Valid()
      reads this
    {
      cursor <= |script|
    }

    function State(): Link
      reads this
    {
      Link(cursor, trace)
    }

    constructor (script: seq<Incoming>)
      ensures Valid() && this.script == script
      ensures cursor == 0 && trace == [] && !closed
    {
      this.script := script;
      cursor := 0;
      trace := [];
      closed := false;
    }

    method SendCommand(command: string, terminator: string)
      modifies this`trace
      ensures State() == Send(old(State()), command, terminator)
    {
      trace := trace + [Wrote(command + terminator)];
    }

    method ExecuteAt(command: string, timeoutMs: nat, endMarkers: seq<string>, terminator: string)
      returns (response: Response)
      requires Valid()
      modifies this`trace, this`cursor
      ensures Valid()
      ensures (State(), response) == Exec(script, old(State()), command, timeoutMs, endMarkers, terminator)
    {
      SendCommand(command, terminator);
      response := ReadResponse(timeoutMs, endMarkers);
      assert trace == old(trace) + [Wrote(command + terminator), Awaited(timeoutMs, endMarkers)];
    }

    method ReadResponse(timeoutMs: nat, endMarkers: seq<string>) returns (response: Response)
      requires Valid()
      modifies this`trace, this`cursor
      ensures Valid()
      ensures trace == old(trace) + [Awaited(timeoutMs, endMarkers)]
      ensures ReadEnd(response, cursor) == ReadFrom(script, old(cursor), endMarkers, [])
    {
      trace := trace + [Awaited(timeoutMs, endMarkers)];
      ghost var goal := ReadFrom(script, cursor, endMarkers, []);
      var lines: seq<string> := [];
      while cursor < |script|
        invariant cursor <= |script|
        invariant ReadFrom(script, cursor, endMarkers, lines) == goal
        invariant trace == old(trace) + [Awaited(timeoutMs, endMarkers)]
        decreases |script| - cursor
      {
        var incoming := script[cursor];
        cursor := cursor + 1;
        if incoming.Expiry? {
          return Partial(lines);
        } else if incoming.Broken? {
          return Raised;
        }
        var decoded := Strip(incoming.raw);
        if decoded != [] {
          lines := lines + [decoded];
          if MatchesMarker(decoded, endMarkers) {
            return Complete(lines);
          }
        }
      }
      response := Partial(lines);
    }

    method Sleep(ms: nat)
      modifies this`trace
      ensures State() == Pause(old(State()), ms)
    {
      trace := trace + [Paused(ms)];
    }

    method Close()
      modifies this`closed
      ensures closed
    {
      closed := true;
    }
  }
}
