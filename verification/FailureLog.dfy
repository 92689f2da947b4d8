/** The throttle of MessageExporter: a message that keeps failing is written to the event log at most
    once per interval, a message that starts to fail is written at once. */
module FailureLog {

  /** An entry of the event log about a message that could not be sent. */
  datatype Entry = Entry(logId: int, at: int)

  /** The two fields of the exporter. */
  datatype Throttle = Throttle(failing: int, lastReport: int)

  /** The clock readings around one report: when the interval is checked, when the entry is written and
      when the report time is stored. */
  datatype Times = Times(check: int, write: int, stored: int) {
    predicate Monotone() {
      check <= write <= stored
    }
  }

  /** Whether a failure is written to the event log. */
  predicate IsWritten(t: Throttle, logId: int, check: int, interval: int) {
    logId != t.failing || check - t.lastReport >= interval
  }

  function Written(t: Throttle, logId: int, times: Times, interval: int): seq<Entry> {
    if IsWritten(t, logId, times.check, interval) then [Entry(logId, times.write)] else []
  }

  function OnFailure(t: Throttle, logId: int, times: Times, interval: int): Throttle {
    if IsWritten(t, logId, times.check, interval) then Throttle(logId, times.stored) else t
  }

  function OnSuccess(t: Throttle): Throttle {
    t.(failing := 0)
  }

  /** What is written during failures of one message with no success and no other failure in between. */
  function StreakEntries(t: Throttle, logId: int, readings: seq<Times>, interval: int): seq<Entry>
    decreases |readings|
  {
    if readings == [] then []
    else
      Written(t, logId, readings[0], interval)
      + StreakEntries(OnFailure(t, logId, readings[0], interval), logId, readings[1..], interval)
  }

  lemma StreakTurn(t: Throttle, logId: int, readings: seq<Times>, interval: int)
    requires readings != []
    ensures StreakEntries(t, logId, readings, interval) ==
            Written(t, logId, readings[0], interval)
            + StreakEntries(OnFailure(t, logId, readings[0], interval), logId, readings[1..], interval)
  {
  }


  /** The clock does not run backwards over the readings, nor before `start`. */
  ghost predicate Monotone(start: int, readings: seq<Times>)
    decreases |readings|
  {
    readings == [] || (start <= readings[0].check && readings[0].Monotone() &&
        Monotone(readings[0].stored, readings[1..]))
  }

  lemma MonotoneEarlier(start: int, earlier: int, readings: seq<Times>)
    requires Monotone(start, readings) && earlier <= start
    ensures Monotone(earlier, readings)
  {
  }

  /** Entries with at least `interval` between neighbours. */
  ghost predicate Spaced(entries: seq<Entry>, interval: int) {
    forall i :: 0 <= i < |entries| - 1 ==> entries[i + 1].at - entries[i].at >= interval
  }

  /** The entries are about one message. */
  ghost predicate AreAbout(entries: seq<Entry>, logId: int) {
    forall i :: 0 <= i < |entries| ==> entries[i].logId == logId
  }

  lemma OneMoreEntry(first: Entry, rest: seq<Entry>, interval: int)
    requires Spaced(rest, interval) && AreAbout(rest, first.logId) && (rest != [] ==> rest[0].at - first.at >= interval)
    ensures Spaced([first] + rest, interval) && AreAbout([first] + rest, first.logId)
  {
    var all := [first] + rest;
    assert forall i :: 0 < i < |all| ==> all[i] == rest[i - 1];
  }

  lemma NoEntries(t: Throttle, logId: int, interval: int)
    ensures var none := StreakEntries(t, logId, [], interval);
            none == [] && AreAbout(none, logId) && Spaced(none, interval)
  {
  }

  /** Over any streak the entries written are for this message and at least one interval apart; when
      the message was failing before, the first of them also keeps the distance to the last report. */
  lemma {:induction false} StreakIsThrottled(t: Throttle, logId: int, readings: seq<Times>, interval: int)
    requires Monotone(t.lastReport, readings)
    ensures var entries := StreakEntries(t, logId, readings, interval);
            && AreAbout(entries, logId) && Spaced(entries, interval)
            && (t.failing == logId && entries != [] ==> entries[0].at - t.lastReport >= interval)
            && (t.failing != logId && readings != [] ==> entries != [] && entries[0].at == readings[0].write)
    decreases |readings|
  {
    hide Spaced, AreAbout, StreakEntries;
    if readings == [] {
      NoEntries(t, logId, interval);
    } else {
      var t' := OnFailure(t, logId, readings[0], interval);
      MonotoneEarlier(readings[0].stored, t'.lastReport, readings[1..]);
      StreakIsThrottled(t', logId, readings[1..], interval);
      StreakTurn(t, logId, readings, interval);
      var rest := StreakEntries(t', logId, readings[1..], interval);
      if IsWritten(t, logId, readings[0].check, interval) {
        OneMoreEntry(Entry(logId, readings[0].write), rest, interval);
      } else {
        assert [] + rest == rest;
      }
    }
  }

  /** What a streak writes, told by its readings. Nothing is written exactly when the message was failing
      before and every failure comes less than an interval after the last report. */
  lemma {:induction false} NothingWrittenIff(t: Throttle, logId: int, readings: seq<Times>, interval: int)
    ensures StreakEntries(t, logId, readings, interval) == [] <==>
            || readings == []
            || (t.failing == logId && forall i :: 0 <= i < |readings| ==> readings[i].check < t.lastReport + interval)
    decreases |readings|
  {
    if readings != [] {
      StreakTurn(t, logId, readings, interval);
      NothingWrittenIff(t, logId, readings[1..], interval);
    }
  }

  /** A failure that is due, the message not being remembered or the interval having passed, is written at
      once, and the interval starts again when its report is stored. */
  lemma DueIsWritten(t: Throttle, logId: int, readings: seq<Times>, interval: int)
    requires readings != [] && (t.failing != logId || readings[0].check >= t.lastReport + interval)
    ensures StreakEntries(t, logId, readings, interval) ==
            [Entry(logId, readings[0].write)]
            + StreakEntries(Throttle(logId, readings[0].stored), logId, readings[1..], interval)
  {
    StreakTurn(t, logId, readings, interval);
  }

  /** A failure is written whatever the clock says exactly when the exporter does not remember the
      message as the failing one; so the first failure of a streak is always written, except that a
      message with log id 0 looks remembered after every success. */
  lemma FirstFailureIsWritten(t: Throttle, logId: int, interval: int)
    requires interval > 0
    ensures (forall check :: IsWritten(t, logId, check, interval)) <==> logId != t.failing
    ensures (forall check :: IsWritten(OnSuccess(t), logId, check, interval)) <==> logId != 0
  {
    assert logId == t.failing ==> !IsWritten(t, logId, t.lastReport, interval);
    assert logId == 0 ==> !IsWritten(OnSuccess(t), logId, t.lastReport, interval);
  }
}
