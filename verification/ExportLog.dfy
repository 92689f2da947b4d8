/** The event log over whole runs of the exporter: arrivals, successes and failures of any messages in any
    order. How far the throttle spaces the entries, and which failures it never holds back. */
module ExportLog {
  import opened ExportRuns
  import opened FailureLog
  import opened MessageExporter

  /** An entry of the event log, and how many messages had been accepted when it was written. */
  datatype Line = Line(entry: Entry, successes: nat)

  datatype State = State(world: World, throttle: Throttle, successes: nat, log: seq<Line>)

  function Lines(entries: seq<Entry>, successes: nat): (r: seq<Line>)
    ensures |r| == |entries| && forall i :: 0 <= i < |r| ==> r[i] == Line(entries[i], successes)
  {
    seq(|entries|, i requires 0 <= i < |entries| => Line(entries[i], successes))
  }

  /** The throttle and the successes once the message of a call has been sent or refused. */
  function Sent(s: State, o: Outcomes): State {
    s.(throttle := AfterSend(s.throttle, o), successes := if o.send == Ok then s.successes + 1 else s.successes)
  }

  /** Failures of a message reported one after the other. */
  function AfterFailures(s: State, logId: int, readings: seq<Times>, interval: int): State {
    s.(throttle := AfterReports(s.throttle, logId, readings, interval),
       log := s.log + Lines(StreakEntries(s.throttle, logId, readings, interval), s.successes))
  }

  /** What the outcomes of a call come to, given the throttle. */
  function EffectiveIn(s: State, moduleName: string, o: Outcomes, clock: Clock, interval: int): Outcomes {
    Effective(s.world.queue, moduleName, o, s.throttle, clock, interval)
  }

  /** One event; a call of ExportMessage changes queue, throttle and log as the method promises. */
  function Step(s: State, e: Event, clock: Clock, interval: int): State {
    match e
    case Arrive(_) => s.(world := After(s.world, e))
    case Export(moduleName, o) =>
      var handled, o' := Handled(s.world.queue, moduleName, o), EffectiveIn(s, moduleName, o, clock, interval);
      var s' := if handled == [] then s else AfterFailures(Sent(s, o), handled[0].logId, Reported(o', clock), interval);
      s'.(world := After(s.world, Export(moduleName, o')))
  }

  datatype Timed = Timed(event: Event, clock: Clock)

  function LogRun(s: State, events: seq<Timed>, interval: int): State
    decreases |events|
  {
    if events == [] then s else LogRun(Step(s, events[0].event, events[0].clock, interval), events[1..], interval)
  }

  /** The clock does not run backwards from `now` on. */
  ghost predicate ClockRuns(now: int, events: seq<Timed>)
    decreases |events|
  {
    events == [] ||
    var c := events[0].clock;
    Monotone(now, [c.first, c.second]) && ClockRuns(c.second.stored, events[1..])
  }

  /** Neighbours in the log about the same message with no success in between are an interval apart. */
  ghost predicate StreaksAreSpaced(log: seq<Line>, interval: int) {
    forall i ::
      0 <= i < |log| - 1 && log[i].entry.logId == log[i + 1].entry.logId && log[i].successes == log[i + 1].successes ==>
      log[i + 1].entry.at - log[i].entry.at >= interval
  }

  /** The log id the exporter remembers: that of the last entry, and 0 after a success. */
  function Remembered(s: State): int {
    if s.log != [] && s.log[|s.log| - 1].successes == s.successes then s.log[|s.log| - 1].entry.logId else 0
  }

  ghost predicate Inv(s: State, now: int, interval: int) {
    && StreaksAreSpaced(s.log, interval)
    && s.throttle.failing == Remembered(s) && s.throttle.lastReport <= now
    && (s.log != [] ==>
          var last := s.log[|s.log| - 1];
          last.entry.at <= s.throttle.lastReport && last.successes <= s.successes)
  }

  /** The throttle after a streak. */
  lemma {:induction false} StreakEnd(t: Throttle, logId: int, readings: seq<Times>, interval: int, later: int)
    requires Monotone(t.lastReport, readings) && t.lastReport <= later
    requires forall i :: 0 <= i < |readings| ==> readings[i].stored <= later
    ensures var entries, t' := StreakEntries(t, logId, readings, interval), AfterReports(t, logId, readings, interval);
            && t'.lastReport <= later
            && (entries == [] ==> t' == t)
            && (entries != [] ==> t'.failing == logId && entries[|entries| - 1].at <= t'.lastReport)
    decreases |readings|
  {
    if readings != [] {
      var t' := OnFailure(t, logId, readings[0], interval);
      MonotoneEarlier(readings[0].stored, t'.lastReport, readings[1..]);
      StreakEnd(t', logId, readings[1..], interval, later);
      if StreakEntries(t', logId, readings[1..], interval) == [] {
        assert AfterReports(t', logId, readings[1..], interval) == t';
      }
    }
  }

  lemma ClockAdvances(now: int, clock: Clock)
    requires Monotone(now, [clock.first, clock.second])
    ensures now <= clock.first.stored <= clock.second.stored
  {
    assert [clock.first, clock.second][1..] == [clock.second];
    assert Monotone(clock.first.stored, [clock.second]);
  }

  /** The readings of a call, in order. */
  lemma ReadingsAreMonotone(now: int, start: int, o: Outcomes, clock: Clock)
    requires Monotone(now, [clock.first, clock.second]) && start <= now
    ensures Monotone(start, Reported(o, clock))
    ensures forall i :: 0 <= i < |Reported(o, clock)| ==> Reported(o, clock)[i].stored <= clock.second.stored
  {
    ClockAdvances(now, clock);
    var both := [clock.first, clock.second];
    assert both[1..] == [clock.second] && [clock.second][1..] == [] && [clock.first][1..] == [];
    assert Monotone(clock.first.stored, [clock.second]);
    MonotoneEarlier(now, start, both);
    assert Monotone(start, [clock.first]);
  }

  /** Entries of one streak behind a log. */
  lemma LinesKeepSpacing(log: seq<Line>, entries: seq<Entry>, logId: int, successes: nat, interval: int)
    requires StreaksAreSpaced(log, interval) && Spaced(entries, interval)
    requires AreAbout(entries, logId)
    requires
      log != [] && entries != [] && log[|log| - 1].entry.logId == logId && log[|log| - 1].successes == successes ==>
        entries[0].at - log[|log| - 1].entry.at >= interval
    ensures StreaksAreSpaced(log + Lines(entries, successes), interval)
  {
  }

  lemma LastLine(log: seq<Line>, entries: seq<Entry>, successes: nat)
    ensures var r := log + Lines(entries, successes);
            if entries == [] then r == log else r[|r| - 1] == Line(entries[|entries| - 1], successes)
  {
  }

  /** What a streak promises about its entries and the throttle behind it is enough for the invariant. */
  lemma StreakKeepsInv(s: State, logId: int, entries: seq<Entry>, t: Throttle, now: int, later: int, interval: int)
    requires Inv(s, now, interval) && t.lastReport <= later
    requires Spaced(entries, interval) && AreAbout(entries, logId)
    requires s.throttle.failing == logId && entries != [] ==> entries[0].at - s.throttle.lastReport >= interval
    requires if entries == [] then t == s.throttle else t.failing == logId && entries[|entries| - 1].at <= t.lastReport
    ensures Inv(s.(throttle := t, log := s.log + Lines(entries, s.successes)), later, interval)
  {
    hide StreaksAreSpaced, Spaced;
    LinesKeepSpacing(s.log, entries, logId, s.successes, interval);
    LastLine(s.log, entries, s.successes);
  }

  lemma FailuresKeepInv(s: State, logId: int, readings: seq<Times>, now: int, later: int, interval: int)
    requires Inv(s, now, interval) && Monotone(s.throttle.lastReport, readings) && now <= later
    requires forall i :: 0 <= i < |readings| ==> readings[i].stored <= later
    ensures Inv(AfterFailures(s, logId, readings, interval), later, interval)
  {
    StreakIsThrottled(s.throttle, logId, readings, interval);
    assert s.throttle.lastReport <= later;
    StreakEnd(s.throttle, logId, readings, interval, later);
    hide StreakEntries, AfterReports, Monotone, Inv, Spaced, Lines;
    var entries := StreakEntries(s.throttle, logId, readings, interval);
    var t := AfterReports(s.throttle, logId, readings, interval);
    StreakKeepsInv(s, logId, entries, t, now, later, interval);
  }

  /** A success lets the exporter forget the message of the last entry. */
  lemma SentKeepsInv(s: State, o: Outcomes, now: int, interval: int)
    requires Inv(s, now, interval)
    ensures Inv(Sent(s, o), now, interval)
  {
    hide StreaksAreSpaced;
  }

  lemma InvStep(s: State, e: Event, clock: Clock, now: int, interval: int)
    requires Inv(s, now, interval) && Monotone(now, [clock.first, clock.second])
    ensures Inv(Step(s, e, clock, interval), clock.second.stored, interval)
  {
    hide StreaksAreSpaced, AfterFailures, Monotone, Reported, Handled, EffectiveIn, After;
    ClockAdvances(now, clock);
    if e.Export? {
      var handled := Handled(s.world.queue, e.moduleName, e.outcomes);
      if handled != [] {
        var s', o' := Sent(s, e.outcomes), EffectiveIn(s, e.moduleName, e.outcomes, clock, interval);
        SentKeepsInv(s, e.outcomes, now, interval);
        ReadingsAreMonotone(now, s'.throttle.lastReport, o', clock);
        FailuresKeepInv(s', handled[0].logId, Reported(o', clock), now, clock.second.stored, interval);
      }
    }
  }

  lemma {:induction false} InvRun(s: State, events: seq<Timed>, now: int, interval: int)
    requires Inv(s, now, interval) && ClockRuns(now, events)
    ensures exists later :: Inv(LogRun(s, events, interval), later, interval)
    decreases |events|
  {
    hide Inv, Step;
    if events != [] {
      var e := events[0];
      InvStep(s, e.event, e.clock, now, interval);
      InvRun(Step(s, e.event, e.clock, interval), events[1..], e.clock.second.stored, interval);
      assert LogRun(s, events, interval) == LogRun(Step(s, e.event, e.clock, interval), events[1..], interval);
    } else {
      assert LogRun(s, events, interval) == s;
    }
  }

  /** The exporter as it is created. */
  function Created(w: World, minTime: int): State {
    State(w, Throttle(0, minTime), 0, [])
  }

  /** Main result on the event log: over any run, with successes and failures of other messages in
      between, two neighbouring entries about the same message are at least one interval apart unless a
      message was accepted between them; and the exporter remembers exactly the message of the last
      entry, or 0 after a success. */
  lemma LogIsThrottled(w: World, events: seq<Timed>, minTime: int, interval: int)
    requires ClockRuns(minTime, events)
    ensures var s := LogRun(Created(w, minTime), events, interval);
            StreaksAreSpaced(s.log, interval) && s.throttle.failing == Remembered(s)
  {
    InvRun(Created(w, minTime), events, minTime, interval);
  }

  /** At any point of a run a reported failure is written at once, whatever the clock says, when the
      last entry is about another message, and after a success when the log id is not 0. */
  lemma OtherFailureIsWritten(
    w: World, events: seq<Timed>, minTime: int, interval: int, moduleName: string, o: Outcomes, clock: Clock)
    requires ClockRuns(minTime, events)
    requires var s := LogRun(Created(w, minTime), events, interval);
             var readings := Reported(EffectiveIn(s, moduleName, o, clock, interval), clock);
             && Handled(s.world.queue, moduleName, o) != [] && readings != []
             && Monotone(s.throttle.lastReport, readings)
             && Remembered(Sent(s, o)) != Handled(s.world.queue, moduleName, o)[0].logId
    ensures var s := LogRun(Created(w, minTime), events, interval);
            var s' := Step(s, Export(moduleName, o), clock, interval);
            var readings := Reported(EffectiveIn(s, moduleName, o, clock, interval), clock);
            && |s'.log| > |s.log|
            && s'.log[|s.log|].entry == Entry(Handled(s.world.queue, moduleName, o)[0].logId, readings[0].write)
  {
    hide LogRun, Reported, Handled, EffectiveIn, Monotone, StreakEntries, AfterReports;
    InvRun(Created(w, minTime), events, minTime, interval);
    var s := LogRun(Created(w, minTime), events, interval);
    var later :| Inv(s, later, interval);
    SentKeepsInv(s, o, later, interval);
    var readings := Reported(EffectiveIn(s, moduleName, o, clock, interval), clock);
    StreakIsThrottled(Sent(s, o).throttle, Handled(s.world.queue, moduleName, o)[0].logId, readings, interval);
  }
}
