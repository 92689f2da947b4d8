/** MessageExporter.ExportMessage, step by step: the dequeue transaction, the send delegate, the catch
    blocks and the nested enqueue transaction. Exceptions are outcomes of the steps. */
module MessageExporter {
  import opened ExportRuns
  import opened FailureLog

  class ExportQueue {
    var messages: seq<Message>
  }

  datatype Status = Idle | Pending | Committed | Aborted

  /** A queue transaction: what is received or sent in it happens to the queue when it is committed.
      Committing or rolling back fails unless the transaction is pending. */
  class QueueTransaction {
    const queue: ExportQueue
    var status: Status
    var taken: seq<nat>
    var put: seq<Message>

    constructor (queue: ExportQueue)
      ensures this.queue == queue && status == Idle && taken == [] && put == []
    {
      this.queue := queue;
      status, taken, put := Idle, [], [];
    }

    method Begin()
      modifies this`status
      ensures status == Pending
    {
      status := Pending;
    }

    /** Receives the next message of the module, if there is one. */
    method Receive(moduleName: string) returns (found: bool, i: nat)
      requires taken == []
      modifies this`taken
      ensures i == Next(queue.messages, moduleName) <= |queue.messages| && found == (i < |queue.messages|)
      ensures taken == if found then [i] else []
    {
      NextInRange(queue.messages, moduleName);
      i := Next(queue.messages, moduleName);
      found := i < |queue.messages|;
      if found {
        taken := [i];
      }
    }

    method Send(m: Message)
      modifies this`put
      ensures put == old(put) + [m]
    {
      put := put + [m];
    }

    /** What is received is still in the queue. */
    ghost predicate Holds()
      reads this, queue
    {
      |taken| <= 1 && (taken != [] ==> taken[0] < |queue.messages|)
    }

    /** What the queue is once this transaction is committed. */
    ghost function Result(): seq<Message>
      requires Holds()
      reads this, queue
    {
      (if taken == [] then queue.messages else queue.messages[..taken[0]] + queue.messages[taken[0] + 1..]) + put
    }

    method Commit(works: bool) returns (ok: bool)
      requires status == Pending ==> Holds()
      modifies this`status, queue
      ensures ok == (old(status) == Pending && works)
      ensures status == if ok then Committed else old(status)
      ensures queue.messages == if ok then old(Result()) else old(queue.messages)
    {
      ok := status == Pending && works;
      if ok {
        if taken != [] {
          queue.messages := queue.messages[..taken[0]] + queue.messages[taken[0] + 1..];
        }
        queue.messages := queue.messages + put;
        status := Committed;
      }
    }

    method Rollback(works: bool) returns (ok: bool)
      modifies this`status
      ensures ok == (old(status) == Pending && works)
      ensures status == if ok then Aborted else old(status)
    {
      ok := status == Pending && works;
      if ok {
        status := Aborted;
      }
    }
  }

  /** ExportMessage returns whether a message was found and handled, or an exception leaves it. */
  datatype Result = Returned(found: bool) | Escaped

  /** When an exception leaves ExportMessage although its catch blocks rethrow nothing: reading the
      queue failed, or a step of a catch block failed; committing or rolling back there fails in
      particular after the message had been committed. */
  predicate Escapes(o: Outcomes) {
    match FirstFailure(o)
    case Ok => false
    case Throws(MissingField) =>
      !o.log || (!(o.enqueue && o.innerCommit && o.outerCommit && !CommittedFirst(o))
                 && (CommittedFirst(o) || !o.rollback || !o.secondLog))
    case Throws(OtherError) => CommittedFirst(o) || !o.rollback || !o.log
    case Throws(_) => CommittedFirst(o) || !o.discardCommit || !o.report
  }

  lemma NoFailureNoEscape(o: Outcomes)
    requires FirstFailure(o) == Ok
    ensures !Escapes(o) && CommittedFirst(o) && !Discarded(o) && !Copied(o)
  {
  }

  /** An exception leaves the call: reading the queue fails, or a message is there and handling it fails
      beyond the catch blocks. */
  predicate Leaves(q: seq<Message>, moduleName: string, o: Outcomes) {
    !o.receive || (Handled(q, moduleName, o) != [] && Escapes(o))
  }

  /** `o` with the steps of `h` that no catch block guards: reading the queue, deleting the payload of a
      committed message, and the steps of the catch blocks. */
  function WithUnguarded(o: Outcomes, h: Outcomes): Outcomes {
    o.(receive := h.receive, delete := h.delete, discardCommit := h.discardCommit, report := h.report, log := h.log,
       rollback := h.rollback, secondLog := h.secondLog)
  }

  /** The outcomes of a call with those of its failure reports made exact: `log` and `secondLog` tell
      whether the event log takes an entry, and a report that writes none returns in any case. */
  function Reporting(o: Outcomes, t: Throttle, logId: int, clock: Clock, interval: int): Outcomes {
    var t' := OnFailure(t, logId, clock.first, interval);
    o.(log := o.log || !IsWritten(t, logId, clock.first.check, interval),
       secondLog := o.secondLog || !IsWritten(t', logId, clock.second.check, interval))
  }

  /** The throttle once the message has been sent or refused. */
  function AfterSend(t: Throttle, o: Outcomes): Throttle {
    if o.send == Ok then OnSuccess(t) else t
  }

  /** The outcomes of a call on the next message of the module. */
  function Effective(
    q: seq<Message>, moduleName: string, o: Outcomes, t: Throttle, clock: Clock, interval: int): Outcomes {
    var handled := Handled(q, moduleName, o);
    if handled == [] then o else Reporting(o, AfterSend(t, o), handled[0].logId, clock, interval)
  }

  /** All that a call depends on beside the queue and the steps no catch block guards. */
  datatype Guarded = Guarded(steps: Outcomes, throttle: Throttle, clock: Clock)

  /** The outcomes of a call with the unguarded steps of `h`. */
  function CallOutcomes(q: seq<Message>, moduleName: string, g: Guarded, h: Outcomes, interval: int): Outcomes {
    Effective(q, moduleName, WithUnguarded(g.steps, h), g.throttle, g.clock, interval)
  }

  /** No exception leaves a call, whatever the guarded steps, the throttle and the clock do. */
  ghost predicate CannotFail(q: seq<Message>, moduleName: string, h: Outcomes, interval: int) {
    forall g: Guarded :: !Leaves(q, moduleName, CallOutcomes(q, moduleName, g, h, interval))
  }

  /** Every step that no catch block guards returns. */
  predicate UnguardedReturn(h: Outcomes) {
    h.receive && h.delete == Ok && h.discardCommit && h.report && h.log && h.rollback && h.secondLog
  }

  const SENT := Outcomes(true, Ok, Ok, Ok, Ok, true, true, true, true, true, true, true, true)

  /** The promise that the service cannot fail. While a message is queued it holds for everything the
      guarded steps may do exactly when each of the unguarded steps returns. */
  lemma ServiceCannotFailIff(q: seq<Message>, moduleName: string, h: Outcomes, interval: int)
    requires Next(q, moduleName) < |q|
    ensures CannotFail(q, moduleName, h, interval) <==> UnguardedReturn(h)
  {
    hide Next, Reporting, Effective, Handled;
    var logId := q[Next(q, moduleName)].logId;
    if UnguardedReturn(h) {
      forall g: Guarded ensures !Leaves(q, moduleName, CallOutcomes(q, moduleName, g, h, interval)) {
        var o := WithUnguarded(g.steps, h);
        OneCall(q, moduleName, o, g.throttle, g.clock, interval);
        ReportingKeeps(o, AfterSend(g.throttle, o), logId, g.clock, interval);
      }
    } else {
      var g := UnguardedCanFail(h, logId, interval);
      if h.receive {
        OneCall(q, moduleName, WithUnguarded(g.steps, h), g.throttle, g.clock, interval);
        var o := WithUnguarded(g.steps, h);
        ReportingKeeps(o, AfterSend(g.throttle, o), logId, g.clock, interval);
        HandledAlike(q, moduleName, WithUnguarded(g.steps, h), CallOutcomes(q, moduleName, g, h, interval));
      } else {
        NoCall(q, moduleName, WithUnguarded(g.steps, h));
        NothingEffective(q, moduleName, WithUnguarded(g.steps, h), g.throttle, g.clock, interval);
      }
      assert Leaves(q, moduleName, CallOutcomes(q, moduleName, g, h, interval));
    }
  }

  /** What `Reporting` leaves as it is. */
  lemma ReportingKeeps(o: Outcomes, t: Throttle, logId: int, clock: Clock, interval: int)
    ensures var e := Reporting(o, t, logId, clock, interval);
            e == o.(log := e.log, secondLog := e.secondLog) && (o.log ==> e.log) && (o.secondLog ==> e.secondLog)
            && FirstFailure(e) == FirstFailure(o) && CommittedFirst(e) == CommittedFirst(o)
  {
  }

  /** A call in which an unguarded step that does not return is taken. */
  lemma UnguardedCanFail(h: Outcomes, logId: int, interval: int) returns (g: Guarded)
    requires !UnguardedReturn(h)
    ensures var o := WithUnguarded(g.steps, h);
            !o.receive || Escapes(Reporting(o, AfterSend(g.throttle, o), logId, g.clock, interval))
  {
    // A clock and a throttle with which every report is written.
    var later := if interval < 0 then 0 else interval;
    var clock := Clock(Times(0, 0, 0), Times(later, later, later));
    var steps :=
      if h.delete != Ok then SENT
      else if !h.discardCommit || !h.report then SENT.(send := Throws(InvalidMessage))
      else if !h.log || !h.rollback then SENT.(send := Throws(OtherError))
      else SENT.(send := Throws(MissingField), enqueue := false);
    g := Guarded(steps, Throttle(logId + 1, 0), clock);
  }

  /** An exception that leaves the call after the message was committed means that deleting its payload
      failed. */
  lemma EscapeAfterCommit(o: Outcomes)
    requires Escapes(o) && CommittedFirst(o)
    ensures o.delete != Ok
  {
  }

  /** The call works on the message that is received next. */
  lemma OneCall(q: seq<Message>, moduleName: string, o: Outcomes, t: Throttle, clock: Clock, interval: int)
    requires o.receive && Next(q, moduleName) < |q|
    ensures var i, e := Next(q, moduleName), Effective(q, moduleName, o, t, clock, interval);
            && e == Reporting(o, AfterSend(t, o), q[i].logId, clock, interval)
            && Handled(q, moduleName, o) == [q[i]] && Ids([q[i]]) == [q[i].id]
            && AfterExport(q, moduleName, e) ==
               (if CommittedFirst(e) || Discarded(e) || (Copied(e) && e.outerCommit) then q[..i] + q[i + 1..] else q)
               + (if Copied(e) then [q[i].(priority := Low)] else [])
  {
    hide Next, CommittedFirst, Discarded, Copied, IsWritten;
    assert [q[Next(q, moduleName)]][1..] == [];
  }

  lemma NoCall(q: seq<Message>, moduleName: string, o: Outcomes)
    requires !o.receive || Next(q, moduleName) >= |q|
    ensures Handled(q, moduleName, o) == [] && Ids([]) == []
  {
    NextInRange(q, moduleName);
  }

  lemma HandledAlike(q: seq<Message>, moduleName: string, o: Outcomes, e: Outcomes)
    requires o.receive == e.receive
    ensures Handled(q, moduleName, o) == Handled(q, moduleName, e)
  {
  }

  lemma NothingEffective(q: seq<Message>, moduleName: string, o: Outcomes, t: Throttle, clock: Clock, interval: int)
    requires Handled(q, moduleName, o) == []
    ensures Effective(q, moduleName, o, t, clock, interval) == o
  {
  }

  /** The readings of the clock during the first and the second failure report of a call. */
  datatype Clock = Clock(first: Times, second: Times)

  /** The failures a call reports, in order. */
  function Reported(o: Outcomes, clock: Clock): seq<Times> {
    match FirstFailure(o)
    case Throws(MissingField) =>
      if !o.log then []
      else if o.enqueue && o.innerCommit && o.outerCommit && !CommittedFirst(o) then [clock.first]
      else if CommittedFirst(o) || !o.rollback || !o.secondLog then [clock.first]
      else [clock.first, clock.second]
    case Throws(OtherError) => if CommittedFirst(o) || !o.rollback || !o.log then [] else [clock.first]
    case _ => []
  }

  /** How a call ends and what it reports, told by the outcomes of the single steps. */
  lemma CallEndsAs(o: Outcomes, clock: Clock)
    // Everything returns.
    ensures Finished(o) && o.delete == Ok ==> FirstFailure(o) == Ok && !Escapes(o) && Reported(o, clock) == []
    // The payload of a committed message cannot be deleted.
    ensures Finished(o) && o.delete != Ok ==>
              && FirstFailure(o) != Ok && Escapes(o)
              && Reported(o, clock) == if o.delete == Throws(MissingField) && o.log then [clock.first] else []
    // The message is invalid.
    ensures FailsWith(o, InvalidMessage) || FailsWith(o, InvalidMetadata) || FailsWith(o, LostPayload) ==>
              && FirstFailure(o) != Ok && (Escapes(o) <==> !o.discardCommit || !o.report)
              && Reported(o, clock) == []
    // No rule is found for it: it is reported, and once more when it cannot be moved.
    ensures FailsWith(o, MissingField) ==>
              var moved := o.enqueue && o.innerCommit && o.outerCommit;
              && FirstFailure(o) != Ok && (Escapes(o) <==> !o.log || (!moved && (!o.rollback || !o.secondLog)))
              && Reported(o, clock) ==
                 if !o.log then []
                 else if moved || !o.rollback || !o.secondLog then [clock.first]
                 else [clock.first, clock.second]
    // Anything else is thrown before the commit.
    ensures FailsWith(o, OtherError) ==>
              && FirstFailure(o) != Ok && (Escapes(o) <==> !o.rollback || !o.log)
              && Reported(o, clock) == if o.rollback && o.log then [clock.first] else []
  {
  }

  /** The case that no rule is found for the message, before or after the commit. */
  lemma NoRuleEndsAs(o: Outcomes, clock: Clock)
    requires FirstFailure(o) == Throws(MissingField)
    ensures Copied(o) == (o.log && o.enqueue && o.innerCommit)
    ensures var moved := o.enqueue && o.innerCommit && o.outerCommit && !CommittedFirst(o);
            var settled := !CommittedFirst(o) && o.rollback && o.secondLog;
            && Escapes(o) == (!o.log || (!moved && !settled))
            && Reported(o, clock) ==
               if !o.log then [] else if moved || !settled then [clock.first] else [clock.first, clock.second]
  {
  }

  lemma NothingReported(o: Outcomes, clock: Clock)
    requires FirstFailure(o) == Ok
    ensures Reported(o, clock) == []
  {
  }

  /** The throttle after failures reported one after the other. */
  function AfterReports(t: Throttle, logId: int, readings: seq<Times>, interval: int): Throttle
    decreases |readings|
  {
    if readings == [] then t
    else AfterReports(OnFailure(t, logId, readings[0], interval), logId, readings[1..], interval)
  }

  lemma NoReport(t: Throttle, logId: int, interval: int)
    ensures AfterReports(t, logId, [], interval) == t && StreakEntries(t, logId, [], interval) == []
  {
  }

  lemma OneReport(t: Throttle, logId: int, a: Times, rest: seq<Times>, interval: int)
    ensures var t' := OnFailure(t, logId, a, interval);
            && AfterReports(t, logId, [a] + rest, interval) == AfterReports(t', logId, rest, interval)
            && StreakEntries(t, logId, [a] + rest, interval) ==
               Written(t, logId, a, interval) + StreakEntries(t', logId, rest, interval)
  {
    assert ([a] + rest)[1..] == rest;
  }

  /** Reporting once or twice. */
  lemma ReportSteps(t: Throttle, logId: int, a: Times, b: Times, interval: int)
    ensures AfterReports(t, logId, [], interval) == t && StreakEntries(t, logId, [], interval) == []
    ensures AfterReports(t, logId, [a], interval) == OnFailure(t, logId, a, interval)
    ensures StreakEntries(t, logId, [a], interval) == Written(t, logId, a, interval)
    ensures AfterReports(t, logId, [a, b], interval) == OnFailure(OnFailure(t, logId, a, interval), logId, b, interval)
    ensures StreakEntries(t, logId, [a, b], interval) ==
            Written(t, logId, a, interval) + Written(OnFailure(t, logId, a, interval), logId, b, interval)
  {
    hide *;
    var t' := OnFailure(t, logId, a, interval);
    assert [a] + [] == [a] && [b] + [] == [b] && [a] + [b] == [a, b];
    NoReport(t, logId, interval);
    NoReport(t', logId, interval);
    NoReport(OnFailure(t', logId, b, interval), logId, interval);
    OneReport(t, logId, a, [], interval);
    OneReport(t', logId, b, [], interval);
    OneReport(t, logId, a, [b], interval);
  }

  /** Taking a message out and adding others behind all of them can be exchanged. */
  lemma TakenFromFront(q: seq<Message>, i: nat, more: seq<Message>)
    requires i < |q|
    ensures (q + more)[..i] + (q + more)[i + 1..] == q[..i] + q[i + 1..] + more
  {
  }

  class MessageExporter {
    const queue: ExportQueue
    const interval: int
    var messageLogIdOfFailingMessage: int
    var lastEventReportTime: int
    var eventLog: seq<Entry>
    var accepted: seq<nat>  // what the receivers accepted, recorded by the send delegate

    constructor (queue: ExportQueue, interval: int, minTime: int)
      ensures this.queue == queue && this.interval == interval && eventLog == [] && accepted == []
      ensures Throttled() == Throttle(0, minTime)
    {
      this.queue, this.interval := queue, interval;
      messageLogIdOfFailingMessage, lastEventReportTime := 0, minTime;
      eventLog, accepted := [], [];
    }

    function Throttled(): Throttle
      reads this
    {
      Throttle(messageLogIdOfFailingMessage, lastEventReportTime)
    }

    /** Reports a failure, throttled. It fails, and changes nothing, when there is an entry to write and the
        event log does not take it. */
    method OnUnknownError(logId: int, times: Times, log: bool) returns (ok: bool)
      modifies this`messageLogIdOfFailingMessage, this`lastEventReportTime, this`eventLog
      ensures ok == (log || !IsWritten(old(Throttled()), logId, times.check, interval))
      ensures Throttled() == if ok then OnFailure(old(Throttled()), logId, times, interval) else old(Throttled())
      ensures eventLog == old(eventLog) + if ok then Written(old(Throttled()), logId, times, interval) else []
    {
      if logId == messageLogIdOfFailingMessage {
        if times.check - lastEventReportTime >= interval {
          if !log {
            return false;
          }
          eventLog := eventLog + [Entry(logId, times.write)];
          lastEventReportTime := times.stored;
        }
      } else {
        if !log {
          return false;
        }
        eventLog := eventLog + [Entry(logId, times.write)];
        lastEventReportTime := times.stored;
        messageLogIdOfFailingMessage := logId;
      }
      return true;
    }

    /** The low-priority re-enqueue of a message no rule was found for. */
    method Reenqueue(message: Message, o: Outcomes) returns (ok: bool)
      modifies queue
      ensures ok == (o.enqueue && o.innerCommit)
      ensures queue.messages == old(queue.messages) + if ok then [message.(priority := Low)] else []
    {
      var tx := new QueueTransaction(queue);
      tx.Begin();
      if !o.enqueue {
        return false;
      }
      tx.Send(message.(priority := Low));
      ok := tx.Commit(o.innerCommit);
    }

    method ExportMessage(moduleName: string, o: Outcomes, clock: Clock) returns (r: Result)
      modifies this, queue
      ensures accepted == old(accepted) + if o.send == Ok then Ids(Handled(old(queue.messages), moduleName, o)) else []
      ensures Handled(old(queue.messages), moduleName, o) == [] ==>
                && queue.messages == old(queue.messages) && r == (if o.receive then Returned(false) else Escaped)
                && Throttled() == old(Throttled()) && eventLog == old(eventLog)
      ensures var e := Effective(old(queue.messages), moduleName, o, old(Throttled()), clock, interval);
              Handled(old(queue.messages), moduleName, o) != [] ==>
                && queue.messages == AfterExport(old(queue.messages), moduleName, e)
                && r == if Escapes(e) then Escaped else Returned(FirstFailure(e) == Ok)
      ensures var e := Effective(old(queue.messages), moduleName, o, old(Throttled()), clock, interval);
              var handled, t := Handled(old(queue.messages), moduleName, o), AfterSend(old(Throttled()), o);
              handled != [] ==>
                && Throttled() == AfterReports(t, handled[0].logId, Reported(e, clock), interval)
                && eventLog == old(eventLog) + StreakEntries(t, handled[0].logId, Reported(e, clock), interval)
    {
      hide AfterReports, StreakEntries, IsWritten, Reporting, Reported, Escapes, Next, Ids;
      hide AfterExport, Handled, Effective, AfterSend, FirstFailure, CommittedFirst, Discarded, Copied;
      if !o.receive || Next(queue.messages, moduleName) >= |queue.messages| {
        NoCall(queue.messages, moduleName, o);
      }
      var transaction := new QueueTransaction(queue);
      transaction.Begin();
      if !o.receive {
        return Escaped;
      }
      var found, i := transaction.Receive(moduleName);
      if !found {
        return Returned(false);
      }
      OneCall(queue.messages, moduleName, o, Throttled(), clock, interval);
      ghost var e := Effective(queue.messages, moduleName, o, Throttled(), clock, interval);
      r := HandleReceived(transaction, queue.messages[i], o, clock, e);
    }

    /** Sends a message that has been received, and catches what is thrown on the way. */
    method HandleReceived(transaction: QueueTransaction, message: Message, o: Outcomes, clock: Clock, ghost e: Outcomes)
      returns (r: Result)
      requires transaction.queue == queue && transaction.status == Pending
      requires transaction.Holds() && transaction.put == [] && transaction.taken != []
      requires e == Reporting(o, AfterSend(Throttled(), o), message.logId, clock, interval)
      modifies this, queue, transaction`status
      ensures accepted == old(accepted) + if o.send == Ok then [message.id] else []
      ensures r == if Escapes(e) then Escaped else Returned(FirstFailure(e) == Ok)
      ensures queue.messages ==
              (if CommittedFirst(e) || Discarded(e) || (Copied(e) && e.outerCommit) then old(transaction.Result())
               else old(queue.messages))
              + (if Copied(e) then [message.(priority := Low)] else [])
      ensures var t := AfterSend(old(Throttled()), o);
              && Throttled() == AfterReports(t, message.logId, Reported(e, clock), interval)
              && eventLog == old(eventLog) + StreakEntries(t, message.logId, Reported(e, clock), interval)
    {
      hide AfterReports, StreakEntries, IsWritten, Reporting, Reported, Escapes, AfterSend;
      hide FirstFailure, CommittedFirst, Discarded, Copied;
      ghost var t := AfterSend(Throttled(), o);
      ReportingKeeps(o, t, message.logId, clock, interval);
      var outcome := Send(transaction, message, o);
      if outcome == Ok {
        NoFailureNoEscape(e);
        NothingReported(e, clock);
        NoReport(t, message.logId, interval);
        return Returned(true);
      }
      r := Catch(transaction, message, outcome.failure, o, clock, e);
    }

    /** The guarded steps: sending, the success log, the commit and the deletion of the payload. */
    method Send(transaction: QueueTransaction, message: Message, o: Outcomes) returns (outcome: Outcome)
      requires transaction.queue == queue && transaction.status == Pending && transaction.Holds()
      modifies this`accepted, this`messageLogIdOfFailingMessage, queue, transaction`status
      ensures outcome == FirstFailure(o)
      ensures accepted == old(accepted) + if o.send == Ok then [message.id] else []
      ensures Throttled() == AfterSend(old(Throttled()), o)
      ensures transaction.status == if CommittedFirst(o) then Committed else Pending
      ensures queue.messages == if CommittedFirst(o) then old(transaction.Result()) else old(queue.messages)
    {
      outcome := o.send;
      if outcome == Ok {
        accepted := accepted + [message.id];
        messageLogIdOfFailingMessage := 0;
        outcome := o.onSuccess;
      }
      if outcome == Ok {
        var ok := transaction.Commit(o.commit == Ok);
        outcome := o.commit;
      }
      if outcome == Ok {
        outcome := o.delete;
      }
    }

    /** The catch blocks. */
    method Catch(
      transaction: QueueTransaction, message: Message, failure: Failure, o: Outcomes, clock: Clock, ghost e: Outcomes)
      returns (r: Result)
      requires transaction.queue == queue && FirstFailure(e) == Throws(failure)
      requires e == Reporting(o, Throttled(), message.logId, clock, interval)
      requires transaction.status == (if CommittedFirst(e) then Committed else Pending)
      requires transaction.status == Pending ==> transaction.Holds() && transaction.put == [] && transaction.taken != []
      modifies this, queue, transaction`status
      ensures accepted == old(accepted)
      ensures r == if Escapes(e) then Escaped else Returned(false)
      ensures queue.messages ==
              (if !CommittedFirst(e) && (Discarded(e) || (Copied(e) && e.outerCommit)) then old(transaction.Result())
               else old(queue.messages))
              + (if Copied(e) then [message.(priority := Low)] else [])
      ensures Throttled() == AfterReports(old(Throttled()), message.logId, Reported(e, clock), interval)
      ensures eventLog == old(eventLog) + StreakEntries(old(Throttled()), message.logId, Reported(e, clock), interval)
    {
      ReportSteps(Throttled(), message.logId, clock.first, clock.second, interval);
      hide AfterReports, StreakEntries, Written, OnFailure, IsWritten;
      r := Returned(false);
      match failure {
        case MissingField =>
          r := CatchMissingField(transaction, message, o, clock, e);
        case OtherError =>
          var ok := RollbackAndReport(transaction, message.logId, clock.first, o.rollback, o.log);
          if !ok {
            r := Escaped;
          }
        case _ =>
          // Invalid messages are discarded.
          var ok := transaction.Commit(o.discardCommit);
          if !ok || !o.report {
            r := Escaped;
          }
      }
    }

    /** Rolls the transaction back, which puts nothing into the queue, and reports the failure. */
    method RollbackAndReport(transaction: QueueTransaction, logId: int, times: Times, rollback: bool, log: bool)
      returns (ok: bool)
      modifies this`messageLogIdOfFailingMessage, this`lastEventReportTime, this`eventLog, transaction`status
      ensures var reports := log || !IsWritten(old(Throttled()), logId, times.check, interval);
              ok == (old(transaction.status) == Pending && rollback && reports)
      ensures transaction.status ==
          if old(transaction.status) == Pending && rollback then Aborted else old(transaction.status)
      ensures Throttled() == if ok then OnFailure(old(Throttled()), logId, times, interval) else old(Throttled())
      ensures eventLog == old(eventLog) + if ok then Written(old(Throttled()), logId, times, interval) else []
    {
      hide Written, OnFailure, IsWritten;
      ok := transaction.Rollback(rollback);
      if ok {
        ok := OnUnknownError(logId, times, log);
      }
    }

    method CatchMissingField(
      transaction: QueueTransaction, message: Message, o: Outcomes, clock: Clock, ghost e: Outcomes)
      returns (r: Result)
      requires transaction.queue == queue && FirstFailure(e) == Throws(MissingField)
      requires e == Reporting(o, Throttled(), message.logId, clock, interval)
      requires transaction.status == (if CommittedFirst(e) then Committed else Pending)
      requires transaction.status == Pending ==> transaction.Holds() && transaction.put == [] && transaction.taken != []
      modifies this, queue, transaction`status
      ensures accepted == old(accepted)
      ensures r == if Escapes(e) then Escaped else Returned(false)
      ensures queue.messages ==
              (if !CommittedFirst(e) && Copied(e) && e.outerCommit then old(transaction.Result())
               else old(queue.messages))
              + (if Copied(e) then [message.(priority := Low)] else [])
      ensures Throttled() == AfterReports(old(Throttled()), message.logId, Reported(e, clock), interval)
      ensures eventLog == old(eventLog) + StreakEntries(old(Throttled()), message.logId, Reported(e, clock), interval)
    {
      ReportSteps(Throttled(), message.logId, clock.first, clock.second, interval);
      NoRuleEndsAs(e, clock);
      ReportingKeeps(o, Throttled(), message.logId, clock, interval);
      hide AfterReports, StreakEntries, Written, OnFailure, IsWritten, Escapes, Reported, Copied, FirstFailure;
      var ok := OnUnknownError(message.logId, clock.first, o.log);
      if !ok {
        return Escaped;
      }
      if transaction.status == Pending {
        TakenFromFront(queue.messages, transaction.taken[0], [message.(priority := Low)]);
      }
      ok := Reenqueue(message, o);
      if ok {
        ok := transaction.Commit(o.outerCommit);
      }
      if !ok {
        ghost var reported, t := eventLog, Throttled();
        ok := RollbackAndReport(transaction, message.logId, clock.second, o.rollback, o.secondLog);
        assert ok ==> eventLog == reported + Written(t, message.logId, clock.second, interval);
      }
      r := if ok then Returned(false) else Escaped;
    }
  }
}
