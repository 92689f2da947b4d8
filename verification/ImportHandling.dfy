/** Handling imported messages: ImportApplication decides what becomes of a message, and
    ImportApplicationManagerService takes messages from the import queue inside one transaction. */
module ImportHandling {

  /** The exception classes that are told apart; OtherError includes configuration exceptions. */
  datatype Failure =
    InvalidMessage | LostPayload | InvalidMetadata | RunnerFailed | TimedOut | OperatingSystem | OtherError

  datatype Outcome = Ok | Throws(failure: Failure)

  datatype Message = Message(id: nat, empty: bool)

  /** What happens to a message that is handled. */
  datatype Disposition = NoMessage | Completed | Empty | FailedInRunner | ToErrorCallback | Escaped

  /** The outcomes of the steps that handling a message takes. */
  datatype Steps = Steps(
    payload: Outcome,  // reading the payload
    resolve: Outcome,  // choosing a runner
    run: Outcome,      // running it
    log: Outcome,      // logging that the message is empty
    report: bool)      // the event log takes what a catch block reports

  /** The first failure of the steps that are taken for the message. */
  function HandlingFailure(message: seq<Message>, s: Steps): Outcome {
    if message == [] then Ok
    else if s.payload != Ok then s.payload
    else if message[0].empty then s.log
    else if s.resolve != Ok then s.resolve
    else s.run
  }

  /** What the catch blocks make of a failure. */
  function Caught(f: Failure): Disposition {
    match f
    case RunnerFailed => FailedInRunner
    case TimedOut => FailedInRunner
    case OtherError => Escaped
    case _ => ToErrorCallback
  }

  /** What the catch blocks come to: a report that fails leaves them. */
  function Handler(f: Failure, report: bool): Disposition {
    if report then Caught(f) else Escaped
  }

  /** The disposition of at most one message. */
  function Dispose(message: seq<Message>, s: Steps): Disposition {
    match HandlingFailure(message, s)
    case Throws(f) => Handler(f, s.report)
    case Ok => if message == [] then NoMessage else if message[0].empty then Empty else Completed
  }

  // The same told by the outcomes of the single steps.

  /** Everything that handling the message takes returns. */
  predicate StepsReturn(m: Message, s: Steps) {
    s.payload == Ok && if m.empty then s.log == Ok else s.resolve == Ok && s.run == Ok
  }

  /** The first step that does not return throws `f`. */
  predicate StepThrows(m: Message, s: Steps, f: Failure) {
    || s.payload == Throws(f)
    || (s.payload == Ok && m.empty && s.log == Throws(f))
    || (s.payload == Ok && !m.empty && s.resolve == Throws(f))
    || (s.payload == Ok && !m.empty && s.resolve == Ok && s.run == Throws(f))
  }

  /** What becomes of a message: which exception leads where. */
  lemma DispositionOf(m: Message, s: Steps)
    ensures StepsReturn(m, s) ==> Dispose([m], s) == if m.empty then Empty else Completed
    ensures forall f :: StepThrows(m, s, f) ==>
              Dispose([m], s) ==
              if f == OtherError || !s.report then Escaped
              else if f == RunnerFailed || f == TimedOut then FailedInRunner
              else ToErrorCallback
    ensures StepsReturn(m, s) || exists f :: StepThrows(m, s, f)
    ensures HandlingFailure([m], s) == Ok <==> StepsReturn(m, s)
    ensures forall f :: HandlingFailure([m], s) == Throws(f) <==> StepThrows(m, s, f)
  {
    match HandlingFailure([m], s)
    case Throws(f) => assert StepThrows(m, s, f);
    case Ok =>
  }

  class ImportApplication {
    var runs: seq<nat>       // messages a runner ran to completion
    var errorCalls: nat      // calls of the error callback
    var failedCalls: nat     // calls of the runner-failed and timeout callbacks

    constructor ()
      ensures runs == [] && errorCalls == 0 && failedCalls == 0
    {
      runs, errorCalls, failedCalls := [], 0, 0;
    }

    method HandleMessage(message: seq<Message>, s: Steps) returns (handled: bool, outcome: Outcome)
      modifies this`runs
      ensures outcome == HandlingFailure(message, s)
      ensures handled == (outcome == Ok && message != [])
      ensures runs == old(runs) + if Dispose(message, s) == Completed then [message[0].id] else []
    {
      handled, outcome := false, Ok;
      if message != [] {
        outcome := s.payload;
        if outcome != Ok {
          return;
        }
        if !message[0].empty {
          outcome := s.resolve;
          if outcome != Ok {
            return;
          }
          outcome := s.run;
          if outcome != Ok {
            return;
          }
          runs := runs + [message[0].id];
        } else {
          // Empty messages are discarded directly with a log message.
          outcome := s.log;
          if outcome != Ok {
            return;
          }
        }
        handled := true;
      }
    }

    /** The catch blocks around a handling call that ended with `outcome`. Their report and the callback
        they call return or not; when one of them does not, an exception leaves them. */
    method CatchFailure(handled: bool, outcome: Outcome, report: bool, callback: bool) returns (r: bool, escaped: bool)
      modifies this`errorCalls, this`failedCalls
      ensures escaped == (outcome.Throws? && (Handler(outcome.failure, report) == Escaped || !callback))
      ensures !escaped ==> r == (handled || outcome != Ok)
      ensures errorCalls ==
              old(errorCalls) + if outcome.Throws? && Handler(outcome.failure, report) == ToErrorCallback then 1 else 0
      ensures failedCalls ==
              old(failedCalls) + if outcome.Throws? && Handler(outcome.failure, report) == FailedInRunner then 1 else 0
    {
      if outcome == Ok {
        return handled, false;
      }
      if !report {
        return false, true;
      }
      match outcome.failure {
        case RunnerFailed =>
          failedCalls := failedCalls + 1;
        case TimedOut =>
          failedCalls := failedCalls + 1;
        case OtherError =>
          return false, true;
        case _ =>
          errorCalls := errorCalls + 1;
      }
      return true, !callback;
    }

    /** Handles one message; each of the counters tells one disposition, so a message is exactly one of
        run to completion, discarded as empty, failed in its runner, passed to the error callback, or
        left by an exception. An exception leaves the call in the last case, and when a callback that is
        called does not return. */
    method StartImportJobImmediately(message: Message, s: Steps, callback: bool, onFinished: bool)
      returns (r: bool, escaped: bool)
      modifies this
      ensures var d := Dispose([message], s);
              && escaped ==
                 (d == Escaped || ((d == ToErrorCallback || d == FailedInRunner) && !callback) || !onFinished)
              && runs == old(runs) + (if d == Completed then [message.id] else [])
              && errorCalls == old(errorCalls) + (if d == ToErrorCallback then 1 else 0)
              && failedCalls == old(failedCalls) + (if d == FailedInRunner then 1 else 0)
      ensures !escaped ==> r
    {
      var handled, outcome := HandleMessage([message], s);
      r, escaped := CatchFailure(handled, outcome, s.report, callback);
      if !escaped && !onFinished {
        escaped := true;
      }
    }
  }

  /** What reading the import queue gives. A corrupt body has already left the queue inside the
      transaction when the exception is thrown. */
  datatype Dequeue = Next | Corrupt | DequeueFails

  /** The environment of one call of ProcessNextImportMessage. */
  datatype Outcomes = Outcomes(dequeue: Dequeue, steps: Steps,
    delete: Outcome,       // deleting the payload of a handled message
    errorCallback: bool,   // putting a message on the error queue returns, or reporting that there is none
    failedCallback: bool,  // deleting the payload of a failed message returns
    commit: bool)          // the commit returns

  /** The import queue, the error queue, and the messages completed, discarded as empty, failed in their
      runner, and dropped because their body was corrupt. */
  datatype World = World(imports: seq<Message>, errors: seq<Message>,
    completed: seq<nat>, emptied: seq<nat>, failed: seq<nat>, dropped: seq<nat>)

  /** The failure of the whole guarded call. */
  function GuardedFailure(imports: seq<Message>, o: Outcomes): Outcome {
    match o.dequeue
    case DequeueFails => Throws(OtherError)
    case Corrupt => if imports == [] then Ok else Throws(InvalidMessage)
    case Next =>
      if imports == [] then Ok
      else if HandlingFailure(imports[..1], o.steps) != Ok then HandlingFailure(imports[..1], o.steps)
      else o.delete
  }

  /** The callback for the failure returns. */
  predicate CallbackReturns(f: Failure, o: Outcomes) {
    if Caught(f) == FailedInRunner then o.failedCallback else o.errorCallback
  }

  /** The call is committed. */
  predicate Commits(imports: seq<Message>, o: Outcomes) {
    imports != [] && o.commit &&
    match GuardedFailure(imports, o)
    case Ok => true
    case Throws(f) => Handler(f, o.steps.report) != Escaped && CallbackReturns(f, o)
  }

  /** One call of ProcessNextImportMessage on the head of the queue. */
  function Process(w: World, o: Outcomes): World {
    var f := GuardedFailure(w.imports, o);
    // What a runner has completed stays completed, also when the transaction is rolled back.
    var w1 := if w.imports != [] && o.dequeue.Next? && Dispose(w.imports[..1], o.steps) == Completed
              then w.(completed := w.completed + [w.imports[0].id]) else w;
    if !Commits(w.imports, o) then w1
    else
      var m := w.imports[0];
      var w2 := w1.(imports := w.imports[1..]);
      if o.dequeue.Corrupt? then w2.(dropped := w2.dropped + [m.id])
      else
        match f
        case Ok => if m.empty then w2.(emptied := w2.emptied + [m.id]) else w2
        case Throws(f) =>
          if Caught(f) == FailedInRunner then w2.(failed := w2.failed + [m.id])
          else w2.(errors := w2.errors + [m])
  }

  class ImportApplicationManagerService {
    const application: ImportApplication
    var imports: seq<Message>
    var errors: seq<Message>
    // What was reported about messages that left the import queue without reaching the error queue.
    var emptied: seq<nat>
    var failed: seq<nat>
    var dropped: seq<nat>

    constructor (application: ImportApplication)
      ensures this.application == application
    {
      this.application := application;
      imports, errors, emptied, failed, dropped := [], [], [], [], [];
    }

    function Abstract(): World
      reads this, application
    {
      World(imports, errors, application.runs, emptied, failed, dropped)
    }

    /** The guarded call: takes a message, handles it and deletes its payload. What is taken leaves the
        queue when the transaction is committed. */
    method HandleNext(o: Outcomes) returns (message: seq<Message>, taken: bool, handled: bool, outcome: Outcome)
      modifies application`runs
      ensures outcome == GuardedFailure(imports, o)
      ensures message == if o.dequeue.Next? && imports != [] then imports[..1] else []
      ensures taken == (!o.dequeue.DequeueFails? && imports != [])
      ensures outcome == Ok ==> handled == (message != [])
      ensures var completed := message != [] && Dispose(message, o.steps) == Completed;
              application.runs == old(application.runs) + if completed then [message[0].id] else []
    {
      message, taken, handled := [], false, false;
      if o.dequeue.DequeueFails? {
        return message, taken, handled, Throws(OtherError);
      }
      if imports != [] {
        taken := true;
        if o.dequeue.Corrupt? {
          return message, taken, handled, Throws(InvalidMessage);
        }
        message := imports[..1];
      }
      handled, outcome := application.HandleMessage(message, o.steps);
      if outcome == Ok && message != [] {
        outcome := o.delete;
      }
    }

    /** Takes one message from the import queue inside a transaction and handles it. An exception
        leaves the call unless it is committed or there is nothing to do. */
    method ProcessNextImportMessage(o: Outcomes) returns (possiblyMoreWork: bool, escaped: bool)
      modifies this, application
      ensures Abstract() == Process(old(Abstract()), o)
      ensures possiblyMoreWork == (o.dequeue.Next? && old(imports) != [])
      ensures escaped == (!Commits(old(imports), o) && (old(imports) != [] || o.dequeue.DequeueFails?))
    {
      hide HandlingFailure, Dispose;
      var message, taken, handled, outcome := HandleNext(o);
      possiblyMoreWork := message != [];
      var callback := outcome == Ok || CallbackReturns(outcome.failure, o);
      var r;
      r, escaped := application.CatchFailure(handled, outcome, o.steps.report, callback);
      if escaped {
        return;
      }
      // What the error callback has put on the error queue inside the transaction.
      var pendingErrors := if outcome.Throws? && Caught(outcome.failure) == ToErrorCallback then message else [];
      if r && o.commit {
        if taken {
          Report(message, outcome);
          imports := imports[1..];
        }
        errors := errors + pendingErrors;
      } else {
        escaped := r;
      }
    }

    /** Records what the committed message is known as. */
    method Report(message: seq<Message>, outcome: Outcome)
      requires imports != [] && (message == [] || message == imports[..1])
      modifies this`emptied, this`failed, this`dropped
      ensures dropped == old(dropped) + if message == [] then [imports[0].id] else []
      ensures var failedInRunner := message != [] && outcome.Throws? && Caught(outcome.failure) == FailedInRunner;
              failed == old(failed) + if failedInRunner then [imports[0].id] else []
      ensures var empty := message != [] && outcome == Ok && imports[0].empty;
              emptied == old(emptied) + if empty then [imports[0].id] else []
    {
      if message == [] {
        dropped := dropped + [imports[0].id];
      } else if outcome == Ok {
        if imports[0].empty {
          emptied := emptied + [imports[0].id];
        }
      } else if Caught(outcome.failure) == FailedInRunner {
        failed := failed + [imports[0].id];
      }
    }
  }

  /** Messages arrive on the import queue between the calls of the service. */
  datatype Event = Arrive(message: Message) | Call(outcomes: Outcomes)

  function After(w: World, e: Event): World {
    match e
    case Arrive(m) => w.(imports := w.imports + [m])
    case Call(o) => Process(w, o)
  }

  function Run(w: World, events: seq<Event>): World
    decreases |events|
  {
    if events == [] then w else Run(After(w, events[0]), events[1..])
  }

  /** How often a message stands in a queue. */
  function Count(q: seq<Message>, id: nat): nat {
    if q == [] then 0 else (if q[0].id == id then 1 else 0) + Count(q[1..], id)
  }

  lemma {:induction false} CountAppend(q: seq<Message>, m: Message, id: nat)
    ensures Count(q + [m], id) == Count(q, id) + if m.id == id then 1 else 0
  {
    if q == [] {
      assert q + [m] == [m];
    } else {
      CountAppend(q[1..], m, id);
      assert (q + [m])[1..] == q[1..] + [m];
    }
  }

  /** How often an id was recorded. */
  function Occurrences(ids: seq<nat>, id: nat): nat {
    multiset(ids)[id]
  }

  lemma OccurrencesAppend(ids: seq<nat>, other: nat, id: nat)
    ensures Occurrences(ids + [other], id) == Occurrences(ids, id) + if other == id then 1 else 0
  {
  }

  /** The copies of a message that are queued, on the error queue, or recorded. */
  function Accounted(w: World, id: nat): nat {
    Count(w.imports, id) + Count(w.errors, id)
    + Occurrences(w.completed, id) + Occurrences(w.emptied, id) + Occurrences(w.failed, id) + Occurrences(w.dropped, id)
  }

  /** How often a message arrives during a run. */
  function Arrivals(events: seq<Event>, id: nat): nat {
    if events == [] then 0
    else (if events[0].Arrive? && events[0].message.id == id then 1 else 0) + Arrivals(events[1..], id)
  }

  lemma NoneLostStep(w: World, o: Outcomes, id: nat)
    ensures Accounted(Process(w, o), id) >= Accounted(w, id)
  {
    hide Occurrences, HandlingFailure, Dispose;
    if w.imports != [] {
      var m := w.imports[0];
      CountAppend(w.errors, m, id);
      OccurrencesAppend(w.completed, m.id, id);
      OccurrencesAppend(w.emptied, m.id, id);
      OccurrencesAppend(w.failed, m.id, id);
      OccurrencesAppend(w.dropped, m.id, id);
      if o.dequeue.Next? {
        CompletedIfNothingFails(m, o.steps);
        assert w.imports[..1] == [m];
      }
    }
  }

  lemma CompletedIfNothingFails(m: Message, s: Steps)
    ensures Dispose([m], s) == Completed <==> HandlingFailure([m], s) == Ok && !m.empty
  {
  }

  /** Main result: over any run of arrivals and calls no copy of a message is lost. Each one that was
      queued, or arrived on the way, is still queued, on the error queue, completed, discarded as empty,
      failed in its runner, or dropped because its body was corrupt. */
  lemma {:induction false} NoImportIsLost(w: World, events: seq<Event>, id: nat)
    ensures Accounted(Run(w, events), id) >= Accounted(w, id) + Arrivals(events, id)
    decreases |events|
  {
    hide Process, Occurrences;
    if events != [] {
      match events[0] {
        case Arrive(m) => CountAppend(w.imports, m, id);
        case Call(o) => NoneLostStep(w, o, id);
      }
      NoImportIsLost(After(w, events[0]), events[1..], id);
    }
  }

  /** Handling the message and deleting its payload: the first step that does not return throws `f`. */
  predicate CallThrows(m: Message, o: Outcomes, f: Failure) {
    StepThrows(m, o.steps, f) || (StepsReturn(m, o.steps) && o.delete == Throws(f))
  }

  /** Where the head of the queue goes, told by the outcomes of the single steps: the whole world after a
      call. After an exception of the known classes it goes to the error queue, after a failure of the
      runner or a timeout it is recorded as failed, each if the report, the callback and the commit return;
      after any other exception it stays. */
  lemma WhereTheHeadGoes(w: World, o: Outcomes, m: Message)
    requires o.dequeue.Next? && w.imports != [] && m == w.imports[0]
    ensures var s, w' := o.steps, Process(w, o);
            var ran := !m.empty && s.payload == Ok && s.resolve == Ok && s.run == Ok;
            var stays := w.(completed := w.completed + if ran then [m.id] else []);
            var gone := stays.(imports := w.imports[1..]);
            && (StepsReturn(m, s) && o.delete == Ok ==>
                  w' == if !o.commit then stays else if m.empty then gone.(emptied := w.emptied + [m.id]) else gone)
            && (CallThrows(m, o, OtherError) ==> w' == stays)
            && (CallThrows(m, o, RunnerFailed) || CallThrows(m, o, TimedOut) ==>
                  w' == if s.report && o.failedCallback && o.commit then gone.(failed := w.failed + [m.id]) else stays)
            && (CallThrows(m, o, InvalidMessage) || CallThrows(m, o, LostPayload) || CallThrows(m, o, InvalidMetadata)
                || CallThrows(m, o, OperatingSystem) ==>
                  w' == if s.report && o.errorCallback && o.commit then gone.(errors := w.errors + [m]) else stays)
  {
    DispositionOf(m, o.steps);
    assert w.imports[..1] == [m];
    hide StepsReturn, StepThrows, HandlingFailure;
  }

  /** A corrupt body is dropped if the report, the error callback and the commit return; without a message,
      or when reading the queue fails, nothing changes. */
  lemma WhereOthersGo(w: World, o: Outcomes)
    ensures o.dequeue.Corrupt? && w.imports != [] ==>
              Process(w, o) ==
              if o.steps.report && o.errorCallback && o.commit then
                w.(imports := w.imports[1..], dropped := w.dropped + [w.imports[0].id])
              else w
    ensures o.dequeue.DequeueFails? || w.imports == [] ==> Process(w, o) == w
  {
  }

  /** When a message leaves the import queue it goes to one place only, except that a message whose
      payload could not be deleted after it was completed is put on the error queue as well. */
  lemma OnePlaceIff(w: World, o: Outcomes)
    requires Commits(w.imports, o)
    ensures var w' := Process(w, o);
            && |w'.imports| == |w.imports| - 1
            && var places := (|w'.errors| - |w.errors|) + (|w'.completed| - |w.completed|)
                             + (|w'.emptied| - |w.emptied|) + (|w'.failed| - |w.failed|) + (|w'.dropped| - |w.dropped|);
            && 1 <= places <= 2
            && (places == 1 <==>
                !(&& o.dequeue.Next? && HandlingFailure(w.imports[..1], o.steps) == Ok
                  && !w.imports[0].empty && o.delete != Ok))
  {
  }

  /** The exception at a concrete input: the payload of a completed message cannot be deleted. */
  lemma CompletedAndErroneous()
    ensures var m := Message(1, false);
            var w' := Process(World([m], [], [], [], [], []),
                              Outcomes(Next, Steps(Ok, Ok, Ok, Ok, true), Throws(OperatingSystem), true, true, true));
            w' == World([], [m], [1], [], [], [])
  {
  }

  /** A runner completes the message in this call: it is taken, not empty, and every step of handling it
      returns. */
  predicate Completes(w: World, e: Event, id: nat) {
    && e.Call? && e.outcomes.dequeue.Next? && w.imports != [] && w.imports[0].id == id && !w.imports[0].empty
    && e.outcomes.steps.payload == e.outcomes.steps.resolve == e.outcomes.steps.run == Ok
  }

  /** How often a run completes the message. */
  function Completions(w: World, events: seq<Event>, id: nat): nat
    decreases |events|
  {
    if events == [] then 0
    else (if Completes(w, events[0], id) then 1 else 0) + Completions(After(w, events[0]), events[1..], id)
  }

  /** A run records each completion. */
  lemma {:induction false} CompletionsAreRecorded(w: World, events: seq<Event>, id: nat)
    ensures Occurrences(Run(w, events).completed, id) == Occurrences(w.completed, id) + Completions(w, events, id)
    decreases |events|
  {
    hide After, Completes, Occurrences;
    if events != [] {
      CompletionStep(w, events[0], id);
      CompletionsAreRecorded(After(w, events[0]), events[1..], id);
    }
  }

  lemma CompletionStep(w: World, e: Event, id: nat)
    ensures Occurrences(After(w, e).completed, id) ==
        Occurrences(w.completed, id) + if Completes(w, e, id) then 1 else 0
  {
    hide Commits;
  }

  /** The head of the queue leaves it when the call is committed, and nothing else changes there. */
  lemma ImportsAfter(w: World, o: Outcomes)
    ensures Commits(w.imports, o) ==> w.imports != []
    ensures Process(w, o).imports == if Commits(w.imports, o) then w.imports[1..] else w.imports
  {
  }

  /** How one event changes the copies in the import queue. */
  lemma ImportsCount(w: World, e: Event, id: nat)
    ensures e.Arrive? ==> Count(After(w, e).imports, id) == Count(w.imports, id) + if e.message.id == id then 1 else 0
    ensures e.Call? ==>
              Count(After(w, e).imports, id) ==
              Count(w.imports, id) - if Commits(w.imports, e.outcomes) && w.imports[0].id == id then 1 else 0
  {
    hide Process, Commits;
    match e
    case Arrive(m) => CountAppend(w.imports, m, id);
    case Call(o) => ImportsAfter(w, o);
  }

  lemma {:induction false} GoneIsNotCompleted(w: World, events: seq<Event>, id: nat)
    requires Count(w.imports, id) == 0 && Arrivals(events, id) == 0
    ensures Completions(w, events, id) == 0
    decreases |events|
  {
    hide Commits, Process;
    if events != [] {
      ImportsCount(w, events[0], id);
      GoneIsNotCompleted(After(w, events[0]), events[1..], id);
    }
  }

  /** A message that is queued once and completed can be completed again, without arriving again, exactly
      when the call that completed it is not committed: the commit fails, or deleting the payload fails
      and so does what the catch blocks do about it. */
  lemma CompletedAgainIff(w: World, o: Outcomes, id: nat)
    requires Count(w.imports, id) == 1 && Completes(w, Call(o), id)
    ensures (forall events :: Arrivals(events, id) == 0 ==> Completions(Process(w, o), events, id) == 0) <==>
            o.commit && match o.delete
                        case Ok => true
                        case Throws(OtherError) => false
                        case Throws(RunnerFailed) => o.steps.report && o.failedCallback
                        case Throws(TimedOut) => o.steps.report && o.failedCallback
                        case Throws(_) => o.steps.report && o.errorCallback
  {
    var w' := Process(w, o);
    ImportsCount(w, Call(o), id);
    ImportsAfter(w, o);
    if Commits(w.imports, o) {
      forall events | Arrivals(events, id) == 0 ensures Completions(w', events, id) == 0 {
        GoneIsNotCompleted(w', events, id);
      }
    } else {
      var again := [Call(o)];
      assert Arrivals(again, id) == Arrivals(again[1..], id) == 0;
      assert Completions(w', again, id) == 1 + Completions(After(w', Call(o)), again[1..], id);
    }
  }

  /** In the run, an event completes the message and a copy of it stays in the queue: the call is not
      committed, or there was another copy. Later the message is completed again. */
  predicate Repeats(w: World, events: seq<Event>, id: nat)
    decreases |events|
  {
    events != [] &&
    var w' := After(w, events[0]);
    || (Completes(w, events[0], id) && (!Commits(w.imports, events[0].outcomes) || Count(w.imports, id) > 1)
        && Completions(w', events[1..], id) > 0)
    || Repeats(w', events[1..], id)
  }

  /** Main result on repeated work: over any run in which a message does not arrive again it is completed
      more than once exactly when a call that completed it left a copy, not being committed or not having
      taken the last one, and it was completed again. */
  lemma {:induction false} CompletedTwiceIff(w: World, events: seq<Event>, id: nat)
    requires Arrivals(events, id) == 0
    ensures Completions(w, events, id) > 1 <==> Repeats(w, events, id)
    decreases |events|
  {
    hide Process, Commits;
    if events != [] {
      var w' := After(w, events[0]);
      ImportsCount(w, events[0], id);
      CompletedTwiceIff(w', events[1..], id);
      if Count(w'.imports, id) == 0 {
        GoneIsNotCompleted(w', events[1..], id);
      }
    }
  }
}
