/** Submitting an import: WsLogicBase.SubmitImport puts the message on the import queue, or on the error
    queue when it is invalid, inside one enqueue transaction. */
module ImportSubmission {
  import opened Text

  /** An import message with the fields that enqueueing looks at or fills in. */
  datatype Message = Message(id: nat, routing: string, priority: string, protocol: string)

  datatype Failure = InvalidMessage | InvalidMetadata | OtherError

  datatype Outcome = Ok | Throws(failure: Failure)

  /** EnqueueImportMessage up to the queue itself: missing fields are filled in, in this order, and a
      message without protocol or with an unknown priority is refused. */
  function Normalize(m: Message, defaultRouting: string): (Message, Outcome) {
    if m.routing == "" && defaultRouting == "" then (m, Throws(InvalidMetadata))
    else
      var m1 := if m.routing == "" then m.(routing := defaultRouting) else m;
      var m2 := if m1.priority == "" then m1.(priority := "Normal") else m1;
      if m2.protocol == "" then (m2, Throws(InvalidMetadata))
      else if !KnownPriority(m2.priority) then (m2, Throws(InvalidMetadata))
      else (m2, Ok)
  }

  predicate KnownPriority(priority: string) {
    Upper(priority) == "HIGH" || Upper(priority) == "NORMAL" || Upper(priority) == "LOW"
  }

  /** A message is accepted exactly when it can be routed, names a protocol and has no priority or a known
      one; an accepted message has all three, and what it had is kept. */
  lemma AcceptedIff(m: Message, defaultRouting: string)
    ensures var (m', outcome) := Normalize(m, defaultRouting);
            && (outcome == Ok <==>
                && (m.routing != "" || defaultRouting != "") && m.protocol != ""
                && (m.priority == "" || KnownPriority(m.priority)))
            && (outcome == Ok ==> m'.routing != "" && KnownPriority(m'.priority))
            && m'.id == m.id && m'.protocol == m.protocol
            && (m.routing != "" ==> m'.routing == m.routing) && (m.priority != "" ==> m'.priority == m.priority)
            && (outcome == Ok && m.routing == "" ==> m'.routing == defaultRouting)
            && (outcome == Ok && m.priority == "" ==> m'.priority == "Normal")
  {
    assert Upper("Normal") == "NORMAL";
  }

  /** What the steps outside the program do when they are taken. */
  datatype Outcomes = Outcomes(
    defaultRouting: string,
    send: Outcome,         // putting the message on the import queue
    onCompletion: Outcome, // the caller's completion action
    sendError: bool,       // putting it on the error queue returns
    log: bool,             // logging the refusal returns
    commit: bool)          // the commit returns

  /** The first failure on the way to the import queue or behind it. */
  function Refusal(m: Message, o: Outcomes): Outcome {
    var (_, accepted) := Normalize(m, o.defaultRouting);
    if accepted != Ok then accepted else if o.send != Ok then o.send else o.onCompletion
  }

  predicate Sent(m: Message, o: Outcomes) {
    Normalize(m, o.defaultRouting).1 == Ok && o.send == Ok
  }

  class WsLogic {
    var importQueue: seq<Message>
    var errorQueue: seq<Message>

    constructor ()
      ensures importQueue == [] && errorQueue == []
    {
      importQueue, errorQueue := [], [];
    }

    /** Puts the message on the import queue inside the transaction `pending`. */
    method EnqueueImportMessage(m: Message, o: Outcomes, pending: seq<Message>)
      returns (m': Message, outcome: Outcome, pending': seq<Message>)
      ensures var (n, accepted) := Normalize(m, o.defaultRouting);
              m' == n && outcome == if accepted == Ok then o.send else accepted
      ensures pending' == if outcome == Ok then pending + [m'] else pending
    {
      m', pending' := m, pending;
      if m'.routing == "" {
        if o.defaultRouting == "" {
          return m', Throws(InvalidMetadata), pending';
        }
        m' := m'.(routing := o.defaultRouting);
      }
      if m'.priority == "" {
        m' := m'.(priority := "Normal");
      }
      if m'.protocol == "" {
        return m', Throws(InvalidMetadata), pending';
      }
      if !KnownPriority(m'.priority) {
        return m', Throws(InvalidMetadata), pending';
      }
      outcome := o.send;
      if outcome == Ok {
        pending' := pending + [m'];
      }
    }

    /** Submits the message. `committed` tells whether the call returned; otherwise an exception left it.
        Nothing is queued unless the transaction was committed. */
    method SubmitImport(m: Message, o: Outcomes) returns (committed: bool)
      modifies this
      ensures var r := Refusal(m, o);
              committed == ((r == Ok || (!r.failure.OtherError? && o.sendError && o.log)) && o.commit)
      ensures var m' := Normalize(m, o.defaultRouting).0;
              && importQueue == old(importQueue) + (if committed && Sent(m, o) then [m'] else [])
              && errorQueue == old(errorQueue) + (if committed && Refusal(m, o) != Ok then [m'] else [])
    {
      var messageIsHandled := false;
      var pendingImports, pendingErrors := [], [];
      var message, outcome;
      message, outcome, pendingImports := EnqueueImportMessage(m, o, pendingImports);
      if outcome == Ok {
        messageIsHandled := true;
        outcome := o.onCompletion;
      }
      if outcome != Ok {
        if outcome.failure.OtherError? || !o.sendError {
          return false;
        }
        pendingErrors := pendingErrors + [message];
        if !o.log {
          return false;
        }
        messageIsHandled := true;
      }
      if messageIsHandled {
        if !o.commit {
          return false;
        }
        importQueue, errorQueue := importQueue + pendingImports, errorQueue + pendingErrors;
      }
      return true;
    }
  }

  /** The message can be enqueued. */
  predicate Acceptable(m: Message, defaultRouting: string) {
    && (m.routing != "" || defaultRouting != "") && m.protocol != ""
    && (m.priority == "" || KnownPriority(m.priority))
  }

  /** Priorities are known in any case, and no others. */
  lemma Priorities()
    ensures KnownPriority("HIGH") && KnownPriority("Normal") && KnownPriority("low")
    ensures !KnownPriority("") && !KnownPriority("URGENT") && !KnownPriority("LOWER")
  {
    assert Upper("HIGH") == "HIGH" && Upper("Normal") == "NORMAL" && Upper("low") == "LOW";
    assert Upper("") == "" && Upper("URGENT") == "URGENT" && Upper("LOWER") == "LOWER";
  }

  /** What refuses a message, told by the outcomes of the single steps: first that it is not acceptable, then
      the import queue, then the completion action. */
  lemma RefusedBy(m: Message, o: Outcomes)
    ensures !Acceptable(m, o.defaultRouting) ==> Refusal(m, o) == Throws(InvalidMetadata) && !Sent(m, o)
    ensures Acceptable(m, o.defaultRouting) && o.send != Ok ==> Refusal(m, o) == o.send && !Sent(m, o)
    ensures Acceptable(m, o.defaultRouting) && o.send == Ok ==> Refusal(m, o) == o.onCompletion && Sent(m, o)
  {
    AcceptedIff(m, o.defaultRouting);
  }

  /** The queues that gain the message when a submission commits. */
  predicate ToImport(m: Message, o: Outcomes) {
    Sent(m, o)
  }

  predicate ToErrors(m: Message, o: Outcomes) {
    Refusal(m, o) != Ok
  }

  /** A submission that commits adds the message to at least one queue; to exactly one, except when the
      completion action itself throws an invalid-message exception: then both queues get it. */
  lemma ExactlyOneQueueIff(m: Message, o: Outcomes)
    requires Refusal(m, o) == Ok || !Refusal(m, o).failure.OtherError?
    ensures ToImport(m, o) || ToErrors(m, o)
    ensures !(ToImport(m, o) && ToErrors(m, o)) <==> !Sent(m, o) || o.onCompletion == Ok
  {
  }

  /** The exception at a concrete input: the completion action refuses a message that was accepted. */
  lemma BothQueuesCanGain()
    ensures var m, o := Message(1, "MODULE", "", "AMQP"), Outcomes("", Ok, Throws(InvalidMessage), true, true, true);
            Refusal(m, o) == Throws(InvalidMessage) && ToImport(m, o) && ToErrors(m, o)
  {
    assert Upper("Normal") == "NORMAL";
  }
}
