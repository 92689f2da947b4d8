/** What one call of ExportMessage does to the export queue, told from the outcomes of the steps it
    takes, and what follows for whole runs: no message is lost, and when a copy appears. */
module ExportRuns {
  import opened Text

  datatype Priority = High | Normal | Low

  /** A queued export message; `id` tells messages apart, the routing address is never empty. */
  datatype Message = Message(id: nat, logId: int, routing: string, priority: Priority)

  /** The module a routing address names: the part before a colon, unless the colon comes first. */
  function ModuleOf(routing: string): string {
    var colon := Find(routing, ':', 0);
    if 0 < colon < |routing| then routing[..colon] else routing
  }

  /** The address in front of its first colon, told by parts; without a colon, or with one in front, it is
      the module itself. */
  lemma ModuleOfParts(a: string, b: string)
    requires forall j :: 0 <= j < |a| ==> a[j] != ':'
    ensures ModuleOf(a) == a && ModuleOf(":" + b) == ":" + b
    ensures a != "" ==> ModuleOf(a + ":" + b) == a
  {
    FindIsUnique(a, ':', 0, |a|);
    FindIsUnique(":" + b, ':', 0, 0);
    assert forall j :: 0 <= j < |a| ==> (a + ":" + b)[j] == a[j];
    FindIsUnique(a + ":" + b, ':', 0, |a|);
  }

  /** The first message of the module with the priority, |q| when there is none. */
  function FirstOf(q: seq<Message>, moduleName: string, priority: Priority): (i: nat)
    ensures i <= |q|
    ensures i < |q| ==> ModuleOf(q[i].routing) == moduleName && q[i].priority == priority
    ensures forall j :: 0 <= j < i ==> !(ModuleOf(q[j].routing) == moduleName && q[j].priority == priority)
  {
    if q == [] || (ModuleOf(q[0].routing) == moduleName && q[0].priority == priority) then 0
    else 1 + FirstOf(q[1..], moduleName, priority)
  }

  /** The message that is received next: the three queues of the module are read in order of priority. */
  function Next(q: seq<Message>, moduleName: string): nat {
    if FirstOf(q, moduleName, High) < |q| then FirstOf(q, moduleName, High)
    else if FirstOf(q, moduleName, Normal) < |q| then FirstOf(q, moduleName, Normal)
    else FirstOf(q, moduleName, Low)
  }

  predicate IsBetter(p: Priority, other: Priority) {
    (p.High? && !other.High?) || (p.Normal? && other.Low?)
  }

  /** The next message is the first one of the highest priority that the module has, and there is one if the
      module has any. */
  lemma NextIsFirstOfHighest(q: seq<Message>, moduleName: string, j: nat)
    requires j < |q| && ModuleOf(q[j].routing) == moduleName
    ensures var i := Next(q, moduleName);
            && i < |q| && ModuleOf(q[i].routing) == moduleName
            && (j == i || IsBetter(q[i].priority, q[j].priority) || (q[i].priority == q[j].priority && i < j))
  {
    hide ModuleOf;
    match q[j].priority {
      case High => assert FirstOf(q, moduleName, High) <= j;
      case Normal => assert FirstOf(q, moduleName, Normal) <= j;
      case Low => assert FirstOf(q, moduleName, Low) <= j;
    }
  }

  /** The exception classes the catch blocks of ExportMessage tell apart. */
  datatype Failure = InvalidMessage | InvalidMetadata | LostPayload | MissingField | OtherError

  datatype Outcome = Ok | Throws(failure: Failure)

  /** What every step that ExportMessage may take does when it is taken. */
  datatype Outcomes = Outcomes(
    receive: bool,        // reading the queue returns
    send: Outcome,        // the send delegate
    onSuccess: Outcome,   // the success log
    commit: Outcome,      // the commit after a success
    delete: Outcome,      // deleting the payload after that commit
    discardCommit: bool,  // the commit that discards an invalid message returns
    report: bool,         // reporting the discarded message returns
    log: bool,            // logging the failure returns
    enqueue: bool,        // the low-priority enqueue returns
    innerCommit: bool,    // its commit returns
    outerCommit: bool,    // the commit after it returns
    rollback: bool,       // rolling back returns
    secondLog: bool)      // logging the failed re-enqueue returns

  /** The first failure of the guarded steps, and whether the message had been committed by then. */
  function FirstFailure(o: Outcomes): Outcome {
    if o.send != Ok then o.send
    else if o.onSuccess != Ok then o.onSuccess
    else if o.commit != Ok then o.commit
    else o.delete
  }

  predicate CommittedFirst(o: Outcomes) {
    o.send == Ok && o.onSuccess == Ok && o.commit == Ok
  }

  predicate IsInvalid(f: Failure) {
    f.InvalidMessage? || f.InvalidMetadata? || f.LostPayload?
  }

  /** A copy with low priority is queued. */
  predicate Copied(o: Outcomes) {
    FirstFailure(o) == Throws(MissingField) && o.log && o.enqueue && o.innerCommit
  }

  /** The message is discarded as invalid. */
  predicate Discarded(o: Outcomes) {
    !CommittedFirst(o) && FirstFailure(o) != Ok && IsInvalid(FirstFailure(o).failure) && o.discardCommit
  }

  /** The message leaves its place in the queue. */
  predicate Removed(o: Outcomes) {
    CommittedFirst(o) || Discarded(o) || (Copied(o) && o.outerCommit)
  }

  /** The queue after one call. */
  function AfterExport(q: seq<Message>, moduleName: string, o: Outcomes): seq<Message> {
    var i := Next(q, moduleName);
    if !o.receive || i == |q| then q
    else
      (if Removed(o) then q[..i] + q[i + 1..] else q) + (if Copied(o) then [q[i].(priority := Low)] else [])
  }

  /** The message a call works on, if any. */
  function Handled(q: seq<Message>, moduleName: string, o: Outcomes): seq<Message> {
    var i := Next(q, moduleName);
    if !o.receive || i == |q| then [] else [q[i]]
  }

  // The same told by the outcomes of the single steps.

  /** The message was sent, the success was logged and the dequeueing committed. */
  predicate Finished(o: Outcomes) {
    o.send == Ok && o.onSuccess == Ok && o.commit == Ok
  }

  /** One of these steps threw `f`, and those before it returned. */
  predicate FailsWith(o: Outcomes, f: Failure) {
    || o.send == Throws(f)
    || (o.send == Ok && o.onSuccess == Throws(f))
    || (o.send == Ok && o.onSuccess == Ok && o.commit == Throws(f))
  }

  /** The message turned out to be invalid, and discarding it was committed. */
  predicate DiscardedAsInvalid(o: Outcomes) {
    (FailsWith(o, InvalidMessage) || FailsWith(o, InvalidMetadata) || FailsWith(o, LostPayload)) && o.discardCommit
  }

  /** No rule was found for the message, and a copy with low priority was queued. */
  predicate Requeued(o: Outcomes) {
    && (FailsWith(o, MissingField) || (Finished(o) && o.delete == Throws(MissingField)))
    && o.log && o.enqueue && o.innerCommit
  }

  /** When a message leaves its place in the queue, and when a copy is queued: there are three ways to
      leave, and after any other exception the message stays. */
  lemma LeavesQueueIff(q: seq<Message>, moduleName: string, o: Outcomes)
    ensures var i := Next(q, moduleName);
            var leaves := Finished(o) || DiscardedAsInvalid(o) || (Requeued(o) && o.outerCommit);
            AfterExport(q, moduleName, o) ==
            if !o.receive || i >= |q| then q
            else (if leaves then q[..i] + q[i + 1..] else q) + if Requeued(o) then [q[i].(priority := Low)] else []
  {
    NextInRange(q, moduleName);
    hide Next;
  }

  /** A message that failed with any other exception is still where it was. */
  lemma OtherErrorKeeps(q: seq<Message>, moduleName: string, o: Outcomes)
    requires FailsWith(o, OtherError)
    ensures AfterExport(q, moduleName, o) == q
  {
    LeavesQueueIff(q, moduleName, o);
    hide AfterExport, Next;
  }

  /** The queue, and the messages the receivers accepted and the exporter discarded so far. */
  datatype World = World(queue: seq<Message>, accepted: seq<nat>, discarded: seq<nat>)

  datatype Event = Arrive(message: Message) | Export(moduleName: string, outcomes: Outcomes)

  function Ids(q: seq<Message>): seq<nat> {
    if q == [] then [] else [q[0].id] + Ids(q[1..])
  }

  function After(w: World, e: Event): World {
    match e
    case Arrive(m) => w.(queue := w.queue + [m])
    case Export(moduleName, o) =>
      var handled := Ids(Handled(w.queue, moduleName, o));
      World(AfterExport(w.queue, moduleName, o),
            w.accepted + (if o.send == Ok then handled else []),
            w.discarded + (if Discarded(o) then handled else []))
  }

  function Run(w: World, events: seq<Event>): World
    decreases |events|
  {
    if events == [] then w else Run(After(w, events[0]), events[1..])
  }

  /** How often a message stands in the queue. */
  function Count(q: seq<Message>, id: nat): nat {
    multiset(Ids(q))[id]
  }

  lemma IdsStep(m: Message, q: seq<Message>)
    ensures Ids([m] + q) == [m.id] + Ids(q)
  {
    assert ([m] + q)[1..] == q;
  }

  lemma {:induction false} IdsAppend(p: seq<Message>, q: seq<Message>)
    ensures Ids(p + q) == Ids(p) + Ids(q)
  {
    if p == [] {
      assert p + q == q;
    } else {
      var rest := p[1..];
      IdsAppend(rest, q);
      assert p + q == [p[0]] + (rest + q);
      IdsStep(p[0], rest + q);
      IdsStep(p[0], rest);
      assert p == [p[0]] + rest;
      hide Ids;
      assert [p[0].id] + (Ids(rest) + Ids(q)) == [p[0].id] + Ids(rest) + Ids(q);
    }
  }

  lemma CountAppend(p: seq<Message>, q: seq<Message>, id: nat)
    ensures Count(p + q, id) == Count(p, id) + Count(q, id)
  {
    IdsAppend(p, q);
  }

  lemma CountOne(m: Message, id: nat)
    ensures Count([m], id) == if m.id == id then 1 else 0
  {
    assert Ids([m]) == [m.id] + Ids([m][1..]);
    assert Ids([m]) == [m.id];
  }

  lemma CountRemoved(q: seq<Message>, i: nat, id: nat)
    requires i < |q|
    ensures Count(q, id) == Count(q[..i] + q[i + 1..], id) + if q[i].id == id then 1 else 0
  {
    CountAppend(q[..i], q[i + 1..], id);
    CountAppend(q[..i] + [q[i]], q[i + 1..], id);
    CountAppend(q[..i], [q[i]], id);
    CountOne(q[i], id);
    assert q == q[..i] + [q[i]] + q[i + 1..];
  }

  /** One call, message by message: the copies in the queue go down by the removal and up by the
      re-enqueued copy, and nothing else changes. */
  lemma ExportBalance(q: seq<Message>, moduleName: string, o: Outcomes, id: nat)
    ensures var h := Count(Handled(q, moduleName, o), id);
            Count(AfterExport(q, moduleName, o), id) + (if Removed(o) then h else 0) ==
                Count(q, id) + (if Copied(o) then h else 0)
  {
    hide Count, Next, Removed, Copied;
    var i := Next(q, moduleName);
    NextInRange(q, moduleName);
    if o.receive && i < |q| {
      var rest := if Removed(o) then q[..i] + q[i + 1..] else q;
      var copy := if Copied(o) then [q[i].(priority := Low)] else [];
      CountRemoved(q, i, id);
      CountAppend(rest, copy, id);
      CountOne(q[i], id);
      CountOne(q[i].(priority := Low), id);
      CountNone(id);
    } else {
      CountNone(id);
    }
  }

  lemma CountNone(id: nat)
    ensures Count([], id) == 0
  {
  }

  lemma NextInRange(q: seq<Message>, moduleName: string)
    ensures Next(q, moduleName) <= |q|
    ensures Next(q, moduleName) < |q| ==> ModuleOf(q[Next(q, moduleName)].routing) == moduleName
  {
  }

  /** When the queue gains a copy: the low-priority re-enqueue was committed and the commit that should
      have removed the original did not take place after it. */
  lemma GainIff(q: seq<Message>, moduleName: string, o: Outcomes)
    requires o.receive && Next(q, moduleName) < |q|
    ensures |AfterExport(q, moduleName, o)| == |q| + 1 <==> Copied(o) && !CommittedFirst(o) && !o.outerCommit
    ensures |AfterExport(q, moduleName, o)| <= |q| + 1
  {
  }

  /** How often an id was recorded. */
  function Occurrences(ids: seq<nat>, id: nat): nat {
    multiset(ids)[id]
  }

  /** The copies of a message that are queued, accepted or discarded. */
  function Accounted(w: World, id: nat): nat {
    Count(w.queue, id) + Occurrences(w.accepted, id) + Occurrences(w.discarded, id)
  }

  lemma OccurrencesAppend(a: seq<nat>, b: seq<nat>, id: nat)
    ensures Occurrences(a + b, id) == Occurrences(a, id) + Occurrences(b, id)
  {
  }

  lemma NoneLostStep(w: World, e: Event, id: nat)
    ensures Accounted(After(w, e), id) >= Accounted(w, id) +
        match e case Arrive(m) => Count([m], id) case Export(_, _) => 0
  {
    hide Count, Next, Occurrences, Handled, AfterExport, Copied;
    match e
    case Arrive(m) => CountAppend(w.queue, [m], id);
    case Export(moduleName, o) =>
      var handled := Ids(Handled(w.queue, moduleName, o));
      ExportBalance(w.queue, moduleName, o, id);
      HandledCount(w.queue, moduleName, o, id);
      OccurrencesAppend(w.accepted, if o.send == Ok then handled else [], id);
      OccurrencesAppend(w.discarded, if Discarded(o) then handled else [], id);
  }

  lemma HandledCount(q: seq<Message>, moduleName: string, o: Outcomes, id: nat)
    ensures Occurrences(Ids(Handled(q, moduleName, o)), id) == Count(Handled(q, moduleName, o), id)
    ensures Occurrences([], id) == 0
  {
  }

  /** How often a message arrives during a run. */
  function Arrivals(events: seq<Event>, id: nat): nat {
    if events == [] then 0
    else (match events[0] case Arrive(m) => Count([m], id) case Export(_, _) => 0) + Arrivals(events[1..], id)
  }

  /** Main result: over any run of arrivals and export calls, with any outcomes of sending, logging,
      enqueueing and committing, no copy of a message is lost: each one that was queued, or arrived on
      the way, is still queued, or was accepted by its receiver, or was discarded as invalid. */
  lemma {:induction false} NoCopyIsLost(w: World, events: seq<Event>, id: nat)
    ensures Accounted(Run(w, events), id) >= Accounted(w, id) + Arrivals(events, id)
    decreases |events|
  {
    hide Accounted, After, Count;
    if events != [] {
      NoneLostStep(w, events[0], id);
      NoCopyIsLost(After(w, events[0]), events[1..], id);
    }
  }

  /** In this event the receiver accepts the message. */
  predicate Accepts(w: World, e: Event, id: nat) {
    e.Export? && e.outcomes.send == Ok && Count(Handled(w.queue, e.moduleName, e.outcomes), id) > 0
  }

  /** In this event the message is discarded after one of the three invalid-message exceptions. */
  predicate Discards(w: World, e: Event, id: nat) {
    e.Export? && DiscardedAsInvalid(e.outcomes) && Count(Handled(w.queue, e.moduleName, e.outcomes), id) > 0
  }

  /** How often a run has the message accepted, and how often discarded. */
  function Acceptances(w: World, events: seq<Event>, id: nat): nat
    decreases |events|
  {
    if events == [] then 0
    else (if Accepts(w, events[0], id) then 1 else 0) + Acceptances(After(w, events[0]), events[1..], id)
  }

  function Discardings(w: World, events: seq<Event>, id: nat): nat
    decreases |events|
  {
    if events == [] then 0
    else (if Discards(w, events[0], id) then 1 else 0) + Discardings(After(w, events[0]), events[1..], id)
  }

  lemma HandledOnce(q: seq<Message>, moduleName: string, o: Outcomes, id: nat)
    ensures Count(Handled(q, moduleName, o), id) <= 1
    ensures Count(Handled(q, moduleName, o), id) <= Count(q, id)
    ensures Occurrences(Ids(Handled(q, moduleName, o)), id) == Count(Handled(q, moduleName, o), id)
  {
    hide Next, Count;
    var i := Next(q, moduleName);
    NextInRange(q, moduleName);
    CountNone(id);
    HandledCount(q, moduleName, o, id);
    if o.receive && i < |q| {
      CountOne(q[i], id);
      CountRemoved(q, i, id);
    }
  }

  lemma RecordStep(w: World, e: Event, id: nat)
    ensures Occurrences(After(w, e).accepted, id) == Occurrences(w.accepted, id) + if Accepts(w, e, id) then 1 else 0
    ensures Occurrences(After(w, e).discarded, id) == Occurrences(w.discarded, id) + if Discards(w, e, id) then 1 else 0
  {
    hide Occurrences, Handled, Count, AfterExport;
    if e.Export? {
      var handled := Ids(Handled(w.queue, e.moduleName, e.outcomes));
      HandledOnce(w.queue, e.moduleName, e.outcomes, id);
      HandledCount(w.queue, e.moduleName, e.outcomes, id);
      OccurrencesAppend(w.accepted, if e.outcomes.send == Ok then handled else [], id);
      OccurrencesAppend(w.discarded, if Discarded(e.outcomes) then handled else [], id);
    }
  }

  /** A run records each acceptance, and each discarding of an invalid message, and nothing else. */
  lemma {:induction false} RunRecords(w: World, events: seq<Event>, id: nat)
    ensures Occurrences(Run(w, events).accepted, id) == Occurrences(w.accepted, id) + Acceptances(w, events, id)
    ensures Occurrences(Run(w, events).discarded, id) == Occurrences(w.discarded, id) + Discardings(w, events, id)
    decreases |events|
  {
    hide Accepts, Discards, After, Occurrences;
    if events != [] {
      RecordStep(w, events[0], id);
      RunRecords(After(w, events[0]), events[1..], id);
    }
  }

  /** The same told by what happens during the run: a copy that is queued no more was accepted by its
      receiver, or discarded after one of the three invalid-message exceptions. */
  lemma EveryCopyIsExplained(w: World, events: seq<Event>, id: nat)
    ensures Count(Run(w, events).queue, id) + Acceptances(w, events, id) + Discardings(w, events, id) >=
            Count(w.queue, id) + Arrivals(events, id)
  {
    hide Run, Count, Occurrences, Acceptances, Discardings;
    NoCopyIsLost(w, events, id);
    RunRecords(w, events, id);
  }

  /** In particular a message that is queued at some point is from then on still queued, or was accepted
      or discarded. */
  lemma NoMessageIsLost(w: World, events: seq<Event>, id: nat)
    requires id in Ids(w.queue) || id in w.accepted || id in w.discarded
    ensures var r := Run(w, events); id in Ids(r.queue) || id in r.accepted || id in r.discarded
  {
    hide Run;
    NoCopyIsLost(w, events, id);
  }

  /** Removals and copies of a message along a run. */
  function Removals(w: World, events: seq<Event>, id: nat): nat
    decreases |events|
  {
    if events == [] then 0
    else
      (match events[0]
       case Arrive(_) => 0
       case Export(name, o) => if Removed(o) then Count(Handled(w.queue, name, o), id) else 0)
      + Removals(After(w, events[0]), events[1..], id)
  }

  function Copies(w: World, events: seq<Event>, id: nat): nat
    decreases |events|
  {
    if events == [] then 0
    else
      (match events[0]
       case Arrive(m) => Count([m], id)
       case Export(name, o) => if Copied(o) then Count(Handled(w.queue, name, o), id) else 0)
      + Copies(After(w, events[0]), events[1..], id)
  }

  /** Conservation over runs: what is queued in the end and what was removed on the way is what was
      queued in the beginning, what arrived and what was re-enqueued. */
  lemma {:induction false} Conservation(w: World, events: seq<Event>, id: nat)
    ensures Count(Run(w, events).queue, id) + Removals(w, events, id) == Count(w.queue, id) + Copies(w, events, id)
    decreases |events|
  {
    hide Count, AfterExport, Handled, Removed, Copied;
    if events != [] {
      match events[0] {
        case Arrive(m) => CountAppend(w.queue, [m], id);
        case Export(name, o) => ExportBalance(w.queue, name, o, id);
      }
      Conservation(After(w, events[0]), events[1..], id);
    }
  }

  /** A message that was moved to low priority does not block the others: as long as its module has
      another message, that one is received first. */
  lemma MovedGoesLast(q: seq<Message>, moduleName: string, o: Outcomes, other: nat)
    requires o.receive && Next(q, moduleName) < |q| && !CommittedFirst(o) && Copied(o) && o.outerCommit
    requires other < |q| && other != Next(q, moduleName) && ModuleOf(q[other].routing) == moduleName
    ensures var q' := AfterExport(q, moduleName, o);
            Next(q', moduleName) < |q'| - 1 && q'[|q'| - 1] == q[Next(q, moduleName)].(priority := Low)
  {
    NextInRange(q, moduleName);
    hide ModuleOf, Next;
    var i, q' := Next(q, moduleName), AfterExport(q, moduleName, o);
    var k := if other < i then other else other - 1;
    assert q'[k] == q[other];
    NextIsFirstOfHighest(q', moduleName, k);
  }
}
