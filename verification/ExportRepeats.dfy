/** Whether a message can be accepted by its receiver more than once: a call that sends a message may leave
    it, or a copy of it, in the queue. */
module ExportRepeats {
  import opened ExportRuns

  lemma {:induction false} GoneIsNotAccepted(w: World, events: seq<Event>, id: nat)
    requires Count(w.queue, id) == 0 && Arrivals(events, id) == 0
    ensures Acceptances(w, events, id) == 0
    decreases |events|
  {
    hide Count, Handled, AfterExport, Removed, Copied;
    if events != [] {
      match events[0] {
        case Arrive(m) => CountAppend(w.queue, [m], id);
        case Export(moduleName, o) =>
          HandledOnce(w.queue, moduleName, o, id);
          ExportBalance(w.queue, moduleName, o, id);
      }
      GoneIsNotAccepted(After(w, events[0]), events[1..], id);
    }
  }

  /** Outcomes of a call in which nothing fails. */
  const SMOOTH := Outcomes(true, Ok, Ok, Ok, Ok, true, true, true, true, true, true, true, true)

  lemma SmoothRemoves()
    ensures Removed(SMOOTH) && !Copied(SMOOTH)
  {
  }

  /** A message of the module is in the queue. */
  lemma {:induction false} Located(q: seq<Message>, id: nat) returns (i: nat)
    requires Count(q, id) > 0
    ensures i < |q| && q[i].id == id
  {
    CountNone(id);
    if q[0].id == id {
      i := 0;
    } else {
      CountOne(q[0], id);
      CountAppend([q[0]], q[1..], id);
      assert q == [q[0]] + q[1..];
      i := Located(q[1..], id);
      i := i + 1;
    }
  }

  lemma SomeIsNext(q: seq<Message>, i: nat)
    requires i < |q|
    ensures Next(q, ModuleOf(q[i].routing)) < |q|
  {
    hide ModuleOf;
    match q[i].priority {
      case High => assert FirstOf(q, ModuleOf(q[i].routing), High) <= i;
      case Normal => assert FirstOf(q, ModuleOf(q[i].routing), Normal) <= i;
      case Low => assert FirstOf(q, ModuleOf(q[i].routing), Low) <= i;
    }
  }

  /** A queued message is accepted in the end if no call fails from now on. */
  lemma {:induction false} QueuedIsAccepted(w: World, id: nat) returns (events: seq<Event>)
    requires Count(w.queue, id) > 0
    ensures Arrivals(events, id) == 0 && Acceptances(w, events, id) > 0
    decreases |w.queue|
  {
    hide Count, Next, Removed, Copied, Discarded;
    var k := Located(w.queue, id);
    SomeIsNext(w.queue, k);
    var e := Export(ModuleOf(w.queue[k].routing), SMOOTH);
    var i := Next(w.queue, e.moduleName);
    SmoothRemoves();
    CountOne(w.queue[i], id);
    CountRemoved(w.queue, i, id);
    var rest: seq<Event> := [];
    if w.queue[i].id != id {
      assert After(w, e).queue == w.queue[..i] + w.queue[i + 1..];
      rest := QueuedIsAccepted(After(w, e), id);
    }
    events := [e] + rest;
    assert events[1..] == rest;
  }

  /** A message that is queued once and accepted can be accepted again, without arriving again, exactly
      when the call does not remove it or leaves a copy. */
  lemma AcceptedAgainIff(w: World, e: Event, id: nat)
    requires Count(w.queue, id) == 1 && Accepts(w, e, id)
    ensures (forall events :: Arrivals(events, id) == 0 ==> Acceptances(After(w, e), events, id) == 0) <==>
            Removed(e.outcomes) && !Copied(e.outcomes)
  {
    hide Count, Handled, AfterExport, Removed, Copied, Acceptances, Arrivals;
    HandledOnce(w.queue, e.moduleName, e.outcomes, id);
    ExportBalance(w.queue, e.moduleName, e.outcomes, id);
    var w' := After(w, e);
    if Count(w'.queue, id) == 0 {
      forall events | Arrivals(events, id) == 0 ensures Acceptances(w', events, id) == 0 {
        GoneIsNotAccepted(w', events, id);
      }
    } else {
      var events := QueuedIsAccepted(w', id);
    }
  }

  /** In the run, a call has the message accepted and leaves a copy of it, and later it is accepted again. */
  predicate Repeats(w: World, events: seq<Event>, id: nat)
    decreases |events|
  {
    events != [] &&
    var w' := After(w, events[0]);
    || (Accepts(w, events[0], id) && LeavesCopy(w, events[0], id) && Acceptances(w', events[1..], id) > 0)
    || Repeats(w', events[1..], id)
  }

  /** The call does not remove the message, or queues a copy, or there was another copy. */
  predicate LeavesCopy(w: World, e: Event, id: nat)
    requires e.Export?
  {
    !Removed(e.outcomes) || Copied(e.outcomes) || Count(w.queue, id) > 1
  }

  lemma {:induction false} RepeatsIsTwice(w: World, events: seq<Event>, id: nat)
    ensures Repeats(w, events, id) ==> Acceptances(w, events, id) > 1
    decreases |events|
  {
    hide After, Accepts, LeavesCopy;
    if events != [] {
      RepeatsIsTwice(After(w, events[0]), events[1..], id);
    }
  }

  /** Main result on repeated exports: over any run in which a message does not arrive again its receiver
      accepts it more than once exactly when a call that had it accepted did not remove it, queued a copy
      or left another one, and it was accepted again. */
  lemma {:induction false} AcceptedTwiceIff(w: World, events: seq<Event>, id: nat)
    requires Arrivals(events, id) == 0
    ensures Acceptances(w, events, id) > 1 <==> Repeats(w, events, id)
    decreases |events|
  {
    RepeatsIsTwice(w, events, id);
    if events != [] {
      var w', rest := After(w, events[0]), events[1..];
      if Accepts(w, events[0], id) {
        NothingLeft(w, events[0], id);
      }
      hide After, Accepts, LeavesCopy, Count;
      AcceptedTwiceIff(w', rest, id);
      if Count(w'.queue, id) == 0 {
        GoneIsNotAccepted(w', rest, id);
      }
    }
  }

  lemma NothingLeft(w: World, e: Event, id: nat)
    requires Accepts(w, e, id)
    ensures Count(After(w, e).queue, id) == 0 <==> !LeavesCopy(w, e, id)
  {
    hide Count, Handled, AfterExport, Removed, Copied;
    HandledOnce(w.queue, e.moduleName, e.outcomes, id);
    ExportBalance(w.queue, e.moduleName, e.outcomes, id);
  }
}
