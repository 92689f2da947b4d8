/** The failover loop of ExpressExportConnector: the message is offered to one export machine after the
    other until one takes it or the machine it started with comes round again. */
module ExpressExport {
  import opened Options
  import opened SettingsFactory

  /** How a step ends: it returns, throws a COM exception, or throws another exception. */
  datatype Outcome = Ok | Com(hresult: int) | Other

  /** The steps of an attempt at one machine, as far as they are taken. */
  datatype Attempt = Attempt(
    check: Outcome,    // connecting to the machine and asking for the state of the service
    running: bool,     // the service runs, or nobody asks
    enqueue: Outcome,  // opening the transaction and enqueueing the message in it
    commit: Outcome,   // its commit
    log: Outcome)      // reporting the success and leaving the transaction

  /** How an attempt ends. */
  datatype End = Delivered | Stopped | Unreachable(hresult: int) | Fatal

  function EndOf(a: Attempt): End {
    if a.check == Ok && !a.running then Stopped
    else
      var failure :=
        if a.check != Ok then a.check
        else if a.enqueue != Ok then a.enqueue
        else if a.commit != Ok then a.commit
        else a.log;
      match failure
      case Ok => Delivered
      case Com(hresult) => Unreachable(hresult)
      case Other => Fatal
  }

  /** The attempt commits the message, however it ends after that. */
  predicate Commits(a: Attempt) {
    a.check == Ok && a.running && a.enqueue == Ok && a.commit == Ok
  }

  const ALL_STOPPED := 1
  const EXCEPTION := 8202

  /** The place `k` steps behind `start` in a list of `n` machines, starting over at the end. */
  function Position(n: nat, start: nat, k: nat): (i: nat)
    requires start < n
    ensures i < n
  {
    if k == 0 then start
    else
      var i := Position(n, start, k - 1);
      if i + 1 < n then i + 1 else 0
  }

  lemma {:induction false} PositionInRound(n: nat, start: nat, k: nat)
    requires start < n && k <= n
    ensures Position(n, start, k) == if start + k < n then start + k else start + k - n
  {
    if k > 0 {
      PositionInRound(n, start, k - 1);
    }
  }

  function At(machines: seq<string>, start: nat, k: nat): string
    requires start < |machines|
  {
    machines[Position(|machines|, start, k)]
  }

  /** The name the loop started with comes round after `d` steps, and not before. */
  ghost predicate ReturnsAfter(machines: seq<string>, start: nat, d: nat)
    requires start < |machines|
  {
    d > 0 && At(machines, start, d) == At(machines, start, 0) &&
    forall k :: 0 < k < d ==> At(machines, start, k) != At(machines, start, 0)
  }

  lemma BackAtStart(machines: seq<string>, start: nat, d: nat)
    requires start < |machines| && d > 0 && At(machines, start, d) == At(machines, start, 0)
    requires forall k :: 0 < k < d ==> At(machines, start, k) != At(machines, start, 0)
    ensures ReturnsAfter(machines, start, d)
  {
  }

  /** The name comes round after at most as many steps as there are machines. */
  lemma FullCircle(machines: seq<string>, start: nat)
    requires start < |machines|
    ensures At(machines, start, |machines|) == At(machines, start, 0)
  {
    PositionInRound(|machines|, start, |machines|);
  }

  /** The loop goes all the way round exactly when the starting name is listed once. */
  lemma FullRoundIff(machines: seq<string>, start: nat)
    requires start < |machines|
    ensures ReturnsAfter(machines, start, |machines|) <==>
        forall j :: 0 <= j < |machines| && j != start ==> machines[j] != machines[start]
  {
    var n := |machines|;
    FullCircle(machines, start);
    assert At(machines, start, 0) == machines[start];
    if ReturnsAfter(machines, start, n) {
      forall j | 0 <= j < n && j != start ensures machines[j] != machines[start] {
        var k := if j > start then j - start else j + n - start;
        PositionInRound(n, start, k);
        assert At(machines, start, k) == machines[j];
      }
    }
    if forall j :: 0 <= j < n && j != start ==> machines[j] != machines[start] {
      forall k | 0 < k < n ensures At(machines, start, k) != At(machines, start, 0) {
        PositionInRound(n, start, k);
      }
    }
  }

  /** Going all the way round visits the list from the start to the end and then up to the start. */
  lemma FullRoundIsTheList(machines: seq<string>, start: nat, tried: seq<string>)
    requires start < |machines| && |tried| == |machines|
    requires forall k :: 0 <= k < |tried| ==> tried[k] == At(machines, start, k)
    ensures tried == machines[start..] + machines[..start]
  {
    var n := |machines|;
    forall k | 0 <= k < n ensures tried[k] == (machines[start..] + machines[..start])[k] {
      PositionInRound(n, start, k);
    }
  }

  /** The current export machine of a factory whose import index gives no trouble. */
  method CurrentMachine(factory: DataExchangeSettingsFactory) returns (machine: string)
    requires factory.Valid() && factory.exportIndex >= 0
    requires Usable(factory.importMachineNames, factory.importIndex)
    modifies factory`exportIndex, factory`importIndex, factory`currentSettings
    ensures factory.Valid() && Usable(factory.importMachineNames, factory.importIndex)
    ensures factory.exportIndex == Wrap(factory.exportMachineNames, old(factory.exportIndex))
    ensures machine == Selected(factory.exportMachineNames, old(factory.exportIndex))
  {
    var answer := factory.GetSettings();
    machine := answer.settings.exportMachine;
  }

  /** The index selects the machine `k` steps behind the start. */
  ghost predicate SelectsStep(names: string, index: int, start: nat, k: nat) {
    start < |Machines(names)| && index >= 0 && (SEPARATOR in names ==> index == Position(|Machines(names)|, start, k))
  }

  /** The index behind the current one selects the next machine round the list. */
  lemma NextMachine(names: string, index: int, start: nat, k: nat)
    requires SelectsStep(names, index, start, k)
    ensures Selected(names, index + 1) == At(Machines(names), start, k + 1)
    ensures SelectsStep(names, Wrap(names, index + 1), start, k + 1)
  {
    hide Split;
  }

  /** An attempt after which the loop goes on, unless it is back at its first machine. */
  predicate Failed(a: Attempt) {
    EndOf(a).Stopped? || EndOf(a).Unreachable?
  }

  function ReturnValue(e: End): int {
    match e
    case Delivered => 0
    case Stopped => ALL_STOPPED
    case Unreachable(hresult) => hresult
    case Fatal => EXCEPTION
  }

  /** The loop makes exactly `n` attempts. */
  ghost predicate Makes(machines: seq<string>, start: nat, attempts: nat -> Attempt, n: nat)
    requires start < |machines|
  {
    && n > 0
    && (forall k :: 0 <= k < n - 1 ==> Failed(attempts(k)))
    && (forall k :: 0 < k < n ==> At(machines, start, k) != At(machines, start, 0))
    && (Failed(attempts(n - 1)) ==> ReturnsAfter(machines, start, n))
  }

  // Attempts told by the outcomes of their single steps.

  /** The service of the machine does not run. */
  predicate ServiceStopped(a: Attempt) {
    a.check == Ok && !a.running
  }

  /** The first step that does not return ends as `failure`. */
  predicate FailsAs(a: Attempt, failure: Outcome) {
    failure != Ok &&
    (|| a.check == failure
     || (a.check == Ok && a.running && a.enqueue == failure)
     || (a.check == Ok && a.running && a.enqueue == Ok && a.commit == failure)
     || (a.check == Ok && a.running && a.enqueue == Ok && a.commit == Ok && a.log == failure))
  }

  /** Every step returns. */
  predicate AllReturn(a: Attempt) {
    a.check == Ok && a.running && a.enqueue == Ok && a.commit == Ok && a.log == Ok
  }

  /** What an attempt comes to: with a stopped service or a COM exception the loop goes on, after anything
      else it ends; and what is returned if it ends with this attempt. */
  lemma AttemptEndsAs(a: Attempt)
    ensures ServiceStopped(a) ==> Failed(a) && ReturnValue(EndOf(a)) == 1
    ensures forall hresult :: FailsAs(a, Com(hresult)) ==> Failed(a) && ReturnValue(EndOf(a)) == hresult
    ensures FailsAs(a, Other) ==> !Failed(a) && EndOf(a) == Fatal && ReturnValue(EndOf(a)) == 8202
    ensures AllReturn(a) ==> !Failed(a) && EndOf(a) == Delivered && ReturnValue(EndOf(a)) == 0 && Commits(a)
    ensures ServiceStopped(a) || AllReturn(a) || FailsAs(a, Other) || exists hresult :: FailsAs(a, Com(hresult))
  {
    match a.check
    case Com(h) => assert FailsAs(a, Com(h));
    case Other =>
    case Ok =>
      match a.enqueue
      case Com(h) => assert a.running ==> FailsAs(a, Com(h));
      case Other =>
      case Ok =>
        match a.commit
        case Com(h) => assert a.running ==> FailsAs(a, Com(h));
        case Other =>
        case Ok => assert a.running && a.log.Com? ==> FailsAs(a, a.log);
  }

  ghost predicate GoesOn(a: Attempt) {
    ServiceStopped(a) || (exists hresult :: FailsAs(a, Com(hresult)))
  }

  /** The attempts of a run: all but the last one met a stopped service or a COM exception. So did the last
      one when the loop gives up, and then the starting name comes next; otherwise everything returned, or
      another exception was thrown. */
  lemma AttemptsOfRun(machines: seq<string>, start: nat, attempts: nat -> Attempt, n: nat)
    requires start < |machines| && Makes(machines, start, attempts, n)
    ensures forall k :: 0 <= k < n - 1 ==> GoesOn(attempts(k))
    ensures var last := attempts(n - 1);
            if GoesOn(last) then At(machines, start, n) == At(machines, start, 0)
            else AllReturn(last) || FailsAs(last, Other)
  {
    forall k | 0 <= k < n ensures Failed(attempts(k)) <==> GoesOn(attempts(k)) {
      AttemptEndsAs(attempts(k));
      FailsOneWay(attempts(k));
    }
    hide Failed, GoesOn, At;
    AttemptEndsAs(attempts(n - 1));
    FailsOneWay(attempts(n - 1));
    NotGoingOn(attempts(n - 1));
  }

  lemma FailsOneWay(a: Attempt)
    ensures Failed(a) ==> ServiceStopped(a) || exists hresult :: FailsAs(a, Com(hresult))
  {
    AttemptEndsAs(a);
  }

  lemma NotGoingOn(a: Attempt)
    ensures !GoesOn(a) ==> AllReturn(a) || FailsAs(a, Other)
  {
    AttemptEndsAs(a);
  }

  /** A machine that takes the message gets it, if all machines before it are stopped or fail with a COM
      exception and the starting name does not come round before. */
  lemma ReachableIsServed(machines: seq<string>, start: nat, attempts: nat -> Attempt, n: nat, j: nat)
    requires start < |machines| && Makes(machines, start, attempts, n)
    requires Commits(attempts(j)) && forall k :: 0 <= k < j ==> GoesOn(attempts(k))
    requires forall k :: 0 < k <= j ==> At(machines, start, k) != At(machines, start, 0)
    ensures j < n && Committed(attempts, n) > 0
  {
    hide At;
    if n <= j {
      AttemptEndsAs(attempts(n - 1));
    }
    CommittedAny(attempts, n);
  }

  /** The number of attempts is determined, and at most one round. */
  lemma AttemptsAreDetermined(machines: seq<string>, start: nat, attempts: nat -> Attempt, n: nat)
    requires start < |machines| && Makes(machines, start, attempts, n)
    ensures n <= |machines| && forall k: nat :: Makes(machines, start, attempts, k) ==> k == n
  {
    hide At, Failed;
    FullCircle(machines, start);
  }

  /** The commits of the first `n` attempts. */
  function Committed(attempts: nat -> Attempt, n: nat): nat {
    if n == 0 then 0 else Committed(attempts, n - 1) + if Commits(attempts(n - 1)) then 1 else 0
  }

  /** Moves the factory to the next machine. */
  method Increment(factory: DataExchangeSettingsFactory, ghost start: nat, ghost k: nat) returns (machine: string)
    requires factory.Valid() && Usable(factory.importMachineNames, factory.importIndex)
    requires SelectsStep(factory.exportMachineNames, factory.exportIndex, start, k)
    modifies factory`exportIndex, factory`importIndex, factory`currentSettings
    ensures factory.Valid() && Usable(factory.importMachineNames, factory.importIndex)
    ensures SelectsStep(factory.exportMachineNames, factory.exportIndex, start, k + 1)
    ensures machine == At(Machines(factory.exportMachineNames), start, k + 1)
  {
    NextMachine(factory.exportMachineNames, factory.exportIndex, start, k);
    factory.SetExportIndex(factory.exportIndex + 1);
    machine := CurrentMachine(factory);
  }

  /** The guarded steps at one machine. */
  method Send(a: Attempt) returns (committed: bool, end: End)
    ensures committed == Commits(a) && end == EndOf(a)
  {
    committed := false;
    var failure := a.check;
    if failure == Ok {
      if !a.running {
        return committed, Stopped;
      }
      failure := a.enqueue;
    }
    if failure == Ok {
      failure := a.commit;
      if failure == Ok {
        committed := true;
        failure := a.log;
      }
    }
    match failure {
      case Ok => end := Delivered;
      case Com(hresult) => end := Unreachable(hresult);
      case Other => end := Fatal;
    }
  }

  /** The loop, with arbitrary outcomes of the steps of every attempt. Whatever happens it ends after at
      most one round; the machines are tried in list order from the current one; and it gives up only
      when every attempt failed and the first name has come round. No value is returned when an
      exception leaves the handler or the closing of the event log. */
  method Export(factory: DataExchangeSettingsFactory, attempts: nat -> Attempt, report: bool, close: bool)
    returns (r: Option<int>, tried: seq<string>, commits: nat, ghost start: nat)
    requires factory.Valid() && factory.exportIndex >= 0
    requires Usable(factory.importMachineNames, factory.importIndex)
    modifies factory`exportIndex, factory`importIndex, factory`currentSettings
    ensures start < |Machines(factory.exportMachineNames)|
    ensures At(Machines(factory.exportMachineNames), start, 0) ==
        Selected(factory.exportMachineNames, old(factory.exportIndex))
    ensures Makes(Machines(factory.exportMachineNames), start, attempts, |tried|)
    ensures |tried| <= |Machines(factory.exportMachineNames)|
    ensures forall k :: 0 <= k < |tried| ==> tried[k] == At(Machines(factory.exportMachineNames), start, k)
    ensures commits == Committed(attempts, |tried|)
    ensures var e := EndOf(attempts(|tried| - 1));
            r == if close && (e == Fatal ==> report) then Some(ReturnValue(e)) else None
  {
    ghost var machines := Machines(factory.exportMachineNames);
    var machineName := CurrentMachine(factory);
    start := if SEPARATOR in factory.exportMachineNames then factory.exportIndex else 0;
    hide Selected, Machines, At, SelectsStep, Usable, Wrap, EndOf, Commits, ReturnsAfter;
    FullCircle(machines, start);
    var enqueued, fatal := false, false;
    var retVal := -1;
    tried, commits := [], 0;
    var machine := machineName;
    while !enqueued && !fatal
      invariant factory.Valid() && Usable(factory.importMachineNames, factory.importIndex)
      invariant |tried| <= |machines|
      invariant forall k :: 0 <= k < |tried| ==> tried[k] == At(machines, start, k)
      invariant forall k :: 0 <= k < |tried| - 1 ==> Failed(attempts(k))
      invariant forall k :: 0 < k < |tried| ==> At(machines, start, k) != machineName
      invariant commits == Committed(attempts, |tried|)
      invariant !enqueued && !fatal ==>
                  && SelectsStep(factory.exportMachineNames, factory.exportIndex, start, |tried|)
                  && machine == At(machines, start, |tried|) && |tried| < |machines|
                  && (|tried| > 0 ==> machine != machineName && Failed(attempts(|tried| - 1)))
      invariant enqueued || fatal ==>
                  && 0 < |tried| && retVal == ReturnValue(EndOf(attempts(|tried| - 1)))
                  && (fatal <==> EndOf(attempts(|tried| - 1)) == Fatal)
                  && (Failed(attempts(|tried| - 1)) ==> ReturnsAfter(machines, start, |tried|))
      decreases !enqueued && !fatal, |machines| - |tried|
    {
      ghost var k := |tried|;
      var a := attempts(|tried|);
      tried := tried + [machine];
      var committed, end := Send(a);
      if committed {
        commits := commits + 1;
      }
      match end {
        case Delivered =>
          retVal := 0;
          enqueued := true;
        case Fatal =>
          retVal := EXCEPTION;
          fatal := true;
        case Stopped =>
          machine := Increment(factory, start, k);
          if machineName == machine {
            // All machines tried.
            BackAtStart(machines, start, |tried|);
            retVal := ALL_STOPPED;
            enqueued := true;
          }
        case Unreachable(hresult) =>
          machine := Increment(factory, start, k);
          if machineName == machine {
            BackAtStart(machines, start, |tried|);
            retVal := hresult;
            enqueued := true;
          }
      }
    }
    r := if (fatal && !report) || !close then None else Some(retVal);
  }

  lemma {:induction false} CommittedAny(attempts: nat -> Attempt, n: nat)
    ensures Committed(attempts, n) > 0 <==> exists k :: 0 <= k < n && Commits(attempts(k))
  {
    if n > 0 {
      CommittedAny(attempts, n - 1);
    }
  }

  lemma {:induction false} CommittedTwice(attempts: nat -> Attempt, n: nat)
    ensures Committed(attempts, n) > 1 <==>
        exists i, j :: 0 <= i < j < n && Commits(attempts(i)) && Commits(attempts(j))
  {
    if n > 0 {
      CommittedTwice(attempts, n - 1);
      CommittedAny(attempts, n - 1);
    }
  }

  /** The message is committed more than once exactly when a COM exception follows a commit and a later
      machine commits it as well. */
  lemma MoreThanOnceIff(machines: seq<string>, start: nat, attempts: nat -> Attempt, n: nat)
    requires start < |machines| && Makes(machines, start, attempts, n)
    ensures Committed(attempts, n) > 1 <==>
            exists i, j :: 0 <= i < j < n && Commits(attempts(i)) && attempts(i).log.Com? && Commits(attempts(j))
  {
    CommittedTwice(attempts, n);
  }

  /** The return value tells what was committed, 0 for one commit and an error for none, exactly when
      no exception follows a commit. */
  lemma ReturnValueIsRightIff(machines: seq<string>, start: nat, attempts: nat -> Attempt, n: nat)
    requires start < |machines| && Makes(machines, start, attempts, n)
    ensures Committed(attempts, n) == (if EndOf(attempts(n - 1)) == Delivered then 1 else 0) <==>
            forall k :: 0 <= k < n && Commits(attempts(k)) ==> attempts(k).log == Ok
  {
    CommittedAny(attempts, n - 1);
  }

  /** Reporting the success fails: with a COM exception the next machine gets the message as well, with
      another exception the program returns an error although the message was committed. */
  lemma FailedReportMisleads()
    ensures var machines, sent := ["a", "b"], Attempt(Ok, true, Ok, Ok, Ok);
            var twice := (k: nat) => if k == 0 then sent.(log := Com(-1)) else sent;
            var denied := (k: nat) => sent.(log := Other);
            && Makes(machines, 0, twice, 2) && Committed(twice, 2) == 2 && EndOf(twice(1)) == Delivered
            && Makes(machines, 0, denied, 1) && Committed(denied, 1) == 1 && ReturnValue(EndOf(denied(0))) == EXCEPTION
  {
    var machines, sent := ["a", "b"], Attempt(Ok, true, Ok, Ok, Ok);
    var twice := (k: nat) => if k == 0 then sent.(log := Com(-1)) else sent;
    PositionInRound(2, 0, 1);
    assert Committed(twice, 2) == Committed(twice, 1) + 1;
  }

  /** Going round the list from its first name, `name` stands in front of the place where the first name
      comes again. */
  ghost predicate StandsBeforeReturn(round: seq<string>, name: string) {
    exists k :: 0 <= k < |round| && round[k] == name && forall j :: 0 < j <= k ==> round[j] != round[0]
  }

  /** When the loop gives up, every listed machine has been tried exactly when every listed name stands
      between the starting place and the next place of the starting name. */
  lemma AllTriedIff(machines: seq<string>, start: nat, tried: seq<string>)
    requires start < |machines| && ReturnsAfter(machines, start, |tried|)
    requires forall k :: 0 <= k < |tried| ==> tried[k] == At(machines, start, k)
    ensures (forall name :: name in machines ==> name in tried) <==>
            (forall name :: name in machines ==> StandsBeforeReturn(machines[start..] + machines[..start], name))
  {
    hide Position;
    var n, round := |machines|, machines[start..] + machines[..start];
    FullCircle(machines, start);
    forall k | 0 <= k < n ensures At(machines, start, k) == round[k] {
      PositionInRound(n, start, k);
    }
    forall name ensures name in tried <==> StandsBeforeReturn(round, name) {
      if name in tried {
        var k :| 0 <= k < |tried| && tried[k] == name;
        assert round[k] == name;
      }
    }
  }

  /** With distinct names the loop gives up only after a round over the whole list. */
  lemma DistinctNamesAreAllTried(machines: seq<string>, start: nat, tried: seq<string>)
    requires start < |machines| && forall i, j :: 0 <= i < j < |machines| ==> machines[i] != machines[j]
    requires ReturnsAfter(machines, start, |tried|) && |tried| <= |machines|
    requires forall k :: 0 <= k < |tried| ==> tried[k] == At(machines, start, k)
    ensures tried == machines[start..] + machines[..start]
  {
    FullRoundIff(machines, start);
    FullCircle(machines, start);
    FullRoundIsTheList(machines, start, tried);
  }

  /** With the starting name listed twice the round is cut short; whether a machine is left out depends
      on what stands behind. */
  lemma RepeatedNameEndsTheRound()
    ensures ReturnsAfter(["a", "b", "a", "c"], 0, 2) && !StandsBeforeReturn(["a", "b", "a", "c"], "c")
    ensures var machines := ["a", "b", "a", "b"];
            ReturnsAfter(machines, 0, 2) && forall name :: name in machines ==> StandsBeforeReturn(machines, name)
  {
    PositionInRound(4, 0, 1);
    PositionInRound(4, 0, 2);
    var round := ["a", "b", "a", "b"];
    assert round[0] == "a" && round[1] == "b";
  }
}
