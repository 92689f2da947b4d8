/** Stopping the modules of a manager service within a total time: every module gets the average share
    and what its predecessors left over. The ICCP service hands on negative budgets, the data exchange
    service resets them to the average. Times are exact reals. */
module ShutdownBudget {

  /** The timeout of the next module when one that had `timeout` took `elapsed`. */
  function NextTimeout(average: real, timeout: real, elapsed: real, clamped: bool): real {
    var next := average + (timeout - elapsed);
    if clamped && next < 0.0 then average else next
  }

  /** The timeout given to module `i` when the modules before it took the times in `elapsed`. */
  function Timeout(average: real, elapsed: seq<real>, i: nat, clamped: bool): real
    requires i <= |elapsed|
  {
    if i == 0 then average
    else NextTimeout(average, Timeout(average, elapsed, i - 1, clamped), elapsed[i - 1], clamped)
  }

  /** Clamped, a module gets the average and what the one before left over of its timeout, and the average
      alone when that is negative. */
  lemma ClampedStep(average: real, elapsed: seq<real>, i: nat)
    requires 0 < i <= |elapsed|
    ensures var left := average + (Timeout(average, elapsed, i - 1, true) - elapsed[i - 1]);
            Timeout(average, elapsed, i, true) == if left < 0.0 then average else left
    ensures Timeout(average, elapsed, 0, true) == average
  {
  }

  /** The time the first `i` modules took. */
  function Spent(elapsed: seq<real>, i: nat): real
    requires i <= |elapsed|
  {
    if i == 0 then 0.0 else Spent(elapsed, i - 1) + elapsed[i - 1]
  }

  function Overrun(average: real, elapsed: seq<real>, i: nat, clamped: bool): real
    requires i < |elapsed|
  {
    var over := elapsed[i] - Timeout(average, elapsed, i, clamped);
    if over > 0.0 then over else 0.0
  }

  /** The sum of the overruns of the first `i` modules. */
  function Overruns(average: real, elapsed: seq<real>, i: nat, clamped: bool): real
    requires i <= |elapsed|
  {
    if i == 0 then 0.0 else Overruns(average, elapsed, i - 1, clamped) + Overrun(average, elapsed, i - 1, clamped)
  }

  /** The budget behind module `i` is reset: it overran by more than the average. */
  predicate Reset(average: real, elapsed: seq<real>, i: nat)
    requires i < |elapsed|
  {
    average + (Timeout(average, elapsed, i, true) - elapsed[i]) < 0.0
  }

  /** The overruns the clamped service forgives: those behind which the budget is reset. */
  function Forgiven(average: real, elapsed: seq<real>, i: nat): real
    requires i <= |elapsed|
  {
    if i == 0 then 0.0
    else
      Forgiven(average, elapsed, i - 1)
      + if Reset(average, elapsed, i - 1) then Overrun(average, elapsed, i - 1, true) else 0.0
  }

  /** The share of `n` modules together. */
  function Shares(average: real, n: nat): real {
    if n == 0 then 0.0 else Shares(average, n - 1) + average
  }

  lemma {:induction false} SharesAreProduct(average: real, n: nat)
    ensures Shares(average, n) == n as real * average
  {
    if n > 0 {
      SharesAreProduct(average, n - 1);
      calc {
        n as real * average;
        ((n - 1) as real + 1.0) * average;
        (n - 1) as real * average + average;
      }
    }
  }

  lemma SharesAreLimit(limit: real, n: nat)
    requires n > 0
    ensures Shares(limit / n as real, n) == limit
  {
    SharesAreProduct(limit / n as real, n);
  }

  /** Unclamped, what a module gets is the share of all modules up to it less the time spent so far. */
  lemma {:induction false} UnclampedTimeout(average: real, elapsed: seq<real>, i: nat)
    requires i <= |elapsed|
    ensures Timeout(average, elapsed, i, false) == Shares(average, i + 1) - Spent(elapsed, i)
  {
    if i > 0 {
      UnclampedTimeout(average, elapsed, i - 1);
    }
  }

  /** Unclamped, the total stays within the limit exactly when the last module keeps its timeout, in
      particular when all of them do. */
  lemma UnclampedWithinLimit(limit: real, elapsed: seq<real>)
    requires |elapsed| > 0
    ensures var average, last := limit / |elapsed| as real, |elapsed| - 1;
            Spent(elapsed, |elapsed|) <= limit <==> elapsed[last] <= Timeout(average, elapsed, last, false)
  {
    UnclampedTimeout(limit / |elapsed| as real, elapsed, |elapsed| - 1);
    SharesAreLimit(limit, |elapsed|);
  }

  /** Unclamped, module `i` gets a negative timeout exactly when the modules before it used more than
      their own shares and the share of `i`. */
  lemma UnclampedNegativeIff(average: real, elapsed: seq<real>, i: nat)
    requires i <= |elapsed|
    ensures Timeout(average, elapsed, i, false) < 0.0 <==> Spent(elapsed, i) > (i + 1) as real * average
  {
    UnclampedTimeout(average, elapsed, i);
    SharesAreProduct(average, i + 1);
  }

  /** Clamped, the balance is the same up to the forgiven overruns, and no timeout is negative. */
  lemma {:induction false} ClampedTimeout(average: real, elapsed: seq<real>, i: nat)
    requires i <= |elapsed| && average >= 0.0
    ensures Timeout(average, elapsed, i, true) ==
        Shares(average, i + 1) - Spent(elapsed, i) + Forgiven(average, elapsed, i)
    ensures Timeout(average, elapsed, i, true) >= 0.0
    ensures 0.0 <= Forgiven(average, elapsed, i) <= Overruns(average, elapsed, i, true)
  {
    if i > 0 {
      ClampedTimeout(average, elapsed, i - 1);
    }
  }

  /** Clamped, the total exceeds the limit by at most the overruns. */
  lemma ClampedWithinLimitPlusOverruns(limit: real, elapsed: seq<real>)
    requires |elapsed| > 0 && limit >= 0.0
    ensures Spent(elapsed, |elapsed|) <= limit + Overruns(limit / |elapsed| as real, elapsed, |elapsed|, true)
  {
    var average := limit / |elapsed| as real;
    SharesAreLimit(limit, |elapsed|);
    ClampedTimeout(average, elapsed, |elapsed| - 1);
  }

  /** The clamped service never gives less than the unclamped one, and the same as long as no budget
      has been reset. */
  lemma {:induction false} ClampedGivesMore(average: real, elapsed: seq<real>, i: nat)
    requires i <= |elapsed| && average >= 0.0
    ensures Timeout(average, elapsed, i, false) <= Timeout(average, elapsed, i, true)
    ensures Timeout(average, elapsed, i, false) == Timeout(average, elapsed, i, true) <==>
            forall j: nat :: j < i ==> !Reset(average, elapsed, j)
  {
    UnclampedTimeout(average, elapsed, i);
    ClampedTimeout(average, elapsed, i);
    ForgivenIffReset(average, elapsed, i);
  }

  lemma {:induction false} ForgivenIffReset(average: real, elapsed: seq<real>, i: nat)
    requires i <= |elapsed| && average >= 0.0
    ensures Forgiven(average, elapsed, i) >= 0.0
    ensures Forgiven(average, elapsed, i) == 0.0 <==> forall j: nat :: j < i ==> !Reset(average, elapsed, j)
  {
    if i > 0 {
      ForgivenIffReset(average, elapsed, i - 1);
    }
  }

  /** What a module does when it is asked to stop within a timeout: how long that takes, and whether it
      has stopped then. */
  datatype Behaviour = Behaviour(elapsed: real -> real, stops: real -> bool)

  class Module {
    var isRunning: bool
    var isAborted: bool
    var timeout: real
    const behaviour: Behaviour

    constructor (behaviour: Behaviour)
      ensures this.behaviour == behaviour && !isRunning && !isAborted
    {
      this.behaviour := behaviour;
      isRunning, isAborted, timeout := false, false, 0.0;
    }

    method Stop(timeout: real) returns (elapsed: real)
      modifies this`timeout, this`isRunning
      ensures this.timeout == timeout && elapsed == behaviour.elapsed(timeout)
      ensures isRunning == (old(isRunning) && !behaviour.stops(timeout))
    {
      this.timeout := timeout;
      if behaviour.stops(timeout) {
        isRunning := false;
      }
      elapsed := behaviour.elapsed(timeout);
    }

    method Abort()
      modifies this`isAborted
      ensures isAborted
    {
      isAborted := true;
    }
  }

  /** The times the first `n` modules take, each with the timeout that the ones before it leave. */
  function ElapsedBy(modules: seq<Module>, average: real, clamped: bool, n: nat): (elapsed: seq<real>)
    requires n <= |modules|
    ensures |elapsed| == n
  {
    if n == 0 then []
    else
      var earlier := ElapsedBy(modules, average, clamped, n - 1);
      earlier + [modules[n - 1].behaviour.elapsed(Timeout(average, earlier, n - 1, clamped))]
  }

  function Elapsed(modules: seq<Module>, average: real, clamped: bool): (elapsed: seq<real>)
    ensures |elapsed| == |modules|
  {
    ElapsedBy(modules, average, clamped, |modules|)
  }

  /** A timeout depends on the modules before it only. */
  lemma {:induction false} TimeoutPrefix(average: real, a: seq<real>, b: seq<real>, i: nat, clamped: bool)
    requires a <= b && i <= |a|
    ensures Timeout(average, a, i, clamped) == Timeout(average, b, i, clamped)
  {
    if i > 0 {
      TimeoutPrefix(average, a, b, i - 1, clamped);
    }
  }

  lemma {:induction false} ElapsedPrefix(modules: seq<Module>, average: real, clamped: bool, i: nat, n: nat)
    requires i <= n <= |modules|
    ensures ElapsedBy(modules, average, clamped, i) <= ElapsedBy(modules, average, clamped, n)
    decreases n
  {
    if i < n {
      ElapsedPrefix(modules, average, clamped, i, n - 1);
    }
  }

  /** Timeouts and elapsed times belong together: each module takes the time it takes with its timeout. */
  lemma ElapsedIsConsistent(modules: seq<Module>, average: real, clamped: bool, i: nat)
    requires i < |modules|
    ensures var elapsed := Elapsed(modules, average, clamped);
            elapsed[i] == modules[i].behaviour.elapsed(Timeout(average, elapsed, i, clamped))
  {
    ElapsedPrefix(modules, average, clamped, i + 1, |modules|);
    ElapsedPrefix(modules, average, clamped, i, |modules|);
    TimeoutPrefix(average, ElapsedBy(modules, average, clamped, i), Elapsed(modules, average, clamped), i, clamped);
  }

  ghost predicate Distinct(modules: seq<Module>) {
    forall i, j :: 0 <= i < j < |modules| ==> modules[i] != modules[j]
  }

  class ManagerService {
    const modules: seq<Module>
    const clamped: bool
    const limit: real

    constructor (modules: seq<Module>, clamped: bool, limit: real)
      ensures this.modules == modules && this.clamped == clamped && this.limit == limit
    {
      this.modules, this.clamped, this.limit := modules, clamped, limit;
    }

    /** The timeout of module `i` when the modules before it behave as they do. */
    function TimeoutOf(average: real, i: nat): real
      requires i <= |modules|
    {
      Timeout(average, Elapsed(modules, average, clamped), i, clamped)
    }

    /** Stops the modules from `index` on. */
    method StopModule(index: nat, averageTimeout: real, timeoutWithBonus: real)
      requires index <= |modules| && Distinct(modules)
      requires timeoutWithBonus == TimeoutOf(averageTimeout, index)
      modifies modules
      ensures forall i :: index <= i < |modules| ==>
        modules[i].timeout == TimeoutOf(averageTimeout, i) &&
        modules[i].isRunning == (old(modules[i].isRunning) && !modules[i].behaviour.stops(TimeoutOf(averageTimeout, i)))
      ensures forall m :: m in modules ==> m.isAborted == old(m.isAborted)
      ensures forall i :: 0 <= i < index ==>
        modules[i].timeout == old(modules[i].timeout) && modules[i].isRunning == old(modules[i].isRunning)
      decreases |modules| - index
    {
      hide Elapsed;
      if index >= |modules| {
        return;
      }
      var elapsed := modules[index].Stop(timeoutWithBonus);
      ElapsedIsConsistent(modules, averageTimeout, clamped, index);
      var newTimeOut := averageTimeout + (timeoutWithBonus - elapsed);
      if clamped && newTimeOut < 0.0 {
        newTimeOut := averageTimeout;
      }
      StopModule(index + 1, averageTimeout, newTimeOut);
    }

    /** Stops every module with its share of the limit. */
    method StopModules()
      requires Distinct(modules)
      modifies modules
      ensures forall i :: 0 <= i < |modules| ==>
        var timeout := TimeoutOf(limit / |modules| as real, i);
        modules[i].timeout == timeout &&
        modules[i].isRunning == (old(modules[i].isRunning) && !modules[i].behaviour.stops(timeout))
      ensures forall m :: m in modules ==> m.isAborted == old(m.isAborted)
    {
      if |modules| == 0 {
        return;
      }
      var averageTimeout := limit / |modules| as real;
      StopModule(0, averageTimeout, averageTimeout);
    }

    /** Aborts exactly the modules that still run. */
    method TerminateRunningModules()
      modifies modules
      ensures forall m :: m in modules ==>
        m.isRunning == old(m.isRunning) && m.timeout == old(m.timeout) &&
            m.isAborted == (old(m.isAborted) || old(m.isRunning))
    {
      for i := 0 to |modules|
        invariant forall m :: m in modules ==> m.isRunning == old(m.isRunning) && m.timeout == old(m.timeout)
        invariant forall m :: m in modules[..i] ==> m.isAborted == (old(m.isAborted) || old(m.isRunning))
        invariant forall m :: m in modules && m !in modules[..i] ==> m.isAborted == old(m.isAborted)
      {
        if modules[i].isRunning {
          modules[i].Abort();
        }
        assert modules[..i + 1] == modules[..i] + [modules[i]];
      }
    }

    /** The end of an iteration: a module that does not stop within the timeout it gets is aborted, and
        no other. */
    method Shutdown()
      requires Distinct(modules) && forall m :: m in modules ==> !m.isAborted
      modifies modules
      ensures forall i :: 0 <= i < |modules| ==>
        var timeout := TimeoutOf(limit / |modules| as real, i);
        modules[i].timeout == timeout &&
        modules[i].isAborted == (old(modules[i].isRunning) && !modules[i].behaviour.stops(timeout))
    {
      hide Elapsed;
      StopModules();
      assert forall i :: 0 <= i < |modules| ==> modules[i] in modules && !modules[i].isAborted;
      if exists m :: m in modules && m.isRunning {
        TerminateRunningModules();
      }
    }
  }
}
